/** Go's order on strings and the sorted listing of a set of strings (`keys` in pkg/arch/hook.go). */
module SortedStrings {

  /** Strict lexicographic order by code point, which is Go's byte order on UTF-8 text. */
  predicate Before(a: string, b: string) {
    b != "" && (a == "" || a[0] < b[0] || (a[0] == b[0] && Before(a[1..], b[1..])))
  }

  lemma {:induction false} BeforeIsTransitive(a: string, b: string, c: string)
    requires Before(a, b) && Before(b, c)
    ensures Before(a, c)
  {
    if a != "" && a[0] == b[0] == c[0] {
      BeforeIsTransitive(a[1..], b[1..], c[1..]);
    }
  }

  lemma {:induction false} BeforeIsTotal(a: string, b: string)
    ensures Before(a, b) || a == b || Before(b, a)
    ensures !(Before(a, b) && Before(b, a))
    ensures Before(a, b) ==> a != b
  {
    if a != "" && b != "" && a[0] == b[0] {
      BeforeIsTotal(a[1..], b[1..]);
      assert a == [a[0]] + a[1..] && b == [b[0]] + b[1..];
    }
  }

  /** The order of the first characters that differ; a beginning comes before the whole. */
  lemma {:induction false} BeforeAtFirstDifference(a: string, b: string)
    ensures Before(a, b)
       <==> exists i: nat :: i <= |a| && i < |b| && a[..i] == b[..i] && (i < |a| ==> a[i] < b[i])
  {
    if a == "" || b == "" || a[0] != b[0] {
      assert a[..0] == b[..0];
      assert forall i: nat :: 0 < i <= |a| && i < |b| ==> a[..i][0] == a[0] && b[..i][0] == b[0];
    } else {
      BeforeAtFirstDifference(a[1..], b[1..]);
      forall i: nat | i <= |a| - 1 && i < |b| - 1 ensures a[1..][..i] == b[1..][..i] <==> a[..i + 1] == b[..i + 1] {
        assert a[..i + 1] == [a[0]] + a[1..][..i] && b[..i + 1] == [b[0]] + b[1..][..i];
        assert a[1..][..i] == a[..i + 1][1..] && b[1..][..i] == b[..i + 1][1..];
      }
      if Before(a, b) {
        var i: nat :| i <= |a| - 1 && i < |b| - 1 && a[1..][..i] == b[1..][..i]
                      && (i < |a| - 1 ==> a[1..][i] < b[1..][i]);
        assert a[..i + 1] == b[..i + 1];
      }
      if i: nat :| i <= |a| && i < |b| && a[..i] == b[..i] && (i < |a| ==> a[i] < b[i]) {
        assert i > 0 && a[1..][..i - 1] == b[1..][..i - 1];
        assert i < |a| ==> a[1..][i - 1] < b[1..][i - 1];
      }
    }
  }

  ghost predicate Ascending(s: seq<string>) {
    forall i, j :: 0 <= i < j < |s| ==> Before(s[i], s[j])
  }

  /** One step of an insertion sort; x is new to s. */
  function Insert(s: seq<string>, x: string): (r: seq<string>)
    requires Ascending(s) && x !in s
    ensures Ascending(r) && |r| == |s| + 1 && forall y :: y in r <==> y in s || y == x
  {
    if s == [] then [x]
    else if Before(x, s[0]) then
      assert forall i :: 0 < i < |s| ==> Before(s[0], s[i]);
      assert forall i :: 0 < i < |s| ==> Before(x, s[i]) by {
        forall i | 0 < i < |s| ensures Before(x, s[i]) { BeforeIsTransitive(x, s[0], s[i]); }
      }
      [x] + s
    else
      BeforeIsTotal(x, s[0]);
      var rest := Insert(s[1..], x);
      assert forall y :: y in rest ==> Before(s[0], y);
      [s[0]] + rest
  }

  /** The members of a set, in order. */
  ghost function SortedKeys(s: set<string>): (r: seq<string>)
    ensures Ascending(r) && forall x :: x in r <==> x in s
  {
    if s == {} then [] else
    var x :| x in s;
    Insert(SortedKeys(s - {x}), x)
  }

  lemma SomeMember(s: seq<string>)
    ensures s != [] ==> exists x :: x in s
  {
    if s != [] {
      assert s[0] in s;
    }
  }

  /** There is only one way to list a set in order. */
  lemma {:induction false} AscendingIsUnique(a: seq<string>, b: seq<string>)
    requires Ascending(a) && Ascending(b) && forall x :: x in a <==> x in b
    ensures a == b
  {
    SomeMember(a);
    SomeMember(b);
    if a != [] {
      assert a[0] in b;
      assert b[0] in a;
      BeforeIsTotal(a[0], b[0]);
      assert a[0] == b[0];
      forall x ensures x in a[1..] <==> x in b[1..] {
        BeforeIsTotal(a[0], a[0]);
        assert x in a <==> x == a[0] || x in a[1..];
        assert x in b <==> x == b[0] || x in b[1..];
        assert a[0] !in a[1..] && b[0] !in b[1..];
      }
      AscendingIsUnique(a[1..], b[1..]);
    }
  }

  /** `keys`: range over the set in any order, then sort. */
  method Keys(members: set<string>) returns (r: seq<string>)
    ensures r == SortedKeys(members)
  {
    r := [];
    var rest := members;
    while rest != {}
      invariant rest <= members && Ascending(r)
      invariant forall x :: x in r <==> x in members - rest
      decreases |rest|
    {
      var k :| k in rest;
      rest := rest - {k};
      r := Insert(r, k);
    }
    AscendingIsUnique(r, SortedKeys(members));
  }
}
