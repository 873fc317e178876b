/** Small shared vocabulary: optional and fallible values, and sums over sequences. */
module Collections {

  datatype Option<+T> = None | Some(value: T)

  datatype Result<+T> = Ok(value: T) | Err(message: string)

  /** The total of a sequence of naturals. */
  function Sum(s: seq<nat>): nat {
    if s == [] then 0 else s[0] + Sum(s[1..])
  }

  lemma {:induction false} SumAppend(a: seq<nat>, b: seq<nat>)
    ensures Sum(a + b) == Sum(a) + Sum(b)
  {
    if a == [] {
      assert a + b == b;
    } else {
      assert (a + b)[1..] == a[1..] + b;
      SumAppend(a[1..], b);
    }
  }

  /** Replacing one summand moves the total by the difference. */
  lemma SumUpdate(s: seq<nat>, i: nat, v: nat)
    requires i < |s|
    ensures Sum(s[i := v]) + s[i] == Sum(s) + v
  {
    assert s == s[..i] + ([s[i]] + s[i + 1..]);
    assert s[i := v] == s[..i] + ([v] + s[i + 1..]);
    SumAppend(s[..i], [s[i]] + s[i + 1..]);
    SumAppend(s[..i], [v] + s[i + 1..]);
  }

  /** A constant sequence totals its length times the constant. */
  lemma SumConstant(s: seq<nat>, v: nat)
    requires forall i :: 0 <= i < |s| ==> s[i] == v
    ensures Sum(s) == |s| * v
  {
    if s == [] {
    } else {
      SumConstant(s[1..], v);
    }
  }

  /** How often x occurs in s. */
  function Count<T(==)>(s: seq<T>, x: T): nat {
    if s == [] then 0 else (if s[0] == x then 1 else 0) + Count(s[1..], x)
  }

  lemma {:induction false} CountAppend<T>(s: seq<T>, y: T, x: T)
    ensures Count(s + [y], x) == Count(s, x) + (if x == y then 1 else 0)
  {
    if s == [] {
    } else {
      assert (s + [y])[1..] == s[1..] + [y];
      CountAppend(s[1..], y, x);
    }
  }

  lemma SubsetSize<T>(a: set<T>, b: set<T>)
    requires a <= b
    ensures |a| <= |b|
  {
    if a == {} {
    } else {
      var x :| x in a;
      SubsetSize(a - {x}, b - {x});
    }
  }
}
