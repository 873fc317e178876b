/** Cache keys: imagePullSecret + ":" + image never confuses two pairs, because every secret the
    hook produces is empty or the text of one JSON object, and no object text is a proper prefix of
    another (sections 4 and 7 of RFC 8259). The secret, in turn, tells the credentials it was made of. */
module CacheKey {
  import opened Collections
  import opened SortedStrings
  import ExpiringCache

  // ---------------------------------------------------------------------------------------------
  // The secret: json.Marshal of a DockerConfig
  // ---------------------------------------------------------------------------------------------

  type DockerAuths = map<string, string>

  const HEX := "0123456789abcdef"

  /** How encoding/json writes one character of a string. */
  function EscapeChar(c: char): string {
    if c == '"' then "\\\""
    else if c == '\\' then "\\\\"
    else if c == '\n' then "\\n"
    else if c == '\r' then "\\r"
    else if c == '\t' then "\\t"
    else if c == '\U{8}' then "\\b"
    else if c == '\U{C}' then "\\f"
    else if c < ' ' || c == '<' || c == '>' || c == '&' then "\\u00" + [HEX[c as int / 16], HEX[c as int % 16]]
    else if c == '\U{2028}' then "\\u2028"
    else if c == '\U{2029}' then "\\u2029"
    else [c]
  }

  function Escape(s: string): string {
    if s == "" then "" else EscapeChar(s[0]) + Escape(s[1..])
  }

  function Quote(s: string): string {
    "\"" + Escape(s) + "\""
  }

  function Braces(s: string): string {
    "{" + s + "}"
  }

  /** One member of the "auths" object. */
  function Member(key: string, auth: string): string {
    Quote(key) + ":" + Braces(Quote("auth") + ":" + Quote(auth))
  }

  /** The members of the "auths" object, in the order of their keys. */
  function MarshalAuths(auths: DockerAuths, keys: seq<string>): string
    requires forall k :: k in keys ==> k in auths
  {
    if keys == [] then ""
    else
      var member := Member(keys[0], auths[keys[0]]);
      if |keys| == 1 then member else member + "," + MarshalAuths(auths, keys[1..])
  }

  /** The hook never sets CredsStore. */
  ghost function MarshalConfig(auths: DockerAuths): string {
    Braces(Quote("auths") + ":" + Braces(MarshalAuths(auths, SortedKeys(auths.Keys)))
           + "," + Quote("credsStore") + ":" + Quote(""))
  }

  /** The image pull secret for the merged auths. */
  ghost function SecretText(auths: DockerAuths): string {
    if |auths| > 0 then MarshalConfig(auths) else ""
  }

  /** The auths of the readable secrets, later secrets winning. */
  function MergedAuths(secrets: seq<Result<DockerAuths>>): DockerAuths {
    if secrets == [] then map[]
    else
      var before := MergedAuths(secrets[..|secrets| - 1]);
      match secrets[|secrets| - 1]
      case Err(_) => before
      case Ok(auths) => before + auths
  }

  /** GetImagePullSecretFromPodSpec: unreadable secrets are skipped and reported. */
  method GetImagePullSecret(secrets: seq<Result<DockerAuths>>) returns (imagePullSecret: string, failed: bool)
    ensures imagePullSecret == SecretText(MergedAuths(secrets))
    ensures failed <==> exists s :: s in secrets && s.Err?
  {
    var auths: DockerAuths := map[];
    failed := false;
    for i := 0 to |secrets|
      invariant auths == MergedAuths(secrets[..i])
      invariant failed <==> exists s :: s in secrets[..i] && s.Err?
    {
      assert secrets[..i + 1][..i] == secrets[..i];
      match secrets[i]
      case Err(_) => failed := true;
      case Ok(more) => auths := auths + more;
    }
    assert secrets[..|secrets|] == secrets;
    imagePullSecret := "";
    if |auths| > 0 {
      var names := Keys(auths.Keys);
      imagePullSecret := Braces(Quote("auths") + ":" + Braces(MarshalAuths(auths, names))
                                + "," + Quote("credsStore") + ":" + Quote(""));
    }
  }

  // ---------------------------------------------------------------------------------------------
  // Object texts are prefix-free
  // ---------------------------------------------------------------------------------------------

  /** A scanner for the nesting of a JSON text: strings hide brackets, a backslash hides a quote. */
  datatype Scan = Scan(depth: int, inString: bool, escaped: bool)

  const OUTSIDE := Scan(0, false, false)
  const WITHIN := Scan(0, true, false)

  function Feed(st: Scan, c: char): Scan {
    if st.inString then
      if st.escaped then st.(escaped := false)
      else if c == '\\' then st.(escaped := true)
      else st.(inString := c != '"')
    else if c == '"' then st.(inString := true)
    else if c == '{' || c == '[' then st.(depth := st.depth + 1)
    else if c == '}' || c == ']' then st.(depth := st.depth - 1)
    else st
  }

  function FeedAll(st: Scan, s: string): Scan
    decreases |s|
  {
    if s == "" then st else FeedAll(Feed(st, s[0]), s[1..])
  }

  lemma {:induction false} FeedConcat(st: Scan, a: string, b: string)
    ensures FeedAll(st, a + b) == FeedAll(FeedAll(st, a), b)
    decreases |a|
  {
    if a == "" {
      assert a + b == b;
    } else {
      assert (a + b)[1..] == a[1..] + b;
      FeedConcat(Feed(st, a[0]), a[1..], b);
    }
  }

  lemma {:induction false} FeedShift(st: Scan, n: int, s: string)
    ensures FeedAll(st.(depth := st.depth + n), s)
         == var r := FeedAll(st, s); r.(depth := r.depth + n)
    decreases |s|
  {
    if s == "" {
    } else {
      FeedShift(Feed(st, s[0]), n, s[1..]);
    }
  }

  /** A bracketed text that closes at its end and not before. */
  ghost predicate ObjectText(s: string) {
    && s != "" && s[0] == '{'
    && FeedAll(OUTSIDE, s) == OUTSIDE
    && forall i :: 0 < i < |s| ==> FeedAll(OUTSIDE, s[..i]).depth >= 1
  }

  lemma ObjectTextsArePrefixFree(a: string, b: string)
    requires ObjectText(a) && ObjectText(b) && a <= b
    ensures a == b
  {
    assert b[..|a|] == a;
  }

  // ---------------------------------------------------------------------------------------------
  // A marshalled configuration is an object text
  // ---------------------------------------------------------------------------------------------

  /** Read from state `from`, the text comes back to it and never drops below its depth. */
  ghost predicate Keeps(from: Scan, s: string) {
    && FeedAll(from, s) == from
    && forall i :: 0 <= i <= |s| ==> FeedAll(from, s[..i]).depth >= from.depth
  }

  lemma KeepsConcat(from: Scan, a: string, b: string)
    requires Keeps(from, a) && Keeps(from, b)
    ensures Keeps(from, a + b)
  {
    FeedConcat(from, a, b);
    forall i | 0 <= i <= |a + b| ensures FeedAll(from, (a + b)[..i]).depth >= from.depth {
      if i <= |a| {
        assert (a + b)[..i] == a[..i];
      } else {
        assert (a + b)[..i] == a + b[..i - |a|];
        FeedConcat(from, a, b[..i - |a|]);
      }
    }
  }

  lemma KeepsChar(from: Scan, c: char)
    requires Feed(from, c) == from
    ensures Keeps(from, [c])
  {
    assert FeedAll(from, [c]) == FeedAll(Feed(from, c), "");
    forall i | 0 <= i <= 1 ensures FeedAll(from, [c][..i]).depth >= from.depth {
      assert [c][..i] == if i == 0 then "" else [c];
    }
  }

  /** A backslash and the character it hides. */
  lemma KeepsPair(c: char)
    ensures Keeps(WITHIN, ['\\', c])
  {
    var s := ['\\', c];
    assert s[1..] == [c] && [c][1..] == "";
    assert FeedAll(WITHIN, s) == FeedAll(Feed(Feed(WITHIN, '\\'), c), "");
    forall i | 0 <= i <= 2 ensures FeedAll(WITHIN, s[..i]).depth >= 0 {
      if i == 1 {
        assert s[..1] == ['\\'] && ['\\'][1..] == "";
      } else if i == 2 {
        assert s[..2] == s;
      }
    }
  }

  lemma {:induction false} KeepsPlain(s: string)
    requires forall i :: 0 <= i < |s| ==> s[i] != '"' && s[i] != '\\'
    ensures Keeps(WITHIN, s)
  {
    if s == "" {
    } else {
      assert s == [s[0]] + s[1..];
      KeepsChar(WITHIN, s[0]);
      KeepsPlain(s[1..]);
      KeepsConcat(WITHIN, [s[0]], s[1..]);
    }
  }

  lemma HexDigitIsPlain(i: nat)
    requires i < 16
    ensures HEX[i] != '"' && HEX[i] != '\\'
  {}

  /** Only the first two characters of an escape can be a backslash or a quote. */
  lemma EscapeCharShape(c: char)
    ensures var s := EscapeChar(c);
            && |s| >= 1 && (|s| == 1 ==> s[0] != '"' && s[0] != '\\') && (|s| > 1 ==> s[0] == '\\')
            && forall i :: 2 <= i < |s| ==> s[i] != '"' && s[i] != '\\'
  {
    if c < '\U{80}' {
      HexDigitIsPlain(c as int / 16);
      HexDigitIsPlain(c as int % 16);
    }
  }

  lemma KeepsEscapeChar(c: char)
    ensures Keeps(WITHIN, EscapeChar(c))
  {
    var s := EscapeChar(c);
    EscapeCharShape(c);
    if |s| == 1 {
      KeepsPlain(s);
    } else {
      assert s == ['\\', s[1]] + s[2..];
      KeepsPair(s[1]);
      KeepsPlain(s[2..]);
      KeepsConcat(WITHIN, ['\\', s[1]], s[2..]);
    }
  }

  lemma {:induction false} KeepsEscape(s: string)
    ensures Keeps(WITHIN, Escape(s))
  {
    if s == "" {
    } else {
      KeepsEscapeChar(s[0]);
      KeepsEscape(s[1..]);
      KeepsConcat(WITHIN, EscapeChar(s[0]), Escape(s[1..]));
    }
  }

  lemma FeedWrapped(open: char, inner: Scan, s: string, close: char)
    requires Feed(OUTSIDE, open) == inner && Feed(inner, close) == OUTSIDE && FeedAll(inner, s) == inner
    ensures FeedAll(OUTSIDE, [open] + s + [close]) == OUTSIDE
  {
    assert ([open] + s + [close])[1..] == s + [close];
    FeedConcat(inner, s, [close]);
    assert FeedAll(inner, [close]) == FeedAll(Feed(inner, close), "");
  }

  lemma FeedWrappedPrefix(open: char, inner: Scan, s: string, close: char, i: nat)
    requires Feed(OUTSIDE, open) == inner && Keeps(inner, s) && 0 < i <= |s| + 1
    ensures FeedAll(OUTSIDE, ([open] + s + [close])[..i]).depth >= inner.depth
  {
    var prefix := ([open] + s + [close])[..i];
    assert prefix[0] == open && prefix[1..] == s[..i - 1];
  }

  /** Between two states of the same depth, a closing character brings the text back. */
  lemma KeepsWrapped(open: char, inner: Scan, s: string, close: char)
    requires Feed(OUTSIDE, open) == inner && Feed(inner, close) == OUTSIDE && inner.depth >= 0
    requires Keeps(inner, s)
    ensures Keeps(OUTSIDE, [open] + s + [close])
    ensures forall i :: 0 < i <= |s| + 1 ==> FeedAll(OUTSIDE, ([open] + s + [close])[..i]).depth >= inner.depth
  {
    var whole := [open] + s + [close];
    FeedWrapped(open, inner, s, close);
    forall i: nat | 0 < i <= |s| + 1 ensures FeedAll(OUTSIDE, whole[..i]).depth >= inner.depth {
      FeedWrappedPrefix(open, inner, s, close, i);
    }
    forall i: nat | i <= |whole| ensures FeedAll(OUTSIDE, whole[..i]).depth >= 0 {
      if i == |whole| {
        assert whole[..i] == whole;
      } else if i > 0 {
        FeedWrappedPrefix(open, inner, s, close, i);
      }
    }
  }

  lemma KeepsQuote(s: string)
    ensures Keeps(OUTSIDE, Quote(s))
  {
    KeepsEscape(s);
    KeepsWrapped('"', WITHIN, Escape(s), '"');
  }

  lemma BracesMakeObjects(s: string)
    requires Keeps(OUTSIDE, s)
    ensures ObjectText(Braces(s)) && Keeps(OUTSIDE, Braces(s))
  {
    var inner := Scan(1, false, false);
    forall i | 0 <= i <= |s| ensures FeedAll(inner, s[..i]).depth >= 1 {
      FeedShift(OUTSIDE, 1, s[..i]);
    }
    FeedShift(OUTSIDE, 1, s);
    KeepsWrapped('{', inner, s, '}');
  }

  lemma KeepsMember(name: string, value: string)
    requires Keeps(OUTSIDE, value)
    ensures Keeps(OUTSIDE, Quote(name) + ":" + value)
  {
    KeepsQuote(name);
    KeepsChar(OUTSIDE, ':');
    KeepsConcat(OUTSIDE, Quote(name), ":");
    KeepsConcat(OUTSIDE, Quote(name) + ":", value);
  }

  lemma KeepsJoined(a: string, b: string)
    requires Keeps(OUTSIDE, a) && Keeps(OUTSIDE, b)
    ensures Keeps(OUTSIDE, a + "," + b)
  {
    KeepsChar(OUTSIDE, ',');
    KeepsConcat(OUTSIDE, a, ",");
    KeepsConcat(OUTSIDE, a + ",", b);
  }

  lemma {:induction false} KeepsAuths(auths: DockerAuths, keys: seq<string>)
    requires forall k :: k in keys ==> k in auths
    ensures Keeps(OUTSIDE, MarshalAuths(auths, keys))
  {
    if keys == [] {
    } else {
      var auth := Quote("auth") + ":" + Quote(auths[keys[0]]);
      KeepsQuote(auths[keys[0]]);
      KeepsMember("auth", Quote(auths[keys[0]]));
      BracesMakeObjects(auth);
      var member := Quote(keys[0]) + ":" + Braces(auth);
      KeepsMember(keys[0], Braces(auth));
      if |keys| > 1 {
        KeepsAuths(auths, keys[1..]);
        KeepsJoined(member, MarshalAuths(auths, keys[1..]));
      }
    }
  }

  lemma TwoMembers(name: string, value: string, name': string, value': string)
    requires Keeps(OUTSIDE, value) && Keeps(OUTSIDE, value')
    ensures ObjectText(Braces(Quote(name) + ":" + value + "," + Quote(name') + ":" + value'))
  {
    var first, second := Quote(name) + ":" + value, Quote(name') + ":" + value';
    KeepsMember(name, value);
    KeepsMember(name', value');
    KeepsJoined(first, second);
    assert first + "," + second == first + "," + Quote(name') + ":" + value';
    BracesMakeObjects(first + "," + second);
  }

  lemma ConfigIsObjectText(auths: DockerAuths)
    ensures ObjectText(MarshalConfig(auths))
  {
    var members := MarshalAuths(auths, SortedKeys(auths.Keys));
    KeepsAuths(auths, SortedKeys(auths.Keys));
    BracesMakeObjects(members);
    KeepsQuote("");
    TwoMembers("auths", Braces(members), "credsStore", Quote(""));
  }

  ghost predicate IsSecretText(s: string) {
    s == "" || ObjectText(s)
  }

  lemma SeparatorIsFound(a: string, image: string, b: string, image': string)
    requires IsSecretText(a) && IsSecretText(b) && |a| <= |b|
    requires a + ":" + image == b + ":" + image'
    ensures a == b && image == image'
  {
    var key := a + ":" + image;
    assert key == b + ":" + image';
    assert a == key[..|a|] && b == key[..|b|];
    assert a <= b;
    if a != "" {
      ObjectTextsArePrefixFree(a, b);
    } else {
      assert key[0] == ':';
    }
    assert image == key[|a| + 1..] && image' == key[|b| + 1..];
  }

  // ---------------------------------------------------------------------------------------------
  // Which credentials, and what text
  // ---------------------------------------------------------------------------------------------

  /** The secret names the credentials for a registry. */
  predicate Gives(secret: Result<DockerAuths>, name: string) {
    secret.Ok? && name in secret.value
  }

  /** The last readable secret that has credentials for a registry wins; without one there are none. */
  lemma {:induction false} LastSecretWins(secrets: seq<Result<DockerAuths>>, name: string)
    ensures name in MergedAuths(secrets) <==> exists i :: 0 <= i < |secrets| && Gives(secrets[i], name)
    ensures forall i :: 0 <= i < |secrets| && Gives(secrets[i], name)
                        && (forall j :: i < j < |secrets| ==> !Gives(secrets[j], name)) ==>
              name in MergedAuths(secrets) && MergedAuths(secrets)[name] == secrets[i].value[name]
  {
    if secrets == [] {
    } else {
      var front, last := secrets[..|secrets| - 1], secrets[|secrets| - 1];
      LastSecretWins(front, name);
      assert secrets == front + [last];
      assert forall i :: 0 <= i < |front| ==> front[i] == secrets[i];
      assert name in MergedAuths(secrets) <==> name in MergedAuths(front) || Gives(secrets[|front|], name);
      forall i | 0 <= i < |secrets| && Gives(secrets[i], name)
                 && (forall j :: i < j < |secrets| ==> !Gives(secrets[j], name))
        ensures name in MergedAuths(secrets) && MergedAuths(secrets)[name] == secrets[i].value[name]
      {
        assert i < |front| ==> !Gives(secrets[|front|], name);
      }
    }
  }

  /** What encoding/json does not write as it is. */
  predicate Special(c: char) {
    c in {'"', '\\', '<', '>', '&', '\U{2028}', '\U{2029}'} || c < ' '
  }

  /** Escapes are written only where they have to be, and in the short form where there is one; what
      an escape stands for is told by EscapeCharIsInverted. */
  lemma EscapesExactly(c: char)
    ensures EscapeChar(c) == [c] <==> !Special(c)
    ensures |EscapeChar(c)| == 2 <==> c in {'"', '\\', '\n', '\r', '\t', '\U{8}', '\U{C}'}
  {}

  lemma {:induction false} PlainIsKept(s: string)
    requires forall c :: c in s ==> !Special(c)
    ensures Escape(s) == s
  {
    if s == "" {
    } else {
      assert s == [s[0]] + s[1..];
      assert s[0] in s && forall c :: c in s[1..] ==> c in s;
      EscapesExactly(s[0]);
      PlainIsKept(s[1..]);
    }
  }

  predicate Plain(s: string) {
    forall c :: c in s ==> !Special(c)
  }

  function Quoted(s: string): string {
    "\"" + s + "\""
  }

  /** A registry's member as it reads when nothing needs an escape. */
  function PlainMember(name: string, auth: string): string {
    Quoted(name) + ":" + ("{" + (Quoted("auth") + ":" + Quoted(auth)) + "}")
  }

  function PlainConfig(members: string): string {
    "{" + (Quoted("auths") + ":" + ("{" + members + "}") + "," + Quoted("credsStore") + ":" + Quoted("")) + "}"
  }

  lemma PlainIsQuoted(s: string)
    requires Plain(s)
    ensures Quote(s) == Quoted(s)
  {
    PlainIsKept(s);
  }

  lemma NamesArePlain()
    ensures Plain("auth") && Plain("auths") && Plain("credsStore") && Plain("")
  {}

  lemma MemberIsPlain(name: string, auth: string)
    requires Plain(name) && Plain(auth)
    ensures Member(name, auth) == PlainMember(name, auth)
  {
    NamesArePlain();
    PlainIsQuoted("auth");
    PlainIsQuoted(name);
    PlainIsQuoted(auth);
  }

  lemma ConfigIsPlain(auths: DockerAuths, members: string)
    requires |auths| > 0 && MarshalAuths(auths, SortedKeys(auths.Keys)) == members
    ensures SecretText(auths) == PlainConfig(members)
  {
    NamesArePlain();
    PlainIsQuoted("auths");
    PlainIsQuoted("credsStore");
    PlainIsQuoted("");
  }

  lemma Sorted(names: seq<string>, auths: DockerAuths)
    requires Ascending(names) && forall name :: name in names <==> name in auths
    ensures SortedKeys(auths.Keys) == names
  {
    AscendingIsUnique(SortedKeys(auths.Keys), names);
  }

  /** The text of one credential as registries read it. */
  lemma OneCredentialAsText(name: string, auth: string)
    requires Plain(name) && Plain(auth)
    ensures SecretText(map[name := auth]) == PlainConfig(PlainMember(name, auth))
  {
    var auths: DockerAuths := map[name := auth];
    assert name in auths;
    Sorted([name], auths);
    MemberIsPlain(name, auth);
    ConfigIsPlain(auths, PlainMember(name, auth));
  }

  /** Two credentials are written in the order of their registries. */
  lemma TwoCredentialsAsText(auths: DockerAuths, a: string, b: string)
    requires auths.Keys == {a, b} && Before(a, b)
    requires Plain(a) && Plain(b) && Plain(auths[a]) && Plain(auths[b])
    ensures SecretText(auths) == PlainConfig(PlainMember(a, auths[a]) + "," + PlainMember(b, auths[b]))
  {
    assert a in auths && b in auths;
    Sorted([a, b], auths);
    MemberIsPlain(a, auths[a]);
    MemberIsPlain(b, auths[b]);
    assert [a, b][1..] == [b];
    ConfigIsPlain(auths, PlainMember(a, auths[a]) + "," + PlainMember(b, auths[b]));
  }

  // ---------------------------------------------------------------------------------------------
  // The secret can be read back
  // ---------------------------------------------------------------------------------------------

  function HexValue(d: char): int {
    if d <= '9' then d as int - '0' as int else d as int - 'a' as int + 10
  }

  lemma HexDigitIsRead(i: nat)
    requires i < 16
    ensures HexValue(HEX[i]) == i
  {}

  /** How an escaped character begins tells where it ends. */
  function WrittenLength(s: string): nat
    requires s != "" && (s[0] == '\\' ==> |s| > 1)
  {
    if s[0] != '\\' then 1 else if s[1] != 'u' then 2 else 6
  }

  lemma EscapeCharLength(c: char)
    ensures var s := EscapeChar(c);
            s != "" && s[0] != '"' && (s[0] == '\\' ==> |s| > 1) && |s| == WrittenLength(s)
  {}

  /** The character that is written so. */
  function Unescape(s: string): int
    requires |s| == 1 || |s| == 2 || |s| == 6
  {
    if |s| == 1 then s[0] as int
    else if |s| == 6 then
      if s[2] == '0' then 16 * HexValue(s[4]) + HexValue(s[5]) else 0x2020 + HexValue(s[5])
    else match s[1]
      case 'n' => 10
      case 'r' => 13
      case 't' => 9
      case 'b' => 8
      case 'f' => 12
      case other => other as int
  }

  lemma HexEscapeIsInverted(c: char)
    requires c < '\U{80}'
    ensures Unescape("\\u00" + [HEX[c as int / 16], HEX[c as int % 16]]) == c as int
  {
    HexDigitIsRead(c as int / 16);
    HexDigitIsRead(c as int % 16);
  }

  lemma EscapeCharIsInverted(c: char)
    ensures |EscapeChar(c)| == 1 || |EscapeChar(c)| == 2 || |EscapeChar(c)| == 6
    ensures Unescape(EscapeChar(c)) == c as int
  {
    if c < '\U{80}' {
      HexEscapeIsInverted(c);
    }
  }

  /** No way of writing a character begins another, so the first one is known. */
  lemma EscapeCharIsUnique(c: char, c': char)
    requires EscapeChar(c) <= EscapeChar(c')
    ensures c == c'
  {
    EscapeCharLength(c);
    EscapeCharLength(c');
    var s, s' := EscapeChar(c), EscapeChar(c');
    assert s[0] == s'[0] && (s[0] == '\\' ==> s[1] == s'[1]);
    assert s == s';
    EscapeCharIsInverted(c);
    EscapeCharIsInverted(c');
  }

  lemma EscapeCharIsRead(c: char, r: string, c': char, r': string)
    requires EscapeChar(c) + r == EscapeChar(c') + r'
    ensures c == c' && r == r'
  {
    var whole, n, n' := EscapeChar(c) + r, |EscapeChar(c)|, |EscapeChar(c')|;
    assert whole == EscapeChar(c') + r';
    assert EscapeChar(c) == whole[..n] && EscapeChar(c') == whole[..n'];
    if n <= n' {
      EscapeCharIsUnique(c, c');
    } else {
      EscapeCharIsUnique(c', c);
    }
    assert r == whole[n..] && r' == whole[n..];
  }

  lemma Regroup(a: string, b: string, c: string)
    ensures a + b + c == a + (b + c)
  {}

  lemma EscapedTail(s: string, r: string)
    requires s != ""
    ensures Escape(s) + "\"" + r == EscapeChar(s[0]) + (Escape(s[1..]) + "\"" + r)
    ensures (Escape(s) + "\"" + r)[0] != '"'
  {
    var first, others := EscapeChar(s[0]), Escape(s[1..]);
    Regroup(first, others, "\"");
    Regroup(first, others + "\"", r);
    EscapeCharLength(s[0]);
    assert (first + (others + "\"" + r))[0] == first[0];
  }

  lemma {:induction false} EscapeIsRead(s: string, r: string, s': string, r': string)
    requires Escape(s) + "\"" + r == Escape(s') + "\"" + r'
    ensures s == s' && r == r'
  {
    if s == "" || s' == "" {
      if s != "" { EscapedTail(s, r); }
      if s' != "" { EscapedTail(s', r'); }
      assert (Escape("") + "\"" + r)[1..] == r && (Escape("") + "\"" + r')[1..] == r';
    } else {
      EscapedTail(s, r);
      EscapedTail(s', r');
      EscapeCharIsRead(s[0], Escape(s[1..]) + "\"" + r, s'[0], Escape(s'[1..]) + "\"" + r');
      EscapeIsRead(s[1..], r, s'[1..], r');
      assert s == [s[0]] + s[1..] && s' == [s'[0]] + s'[1..];
    }
  }

  /** The same beginning can be dropped. */
  lemma SameFront(front: string, r: string, r': string)
    requires front + r == front + r'
    ensures r == r'
  {
    assert r == (front + r)[|front|..] && r' == (front + r')[|front|..];
  }

  lemma QuoteLayout(escaped: string, r: string)
    ensures "\"" + escaped + "\"" + r == "\"" + (escaped + "\"" + r)
  {
    Regroup("\"", escaped, "\"");
    Regroup("\"", escaped + "\"", r);
  }

  lemma QuoteIsRead(s: string, r: string, s': string, r': string)
    requires Quote(s) + r == Quote(s') + r'
    ensures s == s' && r == r'
  {
    QuoteLayout(Escape(s), r);
    QuoteLayout(Escape(s'), r');
    SameFront("\"", Escape(s) + "\"" + r, Escape(s') + "\"" + r');
    EscapeIsRead(s, r, s', r');
  }

  /** A member, from its quoted parts: all but the key and the value is the same for each. */
  lemma MemberLayout(key: string, name: string, value: string, r: string)
    ensures key + ":" + Braces(name + ":" + value) + r
         == key + (":" + "{" + (name + ":") + (value + ("}" + r)))
  {
    var inner, end := name + ":" + value, "}" + r;
    Regroup(key + ":", Braces(inner), r);
    Regroup(key, ":", Braces(inner) + r);
    Regroup("{" + inner, "}", r);
    Regroup("{", inner, end);
    Regroup(name + ":", value, end);
    Regroup(":", "{", name + ":" + (value + end));
    Regroup(":" + "{", name + ":", value + end);
  }

  lemma MemberIsRead(key: string, auth: string, r: string, key': string, auth': string, r': string)
    requires Member(key, auth) + r == Member(key', auth') + r'
    ensures key == key' && auth == auth' && r == r'
  {
    var front := ":" + "{" + (Quote("auth") + ":");
    MemberLayout(Quote(key), Quote("auth"), Quote(auth), r);
    MemberLayout(Quote(key'), Quote("auth"), Quote(auth'), r');
    QuoteIsRead(key, front + (Quote(auth) + ("}" + r)), key', front + (Quote(auth') + ("}" + r')));
    SameFront(front, Quote(auth) + ("}" + r), Quote(auth') + ("}" + r'));
    QuoteIsRead(auth, "}" + r, auth', "}" + r');
    SameFront("}", r, r');
  }

  /** What follows the first member: the other members, or the end of the object. */
  function AfterFirst(auths: DockerAuths, keys: seq<string>, r: string): string
    requires keys != [] && forall k :: k in keys ==> k in auths
  {
    if |keys| == 1 then "}" + r else "," + (MarshalAuths(auths, keys[1..]) + "}" + r)
  }

  lemma AuthsLayout(auths: DockerAuths, keys: seq<string>, r: string)
    requires keys != [] && forall k :: k in keys ==> k in auths
    ensures MarshalAuths(auths, keys) + "}" + r == Member(keys[0], auths[keys[0]]) + AfterFirst(auths, keys, r)
  {
    var member := Member(keys[0], auths[keys[0]]);
    if |keys| == 1 {
      Regroup(member, "}", r);
    } else {
      var others := MarshalAuths(auths, keys[1..]);
      Regroup(member + ",", others, "}");
      Regroup(member + ",", others + "}", r);
      Regroup(member, ",", others + "}" + r);
    }
  }

  lemma FirstIsRead(auths: DockerAuths, keys: seq<string>, r: string,
                    auths': DockerAuths, keys': seq<string>, r': string)
    requires keys != [] && keys' != []
    requires (forall k :: k in keys ==> k in auths) && (forall k :: k in keys' ==> k in auths')
    requires MarshalAuths(auths, keys) + "}" + r == MarshalAuths(auths', keys') + "}" + r'
    ensures keys[0] == keys'[0] && auths[keys[0]] == auths'[keys'[0]]
    ensures AfterFirst(auths, keys, r) == AfterFirst(auths', keys', r')
  {
    AuthsLayout(auths, keys, r);
    AuthsLayout(auths', keys', r');
    MemberIsRead(keys[0], auths[keys[0]], AfterFirst(auths, keys, r),
                 keys'[0], auths'[keys'[0]], AfterFirst(auths', keys', r'));
  }

  lemma OthersAreRead(auths: DockerAuths, keys: seq<string>, r: string,
                      auths': DockerAuths, keys': seq<string>, r': string)
    requires keys != [] && keys' != []
    requires (forall k :: k in keys ==> k in auths) && (forall k :: k in keys' ==> k in auths')
    requires AfterFirst(auths, keys, r) == AfterFirst(auths', keys', r')
    ensures |keys| == 1 <==> |keys'| == 1
    ensures |keys| > 1 ==>
              MarshalAuths(auths, keys[1..]) + "}" + r == MarshalAuths(auths', keys'[1..]) + "}" + r'
  {
    assert AfterFirst(auths, keys, r)[0] == if |keys| == 1 then '}' else ',';
    assert AfterFirst(auths', keys', r')[0] == if |keys'| == 1 then '}' else ',';
    if |keys| > 1 {
      SameFront(",", MarshalAuths(auths, keys[1..]) + "}" + r, MarshalAuths(auths', keys'[1..]) + "}" + r');
    }
  }

  lemma FirstAndOthersAgree(auths: DockerAuths, keys: seq<string>, auths': DockerAuths, keys': seq<string>)
    requires keys != [] && keys' != []
    requires (forall k :: k in keys ==> k in auths) && (forall k :: k in keys' ==> k in auths')
    requires keys[0] == keys'[0] && auths[keys[0]] == auths'[keys'[0]]
    requires keys[1..] == keys'[1..] && forall k :: k in keys[1..] ==> auths[k] == auths'[k]
    ensures keys == keys' && forall k :: k in keys ==> auths[k] == auths'[k]
  {
    assert keys == [keys[0]] + keys[1..] && keys' == [keys'[0]] + keys'[1..];
  }

  lemma {:induction false} AuthsAreRead(auths: DockerAuths, keys: seq<string>, r: string,
                                        auths': DockerAuths, keys': seq<string>, r': string)
    requires keys != [] && keys' != []
    requires (forall k :: k in keys ==> k in auths) && (forall k :: k in keys' ==> k in auths')
    requires MarshalAuths(auths, keys) + "}" + r == MarshalAuths(auths', keys') + "}" + r'
    ensures keys == keys' && forall k :: k in keys ==> auths[k] == auths'[k]
  {
    FirstIsRead(auths, keys, r, auths', keys', r');
    OthersAreRead(auths, keys, r, auths', keys', r');
    if |keys| == 1 {
    } else {
      AuthsAreRead(auths, keys[1..], r, auths', keys'[1..], r');
    }
    FirstAndOthersAgree(auths, keys, auths', keys');
  }

  /** The whole, from its quoted parts and the members: all but the members is the same for each. */
  lemma ConfigLayout(name: string, members: string, name': string, value: string)
    ensures Braces(name + ":" + Braces(members) + "," + name' + ":" + value)
         == "{" + (name + ":") + "{" + (members + "}" + ("," + name' + ":" + value + "}"))
  {
    var first, rest := name + ":" + Braces(members), "," + name' + ":" + value + "}";
    Regroup(first, ",", name');
    Regroup(first, "," + name', ":");
    Regroup(first, "," + name' + ":", value);
    Regroup(first, "," + name' + ":" + value, "}");
    Regroup("{", first + "," + name' + ":" + value, "}");
    Regroup(name + ":", Braces(members), rest);
    Regroup("{" + members, "}", rest);
    Regroup("{", members, "}" + rest);
    Regroup(members, "}", rest);
    Regroup("{", name + ":", "{" + (members + "}" + rest));
    Regroup("{" + (name + ":"), "{", members + "}" + rest);
  }

  lemma MembersAreRead(members: string, members': string, name: string, name': string, value: string)
    requires Braces(name + ":" + Braces(members) + "," + name' + ":" + value)
          == Braces(name + ":" + Braces(members') + "," + name' + ":" + value)
    ensures var rest := "," + name' + ":" + value + "}"; members + "}" + rest == members' + "}" + rest
  {
    var rest := "," + name' + ":" + value + "}";
    ConfigLayout(name, members, name', value);
    ConfigLayout(name, members', name', value);
    SameFront("{" + (name + ":") + "{", members + "}" + rest, members' + "}" + rest);
  }

  lemma NamesAreRead(auths: DockerAuths, auths': DockerAuths)
    requires var keys, keys' := SortedKeys(auths.Keys), SortedKeys(auths'.Keys);
             keys == keys' && forall k :: k in keys ==> k in auths && k in auths' && auths[k] == auths'[k]
    ensures auths == auths'
  {
    assert auths.Keys == auths'.Keys;
  }

  lemma SomeName(auths: DockerAuths)
    requires |auths| > 0
    ensures SortedKeys(auths.Keys) != []
  {
    var k :| k in auths;
    assert k in SortedKeys(auths.Keys);
  }

  lemma ConfigTextIsUnique(auths: DockerAuths, auths': DockerAuths)
    requires |auths| > 0 && |auths'| > 0 && MarshalConfig(auths) == MarshalConfig(auths')
    ensures auths == auths'
  {
    var keys, keys' := SortedKeys(auths.Keys), SortedKeys(auths'.Keys);
    var rest := "," + Quote("credsStore") + ":" + Quote("") + "}";
    MembersAreRead(MarshalAuths(auths, keys), MarshalAuths(auths', keys'),
                   Quote("auths"), Quote("credsStore"), Quote(""));
    SomeName(auths);
    SomeName(auths');
    AuthsAreRead(auths, keys, rest, auths', keys', rest);
    NamesAreRead(auths, auths');
  }

  /** The secret tells the credentials: no two maps of auths are marshalled alike. */
  lemma SecretTextIsUnique(auths: DockerAuths, auths': DockerAuths)
    requires SecretText(auths) == SecretText(auths')
    ensures auths == auths'
  {
    if |auths| == 0 || |auths'| == 0 {
      assert auths == map[] && auths' == map[];
    } else {
      ConfigTextIsUnique(auths, auths');
    }
  }

  /** Two requests share a cache key only if they carry the same credentials and the same image. */
  lemma CacheKeyIsInjective(auths: DockerAuths, image: string, auths': DockerAuths, image': string)
    requires ExpiringCache.CacheKey(SecretText(auths), image) == ExpiringCache.CacheKey(SecretText(auths'), image')
    ensures auths == auths' && image == image'
  {
    ConfigIsObjectText(auths);
    ConfigIsObjectText(auths');
    if |SecretText(auths)| <= |SecretText(auths')| {
      SeparatorIsFound(SecretText(auths), image, SecretText(auths'), image');
    } else {
      SeparatorIsFound(SecretText(auths'), image', SecretText(auths), image);
    }
    SecretTextIsUnique(auths, auths');
  }
}
