/** Image names: parseImage, and the repository name read back from a manifest path
    (pkg/registry/registry.go). */
module ImageReference {
  import opened Collections

  // ---------------------------------------------------------------------------------------------
  // strings.SplitN, strings.Split, strings.Join
  // ---------------------------------------------------------------------------------------------

  /** strings.SplitN(s, sep, 2): one part, or the two sides of the first separator. */
  function SplitN2(s: string, sep: char): (parts: seq<string>)
    ensures sep !in s ==> parts == [s]
    ensures sep in s ==> |parts| == 2 && sep !in parts[0] && s == parts[0] + [sep] + parts[1]
  {
    if s == "" then [s]
    else if s[0] == sep then ["", s[1..]]
    else
      var rest := SplitN2(s[1..], sep);
      if |rest| == 1 then [s] else [[s[0]] + rest[0], rest[1]]
  }

  /** The first separator decides how a text splits. */
  lemma {:induction false} SplitN2At(a: string, sep: char, b: string)
    requires sep !in a
    ensures SplitN2(a + [sep] + b, sep) == [a, b]
  {
    var s := a + [sep] + b;
    if a == "" {
      assert s[1..] == b;
    } else {
      assert s[1..] == a[1..] + [sep] + b;
      assert s[0] == a[0] && a == [a[0]] + a[1..];
      SplitN2At(a[1..], sep, b);
      assert (a[1..] + [sep] + b)[|a| - 1] == sep;
    }
  }

  /** A character more in front of the first part. */
  function Grown(c: char, parts: seq<string>): seq<string>
    requires parts != []
  {
    [[c] + parts[0]] + parts[1..]
  }

  function Split(s: string, sep: char): (parts: seq<string>)
    ensures |parts| >= 1
    ensures sep !in s ==> parts == [s]
  {
    if s == "" then [""]
    else
      var rest := Split(s[1..], sep);
      assert s == [s[0]] + s[1..];
      if s[0] == sep then [""] + rest else Grown(s[0], rest)
  }

  function Join(parts: seq<string>, sep: char): string {
    if parts == [] then ""
    else if |parts| == 1 then parts[0]
    else parts[0] + [sep] + Join(parts[1..], sep)
  }

  lemma GrownConcat(c: char, a: seq<string>, b: seq<string>)
    requires a != []
    ensures Grown(c, a + b) == Grown(c, a) + b
  {
    assert (a + b)[1..] == a[1..] + b;
  }

  /** What holds of the tails holds of the texts, when these begin alike. */
  lemma SplitConcatStep(whole: string, a: string, b: string, sep: char)
    requires whole != "" && a != "" && whole[0] == a[0]
    requires Split(whole[1..], sep) == Split(a[1..], sep) + Split(b, sep)
    ensures Split(whole, sep) == Split(a, sep) + Split(b, sep)
  {
    if a[0] == sep {
      assert [""] + (Split(a[1..], sep) + Split(b, sep)) == [""] + Split(a[1..], sep) + Split(b, sep);
    } else {
      GrownConcat(a[0], Split(a[1..], sep), Split(b, sep));
    }
  }

  lemma {:induction false} SplitConcat(a: string, sep: char, b: string)
    ensures Split(a + [sep] + b, sep) == Split(a, sep) + Split(b, sep)
  {
    var whole := a + [sep] + b;
    if a == "" {
      assert whole[1..] == b;
    } else {
      assert whole[1..] == a[1..] + [sep] + b;
      SplitConcat(a[1..], sep, b);
      SplitConcatStep(whole, a, b, sep);
    }
  }

  lemma {:induction false} SplitHasSeparator(s: string, sep: char)
    ensures |Split(s, sep)| >= 2 <==> sep in s
  {
    if s == "" {
    } else {
      SplitHasSeparator(s[1..], sep);
      assert sep in s <==> s[0] == sep || sep in s[1..];
    }
  }

  lemma {:induction false} JoinConcat(a: seq<string>, b: seq<string>, sep: char)
    requires a != [] && b != []
    ensures Join(a + b, sep) == Join(a, sep) + [sep] + Join(b, sep)
  {
    assert (a + b)[1..] == a[1..] + b;
    if |a| == 1 {
    } else {
      JoinConcat(a[1..], b, sep);
    }
  }

  /** A character more in the first part is a character more in the whole. */
  lemma JoinGrows(c: char, parts: seq<string>, sep: char)
    requires parts != []
    ensures Join(Grown(c, parts), sep) == [c] + Join(parts, sep)
  {
    assert Grown(c, parts)[1..] == parts[1..];
  }

  lemma {:induction false} JoinSplit(s: string, sep: char)
    ensures Join(Split(s, sep), sep) == s
  {
    if s == "" {
    } else {
      JoinSplit(s[1..], sep);
      var rest := Split(s[1..], sep);
      if s[0] == sep {
        assert ([""] + rest)[1..] == rest && s == "" + [sep] + s[1..];
      } else {
        JoinGrows(s[0], rest, sep);
        assert s == [s[0]] + s[1..];
      }
    }
  }

  // ---------------------------------------------------------------------------------------------
  // parseImage
  // ---------------------------------------------------------------------------------------------

  datatype RegistryProxy = RegistryProxy(registry: string, proxy: string)

  datatype Reference = Reference(registry: string, image: string, tag: string, hasRef: bool)

  /** The image up to the digest. */
  function WithoutDigest(image: string): string {
    SplitN2(image, '@')[0]
  }

  /** A first path element is a registry when it has a dot or a colon and something follows. */
  predicate NamesRegistry(image: string) {
    var parts := SplitN2(image, '/');
    |parts| == 2 && ('.' in parts[0] || ':' in parts[0])
  }

  const DOCKER_IO := "docker.io"

  lemma DockerIoIsRegistry()
    ensures '.' in DOCKER_IO && '/' !in DOCKER_IO
  {
    assert DOCKER_IO[6] == '.';
  }

  /** Official images of Docker Hub live under library/. */
  function InLibrary(image: string): (r: string)
    ensures '/' in r && |r| == |image| + 8
    ensures ('@' !in image ==> '@' !in r) && (':' !in image ==> ':' !in r)
  {
    var prefix := "library/";
    assert '@' !in prefix && ':' !in prefix && prefix[7] == '/';
    assert (prefix + image)[7] == '/';
    prefix + image
  }

  function Unproxied(image: string): Reference {
    var registry := if NamesRegistry(image) then SplitN2(image, '/')[0] else DOCKER_IO;
    var path := if NamesRegistry(image) then SplitN2(image, '/')[1] else image;
    var named := SplitN2(WithoutDigest(path), ':');
    var library := registry == DOCKER_IO && '/' !in named[0];
    Reference(registry,
              if library then InLibrary(named[0]) else named[0],
              if |named| == 2 then named[1] else "latest",
              '@' in path)
  }

  /** The proxies are tried in order, each on what the previous one left. */
  function ProxyFor(proxies: seq<RegistryProxy>, matches: (string, string) -> bool, registry: string): string {
    if proxies == [] then registry
    else
      var before := ProxyFor(proxies[..|proxies| - 1], matches, registry);
      var last := proxies[|proxies| - 1];
      if matches(last.registry, before) then last.proxy else before
  }

  /** `matches(pattern, registry)` stands for filepath.Match returning true and no error. */
  method ThroughProxies(registry: string, proxies: seq<RegistryProxy>, matches: (string, string) -> bool)
    returns (proxied: string)
    ensures proxied == ProxyFor(proxies, matches, registry)
  {
    proxied := registry;
    for i := 0 to |proxies|
      invariant proxied == ProxyFor(proxies[..i], matches, registry)
    {
      assert proxies[..i + 1][..i] == proxies[..i];
      if matches(proxies[i].registry, proxied) {
        proxied := proxies[i].proxy;
      }
    }
    assert proxies[..|proxies|] == proxies;
  }

  method ParseImage(ref: string, proxies: seq<RegistryProxy>, matches: (string, string) -> bool)
    returns (registry: string, image: string, tag: string, hasRef: bool)
    ensures var plain := Unproxied(ref);
            Reference(registry, image, tag, hasRef) == plain.(registry := ProxyFor(proxies, matches, plain.registry))
  {
    registry, image, tag, hasRef := "", ref, "", false;
    var split := SplitN2(image, '/');
    if ('.' in split[0] || ':' in split[0]) && |split| > 1 {
      registry, image := split[0], split[1];
    }
    split := SplitN2(image, '@');
    if |split| != 1 {
      image, hasRef := split[0], true;
    }
    split := SplitN2(image, ':');
    if |split| == 1 {
      tag := "latest";
    } else {
      image, tag := split[0], split[1];
    }
    if registry == "" {
      registry := DOCKER_IO;
    }
    if registry == DOCKER_IO && '/' !in image {
      image := InLibrary(image);
    }
    registry := ThroughProxies(registry, proxies, matches);
  }

  // ---------------------------------------------------------------------------------------------
  // What a name is parsed to
  // ---------------------------------------------------------------------------------------------

  /** An image name as it is written: registry/path:tag@digest, all but the path optional. */
  datatype Written = Written(registry: Option<string>, path: string, tag: Option<string>, digest: Option<string>)

  /** From the tag on. */
  function TagText(tag: Option<string>): string {
    if tag.Some? then [':'] + tag.value else ""
  }

  /** The text after the registry. */
  function PathText(w: Written): string {
    var tagged := w.path + TagText(w.tag);
    if w.digest.Some? then tagged + ['@'] + w.digest.value else tagged
  }

  function Text(w: Written): string {
    if w.registry.Some? then w.registry.value + ['/'] + PathText(w) else PathText(w)
  }

  predicate LooksLikeRegistry(s: string) {
    '.' in s || ':' in s
  }

  /** The parts can be told apart; without a registry nothing before the first slash looks like one. */
  ghost predicate WellWritten(w: Written) {
    && ':' !in w.path && '@' !in w.path && (w.tag.Some? ==> '@' !in w.tag.value)
    && match w.registry
       case Some(registry) => '/' !in registry && LooksLikeRegistry(registry)
       case None => forall first | '/' !in first && first + ['/'] <= Text(w) :: !LooksLikeRegistry(first)
  }

  lemma FirstElement(ref: string)
    ensures '/' in ref ==> '/' !in SplitN2(ref, '/')[0] && SplitN2(ref, '/')[0] + ['/'] <= ref
    ensures forall first :: '/' !in first && first + ['/'] <= ref ==> '/' in ref && first == SplitN2(ref, '/')[0]
  {
    forall first | '/' !in first && first + ['/'] <= ref ensures '/' in ref && first == SplitN2(ref, '/')[0] {
      assert ref == first + ['/'] + ref[|first| + 1..];
      SplitN2At(first, '/', ref[|first| + 1..]);
      assert ref[|first|] == '/';
    }
  }

  lemma RegistryAsWritten(w: Written)
    requires WellWritten(w)
    ensures NamesRegistry(Text(w)) <==> w.registry.Some?
    ensures w.registry.Some? ==> SplitN2(Text(w), '/') == [w.registry.value, PathText(w)]
  {
    if w.registry.Some? {
      SplitN2At(w.registry.value, '/', PathText(w));
    } else {
      FirstElement(Text(w));
    }
  }

  lemma DigestAsWritten(w: Written)
    requires WellWritten(w)
    ensures WithoutDigest(PathText(w)) == w.path + TagText(w.tag)
    ensures '@' in PathText(w) <==> w.digest.Some?
  {
    var tagged := w.path + TagText(w.tag);
    assert '@' !in tagged;
    if w.digest.Some? {
      SplitN2At(tagged, '@', w.digest.value);
      assert PathText(w)[|tagged|] == '@';
    }
  }

  lemma Regroup(a: string, b: string, c: string)
    ensures a + b + c == a + (b + c)
  {}

  lemma TagAsWritten(path: string, tag: Option<string>)
    requires ':' !in path
    ensures SplitN2(path + TagText(tag), ':') == if tag.Some? then [path, tag.value] else [path]
  {
    if tag.Some? {
      Regroup(path, [':'], tag.value);
      SplitN2At(path, ':', tag.value);
    } else {
      assert path + "" == path;
    }
  }

  /** A name is parsed to the parts it is written with. A missing registry is Docker Hub, a missing tag
      "latest", and a path of one element on Docker Hub lies under library/. */
  lemma ParsesAsWritten(w: Written)
    requires WellWritten(w)
    ensures var registry := if w.registry.Some? then w.registry.value else "docker.io";
            var official := registry == "docker.io" && '/' !in w.path;
            Unproxied(Text(w)) == Reference(registry,
                                            if official then "library/" + w.path else w.path,
                                            if w.tag.Some? then w.tag.value else "latest",
                                            w.digest.Some?)
  {
    RegistryAsWritten(w);
    DigestAsWritten(w);
    TagAsWritten(w.path, w.tag);
  }

  /** The parts of a split hold no character the whole does not. */
  lemma PartsComeFrom(s: string, sep: char, c: char)
    requires c !in s
    ensures forall part :: part in SplitN2(s, sep) ==> c !in part
  {
    var parts := SplitN2(s, sep);
    if sep in s {
      assert forall x :: x in parts[0] || x in parts[1] ==> x in s;
    }
  }

  lemma TaggedIsWritten(tagged: string) returns (path: string, tag: Option<string>)
    requires '@' !in tagged
    ensures ':' !in path && '@' !in path && (tag.Some? ==> '@' !in tag.value)
    ensures path + TagText(tag) == tagged
  {
    var parts := SplitN2(tagged, ':');
    PartsComeFrom(tagged, ':', '@');
    path := parts[0];
    if |parts| == 2 {
      tag := Some(parts[1]);
      Regroup(path, [':'], parts[1]);
    } else {
      tag := None;
      assert path + "" == path;
    }
  }

  lemma PathIsWritten(registry: Option<string>, text: string) returns (w: Written)
    ensures w.registry == registry && PathText(w) == text
    ensures ':' !in w.path && '@' !in w.path && (w.tag.Some? ==> '@' !in w.tag.value)
  {
    var parts := SplitN2(text, '@');
    var path, tag := TaggedIsWritten(parts[0]);
    w := Written(registry, path, tag, if |parts| == 2 then Some(parts[1]) else None);
  }

  /** Every string is a name written in this way, so ParsesAsWritten tells all results. */
  lemma EveryNameIsWritten(ref: string) returns (w: Written)
    ensures WellWritten(w) && Text(w) == ref
  {
    FirstElement(ref);
    var parts := SplitN2(ref, '/');
    if '/' in ref && LooksLikeRegistry(parts[0]) {
      w := PathIsWritten(Some(parts[0]), parts[1]);
    } else {
      w := PathIsWritten(None, ref);
    }
  }

  lemma WithoutSlash(w: Written)
    requires w.registry.None? && ':' !in w.path && '@' !in w.path && (w.tag.Some? ==> '@' !in w.tag.value)
    requires '/' !in Text(w)
    ensures WellWritten(w)
  {
    FirstElement(Text(w));
  }

  /** For example: official images, with and without a tag. */
  lemma OfficialImages(name: string, tag: string)
    requires '/' !in name && ':' !in name && '@' !in name && '/' !in tag && '@' !in tag
    ensures Unproxied(name) == Reference("docker.io", "library/" + name, "latest", false)
    ensures Unproxied(name + ([':'] + tag)) == Reference("docker.io", "library/" + name, tag, false)
  {
    var plain, tagged := Written(None, name, None, None), Written(None, name, Some(tag), None);
    assert name + "" == name;
    WithoutSlash(plain);
    WithoutSlash(tagged);
    ParsesAsWritten(plain);
    ParsesAsWritten(tagged);
  }

  // ---------------------------------------------------------------------------------------------
  // Proxies
  // ---------------------------------------------------------------------------------------------

  lemma {:induction false} ProxiesInTurn(before: seq<RegistryProxy>, after: seq<RegistryProxy>,
                                         matches: (string, string) -> bool, registry: string)
    ensures ProxyFor(before + after, matches, registry) == ProxyFor(after, matches, ProxyFor(before, matches, registry))
  {
    if after == [] {
      assert before + after == before;
    } else {
      var front := after[..|after| - 1];
      ProxiesInTurn(before, front, matches, registry);
      assert (before + after)[..|before + after| - 1] == before + front;
    }
  }

  lemma {:induction false} NoProxyApplies(proxies: seq<RegistryProxy>, matches: (string, string) -> bool,
                                          registry: string)
    requires forall p :: p in proxies ==> !matches(p.registry, registry)
    ensures ProxyFor(proxies, matches, registry) == registry
  {
    if proxies == [] {
    } else {
      NoProxyApplies(proxies[..|proxies| - 1], matches, registry);
      assert proxies[|proxies| - 1] in proxies;
    }
  }

  /** A registry no pattern matches is left alone. Otherwise the first proxy whose pattern matches takes
      its place, and the proxies after it are tried on that one's name. */
  lemma FirstMatchApplies(before: seq<RegistryProxy>, p: RegistryProxy, after: seq<RegistryProxy>,
                          matches: (string, string) -> bool, registry: string)
    requires forall q :: q in before ==> !matches(q.registry, registry)
    ensures ProxyFor(before, matches, registry) == registry
    ensures matches(p.registry, registry) ==>
              ProxyFor(before + [p] + after, matches, registry) == ProxyFor(after, matches, p.proxy)
  {
    NoProxyApplies(before, matches, registry);
    ProxiesInTurn(before, [p], matches, registry);
    ProxiesInTurn(before + [p], after, matches, registry);
    assert [p][..0] == [];
  }

  /** The name in full: registry, image and tag. */
  function Canonical(r: Reference): string {
    r.registry + "/" + r.image + ":" + r.tag
  }

  /** What every parse result looks like. */
  lemma ParsedShape(ref: string)
    ensures var r := Unproxied(ref);
            && '/' !in r.registry && ('.' in r.registry || ':' in r.registry)
            && '@' !in r.image && ':' !in r.image && '@' !in r.tag
            && (r.registry == DOCKER_IO ==> '/' in r.image)
  {
    var path := if NamesRegistry(ref) then SplitN2(ref, '/')[1] else ref;
    DockerIoIsRegistry();
    PartsComeFrom(WithoutDigest(path), ':', '@');
  }

  /** A registry name that parseImage recognises as one, and an image path it leaves alone. */
  predicate WellNamed(r: Reference) {
    && '/' !in r.registry && ('.' in r.registry || ':' in r.registry)
    && (r.registry == DOCKER_IO ==> '/' in r.image)
  }

  /** A full name parses back to its own parts exactly when its registry looks like one; the
      registry of a proxied name is whatever the proxy is called, so this is a demand on proxies. */
  lemma ParsesBackExactlyWhen(r: Reference)
    requires '@' !in r.image && ':' !in r.image && '@' !in r.tag
    ensures Unproxied(Canonical(r)) == r.(hasRef := false) <==> WellNamed(r)
  {
    var path := r.image + [':'] + r.tag;
    assert Canonical(r) == r.registry + ['/'] + path;
    SplitN2At(r.image, ':', r.tag);
    if '/' in r.registry {
      ParsedShape(Canonical(r));
    } else {
      SplitN2At(r.registry, '/', path);
      assert SplitN2(path, '@') == [path];
      DockerIoIsRegistry();
    }
  }

  /** Normalising is idempotent for every input string: without proxies the full name parses to the
      same registry, image and tag, without a digest. */
  lemma NormalisationIsIdempotent(ref: string)
    ensures Unproxied(Canonical(Unproxied(ref))) == Unproxied(ref).(hasRef := false)
  {
    ParsedShape(ref);
    ParsesBackExactlyWhen(Unproxied(ref));
  }

  /** The first path element is found in front of a digest as without it. */
  lemma DigestLeavesRegistry(first: string, rest: string, digest: string)
    requires '/' !in first
    ensures SplitN2(first + ['/'] + rest + ['@'] + digest, '/') == [first, rest + ['@'] + digest]
  {
    assert first + ['/'] + rest + ['@'] + digest == first + ['/'] + (rest + ['@'] + digest);
    SplitN2At(first, '/', rest + ['@'] + digest);
  }

  lemma DigestOfPath(path: string, digest: string)
    requires '@' !in path
    ensures WithoutDigest(path + ['@'] + digest) == path == WithoutDigest(path)
    ensures '@' in path + ['@'] + digest
  {
    SplitN2At(path, '@', digest);
    assert (path + ['@'] + digest)[|path|] == '@';
  }

  /** A digest is dropped: the image is looked up under its tag, or under "latest" without one. */
  lemma DigestIsDropped(name: string, digest: string)
    requires '@' !in name && '/' !in digest
    ensures Unproxied(name + "@" + digest) == Unproxied(name).(hasRef := true)
  {
    assert name + ['@'] + digest == name + "@" + digest;
    if '/' in name {
      DigestLeavesRegistry(SplitN2(name, '/')[0], SplitN2(name, '/')[1], digest);
    }
    if NamesRegistry(name) {
      PartsComeFrom(name, '/', '@');
      DigestOfPath(SplitN2(name, '/')[1], digest);
    } else {
      DigestOfPath(name, digest);
    }
  }

  // ---------------------------------------------------------------------------------------------
  // Manifest paths
  // ---------------------------------------------------------------------------------------------

  /** The path newGetManifestRequest asks for. */
  function ManifestPath(image: string, tag: string): string {
    "" + "/" + "v2" + "/" + image + "/" + "manifests" + "/" + tag
  }

  /** The repository WWWAuthenticateTransport asks a token for: the parts between the second and the
      last two, or a panic when there are too few of them. */
  function RepositoryOf(path: string): Result<string> {
    var parts := Split(path, '/');
    if |parts| < 4 then Err("slice bounds out of range") else Ok(Join(parts[2..|parts| - 2], '/'))
  }

  /** A slash-free segment after a path is one more part. */
  lemma SegmentIsPart(path: string, segment: string)
    requires '/' !in segment
    ensures Split(path + "/" + segment, '/') == Split(path, '/') + [segment]
  {
    SplitConcat(path, '/', segment);
  }

  lemma SlashedParts(version: string, image: string, kind: string, tag: string)
    requires '/' !in version && '/' !in kind
    ensures Split("" + "/" + version + "/" + image + "/" + kind + "/" + tag, '/')
         == [""] + [version] + Split(image, '/') + [kind] + Split(tag, '/')
  {
    var toVersion := "" + "/" + version;
    SegmentIsPart("", version);
    var toImage := toVersion + "/" + image;
    SplitConcat(toVersion, '/', image);
    var toKind := toImage + "/" + kind;
    SegmentIsPart(toImage, kind);
    SplitConcat(toKind, '/', tag);
  }

  lemma MiddleOf(lead: seq<string>, names: seq<string>, kind: string, last: seq<string>, parts: seq<string>)
    requires |lead| == 2 && last != [] && parts == lead + names + [kind] + last
    ensures parts[2..|parts| - 2] == if |last| == 1 then names else names + ([kind] + last[..|last| - 2])
  {}

  lemma MiddleIsImage(lead: seq<string>, image: string, kind: string, tag: string, parts: seq<string>)
    requires |lead| == 2 && parts == lead + Split(image, '/') + [kind] + Split(tag, '/')
    ensures |parts| >= 4
    ensures Join(parts[2..|parts| - 2], '/') == image <==> '/' !in tag
  {
    var names, last := Split(image, '/'), Split(tag, '/');
    MiddleOf(lead, names, kind, last, parts);
    JoinSplit(image, '/');
    SplitHasSeparator(tag, '/');
    if |last| > 1 {
      JoinConcat(names, [kind] + last[..|last| - 2], '/');
    }
  }

  lemma PathIsRecovered(version: string, image: string, kind: string, tag: string)
    requires '/' !in version && '/' !in kind
    ensures var repository := RepositoryOf("" + "/" + version + "/" + image + "/" + kind + "/" + tag);
            repository.Ok? && (repository == Ok(image) <==> '/' !in tag)
  {
    SlashedParts(version, image, kind, tag);
    var path := "" + "/" + version + "/" + image + "/" + kind + "/" + tag;
    MiddleIsImage([""] + [version], image, kind, tag, Split(path, '/'));
  }

  lemma PathLayout(version: string, image: string, kind: string, tag: string)
    ensures "" + "/" + version + "/" + image + "/" + kind + "/" + tag
         == "/" + version + "/" + image + ("/" + kind + "/") + tag
  {
    assert "" + "/" == "/";
    var front := "/" + version + "/" + image;
    assert front + "/" + kind + "/" == front + ("/" + kind + "/");
  }

  /** The indices are always in range, and the repository is the image exactly when the tag or
      digest has no slash. */
  lemma RepositoryIsRecovered(image: string, tag: string)
    ensures ManifestPath(image, tag) == "/v2/" + image + "/manifests/" + tag
    ensures RepositoryOf(ManifestPath(image, tag)).Ok?
    ensures RepositoryOf(ManifestPath(image, tag)) == Ok(image) <==> '/' !in tag
  {
    PathIsRecovered("v2", image, "manifests", tag);
    PathLayout("v2", image, "manifests", tag);
    assert "/" + "v2" + "/" == "/v2/" && "/" + "manifests" + "/" == "/manifests/";
  }

  lemma {:induction false} PartsAreCounted(s: string, sep: char)
    ensures |Split(s, sep)| == Count(s, sep) + 1
  {
    if s == "" {
    } else {
      PartsAreCounted(s[1..], sep);
    }
  }

  /** A path with fewer than three slashes makes the code panic, any other has a repository. */
  lemma PanicsExactlyWhen(path: string)
    ensures RepositoryOf(path).Err? <==> Count(path, '/') < 3
  {
    PartsAreCounted(path, '/');
  }

  /** From image name to token scope: the repository asked for is the parsed image, for every name
      whose tag has no slash and for every digest. */
  lemma ScopeIsParsedImage(ref: string, digest: string)
    requires '/' !in digest
    ensures var r := Unproxied(ref);
            && RepositoryOf(ManifestPath(r.image, digest)) == Ok(r.image)
            && (RepositoryOf(ManifestPath(r.image, r.tag)) == Ok(r.image) <==> '/' !in r.tag)
  {
    RepositoryIsRecovered(Unproxied(ref).image, digest);
    RepositoryIsRecovered(Unproxied(ref).image, Unproxied(ref).tag);
  }
}
