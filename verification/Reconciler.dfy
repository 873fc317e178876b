/** PodReconciler (pkg/controllers/pod.go): the tables of pods, image reference counts and exported
    gauge series, and one pass of Reconcile. Passes do not overlap. */
module Reconciler {
  import opened Collections
  import opened PodSpecs

  datatype ImageUsage = ImageUsage(platforms: seq<Platform>, refcount: int)

  /** The label values of one exported gauge. */
  datatype Series = Series(image: string, platform: Platform)

  type Gauges = map<Series, int>

  /** The reconciler's fields and the gauge vector, with two histories: `leaked` holds the counted
      images no pod answers for, `bases` the reference count just before each series appeared. */
  datatype Ledger = Ledger(podImages: map<string, seq<string>>, imagePlatforms: map<string, ImageUsage>,
                           gauges: Gauges, leaked: multiset<string>, bases: Gauges)

  const EMPTY_LEDGER := Ledger(map[], map[], map[], multiset{}, map[])

  function Refcount(l: Ledger, image: string): int {
    if image in l.imagePlatforms then l.imagePlatforms[image].refcount else 0
  }

  function PlatformsOf(l: Ledger, image: string): seq<Platform> {
    if image in l.imagePlatforms then l.imagePlatforms[image].platforms else []
  }

  // ---------------------------------------------------------------------------------------------
  // Counting
  // ---------------------------------------------------------------------------------------------

  /** WithLabelValues creates a series at zero. */
  function GaugeOf(g: Gauges, s: Series): int {
    if s in g then g[s] else 0
  }

  /** One Inc per listed platform. */
  function Raised(g: Gauges, image: string, platforms: seq<Platform>): Gauges {
    if platforms == [] then g
    else
      var front := Raised(g, image, platforms[..|platforms| - 1]);
      var s := Series(image, platforms[|platforms| - 1]);
      front[s := GaugeOf(front, s) + 1]
  }

  /** One Dec per listed platform, and a deletion when the image goes away. */
  function Lowered(g: Gauges, image: string, platforms: seq<Platform>, gone: bool): Gauges {
    if platforms == [] then g
    else
      var front := Lowered(g, image, platforms[..|platforms| - 1], gone);
      var s := Series(image, platforms[|platforms| - 1]);
      if gone then front[s := GaugeOf(front, s) - 1] - {s} else front[s := GaugeOf(front, s) - 1]
  }

  /** The series of platforms an updated image no longer lists. */
  function Dropped(image: string, oldPlatforms: seq<Platform>, newPlatforms: seq<Platform>): set<Series> {
    set p | p in oldPlatforms && p !in newPlatforms :: Series(image, p)
  }

  function NextBases(bases: Gauges, gauges: Gauges, refcount: int): Gauges {
    map s | s in gauges :: if s in bases then bases[s] else refcount
  }

  /** incrementPlatformStatistics. */
  function Incremented(l: Ledger, image: string, platforms: seq<Platform>): Ledger {
    var dropped := Dropped(image, PlatformsOf(l, image), platforms);
    var gauges := Raised(l.gauges - dropped, image, platforms);
    l.(imagePlatforms := l.imagePlatforms[image := ImageUsage(platforms, Refcount(l, image) + 1)],
       gauges := gauges,
       bases := NextBases(l.bases - dropped, gauges, Refcount(l, image)))
  }

  /** decrementPlatformStatistics. */
  function Decremented(l: Ledger, image: string): Ledger {
    if image !in l.imagePlatforms then l
    else
      var usage := l.imagePlatforms[image];
      var gone := usage.refcount == 1;
      var gauges := Lowered(l.gauges, image, usage.platforms, gone);
      l.(imagePlatforms := if gone then l.imagePlatforms - {image}
                           else l.imagePlatforms[image := usage.(refcount := usage.refcount - 1)],
         gauges := gauges,
         bases := NextBases(l.bases, gauges, usage.refcount))
  }

  function DecrementedAll(l: Ledger, images: seq<string>): Ledger {
    if images == [] then l
    else Decremented(DecrementedAll(l, images[..|images| - 1]), images[|images| - 1])
  }

  /** deleteFromCache. */
  function Forgotten(l: Ledger, name: string): Ledger {
    if name !in l.podImages then l
    else
      var l' := DecrementedAll(l, l.podImages[name]);
      l'.(podImages := l'.podImages - {name})
  }

  /** addToCache; the images of an entry that is overwritten stay counted. */
  function Remembered(l: Ledger, name: string, images: seq<string>): Ledger {
    l.(podImages := l.podImages[name := images],
       leaked := if name in l.podImages then l.leaked + multiset(l.podImages[name]) else l.leaked)
  }

  // ---------------------------------------------------------------------------------------------
  // One pass
  // ---------------------------------------------------------------------------------------------

  /** A container image of a pod, with the registry's answer should the pass ask for it. */
  datatype Lookup = Lookup(image: string, answer: Result<seq<Platform>>)

  /** The images are those of the init containers and containers, in this order. */
  datatype Pod = Pod(owners: seq<string>, phase: string, conditions: seq<(string, string)>,
                     spec: Spec, images: seq<Lookup>)

  datatype Observation = GetFailed | NotFound | Found(pod: Pod)

  /** What one call of Reconcile sees: the pod, and the labels of its node or the error of reading it. */
  datatype Pass = Pass(name: string, seen: Observation, node: Result<map<string, string>>)

  datatype Action = Errored | Forgot | AlreadyProcessed | Accepted | Evicted

  predicate IsStatefulSet(pod: Pod) {
    "StatefulSet" in pod.owners
  }

  predicate PodIsReady(pod: Pod) {
    pod.phase == "Running" && ("Ready", "True") in pod.conditions
  }

  function ImagesOf(lookups: seq<Lookup>): (r: seq<string>)
    ensures |r| == |lookups| && forall i :: 0 <= i < |r| ==> r[i] == lookups[i].image
  {
    seq(|lookups|, i requires 0 <= i < |lookups| => lookups[i].image)
  }

  /** The image lookups before the first that fails. */
  function Answered(lookups: seq<Lookup>): (r: seq<Lookup>)
    ensures r <= lookups && forall x :: x in r ==> x.answer.Ok?
    ensures |r| < |lookups| ==> lookups[|r|].answer.Err?
  {
    if lookups == [] || lookups[0].answer.Err? then [] else [lookups[0]] + Answered(lookups[1..])
  }

  function Counted(l: Ledger, lookups: seq<Lookup>): Ledger
    requires forall x :: x in lookups ==> x.answer.Ok?
  {
    if lookups == [] then l
    else
      var last := lookups[|lookups| - 1];
      Incremented(Counted(l, lookups[..|lookups| - 1]), last.image, last.answer.value)
  }

  /** A node label, under its current or its beta name. */
  function NodeLabel(node: map<string, string>, key: string, betaKey: string): string {
    if key in node then node[key] else if betaKey in node then node[betaKey] else ""
  }

  const OS_KEY := "kubernetes.io/os"
  const BETA_OS_KEY := "beta.kubernetes.io/os"

  predicate HasPlatform(platforms: seq<Platform>, os: string, arch: string) {
    exists p :: p in platforms && p.os == os && p.architecture == arch
  }

  /** The node names its platform and the image does not list it. */
  predicate Mismatches(platforms: seq<Platform>, os: string, arch: string) {
    os != "" && arch != "" && !HasPlatform(platforms, os, arch)
  }

  predicate NodeKnown(p: Pass)
    requires p.seen.Found?
  {
    p.seen.pod.spec.nodeName == "" || p.node.Ok?
  }

  /** The labels looked at: none for a pod that is not scheduled. */
  function NodeLabels(p: Pass): map<string, string>
    requires p.seen.Found? && NodeKnown(p)
  {
    if p.seen.pod.spec.nodeName == "" then map[] else p.node.value
  }

  function NodeOS(p: Pass): string
    requires p.seen.Found? && NodeKnown(p)
  {
    NodeLabel(NodeLabels(p), OS_KEY, BETA_OS_KEY)
  }

  function NodeArch(p: Pass): string
    requires p.seen.Found? && NodeKnown(p)
  {
    NodeLabel(NodeLabels(p), ARCH_KEY, BETA_ARCH_KEY)
  }

  predicate AnyMismatch(lookups: seq<Lookup>, os: string, arch: string) {
    exists x :: x in lookups && x.answer.Ok? && Mismatches(x.answer.value, os, arch)
  }

  predicate Skips(l: Ledger, name: string, pod: Pod) {
    !IsStatefulSet(pod) && (name in l.podImages || PodIsReady(pod))
  }

  /** A failed lookup leaves the counts of the images before it behind. */
  function Processed(l: Ledger, name: string, lookups: seq<Lookup>): Ledger {
    var answered := Answered(lookups);
    var counted := Counted(l, answered);
    if |answered| < |lookups| then counted.(leaked := counted.leaked + multiset(ImagesOf(answered)))
    else Remembered(counted, name, ImagesOf(lookups))
  }

  function LedgerAfter(l: Ledger, p: Pass): Ledger {
    match p.seen
    case GetFailed => l
    case NotFound => Forgotten(l, p.name)
    case Found(pod) => if Skips(l, p.name, pod) || !NodeKnown(p) then l else Processed(l, p.name, pod.images)
  }

  function ActionOn(l: Ledger, p: Pass): Action {
    match p.seen
    case GetFailed => Errored
    case NotFound => Forgot
    case Found(pod) =>
      if Skips(l, p.name, pod) then AlreadyProcessed
      else if !NodeKnown(p) || |Answered(pod.images)| < |pod.images| then Errored
      else if AnyMismatch(pod.images, NodeOS(p), NodeArch(p)) && !HasArchSelection(pod.spec) then Evicted
      else Accepted
  }

  // ---------------------------------------------------------------------------------------------
  // The reconciler
  // ---------------------------------------------------------------------------------------------

  lemma PrefixStep<T>(s: seq<T>, i: nat)
    requires i < |s|
    ensures s[..i + 1][..i] == s[..i] && s[..i + 1] == s[..i] + [s[i]]
  {}

  class PodReconciler {
    var podImages: map<string, seq<string>>
    var imagePlatforms: map<string, ImageUsage>
    var gauges: Gauges
    ghost var leaked: multiset<string>
    ghost var bases: Gauges

    ghost function State(): Ledger
      reads this
    {
      Ledger(podImages, imagePlatforms, gauges, leaked, bases)
    }

    constructor ()
      ensures State() == EMPTY_LEDGER
    {
      podImages, imagePlatforms, gauges, leaked, bases := map[], map[], map[], multiset{}, map[];
    }

    /** Delete the series of platforms the image lost. */
    method DropSeries(image: string, oldPlatforms: seq<Platform>, platforms: seq<Platform>)
      modifies `gauges
      ensures gauges == old(gauges) - Dropped(image, oldPlatforms, platforms)
    {
      assert gauges == old(gauges) - Dropped(image, [], platforms);
      for i := 0 to |oldPlatforms|
        invariant gauges == old(gauges) - Dropped(image, oldPlatforms[..i], platforms)
      {
        var found := false;
        for j := 0 to |platforms|
          invariant found <==> oldPlatforms[i] in platforms[..j]
        {
          if oldPlatforms[i] == platforms[j] {
            found := true;
            assert oldPlatforms[i] in platforms;
            break;
          }
        }
        assert found <==> oldPlatforms[i] in platforms;
        PrefixStep(oldPlatforms, i);
        var s := Series(image, oldPlatforms[i]);
        assert Dropped(image, oldPlatforms[..i + 1], platforms)
            == Dropped(image, oldPlatforms[..i], platforms) + if found then {} else {s};
        if !found {
          gauges := gauges - {s};
        }
      }
      assert oldPlatforms[..|oldPlatforms|] == oldPlatforms;
    }

    method RaiseSeries(image: string, platforms: seq<Platform>)
      modifies `gauges
      ensures gauges == Raised(old(gauges), image, platforms)
    {
      for i := 0 to |platforms|
        invariant gauges == Raised(old(gauges), image, platforms[..i])
      {
        PrefixStep(platforms, i);
        var s := Series(image, platforms[i]);
        gauges := gauges[s := GaugeOf(gauges, s) + 1];
      }
      assert platforms[..|platforms|] == platforms;
    }

    method IncrementPlatformStatistics(image: string, platforms: seq<Platform>)
      modifies this
      ensures State() == Incremented(old(State()), image, platforms)
    {
      ghost var dropped := Dropped(image, PlatformsOf(State(), image), platforms);
      if image !in imagePlatforms {
        imagePlatforms := imagePlatforms[image := ImageUsage(platforms, 0)];
        assert gauges == gauges - dropped;
      } else {
        DropSeries(image, imagePlatforms[image].platforms, platforms);
        imagePlatforms := imagePlatforms[image := imagePlatforms[image].(platforms := platforms)];
      }
      imagePlatforms := imagePlatforms[image := imagePlatforms[image].(refcount := imagePlatforms[image].refcount + 1)];
      assert imagePlatforms == old(imagePlatforms)[image := ImageUsage(platforms, old(Refcount(State(), image)) + 1)];
      RaiseSeries(image, platforms);
      bases := NextBases(bases - dropped, gauges, old(Refcount(State(), image)));
    }

    method DecrementPlatformStatistics(image: string)
      modifies this
      ensures State() == Decremented(old(State()), image)
    {
      if image in imagePlatforms {
        var usage := imagePlatforms[image];
        usage := usage.(refcount := usage.refcount - 1);
        imagePlatforms := imagePlatforms[image := usage];
        for i := 0 to |usage.platforms|
          modifies `gauges
          invariant gauges == Lowered(old(gauges), image, usage.platforms[..i], usage.refcount == 0)
        {
          PrefixStep(usage.platforms, i);
          var s := Series(image, usage.platforms[i]);
          gauges := gauges[s := GaugeOf(gauges, s) - 1];
          if usage.refcount == 0 {
            gauges := gauges - {s};
          }
        }
        assert usage.platforms[..|usage.platforms|] == usage.platforms;
        if usage.refcount == 0 {
          imagePlatforms := imagePlatforms - {image};
          assert imagePlatforms == old(imagePlatforms) - {image};
        }
        bases := NextBases(bases, gauges, usage.refcount + 1);
      }
    }

    method DeleteFromCache(name: string)
      modifies this
      ensures State() == Forgotten(old(State()), name)
    {
      if name in podImages {
        var images := podImages[name];
        for i := 0 to |images|
          invariant State() == DecrementedAll(old(State()), images[..i])
        {
          PrefixStep(images, i);
          DecrementPlatformStatistics(images[i]);
        }
        assert images[..|images|] == images;
        podImages := podImages - {name};
      }
    }

    method AddToCache(name: string, images: seq<string>)
      modifies this
      ensures State() == Remembered(old(State()), name, images)
    {
      leaked := if name in podImages then leaked + multiset(podImages[name]) else leaked;
      podImages := podImages[name := images];
    }

    method FindPlatform(platforms: seq<Platform>, nodeOs: string, nodeArch: string) returns (hasMatchingPlatform: bool)
      ensures hasMatchingPlatform == HasPlatform(platforms, nodeOs, nodeArch)
    {
      hasMatchingPlatform := false;
      for j := 0 to |platforms|
        invariant hasMatchingPlatform == HasPlatform(platforms[..j], nodeOs, nodeArch)
      {
        PrefixStep(platforms, j);
        if platforms[j].os == nodeOs && platforms[j].architecture == nodeArch {
          hasMatchingPlatform := true;
        }
      }
      assert platforms[..|platforms|] == platforms;
    }

    /** The loop of podScheduledOnMatchingNode; it stops at the first failed lookup. */
    method CountImages(lookups: seq<Lookup>, nodeOs: string, nodeArch: string) returns (matching: bool, failed: bool)
      modifies this
      ensures var answered := Answered(lookups);
              && State() == Counted(old(State()), answered)
              && failed == (|answered| < |lookups|)
              && (!failed ==> matching == !AnyMismatch(lookups, nodeOs, nodeArch))
    {
      matching, failed := true, false;
      for i := 0 to |lookups|
        invariant forall x :: x in lookups[..i] ==> x.answer.Ok?
        invariant State() == Counted(old(State()), lookups[..i])
        invariant matching == !AnyMismatch(lookups[..i], nodeOs, nodeArch)
      {
        PrefixStep(lookups, i);
        if lookups[i].answer.Err? {
          AnsweredIs(lookups, i);
          return false, true;
        }
        var platforms := lookups[i].answer.value;
        IncrementPlatformStatistics(lookups[i].image, platforms);
        if nodeOs != "" && nodeArch != "" {
          var hasMatchingPlatform := FindPlatform(platforms, nodeOs, nodeArch);
          if !hasMatchingPlatform {
            matching := false;
          }
        }
        MismatchStep(lookups[..i], lookups[i], nodeOs, nodeArch);
      }
      AnsweredIs(lookups, |lookups|);
      assert lookups[..|lookups|] == lookups;
    }

    method Reconcile(p: Pass) returns (action: Action)
      modifies this
      ensures State() == LedgerAfter(old(State()), p) && action == ActionOn(old(State()), p)
    {
      if p.seen.GetFailed? {
        return Errored;
      }
      if p.seen.NotFound? {
        DeleteFromCache(p.name);
        return Forgot;
      }
      var pod := p.seen.pod;
      if !IsStatefulSet(pod) && (p.name in podImages || PodIsReady(pod)) {
        return AlreadyProcessed;
      }
      if !NodeKnown(p) {
        return Errored;
      }
      var matching, failed := CountImages(pod.images, NodeOS(p), NodeArch(p));
      if failed {
        leaked := leaked + multiset(ImagesOf(Answered(pod.images)));
        return Errored;
      }
      assert Answered(pod.images) == pod.images;
      AddToCache(p.name, ImagesOf(pod.images));
      if matching {
        return Accepted;
      }
      var _, found := PodSpecHasNodeArchitectureSelection(pod.spec);
      if found {
        return Accepted;
      }
      return Evicted;
    }
  }

  lemma {:induction false} AnsweredIs(lookups: seq<Lookup>, i: nat)
    requires i <= |lookups| && (forall x :: x in lookups[..i] ==> x.answer.Ok?)
    requires i < |lookups| ==> lookups[i].answer.Err?
    ensures Answered(lookups) == lookups[..i]
  {
    if i == 0 {
    } else {
      assert lookups[0] in lookups[..i];
      forall x | x in lookups[1..][..i - 1] ensures x.answer.Ok? { assert x in lookups[..i]; }
      AnsweredIs(lookups[1..], i - 1);
      assert lookups[..i] == [lookups[0]] + lookups[1..][..i - 1];
    }
  }

  lemma MismatchStep(lookups: seq<Lookup>, last: Lookup, os: string, arch: string)
    ensures AnyMismatch(lookups + [last], os, arch)
       <==> AnyMismatch(lookups, os, arch) || (last.answer.Ok? && Mismatches(last.answer.value, os, arch))
  {
    assert forall x :: x in lookups + [last] <==> x in lookups || x == last;
  }
}
