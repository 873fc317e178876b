/** What the reconciler's tables mean in every reachable state: exported series, reference counts,
    gauges and evictions. */
module ReconcilerTheorems {
  import opened Collections
  import opened PodSpecs
  import opened Reconciler

  // ---------------------------------------------------------------------------------------------
  // Runs
  // ---------------------------------------------------------------------------------------------

  function After(l: Ledger, passes: seq<Pass>): Ledger {
    if passes == [] then l else LedgerAfter(After(l, passes[..|passes| - 1]), passes[|passes| - 1])
  }

  /** What the pass with the given number did. */
  function ActionOf(passes: seq<Pass>, i: nat): Action
    requires i < |passes|
  {
    ActionOn(After(EMPTY_LEDGER, passes[..i]), passes[i])
  }

  // ---------------------------------------------------------------------------------------------
  // Exported series
  // ---------------------------------------------------------------------------------------------

  /** An image is tracked exactly while its count is positive, and the exported series are those of
      the platforms listed last for the tracked images. */
  ghost predicate SeriesInv(l: Ledger) {
    && (forall image :: image in l.imagePlatforms ==> l.imagePlatforms[image].refcount >= 1)
    && (forall s :: s in l.gauges <==> s.platform in PlatformsOf(l, s.image))
    && l.bases.Keys == l.gauges.Keys
  }

  lemma {:induction false} RaisedAt(g: Gauges, image: string, platforms: seq<Platform>, s: Series)
    ensures s in Raised(g, image, platforms) <==> s in g || (s.image == image && s.platform in platforms)
    ensures GaugeOf(Raised(g, image, platforms), s)
         == GaugeOf(g, s) + (if s.image == image then Count(platforms, s.platform) else 0)
  {
    if platforms == [] {
    } else {
      var front, last := platforms[..|platforms| - 1], platforms[|platforms| - 1];
      RaisedAt(g, image, front, s);
      assert platforms == front + [last];
      CountAppend(front, last, s.platform);
    }
  }

  lemma {:induction false} LoweredAt(g: Gauges, image: string, platforms: seq<Platform>, gone: bool, s: Series)
    ensures var mine := s.image == image && s.platform in platforms;
            var l := Lowered(g, image, platforms, gone);
            && (s in l <==> (s in g && !(gone && mine)) || (!gone && mine))
            && (!(gone && mine) ==>
                  GaugeOf(l, s) == GaugeOf(g, s) - (if s.image == image then Count(platforms, s.platform) else 0))
  {
    if platforms == [] {
    } else {
      var front, last := platforms[..|platforms| - 1], platforms[|platforms| - 1];
      LoweredAt(g, image, front, gone, s);
      assert platforms == front + [last];
      CountAppend(front, last, s.platform);
    }
  }

  lemma CountZero<T>(s: seq<T>, x: T)
    ensures Count(s, x) == 0 <==> x !in s
  {}

  lemma IncrementedExportsAt(l: Ledger, image: string, platforms: seq<Platform>, s: Series)
    requires SeriesInv(l)
    ensures s in Incremented(l, image, platforms).gauges
       <==> if s.image == image then s.platform in platforms else s in l.gauges
  {
    RaisedAt(l.gauges - Dropped(image, PlatformsOf(l, image), platforms), image, platforms, s);
  }

  /** Counting an image makes its listed platforms its exported series, and touches no others. */
  lemma IncrementedExports(l: Ledger, image: string, platforms: seq<Platform>)
    requires SeriesInv(l)
    ensures SeriesInv(Incremented(l, image, platforms))
    ensures forall s :: s in Incremented(l, image, platforms).gauges
                   <==> if s.image == image then s.platform in platforms else s in l.gauges
  {
    forall s ensures s in Incremented(l, image, platforms).gauges
                <==> if s.image == image then s.platform in platforms else s in l.gauges
    {
      IncrementedExportsAt(l, image, platforms, s);
    }
  }

  lemma DecrementedExports(l: Ledger, image: string)
    requires SeriesInv(l)
    ensures SeriesInv(Decremented(l, image))
    ensures Refcount(l, image) == 1 ==> forall s: Series :: s.image == image ==> s !in Decremented(l, image).gauges
  {
    if image in l.imagePlatforms {
      var l', usage := Decremented(l, image), l.imagePlatforms[image];
      forall s ensures s in l'.gauges <==> s.platform in PlatformsOf(l', s.image) {
        LoweredAt(l.gauges, image, usage.platforms, usage.refcount == 1, s);
      }
    }
  }

  // ---------------------------------------------------------------------------------------------
  // Reference counts
  // ---------------------------------------------------------------------------------------------

  /** The images of all remembered pods together. */
  ghost function Held(podImages: map<string, seq<string>>): multiset<string> {
    if podImages == map[] then multiset{}
    else
      var name :| name in podImages;
      multiset(podImages[name]) + Held(podImages - {name})
  }

  lemma {:induction false} HeldWithout(podImages: map<string, seq<string>>, name: string)
    requires name in podImages
    ensures Held(podImages) == multiset(podImages[name]) + Held(podImages - {name})
    decreases |podImages|
  {
    var pick :| pick in podImages && Held(podImages) == multiset(podImages[pick]) + Held(podImages - {pick});
    if pick != name {
      HeldWithout(podImages - {pick}, name);
      assert podImages - {pick} - {name} == podImages - {name} - {pick};
      HeldWithout(podImages - {name}, pick);
    }
  }

  /** Every reference to an image is an occurrence in a remembered pod or a leak. */
  ghost predicate RefcountInv(l: Ledger) {
    forall image :: Refcount(l, image) == Held(l.podImages)[image] + l.leaked[image]
  }

  ghost predicate Inv(l: Ledger) {
    SeriesInv(l) && RefcountInv(l)
  }

  lemma IncrementedCounts(l: Ledger, image: string, platforms: seq<Platform>)
    requires SeriesInv(l)
    ensures var l' := Incremented(l, image, platforms);
            && SeriesInv(l') && l'.podImages == l.podImages && l'.leaked == l.leaked
            && forall other :: Refcount(l', other) == Refcount(l, other) + multiset{image}[other]
  {
    IncrementedExports(l, image, platforms);
  }

  lemma ImagesOfLast(lookups: seq<Lookup>)
    requires lookups != []
    ensures var last := |lookups| - 1;
            multiset(ImagesOf(lookups)) == multiset(ImagesOf(lookups[..last])) + multiset{lookups[last].image}
  {
    assert ImagesOf(lookups) == ImagesOf(lookups[..|lookups| - 1]) + [lookups[|lookups| - 1].image];
  }

  lemma {:induction false} CountedExports(l: Ledger, lookups: seq<Lookup>)
    requires SeriesInv(l) && forall x :: x in lookups ==> x.answer.Ok?
    ensures var l' := Counted(l, lookups);
            && SeriesInv(l') && l'.podImages == l.podImages && l'.leaked == l.leaked
            && forall image :: Refcount(l', image) == Refcount(l, image) + multiset(ImagesOf(lookups))[image]
  {
    if lookups == [] {
    } else {
      var front, last := lookups[..|lookups| - 1], lookups[|lookups| - 1];
      CountedExports(l, front);
      IncrementedCounts(Counted(l, front), last.image, last.answer.value);
      ImagesOfLast(lookups);
    }
  }

  lemma DecrementedCounts(l: Ledger, image: string)
    requires SeriesInv(l) && Refcount(l, image) >= 1
    ensures var l' := Decremented(l, image);
            && SeriesInv(l') && l'.podImages == l.podImages && l'.leaked == l.leaked
            && forall other :: Refcount(l', other) == Refcount(l, other) - multiset{image}[other]
  {
    DecrementedExports(l, image);
  }

  /** While the counts cover the images to come, every decrement hits a tracked image. */
  lemma {:induction false} DecrementedAllCounts(l: Ledger, images: seq<string>)
    requires SeriesInv(l) && forall image :: multiset(images)[image] <= Refcount(l, image)
    ensures var l' := DecrementedAll(l, images);
            && SeriesInv(l') && l'.podImages == l.podImages && l'.leaked == l.leaked
            && forall image :: Refcount(l', image) == Refcount(l, image) - multiset(images)[image]
    ensures forall i :: 0 <= i < |images| ==> images[i] in DecrementedAll(l, images[..i]).imagePlatforms
  {
    if images == [] {
    } else {
      var front, last := images[..|images| - 1], images[|images| - 1];
      assert images == front + [last];
      assert multiset(images) == multiset(front) + multiset{last};
      DecrementedAllCounts(l, front);
      DecrementedCounts(DecrementedAll(l, front), last);
      forall i | 0 <= i < |images| ensures images[i] in DecrementedAll(l, images[..i]).imagePlatforms {
        assert i < |front| ==> images[..i] == front[..i] && images[i] == front[i];
      }
    }
  }

  lemma ForgottenKeepsInv(l: Ledger, name: string)
    requires Inv(l)
    ensures Inv(Forgotten(l, name)) && Forgotten(l, name).leaked == l.leaked
    ensures name in l.podImages ==> forall i :: 0 <= i < |l.podImages[name]| ==>
              l.podImages[name][i] in DecrementedAll(l, l.podImages[name][..i]).imagePlatforms
  {
    if name in l.podImages {
      HeldWithout(l.podImages, name);
      DecrementedAllCounts(l, l.podImages[name]);
    }
  }

  /** Overwriting an entry trades its images for the new ones. */
  lemma HeldUpdated(podImages: map<string, seq<string>>, name: string, images: seq<string>)
    ensures Held(podImages[name := images]) + (if name in podImages then multiset(podImages[name]) else multiset{})
         == Held(podImages) + multiset(images)
  {
    var podImages' := podImages[name := images];
    HeldWithout(podImages', name);
    assert podImages' - {name} == podImages - {name};
    if name in podImages {
      HeldWithout(podImages, name);
    } else {
      assert podImages - {name} == podImages;
    }
  }

  lemma RememberedKeepsInv(l: Ledger, name: string, images: seq<string>)
    requires SeriesInv(l)
    requires forall image :: Refcount(l, image) == Held(l.podImages)[image] + l.leaked[image] + multiset(images)[image]
    ensures Inv(Remembered(l, name, images))
  {
    var l' := Remembered(l, name, images);
    HeldUpdated(l.podImages, name, images);
    forall image ensures Refcount(l', image) == Held(l'.podImages)[image] + l'.leaked[image] {
      var overwritten := if name in l.podImages then multiset(l.podImages[name]) else multiset{};
      assert (Held(l'.podImages) + overwritten)[image] == (Held(l.podImages) + multiset(images))[image];
    }
  }

  lemma ProcessedKeepsInv(l: Ledger, name: string, lookups: seq<Lookup>)
    requires Inv(l)
    ensures Inv(Processed(l, name, lookups))
  {
    var answered := Answered(lookups);
    CountedExports(l, answered);
    if |answered| == |lookups| {
      assert answered == lookups;
      RememberedKeepsInv(Counted(l, answered), name, ImagesOf(lookups));
    }
  }

  lemma PassKeepsInv(l: Ledger, p: Pass)
    requires Inv(l)
    ensures Inv(LedgerAfter(l, p))
  {
    match p.seen
    case GetFailed =>
    case NotFound => ForgottenKeepsInv(l, p.name);
    case Found(pod) =>
      ProcessedKeepsInv(l, p.name, pod.images);
  }

  lemma {:induction false} RunInv(passes: seq<Pass>)
    ensures Inv(After(EMPTY_LEDGER, passes))
  {
    if passes == [] {
    } else {
      RunInv(passes[..|passes| - 1]);
      PassKeepsInv(After(EMPTY_LEDGER, passes[..|passes| - 1]), passes[|passes| - 1]);
    }
  }

  /** In every reachable state an image is tracked exactly when its count is positive, and the
      exported series of an image are the platforms of its last listing, none if it is untracked. */
  lemma ExportedSeries(passes: seq<Pass>, image: string)
    ensures var l := After(EMPTY_LEDGER, passes);
            && (image in l.imagePlatforms <==> Refcount(l, image) > 0)
            && (forall p :: Series(image, p) in l.gauges
                       <==> image in l.imagePlatforms && p in l.imagePlatforms[image].platforms)
  {
    RunInv(passes);
  }

  /** In every reachable state an image's count is its occurrences over all remembered pods plus its
      leaks; the next NotFound pass decrements only tracked images. */
  lemma RefcountsAreExplained(passes: seq<Pass>, image: string, name: string)
    ensures var l := After(EMPTY_LEDGER, passes);
            && Refcount(l, image) == Held(l.podImages)[image] + l.leaked[image]
            && (name in l.podImages ==> forall i :: 0 <= i < |l.podImages[name]| ==>
                  l.podImages[name][i] in DecrementedAll(l, l.podImages[name][..i]).imagePlatforms)
  {
    RunInv(passes);
    ForgottenKeepsInv(After(EMPTY_LEDGER, passes), name);
  }

  /** What a pass leaks: the images counted before a failed lookup, or the list it overwrites. */
  function LeakOf(l: Ledger, p: Pass): multiset<string> {
    if !p.seen.Found? || Skips(l, p.name, p.seen.pod) || !NodeKnown(p) then multiset{}
    else if |Answered(p.seen.pod.images)| < |p.seen.pod.images| then multiset(ImagesOf(Answered(p.seen.pod.images)))
    else if p.name in l.podImages then multiset(l.podImages[p.name])
    else multiset{}
  }

  /** Leaks only grow, and only on a pass that fails midway or that counts a StatefulSet pod anew. */
  lemma LeaksGrowExactly(l: Ledger, p: Pass)
    requires Inv(l)
    ensures LedgerAfter(l, p).leaked == l.leaked + LeakOf(l, p)
    ensures LeakOf(l, p) != multiset{} ==>
              || (ActionOn(l, p) == Errored && p.seen.Found? && exists x :: x in p.seen.pod.images && x.answer.Err?)
              || (p.seen.Found? && IsStatefulSet(p.seen.pod) && p.name in l.podImages)
  {
    match p.seen
    case GetFailed =>
    case NotFound => ForgottenKeepsInv(l, p.name);
    case Found(pod) =>
      CountedRemembers(l, Answered(pod.images));
      assert |Answered(pod.images)| < |pod.images| ==> pod.images[|Answered(pod.images)|] in pod.images;
  }

  /** Without leaks the counts are exact. */
  lemma {:induction false} NoLeakNoDrift(passes: seq<Pass>, image: string)
    requires forall i {:trigger passes[i]} :: 0 <= i < |passes| ==>
               LeakOf(After(EMPTY_LEDGER, passes[..i]), passes[i])[image] == 0
    ensures var l := After(EMPTY_LEDGER, passes); Refcount(l, image) == Held(l.podImages)[image] && l.leaked[image] == 0
  {
    RunInv(passes);
    if passes == [] {
    } else {
      var front := passes[..|passes| - 1];
      forall i {:trigger front[i]} | 0 <= i < |front|
        ensures LeakOf(After(EMPTY_LEDGER, front[..i]), front[i])[image] == 0
      {
        assert front[..i] == passes[..i] && front[i] == passes[i];
      }
      NoLeakNoDrift(front, image);
      RunInv(front);
      LeaksGrowExactly(After(EMPTY_LEDGER, front), passes[|passes| - 1]);
      assert LeakOf(After(EMPTY_LEDGER, passes[..|passes| - 1]), passes[|passes| - 1])[image] == 0;
    }
  }

  // ---------------------------------------------------------------------------------------------
  // Gauges
  // ---------------------------------------------------------------------------------------------

  predicate DuplicateFree(platforms: seq<Platform>) {
    forall p :: p in platforms ==> Count(platforms, p) == 1
  }

  /** The series lags its image's reference count by what the count was when the series appeared. */
  ghost predicate InStep(l: Ledger, s: Series)
    requires s in l.gauges && s in l.bases
  {
    l.gauges[s] == Refcount(l, s.image) - l.bases[s]
  }

  ghost predicate AllInStep(l: Ledger)
    requires l.bases.Keys == l.gauges.Keys
  {
    forall s :: s in l.gauges ==> InStep(l, s)
  }

  /** A count moves a kept series exactly as far as the reference count if and only if the listing
      names the platform once. */
  lemma GapKeptExactlyWhen(l: Ledger, image: string, platforms: seq<Platform>, s: Series)
    requires SeriesInv(l) && s.image == image && s in l.gauges && s.platform in platforms
    ensures var l' := Incremented(l, image, platforms);
            && s in l'.gauges
            && (Refcount(l', image) - l'.gauges[s] == Refcount(l, image) - l.gauges[s]
                <==> Count(platforms, s.platform) == 1)
  {
    RaisedAt(l.gauges - Dropped(image, PlatformsOf(l, image), platforms), image, platforms, s);
  }

  /** ... and a decrement that leaves the image tracked does so if and only if its last listing does. */
  lemma GapKeptByDecrementExactlyWhen(l: Ledger, image: string, s: Series)
    requires SeriesInv(l) && s.image == image && s in l.gauges && Refcount(l, image) > 1
    ensures var l' := Decremented(l, image);
            && s in l'.gauges
            && (Refcount(l', image) - l'.gauges[s] == Refcount(l, image) - l.gauges[s]
                <==> Count(PlatformsOf(l, image), s.platform) == 1)
  {
    LoweredAt(l.gauges, image, PlatformsOf(l, image), false, s);
  }

  lemma IncrementedInStepAt(l: Ledger, image: string, platforms: seq<Platform>, s: Series)
    requires SeriesInv(l) && (s in l.gauges ==> InStep(l, s)) && s in Incremented(l, image, platforms).gauges
    ensures InStep(Incremented(l, image, platforms), s) <==> (s.image == image ==> Count(platforms, s.platform) == 1)
  {
    RaisedAt(l.gauges - Dropped(image, PlatformsOf(l, image), platforms), image, platforms, s);
  }

  /** A count leaves all series in step, old and new, if and only if the listing repeats nothing. */
  lemma IncrementStaysInStepExactlyWhen(l: Ledger, image: string, platforms: seq<Platform>)
    requires SeriesInv(l) && AllInStep(l)
    ensures SeriesInv(Incremented(l, image, platforms))
    ensures AllInStep(Incremented(l, image, platforms)) <==> DuplicateFree(platforms)
  {
    var l' := Incremented(l, image, platforms);
    IncrementedExports(l, image, platforms);
    forall s | s in l'.gauges
      ensures InStep(l', s) <==> (s.image == image ==> Count(platforms, s.platform) == 1)
    {
      IncrementedInStepAt(l, image, platforms, s);
    }
    if AllInStep(l') {
      forall p | p in platforms ensures Count(platforms, p) == 1 { assert InStep(l', Series(image, p)); }
    }
  }

  lemma DecrementedInStepAt(l: Ledger, image: string, s: Series)
    requires SeriesInv(l) && (s in l.gauges ==> InStep(l, s)) && s in Decremented(l, image).gauges
    ensures s in l.gauges && s in Decremented(l, image).bases
    ensures InStep(Decremented(l, image), s)
       <==> (s.image == image ==> Count(PlatformsOf(l, image), s.platform) == 1)
  {
    if image in l.imagePlatforms {
      LoweredAt(l.gauges, image, l.imagePlatforms[image].platforms, l.imagePlatforms[image].refcount == 1, s);
    }
  }

  /** A decrement does if and only if the image goes away, or its last listing repeats nothing. */
  lemma DecrementStaysInStepExactlyWhen(l: Ledger, image: string)
    requires SeriesInv(l) && AllInStep(l)
    ensures SeriesInv(Decremented(l, image))
    ensures AllInStep(Decremented(l, image)) <==> Refcount(l, image) <= 1 || DuplicateFree(PlatformsOf(l, image))
  {
    var l' := Decremented(l, image);
    DecrementedExports(l, image);
    forall s | s in l'.gauges
      ensures InStep(l', s) <==> (s.image == image ==> Count(PlatformsOf(l, image), s.platform) == 1)
    {
      DecrementedInStepAt(l, image, s);
    }
    if AllInStep(l') && Refcount(l, image) > 1 {
      forall p | p in PlatformsOf(l, image) ensures Count(PlatformsOf(l, image), p) == 1 {
        assert Series(image, p) in l.gauges;
        GapKeptByDecrementExactlyWhen(l, image, Series(image, p));
        assert InStep(l', Series(image, p));
      }
    }
  }

  /** How far a gauge moves: up by as often as a listing names its platform, from zero if the series is
      new, and down by as often as the last listing did. No other image's gauges move. */
  lemma GaugesMoveExactly(l: Ledger, image: string, platforms: seq<Platform>, s: Series)
    requires SeriesInv(l)
    ensures var l' := Incremented(l, image, platforms);
            s in l'.gauges ==>
              l'.gauges[s] == GaugeOf(l.gauges, s) + if s.image == image then Count(platforms, s.platform) else 0
    ensures var l' := Decremented(l, image);
            s in l'.gauges ==>
              s in l.gauges
              && l'.gauges[s] == l.gauges[s] - if s.image == image then Count(PlatformsOf(l, image), s.platform) else 0
  {
    IncrementedExportsAt(l, image, platforms, s);
    RaisedAt(l.gauges - Dropped(image, PlatformsOf(l, image), platforms), image, platforms, s);
    LoweredAt(l.gauges, image, PlatformsOf(l, image), Refcount(l, image) == 1, s);
  }

  /** A concrete run: one pod with one image, listed with the same platform twice. The gauge says two
      where one pod uses the image. */
  lemma RepeatedPlatformCountsTwice() returns (passes: seq<Pass>, s: Series)
    ensures |passes| == 1 && ActionOf(passes, 0) == Accepted
    ensures s in After(EMPTY_LEDGER, passes).gauges
    ensures After(EMPTY_LEDGER, passes).gauges[s] == 2 && Refcount(After(EMPTY_LEDGER, passes), s.image) == 1
  {
    var p := Platform("amd64", "linux", "");
    var lookups := [Lookup("app", Ok([p, p]))];
    var pass := Pass("pod", Found(Pod([], "Pending", [], Spec("", None, None), lookups)), Ok(map[]));
    passes, s := [pass], Series("app", p);
    OneLookup(EMPTY_LEDGER, lookups[0]);
    assert [p, p] == [p] + [p] && [pass][..0] == [];
    CountAppend([p], p, p);
    RaisedAt(map[] - Dropped("app", [], [p, p]), "app", [p, p], s);
  }

  lemma OneLookup(l: Ledger, x: Lookup)
    requires x.answer.Ok?
    ensures Answered([x]) == [x] && Counted(l, [x]) == Incremented(l, x.image, x.answer.value)
  {
    assert [x][..0] == [] && [x][1..] == [];
  }

  /** The last listing of its image does not repeat the platform, and the series is in step. */
  ghost predicate GaugeInv(l: Ledger, s: Series) {
    && SeriesInv(l)
    && Count(PlatformsOf(l, s.image), s.platform) <= 1
    && (s in l.gauges ==> InStep(l, s) && l.bases[s] >= 0)
  }

  /** A new series starts at one, a kept one keeps its base; all other images have no say. */
  lemma IncrementedKeepsGauges(l: Ledger, image: string, platforms: seq<Platform>, s: Series)
    requires GaugeInv(l, s) && (image == s.image ==> Count(platforms, s.platform) <= 1)
    ensures var l' := Incremented(l, image, platforms);
            && GaugeInv(l', s)
            && (s in l'.gauges ==> l'.bases[s] == if s in l.gauges then l.bases[s] else Refcount(l, s.image))
  {
    IncrementedExports(l, image, platforms);
    if s in Incremented(l, image, platforms).gauges {
      IncrementedInStepAt(l, image, platforms, s);
      CountZero(platforms, s.platform);
    }
  }

  lemma DecrementedKeepsGauges(l: Ledger, image: string, s: Series)
    requires GaugeInv(l, s)
    ensures var l' := Decremented(l, image);
            && GaugeInv(l', s)
            && (s in l'.gauges ==> s in l.gauges && l'.bases[s] == l.bases[s])
  {
    DecrementedExports(l, image);
    if s in Decremented(l, image).gauges {
      DecrementedInStepAt(l, image, s);
      CountZero(PlatformsOf(l, s.image), s.platform);
    }
  }

  /** No successful lookup of the image lists the platform more than once. */
  predicate NeverRepeats(lookups: seq<Lookup>, s: Series) {
    forall x :: x in lookups && x.image == s.image && x.answer.Ok? ==> Count(x.answer.value, s.platform) <= 1
  }

  lemma {:induction false} CountedKeepsGauges(l: Ledger, lookups: seq<Lookup>, s: Series)
    requires GaugeInv(l, s) && NeverRepeats(lookups, s) && forall x :: x in lookups ==> x.answer.Ok?
    ensures GaugeInv(Counted(l, lookups), s)
  {
    if lookups == [] {
    } else {
      var last := lookups[|lookups| - 1];
      CountedKeepsGauges(l, lookups[..|lookups| - 1], s);
      assert last in lookups;
      IncrementedKeepsGauges(Counted(l, lookups[..|lookups| - 1]), last.image, last.answer.value, s);
    }
  }

  lemma {:induction false} DecrementedAllKeepsGauges(l: Ledger, images: seq<string>, s: Series)
    requires GaugeInv(l, s)
    ensures GaugeInv(DecrementedAll(l, images), s)
  {
    if images == [] {
    } else {
      DecrementedAllKeepsGauges(l, images[..|images| - 1], s);
      DecrementedKeepsGauges(DecrementedAll(l, images[..|images| - 1]), images[|images| - 1], s);
    }
  }

  /** The gauge law reads neither the remembered pods nor the leaks. */
  lemma GaugeInvReadsOnly(l: Ledger, l': Ledger, s: Series)
    requires l'.imagePlatforms == l.imagePlatforms && l'.gauges == l.gauges && l'.bases == l.bases
    requires GaugeInv(l, s)
    ensures GaugeInv(l', s)
  {
    forall image ensures Refcount(l', image) == Refcount(l, image) && PlatformsOf(l', image) == PlatformsOf(l, image) {}
  }

  lemma AnsweredAreLookups(lookups: seq<Lookup>)
    ensures forall x :: x in Answered(lookups) ==> x in lookups
  {
    forall x | x in Answered(lookups) ensures x in lookups {
      var i :| 0 <= i < |Answered(lookups)| && Answered(lookups)[i] == x;
      assert lookups[i] == x;
    }
  }

  lemma ForgottenKeepsGauges(l: Ledger, name: string, s: Series)
    requires GaugeInv(l, s)
    ensures GaugeInv(Forgotten(l, name), s)
  {
    if name in l.podImages {
      DecrementedAllKeepsGauges(l, l.podImages[name], s);
      GaugeInvReadsOnly(DecrementedAll(l, l.podImages[name]), Forgotten(l, name), s);
    }
  }

  lemma ProcessedKeepsGauges(l: Ledger, name: string, lookups: seq<Lookup>, s: Series)
    requires GaugeInv(l, s) && NeverRepeats(lookups, s)
    ensures GaugeInv(Processed(l, name, lookups), s)
  {
    AnsweredAreLookups(lookups);
    CountedKeepsGauges(l, Answered(lookups), s);
    GaugeInvReadsOnly(Counted(l, Answered(lookups)), Processed(l, name, lookups), s);
  }

  lemma PassKeepsGauges(l: Ledger, p: Pass, s: Series)
    requires GaugeInv(l, s) && (p.seen.Found? ==> NeverRepeats(p.seen.pod.images, s))
    ensures GaugeInv(LedgerAfter(l, p), s)
  {
    match p.seen
    case GetFailed =>
    case NotFound => ForgottenKeepsGauges(l, p.name, s);
    case Found(pod) => ProcessedKeepsGauges(l, p.name, pod.images, s);
  }

  lemma {:induction false} RunGauges(passes: seq<Pass>, s: Series)
    requires forall p :: p in passes && p.seen.Found? ==> NeverRepeats(p.seen.pod.images, s)
    ensures GaugeInv(After(EMPTY_LEDGER, passes), s)
  {
    if passes == [] {
    } else {
      RunGauges(passes[..|passes| - 1], s);
      PassKeepsGauges(After(EMPTY_LEDGER, passes[..|passes| - 1]), passes[|passes| - 1], s);
    }
  }

  /** As long as no listing of its image repeats the platform, whatever is listed for other images or
      other platforms, in every reachable state a gauge falls short of its image's count by the count
      just before the series appeared: it never exceeds the count, and equals it exactly when the
      series is as old as the tracking of the image. */
  lemma GaugeLaw(passes: seq<Pass>, s: Series)
    requires forall p :: p in passes && p.seen.Found? ==> NeverRepeats(p.seen.pod.images, s)
    requires s in After(EMPTY_LEDGER, passes).gauges
    ensures var l := After(EMPTY_LEDGER, passes);
            && s in l.bases
            && Refcount(l, s.image) - l.gauges[s] == l.bases[s]
            && l.gauges[s] <= Refcount(l, s.image)
            && (l.gauges[s] == Refcount(l, s.image) <==> l.bases[s] == 0)
  {
    RunGauges(passes, s);
  }

  /** Every successful lookup of the image lists the platform, once. */
  predicate AlwaysListsOnce(lookups: seq<Lookup>, s: Series) {
    forall x :: x in lookups && x.image == s.image && x.answer.Ok? ==> Count(x.answer.value, s.platform) == 1
  }

  /** The series is there as long as its image, and as old. */
  ghost predicate SteadyInv(l: Ledger, s: Series) {
    && GaugeInv(l, s)
    && (s.image in l.imagePlatforms ==> s in l.gauges)
    && (s in l.gauges ==> l.bases[s] == 0)
  }

  lemma IncrementedKeepsSteady(l: Ledger, image: string, platforms: seq<Platform>, s: Series)
    requires SteadyInv(l, s) && (image == s.image ==> Count(platforms, s.platform) == 1)
    ensures SteadyInv(Incremented(l, image, platforms), s)
  {
    IncrementedKeepsGauges(l, image, platforms, s);
    IncrementedExports(l, image, platforms);
    CountZero(platforms, s.platform);
  }

  lemma {:induction false} CountedKeepsSteady(l: Ledger, lookups: seq<Lookup>, s: Series)
    requires SteadyInv(l, s) && AlwaysListsOnce(lookups, s) && forall x :: x in lookups ==> x.answer.Ok?
    ensures SteadyInv(Counted(l, lookups), s)
  {
    if lookups == [] {
    } else {
      var last := lookups[|lookups| - 1];
      CountedKeepsSteady(l, lookups[..|lookups| - 1], s);
      assert last in lookups;
      IncrementedKeepsSteady(Counted(l, lookups[..|lookups| - 1]), last.image, last.answer.value, s);
    }
  }

  lemma DecrementedKeepsSteady(l: Ledger, image: string, s: Series)
    requires SteadyInv(l, s)
    ensures SteadyInv(Decremented(l, image), s)
  {
    DecrementedKeepsGauges(l, image, s);
  }

  lemma {:induction false} DecrementedAllKeepsSteady(l: Ledger, images: seq<string>, s: Series)
    requires SteadyInv(l, s)
    ensures SteadyInv(DecrementedAll(l, images), s)
  {
    if images == [] {
    } else {
      DecrementedAllKeepsSteady(l, images[..|images| - 1], s);
      DecrementedKeepsSteady(DecrementedAll(l, images[..|images| - 1]), images[|images| - 1], s);
    }
  }

  lemma PassKeepsSteady(l: Ledger, p: Pass, s: Series)
    requires SteadyInv(l, s) && (p.seen.Found? ==> AlwaysListsOnce(p.seen.pod.images, s))
    ensures SteadyInv(LedgerAfter(l, p), s)
  {
    PassKeepsGauges(l, p, s);
    match p.seen
    case GetFailed =>
    case NotFound => if p.name in l.podImages { DecrementedAllKeepsSteady(l, l.podImages[p.name], s); }
    case Found(pod) =>
      AnsweredAreLookups(pod.images);
      CountedKeepsSteady(l, Answered(pod.images), s);
  }

  lemma {:induction false} RunSteady(passes: seq<Pass>, s: Series)
    requires forall p :: p in passes && p.seen.Found? ==> AlwaysListsOnce(p.seen.pod.images, s)
    ensures SteadyInv(After(EMPTY_LEDGER, passes), s)
  {
    if passes == [] {
    } else {
      RunSteady(passes[..|passes| - 1], s);
      PassKeepsSteady(After(EMPTY_LEDGER, passes[..|passes| - 1]), passes[|passes| - 1], s);
    }
  }

  /** For a platform that every listing of its image names once the gauge equals the reference count
      of the image; both are gone together. */
  lemma SteadyImagesAreExact(passes: seq<Pass>, s: Series)
    requires forall p :: p in passes && p.seen.Found? ==> AlwaysListsOnce(p.seen.pod.images, s)
    ensures var l := After(EMPTY_LEDGER, passes);
            && (s in l.gauges <==> s.image in l.imagePlatforms)
            && GaugeOf(l.gauges, s) == Refcount(l, s.image)
  {
    RunSteady(passes, s);
  }

  // ---------------------------------------------------------------------------------------------
  // Evictions
  // ---------------------------------------------------------------------------------------------

  /** A label of a node, by its name or else by the name it had before. */
  function LabelOr(labels: map<string, string>, key: string, former: string): string {
    if key in labels then labels[key] else if former in labels then labels[former] else ""
  }

  /** The pod is a StatefulSet's, or neither remembered nor running and ready. */
  predicate IsDue(l: Ledger, name: string, pod: Pod) {
    || "StatefulSet" in pod.owners
    || (name !in l.podImages && !(pod.phase == "Running" && ("Ready", "True") in pod.conditions))
  }

  /** The pass goes as far as the images: the pod is there and due, and its node can be read. */
  predicate LooksAtImages(l: Ledger, p: Pass) {
    && p.seen.Found?
    && IsDue(l, p.name, p.seen.pod)
    && (p.seen.pod.spec.nodeName == "" || p.node.Ok?)
  }

  /** The decision from what is observed. A pod whose images were all listed is deleted exactly when it
      is scheduled to a node that names its operating system and its architecture, some image lists no
      platform of both, and the specification selects no architecture; else it is accepted. */
  lemma DecidesExactly(l: Ledger, p: Pass)
    ensures p.seen.GetFailed? ==> ActionOn(l, p) == Errored
    ensures p.seen.NotFound? ==> ActionOn(l, p) == Forgot
    ensures p.seen.Found? && !LooksAtImages(l, p) ==>
              ActionOn(l, p) == if IsDue(l, p.name, p.seen.pod) then Errored else AlreadyProcessed
    ensures LooksAtImages(l, p) && (exists x :: x in p.seen.pod.images && x.answer.Err?) ==> ActionOn(l, p) == Errored
    ensures LooksAtImages(l, p) && (forall x :: x in p.seen.pod.images ==> x.answer.Ok?) ==>
              var pod := p.seen.pod;
              var labels := if pod.spec.nodeName == "" then map[] else p.node.value;
              var os := LabelOr(labels, "kubernetes.io/os", "beta.kubernetes.io/os");
              var arch := LabelOr(labels, "kubernetes.io/arch", "beta.kubernetes.io/arch");
              ActionOn(l, p)
              == if && os != "" && arch != "" && !HasArchSelection(pod.spec)
                    && exists x :: x in pod.images
                                   && forall q :: q in x.answer.value ==> !(q.os == os && q.architecture == arch)
                 then Evicted else Accepted
  {
    if LooksAtImages(l, p) {
      var images := p.seen.pod.images;
      if |Answered(images)| < |images| {
        assert images[|Answered(images)|] in images;
      } else {
        assert Answered(images) == images;
      }
    }
  }

  lemma ProcessedRemembers(l: Ledger, name: string, lookups: seq<Lookup>)
    ensures Processed(l, name, lookups).podImages
         == if exists x :: x in lookups && x.answer.Err? then l.podImages
            else l.podImages[name := ImagesOf(lookups)]
  {
    CountedRemembers(l, Answered(lookups));
    if |Answered(lookups)| < |lookups| {
      assert lookups[|Answered(lookups)|] in lookups;
    } else {
      assert Answered(lookups) == lookups;
    }
  }

  /** What a pass remembers: the images of a pod it got through, and nothing of a pod that is gone. It
      leaves all else as it was, and a pass that does not look at the images leaves everything. */
  lemma RemembersExactly(l: Ledger, p: Pass)
    ensures !p.seen.NotFound? && !LooksAtImages(l, p) ==> LedgerAfter(l, p) == l
    ensures p.seen.NotFound? ==> LedgerAfter(l, p).podImages == l.podImages - {p.name}
    ensures p.seen.NotFound? && p.name !in l.podImages ==> LedgerAfter(l, p) == l
    ensures LooksAtImages(l, p) ==>
              LedgerAfter(l, p).podImages
              == if exists x :: x in p.seen.pod.images && x.answer.Err? then l.podImages
                 else l.podImages[p.name := ImagesOf(p.seen.pod.images)]
  {
    match p.seen
    case GetFailed =>
    case NotFound =>
      if p.name in l.podImages {
        DecrementedAllRemembers(l, l.podImages[p.name]);
      } else {
        assert l.podImages - {p.name} == l.podImages;
      }
    case Found(pod) => ProcessedRemembers(l, p.name, pod.images);
  }

  lemma {:induction false} CountedInTurn(l: Ledger, front: seq<Lookup>, rest: seq<Lookup>)
    requires forall x :: x in front + rest ==> x.answer.Ok?
    ensures (forall x :: x in front ==> x.answer.Ok?) && (forall x :: x in rest ==> x.answer.Ok?)
    ensures Counted(l, front + rest) == Counted(Counted(l, front), rest)
  {
    forall x | x in front ensures x.answer.Ok? { assert x in front + rest; }
    forall x | x in rest ensures x.answer.Ok? { assert x in front + rest; }
    if rest == [] {
      assert front + rest == front;
    } else {
      var shorter := rest[..|rest| - 1];
      assert (front + rest)[..|front + rest| - 1] == front + shorter;
      forall x | x in front + shorter ensures x.answer.Ok? { assert x in front || x in rest; }
      CountedInTurn(l, front, shorter);
    }
  }

  lemma {:induction false} UncountedIsKept(l: Ledger, lookups: seq<Lookup>, image: string)
    requires forall x :: x in lookups ==> x.answer.Ok? && x.image != image
    ensures var l' := Counted(l, lookups);
            && (image in l'.imagePlatforms <==> image in l.imagePlatforms)
            && (image in l.imagePlatforms ==> l'.imagePlatforms[image] == l.imagePlatforms[image])
  {
    if lookups == [] {
    } else {
      UncountedIsKept(l, lookups[..|lookups| - 1], image);
      assert lookups[|lookups| - 1] in lookups;
    }
  }

  /** Counting images leaves each with the platforms of its last listing, and an image that is not
      among them as it was. */
  lemma LastListingCounts(l: Ledger, before: seq<Lookup>, x: Lookup, after: seq<Lookup>)
    requires forall y :: y in before + [x] + after ==> y.answer.Ok?
    requires forall y :: y in after ==> y.image != x.image
    ensures var l' := Counted(l, before + [x] + after);
            x.image in l'.imagePlatforms && l'.imagePlatforms[x.image].platforms == x.answer.value
  {
    CountedInTurn(l, before + [x], after);
    CountedInTurn(l, before, [x]);
    assert [x][..0] == [] && x in [x];
    UncountedIsKept(Counted(l, before + [x]), after, x.image);
  }

  /** Forgetting a pod changes no listing: an image keeps its platforms or is gone. */
  lemma {:induction false} ForgettingKeepsListings(l: Ledger, images: seq<string>, image: string)
    ensures var l' := DecrementedAll(l, images);
            image in l'.imagePlatforms ==>
              image in l.imagePlatforms && l'.imagePlatforms[image].platforms == l.imagePlatforms[image].platforms
  {
    if images == [] {
    } else {
      ForgettingKeepsListings(l, images[..|images| - 1], image);
    }
  }

  /** A step to what holds over runs: a pod is deleted exactly when a pass looks at it, every lookup
      succeeds, its node names both labels, some image lists no platform equal to them, and its
      specification selects no architecture. */
  lemma EvictedExactlyWhen(l: Ledger, p: Pass)
    ensures ActionOn(l, p) == Evicted
       <==> && p.seen.Found? && !Skips(l, p.name, p.seen.pod) && NodeKnown(p)
            && (forall x :: x in p.seen.pod.images ==> x.answer.Ok?)
            && NodeOS(p) != "" && NodeArch(p) != ""
            && (exists x :: x in p.seen.pod.images && x.answer.Ok?
                            && !HasPlatform(x.answer.value, NodeOS(p), NodeArch(p)))
            && !HasArchSelection(p.seen.pod.spec)
  {
    if p.seen.Found? {
      var images := p.seen.pod.images;
      if |Answered(images)| < |images| {
        assert images[|Answered(images)|] in images;
      } else {
        assert Answered(images) == images;
      }
    }
  }

  /** A name stays remembered until it is not found. */
  lemma {:induction false} RememberedUntilNotFound(passes: seq<Pass>, i: nat, j: nat, name: string)
    requires i < j <= |passes| && passes[i].name == name && ActionOf(passes, i) == Evicted
    requires forall k :: i < k < j && passes[k].name == name ==> !passes[k].seen.NotFound?
    ensures name in After(EMPTY_LEDGER, passes[..j]).podImages
  {
    var before, p := passes[..j - 1], passes[j - 1];
    assert passes[..j][..j - 1] == before;
    assert After(EMPTY_LEDGER, passes[..j]) == LedgerAfter(After(EMPTY_LEDGER, before), p);
    PassRemembers(After(EMPTY_LEDGER, before), p);
    if j > i + 1 {
      RememberedUntilNotFound(passes, i, j - 1, name);
    }
  }

  lemma PassRemembers(l: Ledger, p: Pass)
    ensures var l' := LedgerAfter(l, p);
            && (ActionOn(l, p) == Evicted ==> p.name in l'.podImages)
            && (forall name :: name in l.podImages && !(p.seen.NotFound? && name == p.name) ==> name in l'.podImages)
  {
    match p.seen
    case GetFailed =>
    case NotFound => if p.name in l.podImages { DecrementedAllRemembers(l, l.podImages[p.name]); }
    case Found(pod) => CountedRemembers(l, Answered(pod.images));
  }

  lemma {:induction false} DecrementedAllRemembers(l: Ledger, images: seq<string>)
    ensures DecrementedAll(l, images).podImages == l.podImages
  {
    if images == [] {
    } else {
      DecrementedAllRemembers(l, images[..|images| - 1]);
    }
  }

  lemma {:induction false} CountedRemembers(l: Ledger, lookups: seq<Lookup>)
    requires forall x :: x in lookups ==> x.answer.Ok?
    ensures Counted(l, lookups).podImages == l.podImages && Counted(l, lookups).leaked == l.leaked
  {
    if lookups == [] {
    } else {
      CountedRemembers(l, lookups[..|lookups| - 1]);
    }
  }

  /** Over every run, between two deletions of the same name, the second of a pod without a
      StatefulSet owner, the name was not found at least once. */
  lemma EvictedOnceBetweenDisappearances(passes: seq<Pass>, i: nat, j: nat)
    requires i < j < |passes| && passes[i].name == passes[j].name
    requires ActionOf(passes, i) == Evicted && ActionOf(passes, j) == Evicted
    ensures passes[j].seen.Found?
    ensures IsStatefulSet(passes[j].seen.pod)
            || exists k :: i < k < j && passes[k].name == passes[i].name && passes[k].seen.NotFound?
  {
    EvictedExactlyWhen(After(EMPTY_LEDGER, passes[..j]), passes[j]);
    if !(exists k :: i < k < j && passes[k].name == passes[i].name && passes[k].seen.NotFound?) {
      RememberedUntilNotFound(passes, i, j, passes[i].name);
    }
  }
}
