/** What users of the hook rely on: images run where the pod may go, labels are matched, the webhook
    leaves a selection behind, and a second application changes nothing. Each is given with the
    exact condition under which the code delivers it. */
module HookPromises {
  import opened Collections
  import opened SortedStrings
  import opened PodSpecs
  import opened Hook
  import opened HookTheorems

  // ---------------------------------------------------------------------------------------------
  // Preference and refusal
  // ---------------------------------------------------------------------------------------------

  /** The pod asks for an architecture that can be scheduled at all. */
  predicate Wishes(h: Handler, podLabels: Labels, arch: string) {
    && arch != "" && IsArchSupported(h, arch)
    && "arch.noe.adevinta.com/preferred" in podLabels && podLabels["arch.noe.adevinta.com/preferred"] == arch
  }

  /** A step to what is admitted: which architectures are chosen. The pod's wish decides when every
      image meets it; the configured default decides only for pods without a schedulable wish. Without
      either, all common architectures stay, except that an unusable wish stands for the empty
      architecture name and selects it if every image lists it. */
  lemma PreferenceIsHonoured(h: Handler, podLabels: Labels, answers: seq<Answer>)
    requires Listed(answers)
    ensures forall arch :: Wishes(h, podLabels, arch) ==>
              Chosen(h, podLabels, answers) == if arch in CommonArchs(h, answers)
                                               then {arch} else CommonArchs(h, answers)
    ensures (forall arch :: !Wishes(h, podLabels, arch)) && h.preferredArchitecture != "" ==>
              Chosen(h, podLabels, answers) == if h.preferredArchitecture in CommonArchs(h, answers)
                                               then {h.preferredArchitecture} else CommonArchs(h, answers)
    ensures (forall arch :: !Wishes(h, podLabels, arch)) && h.preferredArchitecture == "" ==>
              Chosen(h, podLabels, answers) == if PREFERRED_LABEL in podLabels && "" in CommonArchs(h, answers)
                                               then {""} else CommonArchs(h, answers)
  {
    if PREFERRED_LABEL in podLabels && (forall arch :: !Wishes(h, podLabels, arch)) {
      assert !Wishes(h, podLabels, podLabels[PREFERRED_LABEL]);
    }
  }

  /** Wherever the hook narrows, a pod whose wish every image meets is admitted to exactly the nodes of
      that architecture among those it accepted and agrees with; so is one without a schedulable wish,
      for the configured default. */
  lemma WishDecidesAdmission(h: Handler, podLabels: Labels, spec: Spec, answers: seq<Answer>, arch: string, node: Node)
    requires Injects(h, spec, answers) && NarrowingGuard(h, podLabels, spec, answers)
    requires || Wishes(h, podLabels, arch)
             || (arch == h.preferredArchitecture != "" && forall wish :: !Wishes(h, podLabels, wish))
    requires arch in CommonArchs(h, answers)
    ensures Accepts(Updated(h, podLabels, spec, answers).0, node)
       <==> && Accepts(spec, node) && Agrees(h.matchNodeLabels, podLabels, node)
            && ARCH_KEY in node.labels && node.labels[ARCH_KEY] == arch
  {
    NarrowsExactlyWhen(h, podLabels, spec, answers);
    PreferenceIsHonoured(h, podLabels, answers);
    assert Wanted(h, podLabels, spec, answers, node) <==> Accepts(Updated(h, podLabels, spec, answers).0, node);
  }

  /** What the warning names: the wish that goes unmet, or nothing if the wish is unusable. */
  lemma WarningNamesTheWish(h: Handler, podLabels: Labels, spec: Spec, answers: seq<Answer>)
    ensures var outcome := Updated(h, podLabels, spec, answers).1;
            outcome.Warning? ==>
              && PREFERRED_LABEL in podLabels
              && outcome.preferredArch == if Wishes(h, podLabels, podLabels[PREFERRED_LABEL])
                                          then podLabels[PREFERRED_LABEL] else ""
  {}

  /** A pod is refused exactly when the hook had to choose and no schedulable architecture runs every
      listed image; it is admitted with a warning exactly when the pod carries the preference label and its
      schedulable wish goes unmet, or the wish is unusable and there is no default to take its place. */
  lemma OutcomesExactly(h: Handler, podLabels: Labels, spec: Spec, answers: seq<Answer>)
    ensures var outcome := Updated(h, podLabels, spec, answers).1;
            (outcome.Denied? <==>
               && spec.nodeName == "" && !HasArchSelection(spec) && Listed(answers)
               && forall arch :: IsArchSupported(h, arch) ==>
                    exists a :: a in answers && a.Ok? && !RunsOn(h, a.value, arch))
    ensures var outcome := Updated(h, podLabels, spec, answers).1;
            (outcome.Warning? <==>
               && Injects(h, spec, answers) && PREFERRED_LABEL in podLabels
               && (Wishes(h, podLabels, podLabels[PREFERRED_LABEL])
                     || (h.preferredArchitecture == "" && "" !in CommonArchs(h, answers)))
               && podLabels[PREFERRED_LABEL] !in CommonArchs(h, answers))
  {
    if Listed(answers) {
      forall arch
        ensures arch in CommonArchs(h, answers)
           <==> IsArchSupported(h, arch) && forall a :: a in answers && a.Ok? ==> RunsOn(h, a.value, arch)
      {
        CommonArchsAreExactly(h, answers, arch);
      }
    }
  }

  // ---------------------------------------------------------------------------------------------
  // Images run where the pod is admitted
  // ---------------------------------------------------------------------------------------------

  /** The chosen architectures cannot be got around. In the preferred branch no matched label may
      override the preferred one, unless nothing is left for the pod's own terms. In the affinity
      branch none of these terms may be met in the appended term's place, and neither may a matched
      label; the architecture label itself does no harm when its value is a common one. */
  ghost predicate ArchEnforced(h: Handler, podLabels: Labels, spec: Spec, answers: seq<Answer>)
    requires Listed(answers)
  {
    var matched := Matched(h.matchNodeLabels, podLabels);
    if Prefers(h, podLabels, answers) then
      || (ARCH_KEY in matched ==> podLabels[ARCH_KEY] == PreferredArch(h, podLabels).arch)
      || (RequiredTerms(spec).Some? && NoOwnTermWith(spec, DemandedByPreference(h, podLabels, spec)))
    else
      var archIsCommon := ARCH_KEY in matched && podLabels[ARCH_KEY] in CommonArchs(h, answers);
      if spec.nodeSelector.None? then
        NoOwnTermWith(spec, map[]) && (matched == {} || (matched == {ARCH_KEY} && archIsCommon))
      else
        archIsCommon || NoOwnTermWith(spec, Demanded(h, podLabels, spec))
  }

  lemma AdmittedArchIsChosen(h: Handler, podLabels: Labels, spec: Spec, answers: seq<Answer>, node: Node)
    requires Injects(h, spec, answers) && ArchEnforced(h, podLabels, spec, answers)
    requires Accepts(Updated(h, podLabels, spec, answers).0, node)
    ensures HasArchIn(node, Chosen(h, podLabels, answers))
  {
    if Prefers(h, podLabels, answers) {
      var demanded := DemandedByPreference(h, podLabels, spec);
      PreferredAccepts(h, podLabels, spec, answers, node);
      assert ARCH_KEY in demanded;
    } else {
      AffinityAccepts(h, podLabels, spec, answers, node);
      var demanded := Demanded(h, podLabels, spec);
      assert spec.nodeSelector.Some? && ARCH_KEY in Matched(h.matchNodeLabels, podLabels) ==>
        ARCH_KEY in demanded && demanded[ARCH_KEY] == podLabels[ARCH_KEY];
    }
  }

  /** For the images to run it is enough that what overrides the preference is a common architecture. */
  ghost predicate ImagesEnforced(h: Handler, podLabels: Labels, spec: Spec, answers: seq<Answer>)
    requires Listed(answers)
  {
    || ArchEnforced(h, podLabels, spec, answers)
    || (Prefers(h, podLabels, answers) && ARCH_KEY in Matched(h.matchNodeLabels, podLabels)
        && podLabels[ARCH_KEY] in CommonArchs(h, answers))
  }

  lemma AdmittedArchIsCommon(h: Handler, podLabels: Labels, spec: Spec, answers: seq<Answer>, node: Node)
    requires Injects(h, spec, answers) && ImagesEnforced(h, podLabels, spec, answers)
    requires Accepts(Updated(h, podLabels, spec, answers).0, node)
    ensures HasArchIn(node, CommonArchs(h, answers))
  {
    if ArchEnforced(h, podLabels, spec, answers) {
      AdmittedArchIsChosen(h, podLabels, spec, answers, node);
    } else {
      PreferredAccepts(h, podLabels, spec, answers, node);
      assert ARCH_KEY in DemandedByPreference(h, podLabels, spec);
    }
  }

  /** The listed images run on the node: it names an architecture that may be scheduled, and every
      listed image has a platform for it. The node is taken to run the system's operating system, which
      the hook never demands of a node. */
  ghost predicate AllRunOn(h: Handler, answers: seq<Answer>, node: Node) {
    && ARCH_KEY in node.labels && IsArchSupported(h, node.labels[ARCH_KEY])
    && forall a :: a in answers && a.Ok? ==> RunsOn(h, a.value, node.labels[ARCH_KEY])
  }

  lemma AllRunOnCommonArchs(h: Handler, answers: seq<Answer>, node: Node)
    requires Listed(answers)
    ensures AllRunOn(h, answers, node) <==> HasArchIn(node, CommonArchs(h, answers))
  {
    if ARCH_KEY in node.labels {
      CommonArchsAreExactly(h, answers, node.labels[ARCH_KEY]);
    }
  }

  /** On every node the pod is admitted to, every listed image has a platform to run. */
  lemma ImagesRunWhereAdmitted(h: Handler, podLabels: Labels, spec: Spec, answers: seq<Answer>, node: Node)
    requires Injects(h, spec, answers) && ImagesEnforced(h, podLabels, spec, answers)
    requires Accepts(Updated(h, podLabels, spec, answers).0, node)
    ensures AllRunOn(h, answers, node)
  {
    AdmittedArchIsCommon(h, podLabels, spec, answers, node);
    AllRunOnCommonArchs(h, answers, node);
  }

  /** In the preferred branch the pod's architecture label takes the place of its preference. */
  lemma PreferenceOverridden(h: Handler, podLabels: Labels, spec: Spec, answers: seq<Answer>) returns (node: Node)
    requires Injects(h, spec, answers) && Prefers(h, podLabels, answers)
    requires ARCH_KEY in Matched(h.matchNodeLabels, podLabels)
    requires RequiredTerms(spec).None? || !NoOwnTermWith(spec, DemandedByPreference(h, podLabels, spec))
    ensures Accepts(Updated(h, podLabels, spec, answers).0, node)
    ensures ARCH_KEY in node.labels && node.labels[ARCH_KEY] == podLabels[ARCH_KEY]
  {
    var demanded := DemandedByPreference(h, podLabels, spec);
    node := Node("", demanded);
    if RequiredTerms(spec).Some? {
      node :| SelectorMatches(demanded, node.labels) && OwnTermMatches(spec, node);
    }
    PreferredAccepts(h, podLabels, spec, answers, node);
    assert ARCH_KEY in demanded && demanded[ARCH_KEY] == podLabels[ARCH_KEY];
  }

  /** In the affinity branch, where the condition fails, a node of no common architecture gets in. */
  lemma AffinityEvaded(h: Handler, podLabels: Labels, spec: Spec, answers: seq<Answer>) returns (node: Node)
    requires Injects(h, spec, answers) && !Prefers(h, podLabels, answers)
    requires !ArchEnforced(h, podLabels, spec, answers)
    ensures Accepts(Updated(h, podLabels, spec, answers).0, node)
    ensures !HasArchIn(node, CommonArchs(h, answers))
  {
    var demanded := Demanded(h, podLabels, spec);
    if !NoOwnTermWith(spec, demanded) {
      if ARCH_KEY in demanded {
        node :| SelectorMatches(demanded, node.labels) && OwnTermMatches(spec, node);
      } else {
        node := OwnTermWithoutArch(spec, demanded);
      }
    } else {
      var k :| k in Matched(h.matchNodeLabels, podLabels)
               && (k != ARCH_KEY || podLabels[ARCH_KEY] !in CommonArchs(h, answers));
      node := Node("", map[k := podLabels[k]]);
    }
    AffinityAccepts(h, podLabels, spec, answers, node);
  }

  /** All admitted nodes have a chosen architecture exactly then. */
  lemma ArchEnforcedExactlyWhen(h: Handler, podLabels: Labels, spec: Spec, answers: seq<Answer>)
    requires Injects(h, spec, answers)
    ensures ArchEnforced(h, podLabels, spec, answers)
       <==> (forall node :: Accepts(Updated(h, podLabels, spec, answers).0, node) ==>
               HasArchIn(node, Chosen(h, podLabels, answers)))
  {
    if ArchEnforced(h, podLabels, spec, answers) {
      forall node | Accepts(Updated(h, podLabels, spec, answers).0, node)
        ensures HasArchIn(node, Chosen(h, podLabels, answers))
      {
        AdmittedArchIsChosen(h, podLabels, spec, answers, node);
      }
    } else if Prefers(h, podLabels, answers) {
      var node := PreferenceOverridden(h, podLabels, spec, answers);
    } else {
      var node := AffinityEvaded(h, podLabels, spec, answers);
    }
  }

  /** The promise of the hook: every listed image runs on every node that the pod is admitted to.
      Whenever the hook injects, the promise is kept exactly then. */
  lemma ImagesRunExactlyWhen(h: Handler, podLabels: Labels, spec: Spec, answers: seq<Answer>)
    requires Injects(h, spec, answers)
    ensures ImagesEnforced(h, podLabels, spec, answers)
       <==> (forall node :: Accepts(Updated(h, podLabels, spec, answers).0, node) ==> AllRunOn(h, answers, node))
  {
    if ImagesEnforced(h, podLabels, spec, answers) {
      forall node | Accepts(Updated(h, podLabels, spec, answers).0, node) ensures AllRunOn(h, answers, node) {
        ImagesRunWhereAdmitted(h, podLabels, spec, answers, node);
      }
    } else {
      var node: Node;
      if Prefers(h, podLabels, answers) {
        node := PreferenceOverridden(h, podLabels, spec, answers);
      } else {
        node := AffinityEvaded(h, podLabels, spec, answers);
      }
      AllRunOnCommonArchs(h, answers, node);
    }
  }

  /** One image of one platform decides alone. */
  lemma SingleImage(h: Handler, p: Platform)
    requires Usable(h, p)
    ensures Listed([Ok([p])]) && CommonArchs(h, [Ok([p])]) == {p.architecture}
  {
    var answers := [Ok([p])];
    assert answers[0] in answers && p in answers[0].value;
    forall arch ensures arch in CommonArchs(h, answers) <==> arch == p.architecture {
      CommonArchsAreExactly(h, answers, arch);
    }
  }

  lemma RequiringSpec(key: string, value: string)
    requires !IsArchKey(key)
    ensures var spec := WithTerm(Spec("", None, None), InTerm(key, [value]));
            !HasArchSelection(spec) && RequiredTerms(spec) == Some([InTerm(key, [value])])
  {
    assert [] + [InTerm(key, [value])] == [InTerm(key, [value])];
  }

  /** A concrete pod: one amd64 image, and a zone that its own node affinity requires. It is admitted
      to an arm64 node of that zone, because the architectures are one more alternative. */
  lemma ImagePromiseFails() returns (h: Handler, podLabels: Labels, spec: Spec, p: Platform, node: Node)
    ensures Injects(h, spec, [Ok([p])]) && Accepts(Updated(h, podLabels, spec, [Ok([p])]).0, node)
    ensures ARCH_KEY in node.labels && !RunsOn(h, [p], node.labels[ARCH_KEY])
  {
    var zone := "zone";
    assert |ARCH_KEY| != |zone| && |BETA_ARCH_KEY| != |zone|;
    h, podLabels, p := Handler([], "", [], "linux"), map[], Platform("amd64", "linux", "");
    spec := WithTerm(Spec("", None, None), InTerm(zone, ["a"]));
    node := Node("", map[zone := "a", ARCH_KEY := "arm64"]);
    SingleImage(h, p);
    RequiringSpec(zone, "a");
    InTermMatches(zone, ["a"], node);
    SingleTerm(InTerm(zone, ["a"]), node);
    AffinityAccepts(h, podLabels, spec, [Ok([p])], node);
  }

  // ---------------------------------------------------------------------------------------------
  // Pod and node carry the same labels
  // ---------------------------------------------------------------------------------------------

  /** The labels by themselves: they are enforced by a node selector to put them in; without one,
      a single label is enforced unless one of the pod's own terms offers a way around it, and
      several become alternatives to each other. */
  ghost predicate LabelsEnforcedAlone(spec: Spec, keys: seq<string>, podLabels: Labels) {
    || spec.nodeSelector.Some?
    || Matched(keys, podLabels) == {}
    || (|Matched(keys, podLabels)| == 1
        && forall node :: OwnTermMatches(spec, node) ==> Agrees(keys, podLabels, node))
  }

  lemma SelectorEnforcesLabels(spec: Spec, keys: seq<string>, podLabels: Labels, node: Node)
    requires spec.nodeSelector.Some? && Accepts(WithLabels(spec, keys, podLabels), node)
    ensures Agrees(keys, podLabels, node)
  {
    LabelsInSelector(spec, keys, podLabels);
    SelectorWithLabels(spec.nodeSelector.value, keys, podLabels, node);
  }

  /** Without a node selector a node needs one matched label, or one of the pod's own terms. */
  lemma LabelledAccepts(spec: Spec, keys: seq<string>, podLabels: Labels, node: Node)
    requires spec.nodeSelector.None? && Matched(keys, podLabels) != {}
    ensures Accepts(WithLabels(spec, keys, podLabels), node)
       <==> OwnTermMatches(spec, node) || AgreesOnOne(keys, podLabels, node)
  {
    var terms := if RequiredTerms(spec).Some? then RequiredTerms(spec).value else [];
    LabelsInTerms(spec, keys, podLabels);
    LabelTermMatches(keys, podLabels, node);
    SomeTermConcat(terms, LabelTerms(keys, podLabels), node);
  }

  lemma LabelsEnforcedAloneExactlyWhen(spec: Spec, keys: seq<string>, podLabels: Labels)
    ensures (forall node :: Accepts(WithLabels(spec, keys, podLabels), node) ==> Agrees(keys, podLabels, node))
       <==> LabelsEnforcedAlone(spec, keys, podLabels)
  {
    var spec', matched := WithLabels(spec, keys, podLabels), Matched(keys, podLabels);
    if spec.nodeSelector.Some? {
      forall node | Accepts(spec', node) ensures Agrees(keys, podLabels, node) {
        SelectorEnforcesLabels(spec, keys, podLabels, node);
      }
    } else if matched != {} {
      forall node ensures Accepts(spec', node) <==> OwnTermMatches(spec, node) || AgreesOnOne(keys, podLabels, node) {
        LabelledAccepts(spec, keys, podLabels, node);
      }
      var k :| k in matched;
      if matched == {k} {
        assert forall node :: AgreesOnOne(keys, podLabels, node) <==> Agrees(keys, podLabels, node);
      } else {
        var k' :| k' in matched && k' != k;
        SubsetSize({k, k'}, matched);
        var node := Node("", map[k := podLabels[k]]);
        assert AgreesOnOne(keys, podLabels, node) && k' !in node.labels;
        assert Accepts(spec', node) && !Agrees(keys, podLabels, node);
      }
    }
  }

  /** The labels next to injected architectures: they are enforced when the preference is met or a
      node selector exists. Otherwise a common architecture is enough for a node, so a matched label
      is enforced only if it is the architecture label and names the only common architecture. */
  ghost predicate LabelsEnforced(h: Handler, podLabels: Labels, spec: Spec, answers: seq<Answer>) {
    var matched := Matched(h.matchNodeLabels, podLabels);
    if !Injects(h, spec, answers) then LabelsEnforcedAlone(spec, h.matchNodeLabels, podLabels)
    else
      || Prefers(h, podLabels, answers)
      || spec.nodeSelector.Some?
      || matched == {}
      || (matched == {ARCH_KEY} && CommonArchs(h, answers) == {podLabels[ARCH_KEY]} && NoOwnTermWith(spec, map[]))
  }

  /** A node that gets around the matched labels. */
  lemma LabelsEvaded(h: Handler, podLabels: Labels, spec: Spec, answers: seq<Answer>) returns (node: Node)
    requires Injects(h, spec, answers) && !LabelsEnforced(h, podLabels, spec, answers)
    ensures Accepts(Updated(h, podLabels, spec, answers).0, node) && !Agrees(h.matchNodeLabels, podLabels, node)
  {
    var matched := Matched(h.matchNodeLabels, podLabels);
    var arch :| arch in CommonArchs(h, answers);
    if matched != {ARCH_KEY} {
      assert exists k :: k in matched && k != ARCH_KEY;
      node := NodeWith(map[], arch);
    } else if CommonArchs(h, answers) != {podLabels[ARCH_KEY]} {
      var other :| other in CommonArchs(h, answers) && other != podLabels[ARCH_KEY];
      node := NodeWith(map[], other);
    } else {
      node := OwnTermWithoutArch(spec, map[]);
    }
    AffinityAccepts(h, podLabels, spec, answers, node);
  }

  lemma AdmittedNodesAgree(h: Handler, podLabels: Labels, spec: Spec, answers: seq<Answer>, node: Node)
    requires Injects(h, spec, answers) && LabelsEnforced(h, podLabels, spec, answers)
    requires Accepts(Updated(h, podLabels, spec, answers).0, node)
    ensures Agrees(h.matchNodeLabels, podLabels, node)
  {
    var keys := h.matchNodeLabels;
    if Prefers(h, podLabels, answers) {
      SelectorEnforcesLabels(WithArch(spec, PreferredArch(h, podLabels).arch), keys, podLabels, node);
    } else if spec.nodeSelector.Some? {
      var term := InTerm(ARCH_KEY, SortedKeys(CommonArchs(h, answers)));
      SelectorEnforcesLabels(WithTerm(spec, term), keys, podLabels, node);
    } else {
      AffinityAccepts(h, podLabels, spec, answers, node);
    }
  }

  /** The documentation promises that a pod with a matched label only goes to nodes with that label.
      The hook keeps this promise exactly then; a pod that is scheduled already it leaves alone. */
  lemma LabelsEnforcedExactlyWhen(h: Handler, podLabels: Labels, spec: Spec, answers: seq<Answer>)
    ensures var spec' := Updated(h, podLabels, spec, answers).0;
            if spec.nodeName != "" then spec' == spec
            else (forall node :: Accepts(spec', node) ==> Agrees(h.matchNodeLabels, podLabels, node))
                 <==> LabelsEnforced(h, podLabels, spec, answers)
  {
    if spec.nodeName == "" {
      if !Injects(h, spec, answers) {
        LabelsEnforcedAloneExactlyWhen(spec, h.matchNodeLabels, podLabels);
      } else if LabelsEnforced(h, podLabels, spec, answers) {
        forall node | Accepts(Updated(h, podLabels, spec, answers).0, node)
          ensures Agrees(h.matchNodeLabels, podLabels, node)
        {
          AdmittedNodesAgree(h, podLabels, spec, answers, node);
        }
      } else {
        var node := LabelsEvaded(h, podLabels, spec, answers);
      }
    }
  }

  /** Against that promise: with no node selector and no preference that fits, every node with a
      common architecture is admitted, whatever its labels. */
  lemma LabelsIgnoredNextToArchitectures(h: Handler, podLabels: Labels, spec: Spec, answers: seq<Answer>, node: Node)
    requires Injects(h, spec, answers) && !Prefers(h, podLabels, answers) && spec.nodeSelector.None?
    requires HasArchIn(node, CommonArchs(h, answers))
    ensures Accepts(Updated(h, podLabels, spec, answers).0, node)
  {
    AffinityAccepts(h, podLabels, spec, answers, node);
  }

  /** A concrete pod: one amd64 image, a zone to match, no preference. A node of another zone is
      admitted. */
  lemma LabelPromiseFails() returns (h: Handler, podLabels: Labels, spec: Spec, answers: seq<Answer>, node: Node)
    ensures "zone" in h.matchNodeLabels && "zone" in podLabels && "zone" in node.labels
    ensures podLabels["zone"] != node.labels["zone"]
    ensures Injects(h, spec, answers) && Accepts(Updated(h, podLabels, spec, answers).0, node)
  {
    var zone, amd64 := "zone", "amd64";
    h := Handler([zone], "", [], "linux");
    podLabels := map[zone := "b"];
    spec := Spec("", None, None);
    answers := [Ok([Platform(amd64, "linux", "")])];
    node := Node("", map[zone := "a", ARCH_KEY := amd64]);
    SingleImage(h, Platform(amd64, "linux", ""));
    assert PREFERRED_LABEL !in podLabels by { assert |PREFERRED_LABEL| != |zone|; }
    LabelsIgnoredNextToArchitectures(h, podLabels, spec, answers, node);
  }

  // ---------------------------------------------------------------------------------------------
  // What stays admitted
  // ---------------------------------------------------------------------------------------------

  /** An update that does not inject leaves a scheduled pod alone, and otherwise adds the matched labels
      and nothing else: as demands to a node selector, as alternatives without one. */
  lemma UninjectedAdmitsExactly(h: Handler, podLabels: Labels, spec: Spec, answers: seq<Answer>, node: Node)
    requires !Injects(h, spec, answers)
    ensures var keys, spec' := h.matchNodeLabels, Updated(h, podLabels, spec, answers).0;
            && (spec.nodeName != "" || Matched(keys, podLabels) == {} ==> spec' == spec)
            && (spec.nodeName == "" && Matched(keys, podLabels) != {} ==>
                  (Accepts(spec', node)
                   <==> if spec.nodeSelector.Some? then
                          && SelectorMatches(spec.nodeSelector.value + MatchedLabels(keys, podLabels), node.labels)
                          && (RequiredTerms(spec).None? || OwnTermMatches(spec, node))
                        else OwnTermMatches(spec, node) || AgreesOnOne(keys, podLabels, node)))
  {
    var keys := h.matchNodeLabels;
    if spec.nodeName == "" {
      if spec.nodeSelector.Some? {
        LabelsInSelector(spec, keys, podLabels);
        assert Matched(keys, podLabels) == {} ==>
          spec.nodeSelector.value + MatchedLabels(keys, podLabels) == spec.nodeSelector.value;
      } else {
        LabelsInTerms(spec, keys, podLabels);
        if Matched(keys, podLabels) != {} {
          LabelledAccepts(spec, keys, podLabels, node);
        }
      }
    }
  }

  /** No node is lost that the specification accepts and that carries the matched labels, unless the
      hook injects; and then none that has a chosen architecture besides. */
  lemma WantedNodesStayAdmitted(h: Handler, podLabels: Labels, spec: Spec, answers: seq<Answer>, node: Node)
    requires Accepts(spec, node) && Agrees(h.matchNodeLabels, podLabels, node)
    requires Injects(h, spec, answers) ==> HasArchIn(node, Chosen(h, podLabels, answers))
    ensures Accepts(Updated(h, podLabels, spec, answers).0, node)
  {
    var keys := h.matchNodeLabels;
    if spec.nodeSelector.Some? {
      SelectorWithLabels(spec.nodeSelector.value, keys, podLabels, node);
    }
    if !Injects(h, spec, answers) {
      UninjectedAdmitsExactly(h, podLabels, spec, answers, node);
    } else if Prefers(h, podLabels, answers) {
      PreferredBranch(h, podLabels, spec, answers, node);
    } else {
      AffinityAccepts(h, podLabels, spec, answers, node);
    }
  }

  /** Only the node selector and the node affinity are touched, and a node selector that was not there
      appears only to hold the preferred architecture. */
  lemma UpdateTouchesPlacementOnly(h: Handler, podLabels: Labels, spec: Spec, answers: seq<Answer>)
    ensures Updated(h, podLabels, spec, answers).0.nodeName == spec.nodeName
    ensures spec.nodeSelector.None? && !(Injects(h, spec, answers) && Prefers(h, podLabels, answers)) ==>
              Updated(h, podLabels, spec, answers).0.nodeSelector.None?
  {
    var keys := h.matchNodeLabels;
    LabelsSettleExactlyWhen(spec, keys, podLabels);
    if Injects(h, spec, answers) {
      LabelsSettleExactlyWhen(WithArch(spec, PreferredArch(h, podLabels).arch), keys, podLabels);
      LabelsSettleExactlyWhen(WithTerm(spec, InTerm(ARCH_KEY, SortedKeys(CommonArchs(h, answers)))), keys, podLabels);
    }
  }

  // ---------------------------------------------------------------------------------------------
  // The selection persists
  // ---------------------------------------------------------------------------------------------

  lemma TermKeepsSelection(spec: Spec, t: Term)
    ensures HasArchSelection(spec) || SelectsArch(t) ==> HasArchSelection(WithTerm(spec, t))
  {
    var terms := if RequiredTerms(spec).Some? then RequiredTerms(spec).value else [];
    assert forall x :: x in terms + [t] <==> x in terms || x == t;
  }

  lemma {:induction false} LabelsKeepSelection(spec: Spec, keys: seq<string>, podLabels: Labels)
    requires HasArchSelection(spec)
    ensures HasArchSelection(WithLabels(spec, keys, podLabels))
  {
    if keys == [] {
    } else {
      var front, last := keys[..|keys| - 1], keys[|keys| - 1];
      LabelsKeepSelection(spec, front, podLabels);
      if last in podLabels {
        TermKeepsSelection(WithLabels(spec, front, podLabels), InTerm(last, [podLabels[last]]));
      }
    }
  }

  /** Whenever the hook finds a selection or injects one, the resulting specification has one. */
  lemma SelectionPersists(h: Handler, podLabels: Labels, spec: Spec, answers: seq<Answer>)
    requires HasArchSelection(spec) || Injects(h, spec, answers)
    ensures HasArchSelection(Updated(h, podLabels, spec, answers).0)
  {
    if !HasArchSelection(spec) {
      if Prefers(h, podLabels, answers) {
        LabelsKeepSelection(WithArch(spec, PreferredArch(h, podLabels).arch), h.matchNodeLabels, podLabels);
      } else {
        var term := InTerm(ARCH_KEY, SortedKeys(CommonArchs(h, answers)));
        assert term.matchExpressions[0] in term.matchExpressions;
        TermKeepsSelection(spec, term);
        LabelsKeepSelection(WithTerm(spec, term), h.matchNodeLabels, podLabels);
      }
    } else if spec.nodeName == "" {
      LabelsKeepSelection(spec, h.matchNodeLabels, podLabels);
    }
  }

  // ---------------------------------------------------------------------------------------------
  // A second application
  // ---------------------------------------------------------------------------------------------

  /** Adding the labels once more changes nothing exactly when they went into a node selector, or
      there are none. */
  lemma LabelsSettleExactlyWhen(spec: Spec, keys: seq<string>, podLabels: Labels)
    ensures var once := WithLabels(spec, keys, podLabels);
            && once.nodeName == spec.nodeName && once.nodeSelector.Some? == spec.nodeSelector.Some?
            && (WithLabels(once, keys, podLabels) == once
                <==> once.nodeSelector.Some? || Matched(keys, podLabels) == {})
  {
    var once := WithLabels(spec, keys, podLabels);
    if spec.nodeSelector.Some? {
      LabelsInSelector(spec, keys, podLabels);
      LabelsInSelector(once, keys, podLabels);
      assert spec.nodeSelector.value + MatchedLabels(keys, podLabels) + MatchedLabels(keys, podLabels)
          == spec.nodeSelector.value + MatchedLabels(keys, podLabels);
    } else {
      LabelsInTerms(spec, keys, podLabels);
      LabelsInTerms(once, keys, podLabels);
      if Matched(keys, podLabels) != {} {
        assert |RequiredTerms(WithLabels(once, keys, podLabels)).value| > |RequiredTerms(once).value|;
      }
    }
  }

  /** Updating an updated specification changes nothing exactly when the pod was scheduled already, or
      the second update does not inject and the label terms are not appended again, because the result
      has a node selector or no matched label is on the pod. The second update does not inject when
      the first one found or injected a selection, nor when the answers are the same. */
  lemma SecondUpdateSettlesExactlyWhen(h: Handler, podLabels: Labels, spec: Spec,
                                       answers: seq<Answer>, answers': seq<Answer>)
    ensures var once := Updated(h, podLabels, spec, answers).0;
            && (Updated(h, podLabels, once, answers').0 == once
                <==> || spec.nodeName != ""
                     || (&& !Injects(h, once, answers')
                         && (once.nodeSelector.Some? || Matched(h.matchNodeLabels, podLabels) == {})))
            && (HasArchSelection(spec) || Injects(h, spec, answers) || answers' == answers ==>
                  !Injects(h, once, answers'))
  {
    var keys, once := h.matchNodeLabels, Updated(h, podLabels, spec, answers).0;
    if HasArchSelection(spec) || Injects(h, spec, answers) {
      SelectionPersists(h, podLabels, spec, answers);
    }
    if spec.nodeName == "" {
      var base :=
        if !Injects(h, spec, answers) then spec
        else if Prefers(h, podLabels, answers) then WithArch(spec, PreferredArch(h, podLabels).arch)
        else WithTerm(spec, InTerm(ARCH_KEY, SortedKeys(CommonArchs(h, answers))));
      LabelsSettleExactlyWhen(base, keys, podLabels);
      if Injects(h, once, answers') {
        SelectionPersists(h, podLabels, once, answers');
      }
    }
  }

  // ---------------------------------------------------------------------------------------------
  // Two specifications as they are written
  // ---------------------------------------------------------------------------------------------

  lemma TwoCommonArchs(h: Handler, answers: seq<Answer>)
    requires h == Handler([], "", [], "linux")
    requires answers == [Ok([Platform("arm64", "linux", ""), Platform("amd64", "", ""),
                             Platform("s390x", "windows", "")])]
    ensures Listed(answers) && CommonArchs(h, answers) == {"amd64", "arm64"}
    ensures SortedKeys({"amd64", "arm64"}) == ["amd64", "arm64"]
  {
    var platforms := answers[0].value;
    assert answers[0] in answers && platforms[0] in platforms && platforms[1] in platforms;
    forall arch ensures arch in CommonArchs(h, answers) <==> arch in {"amd64", "arm64"} {
      CommonArchsAreExactly(h, answers, arch);
      assert platforms[2].os == "windows" && "windows" != "linux";
    }
    assert Before("amd64", "arm64") by { assert "amd64"[1..] == "md64" && "arm64"[1..] == "rm64"; }
    AscendingIsUnique(SortedKeys({"amd64", "arm64"}), ["amd64", "arm64"]);
  }

  /** A pod whose image runs on arm64 and, for no operating system in particular, on amd64. Without a
      preference it gets both as one sorted term, with one the preferred one as a node selector. */
  lemma WrittenSpecifications(h: Handler, answers: seq<Answer>)
    requires h == Handler([], "", [], "linux")
    requires answers == [Ok([Platform("arm64", "linux", ""), Platform("amd64", "", ""),
                             Platform("s390x", "windows", "")])]
    ensures Updated(h, map[], Spec("", None, None), answers)
         == (Spec("", None, Some(Affinity(Some(NodeAffinity(Some(NodeSelector(
               [Term([Requirement("kubernetes.io/arch", In, ["amd64", "arm64"])], [])]))))))), Done)
    ensures Updated(h, map["arch.noe.adevinta.com/preferred" := "arm64"], Spec("", None, None), answers)
         == (Spec("", Some(map["kubernetes.io/arch" := "arm64"]), None), Done)
    ensures Updated(h, map["arch.noe.adevinta.com/preferred" := "ppc"], Spec("", None, None), answers).1
         == Warning("ppc")
  {
    TwoCommonArchs(h, answers);
    var term := InTerm(ARCH_KEY, ["amd64", "arm64"]);
    assert [] + [term] == [term];
  }
}
