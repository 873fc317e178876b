/** What the rewritten specification means: which nodes it admits and when these are the nodes the
    hook is meant to leave, and that the result does not depend on the order in which results arrive. */
module HookTheorems {
  import opened Collections
  import opened SortedStrings
  import opened PodSpecs
  import opened Hook

  // ---------------------------------------------------------------------------------------------
  // The chosen architectures
  // ---------------------------------------------------------------------------------------------

  /** An image runs on an architecture when some listed platform has it, for the system's operating
      system or for none in particular. */
  predicate RunsOn(h: Handler, platforms: seq<Platform>, arch: string) {
    exists p :: p in platforms && p.architecture == arch && (p.os == "" || p.os == h.systemOS)
  }

  /** The common architectures are exactly those that are schedulable and on which every listed
      image runs. */
  lemma CommonArchsAreExactly(h: Handler, answers: seq<Answer>, arch: string)
    requires Listed(answers)
    ensures arch in CommonArchs(h, answers)
       <==> && (h.schedulableArchitectures == [] || arch in h.schedulableArchitectures)
            && forall a :: a in answers && a.Ok? ==> RunsOn(h, a.value, arch)
  {
    forall a | a in answers && a.Ok?
      ensures arch in UsableArchs(h, a.value) <==> IsArchSupported(h, arch) && RunsOn(h, a.value, arch)
    {}
    var a :| a in answers && a.Ok?;
    assert arch in CommonArchs(h, answers) <==> Common(h, answers, arch);
  }

  /** The rewrite is the same for every order of the results, and for any number of repetitions: only
      the set of successful answers counts. */
  lemma ArrivalOrderIsIrrelevant(h: Handler, podLabels: Labels, spec: Spec, answers: seq<Answer>, answers': seq<Answer>)
    requires forall a: Answer :: a.Ok? ==> (a in answers <==> a in answers')
    ensures Updated(h, podLabels, spec, answers) == Updated(h, podLabels, spec, answers')
  {
    assert Listed(answers) <==> Listed(answers');
    if Listed(answers) {
      forall arch ensures arch in CommonArchs(h, answers) <==> arch in CommonArchs(h, answers') {
        CommonArchsAreExactly(h, answers, arch);
        CommonArchsAreExactly(h, answers', arch);
      }
      assert CommonArchs(h, answers) == CommonArchs(h, answers');
    }
  }

  // ---------------------------------------------------------------------------------------------
  // The match labels in closed form
  // ---------------------------------------------------------------------------------------------

  /** The label names to match that the pod carries. */
  function Matched(keys: seq<string>, podLabels: Labels): set<string> {
    set k | k in keys && k in podLabels
  }

  function MatchedLabels(keys: seq<string>, podLabels: Labels): map<string, string> {
    map k | k in Matched(keys, podLabels) :: podLabels[k]
  }

  /** The node carries the pod's value of every matched label. */
  predicate Agrees(keys: seq<string>, podLabels: Labels, node: Node) {
    forall k :: k in Matched(keys, podLabels) ==> k in node.labels && node.labels[k] == podLabels[k]
  }

  function LabelTerms(keys: seq<string>, podLabels: Labels): seq<Term> {
    if keys == [] then []
    else
      var front, last := LabelTerms(keys[..|keys| - 1], podLabels), keys[|keys| - 1];
      if last in podLabels then front + [InTerm(last, [podLabels[last]])] else front
  }

  lemma MatchedGrows(keys: seq<string>, podLabels: Labels)
    requires keys != []
    ensures var front, last := keys[..|keys| - 1], keys[|keys| - 1];
            Matched(keys, podLabels) == Matched(front, podLabels) + (if last in podLabels then {last} else {})
  {
    assert keys == keys[..|keys| - 1] + [keys[|keys| - 1]];
  }

  /** With a node selector, the labels become entries of it. */
  lemma {:induction false} LabelsInSelector(spec: Spec, keys: seq<string>, podLabels: Labels)
    requires spec.nodeSelector.Some?
    ensures WithLabels(spec, keys, podLabels)
         == spec.(nodeSelector := Some(spec.nodeSelector.value + MatchedLabels(keys, podLabels)))
  {
    if keys == [] {
      assert spec.nodeSelector.value + MatchedLabels(keys, podLabels) == spec.nodeSelector.value;
    } else {
      LabelsInSelector(spec, keys[..|keys| - 1], podLabels);
      MatchedGrows(keys, podLabels);
      var front, last := MatchedLabels(keys[..|keys| - 1], podLabels), keys[|keys| - 1];
      if last in podLabels {
        assert spec.nodeSelector.value + MatchedLabels(keys, podLabels)
            == (spec.nodeSelector.value + front)[last := podLabels[last]];
      } else {
        assert MatchedLabels(keys, podLabels) == front;
      }
    }
  }

  /** Without one, each label becomes one more alternative term. */
  lemma {:induction false} LabelsInTerms(spec: Spec, keys: seq<string>, podLabels: Labels)
    requires spec.nodeSelector.None?
    ensures var labelled := WithLabels(spec, keys, podLabels);
            var terms := if RequiredTerms(spec).Some? then RequiredTerms(spec).value else [];
            && labelled.nodeSelector.None? && labelled.nodeName == spec.nodeName
            && (Matched(keys, podLabels) == {} ==> labelled == spec)
            && (Matched(keys, podLabels) != {} ==>
                  RequiredTerms(labelled) == Some(terms + LabelTerms(keys, podLabels)))
    ensures Matched(keys, podLabels) == {} <==> LabelTerms(keys, podLabels) == []
  {
    if keys == [] {
    } else {
      var front, last := LabelTerms(keys[..|keys| - 1], podLabels), keys[|keys| - 1];
      LabelsInTerms(spec, keys[..|keys| - 1], podLabels);
      MatchedGrows(keys, podLabels);
      if last in podLabels {
        var terms := if RequiredTerms(spec).Some? then RequiredTerms(spec).value else [];
        assert terms + (front + [InTerm(last, [podLabels[last]])]) == terms + front + [InTerm(last, [podLabels[last]])];
        assert terms + [] == terms;
      }
    }
  }

  /** The node carries the pod's value of at least one matched label. */
  predicate AgreesOnOne(keys: seq<string>, podLabels: Labels, node: Node) {
    exists k :: k in Matched(keys, podLabels) && k in node.labels && node.labels[k] == podLabels[k]
  }

  lemma {:induction false} LabelTermMatches(keys: seq<string>, podLabels: Labels, node: Node)
    ensures SomeTermMatches(LabelTerms(keys, podLabels), node) <==> AgreesOnOne(keys, podLabels, node)
  {
    if keys == [] {
    } else {
      var front, last := keys[..|keys| - 1], keys[|keys| - 1];
      LabelTermMatches(front, podLabels, node);
      MatchedGrows(keys, podLabels);
      if last in podLabels {
        InTermMatches(last, [podLabels[last]], node);
        SomeTermConcat(LabelTerms(front, podLabels), [InTerm(last, [podLabels[last]])], node);
        SingleTerm(InTerm(last, [podLabels[last]]), node);
      }
    }
  }

  lemma InTermMatches(key: string, values: seq<string>, node: Node)
    ensures TermMatches(InTerm(key, values), node) <==> key in node.labels && node.labels[key] in values
  {
    var r := Requirement(key, In, values);
    assert r in InTerm(key, values).matchExpressions;
  }

  lemma SingleTerm(t: Term, node: Node)
    ensures SomeTermMatches([t], node) <==> TermMatches(t, node)
  {
    assert t in [t];
  }

  lemma SomeTermConcat(a: seq<Term>, b: seq<Term>, node: Node)
    ensures SomeTermMatches(a + b, node) <==> SomeTermMatches(a, node) || SomeTermMatches(b, node)
  {
    assert forall t :: t in a + b <==> t in a || t in b;
  }

  // ---------------------------------------------------------------------------------------------
  // Node admission
  // ---------------------------------------------------------------------------------------------

  /** The nodes the hook is meant to leave: those the user's specification accepts, whose
      architecture was chosen, and which agree with the pod's matched labels. */
  ghost predicate Wanted(h: Handler, podLabels: Labels, spec: Spec, answers: seq<Answer>, node: Node)
    requires Listed(answers)
  {
    && Accepts(spec, node)
    && ARCH_KEY in node.labels && node.labels[ARCH_KEY] in Chosen(h, podLabels, answers)
    && Agrees(h.matchNodeLabels, podLabels, node)
  }

  /** The rewritten specification admits exactly these. */
  ghost predicate Narrows(h: Handler, podLabels: Labels, spec: Spec, answers: seq<Answer>)
    requires Listed(answers)
  {
    forall node :: Accepts(Updated(h, podLabels, spec, answers).0, node) <==> Wanted(h, podLabels, spec, answers, node)
  }

  function Entries(spec: Spec): map<string, string> {
    if spec.nodeSelector.Some? then spec.nodeSelector.value else map[]
  }

  /** No matched label contradicts an entry of the node selector. */
  predicate Consistent(selector: map<string, string>, keys: seq<string>, podLabels: Labels) {
    forall k :: k in Matched(keys, podLabels) && k in selector ==> selector[k] == podLabels[k]
  }

  lemma SelectorWithLabels(selector: map<string, string>, keys: seq<string>, podLabels: Labels, node: Node)
    ensures var whole := selector + MatchedLabels(keys, podLabels);
            && (SelectorMatches(whole, node.labels) ==> Agrees(keys, podLabels, node))
            && (Consistent(selector, keys, podLabels) ==>
                  (SelectorMatches(whole, node.labels)
                   <==> SelectorMatches(selector, node.labels) && Agrees(keys, podLabels, node)))
            && (!Consistent(selector, keys, podLabels) ==>
                  !(SelectorMatches(selector, node.labels) && Agrees(keys, podLabels, node)))
  {
    var whole := selector + MatchedLabels(keys, podLabels);
    if SelectorMatches(whole, node.labels) {
      forall k | k in Matched(keys, podLabels) ensures k in node.labels && node.labels[k] == podLabels[k] {
        assert k in whole;
      }
      if Consistent(selector, keys, podLabels) {
        forall k | k in selector ensures k in node.labels && node.labels[k] == selector[k] {
          assert k in whole && whole[k] == selector[k];
        }
      }
    }
  }

  lemma SelectorWithArch(selector: map<string, string>, arch: string, labels: map<string, string>)
    requires ARCH_KEY !in selector
    ensures SelectorMatches(selector[ARCH_KEY := arch], labels)
       <==> SelectorMatches(selector, labels) && ARCH_KEY in labels && labels[ARCH_KEY] == arch
  {
    var whole := selector[ARCH_KEY := arch];
    assert ARCH_KEY in whole;
    if SelectorMatches(whole, labels) {
      forall k | k in selector ensures k in labels && labels[k] == selector[k] {
        assert k in whole && whole[k] == selector[k];
      }
    }
  }

  /** The specification after the preferred branch. */
  lemma PreferredSpec(h: Handler, podLabels: Labels, spec: Spec, answers: seq<Answer>)
    requires Injects(h, spec, answers) && Prefers(h, podLabels, answers)
    ensures Updated(h, podLabels, spec, answers).0
         == spec.(nodeSelector := Some(Entries(spec)[ARCH_KEY := PreferredArch(h, podLabels).arch]
                                       + MatchedLabels(h.matchNodeLabels, podLabels)))
    ensures ARCH_KEY !in Entries(spec)
  {
    LabelsInSelector(WithArch(spec, PreferredArch(h, podLabels).arch), h.matchNodeLabels, podLabels);
  }

  /** The specification after the affinity branch: its terms, and its node selector. */
  lemma AffinitySpec(h: Handler, podLabels: Labels, spec: Spec, answers: seq<Answer>) returns (terms: seq<Term>)
    requires Injects(h, spec, answers) && !Prefers(h, podLabels, answers)
    ensures var keys := h.matchNodeLabels;
            var spec' := Updated(h, podLabels, spec, answers).0;
            var given := if RequiredTerms(spec).Some? then RequiredTerms(spec).value else [];
            && terms == given + [InTerm(ARCH_KEY, SortedKeys(CommonArchs(h, answers)))]
                      + (if spec.nodeSelector.None? then LabelTerms(keys, podLabels) else [])
            && RequiredTerms(spec') == Some(terms)
            && spec'.nodeSelector == (if spec.nodeSelector.None? then None
                                      else Some(spec.nodeSelector.value + MatchedLabels(keys, podLabels)))
    ensures ARCH_KEY !in Entries(spec)
  {
    var given := if RequiredTerms(spec).Some? then RequiredTerms(spec).value else [];
    var term := InTerm(ARCH_KEY, SortedKeys(CommonArchs(h, answers)));
    var injected := WithTerm(spec, term);
    terms := given + [term] + (if spec.nodeSelector.None? then LabelTerms(h.matchNodeLabels, podLabels) else []);
    assert given + [term] + [] == given + [term];
    if spec.nodeSelector.None? {
      LabelsInTerms(injected, h.matchNodeLabels, podLabels);
    } else {
      LabelsInSelector(injected, h.matchNodeLabels, podLabels);
    }
  }

  /** A node that carries a common architecture matches the appended term. */
  lemma ArchTermMatches(h: Handler, answers: seq<Answer>, node: Node)
    requires Listed(answers)
    ensures SomeTermMatches([InTerm(ARCH_KEY, SortedKeys(CommonArchs(h, answers)))], node)
       <==> ARCH_KEY in node.labels && node.labels[ARCH_KEY] in CommonArchs(h, answers)
  {
    SingleTerm(InTerm(ARCH_KEY, SortedKeys(CommonArchs(h, answers))), node);
    InTermMatches(ARCH_KEY, SortedKeys(CommonArchs(h, answers)), node);
  }

  /** One of the pod's own required terms matches the node. */
  predicate OwnTermMatches(spec: Spec, node: Node) {
    RequiredTerms(spec).Some? && SomeTermMatches(RequiredTerms(spec).value, node)
  }

  /** No node with these labels meets one of the pod's own required terms. */
  ghost predicate NoOwnTermWith(spec: Spec, labels: map<string, string>) {
    forall node: Node :: SelectorMatches(labels, node.labels) ==> !OwnTermMatches(spec, node)
  }

  /** If such a node exists, it need not carry an architecture. */
  lemma OwnTermWithoutArch(spec: Spec, labels: map<string, string>) returns (node: Node)
    requires !HasArchSelection(spec) && ARCH_KEY !in labels && !NoOwnTermWith(spec, labels)
    ensures SelectorMatches(labels, node.labels) && OwnTermMatches(spec, node) && ARCH_KEY !in node.labels
  {
    var some: Node :| SelectorMatches(labels, some.labels) && OwnTermMatches(spec, some);
    node := Node(some.name, some.labels - {ARCH_KEY});
    assert some.labels - ARCH_KEYS == node.labels - ARCH_KEYS;
    TermsIgnoreArch(RequiredTerms(spec).value, some, node);
  }

  /** A node with the given labels and architecture. */
  function NodeWith(labels: map<string, string>, arch: string): Node {
    Node("", labels[ARCH_KEY := arch])
  }

  /** The labels the preferred branch demands of every node. */
  function DemandedByPreference(h: Handler, podLabels: Labels, spec: Spec): map<string, string> {
    Entries(spec)[ARCH_KEY := PreferredArch(h, podLabels).arch] + MatchedLabels(h.matchNodeLabels, podLabels)
  }

  /** The labels the affinity branch demands of every node. */
  function Demanded(h: Handler, podLabels: Labels, spec: Spec): map<string, string> {
    if spec.nodeSelector.None? then map[]
    else spec.nodeSelector.value + MatchedLabels(h.matchNodeLabels, podLabels)
  }

  predicate HasArchIn(node: Node, archs: set<string>) {
    ARCH_KEY in node.labels && node.labels[ARCH_KEY] in archs
  }

  /** After the preferred branch a node needs the demanded labels, and one of the pod's own terms. */
  lemma PreferredAccepts(h: Handler, podLabels: Labels, spec: Spec, answers: seq<Answer>, node: Node)
    requires Injects(h, spec, answers) && Prefers(h, podLabels, answers)
    ensures Accepts(Updated(h, podLabels, spec, answers).0, node)
       <==> && SelectorMatches(DemandedByPreference(h, podLabels, spec), node.labels)
            && (RequiredTerms(spec).None? || OwnTermMatches(spec, node))
  {
    PreferredSpec(h, podLabels, spec, answers);
  }

  /** After the affinity branch it needs the demanded labels, and any one of: a common architecture,
      one of the pod's own terms, or, without a node selector, one of the matched labels. */
  lemma AffinityAccepts(h: Handler, podLabels: Labels, spec: Spec, answers: seq<Answer>, node: Node)
    requires Injects(h, spec, answers) && !Prefers(h, podLabels, answers)
    ensures Accepts(Updated(h, podLabels, spec, answers).0, node)
       <==> && SelectorMatches(Demanded(h, podLabels, spec), node.labels)
            && (|| HasArchIn(node, CommonArchs(h, answers))
                || OwnTermMatches(spec, node)
                || (spec.nodeSelector.None? && AgreesOnOne(h.matchNodeLabels, podLabels, node)))
  {
    var terms := AffinitySpec(h, podLabels, spec, answers);
    var given := if RequiredTerms(spec).Some? then RequiredTerms(spec).value else [];
    var archTerm := [InTerm(ARCH_KEY, SortedKeys(CommonArchs(h, answers)))];
    var labelTerms := if spec.nodeSelector.None? then LabelTerms(h.matchNodeLabels, podLabels) else [];
    ArchTermMatches(h, answers, node);
    SomeTermConcat(given, archTerm, node);
    SomeTermConcat(given + archTerm, labelTerms, node);
    LabelTermMatches(h.matchNodeLabels, podLabels, node);
  }

  // ---------------------------------------------------------------------------------------------
  // When the hook narrows
  // ---------------------------------------------------------------------------------------------

  /** The labels, with a node selector to put them in, say the same as the common architectures. */
  ghost predicate SelectorGuard(h: Handler, podLabels: Labels, spec: Spec, answers: seq<Answer>)
    requires Listed(answers) && spec.nodeSelector.Some?
  {
    var keys, demanded := h.matchNodeLabels, Demanded(h, podLabels, spec);
    if ARCH_KEY in Matched(keys, podLabels) && podLabels[ARCH_KEY] !in CommonArchs(h, answers) then
      NoOwnTermWith(spec, demanded)
    else
      && Consistent(spec.nodeSelector.value, keys, podLabels)
      && (|| RequiredTerms(spec).None?
          || (ARCH_KEY in Matched(keys, podLabels)
              && forall node: Node :: SelectorMatches(demanded, node.labels) ==> OwnTermMatches(spec, node)))
  }

  /** What can be checked beforehand. In the preferred branch: no matched label contradicts the node
      selector, or the two demands leave no node for the pod's own terms. In the affinity branch
      without a node selector: no required terms and no matched labels, except that the architecture
      label may be matched when it names the only common architecture. */
  ghost predicate NarrowingGuard(h: Handler, podLabels: Labels, spec: Spec, answers: seq<Answer>)
    requires Listed(answers)
  {
    var matched := Matched(h.matchNodeLabels, podLabels);
    if Prefers(h, podLabels, answers) then
      || Consistent(Entries(spec)[ARCH_KEY := PreferredArch(h, podLabels).arch], h.matchNodeLabels, podLabels)
      || (RequiredTerms(spec).Some? && NoOwnTermWith(spec, DemandedByPreference(h, podLabels, spec)))
    else if spec.nodeSelector.None? then
      && RequiredTerms(spec).None?
      && (matched == {} || (matched == {ARCH_KEY} && CommonArchs(h, answers) == {podLabels[ARCH_KEY]}))
    else
      SelectorGuard(h, podLabels, spec, answers)
  }

  /** In the preferred branch the labels decide between exactness and a demand no wanted node meets. */
  lemma PreferredBranch(h: Handler, podLabels: Labels, spec: Spec, answers: seq<Answer>, node: Node)
    requires Injects(h, spec, answers) && Prefers(h, podLabels, answers)
    ensures var selector := Entries(spec)[ARCH_KEY := PreferredArch(h, podLabels).arch];
            if Consistent(selector, h.matchNodeLabels, podLabels) then
              Accepts(Updated(h, podLabels, spec, answers).0, node) <==> Wanted(h, podLabels, spec, answers, node)
            else !Wanted(h, podLabels, spec, answers, node)
  {
    var arch := PreferredArch(h, podLabels).arch;
    PreferredSpec(h, podLabels, spec, answers);
    SelectorWithArch(Entries(spec), arch, node.labels);
    SelectorWithLabels(Entries(spec)[ARCH_KEY := arch], h.matchNodeLabels, podLabels, node);
  }

  lemma PreferredNarrowsExactlyWhen(h: Handler, podLabels: Labels, spec: Spec, answers: seq<Answer>)
    requires Injects(h, spec, answers) && Prefers(h, podLabels, answers)
    ensures Narrows(h, podLabels, spec, answers) <==> NarrowingGuard(h, podLabels, spec, answers)
  {
    var demanded, spec' := DemandedByPreference(h, podLabels, spec), Updated(h, podLabels, spec, answers).0;
    forall node
      ensures Accepts(spec', node) <==> SelectorMatches(demanded, node.labels)
                                        && (RequiredTerms(spec).None? || OwnTermMatches(spec, node))
    {
      PreferredAccepts(h, podLabels, spec, answers, node);
    }
    if Consistent(Entries(spec)[ARCH_KEY := PreferredArch(h, podLabels).arch], h.matchNodeLabels, podLabels) {
      forall node ensures Accepts(spec', node) <==> Wanted(h, podLabels, spec, answers, node) {
        PreferredBranch(h, podLabels, spec, answers, node);
      }
    } else {
      forall node ensures !Wanted(h, podLabels, spec, answers, node) {
        PreferredBranch(h, podLabels, spec, answers, node);
      }
      assert RequiredTerms(spec).None? ==> Accepts(spec', Node("", demanded));
    }
  }

  /** What a wanted node needs. */
  lemma WantedNeeds(h: Handler, podLabels: Labels, spec: Spec, answers: seq<Answer>, node: Node)
    requires Injects(h, spec, answers) && !Prefers(h, podLabels, answers)
    ensures Wanted(h, podLabels, spec, answers, node)
       <==> && SelectorMatches(Entries(spec), node.labels) && Agrees(h.matchNodeLabels, podLabels, node)
            && HasArchIn(node, CommonArchs(h, answers))
            && (RequiredTerms(spec).None? || OwnTermMatches(spec, node))
  {}

  lemma AffinityNarrows(h: Handler, podLabels: Labels, spec: Spec, answers: seq<Answer>, node: Node)
    requires Injects(h, spec, answers) && !Prefers(h, podLabels, answers)
    requires NarrowingGuard(h, podLabels, spec, answers)
    ensures Accepts(Updated(h, podLabels, spec, answers).0, node) <==> Wanted(h, podLabels, spec, answers, node)
  {
    AffinityAccepts(h, podLabels, spec, answers, node);
    WantedNeeds(h, podLabels, spec, answers, node);
    if spec.nodeSelector.Some? {
      var keys, selector := h.matchNodeLabels, spec.nodeSelector.value;
      SelectorWithLabels(selector, keys, podLabels, node);
    }
  }

  lemma WidensWithoutSelector(h: Handler, podLabels: Labels, spec: Spec, answers: seq<Answer>) returns (node: Node)
    requires Injects(h, spec, answers) && !Prefers(h, podLabels, answers) && spec.nodeSelector.None?
    requires !NarrowingGuard(h, podLabels, spec, answers)
    ensures Accepts(Updated(h, podLabels, spec, answers).0, node) && !Wanted(h, podLabels, spec, answers, node)
  {
    var matched := Matched(h.matchNodeLabels, podLabels);
    var arch :| arch in CommonArchs(h, answers);
    if matched == {ARCH_KEY} && RequiredTerms(spec).None? {
      assert CommonArchs(h, answers) != {podLabels[ARCH_KEY]};
      arch :| arch in CommonArchs(h, answers) && arch != podLabels[ARCH_KEY];
    }
    node := NodeWith(map[], arch);
    if RequiredTerms(spec).Some? && OwnTermMatches(spec, node) {
      node := OwnTermWithoutArch(spec, map[]);
    } else if RequiredTerms(spec).None? && matched != {ARCH_KEY} {
      assert exists k :: k in matched && k != ARCH_KEY;
    }
    AffinityAccepts(h, podLabels, spec, answers, node);
  }

  lemma WidensWithSelector(h: Handler, podLabels: Labels, spec: Spec, answers: seq<Answer>) returns (node: Node)
    requires Injects(h, spec, answers) && !Prefers(h, podLabels, answers) && spec.nodeSelector.Some?
    requires !NarrowingGuard(h, podLabels, spec, answers)
    ensures Accepts(Updated(h, podLabels, spec, answers).0, node) && !Wanted(h, podLabels, spec, answers, node)
  {
    var keys, demanded := h.matchNodeLabels, Demanded(h, podLabels, spec);
    var matched := ARCH_KEY in Matched(keys, podLabels);
    var arch :| arch in CommonArchs(h, answers);
    if matched && podLabels[ARCH_KEY] !in CommonArchs(h, answers) {
      node :| SelectorMatches(demanded, node.labels) && OwnTermMatches(spec, node);
    } else if !Consistent(spec.nodeSelector.value, keys, podLabels) {
      node := if matched then Node("", demanded) else NodeWith(demanded, arch);
    } else if matched {
      node :| SelectorMatches(demanded, node.labels) && !OwnTermMatches(spec, node);
    } else {
      node := NodeWith(demanded, arch);
      if OwnTermMatches(spec, node) {
        node := OwnTermWithoutArch(spec, demanded);
      }
    }
    assert matched ==> demanded[ARCH_KEY] == podLabels[ARCH_KEY];
    SelectorWithLabels(spec.nodeSelector.value, keys, podLabels, node);
    AffinityAccepts(h, podLabels, spec, answers, node);
    WantedNeeds(h, podLabels, spec, answers, node);
  }

  /** In the affinity branch, without the guard, some unwanted node is admitted: the appended
      alternatives widen what existing terms or the labels demand. */
  lemma AffinityWidens(h: Handler, podLabels: Labels, spec: Spec, answers: seq<Answer>) returns (node: Node)
    requires Injects(h, spec, answers) && !Prefers(h, podLabels, answers)
    requires !NarrowingGuard(h, podLabels, spec, answers)
    ensures Accepts(Updated(h, podLabels, spec, answers).0, node) && !Wanted(h, podLabels, spec, answers, node)
  {
    if spec.nodeSelector.None? {
      node := WidensWithoutSelector(h, podLabels, spec, answers);
    } else {
      node := WidensWithSelector(h, podLabels, spec, answers);
    }
  }

  /** Whenever the hook injects, it narrows exactly when the guard holds. */
  lemma NarrowsExactlyWhen(h: Handler, podLabels: Labels, spec: Spec, answers: seq<Answer>)
    requires Injects(h, spec, answers)
    ensures Narrows(h, podLabels, spec, answers) <==> NarrowingGuard(h, podLabels, spec, answers)
  {
    if Prefers(h, podLabels, answers) {
      PreferredNarrowsExactlyWhen(h, podLabels, spec, answers);
    } else if NarrowingGuard(h, podLabels, spec, answers) {
      forall node
        ensures Accepts(Updated(h, podLabels, spec, answers).0, node) <==> Wanted(h, podLabels, spec, answers, node)
      {
        AffinityNarrows(h, podLabels, spec, answers, node);
      }
    } else {
      var node := AffinityWidens(h, podLabels, spec, answers);
    }
  }
}
