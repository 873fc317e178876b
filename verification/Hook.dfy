/** updatePodSpec: the admission hook's rewrite of a pod specification (pkg/arch/hook.go). */
module Hook {
  import opened Collections
  import opened SortedStrings
  import opened PodSpecs

  const PREFERRED_LABEL := "arch.noe.adevinta.com/preferred"

  type Labels = map<string, string>

  /** What the registry said about one image. */
  type Answer = Result<seq<Platform>>

  /** The configuration of a Handler. */
  datatype Handler = Handler(matchNodeLabels: seq<string>, preferredArchitecture: string,
                             schedulableArchitectures: seq<string>, systemOS: string)

  datatype Outcome = Done | Warning(preferredArch: string) | Denied

  // ---------------------------------------------------------------------------------------------
  // Architectures
  // ---------------------------------------------------------------------------------------------

  predicate IsArchSupported(h: Handler, arch: string) {
    h.schedulableArchitectures == [] || arch in h.schedulableArchitectures
  }

  /** The platform can run here: right operating system, schedulable architecture. */
  predicate Usable(h: Handler, p: Platform) {
    (p.os == "" || p.os == h.systemOS) && IsArchSupported(h, p.architecture)
  }

  function UsableArchs(h: Handler, platforms: seq<Platform>): set<string> {
    set p | p in platforms && Usable(h, p) :: p.architecture
  }

  predicate Listed(answers: seq<Answer>) {
    exists a :: a in answers && a.Ok?
  }

  /** The architectures every listed image can be run on; unlisted images have no say. */
  ghost predicate Common(h: Handler, answers: seq<Answer>, arch: string) {
    forall a :: a in answers && a.Ok? ==> arch in UsableArchs(h, a.value)
  }

  ghost function CommonArchs(h: Handler, answers: seq<Answer>): set<string>
    requires Listed(answers)
  {
    var first :| first in answers && first.Ok?;
    set arch | arch in UsableArchs(h, first.value) && Common(h, answers, arch)
  }

  datatype Preference = Preference(arch: string, defined: bool, isDefault: bool)

  /** The pod's label when it names a schedulable architecture, else the configured default. */
  function PreferredArch(h: Handler, podLabels: Labels): Preference {
    var defined := PREFERRED_LABEL in podLabels;
    var wish := if defined then podLabels[PREFERRED_LABEL] else "";
    var kept := if wish != "" && !IsArchSupported(h, wish) then "" else wish;
    if kept == "" && h.preferredArchitecture != "" then Preference(h.preferredArchitecture, true, true)
    else Preference(kept, defined, false)
  }

  // ---------------------------------------------------------------------------------------------
  // Rewrites
  // ---------------------------------------------------------------------------------------------

  function InTerm(key: string, values: seq<string>): Term {
    Term([Requirement(key, In, values)], [])
  }

  /** Append a required term, allocating whatever pointer on the way is nil. */
  function WithTerm(spec: Spec, t: Term): Spec {
    var terms := if RequiredTerms(spec).Some? then RequiredTerms(spec).value else [];
    spec.(affinity := Some(Affinity(Some(NodeAffinity(Some(NodeSelector(terms + [t])))))))
  }

  function WithLabel(spec: Spec, key: string, value: string): Spec {
    if spec.nodeSelector.None? then WithTerm(spec, InTerm(key, [value]))
    else spec.(nodeSelector := Some(spec.nodeSelector.value[key := value]))
  }

  /** addPodNodeMatchingLabels for a list of label names. */
  function WithLabels(spec: Spec, keys: seq<string>, podLabels: Labels): Spec {
    if keys == [] then spec
    else
      var front, last := WithLabels(spec, keys[..|keys| - 1], podLabels), keys[|keys| - 1];
      if last in podLabels then WithLabel(front, last, podLabels[last]) else front
  }

  function WithArch(spec: Spec, arch: string): Spec {
    var selector := if spec.nodeSelector.None? then map[] else spec.nodeSelector.value;
    spec.(nodeSelector := Some(selector[ARCH_KEY := arch]))
  }

  /** The hook looks at the images and finds at least one architecture for all of them. */
  ghost predicate Injects(h: Handler, spec: Spec, answers: seq<Answer>) {
    spec.nodeName == "" && !HasArchSelection(spec) && Listed(answers) && CommonArchs(h, answers) != {}
  }

  /** ... and the preferred one is among them. */
  ghost predicate Prefers(h: Handler, podLabels: Labels, answers: seq<Answer>)
    requires Listed(answers)
  {
    var p := PreferredArch(h, podLabels);
    p.defined && p.arch in CommonArchs(h, answers)
  }

  /** The architectures the rewritten pod may run on. */
  ghost function Chosen(h: Handler, podLabels: Labels, answers: seq<Answer>): set<string>
    requires Listed(answers)
  {
    if Prefers(h, podLabels, answers) then {PreferredArch(h, podLabels).arch} else CommonArchs(h, answers)
  }

  ghost function Updated(h: Handler, podLabels: Labels, spec: Spec, answers: seq<Answer>): (Spec, Outcome) {
    var labelled := WithLabels(spec, h.matchNodeLabels, podLabels);
    if spec.nodeName != "" then (spec, Done)
    else if HasArchSelection(spec) || !Listed(answers) then (labelled, Done)
    else if CommonArchs(h, answers) == {} then (labelled, Denied)
    else
      var p := PreferredArch(h, podLabels);
      if Prefers(h, podLabels, answers) then
        (WithLabels(WithArch(spec, p.arch), h.matchNodeLabels, podLabels), Done)
      else
        var term := InTerm(ARCH_KEY, SortedKeys(CommonArchs(h, answers)));
        (WithLabels(WithTerm(spec, term), h.matchNodeLabels, podLabels),
         if p.defined && !p.isDefault then Warning(p.arch) else Done)
  }

  // ---------------------------------------------------------------------------------------------
  // The hook itself, over a specification it rewrites in place
  // ---------------------------------------------------------------------------------------------

  class PodSpec {
    var nodeName: string
    var nodeSelector: Option<map<string, string>>
    var affinity: Option<Affinity>

    function Value(): Spec
      reads this
    {
      Spec(nodeName, nodeSelector, affinity)
    }

    constructor (spec: Spec)
      ensures Value() == spec
    {
      nodeName, nodeSelector, affinity := spec.nodeName, spec.nodeSelector, spec.affinity;
    }

    method AppendTerm(t: Term)
      modifies this
      ensures Value() == WithTerm(old(Value()), t)
    {
      if affinity.None? {
        affinity := Some(Affinity(None));
      }
      if affinity.value.nodeAffinity.None? {
        affinity := Some(Affinity(Some(NodeAffinity(None))));
      }
      if affinity.value.nodeAffinity.value.required.None? {
        affinity := Some(Affinity(Some(NodeAffinity(Some(NodeSelector([]))))));
      }
      var terms := affinity.value.nodeAffinity.value.required.value.terms;
      affinity := Some(Affinity(Some(NodeAffinity(Some(NodeSelector(terms + [t]))))));
    }
  }

  method AddPodNodeMatchingLabels(h: Handler, podLabels: Labels, podSpec: PodSpec)
    modifies podSpec
    ensures podSpec.Value() == WithLabels(old(podSpec.Value()), h.matchNodeLabels, podLabels)
  {
    var keys := h.matchNodeLabels;
    for i := 0 to |keys|
      invariant podSpec.Value() == WithLabels(old(podSpec.Value()), keys[..i], podLabels)
    {
      assert keys[..i + 1][..i] == keys[..i];
      if keys[i] in podLabels {
        var val := podLabels[keys[i]];
        if podSpec.nodeSelector.None? {
          podSpec.AppendTerm(InTerm(keys[i], [val]));
        } else {
          podSpec.nodeSelector := Some(podSpec.nodeSelector.value[keys[i] := val]);
        }
      }
    }
    assert keys[..|keys|] == keys;
  }

  /** The architectures of one arriving result. */
  method ImageArchitectures(h: Handler, platforms: seq<Platform>) returns (archs: set<string>)
    ensures archs == UsableArchs(h, platforms)
  {
    archs := {};
    for i := 0 to |platforms|
      invariant archs == UsableArchs(h, platforms[..i])
    {
      var platform := platforms[i];
      assert platforms[..i + 1] == platforms[..i] + [platform];
      if platform.os != "" && platform.os != h.systemOS {
        assert UsableArchs(h, platforms[..i + 1]) == UsableArchs(h, platforms[..i]);
        continue;
      }
      if !IsArchSupported(h, platform.architecture) {
        assert UsableArchs(h, platforms[..i + 1]) == UsableArchs(h, platforms[..i]);
        continue;
      }
      archs := archs + {platform.architecture};
      assert UsableArchs(h, platforms[..i + 1]) == UsableArchs(h, platforms[..i]) + {platform.architecture};
    }
    assert platforms[..|platforms|] == platforms;
  }

  /** Drop what the next image does not offer, while ranging over the set. */
  method DeleteMissing(archs: set<string>, offered: set<string>) returns (common: set<string>)
    ensures common == archs * offered
  {
    common := archs;
    var toVisit := archs;
    while toVisit != {}
      invariant toVisit <= archs
      invariant common == archs * offered + (archs - offered) * toVisit
      decreases |toVisit|
    {
      var k :| k in toVisit;
      toVisit := toVisit - {k};
      if k !in offered {
        common := common - {k};
      }
    }
  }

  /** The images whose lookup succeeds: the senders of the channel. */
  function Senders(answers: seq<Answer>): set<nat> {
    set i: nat | i < |answers| && answers[i].Ok?
  }

  /** The intersection over the results received so far. */
  ghost predicate CommonTo(h: Handler, answers: seq<Answer>, received: set<nat>, arch: string)
    requires received <= Senders(answers)
  {
    forall i :: i in received ==> arch in UsableArchs(h, answers[i].value)
  }

  lemma ReceivedAll(h: Handler, answers: seq<Answer>, common: set<string>)
    ensures Listed(answers) <==> Senders(answers) != {}
    ensures Listed(answers) && (forall arch :: arch in common <==> CommonTo(h, answers, Senders(answers), arch)) ==>
              common == CommonArchs(h, answers)
  {
    forall a | a in answers && a.Ok? ensures exists i :: i in Senders(answers) && answers[i] == a {
      var i: nat :| i < |answers| && answers[i] == a;
      assert i in Senders(answers);
    }
    forall i | i in Senders(answers) ensures answers[i] in answers && answers[i].Ok? {}
    if Listed(answers) {
      forall arch ensures CommonTo(h, answers, Senders(answers), arch) <==> Common(h, answers, arch) {}
    }
  }

  /** The fan-in. One goroutine per image sends its result once and in any order; a goroutine whose
      lookup failed sends nothing; the channel is closed when all are through. */
  method CollectArchitectures(h: Handler, answers: seq<Answer>) returns (common: set<string>, firstImage: bool)
    ensures firstImage <==> !Listed(answers)
    ensures !firstImage ==> common == CommonArchs(h, answers)
  {
    common, firstImage := {}, true;
    var sending := Senders(answers);
    ghost var received: set<nat> := {};
    while sending != {}
      invariant sending + received == Senders(answers)
      invariant firstImage <==> received == {}
      invariant !firstImage ==> forall arch :: arch in common <==> CommonTo(h, answers, received, arch)
      decreases |sending|
    {
      var i :| i in sending;
      sending := sending - {i};
      var imageArchitectures := ImageArchitectures(h, answers[i].value);
      if firstImage {
        common, firstImage := imageArchitectures, false;
      } else {
        common := DeleteMissing(common, imageArchitectures);
      }
      received := received + {i};
    }
    assert received == Senders(answers);
    ReceivedAll(h, answers, common);
  }

  method UpdatePodSpec(h: Handler, podLabels: Labels, podSpec: PodSpec, answers: seq<Answer>)
    returns (outcome: Outcome)
    modifies podSpec
    ensures (podSpec.Value(), outcome) == Updated(h, podLabels, old(podSpec.Value()), answers)
  {
    if podSpec.nodeName != "" {
      return Done;
    }
    var _, found := PodSpecHasNodeArchitectureSelection(podSpec.Value());
    if found {
      AddPodNodeMatchingLabels(h, podLabels, podSpec);
      return Done;
    }

    var preferredArchIsDefault := false;
    var preferredArchDefined := PREFERRED_LABEL in podLabels;
    var preferredArch := if preferredArchDefined then podLabels[PREFERRED_LABEL] else "";
    if preferredArch != "" && !IsArchSupported(h, preferredArch) {
      preferredArch := "";
    }
    if preferredArch == "" && h.preferredArchitecture != "" {
      preferredArch, preferredArchDefined, preferredArchIsDefault := h.preferredArchitecture, true, true;
    }

    var common, firstImage := CollectArchitectures(h, answers);
    if firstImage {
      AddPodNodeMatchingLabels(h, podLabels, podSpec);
      return Done;
    }
    if common == {} {
      AddPodNodeMatchingLabels(h, podLabels, podSpec);
      return Denied;
    }

    if preferredArch in common && preferredArchDefined {
      if podSpec.nodeSelector.None? {
        podSpec.nodeSelector := Some(map[]);
      }
      podSpec.nodeSelector := Some(podSpec.nodeSelector.value[ARCH_KEY := preferredArch]);
    } else {
      var values := Keys(common);
      podSpec.AppendTerm(InTerm(ARCH_KEY, values));
      if preferredArchDefined && !preferredArchIsDefault {
        AddPodNodeMatchingLabels(h, podLabels, podSpec);
        return Warning(preferredArch);
      }
    }
    AddPodNodeMatchingLabels(h, podLabels, podSpec);
    return Done;
  }
}
