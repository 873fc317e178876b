/** Webhook and controller together: what the hook injects, the controller respects. */
module Agreement {
  import opened Collections
  import opened PodSpecs
  import Hook
  import HookTheorems
  import HookPromises
  import Reconciler
  import ReconcilerTheorems

  /** A pod whose specification the hook found or gave an architecture selection is never deleted by
      the controller, whatever node it runs on, whatever the registry says later, in any state. */
  lemma SelectedPodsAreNotEvicted(h: Hook.Handler, podLabels: Hook.Labels, spec: Spec, answers: seq<Hook.Answer>,
                                  l: Reconciler.Ledger, p: Reconciler.Pass)
    requires HasArchSelection(spec) || Hook.Injects(h, spec, answers)
    requires p.seen.Found?
    requires p.seen.pod.spec == Hook.Updated(h, podLabels, spec, answers).0.(nodeName := p.seen.pod.spec.nodeName)
    ensures Reconciler.ActionOn(l, p) != Reconciler.Evicted
  {
    HookPromises.SelectionPersists(h, podLabels, spec, answers);
    ReconcilerTheorems.EvictedExactlyWhen(l, p);
  }

  /** Every platform that the hook would run on this architecture leaves out its operating system. */
  predicate NamesNoOS(h: Hook.Handler, platforms: seq<Platform>, arch: string) {
    forall p :: p in platforms && p.architecture == arch && Hook.Usable(h, p) ==> p.os == ""
  }

  /** For an image that the hook runs on the architecture, the controller misses its platform exactly
      when none of the usable ones names the operating system. */
  lemma MissedExactlyWhen(h: Hook.Handler, platforms: seq<Platform>, arch: string)
    requires h.systemOS != "" && Hook.IsArchSupported(h, arch) && HookTheorems.RunsOn(h, platforms, arch)
    ensures !Reconciler.HasPlatform(platforms, h.systemOS, arch) <==> NamesNoOS(h, platforms, arch)
  {}

  /** The node is admitted, runs the system's operating system, and the lookups are for images that
      the hook listed. */
  ghost predicate RunsListed(h: Hook.Handler, podLabels: Hook.Labels, spec: Spec, answers: seq<Hook.Answer>,
                             node: Node, lookups: seq<Reconciler.Lookup>) {
    && Hook.Injects(h, spec, answers)
    && Accepts(Hook.Updated(h, podLabels, spec, answers).0, node)
    && Reconciler.OS_KEY in node.labels && node.labels[Reconciler.OS_KEY] == h.systemOS
    && forall x :: x in lookups ==> x.answer in answers
  }

  predicate FindsMismatch(lookups: seq<Reconciler.Lookup>, node: Node) {
    Reconciler.AnyMismatch(lookups,
      Reconciler.NodeLabel(node.labels, Reconciler.OS_KEY, Reconciler.BETA_OS_KEY),
      Reconciler.NodeLabel(node.labels, ARCH_KEY, BETA_ARCH_KEY))
  }

  /** A mismatch is what costs a pod its life: in a pass that looks at the images of a pod on this node,
      with all of them listed, the pod is deleted exactly when there is one and nothing selects an
      architecture. */
  lemma MismatchIsEvicted(l: Reconciler.Ledger, p: Reconciler.Pass, node: Node)
    requires ReconcilerTheorems.LooksAtImages(l, p) && p.seen.pod.spec.nodeName != "" && p.node == Ok(node.labels)
    requires forall x :: x in p.seen.pod.images ==> x.answer.Ok?
    ensures Reconciler.ActionOn(l, p) == Reconciler.Evicted
       <==> FindsMismatch(p.seen.pod.images, node) && !HasArchSelection(p.seen.pod.spec)
  {
    ReconcilerTheorems.EvictedExactlyWhen(l, p);
  }

  /** Do the components read platforms alike? On a node of the system's operating system that the
      rewritten specification admits, the controller finds no mismatch for the images the hook listed
      exactly when each has a usable platform that names its operating system, or the node leaves
      one of its labels empty. */
  lemma AdmittedNodesMatchExactlyWhen(h: Hook.Handler, podLabels: Hook.Labels, spec: Spec,
                                      answers: seq<Hook.Answer>, node: Node, lookups: seq<Reconciler.Lookup>)
    requires RunsListed(h, podLabels, spec, answers, node, lookups)
    requires HookPromises.ImagesEnforced(h, podLabels, spec, answers)
    ensures ARCH_KEY in node.labels
    ensures !FindsMismatch(lookups, node)
       <==> || h.systemOS == ""
            || node.labels[ARCH_KEY] == ""
            || forall x :: x in lookups && x.answer.Ok? ==> !NamesNoOS(h, x.answer.value, node.labels[ARCH_KEY])
  {
    HookPromises.ImagesRunWhereAdmitted(h, podLabels, spec, answers, node);
    var arch := node.labels[ARCH_KEY];
    if h.systemOS != "" && arch != "" {
      forall x | x in lookups && x.answer.Ok?
        ensures Reconciler.Mismatches(x.answer.value, h.systemOS, arch) <==> NamesNoOS(h, x.answer.value, arch)
      {
        MissedExactlyWhen(h, x.answer.value, arch);
      }
    }
  }

  /** In particular there is no mismatch when all platforms name their operating system. */
  lemma AdmittedNodesMatch(h: Hook.Handler, podLabels: Hook.Labels, spec: Spec, answers: seq<Hook.Answer>,
                           node: Node, lookups: seq<Reconciler.Lookup>)
    requires RunsListed(h, podLabels, spec, answers, node, lookups)
    requires HookPromises.ImagesEnforced(h, podLabels, spec, answers)
    requires forall x, p :: x in lookups && x.answer.Ok? && p in x.answer.value ==> p.os != ""
    ensures !FindsMismatch(lookups, node)
  {
    AdmittedNodesMatchExactlyWhen(h, podLabels, spec, answers, node, lookups);
    HookPromises.ImagesRunWhereAdmitted(h, podLabels, spec, answers, node);
  }

  /** They part on platforms without an operating system, which a plain manifest yields: the hook
      takes them for its own, the controller never finds a node that matches. */
  lemma PlatformsWithoutOSPart(h: Hook.Handler, platforms: seq<Platform>, os: string, arch: string)
    requires Platform(arch, "", "") in platforms && (forall p :: p in platforms ==> p.os == "")
    requires os != "" && arch != ""
    ensures HookTheorems.RunsOn(h, platforms, arch)
    ensures Reconciler.Mismatches(platforms, os, arch)
  {
    var p := Platform(arch, "", "");
    assert p in platforms && p.architecture == arch && p.os == "";
  }

  /** A concrete pod: one image with a plain amd64 manifest. The controller finds a mismatch on a
      linux amd64 node that the hook, with its images enforced, sends the pod to. */
  lemma PlainManifestMismatches() returns (h: Hook.Handler, podLabels: Hook.Labels, spec: Spec,
                                           answers: seq<Hook.Answer>, node: Node, lookups: seq<Reconciler.Lookup>)
    ensures RunsListed(h, podLabels, spec, answers, node, lookups)
    ensures HookPromises.ImagesEnforced(h, podLabels, spec, answers)
    ensures FindsMismatch(lookups, node)
  {
    var amd64, linux := "amd64", "linux";
    h, podLabels, spec := Hook.Handler([], "", [], linux), map[], Spec("", None, None);
    answers := [Ok([Platform(amd64, "", "")])];
    node := Node("", map[ARCH_KEY := amd64, Reconciler.OS_KEY := linux]);
    lookups := [Reconciler.Lookup("app", answers[0])];
    assert lookups[0] in lookups;
    HookPromises.SingleImage(h, Platform(amd64, "", ""));
    assert |ARCH_KEY| != |Reconciler.OS_KEY|;
    HookTheorems.AffinityAccepts(h, podLabels, spec, answers, node);
    PlatformsWithoutOSPart(h, answers[0].value, linux, amd64);
  }
}
