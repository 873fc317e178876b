/** The part of a pod specification that places a pod, and what it means: the set of nodes it
    admits (Kubernetes, "Assigning Pods to Nodes"). */
module PodSpecs {
  import opened Collections

  const ARCH_KEY := "kubernetes.io/arch"
  const BETA_ARCH_KEY := "beta.kubernetes.io/arch"
  const NAME_FIELD := "metadata.name"

  datatype Operator = In | NotIn | Exists | DoesNotExist | Gt | Lt

  datatype Requirement = Requirement(key: string, op: Operator, values: seq<string>)

  datatype Term = Term(matchExpressions: seq<Requirement>, matchFields: seq<Requirement>)

  /** RequiredDuringSchedulingIgnoredDuringExecution. */
  datatype NodeSelector = NodeSelector(terms: seq<Term>)

  datatype NodeAffinity = NodeAffinity(required: Option<NodeSelector>)

  datatype Affinity = Affinity(nodeAffinity: Option<NodeAffinity>)

  /** None stands for a nil map or pointer. */
  datatype Spec = Spec(nodeName: string, nodeSelector: Option<map<string, string>>, affinity: Option<Affinity>)

  datatype Node = Node(name: string, labels: map<string, string>)

  /** A container image's platform, as the registry lists it. */
  datatype Platform = Platform(architecture: string, os: string, variant: string)

  /** The required node selector terms, unless one of the pointers on the way is nil. */
  function RequiredTerms(spec: Spec): Option<seq<Term>> {
    match spec.affinity
    case Some(Affinity(Some(NodeAffinity(Some(selector))))) => Some(selector.terms)
    case _ => None
  }

  // ---------------------------------------------------------------------------------------------
  // Node acceptance
  // ---------------------------------------------------------------------------------------------

  function Digits(s: string): Option<nat> {
    if s == "" then None
    else
      var last := s[|s| - 1];
      if !('0' <= last <= '9') then None
      else
        var digit := last as int - '0' as int;
        if |s| == 1 then Some(digit)
        else match Digits(s[..|s| - 1]) case None => None case Some(n) => Some(10 * n + digit)
  }

  /** strconv.ParseInt(s, 10, 64). */
  function ParseInt(s: string): Option<int> {
    var negative := s != "" && s[0] == '-';
    var digits := if s != "" && (s[0] == '-' || s[0] == '+') then s[1..] else s;
    match Digits(digits)
    case None => None
    case Some(n) =>
      var value := (if negative then -1 else 1) * n;
      if -0x8000_0000_0000_0000 <= value < 0x8000_0000_0000_0000 then Some(value) else None
  }

  predicate LabelMatches(r: Requirement, labels: map<string, string>) {
    match r.op
    case In => r.key in labels && labels[r.key] in r.values
    case NotIn => r.key !in labels || labels[r.key] !in r.values
    case Exists => r.key in labels
    case DoesNotExist => r.key !in labels
    case _ =>
      && r.key in labels && |r.values| == 1
      && ParseInt(labels[r.key]).Some? && ParseInt(r.values[0]).Some?
      && (if r.op.Gt? then ParseInt(labels[r.key]).value > ParseInt(r.values[0]).value
          else ParseInt(labels[r.key]).value < ParseInt(r.values[0]).value)
  }

  /** The only field a node has is its name, compared with one value. */
  predicate FieldMatches(r: Requirement, node: Node) {
    r.key == NAME_FIELD && |r.values| == 1
    && ((r.op.In? && node.name == r.values[0]) || (r.op.NotIn? && node.name != r.values[0]))
  }

  /** The requirements of a term are ANDed; a term without any matches no node. */
  predicate TermMatches(t: Term, node: Node) {
    && (t.matchExpressions != [] || t.matchFields != [])
    && (forall r :: r in t.matchExpressions ==> LabelMatches(r, node.labels))
    && (forall r :: r in t.matchFields ==> FieldMatches(r, node))
  }

  /** The entries of the node selector are ANDed. */
  predicate SelectorMatches(selector: map<string, string>, labels: map<string, string>) {
    forall k :: k in selector ==> k in labels && labels[k] == selector[k]
  }

  /** The terms are ORed. */
  predicate SomeTermMatches(terms: seq<Term>, node: Node) {
    exists t :: t in terms && TermMatches(t, node)
  }

  predicate Accepts(spec: Spec, node: Node) {
    && (spec.nodeSelector.Some? ==> SelectorMatches(spec.nodeSelector.value, node.labels))
    && (RequiredTerms(spec).Some? ==> SomeTermMatches(RequiredTerms(spec).value, node))
  }

  // ---------------------------------------------------------------------------------------------
  // PodSpecHasNodeArchitectureSelection
  // ---------------------------------------------------------------------------------------------

  predicate IsArchKey(key: string) {
    key == ARCH_KEY || key == BETA_ARCH_KEY
  }

  predicate SelectsArch(t: Term) {
    || (exists r :: r in t.matchExpressions && IsArchKey(r.key))
    || (exists r :: r in t.matchFields && r.key == NAME_FIELD)
  }

  /** The user already chose: an architecture label in the node selector or in a required term, or
      a node name in a required term. */
  predicate HasArchSelection(spec: Spec) {
    || (spec.nodeSelector.Some? && (BETA_ARCH_KEY in spec.nodeSelector.value || ARCH_KEY in spec.nodeSelector.value))
    || (RequiredTerms(spec).Some? && exists t :: t in RequiredTerms(spec).value && SelectsArch(t))
  }

  const ARCH_KEYS := {ARCH_KEY, BETA_ARCH_KEY}

  /** Terms that select no architecture look neither at the architecture labels nor at the name. */
  lemma TermsIgnoreArch(terms: seq<Term>, node: Node, node': Node)
    requires forall t :: t in terms ==> !SelectsArch(t)
    requires node.labels - ARCH_KEYS == node'.labels - ARCH_KEYS
    ensures SomeTermMatches(terms, node) <==> SomeTermMatches(terms, node')
  {
    forall k: string | !IsArchKey(k)
      ensures (k in node.labels <==> k in node'.labels) && (k in node.labels ==> node.labels[k] == node'.labels[k])
    {
      assert k in node.labels <==> k in node.labels - ARCH_KEYS;
      assert k in node'.labels <==> k in node'.labels - ARCH_KEYS;
      assert k in node.labels ==> node.labels[k] == (node.labels - ARCH_KEYS)[k];
      assert k in node'.labels ==> node'.labels[k] == (node'.labels - ARCH_KEYS)[k];
    }
    forall t | t in terms ensures TermMatches(t, node) <==> TermMatches(t, node') {
      forall r | r in t.matchExpressions ensures LabelMatches(r, node.labels) <==> LabelMatches(r, node'.labels) {}
      forall r | r in t.matchFields ensures FieldMatches(r, node) <==> FieldMatches(r, node') {}
    }
  }

  /** What the search is for: a specification without a selection accepts a node or not whatever its
      architecture labels, and whatever its name. */
  lemma UnselectedIgnoresArch(spec: Spec, node: Node, node': Node)
    requires !HasArchSelection(spec) && node.labels - ARCH_KEYS == node'.labels - ARCH_KEYS
    ensures Accepts(spec, node) <==> Accepts(spec, node')
  {
    if RequiredTerms(spec).Some? {
      TermsIgnoreArch(RequiredTerms(spec).value, node, node');
    }
    if spec.nodeSelector.Some? {
      forall k | k in spec.nodeSelector.value
        ensures (k in node.labels <==> k in node'.labels) && (k in node.labels ==> node.labels[k] == node'.labels[k])
      {
        assert k in node.labels <==> k in node.labels - ARCH_KEYS;
        assert k in node'.labels <==> k in node'.labels - ARCH_KEYS;
        assert k in node.labels ==> node.labels[k] == (node.labels - ARCH_KEYS)[k];
        assert k in node'.labels ==> node'.labels[k] == (node'.labels - ARCH_KEYS)[k];
      }
    }
  }

  /** And it finds nothing else: an architecture label in the node selector, or in an expression of a
      required term whatever its operator, or a node name in a field of one. */
  lemma SelectionIsFoundExactly(spec: Spec)
    ensures HasArchSelection(spec)
       <==> || (exists k :: k in {"kubernetes.io/arch", "beta.kubernetes.io/arch"}
                            && spec.nodeSelector.Some? && k in spec.nodeSelector.value)
            || (exists t, r :: && RequiredTerms(spec).Some? && t in RequiredTerms(spec).value
                               && r in t.matchExpressions && r.key in {"kubernetes.io/arch", "beta.kubernetes.io/arch"})
            || (exists t, r :: && RequiredTerms(spec).Some? && t in RequiredTerms(spec).value
                               && r in t.matchFields && r.key == "metadata.name")
  {
    if RequiredTerms(spec).Some? {
      forall t | t in RequiredTerms(spec).value && SelectsArch(t)
        ensures (exists r :: r in t.matchExpressions && r.key in {"kubernetes.io/arch", "beta.kubernetes.io/arch"})
                || (exists r :: r in t.matchFields && r.key == "metadata.name")
      {}
    }
  }

  method PodSpecHasNodeArchitectureSelection(spec: Spec) returns (reason: string, found: bool)
    ensures found == HasArchSelection(spec)
    ensures found <==> reason != ""
    ensures found && spec.nodeSelector.Some?
            && (BETA_ARCH_KEY in spec.nodeSelector.value || ARCH_KEY in spec.nodeSelector.value)
         ==> reason == "node-selector found"
    ensures reason in {"", "node-selector found", "node affinity label selector found",
                       "node affinity field selector found"}
    ensures reason == "node-selector found" ==>
              && spec.nodeSelector.Some?
              && (BETA_ARCH_KEY in spec.nodeSelector.value || ARCH_KEY in spec.nodeSelector.value)
    ensures reason == "node affinity label selector found" ==>
              exists t, r :: t in RequiredTerms(spec).value && r in t.matchExpressions && IsArchKey(r.key)
    ensures reason == "node affinity field selector found" ==>
              exists t, r :: t in RequiredTerms(spec).value && r in t.matchFields && r.key == NAME_FIELD
  {
    var keys := [BETA_ARCH_KEY, ARCH_KEY];
    for i := 0 to |keys|
      invariant spec.nodeSelector.Some? ==> forall k :: k in keys[..i] ==> k !in spec.nodeSelector.value
    {
      if spec.nodeSelector.Some? && keys[i] in spec.nodeSelector.value {
        assert keys[i] in keys;
        return "node-selector found", true;
      }
    }
    assert keys[..2] == keys && keys[0] in keys && keys[1] in keys;
    var terms := RequiredTerms(spec);
    if terms.Some? {
      for i := 0 to |terms.value|
        invariant forall t :: t in terms.value[..i] ==> !SelectsArch(t)
      {
        var term := terms.value[i];
        for j := 0 to |term.matchExpressions|
          invariant forall r :: r in term.matchExpressions[..j] ==> !IsArchKey(r.key)
        {
          if IsArchKey(term.matchExpressions[j].key) {
            assert SelectsArch(term);
            return "node affinity label selector found", true;
          }
        }
        for j := 0 to |term.matchFields|
          invariant forall r :: r in term.matchFields[..j] ==> r.key != NAME_FIELD
        {
          if term.matchFields[j].key == NAME_FIELD {
            assert SelectsArch(term);
            return "node affinity field selector found", true;
          }
        }
        assert term.matchExpressions[..|term.matchExpressions|] == term.matchExpressions;
        assert term.matchFields[..|term.matchFields|] == term.matchFields;
      }
      assert terms.value[..|terms.value|] == terms.value;
    }
    return "", false;
  }

  /** GetContainerImages: the non-empty images, list by list. */
  function ContainerImages(lists: seq<seq<string>>): seq<string> {
    if lists == [] then [] else ContainerImages(lists[..|lists| - 1]) + NonEmpty(lists[|lists| - 1])
  }

  function NonEmpty(images: seq<string>): seq<string> {
    if images == [] then []
    else
      var front, last := NonEmpty(images[..|images| - 1]), images[|images| - 1];
      if last != "" then front + [last] else front
  }

  lemma {:induction false} NonEmptyCounts(images: seq<string>, image: string)
    ensures multiset(NonEmpty(images))[image] == if image != "" then multiset(images)[image] else 0
  {
    if images == [] {
    } else {
      var front, last := images[..|images| - 1], images[|images| - 1];
      NonEmptyCounts(front, image);
      assert images == front + [last];
    }
  }

  lemma {:induction false} NonEmptyConcat(a: seq<string>, b: seq<string>)
    ensures NonEmpty(a + b) == NonEmpty(a) + NonEmpty(b)
  {
    if b == [] {
      assert a + b == a;
    } else {
      NonEmptyConcat(a, b[..|b| - 1]);
      assert (a + b)[..|a + b| - 1] == a + b[..|b| - 1];
    }
  }

  lemma OneList(images: seq<string>)
    ensures ContainerImages([images]) == NonEmpty(images)
  {
    assert [images][..0] == [];
  }

  /** The images are collected piece by piece, an empty one gives nothing: so the order is kept, over
      all lists and within each. */
  lemma {:induction false} ImagesArePiecewise(xs: seq<seq<string>>, ys: seq<seq<string>>,
                                              a: seq<string>, b: seq<string>, image: string)
    ensures ContainerImages(xs + ys) == ContainerImages(xs) + ContainerImages(ys)
    ensures ContainerImages([a + b]) == ContainerImages([a]) + ContainerImages([b])
    ensures ContainerImages([[image]]) == if image == "" then [] else [image]
  {
    OneList(a + b);
    OneList(a);
    OneList(b);
    OneList([image]);
    NonEmptyConcat(a, b);
    assert [image][..0] == [];
    if ys == [] {
      assert xs + ys == xs;
    } else {
      ImagesArePiecewise(xs, ys[..|ys| - 1], a, b, image);
      assert (xs + ys)[..|xs + ys| - 1] == xs + ys[..|ys| - 1];
    }
  }

  /** The hook lists the containers first, the controller the init containers; both look up the same
      images, equally often: every non-empty image of either kind. */
  lemma HookAndControllerListAlike(containers: seq<string>, initContainers: seq<string>)
    ensures multiset(ContainerImages([containers, initContainers]))
         == multiset(ContainerImages([initContainers, containers]))
    ensures forall image :: multiset(ContainerImages([containers, initContainers]))[image]
                         == if image != "" then multiset(containers + initContainers)[image] else 0
  {
    TwoLists(containers, initContainers);
    TwoLists(initContainers, containers);
    forall image
      ensures multiset(ContainerImages([containers, initContainers]))[image]
           == if image != "" then multiset(containers + initContainers)[image] else 0
    {
      NonEmptyCounts(containers, image);
      NonEmptyCounts(initContainers, image);
    }
  }

  lemma TwoLists(a: seq<string>, b: seq<string>)
    ensures ContainerImages([a, b]) == NonEmpty(a) + NonEmpty(b)
  {
    assert [a, b][..1] == [a] && [a][..0] == [];
    assert ContainerImages([a]) == ContainerImages([]) + NonEmpty(a);
  }

  method GetContainerImages(lists: seq<seq<string>>) returns (images: seq<string>)
    ensures images == ContainerImages(lists)
  {
    images := [];
    for i := 0 to |lists|
      invariant images == ContainerImages(lists[..i])
    {
      assert lists[..i + 1][..i] == lists[..i];
      for j := 0 to |lists[i]|
        invariant images == ContainerImages(lists[..i]) + NonEmpty(lists[i][..j])
      {
        assert lists[i][..j + 1][..j] == lists[i][..j];
        if lists[i][j] != "" {
          images := images + [lists[i][j]];
        }
      }
      assert lists[i][..|lists[i]|] == lists[i];
    }
    assert lists[..|lists|] == lists;
  }
}
