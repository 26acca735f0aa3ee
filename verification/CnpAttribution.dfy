/** Which policies a denied flow is attributed to (internal/k8s/policy_attribution.go):
    selectors are collected spec by spec and matched against the pod. For policies of
    the form's making the attribution is proved to be what the form says. */
module CnpAttribution {
  import opened Wrappers
  import opened Sequences
  import opened Json
  import opened CnpForm
  import opened CnpPrinter
  import opened CnpParser
  import opened CnpRoundTrip
  import opened CnpCluster

  /** A cluster-wide policy has no namespace. */
  datatype PolicySelector = PolicySelector(name: string, namespace: string, matchLabels: Labels,
                                           hasIngress: bool, hasEgress: bool, unevaluatable: bool)

  const K8S_PREFIX := "k8s:"

  function Stripped(key: string): string { if K8S_PREFIX <= key then key[|K8S_PREFIX|..] else key }

  function LabelOf(pod: Labels, key: string): string { if key in pod then pod[key] else "" }

  /** One entry of the selector agrees with the pod. */
  predicate EntryMatches(key: string, want: string, podNs: string, pod: Labels) {
    if Stripped(key) == NAMESPACE_KEY then want == podNs else LabelOf(pod, Stripped(key)) == want
  }

  predicate Matches(p: PolicySelector, podNs: string, pod: Labels) {
    && !p.unevaluatable
    && (p.namespace == "" || p.namespace == podNs)
    && forall k :: k in p.matchLabels ==> EntryMatches(k, p.matchLabels[k], podNs, pod)
  }

  method MatchesPod(p: PolicySelector, podNs: string, pod: Labels) returns (ok: bool)
    ensures ok <==> Matches(p, podNs, pod)
  {
    if p.unevaluatable || (p.namespace != "" && p.namespace != podNs) { return false; }
    var left := p.matchLabels.Keys;
    while left != {}
      invariant left <= p.matchLabels.Keys
      invariant forall k :: k in p.matchLabels && k !in left ==> EntryMatches(k, p.matchLabels[k], podNs, pod)
      decreases |left|
    {
      var k :| k in left;
      left := left - {k};
      var key, want := Stripped(k), p.matchLabels[k];
      if key == NAMESPACE_KEY {
        if want != podNs { return false; }
        continue;
      }
      if LabelOf(pod, key) != want { return false; }
    }
    return true;
  }

  // ---------------------------------------------------------------- collecting

  function TextIn(j: Option<J>): string { match j case Some(Str(s)) => s case _ => "" }

  function SelectorLabelsIn(spec: J): Labels {
    match Get2(spec, "endpointSelector", "matchLabels")
    case Some(j) => if LabelsIn(j).Some? then LabelsIn(j).value else map[]
    case None => map[]
  }

  predicate HasExpressions(spec: J) {
    match Get2(spec, "endpointSelector", "matchExpressions") case Some(Arr(items)) => items != [] case _ => false
  }

  function SelectorOf(spec: J, name: string, namespace: string): PolicySelector {
    PolicySelector(name, namespace, SelectorLabelsIn(spec), IngressRules(spec) > 0, EgressRules(spec) > 0, HasExpressions(spec))
  }

  function NameOf(obj: J): string { TextIn(Get2(obj, "metadata", "name")) }

  function NamespaceOf(obj: J, clusterWide: bool): string {
    if clusterWide then "" else TextIn(Get2(obj, "metadata", "namespace"))
  }

  /** Every spec is a candidate of its own. */
  function Candidates(obj: J, clusterWide: bool): seq<PolicySelector> {
    Each(CollectSpecs(obj), spec => SelectorOf(spec, NameOf(obj), NamespaceOf(obj, clusterWide)))
  }

  function AllCandidates(items: seq<J>, clusterWide: bool): seq<PolicySelector> {
    if items == [] then []
    else AllCandidates(items[..|items| - 1], clusterWide) + Candidates(items[|items| - 1], clusterWide)
  }

  method CollectItem(obj: J, clusterWide: bool) returns (policies: seq<PolicySelector>)
    ensures policies == Candidates(obj, clusterWide)
  {
    var specs, name, namespace := CollectSpecs(obj), NameOf(obj), NamespaceOf(obj, clusterWide);
    policies := [];
    for i := 0 to |specs|
      invariant |policies| == i && forall k :: 0 <= k < i ==> policies[k] == SelectorOf(specs[k], name, namespace)
    {
      var sel := PolicySelector(name, namespace, SelectorLabelsIn(specs[i]), false, false, HasExpressions(specs[i]));
      if |ListAt(specs[i], "ingress")| > 0 || |ListAt(specs[i], "ingressDeny")| > 0 { sel := sel.(hasIngress := true); }
      if |ListAt(specs[i], "egress")| > 0 || |ListAt(specs[i], "egressDeny")| > 0 { sel := sel.(hasEgress := true); }
      policies := policies + [sel];
    }
  }

  method Collect(items: seq<J>, clusterWide: bool) returns (policies: seq<PolicySelector>)
    ensures policies == AllCandidates(items, clusterWide)
  {
    policies := [];
    for i := 0 to |items|
      invariant policies == AllCandidates(items[..i], clusterWide)
    {
      assert items[..i + 1][..i] == items[..i];
      var more := CollectItem(items[i], clusterWide);
      policies := policies + more;
    }
    assert items[..|items|] == items;
  }

  // --------------------------------------------------------------- attributing

  /** Whether the policy carries rules the denial can come from. */
  predicate Carries(p: PolicySelector, direction: string) {
    if direction == "egress" then p.hasEgress
    else if direction == "ingress" then p.hasIngress
    else p.hasIngress || p.hasEgress
  }

  predicate Answers(p: PolicySelector, podNs: string, pod: Labels, direction: string) {
    Carries(p, direction) && Matches(p, podNs, pod)
  }

  /** Some policy of this name governs the pod in the direction. */
  predicate Responsible(policies: seq<PolicySelector>, podNs: string, pod: Labels, direction: string, n: string) {
    exists p :: p in policies && p.name == n && Answers(p, podNs, pod, direction)
  }

  datatype Pod = Pod(namespace: string, name: string)

  /** The names of all policies that govern the pod in the direction, each once; none
      for a pod that is not known. */
  ghost predicate AreResponsible(names: seq<string>, policies: seq<PolicySelector>, podLabels: map<Pod, Labels>, pod: Pod,
                                 direction: string) {
    && Distinct(names)
    && (pod.name == "" || pod !in podLabels ==> names == [])
    && (pod.name != "" && pod in podLabels ==>
          forall n :: n in names <==> Responsible(policies, pod.namespace, podLabels[pod], direction, n))
  }

  method AttributePolicyDenial(policies: seq<PolicySelector>, podLabels: map<Pod, Labels>, pod: Pod, direction: string)
    returns (names: seq<string>)
    ensures AreResponsible(names, policies, podLabels, pod, direction)
  {
    names := [];
    if pod.name == "" || pod !in podLabels { return; }
    var labels := podLabels[pod];
    for i := 0 to |policies|
      invariant Distinct(names)
      invariant forall n :: n in names <==> Responsible(policies[..i], pod.namespace, labels, direction, n)
    {
      assert policies[..i + 1] == policies[..i] + [policies[i]];
      var p := policies[i];
      if direction == "egress" {
        if !p.hasEgress { continue; }
      } else if direction == "ingress" {
        if !p.hasIngress { continue; }
      } else if !p.hasIngress && !p.hasEgress {
        continue;
      }
      var governs := MatchesPod(p, pod.namespace, labels);
      if governs && p.name !in names { names := names + [p.name]; }
    }
    assert policies[..|policies|] == policies;
  }

  // ------------------------------------------------- any policies, by their documents

  /** The label a selector's key asks for, whether or not `k8s:` stands in front. */
  ghost predicate AsksFor(key: string, name: string) { if "k8s:" <= key then key == "k8s:" + name else key == name }

  /** The pod has what the key asks for: its namespace, or the label; a label it lacks
      counts as empty. */
  ghost predicate Met(key: string, want: string, podNs: string, pod: Labels) {
    exists name :: AsksFor(key, name) &&
      if name == "io.kubernetes.pod.namespace" then podNs == want else (if name in pod then pod[name] else "") == want
  }

  lemma MetExactly(key: string, want: string, podNs: string, pod: Labels)
    ensures EntryMatches(key, want, podNs, pod) <==> Met(key, want, podNs, pod)
  {
    assert AsksFor(key, Stripped(key)) by { if "k8s:" <= key { assert key == "k8s:" + key[4..]; } }
    forall name | AsksFor(key, name) ensures name == Stripped(key) { if "k8s:" <= key { assert key[4..] == name; } }
  }

  /** The spec selects the pod: no match expression, which is never looked into, and every
      label met; labels that are no map of strings ask for nothing. */
  ghost predicate SpecSelects(spec: J, podNs: string, pod: Labels) {
    && (forall items :: Get2(spec, "endpointSelector", "matchExpressions") == Some(Arr(items)) ==> items == [])
    && (match Get2(spec, "endpointSelector", "matchLabels") case Some(Obj(fields)) => LabelsMet(fields, podNs, pod) case _ => true)
  }

  ghost predicate LabelsMet(fields: map<string, J>, podNs: string, pod: Labels) {
    (forall k :: k in fields ==> fields[k].Str?) ==> forall k :: k in fields ==> Met(k, fields[k].s, podNs, pod)
  }

  /** The spec has rules, allowing or denying, in the direction, or in any when the
      direction is not known. */
  ghost predicate SpecRules(spec: J, direction: string) {
    var ingress := ListAt(spec, "ingress") != [] || ListAt(spec, "ingressDeny") != [];
    var egress := ListAt(spec, "egress") != [] || ListAt(spec, "egressDeny") != [];
    (direction != "egress" && ingress) || (direction != "ingress" && egress)
  }

  ghost predicate SpecBlames(spec: J, podNs: string, pod: Labels, direction: string) {
    SpecRules(spec, direction) && SpecSelects(spec, podNs, pod)
  }

  /** The policy names itself n, and one spec of it, in the policy's scope, has rules in
      the direction and selects the pod. */
  ghost predicate Blamed(obj: J, clusterWide: bool, podNs: string, pod: Labels, direction: string, n: string) {
    && TextIn(Get2(obj, "metadata", "name")) == n
    && (clusterWide || TextIn(Get2(obj, "metadata", "namespace")) in {"", podNs})
    && exists spec: J :: spec.Obj? && (Field(obj, "spec") == Some(spec) || spec in ListAt(obj, "specs"))
                         && SpecBlames(spec, podNs, pod, direction)
  }

  lemma LabelsMetExactly(fields: map<string, J>, podNs: string, pod: Labels)
    ensures var read := LabelsIn(Obj(fields));
            var labels := if read.Some? then read.value else map[];
            (forall k :: k in labels ==> EntryMatches(k, labels[k], podNs, pod)) <==> LabelsMet(fields, podNs, pod)
  {
    forall k, want ensures EntryMatches(k, want, podNs, pod) <==> Met(k, want, podNs, pod) { MetExactly(k, want, podNs, pod); }
    var read := LabelsIn(Obj(fields));
    if read.Some? { assert read.value.Keys == fields.Keys; }
  }

  ghost predicate EntriesMatch(labels: Labels, podNs: string, pod: Labels) {
    forall k :: k in labels ==> EntryMatches(k, labels[k], podNs, pod)
  }

  lemma LabelsSelect(j: Option<J>, podNs: string, pod: Labels)
    ensures var labels := match j case None => map[] case Some(v) => if LabelsIn(v).Some? then LabelsIn(v).value else map[];
            EntriesMatch(labels, podNs, pod) <==> match j case Some(Obj(fields)) => LabelsMet(fields, podNs, pod) case _ => true
  {
    if j.Some? && j.value.Obj? { LabelsMetExactly(j.value.fields, podNs, pod); }
  }

  lemma SelectsExactly(spec: J, podNs: string, pod: Labels)
    ensures !HasExpressions(spec) && EntriesMatch(SelectorLabelsIn(spec), podNs, pod) <==> SpecSelects(spec, podNs, pod)
  {
    LabelsSelect(Get2(spec, "endpointSelector", "matchLabels"), podNs, pod);
  }

  lemma SelectorAnswers(spec: J, name: string, namespace: string, podNs: string, pod: Labels, direction: string)
    ensures Answers(SelectorOf(spec, name, namespace), podNs, pod, direction)
       <==> SpecRules(spec, direction) && namespace in {"", podNs} && SpecSelects(spec, podNs, pod)
  {
    SelectsExactly(spec, podNs, pod);
    assert "egress"[0] == 'e' && "ingress"[0] == 'i';
  }

  lemma IsSpec(obj: J, spec: J)
    ensures spec in CollectSpecs(obj) <==> spec.Obj? && (Field(obj, "spec") == Some(spec) || spec in ListAt(obj, "specs"))
  {
    CollectSpecsExactly(obj, spec);
    assert spec in CollectSpecs(obj) <==> multiset(CollectSpecs(obj))[spec] > 0;
    assert spec in ListAt(obj, "specs") <==> multiset(ListAt(obj, "specs"))[spec] > 0;
  }

  lemma CandidatesAnswer(specs: seq<J>, name: string, namespace: string, podNs: string, pod: Labels, direction: string, n: string)
    ensures Responsible(Each(specs, spec => SelectorOf(spec, name, namespace)), podNs, pod, direction, n)
       <==> name == n && namespace in {"", podNs} && exists spec :: spec in specs && SpecBlames(spec, podNs, pod, direction)
  {
    var out := Each(specs, spec => SelectorOf(spec, name, namespace));
    var blames := (spec: J) => name == n && namespace in {"", podNs} && SpecBlames(spec, podNs, pod, direction);
    var answers := (p: PolicySelector) => p.name == n && Answers(p, podNs, pod, direction);
    forall i | 0 <= i < |specs| ensures blames(specs[i]) <==> answers(out[i]) {
      SelectorAnswers(specs[i], name, namespace, podNs, pod, direction);
    }
    AnyAlike(specs, out, blames, answers);
    assert forall p :: p in out && answers(p) <==> p in out && p.name == n && Answers(p, podNs, pod, direction);
    assert forall s :: s in specs && blames(s) <==> s in specs && name == n && namespace in {"", podNs} && SpecBlames(s, podNs, pod, direction);
  }

  lemma CandidatesBlamed(obj: J, clusterWide: bool, podNs: string, pod: Labels, direction: string, n: string)
    ensures Responsible(Candidates(obj, clusterWide), podNs, pod, direction, n) <==> Blamed(obj, clusterWide, podNs, pod, direction, n)
  {
    CandidatesAnswer(CollectSpecs(obj), NameOf(obj), NamespaceOf(obj, clusterWide), podNs, pod, direction, n);
    forall s ensures s in CollectSpecs(obj) <==> s.Obj? && (Field(obj, "spec") == Some(s) || s in ListAt(obj, "specs")) { IsSpec(obj, s); }
  }

  /** Whatever documents the cluster holds, those of the form or not: a denial is put down
      to exactly the names of the policies their documents blame. */
  lemma {:induction false} BlamedExactly(items: seq<J>, clusterWide: bool, podNs: string, pod: Labels, direction: string, n: string)
    ensures Responsible(AllCandidates(items, clusterWide), podNs, pod, direction, n)
       <==> exists obj :: obj in items && Blamed(obj, clusterWide, podNs, pod, direction, n)
  {
    if items != [] {
      var init, last := items[..|items| - 1], items[|items| - 1];
      assert items == init + [last];
      BlamedExactly(init, clusterWide, podNs, pod, direction, n);
      CandidatesBlamed(last, clusterWide, podNs, pod, direction, n);
      EitherResponsible(AllCandidates(init, clusterWide), Candidates(last, clusterWide), podNs, pod, direction, n);
    }
  }

  // ----------------------------------------------- the form's policies, attributed

  /** Which pods a form is about: those of its namespace that carry every label of its
      subject, `k8s:` in front or not, and are in the subject's namespace. */
  predicate Governs(form: Form, podNs: string, pod: Labels) {
    && (form.scope.Namespaced? ==> Tidy(form.namespace) == podNs)
    && forall k :: k in SubjectLabels(form) ==> Carried(Stripped(k), SubjectLabels(form)[k], podNs, pod)
  }

  /** The pod has the label; its namespace counts as one. */
  predicate Carried(key: string, value: string, podNs: string, pod: Labels) {
    if key == NAMESPACE_KEY then podNs == value else key in pod && pod[key] == value
  }

  lemma EntryIsCarried(k: string, value: string, podNs: string, pod: Labels)
    requires IsLabel(k, value)
    ensures EntryMatches(k, value, podNs, pod) <==> Carried(Stripped(k), value, podNs, pod)
  {
  }

  predicate HasRules(form: Form, direction: string) {
    if direction == "egress" then form.egress.rules != []
    else if direction == "ingress" then form.ingress.rules != []
    else form.ingress.rules + form.egress.rules != []
  }

  function ScopeNamespace(form: Form): string { if form.scope.ClusterWide? then "" else Tidy(form.namespace) }

  lemma NamesRead(form: Form)
    requires Valid(form)
    ensures NameOf(DocOf(form).value) == Tidy(form.name)
    ensures NamespaceOf(DocOf(form).value, form.scope.ClusterWide?) == ScopeNamespace(form)
  {
    DocFields(form);
    MetadataFields(form);
  }

  lemma SelectorRead(form: Form)
    requires Valid(form)
    ensures SelectorLabelsIn(SpecTree(form)) == SubjectLabels(form) && !HasExpressions(SpecTree(form))
  {
    SpecRest(form);
    LabelsReopen(SubjectLabels(form));
    assert |"matchLabels"| == 11 && |"matchExpressions"| == 16;
  }

  /** A generated policy is one candidate, with the form's labels and directions. */
  lemma FormCandidate(form: Form)
    requires Valid(form)
    ensures Candidates(DocOf(form).value, form.scope.ClusterWide?)
         == [CandidateOf(form)]
  {
    OneSpec(form);
    NamesRead(form);
    SelectorRead(form);
    CountsOf(form);
    if form.egress.rules == [] { assert !NamesDomains(form.egress); }
  }

  function CandidateOf(form: Form): PolicySelector {
    PolicySelector(Tidy(form.name), ScopeNamespace(form), SubjectLabels(form), form.ingress.rules != [],
                   form.egress.rules != [], false)
  }

  /** The pods such a candidate matches are the pods the form governs. */
  lemma CandidateGoverns(form: Form, podNs: string, pod: Labels)
    requires Valid(form)
    ensures Matches(CandidateOf(form), podNs, pod) <==> Governs(form, podNs, pod)
  {
    SelectorPrintable(form.subject, form.subjectNamespace);
    LabelsCarried(SubjectLabels(form), podNs, pod);
    assert form.scope.Namespaced? ==> ScopeNamespace(form) != "";
  }

  lemma LabelsCarried(m: Labels, podNs: string, pod: Labels)
    requires Printable(m)
    ensures forall k :: k in m ==> (EntryMatches(k, m[k], podNs, pod) <==> Carried(Stripped(k), m[k], podNs, pod))
  {
    forall k | k in m ensures EntryMatches(k, m[k], podNs, pod) <==> Carried(Stripped(k), m[k], podNs, pod) {
      EntryIsCarried(k, m[k], podNs, pod);
    }
  }

  /** The generated policies of one kind. */
  function Docs(forms: seq<Form>): seq<J>
    requires forall f :: f in forms ==> Valid(f)
  {
    if forms == [] then [] else Docs(forms[..|forms| - 1]) + [DocOf(forms[|forms| - 1]).value]
  }

  ghost predicate AllValid(forms: seq<Form>, scope: Scope) { forall f :: f in forms ==> Valid(f) && f.scope == scope }

  /** The form is named so, has rules in the direction, and governs the pod. */
  predicate Explains(f: Form, podNs: string, pod: Labels, direction: string, n: string) {
    Tidy(f.name) == n && HasRules(f, direction) && Governs(f, podNs, pod)
  }

  lemma {:induction false} AttributedInScope(forms: seq<Form>, scope: Scope, podNs: string, pod: Labels, direction: string, n: string)
    requires AllValid(forms, scope)
    ensures Responsible(AllCandidates(Docs(forms), scope.ClusterWide?), podNs, pod, direction, n)
       <==> exists f :: f in forms && Explains(f, podNs, pod, direction, n)
  {
    if forms != [] {
      var init, last := forms[..|forms| - 1], forms[|forms| - 1];
      assert forms == init + [last] && last in forms;
      AttributedInScope(init, scope, podNs, pod, direction, n);
      assert Docs(forms)[..|Docs(forms)| - 1] == Docs(init);
      OneMoreForm(AllCandidates(Docs(init), scope.ClusterWide?), last, podNs, pod, direction, n);
    }
  }

  lemma OneMoreForm(before: seq<PolicySelector>, f: Form, podNs: string, pod: Labels, direction: string, n: string)
    requires Valid(f)
    ensures Responsible(before + Candidates(DocOf(f).value, f.scope.ClusterWide?), podNs, pod, direction, n)
       <==> Responsible(before, podNs, pod, direction, n) || Explains(f, podNs, pod, direction, n)
  {
    FormCandidate(f);
    CandidateGoverns(f, podNs, pod);
    OneMoreCandidate(before, CandidateOf(f), podNs, pod, direction, n);
  }

  lemma OneMoreCandidate(before: seq<PolicySelector>, one: PolicySelector, podNs: string, pod: Labels, direction: string, n: string)
    ensures Responsible(before + [one], podNs, pod, direction, n)
       <==> Responsible(before, podNs, pod, direction, n) || (one.name == n && Answers(one, podNs, pod, direction))
  {
    assert one in before + [one];
  }

  /** The candidates of all policies: the namespaced ones, then the cluster-wide ones. */
  function Policies(namespaced: seq<J>, clusterWide: seq<J>): seq<PolicySelector> {
    AllCandidates(namespaced, false) + AllCandidates(clusterWide, true)
  }

  /** Both lists collected, and the denial attributed. */
  method Attribute(namespaced: seq<J>, clusterWide: seq<J>, podLabels: map<Pod, Labels>, pod: Pod, direction: string)
    returns (names: seq<string>)
    ensures AreResponsible(names, Policies(namespaced, clusterWide), podLabels, pod, direction)
  {
    var policies := Collect(namespaced, false);
    var more := Collect(clusterWide, true);
    names := AttributePolicyDenial(policies + more, podLabels, pod, direction);
  }

  lemma EitherResponsible(a: seq<PolicySelector>, b: seq<PolicySelector>, podNs: string, pod: Labels, direction: string, n: string)
    ensures Responsible(a + b, podNs, pod, direction, n)
       <==> Responsible(a, podNs, pod, direction, n) || Responsible(b, podNs, pod, direction, n)
  {
  }

  /** Among generated policies of both kinds, exactly those are candidates of a name that
      the pod's denial can come from whose form has it, governs the pod, and has rules in
      the direction. */
  lemma AttributedExactly(namespaced: seq<Form>, clusterWide: seq<Form>, podNs: string, pod: Labels, direction: string, n: string)
    requires AllValid(namespaced, Namespaced) && AllValid(clusterWide, ClusterWide)
    ensures Responsible(Policies(Docs(namespaced), Docs(clusterWide)), podNs, pod, direction, n)
       <==> exists f :: f in namespaced + clusterWide && Explains(f, podNs, pod, direction, n)
  {
    AttributedInScope(namespaced, Namespaced, podNs, pod, direction, n);
    AttributedInScope(clusterWide, ClusterWide, podNs, pod, direction, n);
    EitherResponsible(AllCandidates(Docs(namespaced), false), AllCandidates(Docs(clusterWide), true), podNs, pod, direction, n);
  }

  /** So the names a denial is attributed to are exactly those of the forms that explain
      it, each once, and none when the pod is not known. */
  lemma AttributedNames(namespaced: seq<Form>, clusterWide: seq<Form>, podLabels: map<Pod, Labels>, pod: Pod, direction: string,
                        names: seq<string>, n: string)
    requires AllValid(namespaced, Namespaced) && AllValid(clusterWide, ClusterWide)
    requires AreResponsible(names, Policies(Docs(namespaced), Docs(clusterWide)), podLabels, pod, direction)
    ensures n in names <==> pod.name != "" && pod in podLabels
                            && exists f :: f in namespaced + clusterWide && Explains(f, pod.namespace, podLabels[pod], direction, n)
  {
    if pod in podLabels { AttributedExactly(namespaced, clusterWide, pod.namespace, podLabels[pod], direction, n); }
  }
}
