/** How the server reads network policies back from the cluster: the list row of a
    policy (internal/k8s/cnp.go) and the policies a denial is attributed to
    (internal/k8s/policy_attribution.go). What it reads off a document the form
    generated is proved to be what the form says. */
module CnpCluster {
  import opened Wrappers
  import opened Sequences
  import opened Json
  import opened CnpForm
  import opened CnpPrinter
  import opened CnpRoundTrip

  // ---------------------------------------------------------------- the list row

  function OwnSpec(obj: J): seq<J> { match Field(obj, "spec") case Some(Obj(f)) => [Obj(f)] case _ => [] }

  function IsObject(): J -> bool { (j: J) => j.Obj? }

  /** The spec, and the specs, that are objects. */
  function CollectSpecs(obj: J): seq<J> { OwnSpec(obj) + Filtered(ListAt(obj, "specs"), IsObject()) }

  lemma OwnSpecExactly(obj: J, s: J)
    ensures multiset(OwnSpec(obj))[s] == if s.Obj? && Field(obj, "spec") == Some(s) then 1 else 0
  {
  }

  /** A policy's specs are its `spec` and the elements of its `specs`, as often as they are
      there and as far as they are objects. */
  lemma CollectSpecsExactly(obj: J, s: J)
    ensures multiset(CollectSpecs(obj))[s]
         == if !s.Obj? then 0 else (if Field(obj, "spec") == Some(s) then 1 else 0) + multiset(ListAt(obj, "specs"))[s]
  {
    OwnSpecExactly(obj, s);
    FilteredCount(ListAt(obj, "specs"), IsObject(), s);
  }

  /** An entry with Layer 7 rules in its toPorts. */
  predicate PortHasRules(tp: J) {
    match Field(tp, "rules") case Some(Obj(l7)) => l7 != map[] case _ => false
  }

  predicate HasL7(rule: J) { exists tp :: tp in ListAt(rule, "toPorts") && PortHasRules(tp) }

  predicate AnyL7(rules: seq<J>) { exists r :: r in rules && HasL7(r) }

  /** Whether a spec denies by default: what enableDefaultDeny says, else whether there
      are rules. */
  predicate DeniesByDefault(spec: J, allow: string, deny: string) {
    match Field(spec, "enableDefaultDeny")
    case Some(switches) => (
      match Field(switches, allow)
      case Some(Bool(on)) => on
      case _ => ListAt(spec, allow) != [] || ListAt(spec, deny) != [])
    case None => ListAt(spec, allow) != [] || ListAt(spec, deny) != []
  }

  function IngressRules(spec: J): int { |ListAt(spec, "ingress")| + |ListAt(spec, "ingressDeny")| }

  function EgressRules(spec: J): int { |ListAt(spec, "egress")| + |ListAt(spec, "egressDeny")| }

  predicate SpecHasL7(spec: J) { AnyL7(ListAt(spec, "ingress")) || AnyL7(ListAt(spec, "egress")) }

  predicate DeniesIngress(spec: J) { DeniesByDefault(spec, "ingress", "ingressDeny") }

  predicate DeniesEgress(spec: J) { DeniesByDefault(spec, "egress", "egressDeny") }

  datatype Record = Record(ingressRules: int, egressRules: int, hasL7: bool, denyIngress: bool, denyEgress: bool)
  {
    function DefaultDeny(): string {
      if denyIngress && denyEgress then "both" else if denyIngress then "ingress" else if denyEgress then "egress" else ""
    }
  }

  method RulesPresent(rules: seq<J>) returns (present: bool)
    ensures present <==> AnyL7(rules)
  {
    for i := 0 to |rules|
      invariant forall k :: 0 <= k < i ==> !HasL7(rules[k])
    {
      var toPorts := ListAt(rules[i], "toPorts");
      for k := 0 to |toPorts|
        invariant forall n :: 0 <= n < k ==> !PortHasRules(toPorts[n])
      {
        var l7 := Field(toPorts[k], "rules");
        if l7.Some? && l7.value.Obj? && l7.value.fields != map[] {
          assert toPorts[k] in toPorts && rules[i] in rules;
          return true;
        }
      }
    }
    return false;
  }

  method DenySetting(spec: J, direction: string, present: bool) returns (denies: bool)
    ensures denies == match Get2(spec, "enableDefaultDeny", direction) case Some(Bool(on)) => on case _ => present
  {
    var setting := Get2(spec, "enableDefaultDeny", direction);
    if setting.Some? && setting.value.Bool? { return setting.value.b; }
    return present;
  }

  /** A field of a field. */
  function Get2(j: J, outer: string, inner: string): Option<J> {
    match Field(j, outer) case Some(v) => Field(v, inner) case None => None
  }

  /** Counts add up over the specs; a direction denies by default when any spec does. */
  ghost predicate IsRow(specs: seq<J>, r: Record) {
    && r.ingressRules == Sum(specs, IngressRules) && r.egressRules == Sum(specs, EgressRules)
    && (r.hasL7 <==> exists spec :: spec in specs && SpecHasL7(spec))
    && (r.denyIngress <==> exists spec :: spec in specs && DeniesIngress(spec))
    && (r.denyEgress <==> exists spec :: spec in specs && DeniesEgress(spec))
  }

  function Joined(r: Record, one: Record): Record {
    Record(r.ingressRules + one.ingressRules, r.egressRules + one.egressRules, r.hasL7 || one.hasL7,
           r.denyIngress || one.denyIngress, r.denyEgress || one.denyEgress)
  }

  function RowOf(spec: J): Record {
    Record(IngressRules(spec), EgressRules(spec), SpecHasL7(spec), DeniesIngress(spec), DeniesEgress(spec))
  }

  /** The rows of the specs, joined. */
  function RowOfAll(specs: seq<J>): Record {
    if specs == [] then Record(0, 0, false, false, false) else Joined(RowOfAll(specs[..|specs| - 1]), RowOf(specs[|specs| - 1]))
  }

  lemma {:induction false} RowOfAllIsRow(specs: seq<J>)
    ensures IsRow(specs, RowOfAll(specs))
  {
    if specs != [] {
      var init, last := specs[..|specs| - 1], specs[|specs| - 1];
      assert specs == init + [last];
      RowOfAllIsRow(init);
      OneMoreSpec(init, last, RowOfAll(init));
    }
  }

  lemma OneMoreSpec(init: seq<J>, last: J, r: Record)
    requires IsRow(init, r)
    ensures IsRow(init + [last], Joined(r, RowOf(last)))
  {
    OneMoreCounted(init, last);
    OneMoreAny(init, last, SpecHasL7);
    OneMoreAny(init, last, DeniesIngress);
    OneMoreAny(init, last, DeniesEgress);
  }

  lemma OneMoreAny(init: seq<J>, last: J, p: J -> bool)
    ensures (exists spec :: spec in init + [last] && p(spec)) <==> (exists spec :: spec in init && p(spec)) || p(last)
  {
    assert last in init + [last];
  }

  lemma OneMoreCounted(init: seq<J>, last: J)
    ensures Sum(init + [last], IngressRules) == Sum(init, IngressRules) + IngressRules(last)
    ensures Sum(init + [last], EgressRules) == Sum(init, EgressRules) + EgressRules(last)
  {
    SumAppend(init, last, IngressRules);
    SumAppend(init, last, EgressRules);
  }

  method ToRecord(obj: J) returns (r: Record)
    ensures IsRow(CollectSpecs(obj), r)
  {
    r := RecordOf(CollectSpecs(obj));
    RowOfAllIsRow(CollectSpecs(obj));
  }

  method RecordOf(specs: seq<J>) returns (r: Record)
    ensures r == RowOfAll(specs)
  {
    r := Record(0, 0, false, false, false);
    for i := 0 to |specs|
      invariant r == RowOfAll(specs[..i])
    {
      assert specs[..i + 1][..i] == specs[..i];
      var one := SpecRecord(specs[i]);
      r := Joined(r, one);
    }
    assert specs[..|specs|] == specs;
  }

  method SpecRecord(spec: J) returns (r: Record)
    ensures r == RowOf(spec)
  {
    var ingress, egress, hasL7 := 0, 0, false;
    var allowIn, allowOut := ListAt(spec, "ingress"), ListAt(spec, "egress");
    if |allowIn| > 0 {
      ingress := |allowIn|;
      hasL7 := RulesPresent(allowIn);
    }
    if |allowOut| > 0 {
      egress := |allowOut|;
      var present := RulesPresent(allowOut);
      hasL7 := hasL7 || present;
    }
    ingress := ingress + |ListAt(spec, "ingressDeny")|;
    egress := egress + |ListAt(spec, "egressDeny")|;
    var denyIngress := DenySetting(spec, "ingress", ingress > 0);
    var denyEgress := DenySetting(spec, "egress", egress > 0);
    r := Record(ingress, egress, hasL7, denyIngress, denyEgress);
  }

  // ------------------------------------------------- what the form's documents say

  lemma OneSpec(form: Form)
    requires Valid(form)
    ensures CollectSpecs(DocOf(form).value) == [SpecTree(form)]
  {
    DocFields(form);
  }

  lemma Sections(form: Form, ingress: bool, mode: Mode)
    ensures ListAt(SpecTree(form), SectionKey(ingress, mode))
         == if SectionOf(form, ingress).mode == mode then SectionTrees(SectionOf(form, ingress), ingress) else []
  {
    SpecSections(form);
    var s := SectionOf(form, ingress);
    assert Field(SpecTree(form), SectionKey(ingress, mode)) == Printed(s, ingress, mode);
    if s.rules == [] { assert SectionTrees(s, ingress) == []; }
  }

  /** Rules with HTTP entries, and rules for domains, which bring the DNS rider. */
  predicate FormHasL7(form: Form) {
    || (exists r :: r in form.ingress.rules && r.http != [])
    || (exists r :: r in form.egress.rules && (r.http != [] || r.kind == FqdnPeer))
  }

  lemma RuleL7(r: Rule, ingress: bool, mode: Mode)
    requires ValidRule(r, ingress, mode)
    ensures HasL7(RuleTree(r, ingress)) <==> r.http != []
  {
    var ports, http := TidyPorts(r.ports), TidyHttps(r.http);
    RuleFields(r, ingress);
    FilteredAll(r.http, SaysSomething);
    PortsL7(ports, http);
    if ports != [] { assert ListAt(RuleTree(r, ingress), "toPorts") == [PortsTree(ports, http)]; }
  }

  lemma PortsL7(ports: seq<PortEntry>, http: seq<HttpRule>)
    ensures PortHasRules(PortsTree(ports, http)) <==> http != []
  {
    assert "ports"[0] == 'p' && "rules"[0] == 'r';
    if http != [] { assert "http" in map["http" := Arr(Each(http, HttpTree))]; }
  }

  lemma RiderL7()
    ensures HasL7(RIDER)
  {
    RiderPorts();
    assert ListAt(RIDER, "toPorts") == [RIDER_PORTS];
    assert RIDER_PORTS in [RIDER_PORTS];
    assert "dns" in map["dns" := Arr([Obj(map["matchPattern" := Str("*")])])];
  }

  lemma TreesL7(s: Section, ingress: bool)
    requires ValidSection(s, ingress)
    ensures AnyL7(RuleTrees(s.rules, ingress)) <==> exists r :: r in s.rules && r.http != []
  {
    var trees := RuleTrees(s.rules, ingress);
    var hasHttp := (r: Rule) => r.http != [];
    forall i | 0 <= i < |trees| ensures HasL7(trees[i]) <==> hasHttp(s.rules[i]) { RuleL7(s.rules[i], ingress, s.mode); }
    AnyAlike(trees, s.rules, HasL7, hasHttp);
    assert forall r :: r in s.rules && hasHttp(r) <==> r in s.rules && r.http != [];
  }

  predicate SectionHasL7(s: Section, ingress: bool) {
    (exists r :: r in s.rules && r.http != []) || (!ingress && s.mode.Whitelist? && NamesDomains(s))
  }

  lemma AnyL7Concat(a: seq<J>, b: seq<J>)
    ensures AnyL7(a + b) <==> AnyL7(a) || AnyL7(b)
  {
  }

  lemma SectionL7(s: Section, ingress: bool)
    requires ValidSection(s, ingress)
    ensures AnyL7(SectionTrees(s, ingress)) <==> SectionHasL7(s, ingress)
  {
    TreesL7(s, ingress);
    var trees := RuleTrees(s.rules, ingress);
    if !ingress && s.mode.Whitelist? && NamesDomains(s) {
      AnyL7Concat(trees, [RIDER]);
      assert RIDER in [RIDER];
      RiderL7();
    } else {
      assert SectionTrees(s, ingress) == trees;
    }
  }

  lemma DenySwitch(form: Form, ingress: bool)
    ensures Get2(SpecTree(form), "enableDefaultDeny", SectionKey(ingress, Whitelist))
         == if Denies(SectionOf(form, ingress)) then Some(Bool(false)) else None
  {
    SpecRest(form);
    var off := DenyOff(form);
    assert |"ingress"| == 7 && |"egress"| == 6;
    assert "ingress" in off <==> Denies(form.ingress);
    assert "egress" in off <==> Denies(form.egress);
  }

  lemma DeniesExactly(form: Form, ingress: bool)
    ensures DeniesByDefault(SpecTree(form), SectionKey(ingress, Whitelist), SectionKey(ingress, Blacklist))
       <==> Whitelists(SectionOf(form, ingress))
  {
    DenySwitch(form, ingress);
    Sections(form, ingress, Whitelist);
    Sections(form, ingress, Blacklist);
    var s := SectionOf(form, ingress);
    if s.rules == [] { assert SectionTrees(s, ingress) == []; }
  }

  predicate Whitelists(s: Section) { s.rules != [] && s.mode.Whitelist? }

  lemma DomainsAreWhitelisted(form: Form)
    requires Valid(form)
    ensures forall r :: r in form.egress.rules && r.kind == FqdnPeer ==> form.egress.mode.Whitelist?
    ensures forall r :: r in form.ingress.rules + form.egress.rules && r.http != [] ==>
      (r in form.ingress.rules && form.ingress.mode.Whitelist?) || (r in form.egress.rules && form.egress.mode.Whitelist?)
  {
  }

  lemma SpecL7(form: Form)
    requires Valid(form)
    ensures SpecHasL7(SpecTree(form)) <==> FormHasL7(form)
  {
    Sections(form, true, Whitelist);
    Sections(form, false, Whitelist);
    SectionL7(form.ingress, true);
    SectionL7(form.egress, false);
    DomainsAreWhitelisted(form);
  }

  /** The row of a generated policy: every rule is counted in its direction, and the
      rider with them; Layer 7 shows exactly when the form has it; and default-deny is
      reported for exactly the whitelists with rules. */
  lemma RowAgrees(form: Form, r: Record)
    requires Valid(form)
    requires IsRow(CollectSpecs(DocOf(form).value), r)
    ensures r.ingressRules == |form.ingress.rules|
    ensures r.egressRules == |form.egress.rules| + if NamesDomains(form.egress) then 1 else 0
    ensures r.hasL7 <==> FormHasL7(form)
    ensures r.denyIngress <==> Whitelists(form.ingress)
    ensures r.denyEgress <==> Whitelists(form.egress)
    ensures r.DefaultDeny() == match (Whitelists(form.ingress), Whitelists(form.egress))
                               case (true, true) => "both" case (true, false) => "ingress" case (false, true) => "egress" case _ => ""
  {
    OneSpec(form);
    var spec := SpecTree(form);
    assert spec in [spec];
    CountsAgree(form);
    SpecL7(form);
    DeniesExactly(form, true);
    DeniesExactly(form, false);
  }

  lemma RulesListed(form: Form, ingress: bool)
    ensures |ListAt(SpecTree(form), SectionKey(ingress, Whitelist))| + |ListAt(SpecTree(form), SectionKey(ingress, Blacklist))|
         == |SectionTrees(SectionOf(form, ingress), ingress)|
  {
    Sections(form, ingress, Whitelist);
    Sections(form, ingress, Blacklist);
  }

  lemma SumOne(x: J, f: J -> int)
    ensures Sum([x], f) == f(x)
  {
  }

  lemma CountsOf(form: Form)
    requires Valid(form)
    ensures IngressRules(SpecTree(form)) == |form.ingress.rules|
    ensures EgressRules(SpecTree(form)) == |form.egress.rules| + if NamesDomains(form.egress) then 1 else 0
  {
    RulesListed(form, true);
    RulesListed(form, false);
    DomainsAreWhitelisted(form);
  }

  lemma CountsAgree(form: Form)
    requires Valid(form)
    ensures Sum([SpecTree(form)], IngressRules) == |form.ingress.rules|
    ensures Sum([SpecTree(form)], EgressRules) == |form.egress.rules| + if NamesDomains(form.egress) then 1 else 0
  {
    CountsOf(form);
    SumOne(SpecTree(form), IngressRules);
    SumOne(SpecTree(form), EgressRules);
  }
}
