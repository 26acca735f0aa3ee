/** The network policy form at work (web/src/utils/cnpForm.ts): the validators that
    collect complaints, the printer that fills in the spec, and the reader that goes
    through a document, each against its specification. */
module CnpEditor {
  import opened Wrappers
  import opened Sequences
  import opened Json
  import opened CnpForm
  import opened CnpPrinter
  import opened CnpParser

  method MatchLabelsOf(pairs: seq<LabelPair>) returns (out: Labels)
    ensures out == ToMatchLabels(pairs)
  {
    out := map[];
    for i := 0 to |pairs|
      invariant out == ToMatchLabels(pairs[..i])
    {
      assert pairs[..i + 1][..i] == pairs[..i];
      var key, value := Tidy(pairs[i].key), Tidy(pairs[i].value);
      if key == "" || value == "" || key == PROTO { continue; }
      out := out[if key in ALIASES then NAMESPACE_KEY else key := value];
    }
    assert pairs[..|pairs|] == pairs;
  }

  method SelectorLabelsOf(pairs: seq<LabelPair>, namespace: string) returns (out: Labels)
    ensures out == SelectorLabels(pairs, namespace)
  {
    out := MatchLabelsOf(pairs);
    if Tidy(namespace) != "" { out := out[NAMESPACE_KEY := Tidy(namespace)]; }
  }

  // ---------------------------------------------------------------- complaints

  datatype RuleComplaint =
    | UnknownEntity | CidrMissing | CidrMalformed | FqdnNotHere | FqdnMissing | FqdnMalformed | PeerEmpty
    | PeerRow(i: nat) | PortMissing(i: nat) | PortOutOfRange(i: nat) | ProtocolUnknown(i: nat)
    | HttpEmpty(i: nat) | HttpInBlacklist | HttpWithoutPort

  predicate FqdnRefused(ingress: bool, mode: Mode) { ingress || mode.Blacklist? }

  /** When each complaint is made about a peer. */
  predicate OfPeer(c: RuleComplaint, r: Rule, ingress: bool, mode: Mode) {
    match c
    case UnknownEntity => r.kind == EntityPeer && r.entity !in ENTITIES
    case CidrMissing => r.kind == CidrPeer && Blank(r.cidr)
    case CidrMalformed => r.kind == CidrPeer && !Blank(r.cidr) && !IsCidr(Tidy(r.cidr))
    case FqdnNotHere => r.kind == FqdnPeer && FqdnRefused(ingress, mode)
    case FqdnMissing => r.kind == FqdnPeer && !FqdnRefused(ingress, mode) && Blank(r.fqdn)
    case FqdnMalformed => r.kind == FqdnPeer && !FqdnRefused(ingress, mode) && !Blank(r.fqdn) && !IsFqdn(Tidy(r.fqdn))
    case PeerEmpty => r.kind == LabelPeer && PeerLabels(r) == map[]
    case PeerRow(i) => r.kind == LabelPeer && i < |r.labels| && HalfFilled(r.labels[i])
    case _ => false
  }

  predicate OfPorts(c: RuleComplaint, ports: seq<PortEntry>) {
    match c
    case PortMissing(i) => i < |ports| && Blank(ports[i].port)
    case PortOutOfRange(i) => i < |ports| && !Blank(ports[i].port) && !InPortRange(Tidy(ports[i].port))
    case ProtocolUnknown(i) => i < |ports| && ports[i].protocol !in PROTOCOLS
    case _ => false
  }

  predicate OfHttp(c: RuleComplaint, r: Rule, mode: Mode) {
    match c
    case HttpEmpty(i) => i < |r.http| && !SaysSomething(r.http[i])
    case HttpInBlacklist => r.http != [] && mode.Blacklist?
    case HttpWithoutPort => r.http != [] && Filtered(r.ports, HasPort) == []
    case _ => false
  }

  predicate OfRule(c: RuleComplaint, r: Rule, ingress: bool, mode: Mode) {
    OfPeer(c, r, ingress, mode) || OfPorts(c, r.ports) || OfHttp(c, r, mode)
  }

  datatype Complaint =
    | NameMissing | NameMalformed | NamespaceMissing | SubjectEmpty | SubjectRow(i: nat) | NoRules
    | InRule(ingress: bool, i: nat, what: RuleComplaint)

  predicate OfForm(c: Complaint, form: Form) {
    match c
    case NameMissing => Blank(form.name)
    case NameMalformed => !Blank(form.name) && !IsDnsName(Tidy(form.name))
    case NamespaceMissing => form.scope.Namespaced? && Blank(form.namespace)
    case SubjectEmpty => SubjectLabels(form) == map[]
    case SubjectRow(i) => i < |form.subject| && HalfFilled(form.subject[i])
    case NoRules => form.ingress.rules + form.egress.rules == []
    case InRule(ingress, i, what) =>
      var s := SectionOf(form, ingress);
      i < |s.rules| && OfRule(what, s.rules[i], ingress, s.mode)
  }

  method RowErrors(pairs: seq<LabelPair>) returns (rows: seq<nat>)
    ensures forall i :: i in rows <==> 0 <= i < |pairs| && HalfFilled(pairs[i])
  {
    rows := [];
    for i := 0 to |pairs|
      invariant forall j :: j in rows <==> 0 <= j < i && HalfFilled(pairs[j])
    {
      if (Tidy(pairs[i].key) == "") != (Tidy(pairs[i].value) == "") { rows := rows + [i]; }
    }
  }

  method PeerErrors(r: Rule, ingress: bool, mode: Mode) returns (errors: seq<RuleComplaint>)
    ensures forall c :: c in errors <==> OfPeer(c, r, ingress, mode)
  {
    errors := [];
    match r.kind {
      case EntityPeer =>
        if r.entity !in ENTITIES { errors := [UnknownEntity]; }
      case CidrPeer =>
        if Blank(r.cidr) { errors := [CidrMissing]; } else if !IsCidr(Tidy(r.cidr)) { errors := [CidrMalformed]; }
      case FqdnPeer =>
        if ingress || mode != Whitelist {
          errors := [FqdnNotHere];
        } else if Blank(r.fqdn) {
          errors := [FqdnMissing];
        } else if !IsFqdn(Tidy(r.fqdn)) {
          errors := [FqdnMalformed];
        }
      case LabelPeer =>
        errors := LabelErrors(r);
    }
  }

  method LabelErrors(r: Rule) returns (errors: seq<RuleComplaint>)
    ensures forall c :: c in errors <==> (c.PeerEmpty? && PeerLabels(r) == map[]) || (c.PeerRow? && c.i < |r.labels| && HalfFilled(r.labels[c.i]))
  {
    errors := [];
    var labels := SelectorLabelsOf(r.labels, r.namespace);
    if labels == map[] { errors := [PeerEmpty]; }
    var rows := RowErrors(r.labels);
    errors := errors + Each(rows, i => PeerRow(i));
    RowsInPeer(rows);
  }

  lemma RowsInPeer(rows: seq<nat>)
    ensures forall c :: c in Each(rows, (i: nat) => PeerRow(i)) <==> c.PeerRow? && c.i in rows
  {
    var each := Each(rows, (i: nat) => PeerRow(i));
    forall i | i in rows ensures PeerRow(i) in each {
      var k :| 0 <= k < |rows| && rows[k] == i;
      assert each[k] == PeerRow(i);
    }
  }

  method PortErrors(ports: seq<PortEntry>) returns (errors: seq<RuleComplaint>)
    ensures forall c :: c in errors <==> OfPorts(c, ports)
  {
    errors := [];
    for i := 0 to |ports|
      invariant forall c :: c in errors <==> OfPorts(c, ports) && c.i < i
    {
      var port := Tidy(ports[i].port);
      if port == "" { errors := errors + [PortMissing(i)]; } else if !InPortRange(port) { errors := errors + [PortOutOfRange(i)]; }
      if ports[i].protocol !in PROTOCOLS { errors := errors + [ProtocolUnknown(i)]; }
    }
  }

  method HttpErrors(r: Rule, mode: Mode) returns (errors: seq<RuleComplaint>)
    ensures forall c :: c in errors <==> OfHttp(c, r, mode)
  {
    errors := [];
    for i := 0 to |r.http|
      invariant forall c :: c in errors <==> c.HttpEmpty? && c.i < i && OfHttp(c, r, mode)
    {
      if r.http[i].verb == "" && Tidy(r.http[i].path) == "" { errors := errors + [HttpEmpty(i)]; }
    }
    if |r.http| > 0 {
      if mode == Blacklist { errors := errors + [HttpInBlacklist]; }
      if Filtered(r.ports, HasPort) == [] { errors := errors + [HttpWithoutPort]; }
    }
  }

  method SectionErrors(s: Section, ingress: bool) returns (errors: seq<Complaint>)
    ensures forall c :: c in errors <==>
      c.InRule? && c.ingress == ingress && c.i < |s.rules| && OfRule(c.what, s.rules[c.i], ingress, s.mode)
  {
    errors := [];
    for i := 0 to |s.rules|
      invariant forall c :: c in errors <==>
        c.InRule? && c.ingress == ingress && c.i < i && OfRule(c.what, s.rules[c.i], ingress, s.mode)
    {
      var peer := PeerErrors(s.rules[i], ingress, s.mode);
      var ports := PortErrors(s.rules[i].ports);
      var http := HttpErrors(s.rules[i], s.mode);
      var all := peer + ports + http;
      assert forall c :: c in all <==> OfRule(c, s.rules[i], ingress, s.mode);
      var here := Each(all, what => InRule(ingress, i, what));
      InRuleMembers(all, ingress, i);
      errors := errors + here;
    }
  }

  lemma InRuleMembers(all: seq<RuleComplaint>, ingress: bool, i: nat)
    ensures forall c :: c in Each(all, what => InRule(ingress, i, what))
                   <==> c.InRule? && c.ingress == ingress && c.i == i && c.what in all
  {
    var each := Each(all, what => InRule(ingress, i, what));
    forall what | what in all ensures InRule(ingress, i, what) in each {
      var k :| 0 <= k < |all| && all[k] == what;
      assert each[k] == InRule(ingress, i, what);
    }
  }

  /** Nothing is complained of exactly when the rule is valid. */
  lemma RuleComplaints(r: Rule, ingress: bool, mode: Mode)
    ensures ValidRule(r, ingress, mode) <==> forall c :: !OfRule(c, r, ingress, mode)
  {
    if !ValidRule(r, ingress, mode) {
      var c := SomeComplaint(r, ingress, mode);
      assert OfRule(c, r, ingress, mode);
    } else if c :| OfRule(c, r, ingress, mode) {
      NoComplaint(c, r, ingress, mode);
    }
  }

  lemma NoComplaint(c: RuleComplaint, r: Rule, ingress: bool, mode: Mode)
    requires ValidRule(r, ingress, mode)
    ensures !OfPeer(c, r, ingress, mode) && !OfPorts(c, r.ports) && !OfHttp(c, r, mode)
  {
    NoPeerComplaint(c, r, ingress, mode);
    NoPortComplaint(c, r.ports);
    if c.HttpEmpty? && c.i < |r.http| { assert r.http[c.i] in r.http; }
  }

  lemma NoPeerComplaint(c: RuleComplaint, r: Rule, ingress: bool, mode: Mode)
    requires ValidPeer(r, ingress, mode)
    ensures !OfPeer(c, r, ingress, mode)
  {
    assert !IsFqdn("");
    if c.PeerRow? && c.i < |r.labels| { assert r.labels[c.i] in r.labels; }
  }

  lemma NoPortComplaint(c: RuleComplaint, ports: seq<PortEntry>)
    requires forall p :: p in ports ==> ValidPort(p)
    ensures !OfPorts(c, ports)
  {
    assert !InPortRange("");
    if (c.PortMissing? || c.PortOutOfRange? || c.ProtocolUnknown?) && c.i < |ports| { assert ValidPort(ports[c.i]); }
  }

  /** A complaint about a rule that is not valid. */
  ghost function SomeComplaint(r: Rule, ingress: bool, mode: Mode): (c: RuleComplaint)
    requires !ValidRule(r, ingress, mode)
    ensures OfRule(c, r, ingress, mode)
  {
    if !ValidPeer(r, ingress, mode) then PeerComplaint(r, ingress, mode)
    else if i :| 0 <= i < |r.ports| && !ValidPort(r.ports[i]) then
      if Blank(r.ports[i].port) then PortMissing(i)
      else if !InPortRange(Tidy(r.ports[i].port)) then PortOutOfRange(i)
      else ProtocolUnknown(i)
    else if i :| 0 <= i < |r.http| && !SaysSomething(r.http[i]) then HttpEmpty(i)
    else if mode.Blacklist? then HttpInBlacklist
    else HttpWithoutPort
  }

  ghost function PeerComplaint(r: Rule, ingress: bool, mode: Mode): (c: RuleComplaint)
    requires !ValidPeer(r, ingress, mode)
    ensures OfPeer(c, r, ingress, mode)
  {
    match r.kind
    case EntityPeer => UnknownEntity
    case CidrPeer => if Blank(r.cidr) then CidrMissing else CidrMalformed
    case FqdnPeer =>
      if FqdnRefused(ingress, mode) then FqdnNotHere else if Blank(r.fqdn) then FqdnMissing else FqdnMalformed
    case LabelPeer =>
      if PeerLabels(r) == map[] then PeerEmpty
      else
        var i :| 0 <= i < |r.labels| && HalfFilled(r.labels[i]);
        PeerRow(i)
  }

  method SubjectErrors(form: Form) returns (errors: seq<Complaint>)
    ensures forall c :: c in errors <==> OfForm(c, form) && (c.SubjectEmpty? || c.SubjectRow?)
  {
    errors := [];
    var labels := SelectorLabelsOf(form.subject, form.subjectNamespace);
    if labels == map[] { errors := [SubjectEmpty]; }
    var rows := RowErrors(form.subject);
    errors := errors + Each(rows, i => SubjectRow(i));
    SubjectRowMembers(rows);
  }

  /** What is wrong with the policy's own fields. */
  method OwnErrors(form: Form) returns (errors: seq<Complaint>)
    ensures forall c :: c in errors <==> OfForm(c, form) && !c.InRule?
  {
    errors := [];
    var name := Tidy(form.name);
    if name == "" { errors := [NameMissing]; } else if !IsDnsName(name) { errors := [NameMalformed]; }
    if form.scope == Namespaced && Tidy(form.namespace) == "" { errors := errors + [NamespaceMissing]; }
    var subject := SubjectErrors(form);
    errors := errors + subject;
    if |form.ingress.rules| + |form.egress.rules| == 0 { errors := errors + [NoRules]; }
  }

  /** Every complaint the form deserves, and none exactly for valid forms. */
  method Validate(form: Form) returns (errors: seq<Complaint>)
    ensures forall c :: c in errors <==> OfForm(c, form)
    ensures errors == [] <==> Valid(form)
  {
    var own := OwnErrors(form);
    var ingress := SectionErrors(form.ingress, true);
    var egress := SectionErrors(form.egress, false);
    errors := own + ingress + egress;
    forall c ensures c in errors <==> OfForm(c, form) { OneOfThree(c, form, own, ingress, egress); }
    FormComplaints(form);
    if errors != [] { assert OfForm(errors[0], form); }
  }

  ghost predicate OfSection(c: Complaint, form: Form, ingress: bool) {
    c.InRule? && c.ingress == ingress && OfForm(c, form)
  }

  lemma OneOfThree(c: Complaint, form: Form, own: seq<Complaint>, ingress: seq<Complaint>, egress: seq<Complaint>)
    requires c in own <==> OfForm(c, form) && !c.InRule?
    requires c in ingress <==> OfSection(c, form, true)
    requires c in egress <==> OfSection(c, form, false)
    ensures c in own + ingress + egress <==> OfForm(c, form)
  {
  }

  lemma SubjectRowMembers(rows: seq<nat>)
    ensures forall c :: c in Each(rows, (i: nat) => SubjectRow(i)) <==> c.SubjectRow? && c.i in rows
  {
    var each := Each(rows, (i: nat) => SubjectRow(i));
    forall i | i in rows ensures SubjectRow(i) in each {
      var k :| 0 <= k < |rows| && rows[k] == i;
      assert each[k] == SubjectRow(i);
    }
  }

  lemma SectionComplaints(form: Form, ingress: bool)
    ensures var s := SectionOf(form, ingress);
            ValidSection(s, ingress) <==> forall i: nat, what :: !OfForm(InRule(ingress, i, what), form)
  {
    var s := SectionOf(form, ingress);
    if ValidSection(s, ingress) {
      forall i: nat, what ensures !OfForm(InRule(ingress, i, what), form) {
        if i < |s.rules| {
          assert s.rules[i] in s.rules;
          RuleComplaints(s.rules[i], ingress, s.mode);
        }
      }
    } else {
      var i :| 0 <= i < |s.rules| && !ValidRule(s.rules[i], ingress, s.mode);
      RuleComplaints(s.rules[i], ingress, s.mode);
      var what :| OfRule(what, s.rules[i], ingress, s.mode);
      assert OfForm(InRule(ingress, i, what), form);
    }
  }

  lemma FormComplaints(form: Form)
    ensures Valid(form) <==> forall c :: !OfForm(c, form)
  {
    SectionComplaints(form, true);
    SectionComplaints(form, false);
    if forall c :: !OfForm(c, form) {
      assert !OfForm(NameMissing, form) && !OfForm(NameMalformed, form) && !OfForm(NamespaceMissing, form);
      assert !OfForm(SubjectEmpty, form) && !OfForm(NoRules, form);
      forall p | p in form.subject ensures !HalfFilled(p) {
        var i :| 0 <= i < |form.subject| && form.subject[i] == p;
        assert !OfForm(SubjectRow(i), form);
      }
    } else {
      var c :| OfForm(c, form);
      assert !IsDnsName("");
      if c.SubjectRow? { assert form.subject[c.i] in form.subject; }
      if c.InRule? { assert OfForm(InRule(c.ingress, c.i, c.what), form); }
    }
  }

  // ------------------------------------------------------------------- printing

  method PrintSection(spec: map<string, J>, off: map<string, J>, s: Section, ingress: bool)
    returns (spec': map<string, J>, off': map<string, J>)
    ensures spec' == WithSection(spec, s, ingress)
    ensures off' == if Denies(s) then off[SectionKey(ingress, Whitelist) := Bool(false)] else off
  {
    spec', off' := spec, off;
    if |s.rules| == 0 { return; }
    var rules := RuleTrees(s.rules, ingress);
    if !ingress && s.mode == Whitelist && exists r :: r in s.rules && r.kind == FqdnPeer { rules := rules + [RIDER]; }
    assert rules == SectionTrees(s, ingress);
    if s.mode == Blacklist {
      off' := off'[if ingress then "ingress" else "egress" := Bool(false)];
      spec' := spec'[if ingress then "ingressDeny" else "egressDeny" := Arr(rules)];
    } else {
      spec' := spec'[if ingress then "ingress" else "egress" := Arr(rules)];
    }
  }

  method PrintForm(form: Form) returns (doc: Option<J>)
    ensures doc == DocOf(form)
  {
    var errors := Validate(form);
    if |errors| > 0 { return None; }
    var labels := SelectorLabelsOf(form.subject, form.subjectNamespace);
    var spec: map<string, J> := map["endpointSelector" := SelectorTree(labels)];
    if Tidy(form.comment) != "" { spec := spec["description" := Str(Tidy(form.comment))]; }
    var off: map<string, J> := map[];
    spec, off := PrintSection(spec, off, form.ingress, true);
    spec, off := PrintSection(spec, off, form.egress, false);
    assert off == DenyOff(form);
    if off != map[] { spec := spec["enableDefaultDeny" := Obj(off)]; }
    assert Obj(spec) == SpecTree(form);
    doc := Some(Obj(map["apiVersion" := Str("cilium.io/v2"), "kind" := Str(KindOf(form.scope)),
                        "metadata" := MetadataTree(form), "spec" := Obj(spec)]));
  }

  // -------------------------------------------------------------------- reading

  lemma {:induction false} OneRefused<T>(items: seq<J>, n: nat, skip: J -> bool, parse: (nat, J) -> Option<T>)
    requires n <= |items| && Gathered(items[..n], skip, parse).None?
    ensures Gathered(items, skip, parse).None?
  {
    if n == |items| {
      assert items[..n] == items;
    } else {
      assert items[..|items| - 1][..n] == items[..n];
      OneRefused(items[..|items| - 1], n, skip, parse);
    }
  }

  lemma GatheredNext<T>(items: seq<J>, i: nat, skip: J -> bool, parse: (nat, J) -> Option<T>, read: seq<T>)
    requires i < |items| && Gathered(items[..i], skip, parse) == Some(read)
    ensures Gathered(items[..i + 1], skip, parse)
         == if skip(items[i]) then Some(read)
            else match parse(i, items[i]) case None => None case Some(x) => Some(read + [x])
  {
    assert items[..i + 1][..i] == items[..i];
  }

  method ReadRules(items: seq<J>, ingress: bool, orders: Orders) returns (rules: Option<seq<Rule>>)
    requires AllList(orders)
    ensures rules == if items == [] then None else ParseRules(items, ingress, orders)
  {
    if |items| == 0 { return None; }
    var read: seq<Rule> := [];
    for i := 0 to |items|
      invariant ParseRules(items[..i], ingress, orders) == Some(read)
    {
      GatheredNext(items, i, RiderSkip(ingress), RuleParse(ingress, orders), read);
      if !ingress && items[i] == RIDER { continue; }
      var rule := ParseRule(items[i], ingress, orders(Peer(ingress, i)));
      if rule.None? {
        OneRefused(items, i + 1, RiderSkip(ingress), RuleParse(ingress, orders));
        return None;
      }
      read := read + [rule.value];
    }
    assert items[..|items|] == items;
    return Some(read);
  }

  method ReadSection(spec: J, ingress: bool, orders: Orders) returns (s: Option<Section>)
    requires AllList(orders)
    ensures s == ParseSection(spec, ingress, orders)
  {
    var allow := Field(spec, if ingress then "ingress" else "egress");
    var deny := Field(spec, if ingress then "ingressDeny" else "egressDeny");
    var hasAllow := allow.Some? && allow.value.Arr?;
    var hasDeny := deny.Some? && deny.value.Arr?;
    if hasAllow && hasDeny { return None; }
    if !hasAllow && !hasDeny { return Some(EMPTY_SECTION); }
    var rules := ReadRules(if hasDeny then deny.value.items else allow.value.items, ingress, orders);
    if rules.None? { return None; }
    return Some(Section(if hasDeny then Blacklist else Whitelist, rules.value));
  }

  method ReadSpec(spec: J, scope: Scope, orders: Orders) returns (form: Option<Form>)
    requires AllList(orders)
    ensures form == ParseSpec(spec, scope, orders)
  {
    var selector := Field(spec, "endpointSelector");
    if selector.None? { return None; }
    var labels := MatchLabels(selector.value);
    if labels.None? || labels.value == map[] { return None; }
    if scope != ClusterWide && Lifted(labels.value) != "" { return None; }
    var ingress := ReadSection(spec, true, orders);
    if ingress.None? { return None; }
    var egress := ReadSection(spec, false, orders);
    if egress.None? || |ingress.value.rules| + |egress.value.rules| == 0 { return None; }
    return Some(Form("", scope, "", DescriptionIn(spec), ToLabelPairs(Unlifted(labels.value), orders(Subject)), Lifted(labels.value),
                     ingress.value, egress.value));
  }

  method ReadForm(doc: J, orders: Orders) returns (form: Option<Form>)
    requires AllList(orders)
    ensures form == TryParse(doc, orders)
  {
    var scope, spec := ScopeIn(doc), Field(doc, "spec");
    if scope.None? || spec.None? || !Marked(doc) { return None; }
    var fields := ReadSpec(spec.value, scope.value, orders);
    if fields.None? { return None; }
    var name := NameIn(doc, "name");
    var namespace := if scope.value == ClusterWide then Some("") else NameIn(doc, "namespace");
    if name.None? || namespace.None? { return None; }
    var result := fields.value.(name := name.value, namespace := namespace.value);
    var again := PrintForm(result);
    if again.None? || Field(again.value, "spec") != spec { return None; }
    return Some(result);
  }
}
