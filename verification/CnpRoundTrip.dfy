/** Every document the form generates reopens in the form's normal form, and the normal
    form generates the same document. */
module CnpRoundTrip {
  import opened Wrappers
  import opened Sequences
  import opened Json
  import opened Text
  import opened CnpForm
  import opened CnpPrinter
  import opened CnpParser

  // ------------------------------------------------------------- the parts reopen

  lemma LabelsReopen(m: Labels)
    ensures MatchLabels(SelectorTree(m)) == Some(m)
  {
    var back := LabelsIn(LabelTree(m)).value;
    assert back == m;
  }

  /** The peer is the one entry under its own key, and nothing is under the others. */
  lemma PeerStands(r: Rule, ingress: bool)
    ensures forall kind :: Single(RuleTree(r, ingress), PeerKey(kind, ingress)) == if kind == r.kind then Some(PeerTree(r)) else None
  {
    RuleFields(r, ingress);
  }

  /** Reading a peer is reading the entries under the four keys. */
  lemma PeerFrom(cr: J, ingress: bool, kind: PeerKind, v: J, order: Order)
    requires Lists(order) && (kind == FqdnPeer ==> !ingress)
    requires forall k :: Single(cr, PeerKey(k, ingress)) == if k == kind then Some(v) else None
    ensures ParsePeer(cr, ingress, order) == match kind
              case LabelPeer => LabelPeerFrom(v, order)
              case EntityPeer => if v.Str? then Some(EMPTY_RULE.(kind := EntityPeer, entity := v.s)) else None
              case CidrPeer => if v.Str? then Some(EMPTY_RULE.(kind := CidrPeer, cidr := v.s)) else None
              case FqdnPeer => FqdnPeerFrom(v)
  {
    assert PeerKey(LabelPeer, ingress) == EndpointsKey(ingress) && PeerKey(EntityPeer, ingress) == EntitiesKey(ingress);
    assert PeerKey(CidrPeer, ingress) == CidrKey(ingress) && PeerKey(FqdnPeer, ingress) == FQDN_KEY;
  }

  lemma PeerReopens(r: Rule, ingress: bool, mode: Mode, order: Order)
    requires ValidPeer(r, ingress, mode) && Lists(order)
    ensures ParsePeer(RuleTree(r, ingress), ingress, order) == Some(NormalPeer(r, order))
  {
    PeerStands(r, ingress);
    PeerFrom(RuleTree(r, ingress), ingress, r.kind, PeerTree(r), order);
    match r.kind
    case LabelPeer => LabelsReopen(PeerLabels(r));
    case FqdnPeer => FqdnReopens(Tidy(r.fqdn));
    case _ =>
  }

  lemma FqdnReopens(name: string)
    ensures FqdnIn(FqdnTree(name)) == Some(name)
  {
    assert |"matchName"| == 9 && |"matchPattern"| == 12;
  }

  lemma PortReopens(p: PortEntry)
    ensures ParsePort(PortTree(p)) == Some(p)
  {
    assert |"port"| == 4 && |"protocol"| == 8;
  }

  lemma HttpReopens(h: HttpRule)
    ensures ParseHttp(HttpTree(h)) == Some(h)
  {
    assert |"method"| == 6 && |"path"| == 4;
  }

  lemma {:induction false} AllReopen<T>(items: seq<T>, print_: T -> J, parse: J -> Option<T>)
    requires forall x :: x in items ==> parse(print_(x)) == Some(x)
    ensures ParseAll(Each(items, print_), parse) == Some(items)
  {
    if items != [] {
      var init, last := items[..|items| - 1], items[|items| - 1];
      assert items == init + [last];
      assert Each(items, print_)[..|items| - 1] == Each(init, print_);
      AllReopen(init, print_, parse);
    }
  }

  lemma PortsTreeFields(ports: seq<PortEntry>, http: seq<HttpRule>)
    ensures Field(PortsTree(ports, http), "ports") == Some(Arr(Each(ports, PortTree)))
    ensures HttpItems(PortsTree(ports, http)) == Some(Each(http, HttpTree))
  {
    assert |"ports"| == 5 && "ports"[0] == 'p' && "rules"[0] == 'r';
  }

  lemma PortsReopen(ports: seq<PortEntry>, http: seq<HttpRule>)
    ensures ParsePorts(PortsTree(ports, http)) == Some((ports, http))
  {
    PortsTreeFields(ports, http);
    forall p | p in ports ensures ParsePort(PortTree(p)) == Some(p) { PortReopens(p); }
    AllReopen(ports, PortTree, ParsePort);
    HttpsReopen(http);
  }

  lemma HttpsReopen(http: seq<HttpRule>)
    ensures ParseAll(Each(http, HttpTree), ParseHttp) == Some(http)
  {
    forall h | h in http ensures ParseHttp(HttpTree(h)) == Some(h) { HttpReopens(h); }
    AllReopen(http, HttpTree, ParseHttp);
  }

  /** Reading a rule is reading its peer and its ports. */
  lemma RuleFrom(cr: J, ingress: bool, order: Order, peer: Rule, ports: seq<PortEntry>, http: seq<HttpRule>)
    requires Lists(order) && ParsePeer(cr, ingress, order) == Some(peer) && peer.ports == [] && peer.http == []
    requires ports == [] ==> http == []
    requires Field(cr, PORTS_KEY) == if ports == [] then None else Some(Arr([PortsTree(ports, http)]))
    ensures ParseRule(cr, ingress, order) == Some(peer.(ports := ports, http := http))
  {
    PortsReopen(ports, http);
  }

  lemma RuleReopens(r: Rule, ingress: bool, mode: Mode, order: Order)
    requires ValidRule(r, ingress, mode) && Lists(order)
    ensures ParseRule(RuleTree(r, ingress), ingress, order) == Some(NormalRule(r, order))
  {
    PeerReopens(r, ingress, mode, order);
    RuleFields(r, ingress);
    RuleFrom(RuleTree(r, ingress), ingress, order, NormalPeer(r, order), TidyPorts(r.ports), TidyHttps(r.http));
  }

  lemma KnownProtocols(ports: seq<PortEntry>)
    requires forall p :: p in ports ==> ValidPort(p)
    ensures forall i :: 0 <= i < |TidyPorts(ports)| ==> TidyPorts(ports)[i].protocol != "ANY"
  {
    assert "ANY"[0] == 'A' && PROTOCOLS[0][0] == 'T' && PROTOCOLS[1][0] == 'U' && PROTOCOLS[2][0] == 'S';
    forall i | 0 <= i < |TidyPorts(ports)| ensures TidyPorts(ports)[i].protocol != "ANY" {
      assert Filtered(ports, HasPort)[i] in Filtered(ports, HasPort);
    }
  }

  lemma RiderPort(ports: seq<PortEntry>, http: seq<HttpRule>)
    requires PortsTree(ports, http) == RIDER_PORTS
    ensures |ports| == 1 && ports[0].protocol == "ANY"
  {
    PortsTreeFields(ports, http);
    assert "ports" in RIDER_PORTS.fields && "rules" != "ports" by { assert "ports"[0] == 'p' && "rules"[0] == 'r'; }
    assert Field(RIDER_PORTS, "ports") == Some(Arr([PortTree(PortEntry("53", "ANY"))]));
    assert PortTree(ports[0]) == PortTree(PortEntry("53", "ANY"));
    PortReopens(ports[0]);
    PortReopens(PortEntry("53", "ANY"));
  }

  lemma RiderPorts()
    ensures Field(RIDER, PORTS_KEY) == Some(Arr([RIDER_PORTS]))
  {
    PeerKeysDiffer(false);
  }

  /** No rule of the form's own looks like the rider. */
  lemma RuleIsNoRider(r: Rule, mode: Mode)
    requires ValidRule(r, false, mode)
    ensures RuleTree(r, false) != RIDER
  {
    KnownProtocols(r.ports);
    RuleFields(r, false);
    RiderPorts();
    if PortsTree(TidyPorts(r.ports), TidyHttps(r.http)) == RIDER_PORTS { RiderPort(TidyPorts(r.ports), TidyHttps(r.http)); }
  }

  /** Items that parse one by one, none of them skipped, parse together. */
  lemma {:induction false} GatheredAll<T>(items: seq<J>, parsed: seq<T>, skip: J -> bool, parse: (nat, J) -> Option<T>)
    requires |items| == |parsed|
    requires forall i :: 0 <= i < |items| ==> !skip(items[i]) && parse(i, items[i]) == Some(parsed[i])
    ensures Gathered(items, skip, parse) == Some(parsed)
  {
    if items != [] {
      var n := |items| - 1;
      GatheredAll(items[..n], parsed[..n], skip, parse);
      assert parsed == parsed[..n] + [parsed[n]];
    }
  }

  lemma GatheredSkip<T>(items: seq<J>, last: J, skip: J -> bool, parse: (nat, J) -> Option<T>)
    requires skip(last)
    ensures Gathered(items + [last], skip, parse) == Gathered(items, skip, parse)
  {
    assert (items + [last])[..|items|] == items;
  }

  lemma RulesReopen(rules: seq<Rule>, ingress: bool, mode: Mode, orders: Orders)
    requires AllList(orders) && forall r :: r in rules ==> ValidRule(r, ingress, mode)
    ensures ParseRules(RuleTrees(rules, ingress), ingress, orders) == Some(NormalRules(rules, ingress, orders))
  {
    var trees, normal := RuleTrees(rules, ingress), NormalRules(rules, ingress, orders);
    forall i | 0 <= i < |trees|
      ensures !RiderSkip(ingress)(trees[i]) && RuleParse(ingress, orders)(i, trees[i]) == Some(normal[i])
    {
      OneRuleReopens(rules[i], ingress, mode, orders(Peer(ingress, i)));
    }
    GatheredAll(trees, normal, RiderSkip(ingress), RuleParse(ingress, orders));
  }

  lemma OneRuleReopens(r: Rule, ingress: bool, mode: Mode, order: Order)
    requires ValidRule(r, ingress, mode) && Lists(order)
    ensures !IsRider(RuleTree(r, ingress), ingress)
    ensures ParseRule(RuleTree(r, ingress), ingress, order) == Some(NormalRule(r, order))
  {
    RuleReopens(r, ingress, mode, order);
    if !ingress { RuleIsNoRider(r, mode); }
  }

  lemma TreesReopen(s: Section, ingress: bool, orders: Orders)
    requires AllList(orders) && ValidSection(s, ingress)
    ensures ParseRules(SectionTrees(s, ingress), ingress, orders) == Some(NormalRules(s.rules, ingress, orders))
  {
    RulesReopen(s.rules, ingress, s.mode, orders);
    var trees := RuleTrees(s.rules, ingress);
    if !ingress && s.mode.Whitelist? && NamesDomains(s) {
      GatheredSkip(trees, RIDER, RiderSkip(ingress), RuleParse(ingress, orders));
    } else {
      assert SectionTrees(s, ingress) == trees;
    }
  }

  lemma SectionReopens(form: Form, ingress: bool, orders: Orders)
    requires AllList(orders) && ValidSection(SectionOf(form, ingress), ingress)
    ensures ParseSection(SpecTree(form), ingress, orders) == Some(NormalSection(SectionOf(form, ingress), ingress, orders))
  {
    SpecSections(form);
    TreesReopen(SectionOf(form, ingress), ingress, orders);
  }

  /** The forms whose documents the reader takes: a namespaced policy must not name a
      namespace in its subject, which the form would not show. */
  predicate Reopenable(form: Form) { form.scope.ClusterWide? || NAMESPACE_KEY !in SubjectLabels(form) }

  lemma DescriptionReopens(form: Form)
    ensures DescriptionIn(SpecTree(form)) == Tidy(form.comment)
  {
    SpecRest(form);
  }

  lemma SubjectReopens(form: Form)
    ensures Field(SpecTree(form), "endpointSelector").Some?
    ensures MatchLabels(Field(SpecTree(form), "endpointSelector").value) == Some(SubjectLabels(form))
    ensures Lifted(SubjectLabels(form)) != "" <==> NAMESPACE_KEY in SubjectLabels(form)
  {
    SpecRest(form);
    var m := SubjectLabels(form);
    LabelsReopen(m);
    SelectorPrintable(form.subject, form.subjectNamespace);
    assert NAMESPACE_KEY in m ==> IsLabel(NAMESPACE_KEY, m[NAMESPACE_KEY]);
  }

  lemma SpecReopens(form: Form, orders: Orders)
    requires Valid(form) && AllList(orders)
    ensures ParseSpec(SpecTree(form), form.scope, orders)
         == if Reopenable(form) then Some(Normal(form, orders).(name := "", namespace := "")) else None
  {
    SubjectReopens(form);
    SectionReopens(form, true, orders);
    SectionReopens(form, false, orders);
    DescriptionReopens(form);
  }

  lemma DocIsMarked(form: Form)
    requires Valid(form)
    ensures Marked(DocOf(form).value)
  {
    DocFields(form);
    MetadataFields(form);
  }

  lemma DocScope(form: Form)
    requires Valid(form)
    ensures ScopeIn(DocOf(form).value) == Some(form.scope)
  {
    DocFields(form);
    assert |KindOf(ClusterWide)| == 30 && |KindOf(Namespaced)| == 19;
  }

  lemma DocNames(form: Form)
    requires Valid(form)
    ensures NameIn(DocOf(form).value, "name") == Some(Tidy(form.name))
    ensures form.scope.Namespaced? ==> NameIn(DocOf(form).value, "namespace") == Some(Tidy(form.namespace))
  {
    DocFields(form);
    MetadataFields(form);
  }

  lemma FormReopens(form: Form, orders: Orders)
    requires Valid(form) && AllList(orders)
    ensures ParseForm(DocOf(form).value, orders) == if Reopenable(form) then Some(Normal(form, orders)) else None
  {
    DocFields(form);
    DocIsMarked(form);
    DocScope(form);
    DocNames(form);
    SpecReopens(form, orders);
  }

  // --------------------------------------------- the normal form says the same

  lemma TidyPortsTwice(ports: seq<PortEntry>)
    ensures TidyPorts(TidyPorts(ports)) == TidyPorts(ports) == Filtered(TidyPorts(ports), HasPort)
  {
    forall p | p in ports && HasPort(p) ensures HasPort(TidyPort(p)) && TidyPort(TidyPort(p)) == TidyPort(p) { TidyTwice(p.port); }
    FilteredEachTwice(ports, HasPort, TidyPort);
  }

  lemma TidyPortsValid(ports: seq<PortEntry>)
    requires forall p :: p in ports ==> ValidPort(p)
    ensures forall p :: p in TidyPorts(ports) ==> ValidPort(p)
  {
    forall p | p in TidyPorts(ports) ensures ValidPort(p) {
      FilteredEachMembers(ports, HasPort, TidyPort, p);
      var q :| q in ports && HasPort(q) && p == TidyPort(q);
      TidyTwice(q.port);
    }
  }

  lemma TidyHttpsTwice(http: seq<HttpRule>)
    ensures TidyHttps(TidyHttps(http)) == TidyHttps(http)
    ensures forall h :: h in TidyHttps(http) ==> SaysSomething(h)
  {
    forall h | h in http && SaysSomething(h)
      ensures SaysSomething(TidyHttp(h)) && TidyHttp(TidyHttp(h)) == TidyHttp(h)
    {
      TidyTwice(h.path);
    }
    FilteredEachTwice(http, SaysSomething, TidyHttp);
    forall h | h in TidyHttps(http) ensures SaysSomething(h) { assert h in Filtered(TidyHttps(http), SaysSomething); }
  }

  lemma NormalPeerSame(r: Rule, ingress: bool, mode: Mode, order: Order)
    requires ValidPeer(r, ingress, mode) && Lists(order)
    ensures ValidPeer(NormalPeer(r, order), ingress, mode)
    ensures PeerTree(NormalPeer(r, order)) == PeerTree(r)
  {
    match r.kind
    case LabelPeer => NormalSelectorSame(r.labels, r.namespace, order);
    case CidrPeer => NormalCidr(r.cidr);
    case FqdnPeer => TidyTwice(r.fqdn);
    case EntityPeer =>
  }

  lemma NormalPeerTwice(r: Rule, ingress: bool, mode: Mode, order: Order, other: Order)
    requires ValidPeer(r, ingress, mode) && Lists(order) && Lists(other)
    ensures NormalPeer(NormalPeer(r, order), other) == NormalPeer(r, other)
  {
    match r.kind
    case LabelPeer => NormalSelectorSame(r.labels, r.namespace, order);
    case CidrPeer => NormalCidr(r.cidr);
    case FqdnPeer => TidyTwice(r.fqdn);
    case EntityPeer =>
  }

  lemma PeerIgnoresPorts(r: Rule, p: Rule, ingress: bool, mode: Mode, order: Order)
    requires p == r.(ports := p.ports, http := p.http) && Lists(order)
    ensures ValidPeer(p, ingress, mode) == ValidPeer(r, ingress, mode)
    ensures PeerTree(p) == PeerTree(r) && NormalPeer(p, order) == NormalPeer(r, order)
  {
  }

  lemma NormalRuleValid(r: Rule, ingress: bool, mode: Mode, order: Order)
    requires ValidRule(r, ingress, mode) && Lists(order)
    ensures ValidRule(NormalRule(r, order), ingress, mode)
  {
    var n := NormalRule(r, order);
    NormalPeerSame(r, ingress, mode, order);
    PeerIgnoresPorts(NormalPeer(r, order), n, ingress, mode, order);
    TidyPortsTwice(r.ports);
    TidyPortsValid(r.ports);
    TidyHttpsTwice(r.http);
    if n.http != [] { assert r.http != [] && TidyPorts(r.ports) != []; }
  }

  lemma NormalRuleTree(r: Rule, ingress: bool, mode: Mode, order: Order)
    requires ValidRule(r, ingress, mode) && Lists(order)
    ensures RuleTree(NormalRule(r, order), ingress) == RuleTree(r, ingress)
  {
    var n := NormalRule(r, order);
    NormalPeerSame(r, ingress, mode, order);
    PeerIgnoresPorts(NormalPeer(r, order), n, ingress, mode, order);
    TidyPortsTwice(r.ports);
    TidyHttpsTwice(r.http);
    SameRuleTree(n, r, ingress);
  }

  lemma SameRuleTree(a: Rule, b: Rule, ingress: bool)
    requires a.kind == b.kind && PeerTree(a) == PeerTree(b)
    requires TidyPorts(a.ports) == TidyPorts(b.ports) && TidyHttps(a.http) == TidyHttps(b.http)
    ensures RuleTree(a, ingress) == RuleTree(b, ingress)
  {
  }

  lemma NormalRuleTwice(r: Rule, ingress: bool, mode: Mode, order: Order, other: Order)
    requires ValidRule(r, ingress, mode) && Lists(order) && Lists(other)
    ensures NormalRule(NormalRule(r, order), other) == NormalRule(r, other)
  {
    NormalPeerTwice(r, ingress, mode, order, other);
    PeerIgnoresPorts(NormalPeer(r, order), NormalRule(r, order), ingress, mode, other);
    TidyPortsTwice(r.ports);
    TidyHttpsTwice(r.http);
  }

  /** Normalising a valid rule keeps it valid, keeps what it prints, and is undone by
      nothing but another order of the rows. */
  lemma NormalRuleSame(r: Rule, ingress: bool, mode: Mode, order: Order, other: Order)
    requires ValidRule(r, ingress, mode) && Lists(order) && Lists(other)
    ensures ValidRule(NormalRule(r, order), ingress, mode)
    ensures RuleTree(NormalRule(r, order), ingress) == RuleTree(r, ingress)
    ensures NormalRule(NormalRule(r, order), other) == NormalRule(r, other)
  {
    NormalRuleValid(r, ingress, mode, order);
    NormalRuleTree(r, ingress, mode, order);
    NormalRuleTwice(r, ingress, mode, order, other);
  }

  lemma NormalSectionSame(s: Section, ingress: bool, orders: Orders, others: Orders)
    requires ValidSection(s, ingress) && AllList(orders) && AllList(others)
    ensures ValidSection(NormalSection(s, ingress, orders), ingress)
    ensures SectionTrees(NormalSection(s, ingress, orders), ingress) == SectionTrees(s, ingress)
    ensures NormalSection(NormalSection(s, ingress, orders), ingress, others) == NormalSection(s, ingress, others)
  {
    var n := NormalSection(s, ingress, orders);
    if s.rules != [] {
      forall i | 0 <= i < |s.rules|
        ensures ValidRule(n.rules[i], ingress, s.mode) && RuleTree(n.rules[i], ingress) == RuleTree(s.rules[i], ingress)
        ensures NormalRule(n.rules[i], others(Peer(ingress, i))) == NormalRule(s.rules[i], others(Peer(ingress, i)))
        ensures n.rules[i].kind == s.rules[i].kind
      {
        NormalRuleSame(s.rules[i], ingress, s.mode, orders(Peer(ingress, i)), others(Peer(ingress, i)));
      }
      assert RuleTrees(n.rules, ingress) == RuleTrees(s.rules, ingress);
      KindsDecide(n.rules, s.rules);
      assert NormalRules(n.rules, ingress, others) == NormalRules(s.rules, ingress, others);
    }
  }

  lemma KindsDecide(a: seq<Rule>, b: seq<Rule>)
    requires |a| == |b| && forall i :: 0 <= i < |a| ==> a[i].kind == b[i].kind
    ensures NamesDomains(Section(Whitelist, a)) <==> NamesDomains(Section(Whitelist, b))
  {
    if i :| 0 <= i < |a| && a[i].kind == FqdnPeer { assert a[i] in a && b[i] in b; }
  }

  lemma NormalSelectorSame(pairs: seq<LabelPair>, namespace: string, order: Order)
    requires Lists(order)
    ensures var m := SelectorLabels(pairs, namespace);
            var rows := ToLabelPairs(Unlifted(m), order);
            SelectorLabels(rows, Lifted(m)) == m && RowsFilled(rows)
  {
    SelectorPrintable(pairs, namespace);
    LiftAndBack(SelectorLabels(pairs, namespace), order);
    PairsFilled(Unlifted(SelectorLabels(pairs, namespace)), order);
  }

  lemma SameSection(fields: map<string, J>, a: Section, b: Section, ingress: bool)
    requires (a.rules == [] <==> b.rules == []) && (a.rules != [] ==> a.mode == b.mode)
    requires SectionTrees(a, ingress) == SectionTrees(b, ingress)
    ensures WithSection(fields, a, ingress) == WithSection(fields, b, ingress) && Denies(a) == Denies(b)
  {
  }

  /** A form depends on its parts through what they print. */
  lemma SameParts(f: Form, g: Form)
    requires SubjectLabels(f) == SubjectLabels(g) && Tidy(f.comment) == Tidy(g.comment)
    requires forall i :: SectionOf(f, i).rules == [] <==> SectionOf(g, i).rules == []
    requires forall i :: SectionOf(f, i).rules != [] ==> SectionOf(f, i).mode == SectionOf(g, i).mode
    requires forall i :: SectionTrees(SectionOf(f, i), i) == SectionTrees(SectionOf(g, i), i)
    ensures SpecTree(f) == SpecTree(g)
  {
    assert SectionOf(f, true) == f.ingress && SectionOf(g, true) == g.ingress;
    assert SectionOf(f, false) == f.egress && SectionOf(g, false) == g.egress;
    var fields := OptionalStr(map["endpointSelector" := SelectorTree(SubjectLabels(f))], "description", Tidy(f.comment));
    SameSection(fields, f.ingress, g.ingress, true);
    SameSection(WithSection(fields, f.ingress, true), f.egress, g.egress, false);
  }

  lemma NormalMetadata(form: Form, orders: Orders)
    requires AllList(orders)
    ensures var n := Normal(form, orders);
            Tidy(n.name) == Tidy(form.name) && n.scope == form.scope && Tidy(n.comment) == Tidy(form.comment)
            && (form.scope.Namespaced? ==> Tidy(n.namespace) == Tidy(form.namespace))
  {
    TidyTwice(form.name);
    TidyTwice(form.namespace);
    TidyTwice(form.comment);
  }

  /** The normal form is valid, generates the same document, and is its own, but for the
      order of the rows if they are listed anew. */
  lemma NormalSame(form: Form, orders: Orders, others: Orders)
    requires Valid(form) && AllList(orders) && AllList(others)
    ensures Valid(Normal(form, orders))
    ensures DocOf(Normal(form, orders)) == DocOf(form)
    ensures Normal(Normal(form, orders), others) == Normal(form, others)
  {
    var n := Normal(form, orders);
    NormalMetadata(form, orders);
    NormalSelectorSame(form.subject, form.subjectNamespace, orders(Subject));
    NormalSectionSame(form.ingress, true, orders, others);
    NormalSectionSame(form.egress, false, orders, others);
    SameParts(n, form);
  }

  // ------------------------------------------------------------------- main results

  /** A generated document reopens, in normal form, exactly when it is not a namespaced
      policy whose subject names a namespace. */
  lemma Reopens(form: Form, orders: Orders)
    requires Valid(form) && AllList(orders)
    ensures TryParse(DocOf(form).value, orders) == if Reopenable(form) then Some(Normal(form, orders)) else None
  {
    FormReopens(form, orders);
    NormalSame(form, orders, orders);
    DocFields(form);
  }

  /** Whatever document is opened: the form generates its spec, and is the normal form
      of itself but for blanks around the name and namespace it found. */
  lemma OpenedIsNormal(doc: J, orders: Orders)
    requires AllList(orders) && TryParse(doc, orders).Some?
    ensures var form := TryParse(doc, orders).value;
            && Valid(form) && Reopenable(form) && Field(doc, "spec") == Some(SpecTree(form))
            && form == Normal(form, orders).(name := form.name, namespace := form.namespace)
  {
    var form := TryParse(doc, orders).value;
    DocFields(form);
    SpecReopens(form, orders);
  }

  /** A value inside so many one-element lists, which JavaScript's String() sees through. */
  function Nested(n: nat, j: J): J { if n == 0 then j else Arr([Nested(n - 1, j)]) }

  ghost predicate SaysTrue(j: J) { exists n: nat :: j == Nested(n, Str("true")) || j == Nested(n, Bool(true)) }

  lemma {:induction false} NestedIsTrue(n: nat)
    ensures IsTrue(Nested(n, Str("true"))) && IsTrue(Nested(n, Bool(true)))
  {
    if n > 0 { NestedIsTrue(n - 1); }
  }

  lemma {:induction false} TrueExactly(j: J)
    ensures IsTrue(j) <==> SaysTrue(j)
  {
    if IsTrue(j) {
      if j.Arr? {
        TrueExactly(j.items[0]);
        var n: nat :| j.items[0] == Nested(n, Str("true")) || j.items[0] == Nested(n, Bool(true));
        assert j.items == [j.items[0]] && j == Arr([j.items[0]]);
        assert j == Nested(n + 1, Str("true")) || j == Nested(n + 1, Bool(true));
      } else {
        assert j == Nested(0, j);
      }
    }
    if n: nat :| j == Nested(n, Str("true")) || j == Nested(n, Bool(true)) { NestedIsTrue(n); }
  }

  ghost predicate NothingInside(j: J) { j in {Null, Obj(map[]), Arr([]), Str("")} || j.Num? || j.Bool? }

  /** The document says it is the form's making, and nothing a save would drop beside its
      spec: no list of specs, no labels of its own. */
  ghost predicate FormsMaking(doc: J) {
    && Field(doc, "specs").None?
    && match Field(doc, "metadata")
       case None => false
       case Some(meta) =>
         && (match Field(meta, "labels") case None => true case Some(labels) => NothingInside(labels))
         && match Field(meta, "annotations")
            case None => false
            case Some(notes) => match Field(notes, "sentinel.io/builder") case None => false case Some(mark) => SaysTrue(mark)
  }

  lemma MarkedExactly(doc: J)
    ensures Marked(doc) <==> FormsMaking(doc)
  {
    var mark := Get(Get(Field(doc, "metadata"), "annotations"), BUILDER_ANNOTATION);
    if mark.Some? { TrueExactly(mark.value); }
  }

  /** The document has the form's kind and goes by its name and namespace. */
  ghost predicate NamedAs(form: Form, doc: J) {
    && Field(doc, "kind") == Some(Str(if form.scope.ClusterWide? then "CiliumClusterwideNetworkPolicy" else "CiliumNetworkPolicy"))
    && Get(Field(doc, "metadata"), "name") == Some(Str(form.name))
    && (form.scope.Namespaced? ==> Get(Field(doc, "metadata"), "namespace") == Some(Str(form.namespace)))
  }

  /** The document is what this form would be saved as, but for blanks around the name
      and namespace. */
  ghost predicate SavesAs(form: Form, doc: J) {
    Valid(form) && FormsMaking(doc) && NamedAs(form, doc) && Field(doc, "spec") == Some(SpecTree(form))
  }

  /** What ParseForm reads beside the spec. */
  ghost predicate ReadAs(form: Form, doc: J) {
    && ScopeIn(doc) == Some(form.scope) && NameIn(doc, "name") == Some(form.name)
    && (form.scope.Namespaced? ==> NameIn(doc, "namespace") == Some(form.namespace))
  }

  lemma NamesExactly(form: Form, doc: J)
    requires form.name != "" && (form.scope.Namespaced? ==> form.namespace != "")
    ensures NamedAs(form, doc) <==> ReadAs(form, doc)
  {
    assert |"CiliumClusterwideNetworkPolicy"| == 30 && |"CiliumNetworkPolicy"| == 19;
  }

  lemma ValidNames(form: Form)
    requires Valid(form)
    ensures form.name != "" && (form.scope.Namespaced? ==> form.namespace != "")
  {
    assert Blank("");
  }

  lemma OpenedReads(doc: J, orders: Orders)
    requires AllList(orders) && ParseForm(doc, orders).Some?
    ensures ReadAs(ParseForm(doc, orders).value, doc) && Marked(doc)
  {
  }

  lemma OpenedSaves(doc: J, orders: Orders)
    requires AllList(orders) && TryParse(doc, orders).Some?
    ensures SavesAs(TryParse(doc, orders).value, doc) && Reopenable(TryParse(doc, orders).value)
  {
    var form := TryParse(doc, orders).value;
    OpenedIsNormal(doc, orders);
    OpenedReads(doc, orders);
    MarkedExactly(doc);
    ValidNames(form);
    NamesExactly(form, doc);
  }

  lemma ParsedFrom(doc: J, orders: Orders, form: Form, spec: J, fields: Form)
    requires AllList(orders) && ReadAs(form, doc) && Marked(doc) && Field(doc, "spec") == Some(spec)
    requires ParseSpec(spec, form.scope, orders) == Some(fields)
    ensures ParseForm(doc, orders)
         == Some(fields.(name := form.name, namespace := if form.scope.ClusterWide? then "" else form.namespace))
  {
  }

  /** The form with the names as they stand in the document. */
  function Renamed(n: Form, form: Form): Form {
    n.(name := form.name, namespace := if form.scope.ClusterWide? then "" else form.namespace)
  }

  lemma RenamedPrints(form: Form, orders: Orders)
    requires Valid(form) && AllList(orders)
    ensures var again := Renamed(Normal(form, orders), form); Valid(again) && SpecTree(again) == SpecTree(form)
  {
    NormalSame(form, orders, orders);
    NormalMetadata(form, orders);
    DocFields(form);
    DocFields(Normal(form, orders));
    SameSpec(Normal(form, orders), Renamed(Normal(form, orders), form));
  }

  lemma SameSpec(f: Form, g: Form)
    requires g == f.(name := g.name, namespace := g.namespace)
    ensures SpecTree(f) == SpecTree(g)
  {
  }

  lemma SavedOpens(form: Form, doc: J, orders: Orders)
    requires AllList(orders) && SavesAs(form, doc) && Reopenable(form)
    ensures TryParse(doc, orders) == Some(Renamed(Normal(form, orders), form))
  {
    MarkedExactly(doc);
    ValidNames(form);
    NamesExactly(form, doc);
    SpecReopens(form, orders);
    ParsedFrom(doc, orders, form, SpecTree(form), Normal(form, orders).(name := "", namespace := ""));
    RenamedPrints(form, orders);
    DocFields(Renamed(Normal(form, orders), form));
  }

  /** Exactly the documents are opened that some form would be saved as, one whose
      subject does not hide a namespace. */
  lemma OpensExactly(doc: J, orders: Orders)
    requires AllList(orders)
    ensures TryParse(doc, orders).Some? <==> exists form :: SavesAs(form, doc) && Reopenable(form)
  {
    if TryParse(doc, orders).Some? { OpenedSaves(doc, orders); }
    if form :| SavesAs(form, doc) && Reopenable(form) { SavedOpens(form, doc, orders); }
  }

  predicate IsFqdnRule(j: J) { Field(j, FQDN_KEY).Some? }

  lemma FqdnTreeKind(r: Rule)
    ensures IsFqdnRule(RuleTree(r, false)) <==> r.kind == FqdnPeer
  {
    RuleFields(r, false);
    assert FQDN_KEY == PeerKey(FqdnPeer, false);
  }

  lemma RiderNamesNone()
    ensures !IsFqdnRule(RIDER)
  {
    PeerKeysDiffer(false);
  }

  lemma NoTreeIsRider(s: Section)
    requires ValidSection(s, false)
    ensures RIDER !in RuleTrees(s.rules, false)
  {
    var trees := RuleTrees(s.rules, false);
    forall i | 0 <= i < |trees| ensures trees[i] != RIDER { RuleIsNoRider(s.rules[i], s.mode); }
  }

  lemma FqdnTrees(s: Section)
    ensures NamesDomains(s) <==> exists j :: j in RuleTrees(s.rules, false) && IsFqdnRule(j)
  {
    var trees := RuleTrees(s.rules, false);
    var namesDomain := (r: Rule) => r.kind == FqdnPeer;
    forall i | 0 <= i < |trees| ensures IsFqdnRule(trees[i]) <==> namesDomain(s.rules[i]) { FqdnTreeKind(s.rules[i]); }
    AnyAlike(trees, s.rules, IsFqdnRule, namesDomain);
    assert forall r :: r in s.rules && namesDomain(r) <==> r in s.rules && r.kind == FqdnPeer;
  }

  /** The rider stands last and nowhere else if some rule names a domain; otherwise it
      stands nowhere. */
  ghost predicate RiderPairsUp(egress: seq<J>) {
    if exists j :: j in egress && IsFqdnRule(j) then egress[|egress| - 1] == RIDER && RIDER !in egress[..|egress| - 1]
    else RIDER !in egress
  }

  lemma RiderStands(s: Section)
    requires ValidSection(s, false)
    ensures RiderPairsUp(SectionTrees(s, false))
  {
    FqdnTrees(s);
    NoTreeIsRider(s);
    RiderNamesNone();
    var egress, trees := SectionTrees(s, false), RuleTrees(s.rules, false);
    if NamesDomains(s) {
      assert egress == trees + [RIDER] && egress[..|trees|] == trees;
    } else {
      assert egress == trees;
    }
  }

  lemma ListedRules(form: Form)
    ensures ListAt(SpecTree(form), "egress") == if form.egress.mode.Whitelist? then SectionTrees(form.egress, false) else []
  {
    SpecSections(form);
    assert Field(SpecTree(form), SectionKey(false, Whitelist)) == Printed(form.egress, false, Whitelist);
  }

  /** In every document that opens, the egress rules carry the rider exactly when some
      rule there names a domain, once and last. */
  lemma RiderOnceAndLast(doc: J, orders: Orders)
    requires AllList(orders) && TryParse(doc, orders).Some?
    ensures RiderPairsUp(ListAt(Field(doc, "spec").value, "egress"))
  {
    OpenedIsNormal(doc, orders);
    var form := TryParse(doc, orders).value;
    ListedRules(form);
    RiderStands(form.egress);
  }

  // --------------------------------------------------- every map can be listed

  ghost predicate IsListing(keys: seq<string>, m: Labels) { Distinct(keys) && forall k :: k in keys <==> k in m }

  ghost predicate Listable(m: Labels) { exists keys :: IsListing(keys, m) }

  lemma {:induction false} KeysListed(m: Labels)
    ensures Listable(m)
    decreases |m|
  {
    if m == map[] {
      assert IsListing([], m);
    } else {
      var k :| k in m;
      KeysListed(m - {k});
      var rest :| IsListing(rest, m - {k});
      assert IsListing(rest + [k], m);
    }
  }

  /** There is an order to list the entries of every map in, in every place. */
  lemma OrdersExist()
    ensures exists orders :: AllList(orders)
  {
    forall m ensures Listable(m) { KeysListed(m); }
    var order: Order := m => assert Listable(m); var keys :| IsListing(keys, m); keys;
    forall m ensures IsListing(order(m), m) { }
    assert Lists(order);
    var orders: Orders := p => order;
    assert AllList(orders);
  }
}
