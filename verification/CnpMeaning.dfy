/** What a network policy does to the traffic of the pods it governs, read off the form
    and, field by field, off the document (web/src/utils/cnpForm.ts). The document a form
    prints is proved to mean what the form says. */
module CnpMeaning {
  import opened Wrappers
  import opened Text
  import opened Sequences
  import opened Json
  import opened CnpForm
  import opened CnpPrinter
  import opened CnpParser
  import opened CnpRoundTrip
  import opened CnpCluster

  /** What is inside a connection: an HTTP request, a DNS query, or something else. */
  datatype Content = Http(verb: string, pathFits: string -> bool) | Dns | Other

  /** One attempt at communication, seen from a governed pod: which way it runs, what the
      other side is, and what is asked of it. The other side's address is a number of 32
      bits, or of 128 when it is IPv6; which number the text of an address stands for, and
      what fits domain and path patterns, are taken as given. */
  datatype Traffic = Traffic(ingress: bool, labels: Labels, entities: set<string>, v6: bool, address: nat, numberOf: string -> nat,
                             domain: string, domainFits: string -> bool, port: string, protocol: string, content: Content)

  function Pow2(n: nat): (r: nat)
    ensures r > 0
  {
    if n == 0 then 1 else 2 * Pow2(n - 1)
  }

  predicate IsAddress(t: Traffic, addr: string) { t.v6 == (':' in addr) && t.address == t.numberOf(addr) }

  /** The leading bits, as many as the prefix says, are the network's. */
  predicate InNetwork(t: Traffic, network: string) {
    match Cut(network, '/')
    case None => false
    case Some((addr, prefix)) =>
      var width := if ':' in addr then 128 else 32;
      && t.v6 == (':' in addr) && AllDigits(prefix) && Value(prefix) <= width
      && var rest := Pow2(width - Value(prefix)); t.address / rest == t.numberOf(addr) / rest
  }

  /** What is typed for an address block: a network, or one address alone. */
  predicate BlockSays(block: string, t: Traffic) {
    if '/' in block then InNetwork(t, block) else IsAddress(t, block)
  }

  /** `Dropped` is default-deny; `Untouched` leaves the traffic to other policies. */
  datatype Verdict = Denied | Allowed | Dropped | Untouched

  // ------------------------------------------------------------ what the form says

  predicate Carries(t: Traffic, want: Labels) {
    forall k :: k in want ==> k in t.labels && t.labels[k] == want[k]
  }

  predicate PeerSays(r: Rule, t: Traffic) {
    match r.kind
    case LabelPeer => Carries(t, PeerLabels(r))
    case EntityPeer => r.entity in t.entities
    case CidrPeer => BlockSays(Tidy(r.cidr), t)
    case FqdnPeer => if '*' in Tidy(r.fqdn) then t.domainFits(Tidy(r.fqdn)) else t.domain == Tidy(r.fqdn)
  }

  predicate PortSays(p: PortEntry, t: Traffic) { t.port == Tidy(p.port) && t.protocol == p.protocol }

  /** A blank method or path asks for nothing. */
  predicate HttpSays(h: HttpRule, t: Traffic) {
    t.content.Http? && (h.verb != "" ==> t.content.verb == h.verb) && (!Blank(h.path) ==> t.content.pathFits(Tidy(h.path)))
  }

  /** No ports are all ports; HTTP entries are alternatives. */
  predicate RuleSays(r: Rule, t: Traffic) {
    && PeerSays(r, t)
    && (r.ports == [] || exists p :: p in r.ports && PortSays(p, t))
    && (r.http == [] || exists h :: h in r.http && HttpSays(h, t))
  }

  predicate IsDnsLookup(t: Traffic) {
    t.content == Dns && t.port == "53" && Carries(t, map["io.kubernetes.pod.namespace" := "kube-system", "k8s-app" := "kube-dns"])
  }

  /** Named traffic is denied by a blacklist and allowed by a whitelist. What is not named
      passes by the former and is dropped by the latter, except that a whitelist with domain
      rules also allows looking domains up. */
  function FormVerdict(form: Form, t: Traffic): Verdict {
    var s := SectionOf(form, t.ingress);
    var named := exists r :: r in s.rules && RuleSays(r, t);
    if s.rules == [] then Untouched
    else if s.mode.Blacklist? then (if named then Denied else Untouched)
    else if named || (!t.ingress && NamesDomains(s) && IsDnsLookup(t)) then Allowed
    else Dropped
  }

  // -------------------------------------------------------- what the document says

  predicate EndpointMatches(e: J, t: Traffic) {
    match MatchLabels(e) case Some(want) => Carries(t, want) case None => false
  }

  predicate EntityMatches(e: J, t: Traffic) { e.Str? && e.s in t.entities }

  predicate NetworkMatches(e: J, t: Traffic) { e.Str? && InNetwork(t, e.s) }

  predicate DomainMatches(e: J, t: Traffic) {
    || (match Field(e, "matchName") case Some(Str(name)) => t.domain == name case _ => false)
    || (match Field(e, "matchPattern") case Some(Str(pattern)) => t.domainFits(pattern) case _ => false)
  }

  predicate PeerMatches(j: J, t: Traffic) {
    if t.ingress then
      || (exists e :: e in ListAt(j, "fromEndpoints") && EndpointMatches(e, t))
      || (exists e :: e in ListAt(j, "fromEntities") && EntityMatches(e, t))
      || (exists e :: e in ListAt(j, "fromCIDR") && NetworkMatches(e, t))
    else
      || (exists e :: e in ListAt(j, "toEndpoints") && EndpointMatches(e, t))
      || (exists e :: e in ListAt(j, "toEntities") && EntityMatches(e, t))
      || (exists e :: e in ListAt(j, "toCIDR") && NetworkMatches(e, t))
      || (exists e :: e in ListAt(j, "toFQDNs") && DomainMatches(e, t))
  }

  predicate PortMatches(p: J, t: Traffic) {
    Field(p, "port") == Some(Str(t.port)) && Field(p, "protocol") in {Some(Str("ANY")), Some(Str(t.protocol))}
  }

  predicate HttpMatches(h: J, t: Traffic) {
    && t.content.Http?
    && (match Field(h, "method") case Some(Str(verb)) => t.content.verb == verb case _ => true)
    && (match Field(h, "path") case Some(Str(path)) => t.content.pathFits(path) case _ => true)
  }

  /** Of DNS patterns, the one that matches every name is understood. */
  predicate DnsMatches(d: J, t: Traffic) { t.content == Dns && Field(d, "matchPattern") == Some(Str("*")) }

  predicate ContentMatches(portRule: J, t: Traffic) {
    match Field(portRule, "rules")
    case None => true
    case Some(rules) =>
      || (exists h :: h in ListAt(rules, "http") && HttpMatches(h, t))
      || (exists d :: d in ListAt(rules, "dns") && DnsMatches(d, t))
  }

  predicate PortRuleMatches(portRule: J, t: Traffic) {
    (exists p :: p in ListAt(portRule, "ports") && PortMatches(p, t)) && ContentMatches(portRule, t)
  }

  predicate RuleMatches(j: J, t: Traffic) {
    && PeerMatches(j, t)
    && (Field(j, "toPorts").None? || exists portRule :: portRule in ListAt(j, "toPorts") && PortRuleMatches(portRule, t))
  }

  predicate AnyMatches(rules: seq<J>, t: Traffic) { exists j :: j in rules && RuleMatches(j, t) }

  /** Deny rules come first; what no rule names is dropped where the endpoint denies by
      default. */
  function DocVerdict(spec: J, t: Traffic): Verdict {
    var (allow, deny) := if t.ingress then ("ingress", "ingressDeny") else ("egress", "egressDeny");
    if AnyMatches(ListAt(spec, deny), t) then Denied
    else if AnyMatches(ListAt(spec, allow), t) then Allowed
    else if DeniesByDefault(spec, allow, deny) then Dropped
    else Untouched
  }

  // --------------------------------------------------------------- they are the same

  lemma OneListed(j: J, key: string, e: J)
    requires Field(j, key) == Some(Arr([e]))
    ensures forall x :: x in ListAt(j, key) <==> x == e
  {
  }

  lemma NoneListed(j: J, key: string)
    requires Field(j, key) == None
    ensures ListAt(j, key) == []
  {
  }

  /** The other side as the one entry under its key says it. */
  predicate EntryMatches(kind: PeerKind, e: J, t: Traffic) {
    match kind
    case LabelPeer => EndpointMatches(e, t)
    case EntityPeer => EntityMatches(e, t)
    case CidrPeer => NetworkMatches(e, t)
    case FqdnPeer => DomainMatches(e, t)
  }

  lemma PeerListed(r: Rule, kind: PeerKind, ingress: bool)
    ensures forall x :: x in ListAt(RuleTree(r, ingress), PeerKey(kind, ingress)) <==> kind == r.kind && x == PeerTree(r)
  {
    RuleFields(r, ingress);
    if kind == r.kind {
      OneListed(RuleTree(r, ingress), PeerKey(kind, ingress), PeerTree(r));
    } else {
      NoneListed(RuleTree(r, ingress), PeerKey(kind, ingress));
    }
  }

  /** A peer that is one entry under one of the four keys. */
  lemma OneEntryMatches(j: J, kind: PeerKind, e: J, t: Traffic)
    requires t.ingress ==> kind != FqdnPeer
    requires forall k, x :: x in ListAt(j, PeerKey(k, t.ingress)) <==> k == kind && x == e
    ensures PeerMatches(j, t) <==> EntryMatches(kind, e, t)
  {
    assert PeerKey(LabelPeer, t.ingress) == (if t.ingress then "fromEndpoints" else "toEndpoints");
    assert PeerKey(EntityPeer, t.ingress) == (if t.ingress then "fromEntities" else "toEntities");
    assert PeerKey(CidrPeer, t.ingress) == (if t.ingress then "fromCIDR" else "toCIDR");
    assert PeerKey(FqdnPeer, t.ingress) == "toFQDNs";
  }

  lemma PeerIsEntry(r: Rule, t: Traffic)
    requires t.ingress ==> r.kind != FqdnPeer
    ensures PeerMatches(RuleTree(r, t.ingress), t) <==> EntryMatches(r.kind, PeerTree(r), t)
  {
    var j := RuleTree(r, t.ingress);
    forall k, x ensures x in ListAt(j, PeerKey(k, t.ingress)) <==> k == r.kind && x == PeerTree(r) { PeerListed(r, k, t.ingress); }
    OneEntryMatches(j, r.kind, PeerTree(r), t);
  }

  lemma DomainMeans(name: string, t: Traffic)
    ensures DomainMatches(FqdnTree(name), t) <==> if '*' in name then t.domainFits(name) else t.domain == name
  {
    assert |"matchName"| == 9 && |"matchPattern"| == 12;
  }

  lemma NetworkMeans(block: string, t: Traffic)
    requires IsCidr(Tidy(block))
    ensures InNetwork(t, NormalizeCidr(block)) <==> BlockSays(Tidy(block), t)
  {
    NormalizedExactly(block);
    var s := Tidy(block);
    if '/' !in s {
      assert Split(s, '/') == [s];
      if IsV4Address(s) { NoColonInV4(s); }
      assert Pow2(0) == 1;
    }
  }

  lemma PeerMeans(r: Rule, mode: Mode, t: Traffic)
    requires ValidPeer(r, t.ingress, mode)
    ensures PeerMatches(RuleTree(r, t.ingress), t) <==> PeerSays(r, t)
  {
    PeerIsEntry(r, t);
    match r.kind
    case LabelPeer => LabelsReopen(PeerLabels(r));
    case CidrPeer => NetworkMeans(r.cidr, t);
    case FqdnPeer => DomainMeans(Tidy(r.fqdn), t);
    case EntityPeer =>
  }

  predicate AnyPort(trees: seq<J>, t: Traffic) { exists j :: j in trees && PortMatches(j, t) }

  predicate AnyHttp(trees: seq<J>, t: Traffic) { exists j :: j in trees && HttpMatches(j, t) }

  lemma PortMeans(p: PortEntry, t: Traffic)
    requires p.protocol != "ANY"
    ensures PortMatches(PortTree(TidyPort(p)), t) <==> PortSays(p, t)
  {
    assert |"port"| == 4 && |"protocol"| == 8;
  }

  lemma PortsMean(ports: seq<PortEntry>, t: Traffic)
    requires forall p :: p in ports ==> HasPort(p) && p.protocol != "ANY"
    ensures AnyPort(Each(TidyPorts(ports), PortTree), t) <==> exists p :: p in ports && PortSays(p, t)
  {
    FilteredAll(ports, HasPort);
    var trees := Each(TidyPorts(ports), PortTree);
    var matches, says := (j: J) => PortMatches(j, t), (p: PortEntry) => PortSays(p, t);
    forall i | 0 <= i < |trees| ensures matches(trees[i]) <==> says(ports[i]) {
      assert ports[i] in ports;
      PortMeans(ports[i], t);
    }
    AnyAlike(trees, ports, matches, says);
    assert forall j :: j in trees && matches(j) <==> j in trees && PortMatches(j, t);
    assert forall p :: p in ports && says(p) <==> p in ports && PortSays(p, t);
  }

  lemma HttpMeans(h: HttpRule, t: Traffic)
    ensures HttpMatches(HttpTree(TidyHttp(h)), t) <==> HttpSays(h, t)
  {
    assert |"method"| == 6 && |"path"| == 4;
  }

  lemma HttpsMean(http: seq<HttpRule>, t: Traffic)
    requires forall h :: h in http ==> SaysSomething(h)
    ensures AnyHttp(Each(TidyHttps(http), HttpTree), t) <==> exists h :: h in http && HttpSays(h, t)
  {
    FilteredAll(http, SaysSomething);
    var trees := Each(TidyHttps(http), HttpTree);
    var matches, says := (j: J) => HttpMatches(j, t), (h: HttpRule) => HttpSays(h, t);
    forall i | 0 <= i < |trees| ensures matches(trees[i]) <==> says(http[i]) { HttpMeans(http[i], t); }
    AnyAlike(trees, http, matches, says);
    assert forall j :: j in trees && matches(j) <==> j in trees && HttpMatches(j, t);
    assert forall h :: h in http && says(h) <==> h in http && HttpSays(h, t);
  }

  lemma ContentListed(ports: seq<PortEntry>, http: seq<HttpRule>, t: Traffic)
    ensures ContentMatches(PortsTree(ports, http), t)
       <==> http == [] || AnyHttp(Each(http, HttpTree), t)
  {
    assert "ports"[0] == 'p' && "rules"[0] == 'r' && |"http"| == 4 && |"dns"| == 3;
    if http != [] {
      var rules := Obj(map["http" := Arr(Each(http, HttpTree))]);
      assert Field(PortsTree(ports, http), "rules") == Some(rules);
      assert ListAt(rules, "http") == Each(http, HttpTree) && ListAt(rules, "dns") == [];
    }
  }

  lemma PortRuleListed(ports: seq<PortEntry>, http: seq<HttpRule>, t: Traffic)
    ensures PortRuleMatches(PortsTree(ports, http), t)
       <==> AnyPort(Each(ports, PortTree), t) && (http == [] || AnyHttp(Each(http, HttpTree), t))
  {
    PortsTreeFields(ports, http);
    ContentListed(ports, http, t);
    assert ListAt(PortsTree(ports, http), "ports") == Each(ports, PortTree);
  }

  predicate PortsSay(r: Rule, t: Traffic) {
    && (exists p :: p in r.ports && PortSays(p, t))
    && (r.http == [] || exists h :: h in r.http && HttpSays(h, t))
  }

  lemma KnownProtocol(protocol: string)
    requires protocol in PROTOCOLS
    ensures protocol != "ANY"
  {
    assert "ANY"[0] == 'A' && PROTOCOLS[0][0] == 'T' && PROTOCOLS[1][0] == 'U' && PROTOCOLS[2][0] == 'S';
  }

  lemma PortRuleMeans(r: Rule, ingress: bool, mode: Mode, t: Traffic)
    requires ValidRule(r, ingress, mode)
    ensures PortRuleMatches(PortsTree(TidyPorts(r.ports), TidyHttps(r.http)), t) <==> PortsSay(r, t)
  {
    PortRuleListed(TidyPorts(r.ports), TidyHttps(r.http), t);
    forall p | p in r.ports ensures HasPort(p) && p.protocol != "ANY" { KnownProtocol(p.protocol); }
    PortsMean(r.ports, t);
    HttpsMean(r.http, t);
    FilteredAll(r.http, SaysSomething);
  }

  /** One rule means the same in the form and in the document. */
  lemma RuleMeans(r: Rule, mode: Mode, t: Traffic)
    requires ValidRule(r, t.ingress, mode)
    ensures RuleMatches(RuleTree(r, t.ingress), t) <==> RuleSays(r, t)
  {
    PeerMeans(r, mode, t);
    RuleFields(r, t.ingress);
    FilteredAll(r.ports, HasPort);
    PortRuleMeans(r, t.ingress, mode, t);
    if r.ports != [] { OneListed(RuleTree(r, t.ingress), PORTS_KEY, PortsTree(TidyPorts(r.ports), TidyHttps(r.http))); }
  }

  lemma RulesMean(s: Section, t: Traffic)
    requires ValidSection(s, t.ingress)
    ensures AnyMatches(RuleTrees(s.rules, t.ingress), t) <==> exists r :: r in s.rules && RuleSays(r, t)
  {
    var trees := RuleTrees(s.rules, t.ingress);
    var matches, says := (j: J) => RuleMatches(j, t), (r: Rule) => RuleSays(r, t);
    forall i | 0 <= i < |trees| ensures matches(trees[i]) <==> says(s.rules[i]) { RuleMeans(s.rules[i], s.mode, t); }
    AnyAlike(trees, s.rules, matches, says);
    assert forall j :: j in trees && matches(j) <==> j in trees && RuleMatches(j, t);
    assert forall r :: r in s.rules && says(r) <==> r in s.rules && RuleSays(r, t);
  }

  lemma RiderPortMeans(t: Traffic)
    ensures PortRuleMatches(RIDER_PORTS, t) <==> t.content == Dns && t.port == "53"
  {
    assert "ports"[0] == 'p' && "rules"[0] == 'r' && |"http"| == 4 && |"dns"| == 3;
    assert ListAt(RIDER_PORTS, "ports") == [PortTree(PortEntry("53", "ANY"))];
    var p := PortTree(PortEntry("53", "ANY"));
    assert p in [p] && Field(p, "port") == Some(Str("53")) && Field(p, "protocol") == Some(Str("ANY"));
    var d := Obj(map["matchPattern" := Str("*")]);
    assert Field(RIDER_PORTS, "rules") == Some(Obj(map["dns" := Arr([d])]));
    assert d in [d] && ListAt(Obj(map["dns" := Arr([d])]), "dns") == [d] && ListAt(Obj(map["dns" := Arr([d])]), "http") == [];
  }

  lemma RiderPeer()
    ensures ListAt(RIDER, "toEndpoints") == [SelectorTree(RIDER_LABELS)]
    ensures ListAt(RIDER, "toEntities") == [] && ListAt(RIDER, "toCIDR") == [] && ListAt(RIDER, "toFQDNs") == []
  {
    PeerKeysDiffer(false);
    assert EndpointsKey(false) == "toEndpoints" && EntitiesKey(false) == "toEntities" && CidrKey(false) == "toCIDR";
    assert RIDER.fields.Keys == {EndpointsKey(false), PORTS_KEY};
  }

  /** The rider lets DNS queries through to the cluster's DNS, and nothing else. */
  lemma RiderMeans(t: Traffic)
    requires !t.ingress
    ensures RuleMatches(RIDER, t) <==> IsDnsLookup(t)
  {
    PeerKeysDiffer(false);
    RiderPorts();
    RiderPortMeans(t);
    LabelsReopen(RIDER_LABELS);
    RiderPeer();
    assert ListAt(RIDER, "toPorts") == [RIDER_PORTS] && RIDER_PORTS in [RIDER_PORTS];
    assert SelectorTree(RIDER_LABELS) in [SelectorTree(RIDER_LABELS)];
  }

  lemma AnyMatchesConcat(a: seq<J>, b: seq<J>, t: Traffic)
    ensures AnyMatches(a + b, t) <==> AnyMatches(a, t) || AnyMatches(b, t)
  {
  }

  lemma SectionMeans(s: Section, t: Traffic)
    requires ValidSection(s, t.ingress)
    ensures AnyMatches(SectionTrees(s, t.ingress), t)
       <==> (exists r :: r in s.rules && RuleSays(r, t))
            || (!t.ingress && s.mode.Whitelist? && NamesDomains(s) && IsDnsLookup(t))
  {
    RulesMean(s, t);
    var trees := RuleTrees(s.rules, t.ingress);
    if !t.ingress && s.mode.Whitelist? && NamesDomains(s) {
      RiderMeans(t);
      AnyMatchesConcat(trees, [RIDER], t);
      assert RIDER in [RIDER];
    } else {
      assert SectionTrees(s, t.ingress) == trees;
    }
  }

  lemma ListMeans(form: Form, mode: Mode, t: Traffic)
    requires Valid(form)
    ensures AnyMatches(ListAt(SpecTree(form), SectionKey(t.ingress, mode)), t)
       <==> mode == SectionOf(form, t.ingress).mode && AnyMatches(SectionTrees(SectionOf(form, t.ingress), t.ingress), t)
  {
    Sections(form, t.ingress, mode);
  }

  /** The printed document decides every traffic as the form says. */
  lemma DocumentMeansForm(form: Form, t: Traffic)
    requires Valid(form)
    ensures DocVerdict(SpecTree(form), t) == FormVerdict(form, t)
  {
    SectionMeans(SectionOf(form, t.ingress), t);
    ListMeans(form, Whitelist, t);
    ListMeans(form, Blacklist, t);
    DeniesExactly(form, t.ingress);
  }

  // ------------------------------------------------------------- the pods it governs

  /** A pod as policies select it: its labels, its namespace among them. */
  datatype Endpoint = Endpoint(namespace: string, labels: Labels)
  {
    predicate Has(want: Labels) {
      forall k :: k in want ==>
        if k == "io.kubernetes.pod.namespace" then namespace == want[k] else k in labels && labels[k] == want[k]
    }
  }

  /** A namespaced policy is about its own namespace, a cluster-wide one about all. */
  predicate FormGoverns(form: Form, pod: Endpoint) {
    (form.scope.ClusterWide? || pod.namespace == Tidy(form.namespace)) && pod.Has(SubjectLabels(form))
  }

  predicate DocGoverns(doc: J, pod: Endpoint) {
    && Field(doc, "apiVersion") == Some(Str("cilium.io/v2"))
    && (|| Field(doc, "kind") == Some(Str("CiliumClusterwideNetworkPolicy"))
        || (Field(doc, "kind") == Some(Str("CiliumNetworkPolicy")) && Get(Field(doc, "metadata"), "namespace") == Some(Str(pod.namespace))))
    && match Get(Field(doc, "spec"), "endpointSelector")
       case None => false
       case Some(selector) => match MatchLabels(selector) case None => false case Some(want) => pod.Has(want)
  }

  function FormEffect(form: Form, pod: Endpoint, t: Traffic): Verdict {
    if FormGoverns(form, pod) then FormVerdict(form, t) else Untouched
  }

  function DocEffect(doc: J, pod: Endpoint, t: Traffic): Verdict {
    match Field(doc, "spec")
    case None => Untouched
    case Some(spec) => if DocGoverns(doc, pod) then DocVerdict(spec, t) else Untouched
  }

  lemma KindsDiffer()
    ensures "CiliumClusterwideNetworkPolicy" != "CiliumNetworkPolicy"
  {
    assert |"CiliumClusterwideNetworkPolicy"| != |"CiliumNetworkPolicy"|;
  }

  lemma DocGovernsAsForm(form: Form, pod: Endpoint)
    requires Valid(form)
    ensures DocGoverns(DocOf(form).value, pod) <==> FormGoverns(form, pod)
  {
    DocFields(form);
    MetadataFields(form);
    SpecRest(form);
    LabelsReopen(SubjectLabels(form));
    KindsDiffer();
  }

  /** The whole document: for every pod of the cluster and all its traffic, it does what
      the form says. */
  lemma PolicyMeansForm(form: Form, pod: Endpoint, t: Traffic)
    requires Valid(form)
    ensures DocEffect(DocOf(form).value, pod, t) == FormEffect(form, pod, t)
  {
    DocFields(form);
    DocGovernsAsForm(form, pod);
    DocumentMeansForm(form, t);
  }
}
