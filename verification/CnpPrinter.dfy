/** The network policy document a form generates (web/src/utils/cnpForm.ts). */
module CnpPrinter {
  import opened Wrappers
  import opened Sequences
  import opened Json
  import opened CnpForm

  const BUILDER_ANNOTATION := "sentinel.io/builder"

  function LabelTree(m: Labels): J { Obj(map k | k in m :: Str(m[k])) }

  function SelectorTree(m: Labels): J { Obj(map["matchLabels" := LabelTree(m)]) }

  function EndpointsKey(ingress: bool): string { if ingress then "fromEndpoints" else "toEndpoints" }

  function EntitiesKey(ingress: bool): string { if ingress then "fromEntities" else "toEntities" }

  function CidrKey(ingress: bool): string { if ingress then "fromCIDR" else "toCIDR" }

  const FQDN_KEY := "toFQDNs"
  const PORTS_KEY := "toPorts"

  function PeerKey(kind: PeerKind, ingress: bool): string {
    match kind
    case LabelPeer => EndpointsKey(ingress)
    case EntityPeer => EntitiesKey(ingress)
    case CidrPeer => CidrKey(ingress)
    case FqdnPeer => FQDN_KEY
  }

  /** A wildcard makes a name a pattern. */
  function FqdnTree(name: string): J {
    Obj(if '*' in name then map["matchPattern" := Str(name)] else map["matchName" := Str(name)])
  }

  function PeerTree(r: Rule): J {
    match r.kind
    case LabelPeer => SelectorTree(PeerLabels(r))
    case EntityPeer => Str(r.entity)
    case CidrPeer => Str(NormalizeCidr(r.cidr))
    case FqdnPeer => FqdnTree(Tidy(r.fqdn))
  }

  function PortTree(p: PortEntry): J { Obj(map["port" := Str(p.port), "protocol" := Str(p.protocol)]) }

  /** A string that is left out when it is empty. */
  function OptionalStr(fields: map<string, J>, key: string, s: string): map<string, J> {
    if s == "" then fields else fields[key := Str(s)]
  }

  function HttpTree(h: HttpRule): J { Obj(OptionalStr(OptionalStr(map[], "method", h.verb), "path", h.path)) }

  function PortsTree(ports: seq<PortEntry>, http: seq<HttpRule>): J {
    var listed := Arr(Each(ports, PortTree));
    Obj(if http == [] then map["ports" := listed]
        else map["ports" := listed, "rules" := Obj(map["http" := Arr(Each(http, HttpTree))])])
  }

  function RuleTree(r: Rule, ingress: bool): J {
    var peer := map[PeerKey(r.kind, ingress) := Arr([PeerTree(r)])];
    var ports := TidyPorts(r.ports);
    Obj(if ports == [] then peer else peer[PORTS_KEY := Arr([PortsTree(ports, TidyHttps(r.http))])])
  }

  /** What lets Cilium see the DNS answers its FQDN rules depend on. */
  const RIDER_LABELS: Labels := map[NAMESPACE_KEY := "kube-system", "k8s-app" := "kube-dns"]
  const RIDER_PORTS: J := Obj(map[
    "ports" := Arr([PortTree(PortEntry("53", "ANY"))]),
    "rules" := Obj(map["dns" := Arr([Obj(map["matchPattern" := Str("*")])])])])
  const RIDER: J := Obj(map[EndpointsKey(false) := Arr([SelectorTree(RIDER_LABELS)]), PORTS_KEY := Arr([RIDER_PORTS])])

  predicate NamesDomains(s: Section) { exists r :: r in s.rules && r.kind == FqdnPeer }

  function RuleTrees(rules: seq<Rule>, ingress: bool): (r: seq<J>)
    ensures |r| == |rules| && forall i :: 0 <= i < |rules| ==> r[i] == RuleTree(rules[i], ingress)
  {
    seq(|rules|, i requires 0 <= i < |rules| => RuleTree(rules[i], ingress))
  }

  function SectionTrees(s: Section, ingress: bool): seq<J> {
    RuleTrees(s.rules, ingress) + if !ingress && s.mode.Whitelist? && NamesDomains(s) then [RIDER] else []
  }

  function SectionKey(ingress: bool, mode: Mode): string {
    if mode.Whitelist? then (if ingress then "ingress" else "egress") else (if ingress then "ingressDeny" else "egressDeny")
  }

  function SectionOf(form: Form, ingress: bool): Section { if ingress then form.ingress else form.egress }

  /** A section without rules is left out: written empty it would switch the endpoint
      to default-deny. */
  function WithSection(fields: map<string, J>, s: Section, ingress: bool): map<string, J> {
    if s.rules == [] then fields else fields[SectionKey(ingress, s.mode) := Arr(SectionTrees(s, ingress))]
  }

  predicate Denies(s: Section) { s.rules != [] && s.mode.Blacklist? }

  /** Deny rules must not switch their direction to default-deny. */
  function DenyOff(form: Form): map<string, J> {
    var fields: map<string, J> := if Denies(form.ingress) then map["ingress" := Bool(false)] else map[];
    if Denies(form.egress) then fields["egress" := Bool(false)] else fields
  }

  function SpecTree(form: Form): J {
    var fields := OptionalStr(map["endpointSelector" := SelectorTree(SubjectLabels(form))], "description", Tidy(form.comment));
    var both := WithSection(WithSection(fields, form.ingress, true), form.egress, false);
    Obj(if DenyOff(form) == map[] then both else both["enableDefaultDeny" := Obj(DenyOff(form))])
  }

  function MetadataTree(form: Form): J {
    var fields := map["name" := Str(Tidy(form.name)), "annotations" := Obj(map[BUILDER_ANNOTATION := Str("true")])];
    Obj(if form.scope.ClusterWide? then fields else fields["namespace" := Str(Tidy(form.namespace))])
  }

  function KindOf(scope: Scope): string {
    if scope.ClusterWide? then "CiliumClusterwideNetworkPolicy" else "CiliumNetworkPolicy"
  }

  /** Nothing is generated while the form is not valid. */
  function DocOf(form: Form): Option<J> {
    if !Valid(form) then None
    else Some(Obj(map["apiVersion" := Str("cilium.io/v2"), "kind" := Str(KindOf(form.scope)),
                      "metadata" := MetadataTree(form), "spec" := SpecTree(form)]))
  }

  // ----------------------------------------------------- what a document holds where

  lemma PeerKeysDiffer(ingress: bool)
    ensures EndpointsKey(ingress) != EntitiesKey(ingress) && EndpointsKey(ingress) != CidrKey(ingress)
    ensures EntitiesKey(ingress) != CidrKey(ingress)
    ensures FQDN_KEY !in {EndpointsKey(ingress), EntitiesKey(ingress), CidrKey(ingress), PORTS_KEY}
    ensures PORTS_KEY !in {EndpointsKey(ingress), EntitiesKey(ingress), CidrKey(ingress)}
  {
    assert |EndpointsKey(ingress)| == (if ingress then 13 else 11) && |EntitiesKey(ingress)| == (if ingress then 12 else 10);
    assert |CidrKey(ingress)| == (if ingress then 8 else 6) && |FQDN_KEY| == 7 && |PORTS_KEY| == 7;
    assert FQDN_KEY[2] == 'F' && PORTS_KEY[2] == 'P';
  }

  /** A rule has its peer under one key and its ports, if any, under another. */
  lemma RuleFields(r: Rule, ingress: bool)
    ensures forall kind :: Field(RuleTree(r, ingress), PeerKey(kind, ingress)) == if kind == r.kind then Some(Arr([PeerTree(r)])) else None
    ensures Field(RuleTree(r, ingress), PORTS_KEY)
         == if TidyPorts(r.ports) == [] then None else Some(Arr([PortsTree(TidyPorts(r.ports), TidyHttps(r.http))]))
  {
    PeerKeysDiffer(ingress);
  }

  lemma SectionKeysDiffer()
    ensures forall i, m, j, n :: SectionKey(i, m) == SectionKey(j, n) ==> i == j && m == n
    ensures forall i, m :: SectionKey(i, m) !in {"endpointSelector", "description", "enableDefaultDeny"}
    ensures "endpointSelector" !in {"description", "enableDefaultDeny"} && "description" != "enableDefaultDeny"
  {
    assert |"endpointSelector"| == 16 && |"description"| == 11 && |"enableDefaultDeny"| == 17;
    assert |SectionKey(true, Whitelist)| == 7 && |SectionKey(false, Whitelist)| == 6;
    assert |SectionKey(true, Blacklist)| == 11 && |SectionKey(false, Blacklist)| == 10;
    assert SectionKey(true, Blacklist)[0] == 'i' && "description"[0] == 'd';
  }

  /** What stands under a section's key. */
  function Printed(s: Section, ingress: bool, mode: Mode): Option<J> {
    if s.rules != [] && s.mode == mode then Some(Arr(SectionTrees(s, ingress))) else None
  }

  lemma SpecSections(form: Form)
    ensures forall i, mode :: Field(SpecTree(form), SectionKey(i, mode)) == Printed(SectionOf(form, i), i, mode)
  {
    SectionKeysDiffer();
  }

  lemma SpecRest(form: Form)
    ensures Field(SpecTree(form), "endpointSelector") == Some(SelectorTree(SubjectLabels(form)))
    ensures Field(SpecTree(form), "description") == if Blank(form.comment) then None else Some(Str(Tidy(form.comment)))
    ensures Field(SpecTree(form), "enableDefaultDeny") == if DenyOff(form) == map[] then None else Some(Obj(DenyOff(form)))
  {
    SectionKeysDiffer();
  }

  lemma DocKeysDiffer()
    ensures "kind" !in {"metadata", "spec", "specs", "apiVersion"}
    ensures "metadata" !in {"spec", "specs", "apiVersion"}
    ensures "spec" !in {"specs", "apiVersion"} && "specs" != "apiVersion"
  {
    assert |"kind"| == 4 && |"metadata"| == 8 && |"spec"| == 4 && |"specs"| == 5 && |"apiVersion"| == 10;
    assert "kind"[0] == 'k' && "spec"[0] == 's';
  }

  lemma FourFields(version: J, kind: J, metadata: J, spec: J)
    ensures var doc := Obj(map["apiVersion" := version, "kind" := kind, "metadata" := metadata, "spec" := spec]);
            && Field(doc, "kind") == Some(kind) && Field(doc, "metadata") == Some(metadata)
            && Field(doc, "spec") == Some(spec) && Field(doc, "specs") == None && Field(doc, "apiVersion") == Some(version)
  {
    DocKeysDiffer();
  }

  lemma FourKeys(version: J, kind: J, metadata: J, spec: J)
    ensures var fields := map["apiVersion" := version, "kind" := kind, "metadata" := metadata, "spec" := spec];
            && fields.Keys == {"apiVersion", "kind", "metadata", "spec"}
            && fields["apiVersion"] == version && fields["kind"] == kind && fields["metadata"] == metadata
  {
    DocKeysDiffer();
  }

  /** The fields of a document, and no others; its kind is the form's scope. */
  lemma DocHeader(form: Form)
    requires Valid(form)
    ensures var doc := DocOf(form).value;
            && doc.Obj? && doc.fields.Keys == {"apiVersion", "kind", "metadata", "spec"}
            && doc.fields["apiVersion"] == Str("cilium.io/v2")
            && (doc.fields["kind"] == Str("CiliumNetworkPolicy") <==> form.scope.Namespaced?)
            && (doc.fields["kind"] == Str("CiliumClusterwideNetworkPolicy") <==> form.scope.ClusterWide?)
            && doc.fields["metadata"] == MetadataTree(form)
  {
    FourKeys(Str("cilium.io/v2"), Str(KindOf(form.scope)), MetadataTree(form), SpecTree(form));
    assert |"CiliumClusterwideNetworkPolicy"| != |"CiliumNetworkPolicy"|;
  }

  lemma DocFields(form: Form)
    requires Valid(form)
    ensures var doc := DocOf(form).value;
            && Field(doc, "apiVersion") == Some(Str("cilium.io/v2"))
            && Field(doc, "kind") == Some(Str(KindOf(form.scope)))
            && Field(doc, "metadata") == Some(MetadataTree(form))
            && Field(doc, "spec") == Some(SpecTree(form))
            && Field(doc, "specs") == None
  {
    FourFields(Str("cilium.io/v2"), Str(KindOf(form.scope)), MetadataTree(form), SpecTree(form));
  }

  /** The name and namespace of the form, trimmed, and the mark of the form's making. */
  lemma MetadataFields(form: Form)
    ensures var meta := MetadataTree(form);
            && Field(meta, "name") == Some(Str(Tidy(form.name)))
            && Field(meta, "namespace") == (if form.scope.ClusterWide? then None else Some(Str(Tidy(form.namespace))))
            && Field(meta, "annotations") == Some(Obj(map["sentinel.io/builder" := Str("true")]))
            && Field(meta, "labels") == None
  {
    assert |"name"| == 4 && |"annotations"| == 11 && |"namespace"| == 9 && |"labels"| == 6;
  }
}
