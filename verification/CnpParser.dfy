/** Reopening a network policy document in the form (web/src/utils/cnpForm.ts). Only a
    document whose spec the form would generate again is opened. Where the source would
    fail on a value of the wrong type, the document counts as not opened. */
module CnpParser {
  import opened Wrappers
  import opened Sequences
  import opened Json
  import opened Text
  import opened CnpForm
  import opened CnpPrinter

  /** The one element of a list field. */
  function Single(j: J, key: string): Option<J> {
    match Field(j, key)
    case Some(Arr(items)) => if |items| == 1 then Some(items[0]) else None
    case _ => None
  }

  function LabelsIn(j: J): Option<Labels> {
    if j.Obj? && forall k :: k in j.fields ==> j.fields[k].Str? then Some(map k | k in j.fields :: j.fields[k].s) else None
  }

  function MatchLabels(selector: J): Option<Labels> {
    match Field(selector, "matchLabels") case Some(j) => LabelsIn(j) case None => None
  }

  /** A string field; absent or null reads as empty. */
  function StringAt(j: J, key: string): Option<string> {
    match Field(j, key)
    case None => Some("")
    case Some(Null) => Some("")
    case Some(Str(s)) => Some(s)
    case _ => None
  }

  function FqdnIn(j: J): Option<string> {
    if !j.Obj? then None
    else
      match Field(j, "matchName")
      case Some(Str(s)) => Some(s)
      case Some(Null) => StringAt(j, "matchPattern")
      case None => StringAt(j, "matchPattern")
      case _ => None
  }

  function LabelRule(m: Labels, order: Order): Rule
    requires Lists(order)
  {
    EMPTY_RULE.(labels := ToLabelPairs(Unlifted(m), order), namespace := Lifted(m))
  }

  function LabelPeerFrom(endpoint: J, order: Order): Option<Rule>
    requires Lists(order)
  {
    match MatchLabels(endpoint)
    case None => None
    case Some(m) => if m == map[] then None else Some(LabelRule(m, order))
  }

  function FqdnPeerFrom(f: J): Option<Rule> {
    match FqdnIn(f)
    case None => None
    case Some(name) => if name == "" then None else Some(EMPTY_RULE.(kind := FqdnPeer, fqdn := name))
  }

  /** The peer of a rule: the first of its forms that has exactly one entry. */
  function ParsePeer(cr: J, ingress: bool, order: Order): Option<Rule>
    requires Lists(order)
  {
    match Single(cr, EndpointsKey(ingress))
    case Some(endpoint) => LabelPeerFrom(endpoint, order)
    case None =>
      match Single(cr, EntitiesKey(ingress))
      case Some(e) => if e.Str? then Some(EMPTY_RULE.(kind := EntityPeer, entity := e.s)) else None
      case None =>
        match Single(cr, CidrKey(ingress))
        case Some(c) => if c.Str? then Some(EMPTY_RULE.(kind := CidrPeer, cidr := c.s)) else None
        case None =>
          if ingress then None
          else
            match Single(cr, FQDN_KEY) case None => None case Some(f) => FqdnPeerFrom(f)
  }

  function ParsePort(j: J): Option<PortEntry> {
    match (Field(j, "port"), Field(j, "protocol"))
    case (Some(Str(port)), Some(Str(protocol))) => Some(PortEntry(port, protocol))
    case _ => None
  }

  function ParseHttp(j: J): Option<HttpRule> {
    if !j.Obj? then None
    else
      match (StringAt(j, "method"), StringAt(j, "path"))
      case (Some(verb), Some(path)) => Some(HttpRule(verb, path))
      case _ => None
  }

  /** Every element has to parse. */
  function ParseAll<T>(items: seq<J>, parse: J -> Option<T>): Option<seq<T>> {
    if items == [] then Some([])
    else
      match (ParseAll(items[..|items| - 1], parse), parse(items[|items| - 1]))
      case (Some(init), Some(last)) => Some(init + [last])
      case _ => None
  }

  /** A list field; absent or null reads as empty. */
  function ItemsAt(j: J, key: string): Option<seq<J>> {
    match Field(j, key)
    case None => Some([])
    case Some(Null) => Some([])
    case Some(Arr(items)) => Some(items)
    case _ => None
  }

  function HttpItems(portRule: J): Option<seq<J>> {
    match Field(portRule, "rules") case Some(rules) => ItemsAt(rules, "http") case None => Some([])
  }

  function ParsePorts(portRule: J): Option<(seq<PortEntry>, seq<HttpRule>)> {
    match (ItemsAt(portRule, "ports"), HttpItems(portRule))
    case (Some(ports), Some(http)) => (
      match (ParseAll(ports, ParsePort), ParseAll(http, ParseHttp))
      case (Some(p), Some(h)) => Some((p, h))
      case _ => None)
    case _ => None
  }

  function ParseRule(cr: J, ingress: bool, order: Order): Option<Rule>
    requires Lists(order)
  {
    match ParsePeer(cr, ingress, order)
    case None => None
    case Some(r) =>
      if Field(cr, PORTS_KEY).None? then Some(r)
      else
        match Single(cr, PORTS_KEY)
        case None => None
        case Some(portRule) =>
          match ParsePorts(portRule)
          case None => None
          case Some((ports, http)) => Some(r.(ports := ports, http := http))
  }

  predicate IsRider(cr: J, ingress: bool) { !ingress && cr == RIDER }

  /** What the items parse to, by position, leaving out those to skip. */
  function Gathered<T>(items: seq<J>, skip: J -> bool, parse: (nat, J) -> Option<T>): Option<seq<T>> {
    if items == [] then Some([])
    else
      var n := |items| - 1;
      match Gathered(items[..n], skip, parse)
      case None => None
      case Some(init) =>
        if skip(items[n]) then Some(init)
        else match parse(n, items[n]) case None => None case Some(x) => Some(init + [x])
  }

  function RiderSkip(ingress: bool): J -> bool { cr => IsRider(cr, ingress) }

  function RuleParse(ingress: bool, orders: Orders): (nat, J) -> Option<Rule>
    requires AllList(orders)
  {
    (i: nat, cr: J) => ParseRule(cr, ingress, orders(Peer(ingress, i)))
  }

  /** The rules of a section; the DNS rider is not shown. */
  function ParseRules(items: seq<J>, ingress: bool, orders: Orders): Option<seq<Rule>>
    requires AllList(orders)
  {
    Gathered(items, RiderSkip(ingress), RuleParse(ingress, orders))
  }

  /** One direction: an allow section or a deny section, not both. */
  function ParseSection(spec: J, ingress: bool, orders: Orders): Option<Section>
    requires AllList(orders)
  {
    match (Field(spec, SectionKey(ingress, Whitelist)), Field(spec, SectionKey(ingress, Blacklist)))
    case (Some(Arr(_)), Some(Arr(_))) => None
    case (Some(Arr(items)), _) => SectionFrom(Whitelist, items, ingress, orders)
    case (_, Some(Arr(items))) => SectionFrom(Blacklist, items, ingress, orders)
    case _ => Some(EMPTY_SECTION)
  }

  function SectionFrom(mode: Mode, items: seq<J>, ingress: bool, orders: Orders): Option<Section>
    requires AllList(orders)
  {
    if items == [] then None
    else match ParseRules(items, ingress, orders) case None => None case Some(rules) => Some(Section(mode, rules))
  }

  /** Everything the form takes from the spec. */
  function ParseSpec(spec: J, scope: Scope, orders: Orders): Option<Form>
    requires AllList(orders)
  {
    match Field(spec, "endpointSelector")
    case None => None
    case Some(selector) =>
      match MatchLabels(selector)
      case None => None
      case Some(m) =>
        if m == map[] || (scope.Namespaced? && Lifted(m) != "") then None
        else
          match (ParseSection(spec, true, orders), ParseSection(spec, false, orders))
          case (Some(ingress), Some(egress)) =>
            if ingress.rules + egress.rules == [] then None
            else Some(Form("", scope, "", DescriptionIn(spec), ToLabelPairs(Unlifted(m), orders(Subject)), Lifted(m), ingress, egress))
          case _ => None
  }

  function DescriptionIn(spec: J): string {
    match Field(spec, "description") case Some(Str(s)) => s case _ => ""
  }

  function Get(j: Option<J>, key: string): Option<J> {
    match j case Some(v) => Field(v, key) case None => None
  }

  /** What String() makes the text `true` of. */
  predicate IsTrue(j: J) {
    j == Str("true") || j == Bool(true) || (j.Arr? && |j.items| == 1 && IsTrue(j.items[0]))
  }

  /** Whether Object.keys lists anything. */
  predicate HasKeys(j: J) {
    match j
    case Obj(fields) => fields != map[]
    case Arr(items) => items != []
    case Str(s) => s != ""
    case _ => false
  }

  function ScopeIn(doc: J): Option<Scope> {
    if Field(doc, "kind") == Some(Str("CiliumClusterwideNetworkPolicy")) then Some(ClusterWide)
    else if Field(doc, "kind") == Some(Str("CiliumNetworkPolicy")) then Some(Namespaced)
    else None
  }

  /** A document of the form's making, to be opened if its spec is one. */
  predicate Marked(doc: J) {
    var meta := Field(doc, "metadata");
    var mark := Get(Get(meta, "annotations"), BUILDER_ANNOTATION);
    && mark.Some? && IsTrue(mark.value)
    && Field(doc, "specs").None?
    && (Get(meta, "labels").Some? ==> !HasKeys(Get(meta, "labels").value))
  }

  function NameIn(doc: J, key: string): Option<string> {
    match Field(doc, "metadata") case None => Some("") case Some(meta) => StringAt(meta, key)
  }

  function ParseForm(doc: J, orders: Orders): Option<Form>
    requires AllList(orders)
  {
    match (ScopeIn(doc), Field(doc, "spec"))
    case (Some(scope), Some(spec)) => (
      if !Marked(doc) then None
      else
        var namespaceIn := if scope.ClusterWide? then Some("") else NameIn(doc, "namespace");
        match (ParseSpec(spec, scope, orders), NameIn(doc, "name"), namespaceIn)
        case (Some(form), Some(name), Some(namespace)) => Some(form.(name := name, namespace := namespace))
        case _ => None)
    case _ => None
  }

  /** The form a document reopens in: one that generates the same spec. */
  function TryParse(doc: J, orders: Orders): Option<Form>
    requires AllList(orders)
  {
    match ParseForm(doc, orders)
    case None => None
    case Some(form) =>
      if DocOf(form).Some? && Field(DocOf(form).value, "spec") == Field(doc, "spec") then Some(form) else None
  }
}
