/** The topology graph (internal/handler/topology.go): buffered entries folded into at
    most one drawn edge per pair of endpoints, with one verdict. The fold is proved for
    any way of placing entries on endpoints, then used with the handler's own. */
module Topology {
  import opened Wrappers
  import opened Sequences
  import opened Text
  import opened Clock
  import opened TopologyBuffer

  const DENIAL_STILL_LIVE := 2 * MINUTE

  datatype Node = Node(id: string, caption: string, kind: string, viaNode: string)

  datatype EdgeKey = EdgeKey(src: string, dst: string, blocked: bool)

  /** What an edge accumulates. Fields that depend on the order of the entries (the
      destination address, the policy named first, the L7 details) are left out. */
  datatype EdgeVal = EdgeVal(count: int, healthProbe: bool, lastSeen: int, ports: map<string, int>)

  /** Where an entry goes in the graph. */
  datatype Placed = Placed(src: Node, dst: Node, blocked: bool, port: string, probe: bool)
  {
    function Key(): EdgeKey { EdgeKey(src.id, dst.id, blocked) }
  }

  type Placing = Entry -> Option<Placed>

  // ---------------------------------------------------------------- aggregation

  const NO_EDGE := EdgeVal(0, false, 0, map[])

  function AddPort(ports: map<string, int>, port: string, n: int): map<string, int> {
    if port == "" then ports else ports[port := (if port in ports then ports[port] else 0) + n]
  }

  function Grown(ev: EdgeVal, p: Placed, e: Entry): EdgeVal {
    EdgeVal(ev.count + e.count, ev.healthProbe || p.probe,
            if e.lastSeen > ev.lastSeen then e.lastSeen else ev.lastSeen, AddPort(ev.ports, p.port, e.count))
  }

  type Edges = map<EdgeKey, EdgeVal>

  function Absorbed(edges: Edges, placed: Option<Placed>, e: Entry): Edges {
    match placed
    case None => edges
    case Some(p) => edges[p.Key() := Grown(if p.Key() in edges then edges[p.Key()] else NO_EDGE, p, e)]
  }

  function Aggregated(place: Placing, entries: seq<Entry>): Edges {
    if entries == [] then map[]
    else
      var e := entries[|entries| - 1];
      Absorbed(Aggregated(place, entries[..|entries| - 1]), place(e), e)
  }

  ghost predicate Feeds(place: Placing, e: Entry, key: EdgeKey) {
    place(e).Some? && place(e).value.Key() == key
  }

  ghost function CountWeight(place: Placing, key: EdgeKey): Entry -> int {
    e => if Feeds(place, e, key) then e.count else 0
  }

  ghost function PortWeight(place: Placing, key: EdgeKey, port: string): Entry -> int {
    e => if Feeds(place, e, key) && place(e).value.port == port then e.count else 0
  }

  ghost function TimeWeight(place: Placing, key: EdgeKey): Entry -> int {
    e => if Feeds(place, e, key) then e.lastSeen else 0
  }

  /** An edge holds the sums over the entries that feed it. */
  ghost predicate IsAggregate(place: Placing, entries: seq<Entry>, key: EdgeKey, ev: EdgeVal) {
    && ev.count == Sum(entries, CountWeight(place, key))
    && ev.lastSeen == Peak(entries, TimeWeight(place, key))
    && (ev.healthProbe <==> exists e :: e in entries && Feeds(place, e, key) && place(e).value.probe)
    && (forall port :: port in ev.ports <==>
          port != "" && exists e :: e in entries && Feeds(place, e, key) && place(e).value.port == port)
    && (forall port :: port in ev.ports ==> ev.ports[port] == Sum(entries, PortWeight(place, key, port)))
  }

  lemma UnfedStays(place: Placing, init: seq<Entry>, e: Entry, key: EdgeKey, ev: EdgeVal)
    requires IsAggregate(place, init, key, ev) && !Feeds(place, e, key)
    ensures IsAggregate(place, init + [e], key, ev)
  {
    var all := init + [e];
    assert all[..|init|] == init;
    SumAppend(init, e, CountWeight(place, key));
    forall port ensures Sum(all, PortWeight(place, key, port)) == Sum(init, PortWeight(place, key, port)) {
      SumAppend(init, e, PortWeight(place, key, port));
    }
    PeakIsBound(init, TimeWeight(place, key));
  }

  lemma FedPorts(place: Placing, init: seq<Entry>, e: Entry, key: EdgeKey, ev: EdgeVal, port: string)
    requires IsAggregate(place, init, key, ev) && Feeds(place, e, key)
    ensures var ports := AddPort(ev.ports, place(e).value.port, e.count);
            port in ports ==> ports[port] == Sum(init + [e], PortWeight(place, key, port))
  {
    SumAppend(init, e, PortWeight(place, key, port));
    if port !in ev.ports && port != "" { UnportedIsZero(place, init, key, port); }
  }

  lemma FedGrows(place: Placing, init: seq<Entry>, e: Entry, key: EdgeKey, ev: EdgeVal)
    requires IsAggregate(place, init, key, ev) && Feeds(place, e, key)
    ensures IsAggregate(place, init + [e], key, Grown(ev, place(e).value, e))
  {
    var all, ev' := init + [e], Grown(ev, place(e).value, e);
    assert all[..|init|] == init;
    SumAppend(init, e, CountWeight(place, key));
    forall port | port in ev'.ports ensures ev'.ports[port] == Sum(all, PortWeight(place, key, port)) {
      FedPorts(place, init, e, key, ev, port);
    }
    assert forall x :: x in all <==> x in init || x == e;
  }

  lemma {:induction false} UnportedIsZero(place: Placing, entries: seq<Entry>, key: EdgeKey, port: string)
    requires !exists e :: e in entries && Feeds(place, e, key) && place(e).value.port == port
    ensures Sum(entries, PortWeight(place, key, port)) == 0
  {
    if entries != [] {
      assert entries[0] in entries && forall x :: x in entries[1..] ==> x in entries;
      UnportedIsZero(place, entries[1..], key, port);
    }
  }

  lemma {:induction false} UnfedIsEmpty(place: Placing, entries: seq<Entry>, key: EdgeKey)
    requires forall e :: e in entries ==> !Feeds(place, e, key)
    ensures IsAggregate(place, entries, key, NO_EDGE)
  {
    if entries != [] {
      var init, e := entries[..|entries| - 1], entries[|entries| - 1];
      assert entries == init + [e];
      UnfedIsEmpty(place, init, key);
      UnfedStays(place, init, e, key, NO_EDGE);
    }
  }

  /** An edge exists exactly when some entry feeds it, and holds exactly their sums. */
  lemma {:induction false} AggregatedExactly(place: Placing, entries: seq<Entry>, key: EdgeKey)
    ensures key in Aggregated(place, entries) <==> exists e :: e in entries && Feeds(place, e, key)
    ensures key in Aggregated(place, entries) ==> IsAggregate(place, entries, key, Aggregated(place, entries)[key])
  {
    if entries != [] {
      var init, e := entries[..|entries| - 1], entries[|entries| - 1];
      assert entries == init + [e];
      AggregatedExactly(place, init, key);
      var edges := Aggregated(place, init);
      if Feeds(place, e, key) {
        if key !in edges { UnfedIsEmpty(place, init, key); }
        FedGrows(place, init, e, key, if key in edges then edges[key] else NO_EDGE);
      } else if key in edges {
        UnfedStays(place, init, e, key, edges[key]);
      }
    }
  }

  lemma AggregateUnique(place: Placing, entries: seq<Entry>, key: EdgeKey, a: EdgeVal, b: EdgeVal)
    requires IsAggregate(place, entries, key, a) && IsAggregate(place, entries, key, b)
    ensures a == b
  {
  }

  lemma AggregatePermutation(place: Placing, a: seq<Entry>, b: seq<Entry>, key: EdgeKey, ev: EdgeVal)
    requires multiset(a) == multiset(b) && IsAggregate(place, a, key, ev)
    ensures IsAggregate(place, b, key, ev)
  {
    SameMembers(a, b);
    SumPermutation(a, b, CountWeight(place, key));
    PeakPermutation(a, b, TimeWeight(place, key));
    forall port ensures Sum(a, PortWeight(place, key, port)) == Sum(b, PortWeight(place, key, port)) {
      SumPermutation(a, b, PortWeight(place, key, port));
    }
  }

  /** The order of the entries, which the buffer does not fix, makes no difference. */
  lemma AggregatedAnyOrder(place: Placing, a: seq<Entry>, b: seq<Entry>)
    requires multiset(a) == multiset(b)
    ensures Aggregated(place, a) == Aggregated(place, b)
  {
    SameMembers(a, b);
    var x, y := Aggregated(place, a), Aggregated(place, b);
    forall key ensures key in x <==> key in y {
      AggregatedExactly(place, a, key);
      AggregatedExactly(place, b, key);
    }
    forall key | key in x ensures x[key] == y[key] {
      AggregatedExactly(place, a, key);
      AggregatedExactly(place, b, key);
      AggregatePermutation(place, a, b, key, x[key]);
      AggregateUnique(place, b, key, x[key], y[key]);
    }
  }

  // ------------------------------------------------------------ one verdict a pair

  function SeenOn(edges: Edges, key: EdgeKey): int {
    if key in edges then edges[key].lastSeen else 0
  }

  /** A denial still arriving wins; one that has stopped gives way to newer traffic. */
  function ShowBlocked(edges: Edges, src: string, dst: string, now: int): bool {
    var blocked, allowed := SeenOn(edges, EdgeKey(src, dst, true)), SeenOn(edges, EdgeKey(src, dst, false));
    blocked != 0 && (now - blocked < DENIAL_STILL_LIVE || allowed <= blocked)
  }

  function Drawn(edges: Edges, now: int): Edges {
    map k | k in edges && k.blocked == ShowBlocked(edges, k.src, k.dst, now) :: edges[k]
  }

  ghost predicate Connects(place: Placing, e: Entry, src: string, dst: string) {
    place(e).Some? && place(e).value.src.id == src && place(e).value.dst.id == dst
  }

  /** A drop was seen, and it is under two minutes old or no allowed flow is newer. */
  ghost predicate DenialStands(place: Placing, entries: seq<Entry>, src: string, dst: string, now: int) {
    exists d :: d in entries && Feeds(place, d, EdgeKey(src, dst, true)) &&
      (|| now - d.lastSeen < DENIAL_STILL_LIVE
       || forall a :: a in entries && Feeds(place, a, EdgeKey(src, dst, false)) ==> a.lastSeen <= d.lastSeen)
  }

  lemma SeenOnExactly(place: Placing, entries: seq<Entry>, key: EdgeKey)
    requires forall e :: e in entries ==> e.lastSeen > 0
    ensures var t := SeenOn(Aggregated(place, entries), key);
            && (forall e :: e in entries && Feeds(place, e, key) ==> e.lastSeen <= t)
            && (if exists e :: e in entries && Feeds(place, e, key)
                then exists e :: e in entries && Feeds(place, e, key) && e.lastSeen == t else t == 0)
  {
    AggregatedExactly(place, entries, key);
    PeakIsBound(entries, TimeWeight(place, key));
    if e :| e in entries && Feeds(place, e, key) {
      assert TimeWeight(place, key)(e) == e.lastSeen;
      var top :| top in entries && TimeWeight(place, key)(top) == Peak(entries, TimeWeight(place, key));
      assert Feeds(place, top, key);
      forall x | x in entries && Feeds(place, x, key) ensures x.lastSeen <= Peak(entries, TimeWeight(place, key)) {
        assert TimeWeight(place, key)(x) == x.lastSeen;
      }
    }
  }

  lemma ShowBlockedExactly(place: Placing, entries: seq<Entry>, src: string, dst: string, now: int)
    requires forall e :: e in entries ==> e.lastSeen > 0
    ensures ShowBlocked(Aggregated(place, entries), src, dst, now) <==> DenialStands(place, entries, src, dst, now)
  {
    SeenOnExactly(place, entries, EdgeKey(src, dst, true));
    SeenOnExactly(place, entries, EdgeKey(src, dst, false));
  }

  /** Every pair with an entry is drawn by exactly one edge, every other by none, and
      the edge is blocked exactly when the denial stands. */
  lemma OneEdgePerPair(place: Placing, entries: seq<Entry>, src: string, dst: string, now: int, blocked: bool)
    requires forall e :: e in entries ==> e.lastSeen > 0
    ensures EdgeKey(src, dst, blocked) in Drawn(Aggregated(place, entries), now)
       <==> && (exists e :: e in entries && Connects(place, e, src, dst))
            && blocked == DenialStands(place, entries, src, dst, now)
  {
    ShowBlockedExactly(place, entries, src, dst, now);
    AggregatedExactly(place, entries, EdgeKey(src, dst, blocked));
    if e :| e in entries && Connects(place, e, src, dst) {
      assert Feeds(place, e, EdgeKey(src, dst, place(e).value.blocked));
      if e.lastSeen > 0 && blocked == DenialStands(place, entries, src, dst, now) {
        if !blocked && place(e).value.blocked { AllowedOvertook(place, entries, e, src, dst, now); }
      }
    }
  }

  /** A drop that does not stand was overtaken by an allowed flow, so there is one. */
  lemma AllowedOvertook(place: Placing, entries: seq<Entry>, d: Entry, src: string, dst: string, now: int)
    requires d in entries && Feeds(place, d, EdgeKey(src, dst, true)) && !DenialStands(place, entries, src, dst, now)
    ensures exists a :: a in entries && Feeds(place, a, EdgeKey(src, dst, false))
  {
  }

  // ------------------------------------------------------------------------ nodes

  function WithNode(nodes: map<string, Node>, n: Node): map<string, Node> {
    if n.id in nodes then nodes else nodes[n.id := n]
  }

  /** The first node placed under an id is the one shown. */
  function NodesOf(place: Placing, entries: seq<Entry>): map<string, Node> {
    if entries == [] then map[]
    else
      var nodes := NodesOf(place, entries[..|entries| - 1]);
      match place(entries[|entries| - 1])
      case None => nodes
      case Some(p) => WithNode(WithNode(nodes, p.src), p.dst)
  }

  lemma {:induction false} NodesOfExactly(place: Placing, entries: seq<Entry>, id: string)
    ensures id in NodesOf(place, entries)
       <==> exists e :: e in entries && place(e).Some? && (place(e).value.src.id == id || place(e).value.dst.id == id)
  {
    if entries != [] {
      assert entries == entries[..|entries| - 1] + [entries[|entries| - 1]];
      NodesOfExactly(place, entries[..|entries| - 1], id);
    }
  }

  /** No edge dangles and no node is left without one. */
  lemma NodesAreEndpoints(place: Placing, entries: seq<Entry>, now: int, id: string)
    requires forall e :: e in entries ==> e.lastSeen > 0
    ensures id in NodesOf(place, entries)
       <==> exists k :: k in Drawn(Aggregated(place, entries), now) && (k.src == id || k.dst == id)
  {
    NodesOfExactly(place, entries, id);
    if e :| e in entries && place(e).Some? && (place(e).value.src.id == id || place(e).value.dst.id == id) {
      var src, dst := place(e).value.src.id, place(e).value.dst.id;
      assert Connects(place, e, src, dst);
      OneEdgePerPair(place, entries, src, dst, now, DenialStands(place, entries, src, dst, now));
    }
    if k :| k in Drawn(Aggregated(place, entries), now) && (k.src == id || k.dst == id) {
      AggregatedExactly(place, entries, k);
    }
  }

  // ------------------------------------------------------ the handler's own placing

  datatype IPInfo = IPInfo(kind: string, namespace: string, name: string)

  /** What the handler looks addresses up in. */
  datatype Cluster = Cluster(
    ipMap: map<string, IPInfo>, nodeNames: map<string, string>,
    isLinkLocal: string -> bool, inPodCIDRs: string -> bool,
    isHealthProbe: (string, string, string, string) -> bool, monitoringPort: string)
  {
    function LivePods(): set<string> {
      set ip | ip in ipMap && ipMap[ip].kind == "pod" :: ipMap[ip].namespace + "/" + ipMap[ip].name
    }

    /** A pod that no longer exists; an empty lookup means it failed, not that none do. */
    predicate Gone(ns: string, pod: string) {
      LivePods() != {} && pod != "" && ns + "/" + pod !in LivePods()
    }
  }

  const METADATA_IP := "169.254.169.254"

  function NormalizePort(port: string, monitoringPort: string): string {
    match ParseInt64(port)
    case Some(p) => if p >= EPHEMERAL && port != monitoringPort then "dynamic" else port
    case None => port
  }

  /** The buffer's port names are normal already, for ports that exist. */
  lemma BufferPortsNormal(port: nat, monitoringPort: string)
    requires port <= MAX_INT64
    ensures NormalizePort(PortName(port, monitoringPort), monitoringPort) == PortName(port, monitoringPort)
  {
    var d := Decimal(port);
    assert IsDigit(d[0]);
    assert ParseInt64(d) == Some(port);
    assert !IsDigit("dynamic"[0]) && "dynamic"[0] in "dynamic";
  }

  function Resolve(c: Cluster, pod: string, ns: string, ip: string, isWorld: bool): Option<Node> {
    if pod != "" then Some(Node(ns + "/" + pod, pod, "pod", ""))
    else if ip == "" then None
    else if c.isLinkLocal(ip) then
      Some(Node("ll:" + ip, if ip == METADATA_IP then "cloud metadata" else ip, "linklocal", ""))
    else if isWorld then
      if ip in c.nodeNames then Some(Node("ext:" + ip, "world via " + c.nodeNames[ip], "external", c.nodeNames[ip]))
      else Some(Node("ext:" + ip, ip, "external", ""))
    else if ip in c.nodeNames then Some(Node("node:" + ip, c.nodeNames[ip], "node", ""))
    else if c.inPodCIDRs(ip) then None
    else if ip in c.ipMap then
      var info := c.ipMap[ip];
      if info.kind != "pod" then None
      else Some(Node(info.namespace + "/" + info.name, info.name, "pod", ""))
    else Some(Node("ext:" + ip, ip, "external", ""))
  }

  predicate IsStale(c: Cluster, e: Entry) {
    c.Gone(e.srcNs, e.srcPod) || c.Gone(e.dstNs, e.dstPod)
  }

  function SourceOf(c: Cluster, e: Entry): Option<Node> { Resolve(c, e.srcPod, e.srcNs, e.srcIP, e.srcIsWorld) }

  function TargetOf(c: Cluster, e: Entry): Option<Node> { Resolve(c, e.dstPod, e.dstNs, e.dstIP, false) }

  function Place(c: Cluster, e: Entry): Option<Placed> {
    if IsStale(c, e) then None
    else
      match (SourceOf(c, e), TargetOf(c, e))
      case (Some(src), Some(dst)) =>
        if src.kind == "node" && dst.kind == "node" then None
        else
          Some(Placed(src, dst, e.verdict == "dropped",
                      if e.port == "" then "" else NormalizePort(e.port, c.monitoringPort),
                      e.port != "" && src.kind == "node" && e.dstPod != ""
                        && c.isHealthProbe(src.caption, e.dstNs, e.dstPod, e.port)))
      case _ => None
  }

  function PlacingOf(c: Cluster): Placing { e => Place(c, e) }

  // --------------------------------------------- which entry draws which edge

  /** The node that stands for one end of a flow, by its kind. A pod is known by name, or
      by its address when that is no link-local, node or pod-network address; an address
      Cilium calls world is external wherever it comes from. */
  ghost predicate StandsFor(c: Cluster, pod: string, ns: string, ip: string, isWorld: bool, n: Node) {
    var unnamed := pod == "" && ip != "";
    var ordinary := unnamed && !c.isLinkLocal(ip) && !isWorld;
    match n.kind
    case "pod" =>
      && n.viaNode == ""
      && if pod != "" then n.id == ns + "/" + pod && n.caption == pod
         else
           && ordinary && ip !in c.nodeNames && !c.inPodCIDRs(ip) && ip in c.ipMap && c.ipMap[ip].kind == "pod"
           && n.id == c.ipMap[ip].namespace + "/" + c.ipMap[ip].name && n.caption == c.ipMap[ip].name
    case "linklocal" =>
      unnamed && c.isLinkLocal(ip) && n.id == "ll:" + ip && n.viaNode == ""
      && n.caption == if ip == "169.254.169.254" then "cloud metadata" else ip
    case "node" => ordinary && ip in c.nodeNames && n.id == "node:" + ip && n.caption == c.nodeNames[ip] && n.viaNode == ""
    case "external" =>
      && unnamed && n.id == "ext:" + ip && !c.isLinkLocal(ip)
      && if isWorld && ip in c.nodeNames then n.caption == "world via " + c.nodeNames[ip] && n.viaNode == c.nodeNames[ip]
         else n.caption == ip && n.viaNode == "" && (isWorld || (ip !in c.nodeNames && !c.inPodCIDRs(ip) && ip !in c.ipMap))
    case _ => false
  }

  /** Each class of address has its node, and every other end has none. */
  lemma ResolvedExactly(c: Cluster, pod: string, ns: string, ip: string, isWorld: bool, n: Node)
    ensures Resolve(c, pod, ns, ip, isWorld) == Some(n) <==> StandsFor(c, pod, ns, ip, isWorld, n)
  {
    KindsDiffer();
  }

  lemma KindsDiffer()
    ensures "pod"[0] == 'p' && "linklocal"[0] == 'l' && "node"[0] == 'n' && "external"[0] == 'e'
  {
  }

  /** The end names a pod that is gone, while some pods are known. */
  ghost predicate NamesLostPod(c: Cluster, ns: string, pod: string) {
    && pod != ""
    && (exists ip :: ip in c.ipMap && c.ipMap[ip].kind == "pod")
    && forall ip :: ip in c.ipMap && c.ipMap[ip].kind == "pod" ==> c.ipMap[ip].namespace + "/" + c.ipMap[ip].name != ns + "/" + pod
  }

  /** The entry is drawn from src to dst: it runs from the node that stands for its source
      to the one that stands for its destination, names no lost pod, and is not a matter
      between two nodes. */
  ghost predicate Runs(c: Cluster, e: Entry, src: Node, dst: Node) {
    && !NamesLostPod(c, e.srcNs, e.srcPod) && !NamesLostPod(c, e.dstNs, e.dstPod)
    && StandsFor(c, e.srcPod, e.srcNs, e.srcIP, e.srcIsWorld, src)
    && StandsFor(c, e.dstPod, e.dstNs, e.dstIP, false, dst)
    && !(src.kind == "node" && dst.kind == "node")
  }

  /** The entry belongs to the edge: its ends are the edge's, its verdict too. */
  ghost predicate Joins(c: Cluster, e: Entry, key: EdgeKey) {
    key.blocked == (e.verdict == "dropped") && exists src, dst :: Runs(c, e, src, dst) && src.id == key.src && dst.id == key.dst
  }

  lemma LostExactly(c: Cluster, ns: string, pod: string)
    ensures c.Gone(ns, pod) <==> NamesLostPod(c, ns, pod)
  {
    if ip :| ip in c.ipMap && c.ipMap[ip].kind == "pod" {
      assert c.ipMap[ip].namespace + "/" + c.ipMap[ip].name in c.LivePods();
    }
  }

  lemma PlacedExactly(c: Cluster, e: Entry, src: Node, dst: Node)
    ensures Place(c, e).Some? && Place(c, e).value.src == src && Place(c, e).value.dst == dst <==> Runs(c, e, src, dst)
    ensures Place(c, e).Some? ==> Place(c, e).value.blocked == (e.verdict == "dropped")
  {
    LostExactly(c, e.srcNs, e.srcPod);
    LostExactly(c, e.dstNs, e.dstPod);
    ResolvedExactly(c, e.srcPod, e.srcNs, e.srcIP, e.srcIsWorld, src);
    ResolvedExactly(c, e.dstPod, e.dstNs, e.dstIP, false, dst);
  }

  /** Feeding an edge is a matter of the entry's own fields and the cluster's lookups. */
  lemma FeedsExactly(c: Cluster, e: Entry, key: EdgeKey)
    ensures Feeds(PlacingOf(c), e, key) <==> Joins(c, e, key)
  {
    if Place(c, e).Some? { PlacedExactly(c, e, Place(c, e).value.src, Place(c, e).value.dst); }
    if src, dst :| Runs(c, e, src, dst) && src.id == key.src && dst.id == key.dst { PlacedExactly(c, e, src, dst); }
  }

  /** A denial stands between two ends: a dropped entry joins them that is under two
      minutes old, or that no allowed entry between them is newer than. */
  ghost predicate Denied(c: Cluster, entries: seq<Entry>, src: string, dst: string, now: int) {
    exists d :: d in entries && Joins(c, d, EdgeKey(src, dst, true)) &&
      (|| now - d.lastSeen < 120_000_000_000
       || forall a :: a in entries && Joins(c, a, EdgeKey(src, dst, false)) ==> a.lastSeen <= d.lastSeen)
  }

  /** What is drawn, said in the entries' fields: an edge for every pair of ends that some
      entry joins, blocked exactly when a denial stands. */
  ghost predicate DrawnAsSeen(c: Cluster, entries: seq<Entry>, edges: Edges, now: int) {
    forall key :: key in edges
      <==> && (exists e :: e in entries && Joins(c, e, EdgeKey(key.src, key.dst, e.verdict == "dropped")))
           && key.blocked == Denied(c, entries, key.src, key.dst, now)
  }

  lemma DeniedExactly(c: Cluster, entries: seq<Entry>, src: string, dst: string, now: int)
    ensures DenialStands(PlacingOf(c), entries, src, dst, now) <==> Denied(c, entries, src, dst, now)
  {
    forall e | e in entries
      ensures Feeds(PlacingOf(c), e, EdgeKey(src, dst, true)) <==> Joins(c, e, EdgeKey(src, dst, true))
      ensures Feeds(PlacingOf(c), e, EdgeKey(src, dst, false)) <==> Joins(c, e, EdgeKey(src, dst, false))
    {
      FeedsExactly(c, e, EdgeKey(src, dst, true));
      FeedsExactly(c, e, EdgeKey(src, dst, false));
    }
  }

  lemma ConnectsExactly(c: Cluster, e: Entry, src: string, dst: string)
    ensures Connects(PlacingOf(c), e, src, dst) <==> Joins(c, e, EdgeKey(src, dst, e.verdict == "dropped"))
  {
    FeedsExactly(c, e, EdgeKey(src, dst, e.verdict == "dropped"));
    if Place(c, e).Some? { PlacedExactly(c, e, Place(c, e).value.src, Place(c, e).value.dst); }
  }

  lemma EveryEdgeDrawn(c: Cluster, entries: seq<Entry>, now: int)
    requires forall e :: e in entries ==> e.lastSeen > 0
    ensures DrawnAsSeen(c, entries, Drawn(Aggregated(PlacingOf(c), entries), now), now)
  {
    var edges := Drawn(Aggregated(PlacingOf(c), entries), now);
    forall key ensures key in edges
      <==> && (exists e :: e in entries && Joins(c, e, EdgeKey(key.src, key.dst, e.verdict == "dropped")))
           && key.blocked == Denied(c, entries, key.src, key.dst, now)
    {
      OneEdgePerPair(PlacingOf(c), entries, key.src, key.dst, now, key.blocked);
      DeniedExactly(c, entries, key.src, key.dst, now);
      forall e | e in entries
        ensures Connects(PlacingOf(c), e, key.src, key.dst) <==> Joins(c, e, EdgeKey(key.src, key.dst, e.verdict == "dropped"))
      {
        ConnectsExactly(c, e, key.src, key.dst);
      }
    }
  }

  /** The port an edge lists an entry under: ports of the ephemeral range together, but
      not the one Sentinel itself dials. */
  ghost predicate ListedUnder(c: Cluster, e: Entry, port: string) {
    && e.port != ""
    && var n := ParseInt64(e.port);
       port == if n.Some? && n.value >= 32768 && e.port != c.monitoringPort then "dynamic" else e.port
  }

  ghost predicate Probes(c: Cluster, e: Entry) {
    && e.srcPod == "" && e.srcIP != "" && !c.isLinkLocal(e.srcIP) && !e.srcIsWorld && e.srcIP in c.nodeNames
    && e.dstPod != "" && e.port != "" && c.isHealthProbe(c.nodeNames[e.srcIP], e.dstNs, e.dstPod, e.port)
  }

  ghost function CountOn(c: Cluster, key: EdgeKey): Entry -> int {
    e => if Joins(c, e, key) then e.count else 0
  }

  ghost function PortCountOn(c: Cluster, key: EdgeKey, port: string): Entry -> int {
    e => if Joins(c, e, key) && ListedUnder(c, e, port) then e.count else 0
  }

  /** What an edge says of the entries that join its ends with its verdict: their flows
      added up, in all and port by port, the latest time, and whether one is a health
      probe of a node. */
  ghost predicate Tells(c: Cluster, entries: seq<Entry>, key: EdgeKey, ev: EdgeVal) {
    && ev.count == Sum(entries, CountOn(c, key))
    && IsLatest(c, entries, key, ev.lastSeen)
    && (ev.healthProbe <==> exists e :: e in entries && Joins(c, e, key) && Probes(c, e))
    && forall port :: PortTold(c, entries, key, port, ev.ports)
  }

  ghost predicate IsLatest(c: Cluster, entries: seq<Entry>, key: EdgeKey, t: int) {
    && (forall e :: e in entries && Joins(c, e, key) ==> e.lastSeen <= t)
    && (t == 0 || exists e :: e in entries && Joins(c, e, key) && e.lastSeen == t)
  }

  ghost predicate PortTold(c: Cluster, entries: seq<Entry>, key: EdgeKey, port: string, ports: map<string, int>) {
    && (port in ports <==> exists e :: e in entries && Joins(c, e, key) && ListedUnder(c, e, port))
    && (port in ports ==> ports[port] == Sum(entries, PortCountOn(c, key, port)))
  }

  lemma PlacedSays(c: Cluster, e: Entry, port: string)
    requires Place(c, e).Some?
    ensures port != "" ==> (Place(c, e).value.port == port <==> ListedUnder(c, e, port))
    ensures ListedUnder(c, e, port) ==> port != ""
    ensures Place(c, e).value.probe <==> Probes(c, e)
  {
    var src := Place(c, e).value.src;
    ResolvedExactly(c, e.srcPod, e.srcNs, e.srcIP, e.srcIsWorld, src);
    KindsDiffer();
  }

  lemma LatestTold(c: Cluster, entries: seq<Entry>, key: EdgeKey)
    requires forall e :: Feeds(PlacingOf(c), e, key) <==> Joins(c, e, key)
    ensures IsLatest(c, entries, key, Peak(entries, TimeWeight(PlacingOf(c), key)))
  {
    var f := TimeWeight(PlacingOf(c), key);
    PeakIsBound(entries, f);
    forall e | e in entries && Joins(c, e, key) ensures e.lastSeen <= Peak(entries, f) { assert f(e) == e.lastSeen; }
    if Peak(entries, f) != 0 {
      var e :| e in entries && f(e) == Peak(entries, f);
      assert Joins(c, e, key);
    }
  }

  lemma PortsTold(c: Cluster, entries: seq<Entry>, key: EdgeKey, ev: EdgeVal, port: string)
    requires forall e :: Feeds(PlacingOf(c), e, key) <==> Joins(c, e, key)
    requires IsAggregate(PlacingOf(c), entries, key, ev)
    ensures PortTold(c, entries, key, port, ev.ports)
  {
    var place := PlacingOf(c);
    forall e | Feeds(place, e, key)
      ensures port != "" ==> (place(e).value.port == port <==> ListedUnder(c, e, port))
      ensures ListedUnder(c, e, port) ==> port != ""
    {
      PlacedSays(c, e, port);
    }
    if port in ev.ports { SumAlike(entries, PortWeight(place, key, port), PortCountOn(c, key, port)); }
  }

  lemma EdgeTells(c: Cluster, entries: seq<Entry>, key: EdgeKey)
    requires key in Aggregated(PlacingOf(c), entries)
    ensures Tells(c, entries, key, Aggregated(PlacingOf(c), entries)[key])
  {
    var place, ev := PlacingOf(c), Aggregated(PlacingOf(c), entries)[key];
    AggregatedExactly(place, entries, key);
    forall e ensures Feeds(place, e, key) <==> Joins(c, e, key) { FeedsExactly(c, e, key); }
    SumAlike(entries, CountWeight(place, key), CountOn(c, key));
    LatestTold(c, entries, key);
    forall e | Feeds(place, e, key) ensures place(e).value.probe <==> Probes(c, e) { PlacedSays(c, e, ""); }
    forall port ensures PortTold(c, entries, key, port, ev.ports) { PortsTold(c, entries, key, ev, port); }
  }

  /** The entry has an end where this node stands. */
  ghost predicate EndsAt(c: Cluster, e: Entry, n: Node) {
    exists other :: Runs(c, e, n, other) || Runs(c, e, other, n)
  }

  /** The nodes shown: one for every end of an entry that runs somewhere. */
  ghost predicate NodesAsSeen(c: Cluster, entries: seq<Entry>, nodes: map<string, Node>) {
    && (forall e, n :: e in entries && EndsAt(c, e, n) ==> n.id in nodes)
    && forall id :: id in nodes ==> nodes[id].id == id && exists e :: e in entries && EndsAt(c, e, nodes[id])
  }

  lemma EndsExactly(c: Cluster, e: Entry, n: Node)
    ensures EndsAt(c, e, n) <==> Place(c, e).Some? && n in {Place(c, e).value.src, Place(c, e).value.dst}
  {
    if Place(c, e).Some? { PlacedExactly(c, e, Place(c, e).value.src, Place(c, e).value.dst); }
    if other :| Runs(c, e, n, other) || Runs(c, e, other, n) {
      PlacedExactly(c, e, n, other);
      PlacedExactly(c, e, other, n);
    }
  }

  lemma NodesStep(c: Cluster, init: seq<Entry>, e: Entry, nodes: map<string, Node>)
    requires NodesAsSeen(c, init, nodes)
    ensures NodesAsSeen(c, init + [e], match Place(c, e) case None => nodes case Some(p) => WithNode(WithNode(nodes, p.src), p.dst))
  {
    var all := init + [e];
    var after := match Place(c, e) case None => nodes case Some(p) => WithNode(WithNode(nodes, p.src), p.dst);
    forall x, n | x in all && EndsAt(c, x, n) ensures n.id in after {
      if x !in init { EndsExactly(c, e, n); }
    }
    forall id | id in after ensures after[id].id == id && exists x :: x in all && EndsAt(c, x, after[id]) {
      if id in nodes {
        var x :| x in init && EndsAt(c, x, nodes[id]);
        assert x in all;
      } else {
        EndsExactly(c, e, after[id]);
        assert e in all;
      }
    }
  }

  lemma {:induction false} EveryNodeShown(c: Cluster, entries: seq<Entry>)
    ensures NodesAsSeen(c, entries, NodesOf(PlacingOf(c), entries))
  {
    if entries != [] {
      var init, last := entries[..|entries| - 1], entries[|entries| - 1];
      assert entries == init + [last];
      EveryNodeShown(c, init);
      NodesStep(c, init, last, NodesOf(PlacingOf(c), init));
    }
  }

  /** The handler also prunes stale entries from the buffer: no drawing notices. */
  function NotStale(c: Cluster, entries: seq<Entry>): seq<Entry> {
    if entries == [] then []
    else
      var init := NotStale(c, entries[..|entries| - 1]);
      if IsStale(c, entries[|entries| - 1]) then init else init + [entries[|entries| - 1]]
  }

  lemma {:induction false} PruningStaleKeepsGraph(c: Cluster, entries: seq<Entry>)
    ensures Aggregated(PlacingOf(c), NotStale(c, entries)) == Aggregated(PlacingOf(c), entries)
    ensures NodesOf(PlacingOf(c), NotStale(c, entries)) == NodesOf(PlacingOf(c), entries)
  {
    if entries != [] {
      var init, e := entries[..|entries| - 1], entries[|entries| - 1];
      PruningStaleKeepsGraph(c, init);
      var kept := NotStale(c, init);
      if !IsStale(c, e) { assert (kept + [e])[..|kept|] == kept; }
    }
  }

  // ------------------------------------------------------- from flows to the drawing

  ghost predicate ReadsClock(ops: seq<Op>) {
    forall op: Op :: op in ops && op.Observe? ==> op.now > 0
  }

  lemma ListedAfterZero(ops: seq<Op>, mp: string, now: int, entries: seq<Entry>, e: Entry)
    requires WellTimed(ops, now) && ReadsClock(ops) && Lists(entries, Recent(Run(ops, mp).topo, now)) && e in entries
    ensures e.lastSeen > 0
  {
    HistoryAgrees(ops, e.key, mp, now);
    LatestHits(ops, e.key, mp);
    var i :| 0 <= i < |ops| && Hits(ops[i], e.key, mp) && ops[i].now == Latest(ops, e.key, mp).value.t;
    assert ops[i] in ops;
  }

  /** Over any run of flows and prunes: a flow dropped less than two minutes ago whose
      connection was not removed since is drawn as a blocked edge between the ends of its
      entry, whatever was allowed meanwhile and whenever eviction ran. */
  lemma RecentDropIsDrawn(ops: seq<Op>, i: nat, key: string, mp: string, now: int, c: Cluster, entries: seq<Entry>, e: Entry,
                          src: Node, dst: Node)
    requires WellTimed(ops, now) && ReadsClock(ops) && i < |ops| && Hits(ops[i], key, mp)
    requires ops[i].f.verdict == "dropped" && now - ops[i].now < DENIAL_STILL_LIVE
    requires forall j :: i < j < |ops| && Latest(ops[..j], key, mp).Some? ==> !Removes(ops[j], key, Latest(ops[..j], key, mp).value.f)
    requires Lists(entries, Recent(Run(ops, mp).topo, now))
    requires key in Run(ops, mp).topo ==> e == Run(ops, mp).topo[key]
    requires Runs(c, e, src, dst)
    ensures EdgeKey(src.id, dst.id, true) in Drawn(Aggregated(PlacingOf(c), entries), now)
  {
    AcceptedStays(ops, i, key, mp, now);
    HistoryAgrees(ops, key, mp, now);
    LatestHits(ops, key, mp);
    var s := Latest(ops, key, mp).value;
    SameKeySameVerdict(ops[i].f, s.f, mp);
    assert key in Recent(Run(ops, mp).topo, now) && e in entries;
    forall x | x in entries ensures x.lastSeen > 0 { ListedAfterZero(ops, mp, now, entries, x); }
    PlacedExactly(c, e, src, dst);
    DropStands(c, entries, e, src.id, dst.id, now);
  }

  lemma DropStands(c: Cluster, entries: seq<Entry>, e: Entry, src: string, dst: string, now: int)
    requires e in entries && forall x :: x in entries ==> x.lastSeen > 0
    requires Place(c, e).Some? && Place(c, e).value.Key() == EdgeKey(src, dst, true) && now - e.lastSeen < DENIAL_STILL_LIVE
    ensures EdgeKey(src, dst, true) in Drawn(Aggregated(PlacingOf(c), entries), now)
  {
    assert Feeds(PlacingOf(c), e, EdgeKey(src, dst, true)) && Connects(PlacingOf(c), e, src, dst);
    assert DenialStands(PlacingOf(c), entries, src, dst, now);
    OneEdgePerPair(PlacingOf(c), entries, src, dst, now, true);
  }

  // ------------------------------------------------------------------ the handler

  datatype PairTimes = PairTimes(blocked: int, allowed: int)

  function PairId(k: EdgeKey): string { k.src + "|" + k.dst }

  ghost predicate BarFree(edges: Edges) {
    forall k :: k in edges ==> '|' !in k.src && '|' !in k.dst
  }

  lemma PairIdInjective(a: EdgeKey, b: EdgeKey)
    requires '|' !in a.src && '|' !in b.src && PairId(a) == PairId(b)
    ensures a.src == b.src && a.dst == b.dst
  {
    CutUnique(a.src, a.dst, b.src, b.dst, '|');
  }

  /** After the edges in `done`, a pair's times are those of its two edges among them. */
  ghost predicate TimesOf(pairs: map<string, PairTimes>, edges: Edges, done: set<EdgeKey>) {
    && (forall k :: k in done ==> PairId(k) in pairs)
    && (forall id :: id in pairs ==> exists k :: k in done && PairId(k) == id)
    && forall k :: k in edges && PairId(k) in pairs ==>
         pairs[PairId(k)] == PairTimes(TimeIn(edges, done, EdgeKey(k.src, k.dst, true)),
                                       TimeIn(edges, done, EdgeKey(k.src, k.dst, false)))
  }

  ghost function TimeIn(edges: Edges, done: set<EdgeKey>, k: EdgeKey): int {
    if k in done && k in edges then edges[k].lastSeen else 0
  }

  lemma TimesStep(pairs: map<string, PairTimes>, edges: Edges, done: set<EdgeKey>, k: EdgeKey, p: PairTimes)
    requires BarFree(edges) && done <= edges.Keys && k in edges && k !in done && TimesOf(pairs, edges, done)
    requires edges[k].lastSeen >= 0
    requires var was := if PairId(k) in pairs then pairs[PairId(k)] else PairTimes(0, 0);
             p == if k.blocked then was.(blocked := if edges[k].lastSeen > was.blocked then edges[k].lastSeen else was.blocked)
                  else was.(allowed := if edges[k].lastSeen > was.allowed then edges[k].lastSeen else was.allowed)
    ensures TimesOf(pairs[PairId(k) := p], edges, done + {k})
  {
    forall o | o in edges && PairId(o) == PairId(k) ensures o.src == k.src && o.dst == k.dst {
      PairIdInjective(o, k);
    }
    forall o | o in done && PairId(o) == PairId(k) ensures o == EdgeKey(k.src, k.dst, !k.blocked) {
      PairIdInjective(o, k);
    }
  }

  /** The times of every pair, collected edge by edge. */
  method CollectPairs(edges: Edges) returns (pairs: map<string, PairTimes>)
    requires BarFree(edges) && forall k :: k in edges ==> edges[k].lastSeen >= 0
    ensures forall k :: k in edges ==>
              && PairId(k) in pairs
              && pairs[PairId(k)] == PairTimes(SeenOn(edges, EdgeKey(k.src, k.dst, true)), SeenOn(edges, EdgeKey(k.src, k.dst, false)))
  {
    pairs := map[];
    var left := edges.Keys;
    ghost var done: set<EdgeKey> := {};
    while left != {}
      invariant left + done == edges.Keys && left !! done
      invariant TimesOf(pairs, edges, done)
      decreases left
    {
      var k :| k in left;
      var id, seen := PairId(k), edges[k].lastSeen;
      var p := if id in pairs then pairs[id] else PairTimes(0, 0);
      if k.blocked {
        if seen > p.blocked { p := p.(blocked := seen); }
      } else if seen > p.allowed {
        p := p.(allowed := seen);
      }
      TimesStep(pairs, edges, done, k, p);
      pairs := pairs[id := p];
      left := left - {k};
      done := done + {k};
    }
  }

  function StaleKeys(c: Cluster, entries: seq<Entry>): seq<string> {
    if entries == [] then []
    else
      var init := StaleKeys(c, entries[..|entries| - 1]);
      if IsStale(c, entries[|entries| - 1]) then init + [entries[|entries| - 1].key] else init
  }

  lemma AggregatedSeen(place: Placing, entries: seq<Entry>)
    ensures forall k :: k in Aggregated(place, entries) ==> Aggregated(place, entries)[k].lastSeen >= 0
  {
  }

  /** The loop over the entries. */
  method Gather(entries: seq<Entry>, c: Cluster) returns (nodes: map<string, Node>, all: Edges, stale: seq<string>)
    ensures nodes == NodesOf(PlacingOf(c), entries)
    ensures all == Aggregated(PlacingOf(c), entries)
    ensures stale == StaleKeys(c, entries)
  {
    nodes, all, stale := map[], map[], [];
    for i := 0 to |entries|
      invariant nodes == NodesOf(PlacingOf(c), entries[..i])
      invariant all == Aggregated(PlacingOf(c), entries[..i])
      invariant stale == StaleKeys(c, entries[..i])
    {
      assert entries[..i + 1][..i] == entries[..i];
      var e := entries[i];
      var placed := Place(c, e);
      if IsStale(c, e) {
        stale := stale + [e.key];
      } else if placed.Some? {
        var p := placed.value;
        nodes := WithNode(WithNode(nodes, p.src), p.dst);
        var ev := if p.Key() in all then all[p.Key()] else NO_EDGE;
        all := all[p.Key() := Grown(ev, p, e)];
      }
    }
    assert entries[..|entries|] == entries;
  }

  /** Keeps, of each pair, the edge whose verdict shows. */
  method Draw(all: Edges, now: int) returns (edges: Edges)
    requires BarFree(all) && forall k :: k in all ==> all[k].lastSeen >= 0
    ensures edges == Drawn(all, now)
  {
    var pairs := CollectPairs(all);
    edges := map[];
    var left := all.Keys;
    while left != {}
      invariant left <= all.Keys
      invariant edges == map k | k in all && k !in left && k.blocked == ShowBlocked(all, k.src, k.dst, now) :: all[k]
      decreases left
    {
      var k :| k in left;
      left := left - {k};
      var p := pairs[PairId(k)];
      var showBlocked := p.blocked != 0 && (now - p.blocked < DENIAL_STILL_LIVE || p.allowed <= p.blocked);
      if k.blocked == showBlocked { edges := edges[k := all[k]]; }
    }
  }

  /** The graph of a list of entries: nodes, drawn edges, and the keys to prune. */
  method BuildCiliumTopology(entries: seq<Entry>, c: Cluster, now: int)
      returns (nodes: map<string, Node>, edges: Edges, stale: seq<string>)
    requires BarFree(Aggregated(PlacingOf(c), entries))
    ensures nodes == NodesOf(PlacingOf(c), entries)
    ensures edges == Drawn(Aggregated(PlacingOf(c), entries), now)
    ensures stale == StaleKeys(c, entries)
    ensures (forall e :: e in entries ==> e.lastSeen > 0) ==> DrawnAsSeen(c, entries, edges, now)
    ensures forall key :: key in edges ==> Tells(c, entries, key, edges[key])
    ensures NodesAsSeen(c, entries, nodes)
    ensures forall k :: k in stale <==> exists e :: e in entries && e.key == k && NamesLost(c, e)
  {
    var all: Edges;
    nodes, all, stale := Gather(entries, c);
    AggregatedSeen(PlacingOf(c), entries);
    edges := Draw(all, now);
    if forall e :: e in entries ==> e.lastSeen > 0 { EveryEdgeDrawn(c, entries, now); }
    forall key | key in edges ensures Tells(c, entries, key, edges[key]) { EdgeTells(c, entries, key); }
    EveryNodeShown(c, entries);
    StaleExactly(c, entries);
  }

  ghost predicate NamesLost(c: Cluster, e: Entry) {
    NamesLostPod(c, e.srcNs, e.srcPod) || NamesLostPod(c, e.dstNs, e.dstPod)
  }

  lemma {:induction false} StaleExactly(c: Cluster, entries: seq<Entry>)
    ensures forall k :: k in StaleKeys(c, entries) <==> exists e :: e in entries && e.key == k && NamesLost(c, e)
  {
    if entries != [] {
      var init, e := entries[..|entries| - 1], entries[|entries| - 1];
      assert entries == init + [e];
      StaleExactly(c, init);
      LostExactly(c, e.srcNs, e.srcPod);
      LostExactly(c, e.dstNs, e.dstPod);
    }
  }
}
