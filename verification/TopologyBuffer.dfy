/** The topology buffer (internal/k8s/store.go): Hubble flows merged into entries by
    connection, port and verdict, seen through a fifteen-minute window, evicted lazily
    every two thousand updates and pruned on request. What the buffer shows is proved
    equal to what the plain history of flows and prunes says. */
module TopologyBuffer {
  import opened Wrappers
  import opened Text
  import opened Clock

  const WINDOW := 15 * MINUTE
  const CLEANUP_EVERY := 2000
  const EPHEMERAL := 32768

  /** An observed flow (internal/k8s/cilium.go), as far as the buffer reads it. */
  datatype Flow = Flow(
    verdict: string, isReply: bool, protocol: string, icmpType: nat,
    srcPod: string, srcNs: string, srcIP: string, srcIsWorld: bool,
    dstPod: string, dstNs: string, dstIP: string, dstPort: nat,
    policyName: string, direction: string,
    l7Type: string, httpMethod: string, httpURL: string, httpStatus: nat, dnsQuery: string)
  {
    /** The network reporting back about a packet already sent. */
    predicate IsICMPError() {
      || (protocol == "ICMPv4" && icmpType in {3, 4, 5, 11, 12})
      || (protocol == "ICMPv6" && icmpType in {1, 2, 3, 4})
    }

    predicate Accepted() {
      && (verdict == "allowed" || verdict == "dropped")
      && !isReply && !IsICMPError()
      && (srcPod != "" || srcIP != "")
      && (dstPod != "" || dstIP != "")
    }

    predicate Involves(ns: string, pod: string) {
      (srcNs == ns && srcPod == pod) || (dstNs == ns && dstPod == pod)
    }
  }

  datatype Entry = Entry(
    key: string, srcID: string, dstID: string, srcPod: string, srcNs: string, dstPod: string, dstNs: string,
    srcIP: string, dstIP: string, srcIsWorld: bool, port: string, protocol: string, verdict: string,
    policyName: string, direction: string,
    l7Type: string, httpMethod: string, httpURL: string, httpStatus: nat, dnsQuery: string,
    count: int, lastSeen: int)
  {
    predicate Involves(ns: string, pod: string) {
      (srcNs == ns && srcPod == pod) || (dstNs == ns && dstPod == pod)
    }
  }

  /** What a map lookup yields for an absent key; instant 0 is the zero time. */
  const NO_ENTRY := Entry("", "", "", "", "", "", "", "", "", false, "", "", "", "", "", "", "", "", 0, "", 0, 0)

  function EndpointID(ns: string, pod: string, ip: string): string {
    if pod == "" then "ext:" + ip else ns + "/" + pod
  }

  /** Client-side ports share one bucket, the port Sentinel itself dials does not. */
  function PortName(port: nat, monitoringPort: string): string {
    if port == 0 then ""
    else if port >= EPHEMERAL && Decimal(port) != monitoringPort then "dynamic"
    else Decimal(port)
  }

  function KeyOf(f: Flow, monitoringPort: string): string {
    EndpointID(f.srcNs, f.srcPod, f.srcIP) + "|" + EndpointID(f.dstNs, f.dstPod, f.dstIP)
      + "|" + PortName(f.dstPort, monitoringPort) + "|" + f.verdict
  }

  /** A named or described value replaces the one before; an empty one does not. */
  function Latter(before: string, given: string): string { if given != "" then given else before }

  /** One flow merged into its entry. */
  function Merged(e: Entry, f: Flow, key: string, monitoringPort: string, now: int): Entry {
    Entry(key, EndpointID(f.srcNs, f.srcPod, f.srcIP), EndpointID(f.dstNs, f.dstPod, f.dstIP),
          f.srcPod, f.srcNs, f.dstPod, f.dstNs, f.srcIP, f.dstIP, f.srcIsWorld,
          PortName(f.dstPort, monitoringPort), f.protocol, f.verdict,
          if f.verdict == "dropped" then Latter(e.policyName, f.policyName) else e.policyName,
          if f.verdict == "dropped" then Latter(e.direction, f.direction) else e.direction,
          Latter(e.l7Type, f.l7Type),
          if f.l7Type != "" then Latter(e.httpMethod, f.httpMethod) else e.httpMethod,
          if f.l7Type != "" then Latter(e.httpURL, f.httpURL) else e.httpURL,
          if f.l7Type != "" && f.httpStatus > 0 then f.httpStatus else e.httpStatus,
          if f.l7Type != "" then Latter(e.dnsQuery, f.dnsQuery) else e.dnsQuery,
          e.count + 1, now)
  }

  type Topo = map<string, Entry>

  datatype State = State(topo: Topo, cleanup: nat, flowSeen: bool)

  function Recent(topo: Topo, now: int): Topo {
    map k | k in topo && topo[k].lastSeen > now - WINDOW :: topo[k]
  }

  /** Takes in a flow; `cleanNow` is the clock as the cleanup, if one is due, reads it. */
  function Updated(st: State, f: Flow, monitoringPort: string, now: int, cleanNow: int): State {
    if !f.Accepted() then st
    else
      var key := KeyOf(f, monitoringPort);
      var e := if key in st.topo then st.topo[key] else NO_ENTRY;
      var topo := st.topo[key := Merged(e, f, key, monitoringPort, now)];
      var n := st.cleanup + 1;
      State(if n % CLEANUP_EVERY == 0 then Recent(topo, cleanNow) else topo, n, true)
  }

  function Pruned(st: State, keys: seq<string>): State {
    st.(topo := map k | k in st.topo && k !in keys :: st.topo[k])
  }

  function PrunedBlocked(st: State, ns: string, pod: string): State {
    if pod == "" then st
    else st.(topo := map k | k in st.topo && !(st.topo[k].verdict == "dropped" && st.topo[k].Involves(ns, pod)) :: st.topo[k])
  }

  // ------------------------------------------------------------------- histories

  datatype Op =
    | Observe(f: Flow, now: int, cleanNow: int)
    | Prune(keys: seq<string>)
    | PruneBlocked(ns: string, pod: string)

  function Step(st: State, op: Op, mp: string): State {
    match op
    case Observe(f, now, cleanNow) => Updated(st, f, mp, now, cleanNow)
    case Prune(keys) => Pruned(st, keys)
    case PruneBlocked(ns, pod) => PrunedBlocked(st, ns, pod)
  }

  function Run(ops: seq<Op>, mp: string): State {
    if ops == [] then State(map[], 0, false) else Step(Run(ops[..|ops| - 1], mp), ops[|ops| - 1], mp)
  }

  /** The clock never runs backwards, and has not passed `now` at the end. */
  ghost predicate WellTimed(ops: seq<Op>, now: int) {
    ops != [] ==>
      var init, op := ops[..|ops| - 1], ops[|ops| - 1];
      match op
      case Observe(_, t, cleanNow) => t <= cleanNow <= now && WellTimed(init, t)
      case _ => WellTimed(init, now)
  }

  /** A flow and when it was accepted. */
  datatype Seen = Seen(f: Flow, t: int)

  predicate Hits(op: Op, key: string, mp: string) {
    op.Observe? && op.f.Accepted() && KeyOf(op.f, mp) == key
  }

  /** Whether an operation removes a connection whose last flow is f. */
  predicate Removes(op: Op, key: string, f: Flow) {
    match op
    case Observe(_, _, _) => false
    case Prune(keys) => key in keys
    case PruneBlocked(ns, pod) => pod != "" && f.verdict == "dropped" && f.Involves(ns, pod)
  }

  /** By the history alone: the last accepted flow of a key, unless removed since.
      There is no eviction here. */
  function Latest(ops: seq<Op>, key: string, mp: string): (r: Option<Seen>) {
    if ops == [] then None
    else
      var before, op := Latest(ops[..|ops| - 1], key, mp), ops[|ops| - 1];
      if Hits(op, key, mp) then Some(Seen(op.f, op.now))
      else if before.Some? && Removes(op, key, before.value.f) then None
      else before
  }

  /** The fields of an entry that its last flow fixes. */
  ghost predicate Shows(e: Entry, key: string, s: Seen) {
    && e.key == key && e.lastSeen == s.t && e.verdict == s.f.verdict
    && e.srcPod == s.f.srcPod && e.srcNs == s.f.srcNs && e.srcIP == s.f.srcIP && e.srcIsWorld == s.f.srcIsWorld
    && e.dstPod == s.f.dstPod && e.dstNs == s.f.dstNs && e.dstIP == s.f.dstIP
  }

  /** Buffer and history agree on a key, but for entries already out of the window. */
  ghost predicate Agrees(st: State, key: string, latest: Option<Seen>, now: int) {
    && (key in st.topo ==> latest.Some? && Shows(st.topo[key], key, latest.value))
    && (key !in st.topo && latest.Some? ==> latest.value.t <= now - WINDOW)
    && (latest.Some? ==> latest.value.t <= now)
  }

  lemma {:induction false} HistoryAgrees(ops: seq<Op>, key: string, mp: string, now: int)
    requires WellTimed(ops, now)
    ensures Agrees(Run(ops, mp), key, Latest(ops, key, mp), now)
  {
    if ops != [] {
      var init, op := ops[..|ops| - 1], ops[|ops| - 1];
      HistoryAgrees(init, key, mp, if op.Observe? then op.now else now);
      StepAgrees(Run(init, mp), op, mp, key, Latest(init, key, mp), now);
    }
  }

  lemma StepAgrees(st: State, op: Op, mp: string, key: string, before: Option<Seen>, now: int)
    requires Agrees(st, key, before, if op.Observe? then op.now else now)
    requires op.Observe? ==> op.now <= op.cleanNow <= now
    ensures var after := if Hits(op, key, mp) then Some(Seen(op.f, op.now))
                         else if before.Some? && Removes(op, key, before.value.f) then None else before;
            Agrees(Step(st, op, mp), key, after, now)
  {
  }

  /** What is listed at any time is exactly the connections whose last flow was accepted
      within the window and not pruned since, each with what that flow says: when and
      whether eviction ran makes no difference. */
  lemma ListedExactly(ops: seq<Op>, key: string, mp: string, now: int)
    requires WellTimed(ops, now)
    ensures var latest := Latest(ops, key, mp);
            && (key in Recent(Run(ops, mp).topo, now) <==> latest.Some? && latest.value.t > now - 900 * SECOND)
            && (key in Recent(Run(ops, mp).topo, now) ==> Shows(Recent(Run(ops, mp).topo, now)[key], key, latest.value))
  {
    HistoryAgrees(ops, key, mp, now);
  }

  /** A flow that was accepted, followed by nothing that removes its connection, has a
      latest flow no older than itself. */
  lemma {:induction false} AcceptedStays(ops: seq<Op>, i: nat, key: string, mp: string, now: int)
    requires WellTimed(ops, now) && i < |ops| && Hits(ops[i], key, mp)
    requires forall j :: i < j < |ops| && Latest(ops[..j], key, mp).Some? ==> !Removes(ops[j], key, Latest(ops[..j], key, mp).value.f)
    ensures Latest(ops, key, mp).Some? && ops[i].now <= Latest(ops, key, mp).value.t <= now
  {
    var init, op := ops[..|ops| - 1], ops[|ops| - 1];
    if i < |init| {
      forall j | i < j < |init| && Latest(init[..j], key, mp).Some?
        ensures !Removes(init[j], key, Latest(init[..j], key, mp).value.f)
      {
        assert init[..j] == ops[..j];
      }
      AcceptedStays(init, i, key, mp, if op.Observe? then op.now else now);
      assert init == ops[..|init|];
    }
  }

  /** What `Latest` reports really is an accepted flow of the key, at a time the run read. */
  lemma {:induction false} LatestHits(ops: seq<Op>, key: string, mp: string)
    requires Latest(ops, key, mp).Some?
    ensures var s := Latest(ops, key, mp).value;
            && s.f.Accepted() && KeyOf(s.f, mp) == key
            && exists i :: 0 <= i < |ops| && Hits(ops[i], key, mp) && ops[i].now == s.t && ops[i].f == s.f
  {
    var init, op := ops[..|ops| - 1], ops[|ops| - 1];
    if !Hits(op, key, mp) {
      LatestHits(init, key, mp);
      var s := Latest(init, key, mp).value;
      var i :| 0 <= i < |init| && Hits(init[i], key, mp) && init[i].now == s.t && init[i].f == s.f;
      assert ops[i] == init[i];
    }
  }

  /** The verdict is part of the identity: flows of one key share it. */
  lemma SameKeySameVerdict(f: Flow, g: Flow, mp: string)
    requires f.Accepted() && g.Accepted() && KeyOf(f, mp) == KeyOf(g, mp)
    ensures f.verdict == g.verdict
  {
    var k := KeyOf(f, mp);
    assert k[|k| - 1] == f.verdict[|f.verdict| - 1] && k[|k| - 2] == f.verdict[|f.verdict| - 2];
    assert k[|k| - 1] == g.verdict[|g.verdict| - 1] && k[|k| - 2] == g.verdict[|g.verdict| - 2];
    assert k[|k| - 3] == f.verdict[|f.verdict| - 3] && k[|k| - 3] == g.verdict[|g.verdict| - 3];
  }

  /** Whether Hubble ever delivered a flow is remembered past any eviction. */
  lemma {:induction false} FlowSeenExactly(ops: seq<Op>, mp: string)
    ensures Run(ops, mp).flowSeen <==> exists op :: op in ops && op.Observe? && op.f.Accepted()
  {
    if ops != [] {
      assert ops == ops[..|ops| - 1] + [ops[|ops| - 1]];
      FlowSeenExactly(ops[..|ops| - 1], mp);
    }
  }

  // ------------------------------------------------------- entries as folds of flows

  function Folded(key: string, flows: seq<Seen>, mp: string): Entry {
    if flows == [] then NO_ENTRY
    else
      var last := flows[|flows| - 1];
      Merged(Folded(key, flows[..|flows| - 1], mp), last.f, key, mp, last.t)
  }

  /** The flows of a key since it was last removed from the buffer, by whatever means. */
  function Since(ops: seq<Op>, key: string, mp: string): (flows: seq<Seen>) {
    if ops == [] || key !in Run(ops, mp).topo then []
    else
      var before, op := Since(ops[..|ops| - 1], key, mp), ops[|ops| - 1];
      if Hits(op, key, mp) then before + [Seen(op.f, op.now)] else before
  }

  /** Each stored entry is the fold of its key's flows since its last removal. */
  lemma {:induction false} StoredIsFold(ops: seq<Op>, key: string, mp: string)
    requires key in Run(ops, mp).topo
    ensures Since(ops, key, mp) != [] && Run(ops, mp).topo[key] == Folded(key, Since(ops, key, mp), mp)
  {
    if ops != [] {
      var init, op := ops[..|ops| - 1], ops[|ops| - 1];
      if key in Run(init, mp).topo {
        StoredIsFold(init, key, mp);
      } else {
        SinceAbsent(init, key, mp);
      }
      StepFolds(Run(init, mp), op, mp, key, Since(init, key, mp));
    }
  }

  lemma SinceAbsent(ops: seq<Op>, key: string, mp: string)
    requires key !in Run(ops, mp).topo
    ensures Since(ops, key, mp) == []
  {
  }

  lemma StepFolds(st: State, op: Op, mp: string, key: string, flows: seq<Seen>)
    requires if key in st.topo then flows != [] && st.topo[key] == Folded(key, flows, mp) else flows == []
    requires key in Step(st, op, mp).topo
    ensures var flows' := if Hits(op, key, mp) then flows + [Seen(op.f, op.now)] else flows;
            flows' != [] && Step(st, op, mp).topo[key] == Folded(key, flows', mp)
  {
    if Hits(op, key, mp) {
      var s := Seen(op.f, op.now);
      assert (flows + [s])[..|flows|] == flows;
    }
  }

  /** What the flows leave of something they may give: the last one given, whatever
      comes after without one. */
  ghost predicate IsLastGiven<T>(flows: seq<Seen>, given: Seen -> T, none: T, value: T) {
    if forall s :: s in flows ==> given(s) == none then value == none
    else exists i :: 0 <= i < |flows| && given(flows[i]) == value != none && forall j :: i < j < |flows| ==> given(flows[j]) == none
  }

  lemma GivenStep<T>(init: seq<Seen>, last: Seen, given: Seen -> T, none: T, value: T)
    requires IsLastGiven(init, given, none, value)
    ensures IsLastGiven(init + [last], given, none, if given(last) != none then given(last) else value)
  {
    var flows := init + [last];
    assert flows[|init|] == last && last in flows;
    if given(last) == none && exists s :: s in init && given(s) != none {
      var s :| s in init && given(s) != none;
      assert s in flows;
      var i :| 0 <= i < |init| && given(init[i]) == value != none && forall j :: i < j < |init| ==> given(init[j]) == none;
      assert flows[i] == init[i];
      forall j | i < j < |flows| ensures given(flows[j]) == none { if j < |init| { assert flows[j] == init[j]; } }
    }
  }

  function PolicyGiven(): Seen -> string { (s: Seen) => if s.f.verdict == "dropped" then s.f.policyName else "" }

  function DirectionGiven(): Seen -> string { (s: Seen) => if s.f.verdict == "dropped" then s.f.direction else "" }

  function L7Given(): Seen -> string { (s: Seen) => s.f.l7Type }

  function MethodGiven(): Seen -> string { (s: Seen) => if s.f.l7Type != "" then s.f.httpMethod else "" }

  function URLGiven(): Seen -> string { (s: Seen) => if s.f.l7Type != "" then s.f.httpURL else "" }

  function StatusGiven(): Seen -> nat { (s: Seen) => if s.f.l7Type != "" then s.f.httpStatus else 0 }

  function QueryGiven(): Seen -> string { (s: Seen) => if s.f.l7Type != "" then s.f.dnsQuery else "" }

  /** What is kept of an application request, each detail from the last flow that gave it. */
  ghost predicate RequestTold(e: Entry, flows: seq<Seen>) {
    && IsLastGiven(flows, L7Given(), "", e.l7Type)
    && IsLastGiven(flows, MethodGiven(), "", e.httpMethod)
    && IsLastGiven(flows, URLGiven(), "", e.httpURL)
    && IsLastGiven(flows, StatusGiven(), 0, e.httpStatus)
    && IsLastGiven(flows, QueryGiven(), "", e.dnsQuery)
  }

  /** What is kept of a denial: the last policy and direction that dropped flows gave. */
  ghost predicate DenialTold(e: Entry, flows: seq<Seen>) {
    && IsLastGiven(flows, PolicyGiven(), "", e.policyName)
    && IsLastGiven(flows, DirectionGiven(), "", e.direction)
  }

  /** The fields that are the last flow's own: its ends, port, protocol and verdict. */
  ghost predicate LastTold(e: Entry, s: Seen, mp: string) {
    && e.lastSeen == s.t && e.protocol == s.f.protocol && e.verdict == s.f.verdict
    && (e.srcPod, e.srcNs, e.srcIP, e.srcIsWorld) == (s.f.srcPod, s.f.srcNs, s.f.srcIP, s.f.srcIsWorld)
    && (e.dstPod, e.dstNs, e.dstIP) == (s.f.dstPod, s.f.dstNs, s.f.dstIP)
    && e.srcID == (if s.f.srcPod == "" then "ext:" + s.f.srcIP else s.f.srcNs + "/" + s.f.srcPod)
    && e.dstID == (if s.f.dstPod == "" then "ext:" + s.f.dstIP else s.f.dstNs + "/" + s.f.dstPod)
    && (s.f.dstPort == 0 ==> e.port == "")
    && (0 < s.f.dstPort < 32768 ==> e.port == Decimal(s.f.dstPort))
    && (32768 <= s.f.dstPort ==> e.port == if Decimal(s.f.dstPort) == mp then mp else "dynamic")
  }

  lemma LastStep(e: Entry, s: Seen, key: string, mp: string)
    ensures LastTold(Merged(e, s.f, key, mp, s.t), s, mp)
  {
  }

  lemma RequestStep(init: seq<Seen>, last: Seen, e: Entry, key: string, mp: string)
    requires RequestTold(e, init)
    ensures RequestTold(Merged(e, last.f, key, mp, last.t), init + [last])
  {
    GivenStep(init, last, L7Given(), "", e.l7Type);
    GivenStep(init, last, MethodGiven(), "", e.httpMethod);
    GivenStep(init, last, URLGiven(), "", e.httpURL);
    GivenStep(init, last, StatusGiven(), 0, e.httpStatus);
    GivenStep(init, last, QueryGiven(), "", e.dnsQuery);
  }

  lemma DenialStep(init: seq<Seen>, last: Seen, e: Entry, key: string, mp: string)
    requires DenialTold(e, init)
    ensures DenialTold(Merged(e, last.f, key, mp, last.t), init + [last])
  {
    GivenStep(init, last, PolicyGiven(), "", e.policyName);
    GivenStep(init, last, DirectionGiven(), "", e.direction);
  }

  ghost predicate FlowsTold(e: Entry, flows: seq<Seen>, mp: string) {
    && e.count == |flows|
    && (flows != [] ==> LastTold(e, flows[|flows| - 1], mp))
    && DenialTold(e, flows) && RequestTold(e, flows)
  }

  lemma MergedTold(init: seq<Seen>, last: Seen, e: Entry, key: string, mp: string)
    requires FlowsTold(e, init, mp)
    ensures FlowsTold(Merged(e, last.f, key, mp, last.t), init + [last], mp)
  {
    LastStep(e, last, key, mp);
    DenialStep(init, last, e, key, mp);
    RequestStep(init, last, e, key, mp);
  }

  lemma NothingTold(mp: string)
    ensures FlowsTold(NO_ENTRY, [], mp)
  {
  }

  /** What holds of no flows and is kept by every merge holds of the fold. */
  lemma {:induction false} FoldKeeps(key: string, flows: seq<Seen>, mp: string, told: (Entry, seq<Seen>) -> bool)
    requires told(NO_ENTRY, [])
    requires forall e, init, last: Seen :: told(e, init) ==> told(Merged(e, last.f, key, mp, last.t), init + [last])
    ensures told(Folded(key, flows, mp), flows)
  {
    if flows != [] {
      var init, last := flows[..|flows| - 1], flows[|flows| - 1];
      FoldKeeps(key, init, mp, told);
      assert flows == init + [last];
    }
  }

  /** Count is the number of flows; ends, port, protocol, verdict and time are the last
      flow's; and a policy name, direction or request detail once recorded is only ever
      replaced by another. */
  lemma FoldMeaning(key: string, flows: seq<Seen>, mp: string)
    ensures FlowsTold(Folded(key, flows, mp), flows, mp)
  {
    var told := (e: Entry, seen: seq<Seen>) => FlowsTold(e, seen, mp);
    NothingTold(mp);
    forall e, init, last: Seen | told(e, init) ensures told(Merged(e, last.f, key, mp, last.t), init + [last]) {
      MergedTold(init, last, e, key, mp);
    }
    FoldKeeps(key, flows, mp, told);
  }

  // --------------------------------------------------------- which flows share a key

  /** No separator of the key, or of an end's id, stands in the flow's names. */
  ghost predicate PlainNames(f: Flow) {
    && '|' !in f.srcNs && '|' !in f.srcPod && '|' !in f.srcIP && '|' !in f.dstNs && '|' !in f.dstPod && '|' !in f.dstIP
    && '/' !in f.srcNs && '/' !in f.srcIP && '/' !in f.dstNs && '/' !in f.dstIP
  }

  /** One end: the same pod of the same namespace, or without a pod the same address. */
  ghost predicate SameEnd(pod: string, ns: string, ip: string, pod': string, ns': string, ip': string) {
    if pod == "" then pod' == "" && ip == ip' else pod == pod' && ns == ns'
  }

  /** One port, all ephemeral ports counting as one except the one Sentinel dials. */
  ghost predicate SamePort(p: nat, q: nat, mp: string) {
    || p == q
    || (p >= 32768 && q >= 32768 && Decimal(p) != mp && Decimal(q) != mp)
  }

  lemma EndsApart(pod: string, ns: string, ip: string, pod': string, ns': string, ip': string)
    requires '/' !in ns && '/' !in ip && '/' !in ns' && '/' !in ip'
    ensures EndpointID(ns, pod, ip) == EndpointID(ns', pod', ip') <==> SameEnd(pod, ns, ip, pod', ns', ip')
  {
    var a, b := EndpointID(ns, pod, ip), EndpointID(ns', pod', ip');
    AddressIsNoPod(ip, ns', pod');
    AddressIsNoPod(ip', ns, pod);
    if a == b {
      if pod == "" && pod' == "" {
        assert a[4..] == ip && b[4..] == ip';
      } else if pod != "" && pod' != "" {
        CutUnique(ns, pod, ns', pod', '/');
        assert a == ns + ['/'] + pod && b == ns' + ['/'] + pod';
      }
    }
  }

  lemma AddressIsNoPod(ip: string, ns: string, pod: string)
    requires '/' !in ip
    ensures "ext:" + ip != ns + "/" + pod
  {
    var b := ns + "/" + pod;
    assert '/' !in "ext:" + ip && b[|ns|] == '/';
  }

  lemma PortsApart(p: nat, q: nat, mp: string)
    ensures PortName(p, mp) == PortName(q, mp) <==> SamePort(p, q, mp)
    ensures '|' !in PortName(p, mp)
  {
    assert "dynamic"[0] == 'd' && !IsDigit('d');
    var d, e := Decimal(p), Decimal(q);
    assert IsDigit(d[0]) && IsDigit(e[0]);
    assert p != q ==> Value(d) != Value(e);
  }

  lemma KeyParts(f: Flow, mp: string)
    requires PlainNames(f)
    ensures var src, dst := EndpointID(f.srcNs, f.srcPod, f.srcIP), EndpointID(f.dstNs, f.dstPod, f.dstIP);
            && '|' !in src && '|' !in dst && '|' !in PortName(f.dstPort, mp)
            && KeyOf(f, mp) == src + ['|'] + (dst + ['|'] + (PortName(f.dstPort, mp) + ['|'] + f.verdict))
  {
    PortsApart(f.dstPort, f.dstPort, mp);
  }

  /** Flows share an entry exactly when both ends, the port and the verdict agree. */
  lemma SameKeyExactly(f: Flow, g: Flow, mp: string)
    requires PlainNames(f) && PlainNames(g)
    ensures KeyOf(f, mp) == KeyOf(g, mp)
       <==> && SameEnd(f.srcPod, f.srcNs, f.srcIP, g.srcPod, g.srcNs, g.srcIP)
            && SameEnd(f.dstPod, f.dstNs, f.dstIP, g.dstPod, g.dstNs, g.dstIP)
            && SamePort(f.dstPort, g.dstPort, mp) && f.verdict == g.verdict
  {
    KeyParts(f, mp);
    KeyParts(g, mp);
    EndsApart(f.srcPod, f.srcNs, f.srcIP, g.srcPod, g.srcNs, g.srcIP);
    EndsApart(f.dstPod, f.dstNs, f.dstIP, g.dstPod, g.dstNs, g.dstIP);
    PortsApart(f.dstPort, g.dstPort, mp);
    if KeyOf(f, mp) == KeyOf(g, mp) { KeysSplit(f, g, mp); }
  }

  lemma KeysSplit(f: Flow, g: Flow, mp: string)
    requires PlainNames(f) && PlainNames(g) && KeyOf(f, mp) == KeyOf(g, mp)
    ensures EndpointID(f.srcNs, f.srcPod, f.srcIP) == EndpointID(g.srcNs, g.srcPod, g.srcIP)
    ensures EndpointID(f.dstNs, f.dstPod, f.dstIP) == EndpointID(g.dstNs, g.dstPod, g.dstIP)
    ensures PortName(f.dstPort, mp) == PortName(g.dstPort, mp) && f.verdict == g.verdict
  {
    KeyParts(f, mp);
    KeyParts(g, mp);
    var s, s' := EndpointID(f.srcNs, f.srcPod, f.srcIP), EndpointID(g.srcNs, g.srcPod, g.srcIP);
    var d, d' := EndpointID(f.dstNs, f.dstPod, f.dstIP), EndpointID(g.dstNs, g.dstPod, g.dstIP);
    var p, p' := PortName(f.dstPort, mp), PortName(g.dstPort, mp);
    CutUnique(s, d + ['|'] + (p + ['|'] + f.verdict), s', d' + ['|'] + (p' + ['|'] + g.verdict), '|');
    CutUnique(d, p + ['|'] + f.verdict, d', p' + ['|'] + g.verdict, '|');
    CutUnique(p, f.verdict, p', g.verdict, '|');
  }

  /** A flow is left out, and then changes nothing, exactly when it is neither allowed nor
      dropped, a reply, an ICMP message that reports an error, or lacks an end. */
  lemma LeftOutExactly(st: State, f: Flow, mp: string, now: int, cleanNow: int)
    ensures Updated(st, f, mp, now, cleanNow) == st
       <==> || f.verdict !in {"allowed", "dropped"}
            || f.isReply
            || (f.protocol == "ICMPv4" && (3 <= f.icmpType <= 5 || 11 <= f.icmpType <= 12))
            || (f.protocol == "ICMPv6" && 1 <= f.icmpType <= 4)
            || (f.srcPod == "" && f.srcIP == "") || (f.dstPod == "" && f.dstIP == "")
  {
    assert "ICMPv4"[5] == '4' && "ICMPv6"[5] == '6';
    if f.Accepted() { assert Updated(st, f, mp, now, cleanNow).cleanup == st.cleanup + 1; }
  }

  // ------------------------------------------------------------------ the buffer

  /** The entries of a buffer as a list: each key once, in no particular order. */
  ghost predicate Lists(out: seq<Entry>, topo: Topo) {
    && (forall i, j :: 0 <= i < j < |out| ==> out[i].key != out[j].key)
    && forall e :: e in out <==> e.key in topo && topo[e.key] == e
  }

  /** Every entry knows its own key. */
  ghost predicate SelfKeyed(topo: Topo) {
    forall k :: k in topo ==> topo[k].key == k
  }

  lemma UpdatedSelfKeyed(st: State, f: Flow, mp: string, now: int, cleanNow: int)
    requires SelfKeyed(st.topo)
    ensures SelfKeyed(Updated(st, f, mp, now, cleanNow).topo)
  {
  }

  class Buffer {
    var ciliumTopo: Topo
    var ciliumTopoCleanup: nat
    var ciliumFlowSeen: bool
    const monitoringPort: string

    ghost function Now(): State
      reads this
    {
      State(ciliumTopo, ciliumTopoCleanup, ciliumFlowSeen)
    }

    ghost predicate Valid()
      reads this
    {
      SelfKeyed(ciliumTopo)
    }

    constructor (port: string)
      ensures Valid() && Now() == State(map[], 0, false) && monitoringPort == port
    {
      ciliumTopo, ciliumTopoCleanup, ciliumFlowSeen, monitoringPort := map[], 0, false, port;
    }

    method UpdateCiliumTopo(f: Flow, now: int, cleanNow: int)
      requires Valid()
      modifies this
      ensures Valid() && Now() == Updated(old(Now()), f, monitoringPort, now, cleanNow)
    {
      UpdatedSelfKeyed(Now(), f, monitoringPort, now, cleanNow);
      if !f.Accepted() { return; }
      var key := KeyOf(f, monitoringPort);
      var entry := if key in ciliumTopo then ciliumTopo[key] else NO_ENTRY;
      ciliumTopo := ciliumTopo[key := Merged(entry, f, key, monitoringPort, now)];
      ciliumFlowSeen := true;
      ciliumTopoCleanup := ciliumTopoCleanup + 1;
      if ciliumTopoCleanup % CLEANUP_EVERY == 0 { Evict(cleanNow); }
    }

    /** The lazy cleanup: drops the entries past the window. */
    method Evict(now: int)
      modifies `ciliumTopo
      ensures ciliumTopo == Recent(old(ciliumTopo), now)
    {
      var left := ciliumTopo.Keys;
      while left != {}
        invariant left <= ciliumTopo.Keys <= old(ciliumTopo).Keys
        invariant forall k :: k in ciliumTopo ==> ciliumTopo[k] == old(ciliumTopo)[k]
        invariant forall k :: k in old(ciliumTopo) && k !in left ==>
                    (k in ciliumTopo <==> old(ciliumTopo)[k].lastSeen > now - WINDOW)
        decreases left
      {
        var k :| k in left;
        left := left - {k};
        if !(ciliumTopo[k].lastSeen > now - WINDOW) { ciliumTopo := ciliumTopo - {k}; }
      }
    }

    method PruneCiliumTopo(keys: seq<string>)
      requires Valid()
      modifies `ciliumTopo
      ensures Valid() && Now() == Pruned(old(Now()), keys)
    {
      for i := 0 to |keys|
        invariant ciliumTopo == map k | k in old(ciliumTopo) && k !in keys[..i] :: old(ciliumTopo)[k]
      {
        assert keys[..i + 1] == keys[..i] + [keys[i]];
        ciliumTopo := ciliumTopo - {keys[i]};
      }
      assert keys[..|keys|] == keys;
    }

    /** Used when quarantine is lifted: the denials Sentinel itself caused have stopped. */
    method PruneBlockedFor(ns: string, pod: string)
      requires Valid()
      modifies `ciliumTopo
      ensures Valid() && Now() == PrunedBlocked(old(Now()), ns, pod)
    {
      if pod == "" { return; }
      var left := ciliumTopo.Keys;
      while left != {}
        invariant left <= ciliumTopo.Keys <= old(ciliumTopo).Keys
        invariant forall k :: k in ciliumTopo ==> ciliumTopo[k] == old(ciliumTopo)[k]
        invariant forall k :: k in old(ciliumTopo) && k !in left ==>
                    (k in ciliumTopo <==>
                       !(old(ciliumTopo)[k].verdict == "dropped" && old(ciliumTopo)[k].Involves(ns, pod)))
        decreases left
      {
        var k :| k in left;
        left := left - {k};
        var e := ciliumTopo[k];
        if e.verdict == "dropped" && e.Involves(ns, pod) { ciliumTopo := ciliumTopo - {k}; }
      }
    }

    method ListCiliumTopoEntries(now: int) returns (out: seq<Entry>)
      requires Valid()
      ensures Lists(out, Recent(ciliumTopo, now))
    {
      out := [];
      var left := ciliumTopo.Keys;
      while left != {}
        invariant left <= ciliumTopo.Keys
        invariant Lists(out, map k | k in ciliumTopo && k !in left && ciliumTopo[k].lastSeen > now - WINDOW :: ciliumTopo[k])
        decreases left
      {
        var k :| k in left;
        left := left - {k};
        var e := ciliumTopo[k];
        if e.lastSeen > now - WINDOW {
          assert forall x :: x in out ==> x.key != k;
          out := out + [e];
        }
      }
      assert Recent(ciliumTopo, now) == map k | k in ciliumTopo && k !in left && ciliumTopo[k].lastSeen > now - WINDOW :: ciliumTopo[k];
    }

    method HasCiliumTopoData(now: int) returns (some: bool)
      ensures some <==> Recent(ciliumTopo, now) != map[]
    {
      var left := ciliumTopo.Keys;
      while left != {}
        invariant left <= ciliumTopo.Keys
        invariant forall k :: k in ciliumTopo && k !in left ==> ciliumTopo[k].lastSeen <= now - WINDOW
        decreases left
      {
        var k :| k in left;
        left := left - {k};
        if ciliumTopo[k].lastSeen > now - WINDOW {
          assert k in Recent(ciliumTopo, now);
          return true;
        }
      }
      return false;
    }
  }
}
