/** The security event store (internal/security/store.go): newest first, repeats of
    one event within thirty seconds folded into its row, expiry, a cap per severity,
    and a feed of the events that opened a row. */
module SecurityStore {
  import opened Wrappers
  import opened Sequences
  import opened Text
  import opened Clock

  const DEDUP_WINDOW := 30 * SECOND
  const EPHEMERAL := 32768

  /** An event on the bus (internal/k8s/tetragon.go). */
  datatype Raw = Raw(
    kind: string, time: Stamp, nodeName: string, namespace: string, pod: string, container: string,
    binary: string, arguments: string, parentBin: string, action: string, policyName: string,
    func: string, filePath: string, fileOp: string, netDest: string, netSrc: string,
    dropReason: string, processUID: Option<nat>)
  {
    function HookKind(): string {
      if kind in {"kprobe", "tracepoint", "uprobe", "lsm"} then kind else ""
    }

    predicate IsSecurityEvent() {
      (HookKind() != "" || kind == "policy-deny") && policyName != ""
    }
  }

  /** The parts a row's id is rendered from. */
  datatype RowId = RowId(time: Stamp, pod: string, binary: string, policyName: string)

  datatype Event = Event(
    id: RowId, time: Stamp, count: int, severity: string, namespace: string, pod: string,
    container: string, nodeName: string, binary: string, arguments: string, parentBin: string,
    func: string, hook: string, policyName: string, action: string, processUID: Option<nat>,
    filePath: string, fileOp: string, netDest: string, netSrc: string, dropReason: string)

  datatype Retention = Retention(maxWarnings: int, maxCriticals: int, ttlDays: int)

  const DEFAULT_RETENTION := Retention(500, 300, 7)

  datatype State = State(evts: seq<Event>, cfg: Retention, gen: nat)

  /** What one call tells its subscribers: the row for the live feed, and the event
      for the first-sighting feed when it opened a row. */
  datatype Notice = Notice(feed: Event, first: Option<Raw>)

  function SeverityOf(action: string): string {
    if action == "kill" || action == "deny" then "critical" else "warning"
  }

  // -------------------------------------------------------------- fingerprints

  function FindLast(s: string, c: char): (i: int)
    ensures -1 <= i < |s|
    ensures i >= 0 ==> s[i] == c
    ensures forall k :: i < k < |s| ==> s[k] != c
  {
    if s == "" then -1
    else if s[|s| - 1] == c then |s| - 1
    else FindLast(s[..|s| - 1], c)
  }

  /** Whether an address ends in a port the kernel picks per connection. */
  predicate HasEphemeralPort(addr: string) {
    var i := FindLast(addr, ':');
    i >= 0 && match ParseInt64(addr[i + 1..]) case Some(p) => p >= EPHEMERAL case None => false
  }

  /** The address up to and including its last colon. */
  function Host(addr: string): string { addr[..FindLast(addr, ':') + 1] }

  function CollapseEphemeralPort(addr: string): (r: string) {
    if HasEphemeralPort(addr) then Host(addr) + "dynamic" else addr
  }

  function Fields(namespace: string, pod: string, binary: string, func: string, policyName: string, action: string,
                  filePath: string, fileOp: string, netDest: string, netSrc: string): (r: seq<string>) {
    [namespace, pod, binary, func, policyName, action, filePath, fileOp, netDest, CollapseEphemeralPort(netSrc)]
  }

  function RawFields(e: Raw): seq<string> {
    Fields(e.namespace, e.pod, e.binary, e.func, e.policyName, e.action, e.filePath, e.fileOp, e.netDest, e.netSrc)
  }

  function RowFields(e: Event): seq<string> {
    Fields(e.namespace, e.pod, e.binary, e.func, e.policyName, e.action, e.filePath, e.fileOp, e.netDest, e.netSrc)
  }

  function Fingerprint(e: Raw): string { Join(RawFields(e), '|') }

  function StoredFingerprint(e: Event): string { Join(RowFields(e), '|') }

  predicate BarFree(fields: seq<string>) {
    forall f :: f in fields ==> '|' !in f
  }

  lemma FindLastAt(host: string, port: string)
    requires ':' !in port
    ensures FindLast(host + ":" + port, ':') == |host|
    decreases |port|
  {
    var s := host + ":" + port;
    if port != "" {
      assert s[..|s| - 1] == host + ":" + port[..|port| - 1];
      FindLastAt(host, port[..|port| - 1]);
      assert s[|s| - 1] == port[|port| - 1];
    }
  }

  /** The address is one of those its host's marker stands for. */
  predicate Collapsible(addr: string) {
    HasEphemeralPort(addr) || (Host(addr) != "" && addr == Host(addr) + "dynamic")
  }

  lemma CollapseHost(a: string)
    ensures Host(CollapseEphemeralPort(a)) == Host(a)
  {
    if HasEphemeralPort(a) {
      var i := FindLast(a, ':');
      assert Host(a) == a[..i] + ":";
      assert CollapseEphemeralPort(a) == a[..i] + ":" + "dynamic";
      FindLastAt(a[..i], "dynamic");
    }
  }

  lemma CollapseMarks(a: string)
    ensures Collapsible(a) <==> Host(a) != "" && CollapseEphemeralPort(a) == Host(a) + "dynamic"
  {
  }

  /** Two client addresses collapse to one exactly when they are equal, or agree up to
      the port and each port is ephemeral or already the marker. */
  lemma CollapseExactly(a: string, b: string)
    ensures CollapseEphemeralPort(a) == CollapseEphemeralPort(b)
       <==> a == b || (Host(a) == Host(b) && Collapsible(a) && Collapsible(b))
  {
    CollapseHost(a);
    CollapseHost(b);
    CollapseMarks(a);
    CollapseMarks(b);
  }

  /** On fields without a bar, the fingerprint identifies exactly the collapsed fields. */
  lemma FingerprintExactly(row: Event, e: Raw)
    requires BarFree(RowFields(row)) && BarFree(RawFields(e))
    ensures StoredFingerprint(row) == Fingerprint(e) <==> RowFields(row) == RawFields(e)
  {
    if StoredFingerprint(row) == Fingerprint(e) {
      JoinInjective(RowFields(row), RawFields(e), '|');
    }
  }

  // ------------------------------------------------------------------- one call

  predicate Near(row: Event, fp: string, t: int) {
    && row.time.At? && Clock.Abs(t - row.time.t) < DEDUP_WINDOW
    && StoredFingerprint(row) == fp
  }

  function FirstNear(evts: seq<Event>, fp: string, t: int): (i: nat)
    ensures i <= |evts|
    ensures i < |evts| ==> Near(evts[i], fp, t)
    ensures forall j :: 0 <= j < i ==> !Near(evts[j], fp, t)
  {
    FirstIndex(evts, row => Near(row, fp, t))
  }

  /** A row seen again: counted, refreshed, and its gaps filled in. */
  function Refreshed(row: Event, e: Raw): Event {
    row.(count := row.count + 1, time := e.time,
         container := if row.container == "" then e.container else row.container,
         dropReason := if row.dropReason == "" then e.dropReason else row.dropReason,
         hook := if row.hook == "" then e.HookKind() else row.hook)
  }

  function NewRow(e: Raw): Event {
    Event(RowId(e.time, e.pod, e.binary, e.policyName), e.time, 1, SeverityOf(e.action), e.namespace, e.pod,
          e.container, e.nodeName, e.binary, e.arguments, e.parentBin, e.func, e.HookKind(), e.policyName,
          e.action, e.processUID, e.filePath, e.fileOp, e.netDest, e.netSrc, e.dropReason)
  }

  predicate Live(row: Event, cutoff: int) {
    row.time.At? && row.time.t > cutoff
  }

  function LiveRows(evts: seq<Event>, cutoff: int): (r: seq<Event>) {
    if evts == [] then []
    else if Live(evts[0], cutoff) then [evts[0]] + LiveRows(evts[1..], cutoff)
    else LiveRows(evts[1..], cutoff)
  }

  function Capped(evts: seq<Event>, warn: int, crit: int): (r: seq<Event>) {
    if evts == [] then []
    else if evts[0].severity == "critical" && crit > 0 then [evts[0]] + Capped(evts[1..], warn, crit - 1)
    else if evts[0].severity == "warning" && warn > 0 then [evts[0]] + Capped(evts[1..], warn - 1, crit)
    else Capped(evts[1..], warn, crit)
  }

  function CappedBy(evts: seq<Event>, cfg: Retention): seq<Event> {
    Capped(evts, cfg.maxWarnings, cfg.maxCriticals)
  }

  /** Expiry first, then the caps, so a cap sees only rows that stay. */
  function Retained(evts: seq<Event>, cutoff: int, cfg: Retention): seq<Event> {
    CappedBy(LiveRows(evts, cutoff), cfg)
  }

  /** The event as the store takes it in: an unreadable time becomes the arrival time. */
  function Stamped(e: Raw, arrival: int): (r: Raw)
    ensures r.time.At?
  {
    if e.time.At? then e else e.(time := At(arrival))
  }

  /** Whether a new row survives the two filters it has to pass. */
  predicate Recorded(st: State, e: Raw, now: int)
    requires e.time.At?
  {
    && e.time.t > Cutoff(now, st.cfg.ttlDays)
    && (if SeverityOf(e.action) == "critical" then st.cfg.maxCriticals else st.cfg.maxWarnings) > 0
  }

  /** The rows once the event is folded into row i, which comes to the front. */
  function Folded(evts: seq<Event>, i: nat, e: Raw): seq<Event>
    requires i < |evts|
  {
    [Refreshed(evts[i], e)] + evts[..i] + evts[i + 1..]
  }

  /** The rows once the event has one of its own, as far as they stay. */
  function Opened(evts: seq<Event>, e: Raw, cutoff: int, cfg: Retention): seq<Event> {
    Retained([NewRow(e)] + evts, cutoff, cfg)
  }

  /** Takes in a stamped security event. */
  function Ingested(st: State, e: Raw, now: int): (r: (State, Notice))
    requires e.time.At?
  {
    var i := FirstNear(st.evts, Fingerprint(e), e.time.t);
    if i < |st.evts| then
      (st.(evts := Folded(st.evts, i, e), gen := st.gen + 1), Notice(Refreshed(st.evts[i], e), None))
    else
      (st.(evts := Opened(st.evts, e, Cutoff(now, st.cfg.ttlDays), st.cfg), gen := st.gen + 1),
       Notice(NewRow(e), if Recorded(st, e, now) then Some(e) else None))
  }

  function Added(st: State, e: Raw, arrival: int, now: int): (r: (State, Option<Notice>)) {
    if !e.IsSecurityEvent() then (st, None)
    else var (st', n) := Ingested(st, Stamped(e, arrival), now); (st', Some(n))
  }

  function Reconfigured(st: State, cfg: Retention): State {
    State(CappedBy(st.evts, cfg), cfg, st.gen + 1)
  }

  // ------------------------------------------------------------ caps per severity

  /** The rows of one severity, in order. */
  function Only(evts: seq<Event>, severity: string): (r: seq<Event>) {
    if evts == [] then []
    else if evts[0].severity == severity then [evts[0]] + Only(evts[1..], severity)
    else Only(evts[1..], severity)
  }

  function Slots(n: int): nat { if n < 0 then 0 else n }

  function Newest(evts: seq<Event>, n: nat): seq<Event> {
    if n <= |evts| then evts[..n] else evts
  }

  /** The slots of a severity. */
  function SlotsOf(severity: string, warn: int, crit: int): int { if severity == "critical" then crit else warn }

  lemma SeveritiesDiffer()
    ensures "critical" != "warning"
  {
    assert |"critical"| == 8 && |"warning"| == 7;
  }

  lemma {:induction false} CappedOnly(evts: seq<Event>, warn: int, crit: int, severity: string)
    requires severity == "critical" || severity == "warning"
    ensures Only(Capped(evts, warn, crit), severity) == Newest(Only(evts, severity), Slots(SlotsOf(severity, warn, crit)))
  {
    SeveritiesDiffer();
    if evts != [] {
      var row, rest := evts[0], evts[1..];
      if row.severity == "critical" && crit > 0 {
        CappedOnly(rest, warn, crit - 1, severity);
        OnlyPrepend(row, Capped(rest, warn, crit - 1), severity);
      } else if row.severity == "warning" && warn > 0 {
        CappedOnly(rest, warn - 1, crit, severity);
        OnlyPrepend(row, Capped(rest, warn - 1, crit), severity);
      } else {
        CappedOnly(rest, warn, crit, severity);
      }
    }
  }

  lemma OnlyPrepend(row: Event, tail: seq<Event>, severity: string)
    ensures Only([row] + tail, severity) == if row.severity == severity then [row] + Only(tail, severity) else Only(tail, severity)
  {
    assert ([row] + tail)[1..] == tail;
  }

  lemma {:induction false} CappedMembers(evts: seq<Event>, warn: int, crit: int)
    ensures forall row :: row in Capped(evts, warn, crit) ==> row in evts && row.severity in {"critical", "warning"}
  {
    if evts != [] {
      assert evts == [evts[0]] + evts[1..];
      if evts[0].severity == "critical" && crit > 0 {
        CappedMembers(evts[1..], warn, crit - 1);
      } else if evts[0].severity == "warning" && warn > 0 {
        CappedMembers(evts[1..], warn - 1, crit);
      } else {
        CappedMembers(evts[1..], warn, crit);
      }
    }
  }

  /** Capping keeps the newest of each severity and never lets one evict the other. */
  lemma CappedPerSeverity(evts: seq<Event>, warn: int, crit: int)
    ensures Only(Capped(evts, warn, crit), "critical") == Newest(Only(evts, "critical"), Slots(crit))
    ensures Only(Capped(evts, warn, crit), "warning") == Newest(Only(evts, "warning"), Slots(warn))
    ensures forall row :: row in Capped(evts, warn, crit) ==> row in evts && row.severity in {"critical", "warning"}
  {
    SeveritiesDiffer();
    CappedOnly(evts, warn, crit, "critical");
    CappedOnly(evts, warn, crit, "warning");
    CappedMembers(evts, warn, crit);
  }

  ghost predicate WithinCaps(st: State) {
    && |Only(st.evts, "critical")| <= Slots(st.cfg.maxCriticals)
    && |Only(st.evts, "warning")| <= Slots(st.cfg.maxWarnings)
    && forall row :: row in st.evts ==> row.severity in {"critical", "warning"}
  }

  lemma OnlyConcat(a: seq<Event>, b: seq<Event>, severity: string)
    ensures Only(a + b, severity) == Only(a, severity) + Only(b, severity)
  {
    if a == [] {
      assert a + b == b;
    } else {
      assert (a + b)[1..] == a[1..] + b;
    }
  }

  lemma OnlyMembers(evts: seq<Event>, row: Event)
    requires row in evts
    ensures row in Only(evts, row.severity)
  {
  }

  lemma MergeKeepsCaps(evts: seq<Event>, i: nat, row: Event, severity: string)
    requires i < |evts| && row.severity == evts[i].severity
    ensures |Only([row] + evts[..i] + evts[i + 1..], severity)| == |Only(evts, severity)|
  {
    assert evts == evts[..i] + ([evts[i]] + evts[i + 1..]);
    assert [row] + evts[..i] + evts[i + 1..] == [row] + (evts[..i] + evts[i + 1..]);
    OnlyConcat(evts[..i], [evts[i]] + evts[i + 1..], severity);
    OnlyConcat([evts[i]], evts[i + 1..], severity);
    OnlyConcat([row], evts[..i] + evts[i + 1..], severity);
    OnlyConcat(evts[..i], evts[i + 1..], severity);
  }

  // ------------------------------------------------------ what a call does to rows

  lemma {:induction false} LiveRowsMembers(evts: seq<Event>, cutoff: int)
    ensures forall row :: row in LiveRows(evts, cutoff) <==> row in evts && Live(row, cutoff)
  {
    if evts != [] {
      LiveRowsMembers(evts[1..], cutoff);
      assert evts == [evts[0]] + evts[1..];
    }
  }

  lemma HeadSurvives(evts: seq<Event>, cutoff: int, cfg: Retention)
    requires evts != [] && Live(evts[0], cutoff)
    requires (evts[0].severity == "critical" && cfg.maxCriticals > 0) || (evts[0].severity == "warning" && cfg.maxWarnings > 0)
    ensures CappedBy(LiveRows(evts, cutoff), cfg) != [] && CappedBy(LiveRows(evts, cutoff), cfg)[0] == evts[0]
  {
  }

  /** A first sighting is announced exactly when the event opened a row and that row is
      in the store when the call returns; a repeat never is. */
  lemma FirstSightingExactly(st: State, e: Raw, now: int)
    requires e.time.At?
    ensures var (st', n) := Ingested(st, e, now);
            && (n.first.Some? <==> FirstNear(st.evts, Fingerprint(e), e.time.t) == |st.evts| && NewRow(e) in st'.evts)
            && (n.first.Some? ==> n.first == Some(e) && st'.evts[0] == NewRow(e))
  {
    if FirstNear(st.evts, Fingerprint(e), e.time.t) == |st.evts| {
      var row, cutoff := NewRow(e), Cutoff(now, st.cfg.ttlDays);
      var all := [row] + st.evts;
      if Recorded(st, e, now) {
        HeadSurvives(all, cutoff, st.cfg);
      } else {
        LiveRowsMembers(all, cutoff);
        var rows := LiveRows(all, cutoff);
        CappedPerSeverity(rows, st.cfg.maxWarnings, st.cfg.maxCriticals);
        if row in CappedBy(rows, st.cfg) { OnlyMembers(CappedBy(rows, st.cfg), row); }
      }
    }
  }

  /** What is fixed about a row from the sighting that opened it. */
  datatype Identity = Identity(id: RowId, fingerprint: string, severity: string)

  ghost function IdentityOf(row: Event): Identity {
    Identity(row.id, StoredFingerprint(row), row.severity)
  }

  lemma {:induction false} LiveRowsSublist(evts: seq<Event>, cutoff: int)
    ensures Sublist(LiveRows(evts, cutoff), evts)
  {
    if evts != [] { LiveRowsSublist(evts[1..], cutoff); }
  }

  lemma {:induction false} CappedSublist(evts: seq<Event>, warn: int, crit: int)
    ensures Sublist(Capped(evts, warn, crit), evts)
  {
    if evts != [] {
      CappedSublist(evts[1..], warn, crit);
      CappedSublist(evts[1..], warn - 1, crit);
      CappedSublist(evts[1..], warn, crit - 1);
    }
  }

  lemma RetainedSublist(evts: seq<Event>, cutoff: int, cfg: Retention)
    ensures Sublist(Retained(evts, cutoff, cfg), evts)
  {
    LiveRowsSublist(evts, cutoff);
    CappedSublist(LiveRows(evts, cutoff), cfg.maxWarnings, cfg.maxCriticals);
    SublistTransitive(CappedBy(LiveRows(evts, cutoff), cfg), LiveRows(evts, cutoff), evts);
  }

  lemma RefreshedKeepsIdentity(row: Event, e: Raw)
    ensures IdentityOf(Refreshed(row, e)) == IdentityOf(row)
  {
  }

  /** The rows of a new event's call that do not stay. */
  lemma Evicted(st: State, e: Raw, now: int) returns (evicted: seq<Event>)
    requires e.time.At? && FirstNear(st.evts, Fingerprint(e), e.time.t) == |st.evts|
    ensures multiset(Ingested(st, e, now).0.evts + evicted) == multiset([NewRow(e)] + st.evts)
  {
    var all, cutoff := [NewRow(e)] + st.evts, Cutoff(now, st.cfg.ttlDays);
    RetainedSublist(all, cutoff, st.cfg);
    evicted := LeftOut(Retained(all, cutoff, st.cfg), all);
  }

  lemma RepeatIdentities(evts: seq<Event>, i: nat, e: Raw)
    requires i < |evts|
    ensures Image(Folded(evts, i, e), IdentityOf) == Image(evts, IdentityOf)
  {
    RefreshedKeepsIdentity(evts[i], e);
    ImageMoved(evts, i, Refreshed(evts[i], e), IdentityOf);
  }

  /** A repeat changes no row's id, fingerprint or severity. */
  lemma RepeatKeepsIdentities(st: State, e: Raw, now: int)
    requires e.time.At? && FirstNear(st.evts, Fingerprint(e), e.time.t) < |st.evts|
    ensures Image(Ingested(st, e, now).0.evts, IdentityOf) == Image(st.evts, IdentityOf)
  {
    RepeatIdentities(st.evts, FirstNear(st.evts, Fingerprint(e), e.time.t), e);
  }

  /** Nor does a new event: identities before and its own are those that stay and those
      of the rows evicted. */
  lemma NewEventKeepsIdentities(st: State, e: Raw, now: int) returns (evicted: seq<Event>)
    requires e.time.At? && FirstNear(st.evts, Fingerprint(e), e.time.t) == |st.evts|
    ensures multiset(Ingested(st, e, now).0.evts + evicted) == multiset([NewRow(e)] + st.evts)
    ensures Image(Ingested(st, e, now).0.evts, IdentityOf) + Image(evicted, IdentityOf)
         == multiset{IdentityOf(NewRow(e))} + Image(st.evts, IdentityOf)
  {
    evicted := Evicted(st, e, now);
    var after := Ingested(st, e, now).0.evts;
    ImagePermutation(after + evicted, [NewRow(e)] + st.evts, IdentityOf);
    ImageConcat(after, evicted, IdentityOf);
    ImageConcat([NewRow(e)], st.evts, IdentityOf);
  }

  function CountOf(row: Event): int { row.count }

  /** Every accepted event is counted once: stored counts, with the counts of the rows
      evicted in the call, go up by exactly one. A repeat evicts nothing. */
  lemma IngestedConserves(st: State, e: Raw, now: int) returns (evicted: seq<Event>)
    requires e.time.At?
    ensures var st' := Ingested(st, e, now).0;
            && Sum(st'.evts, CountOf) + Sum(evicted, CountOf) == Sum(st.evts, CountOf) + 1
            && (if FirstNear(st.evts, Fingerprint(e), e.time.t) < |st.evts| then evicted == []
                else multiset(st'.evts) + multiset(evicted) == multiset(st.evts) + multiset{NewRow(e)})
  {
    var i := FirstNear(st.evts, Fingerprint(e), e.time.t);
    if i < |st.evts| {
      evicted := [];
      SumMoved(st.evts, i, Refreshed(st.evts[i], e), CountOf);
    } else {
      evicted := Evicted(st, e, now);
      var after := Ingested(st, e, now).0.evts;
      SumPermutation(after + evicted, [NewRow(e)] + st.evts, CountOf);
      SumConcat(after, evicted, CountOf);
      SumConcat([NewRow(e)], st.evts, CountOf);
    }
  }

  // ------------------------------------------------------------ apart in time

  /** Rows of one fingerprint are at least the dedup window apart. */
  predicate Apart(a: Event, b: Event) {
    || a.time.Garbled? || b.time.Garbled?
    || Clock.Abs(a.time.t - b.time.t) >= DEDUP_WINDOW
    || StoredFingerprint(a) != StoredFingerprint(b)
  }

  ghost predicate Separated(evts: seq<Event>) { Pairwise(evts, Apart) }

  ghost predicate Readable(evts: seq<Event>) {
    forall row :: row in evts ==> row.time.At?
  }

  ghost predicate NotAfter(evts: seq<Event>, t: int) {
    forall row :: row in evts ==> row.time.At? && row.time.t <= t
  }

  lemma StoredIsRaw(e: Raw)
    ensures StoredFingerprint(NewRow(e)) == Fingerprint(e)
  {
  }

  lemma RefreshedFingerprint(row: Event, e: Raw)
    ensures StoredFingerprint(Refreshed(row, e)) == StoredFingerprint(row)
  {
  }

  lemma ApartUnlessNear(a: Event, b: Event, fp: string, t: int)
    requires a.time == At(t) && StoredFingerprint(a) == fp && b.time.At?
    ensures Apart(a, b) <==> !Near(b, fp, t)
  {
  }

  lemma SeparatedCons(row: Event, rest: seq<Event>)
    ensures Separated([row] + rest) <==> Separated(rest) && forall x :: x in rest ==> Apart(row, x)
  {
    var all := [row] + rest;
    if Separated(all) {
      forall i, j | 0 <= i < j < |rest| ensures Apart(rest[i], rest[j]) {
        assert all[i + 1] == rest[i] && all[j + 1] == rest[j];
      }
      forall x | x in rest ensures Apart(row, x) {
        var j :| 0 <= j < |rest| && rest[j] == x;
        assert all[0] == row && all[j + 1] == x;
      }
    }
    if Separated(rest) && forall x :: x in rest ==> Apart(row, x) {
      forall i, j | 0 <= i < j < |all| ensures Apart(all[i], all[j]) {
        assert all[j] == rest[j - 1] && all[j] in rest;
        if i > 0 { assert all[i] == rest[i - 1]; }
      }
    }
  }

  lemma {:induction false} WithoutIsSublist(evts: seq<Event>, i: nat)
    requires i < |evts|
    ensures Sublist(evts[..i] + evts[i + 1..], evts)
  {
    if i == 0 {
      assert evts[..0] + evts[1..] == evts[1..];
      SublistRefl(evts[1..]);
    } else {
      WithoutIsSublist(evts[1..], i - 1);
      assert (evts[..i] + evts[i + 1..])[1..] == evts[1..][..i - 1] + evts[1..][i..];
    }
  }

  lemma RepeatSeparatedExactly(evts: seq<Event>, e: Raw, t: int, i: nat)
    requires Separated(evts) && Readable(evts) && e.time == At(t) && i == FirstNear(evts, Fingerprint(e), t) < |evts|
    ensures Separated(Folded(evts, i, e))
       <==> !exists j :: i < j < |evts| && Near(evts[j], Fingerprint(e), t)
  {
    var row, rest, fp := Refreshed(evts[i], e), evts[..i] + evts[i + 1..], Fingerprint(e);
    WithoutIsSublist(evts, i);
    SublistPairwise(rest, evts, Apart);
    assert [row] + evts[..i] + evts[i + 1..] == [row] + rest;
    SeparatedCons(row, rest);
    RefreshedFingerprint(evts[i], e);
    forall x | x in rest ensures Apart(row, x) <==> !Near(x, fp, t) {
      assert x in evts;
      ApartUnlessNear(row, x, fp, t);
    }
    NearElsewhere(evts, i, fp, t);
  }

  lemma NearElsewhere(evts: seq<Event>, i: nat, fp: string, t: int)
    requires i < |evts| && forall j :: 0 <= j < i ==> !Near(evts[j], fp, t)
    ensures (exists x :: x in evts[..i] + evts[i + 1..] && Near(x, fp, t))
       <==> exists j :: i < j < |evts| && Near(evts[j], fp, t)
  {
    ElsewhereSatisfied(evts, i, (row: Event) => Near(row, fp, t));
  }

  lemma OpenedSeparated(st: State, e: Raw, cutoff: int)
    requires Separated(st.evts) && Readable(st.evts) && e.time.At?
    requires FirstNear(st.evts, Fingerprint(e), e.time.t) == |st.evts|
    ensures Separated(Opened(st.evts, e, cutoff, st.cfg))
  {
    NewRowApart(st, e);
    var all := [NewRow(e)] + st.evts;
    RetainedSublist(all, cutoff, st.cfg);
    SublistPairwise(Retained(all, cutoff, st.cfg), all, Apart);
  }

  /** Whether one call keeps rows of one fingerprint apart: a new row always does, a
      repeat exactly when it is near one row only. */
  lemma IngestedSeparatedExactly(st: State, e: Raw, now: int, i: nat)
    requires Separated(st.evts) && Readable(st.evts) && e.time.At?
    requires i == FirstNear(st.evts, Fingerprint(e), e.time.t)
    ensures Separated(Ingested(st, e, now).0.evts)
       <==> !exists j :: i < j < |st.evts| && Near(st.evts[j], Fingerprint(e), e.time.t)
  {
    if i < |st.evts| {
      RepeatSeparatedExactly(st.evts, e, e.time.t, i);
    } else {
      OpenedSeparated(st, e, Cutoff(now, st.cfg.ttlDays));
    }
  }

  lemma NewRowApart(st: State, e: Raw)
    requires Separated(st.evts) && Readable(st.evts) && e.time.At?
    requires FirstNear(st.evts, Fingerprint(e), e.time.t) == |st.evts|
    ensures Separated([NewRow(e)] + st.evts)
  {
    StoredIsRaw(e);
    forall x | x in st.evts ensures Apart(NewRow(e), x) {
      ApartUnlessNear(NewRow(e), x, Fingerprint(e), e.time.t);
    }
    SeparatedCons(NewRow(e), st.evts);
  }

  /** An event no older than the rows is near one row at most. */
  lemma InOrderNearOne(evts: seq<Event>, fp: string, t: int, i: nat, j: nat)
    requires Separated(evts) && NotAfter(evts, t) && i < j < |evts|
    ensures !(Near(evts[i], fp, t) && Near(evts[j], fp, t))
  {
    assert Apart(evts[i], evts[j]);
    assert evts[i] in evts && evts[j] in evts;
  }

  lemma RepeatTimes(evts: seq<Event>, i: nat, e: Raw)
    requires e.time.At? && NotAfter(evts, e.time.t) && i < |evts|
    ensures NotAfter(Folded(evts, i, e), e.time.t)
  {
    forall row | row in evts[..i] + evts[i + 1..] ensures row.time.At? && row.time.t <= e.time.t { assert row in evts; }
  }

  lemma OpenedTimes(evts: seq<Event>, e: Raw, cutoff: int, cfg: Retention)
    requires e.time.At? && NotAfter(evts, e.time.t)
    ensures NotAfter(Opened(evts, e, cutoff, cfg), e.time.t)
  {
    var all := [NewRow(e)] + evts;
    RetainedSublist(all, cutoff, cfg);
    SublistMembers(Retained(all, cutoff, cfg), all);
  }

  lemma IngestedTimes(st: State, e: Raw, now: int)
    requires e.time.At? && NotAfter(st.evts, e.time.t)
    ensures NotAfter(Ingested(st, e, now).0.evts, e.time.t)
  {
    var i := FirstNear(st.evts, Fingerprint(e), e.time.t);
    if i < |st.evts| {
      RepeatTimes(st.evts, i, e);
    } else {
      OpenedTimes(st.evts, e, Cutoff(now, st.cfg.ttlDays), st.cfg);
    }
  }

  /** Out of order, two rows of one event can end up within the window: a third
      sighting between them folds into the first and moves it next to the second. */
  lemma OutOfOrderCollides(e: Raw, cfg: Retention, t: int)
    ensures var late, early := e.(time := At(t + 50 * SECOND)), e.(time := At(t));
            var st := State([NewRow(late), NewRow(early)], cfg, 0);
            Separated(st.evts) && !Separated(Ingested(st, e.(time := At(t + 25 * SECOND)), t).0.evts)
  {
    var late, early, mid := e.(time := At(t + 50 * SECOND)), e.(time := At(t)), e.(time := At(t + 25 * SECOND));
    var st := State([NewRow(late), NewRow(early)], cfg, 0);
    assert Apart(st.evts[0], st.evts[1]);
    StoredIsRaw(late);
    StoredIsRaw(early);
    SameFingerprint(late, mid);
    SameFingerprint(early, mid);
    assert Near(st.evts[0], Fingerprint(mid), t + 25 * SECOND) && Near(st.evts[1], Fingerprint(mid), t + 25 * SECOND);
    IngestedSeparatedExactly(st, mid, t, 0);
  }

  lemma SameFingerprint(a: Raw, b: Raw)
    requires a == b.(time := a.time)
    ensures Fingerprint(a) == Fingerprint(b)
  {
  }

  // ----------------------------------------------- one call, in the event's own fields

  /** A port the kernel picked for one connection, or the marker that stands for such. */
  ghost predicate ClientPort(port: string) {
    ':' !in port && (port == "dynamic" || (ParseInt64(port).Some? && ParseInt64(port).value >= 32768))
  }

  /** Two client addresses count as one: they are equal, or differ in client ports only. */
  ghost predicate SameClient(a: string, b: string) {
    a == b || exists host, p, q :: PortsOnly(a, b, host, p, q)
  }

  ghost predicate PortsOnly(a: string, b: string, host: string, p: string, q: string) {
    ClientPort(p) && ClientPort(q) && a == host + ":" + p && b == host + ":" + q
  }

  lemma PortOf(addr: string) returns (host: string, port: string)
    requires Host(addr) != ""
    ensures ':' !in port && addr == host + ":" + port && Host(addr) == host + ":" && port == addr[FindLast(addr, ':') + 1..]
  {
    var i := FindLast(addr, ':');
    host, port := addr[..i], addr[i + 1..];
    assert addr[..i + 1] == host + ":";
  }

  lemma HostOf(host: string, port: string)
    requires ':' !in port
    ensures Host(host + ":" + port) == host + ":" && Collapsible(host + ":" + port) <==> ClientPort(port)
  {
    var addr := host + ":" + port;
    FindLastAt(host, port);
    assert addr[..|host| + 1] == host + ":" && addr[|host| + 1..] == port;
    assert addr == host + ":" + "dynamic" ==> addr[|host| + 1..] == "dynamic";
  }

  lemma CollapsedDiffer(a: string, b: string) returns (host: string, p: string, q: string)
    requires Host(a) == Host(b) && Collapsible(a) && Collapsible(b)
    ensures PortsOnly(a, b, host, p, q)
  {
    host, p := PortOf(a);
    var host';
    host', q := PortOf(b);
    assert host == Host(a)[..|Host(a)| - 1] == host';
    HostOf(host, p);
    HostOf(host, q);
  }

  lemma DifferCollapsed(a: string, b: string, host: string, p: string, q: string)
    requires PortsOnly(a, b, host, p, q)
    ensures Host(a) == Host(b) && Collapsible(a) && Collapsible(b)
  {
    HostOf(host, p);
    HostOf(host, q);
  }

  /** Addresses collapse to one exactly when client ports alone tell them apart. */
  lemma CollapseMeans(a: string, b: string)
    ensures CollapseEphemeralPort(a) == CollapseEphemeralPort(b) <==> SameClient(a, b)
  {
    CollapseExactly(a, b);
    if Host(a) == Host(b) && Collapsible(a) && Collapsible(b) { var host, p, q := CollapsedDiffer(a, b); }
    if host, p, q :| PortsOnly(a, b, host, p, q) { DifferCollapsed(a, b, host, p, q); }
  }

  /** One event by every field that is compared. */
  ghost predicate SameEvent(row: Event, e: Raw) {
    && (row.namespace, row.pod, row.binary, row.func, row.policyName) == (e.namespace, e.pod, e.binary, e.func, e.policyName)
    && (row.action, row.filePath, row.fileOp, row.netDest) == (e.action, e.filePath, e.fileOp, e.netDest)
    && SameClient(row.netSrc, e.netSrc)
  }

  ghost predicate SeenAgain(row: Event, e: Raw) {
    row.time.At? && e.time.At? && -30_000_000_000 < e.time.t - row.time.t < 30_000_000_000 && SameEvent(row, e)
  }

  lemma NearExactly(row: Event, e: Raw)
    requires e.time.At? && BarFree(RowFields(row)) && BarFree(RawFields(e))
    ensures Near(row, Fingerprint(e), e.time.t) <==> SeenAgain(row, e)
  {
    FingerprintExactly(row, e);
    CollapseMeans(row.netSrc, e.netSrc);
    FieldsExactly(row, e);
  }

  lemma FieldsExactly(row: Event, e: Raw)
    ensures RowFields(row) == RawFields(e)
       <==> && (row.namespace, row.pod, row.binary, row.func, row.policyName) == (e.namespace, e.pod, e.binary, e.func, e.policyName)
            && (row.action, row.filePath, row.fileOp, row.netDest) == (e.action, e.filePath, e.fileOp, e.netDest)
            && CollapseEphemeralPort(row.netSrc) == CollapseEphemeralPort(e.netSrc)
  {
    var a, b := RowFields(row), RawFields(e);
    if a == b {
      assert a[0] == b[0] && a[1] == b[1] && a[2] == b[2] && a[3] == b[3] && a[4] == b[4];
      assert a[5] == b[5] && a[6] == b[6] && a[7] == b[7] && a[8] == b[8] && a[9] == b[9];
    }
  }

  /** The row an event opens: seen once, critical exactly when something was killed or
      denied, and everything else as the event has it. */
  ghost predicate IsOpened(row: Event, e: Raw) {
    && row.count == 1 && row.time == e.time && row.id == RowId(e.time, e.pod, e.binary, e.policyName)
    && row.severity == (if e.action in {"kill", "deny"} then "critical" else "warning")
    && row.hook == (if e.kind in {"kprobe", "tracepoint", "uprobe", "lsm"} then e.kind else "")
    && (row.namespace, row.pod, row.container, row.nodeName) == (e.namespace, e.pod, e.container, e.nodeName)
    && (row.binary, row.arguments, row.parentBin, row.processUID) == (e.binary, e.arguments, e.parentBin, e.processUID)
    && (row.func, row.policyName, row.action, row.dropReason) == (e.func, e.policyName, e.action, e.dropReason)
    && (row.filePath, row.fileOp, row.netDest, row.netSrc) == (e.filePath, e.fileOp, e.netDest, e.netSrc)
  }

  /** The row after one more sighting: counted, at the event's time, with what the event
      knows where the row knew nothing, and no other change. */
  ghost predicate IsSeenAgain(before: Event, after: Event, e: Raw) {
    && after.count == before.count + 1 && after.time == e.time
    && after.container == (if before.container != "" then before.container else e.container)
    && after.dropReason == (if before.dropReason != "" then before.dropReason else e.dropReason)
    && after.hook == (if before.hook != "" then before.hook
                      else if e.kind in {"kprobe", "tracepoint", "uprobe", "lsm"} then e.kind else "")
    && before == after.(count := before.count, time := before.time, container := before.container,
                        dropReason := before.dropReason, hook := before.hook)
  }

  /** Newer than the retention allows, in days of 86,400 seconds. */
  ghost predicate InTime(row: Event, now: int, cfg: Retention) {
    row.time.At? && now - row.time.t < cfg.ttlDays * 86_400 * 1_000_000_000
  }

  ghost function KeptAs(severity: string, now: int, cfg: Retention): Event -> bool {
    (row: Event) => InTime(row, now, cfg) && row.severity == severity
  }

  ghost function OfSeverity(severity: string): Event -> bool { (row: Event) => row.severity == severity }

  ghost predicate FirstOf(a: seq<Event>, b: seq<Event>, cap: int) {
    a <= b && |a| == if cap <= 0 then 0 else if cap < |b| then cap else |b|
  }

  /** Of the rows, in their order, those of each severity that are kept first come to
      stand, up to the cap. */
  ghost predicate CappedOf(after: seq<Event>, rows: seq<Event>, cfg: Retention, criticals: Event -> bool, warnings: Event -> bool) {
    && Sublist(after, rows) && (forall row :: row in after ==> row.severity in {"critical", "warning"})
    && FirstOf(Filtered(after, OfSeverity("critical")), Filtered(rows, criticals), cfg.maxCriticals)
    && FirstOf(Filtered(after, OfSeverity("warning")), Filtered(rows, warnings), cfg.maxWarnings)
  }

  ghost predicate KeptOf(after: seq<Event>, rows: seq<Event>, now: int, cfg: Retention) {
    CappedOf(after, rows, cfg, KeptAs("critical", now, cfg), KeptAs("warning", now, cfg))
  }

  lemma {:induction false} OnlyIsFiltered(rows: seq<Event>, severity: string, keep: Event -> bool)
    requires forall row :: keep(row) <==> row.severity == severity
    ensures Only(rows, severity) == Filtered(rows, keep)
  {
    if rows != [] {
      OnlyIsFiltered(rows[1..], severity, keep);
      FilteredCons(rows[0], rows[1..], keep);
      assert rows == [rows[0]] + rows[1..];
    }
  }

  lemma {:induction false} OnlyLiveIsFiltered(rows: seq<Event>, cutoff: int, severity: string, keep: Event -> bool)
    requires forall row :: keep(row) <==> Live(row, cutoff) && row.severity == severity
    ensures Only(LiveRows(rows, cutoff), severity) == Filtered(rows, keep)
  {
    if rows != [] {
      OnlyLiveIsFiltered(rows[1..], cutoff, severity, keep);
      FilteredCons(rows[0], rows[1..], keep);
      OnlyPrepend(rows[0], LiveRows(rows[1..], cutoff), severity);
      assert rows == [rows[0]] + rows[1..];
    }
  }

  lemma RetainedIs(rows: seq<Event>, cutoff: int, cfg: Retention, criticals: Event -> bool, warnings: Event -> bool)
    requires forall row :: criticals(row) <==> Live(row, cutoff) && row.severity == "critical"
    requires forall row :: warnings(row) <==> Live(row, cutoff) && row.severity == "warning"
    ensures CappedOf(Retained(rows, cutoff, cfg), rows, cfg, criticals, warnings)
  {
    var live := LiveRows(rows, cutoff);
    RetainedSublist(rows, cutoff, cfg);
    CappedPerSeverity(live, cfg.maxWarnings, cfg.maxCriticals);
    OnlyLiveIsFiltered(rows, cutoff, "critical", criticals);
    OnlyLiveIsFiltered(rows, cutoff, "warning", warnings);
    CappedFirst(live, CappedBy(live, cfg), "critical", cfg.maxCriticals);
    CappedFirst(live, CappedBy(live, cfg), "warning", cfg.maxWarnings);
  }

  lemma CappedFirst(live: seq<Event>, after: seq<Event>, severity: string, cap: int)
    requires Only(after, severity) == Newest(Only(live, severity), Slots(cap))
    ensures FirstOf(Filtered(after, OfSeverity(severity)), Only(live, severity), cap)
  {
    OnlyIsFiltered(after, severity, OfSeverity(severity));
  }

  lemma RetainedIsKept(rows: seq<Event>, now: int, cfg: Retention)
    ensures KeptOf(Retained(rows, Cutoff(now, cfg.ttlDays), cfg), rows, now, cfg)
  {
    RetainedIs(rows, Cutoff(now, cfg.ttlDays), cfg, KeptAs("critical", now, cfg), KeptAs("warning", now, cfg));
  }

  /** The first row that repeats the event counts it and comes to the front; only the live
      feed is told. */
  ghost predicate CountedOnce(before: seq<Event>, e: Raw, after: seq<Event>, n: Notice) {
    exists i :: 0 <= i < |before| && SeenAgain(before[i], e) && (forall j :: 0 <= j < i ==> !SeenAgain(before[j], e))
                && IsSeenAgain(before[i], n.feed, e) && after == [n.feed] + before[..i] + before[i + 1..] && n.first.None?
  }

  /** The event opens a row in front, rows then expire and are capped; the live feed is
      told, and the feed of first sightings exactly if the row is in time and has a slot. */
  ghost predicate RowOpened(before: State, e: Raw, now: int, after: seq<Event>, n: Notice) {
    && IsOpened(n.feed, e) && KeptOf(after, [n.feed] + before.evts, now, before.cfg)
    && n.first == if InTime(n.feed, now, before.cfg)
                     && (if n.feed.severity == "critical" then before.cfg.maxCriticals else before.cfg.maxWarnings) > 0
                  then Some(e) else None
  }

  ghost predicate TakenIn(before: State, e: Raw, now: int, after: State, n: Notice) {
    && after.cfg == before.cfg && after.gen == before.gen + 1
    && if exists row :: row in before.evts && SeenAgain(row, e) then CountedOnce(before.evts, e, after.evts, n)
       else RowOpened(before, e, now, after.evts, n)
  }

  lemma FirstNearIs(evts: seq<Event>, fp: string, t: int, seen: Event -> bool)
    requires forall row :: row in evts ==> (Near(row, fp, t) <==> seen(row))
    ensures var i := FirstNear(evts, fp, t);
            && (i == |evts| <==> !exists row :: row in evts && seen(row))
            && (i < |evts| ==> seen(evts[i])) && (forall j :: 0 <= j < i ==> !seen(evts[j]))
  {
  }

  ghost function SeenAgainBy(e: Raw): Event -> bool { (row: Event) => SeenAgain(row, e) }

  lemma FirstNearExactly(evts: seq<Event>, e: Raw)
    requires e.time.At? && BarFree(RawFields(e)) && forall row :: row in evts ==> BarFree(RowFields(row))
    ensures var i := FirstNear(evts, Fingerprint(e), e.time.t);
            && (i == |evts| <==> !exists row :: row in evts && SeenAgainBy(e)(row))
            && (i < |evts| ==> SeenAgainBy(e)(evts[i])) && (forall j :: 0 <= j < i ==> !SeenAgainBy(e)(evts[j]))
  {
    forall row | row in evts ensures Near(row, Fingerprint(e), e.time.t) <==> SeenAgainBy(e)(row) { NearExactly(row, e); }
    FirstNearIs(evts, Fingerprint(e), e.time.t, SeenAgainBy(e));
  }

  lemma RefreshedExactly(row: Event, e: Raw)
    ensures IsSeenAgain(row, Refreshed(row, e), e)
  {
  }

  lemma NewRowExactly(e: Raw)
    ensures IsOpened(NewRow(e), e)
  {
  }

  lemma RepeatCountedOnce(st: State, e: Raw, now: int, i: nat)
    requires e.time.At? && i == FirstNear(st.evts, Fingerprint(e), e.time.t) < |st.evts|
    requires SeenAgain(st.evts[i], e) && forall j :: 0 <= j < i ==> !SeenAgain(st.evts[j], e)
    ensures CountedOnce(st.evts, e, Ingested(st, e, now).0.evts, Ingested(st, e, now).1)
  {
    RefreshedExactly(st.evts[i], e);
    assert IsSeenAgain(st.evts[i], Ingested(st, e, now).1.feed, e);
  }

  lemma NewRowOpened(st: State, e: Raw, now: int)
    requires e.time.At? && FirstNear(st.evts, Fingerprint(e), e.time.t) == |st.evts|
    ensures RowOpened(st, e, now, Ingested(st, e, now).0.evts, Ingested(st, e, now).1)
  {
    NewRowExactly(e);
    RecordedExactly(st, e, now);
    RetainedIsKept([NewRow(e)] + st.evts, now, st.cfg);
  }

  lemma RecordedExactly(st: State, e: Raw, now: int)
    requires e.time.At?
    ensures var row := NewRow(e);
            Recorded(st, e, now) <==>
              InTime(row, now, st.cfg) && (if row.severity == "critical" then st.cfg.maxCriticals else st.cfg.maxWarnings) > 0
  {
  }

  lemma IngestedTakenIn(st: State, e: Raw, now: int)
    requires e.time.At? && BarFree(RawFields(e)) && forall row :: row in st.evts ==> BarFree(RowFields(row))
    ensures TakenIn(st, e, now, Ingested(st, e, now).0, Ingested(st, e, now).1)
  {
    var i := FirstNear(st.evts, Fingerprint(e), e.time.t);
    FirstNearExactly(st.evts, e);
    forall row ensures SeenAgainBy(e)(row) <==> SeenAgain(row, e) { }
    if i < |st.evts| { RepeatCountedOnce(st, e, now, i); } else { NewRowOpened(st, e, now); }
    assert i < |st.evts| <==> exists row :: row in st.evts && SeenAgain(row, e);
  }

  /** What the store makes of any event on the bus: nothing unless a hook fired for a
      policy or a policy denied; and one without a readable time is taken as arriving. */
  lemma AddedExactly(st: State, e: Raw, arrival: int, now: int)
    requires BarFree(RawFields(e)) && forall row :: row in st.evts ==> BarFree(RowFields(row))
    ensures var (st', n) := Added(st, e, arrival, now);
            if e.kind in {"kprobe", "tracepoint", "uprobe", "lsm", "policy-deny"} && e.policyName != "" then
              n.Some? && TakenIn(st, if e.time.At? then e else e.(time := At(arrival)), now, st', n.value)
            else st' == st && n.None?
  {
    var s := Stamped(e, arrival);
    assert RawFields(s) == RawFields(e);
    if e.IsSecurityEvent() { IngestedTakenIn(st, s, now); }
    KindsNamed(e);
  }

  lemma KindsNamed(e: Raw)
    ensures e.IsSecurityEvent() <==> e.kind in {"kprobe", "tracepoint", "uprobe", "lsm", "policy-deny"} && e.policyName != ""
  {
    assert "kprobe"[0] == 'k' && "tracepoint"[0] == 't' && "uprobe"[0] == 'u' && "lsm"[0] == 'l';
  }

  // ------------------------------------------------------------------ every run

  datatype Op = Add(e: Raw, arrival: int, now: int) | SetRetention(cfg: Retention)

  function Step(st: State, op: Op): State {
    match op
    case Add(e, arrival, now) => Added(st, e, arrival, now).0
    case SetRetention(cfg) => Reconfigured(st, cfg)
  }

  function Run(st: State, ops: seq<Op>): State {
    if ops == [] then st else Step(Run(st, ops[..|ops| - 1]), ops[|ops| - 1])
  }

  ghost predicate Accepts(op: Op) { op.Add? && op.e.IsSecurityEvent() }

  function TimeOf(op: Op): int
    requires op.Add?
  {
    Stamped(op.e, op.arrival).time.t
  }

  /** The accepted events come in the order of their times. */
  ghost predicate InOrder(ops: seq<Op>) {
    forall i, j :: 0 <= i < j < |ops| && Accepts(ops[i]) && Accepts(ops[j]) ==> TimeOf(ops[i]) <= TimeOf(ops[j])
  }

  lemma ReconfiguredKeeps(st: State, cfg: Retention, t: int)
    requires Separated(st.evts) && NotAfter(st.evts, t)
    ensures Separated(Reconfigured(st, cfg).evts) && NotAfter(Reconfigured(st, cfg).evts, t)
  {
    CappedSublist(st.evts, cfg.maxWarnings, cfg.maxCriticals);
    SublistPairwise(CappedBy(st.evts, cfg), st.evts, Apart);
    SublistMembers(CappedBy(st.evts, cfg), st.evts);
  }

  lemma IngestedInOrder(st: State, e: Raw, now: int)
    requires e.time.At? && Separated(st.evts) && NotAfter(st.evts, e.time.t)
    ensures Separated(Ingested(st, e, now).0.evts) && NotAfter(Ingested(st, e, now).0.evts, e.time.t)
  {
    var i := FirstNear(st.evts, Fingerprint(e), e.time.t);
    forall j | i < j < |st.evts| ensures !Near(st.evts[j], Fingerprint(e), e.time.t) {
      InOrderNearOne(st.evts, Fingerprint(e), e.time.t, i, j);
    }
    IngestedSeparatedExactly(st, e, now, i);
    IngestedTimes(st, e, now);
  }

  /** In every run from an empty store whose events come in order, no two rows of one
      fingerprint are ever within the window of each other. */
  lemma {:induction false} EveryOrderedRunSeparated(cfg: Retention, ops: seq<Op>, t: int)
    requires InOrder(ops) && forall op :: op in ops && Accepts(op) ==> TimeOf(op) <= t
    ensures Separated(Run(State([], cfg, 0), ops).evts) && NotAfter(Run(State([], cfg, 0), ops).evts, t)
  {
    if ops != [] {
      var init, op := ops[..|ops| - 1], ops[|ops| - 1];
      var st := Run(State([], cfg, 0), init);
      if Accepts(op) {
        forall i | 0 <= i < |init| && Accepts(init[i]) ensures TimeOf(init[i]) <= TimeOf(op) {
          assert ops[i] == init[i];
        }
        EveryOrderedRunSeparated(cfg, init, TimeOf(op));
        IngestedInOrder(st, Stamped(op.e, op.arrival), op.now);
        assert op in ops;
      } else {
        EveryOrderedRunSeparated(cfg, init, t);
        if op.SetRetention? { ReconfiguredKeeps(st, op.cfg, t); }
      }
    }
  }

  lemma CappedWithin(evts: seq<Event>, cfg: Retention, gen: nat)
    ensures WithinCaps(State(CappedBy(evts, cfg), cfg, gen))
  {
    CappedPerSeverity(evts, cfg.maxWarnings, cfg.maxCriticals);
  }

  lemma IngestedWithinCaps(st: State, e: Raw, now: int)
    requires e.time.At? && WithinCaps(st)
    ensures WithinCaps(Ingested(st, e, now).0)
  {
    var i := FirstNear(st.evts, Fingerprint(e), e.time.t);
    if i < |st.evts| {
      MergeKeepsCaps(st.evts, i, Refreshed(st.evts[i], e), "critical");
      MergeKeepsCaps(st.evts, i, Refreshed(st.evts[i], e), "warning");
      assert st.evts[i] in st.evts;
    } else {
      CappedWithin(LiveRows([NewRow(e)] + st.evts, Cutoff(now, st.cfg.ttlDays)), st.cfg, st.gen + 1);
    }
  }

  /** Both caps hold in every reachable state, whatever the order of the times. */
  lemma {:induction false} EveryRunWithinCaps(st: State, ops: seq<Op>)
    requires WithinCaps(st)
    ensures WithinCaps(Run(st, ops))
  {
    if ops != [] {
      var init, op := ops[..|ops| - 1], ops[|ops| - 1];
      EveryRunWithinCaps(st, init);
      var s := Run(st, init);
      if Accepts(op) {
        IngestedWithinCaps(s, Stamped(op.e, op.arrival), op.now);
      } else if op.SetRetention? {
        CappedWithin(s.evts, op.cfg, s.gen + 1);
      }
    }
  }

  // ------------------------------------------------------------------ the store

  datatype File = File(events: seq<Event>, retention: Option<Retention>)

  /** On reading the file back, a row exactly at the cutoff is kept. */
  ghost function Loaded(file: File, now: int): State {
    var cfg := if file.retention.Some? then file.retention.value else DEFAULT_RETENTION;
    State(Retained(file.events, Cutoff(now, cfg.ttlDays) - 1, cfg), cfg, 0)
  }

  /** On reading a file back: of each severity, in their order, the first rows that are not
      older than the retention allows. */
  ghost function ReadBackAs(severity: string, now: int, cfg: Retention): Event -> bool {
    (row: Event) => row.time.At? && now - row.time.t <= cfg.ttlDays * 86_400 * 1_000_000_000 && row.severity == severity
  }

  lemma LoadedExactly(file: File, now: int)
    ensures var st := Loaded(file, now);
            && st.cfg == (if file.retention.Some? then file.retention.value else Retention(500, 300, 7))
            && CappedOf(st.evts, file.events, st.cfg, ReadBackAs("critical", now, st.cfg), ReadBackAs("warning", now, st.cfg))
  {
    var cfg := Loaded(file, now).cfg;
    RetainedIs(file.events, Cutoff(now, cfg.ttlDays) - 1, cfg, ReadBackAs("critical", now, cfg), ReadBackAs("warning", now, cfg));
  }

  /** One turn of the capping loop. */
  lemma CappedStep(rows: seq<Event>, i: nat, out: seq<Event>, warn: int, crit: int)
    requires i < |rows|
    ensures out + Capped(rows[i..], warn, crit)
         == if rows[i].severity == "critical" && crit > 0 then out + [rows[i]] + Capped(rows[i + 1..], warn, crit - 1)
            else if rows[i].severity == "warning" && warn > 0 then out + [rows[i]] + Capped(rows[i + 1..], warn - 1, crit)
            else out + Capped(rows[i + 1..], warn, crit)
  {
    assert rows[i..][0] == rows[i] && rows[i..][1..] == rows[i + 1..];
  }

  class Store {
    var evts: seq<Event>
    var cfg: Retention
    var flushGen: nat

    ghost function Now(): State
      reads this
    {
      State(evts, cfg, flushGen)
    }

    constructor (file: Option<File>, now: int)
      ensures Now() == if file.Some? then Loaded(file.value, now) else State([], Retention(500, 300, 7), 0)
    {
      evts, cfg, flushGen := [], DEFAULT_RETENTION, 0;
      new;
      if file.Some? {
        if file.value.retention.Some? { cfg := file.value.retention.value; }
        var rows := Filter(file.value.events, Cutoff(now, cfg.ttlDays) - 1);
        evts := CapBySeverity(rows);
      }
    }

    static method Filter(rows: seq<Event>, cutoff: int) returns (out: seq<Event>)
      ensures out == LiveRows(rows, cutoff)
    {
      out := [];
      for i := 0 to |rows|
        invariant LiveRows(rows, cutoff) == out + LiveRows(rows[i..], cutoff)
      {
        assert rows[i..][1..] == rows[i + 1..];
        if rows[i].time.At? && rows[i].time.t > cutoff { out := out + [rows[i]]; }
      }
    }

    method CapBySeverity(rows: seq<Event>) returns (out: seq<Event>)
      ensures out == CappedBy(rows, cfg)
    {
      var warnSlots, critSlots := cfg.maxWarnings, cfg.maxCriticals;
      out := [];
      for i := 0 to |rows|
        invariant CappedBy(rows, cfg) == out + Capped(rows[i..], warnSlots, critSlots)
      {
        CappedStep(rows, i, out, warnSlots, critSlots);
        if rows[i].severity == "critical" && critSlots > 0 {
          out := out + [rows[i]];
          critSlots := critSlots - 1;
        } else if rows[i].severity == "warning" && warnSlots > 0 {
          out := out + [rows[i]];
          warnSlots := warnSlots - 1;
        }
      }
    }

    method SetRetention(c: Retention)
      modifies this
      ensures Now() == Reconfigured(old(Now()), c)
    {
      cfg := c;
      evts := CapBySeverity(evts);
      flushGen := flushGen + 1;
    }

    /** The dedup loop: the first row the event is near to, or the number of rows. */
    method FindNear(fp: string, t: int) returns (i: nat)
      ensures i == FirstNear(evts, fp, t)
    {
      i := 0;
      while i < |evts| && !Near(evts[i], fp, t)
        invariant i <= |evts| && forall j :: 0 <= j < i ==> !Near(evts[j], fp, t)
      {
        i := i + 1;
      }
    }

    /** Takes the repeated row out and puts its update in front. */
    method Fold(i: nat, e: Raw, ghost now: int) returns (n: Notice)
      requires e.time.At? && i == FirstNear(evts, Fingerprint(e), e.time.t) < |evts|
      modifies `evts, `flushGen
      ensures (Now(), n) == Ingested(old(Now()), e, now)
    {
      ghost var was := evts;
      var updated := Refreshed(evts[i], e);
      evts := evts[..i] + evts[i + 1..];
      evts := [updated] + evts;
      assert evts == Folded(was, i, e);
      flushGen := flushGen + 1;
      n := Notice(updated, None);
    }

    method Open(e: Raw, now: int) returns (n: Notice)
      requires e.time.At? && FirstNear(evts, Fingerprint(e), e.time.t) == |evts|
      modifies `evts, `flushGen
      ensures (Now(), n) == Ingested(old(Now()), e, now)
    {
      var cutoff := Cutoff(now, cfg.ttlDays);
      var slots := cfg.maxWarnings;
      if SeverityOf(e.action) == "critical" { slots := cfg.maxCriticals; }
      var recorded := e.time.t > cutoff && slots > 0;
      var rows := Filter([NewRow(e)] + evts, cutoff);
      evts := CapBySeverity(rows);
      flushGen := flushGen + 1;
      n := Notice(NewRow(e), if recorded then Some(e) else None);
    }

    /** Dedup, insert newest first, expire and cap; what the subscribers are told. */
    method Add(raw: Raw, arrival: int, now: int) returns (n: Option<Notice>)
      modifies this
      ensures (Now(), n) == Added(old(Now()), raw, arrival, now)
    {
      if !raw.IsSecurityEvent() { return None; }
      var e := Stamped(raw, arrival);
      var i := FindNear(Fingerprint(e), e.time.t);
      if i < |evts| {
        var repeated := Fold(i, e, now);
        return Some(repeated);
      }
      var notice := Open(e, now);
      return Some(notice);
    }
  }
}
