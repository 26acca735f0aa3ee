/** The admission event store (internal/admission/store.go): rows newest first, ids
    remembered in `seen`, repeats within thirty seconds merged into one row, expiry
    and a cap. The class is proved against pure functions on its state, and the
    properties of every run are proved about those. */
module AdmissionStore {
  import opened Wrappers
  import opened Clock
  import opened Sequences

  const DEDUP_WINDOW := 30 * SECOND

  datatype Event = Event(
    id: string, time: Stamp, count: int, namespace: string, involvedKind: string, involvedName: string,
    resource: string, name: string, operation: string, username: string, policyName: string,
    bindingName: string, message: string, severity: string, source: string, rawMessage: string)

  datatype Retention = Retention(maxEvents: int, ttlDays: int)

  /** The store's fields. `gen` counts the flushes started. */
  datatype State = State(events: seq<Event>, seen: set<string>, cfg: Retention, gen: nat)

  /** A Kubernetes Warning event, its message already parsed. */
  datatype K8sEvent = K8sEvent(
    uid: string, last: Option<int>, namespace: string, kind: string, name: string,
    policy: string, binding: string, violation: string, message: string)

  // ------------------------------------------------------------ rows and order

  predicate SameViolation(a: Event, b: Event) {
    && a.policyName == b.policyName && a.namespace == b.namespace && a.name == b.name
    && a.involvedName == b.involvedName && a.operation == b.operation && a.source == b.source
  }

  /** Unreadable times are never close to anything. */
  predicate Close(a: Stamp, b: Stamp) {
    a.At? && b.At? && Clock.Abs(a.t - b.t) < DEDUP_WINDOW
  }

  predicate Repeats(row: Event, e: Event) {
    SameViolation(row, e) && Close(e.time, row.time)
  }

  predicate Live(e: Event, cutoff: int) {
    e.time.At? && cutoff <= e.time.t
  }

  /** Where insertSorted puts an event: before the first row that is unreadable or
      not newer, and in front when the event itself is unreadable. */
  predicate GoesBefore(e: Event, row: Event) {
    e.time.Garbled? || row.time.Garbled? || row.time.t <= e.time.t
  }

  function Inserted(rows: seq<Event>, e: Event): (r: seq<Event>)
    ensures multiset(r) == multiset(rows) + multiset{e}
    ensures |r| == |rows| + 1
  {
    if rows == [] || GoesBefore(e, rows[0]) then [e] + rows
    else
      assert rows == [rows[0]] + rows[1..];
      [rows[0]] + Inserted(rows[1..], e)
  }

  function LiveRows(rows: seq<Event>, cutoff: int): (r: seq<Event>)
    ensures |r| <= |rows|
  {
    if rows == [] then []
    else if Live(rows[|rows| - 1], cutoff) then LiveRows(rows[..|rows| - 1], cutoff) + [rows[|rows| - 1]]
    else LiveRows(rows[..|rows| - 1], cutoff)
  }

  function Capped(rows: seq<Event>, max: nat): seq<Event> {
    if |rows| <= max then rows else rows[..max]
  }

  ghost function DeadIds(rows: seq<Event>, cutoff: int): set<string> { set e | e in rows && !Live(e, cutoff) :: e.id }

  ghost function Ids(rows: seq<Event>): set<string> { set e | e in rows :: e.id }

  function FirstRepeat(rows: seq<Event>, e: Event): (i: nat)
    ensures i <= |rows|
    ensures i < |rows| ==> Repeats(rows[i], e)
    ensures forall j :: 0 <= j < i ==> !Repeats(rows[j], e)
  {
    if rows == [] || Repeats(rows[0], e) then 0 else 1 + FirstRepeat(rows[1..], e)
  }

  // ------------------------------------------------------------- state changes

  /** Expired rows and rows over the cap go, and their ids are forgotten with them. */
  ghost function Retained(st: State, now: int): (r: State)
    requires st.cfg.maxEvents >= 0
  {
    var live := LiveRows(st.events, Cutoff(now, st.cfg.ttlDays));
    var expired := DeadIds(st.events, Cutoff(now, st.cfg.ttlDays));
    var over := if |live| <= st.cfg.maxEvents then {} else Ids(live[st.cfg.maxEvents..]);
    st.(events := Capped(live, st.cfg.maxEvents), seen := st.seen - expired - over)
  }

  /** A row seen once more. */
  function Bumped(row: Event, at: Stamp): Event { row.(count := row.count + 1, time := at) }

  ghost function Merged(st: State, i: nat, row: Event): (r: State)
    requires i < |st.events|
  {
    st.(events := Inserted(st.events[..i] + st.events[i + 1..], row), gen := st.gen + 1)
  }

  ghost function Recorded(st: State, e: Event, now: int): (r: State)
    requires st.cfg.maxEvents >= 0
  {
    var st1 := Retained(st.(events := Inserted(st.events, e)), now);
    st1.(gen := st.gen + 1)
  }

  /** An event that is new by id: merged into the row it repeats, or recorded. */
  ghost function Accepted(st: State, e: Event, now: int): (r: (State, Event))
    requires st.cfg.maxEvents >= 0
  {
    var i := FirstRepeat(st.events, e);
    var st1 := st.(seen := st.seen + {e.id});
    if i < |st.events| then
      var row := Bumped(st.events[i], e.time);
      (Merged(st1, i, row), row)
    else (Recorded(st1, e, now), e)
  }

  function Counted(e: Event): Event { if e.count == 0 then e.(count := 1) else e }

  /** The audit webhook's path. */
  ghost function Added(st: State, e: Event, now: int): (r: (State, Option<Event>))
    requires st.cfg.maxEvents >= 0
  {
    if e.id in st.seen then (st, None)
    else var (st', sent) := Accepted(st, Counted(e), now); (st', Some(sent))
  }

  function ToSeconds(t: int): int { t - t % SECOND }

  function FromK8s(k: K8sEvent, now: int): Event {
    Event(k.uid, At(ToSeconds(if k.last.Some? then k.last.value else now)), 1, k.namespace, k.kind, k.name,
          "", "", "", "", k.policy, k.binding, k.violation, "critical", "k8s-event", k.message)
  }

  /** The Kubernetes event watcher's path. */
  ghost function Observed(st: State, k: K8sEvent, now: int): (r: (State, Option<Event>))
    requires st.cfg.maxEvents >= 0
  {
    if k.uid in st.seen then (st, None)
    else var (st', sent) := Accepted(st, FromK8s(k, now), now); (st', Some(sent))
  }

  ghost function Reconfigured(st: State, cfg: Retention, now: int): State
    requires cfg.maxEvents >= 0
  {
    var st' := Retained(st.(cfg := cfg), now);
    st'.(gen := st.gen + 1)
  }

  // -------------------------------------------------------------- the invariant

  ghost predicate Ordered(rows: seq<Event>) {
    forall i, j :: 0 <= i < j < |rows| && rows[i].time.At? && rows[j].time.At? ==> rows[i].time.t >= rows[j].time.t
  }

  /** Every row has a readable time, newest first. */
  ghost predicate Sorted(rows: seq<Event>) {
    (forall e :: e in rows ==> e.time.At?) && Ordered(rows)
  }

  ghost predicate DistinctIds(rows: seq<Event>) {
    forall i, j :: 0 <= i < j < |rows| ==> rows[i].id != rows[j].id
  }

  ghost predicate Inv(st: State) {
    && Sorted(st.events)
    && DistinctIds(st.events)
    && Ids(st.events) <= st.seen
    && 0 <= |st.events| <= st.cfg.maxEvents
  }

  lemma InsertedMembers(rows: seq<Event>, e: Event)
    ensures forall x :: x in Inserted(rows, e) <==> x == e || x in rows
  {
    forall x ensures x in Inserted(rows, e) <==> x == e || x in rows {
      assert x in Inserted(rows, e) <==> x in multiset(Inserted(rows, e));
    }
  }

  /** A row goes behind exactly the newer ones at the head of the list, and an unreadable
      one in front. */
  ghost predicate IsPlace(rows: seq<Event>, e: Event, i: nat) {
    && i <= |rows|
    && (e.time.Garbled? ==> i == 0)
    && (e.time.At? ==>
          && (forall j :: 0 <= j < i ==> rows[j].time.At? && rows[j].time.t > e.time.t)
          && (i < |rows| ==> rows[i].time.Garbled? || rows[i].time.t <= e.time.t))
  }

  lemma PlaceFurther(rows: seq<Event>, e: Event, k: nat)
    requires rows != [] && !GoesBefore(e, rows[0]) && IsPlace(rows[1..], e, k)
    ensures IsPlace(rows, e, k + 1)
  {
    forall j | 0 <= j < k + 1 ensures rows[j].time.At? && rows[j].time.t > e.time.t {
      if j > 0 { assert rows[1..][j - 1] == rows[j]; }
    }
    if k + 1 < |rows| { assert rows[1..][k] == rows[k + 1]; }
  }

  lemma {:induction false} InsertedExactly(rows: seq<Event>, e: Event) returns (i: nat)
    ensures IsPlace(rows, e, i) && Inserted(rows, e) == rows[..i] + [e] + rows[i..]
  {
    i := 0;
    if rows != [] && !GoesBefore(e, rows[0]) {
      var k := InsertedExactly(rows[1..], e);
      i := k + 1;
      PlaceFurther(rows, e, k);
      SplitFurther(rows, e, k);
    } else {
      assert rows[..0] == [] && rows[0..] == rows && [] + [e] == [e];
    }
  }

  lemma SplitFurther(rows: seq<Event>, e: Event, k: nat)
    requires k < |rows|
    ensures [rows[0]] + (rows[1..][..k] + [e] + rows[1..][k..]) == rows[..k + 1] + [e] + rows[k + 1..]
  {
    assert rows[..k + 1] == [rows[0]] + rows[1..][..k] && rows[k + 1..] == rows[1..][k..];
  }

  lemma {:induction false} InsertedSorted(rows: seq<Event>, e: Event)
    requires Sorted(rows)
    ensures Ordered(Inserted(rows, e))
    ensures e.time.At? ==> Sorted(Inserted(rows, e))
  {
    InsertedMembers(rows, e);
    if rows != [] && !GoesBefore(e, rows[0]) {
      InsertedSorted(rows[1..], e);
      InsertedMembers(rows[1..], e);
      var r := Inserted(rows[1..], e);
      forall j | 0 <= j < |r| ensures r[j].time.At? && rows[0].time.t >= r[j].time.t {
        assert r[j] in r;
      }
    }
  }

  lemma {:induction false} InsertedDistinct(rows: seq<Event>, e: Event)
    requires DistinctIds(rows) && e.id !in Ids(rows)
    ensures DistinctIds(Inserted(rows, e))
  {
    if rows != [] && !GoesBefore(e, rows[0]) {
      InsertedDistinct(rows[1..], e);
      InsertedMembers(rows[1..], e);
      var r := Inserted(rows[1..], e);
      forall j | 0 <= j < |r| ensures rows[0].id != r[j].id {
        assert r[j] in r;
        if r[j] != e { assert r[j] in rows[1..]; assert r[j] in rows; }
      }
    }
  }

  /** The live rows are the old rows in their old order, without the expired ones. */
  lemma LiveRowsMembers(rows: seq<Event>, cutoff: int)
    ensures forall x :: x in LiveRows(rows, cutoff) <==> x in rows && Live(x, cutoff)
  {
    if rows != [] { assert rows == rows[..|rows| - 1] + [rows[|rows| - 1]]; }
  }

  lemma LiveRowsCount(rows: seq<Event>, cutoff: int, x: Event)
    ensures multiset(LiveRows(rows, cutoff))[x] == if Live(x, cutoff) then multiset(rows)[x] else 0
  {
    if rows != [] { assert rows == rows[..|rows| - 1] + [rows[|rows| - 1]]; }
  }

  lemma LiveRowsKeep(rows: seq<Event>, cutoff: int)
    ensures Ordered(rows) ==> Sorted(LiveRows(rows, cutoff))
    ensures DistinctIds(rows) ==> DistinctIds(LiveRows(rows, cutoff))
  {
    LiveRowsMembers(rows, cutoff);
    if rows != [] {
      var init := rows[..|rows| - 1];
      LiveRowsKeep(init, cutoff);
      LiveRowsMembers(init, cutoff);
      var r := LiveRows(init, cutoff);
      forall j | 0 <= j < |r| ensures r[j] in init && r[j].time.At? { assert r[j] in r; }
    }
  }

  /** No id of a row that is kept is forgotten. */
  lemma KeptRemembered(st: State, now: int, x: Event)
    requires st.cfg.maxEvents >= 0
    requires DistinctIds(st.events) && Ids(st.events) <= st.seen && x in Retained(st, now).events
    ensures x.id in Retained(st, now).seen
  {
    var cutoff := Cutoff(now, st.cfg.ttlDays);
    var live, kept := LiveRows(st.events, cutoff), Retained(st, now).events;
    LiveRowsKeep(st.events, cutoff);
    LiveRowsMembers(st.events, cutoff);
    var i :| 0 <= i < |kept| && kept[i] == x;
    assert live[i] == x && x in live;
  }

  /** Retention restores the whole invariant from ordered, distinct, remembered rows. */
  lemma RetainedInv(st: State, now: int)
    requires st.cfg.maxEvents >= 0
    requires Ordered(st.events) && DistinctIds(st.events) && Ids(st.events) <= st.seen
    ensures Inv(Retained(st, now))
  {
    var cutoff := Cutoff(now, st.cfg.ttlDays);
    var live, r := LiveRows(st.events, cutoff), Retained(st, now);
    LiveRowsKeep(st.events, cutoff);
    if |live| > st.cfg.maxEvents { SortedPrefix(live, st.cfg.maxEvents); }
    forall x | x in r.events ensures x.id in r.seen { KeptRemembered(st, now, x); }
  }

  lemma {:induction false} RecordedInv(st: State, e: Event, now: int)
    requires Inv(st) && e.id !in st.seen
    ensures Inv(Recorded(st.(seen := st.seen + {e.id}), e, now))
  {
    InsertedSorted(st.events, e);
    InsertedDistinct(st.events, e);
    InsertedMembers(st.events, e);
    RetainedInv(st.(events := Inserted(st.events, e), seen := st.seen + {e.id}), now);
  }

  lemma WithoutOne(rows: seq<Event>, i: nat)
    requires Sorted(rows) && DistinctIds(rows) && i < |rows|
    ensures var rest := rows[..i] + rows[i + 1..];
            Sorted(rest) && DistinctIds(rest) && rows[i].id !in Ids(rest) && Ids(rest) <= Ids(rows)
  {
    var rest := rows[..i] + rows[i + 1..];
    assert forall x :: x in rest ==> x in rows;
  }

  lemma MergedInv(st: State, i: nat, row: Event)
    requires Inv(st) && i < |st.events| && row.id == st.events[i].id && row.time.At?
    ensures Inv(Merged(st, i, row))
  {
    var rest := st.events[..i] + st.events[i + 1..];
    WithoutOne(st.events, i);
    InsertedSorted(rest, row);
    InsertedDistinct(rest, row);
    InsertedMembers(rest, row);
  }

  lemma AcceptedInv(st: State, e: Event, now: int)
    requires Inv(st) && e.id !in st.seen
    ensures Inv(Accepted(st, e, now).0)
  {
    var i := FirstRepeat(st.events, e);
    if i < |st.events| {
      var row := Bumped(st.events[i], e.time);
      MergedInv(st.(seen := st.seen + {e.id}), i, row);
    } else {
      RecordedInv(st, e, now);
    }
  }

  // ------------------------------------------------------------------ every run

  datatype Op =
    | Add(e: Event, now: int)
    | Observe(k: K8sEvent, now: int)
    | SetRetention(cfg: Retention, now: int)

  ghost predicate ValidOp(op: Op) {
    op.SetRetention? ==> op.cfg.maxEvents >= 0
  }

  ghost function Step(st: State, op: Op): (r: State)
    requires ValidOp(op) && st.cfg.maxEvents >= 0
    ensures r.cfg.maxEvents >= 0
  {
    match op
    case Add(e, now) => Added(st, e, now).0
    case Observe(k, now) => Observed(st, k, now).0
    case SetRetention(cfg, now) => Reconfigured(st, cfg, now)
  }

  ghost function Run(st: State, ops: seq<Op>): (r: State)
    requires st.cfg.maxEvents >= 0 && forall op :: op in ops ==> ValidOp(op)
    ensures r.cfg.maxEvents >= 0
  {
    if ops == [] then st else Step(Run(st, ops[..|ops| - 1]), ops[|ops| - 1])
  }

  lemma StepKeepsInv(st: State, op: Op)
    requires Inv(st) && ValidOp(op)
    ensures Inv(Step(st, op))
  {
    match op
    case Add(e, now) => if e.id !in st.seen { AcceptedInv(st, Counted(e), now); }
    case Observe(k, now) => if k.uid !in st.seen { AcceptedInv(st, FromK8s(k, now), now); }
    case SetRetention(cfg, now) => RetainedInv(st.(cfg := cfg), now);
  }

  /** After every operation of every run from an empty store: readable times, newest
      first, distinct ids, all of them remembered, and no more rows than the cap. */
  lemma {:induction false} EveryRunKeepsInv(cfg: Retention, ops: seq<Op>)
    requires cfg.maxEvents >= 0 && forall op :: op in ops ==> ValidOp(op)
    ensures Inv(Run(State([], {}, cfg, 0), ops))
  {
    if ops != [] {
      EveryRunKeepsInv(cfg, ops[..|ops| - 1]);
      StepKeepsInv(Run(State([], {}, cfg, 0), ops[..|ops| - 1]), ops[|ops| - 1]);
    }
  }

  // ----------------------------------------------------------- what is retained

  /** No older than the retention allows, in days of 86,400 seconds. */
  ghost predicate InTime(x: Event, now: int, cfg: Retention) {
    x.time.At? && now - x.time.t <= cfg.ttlDays * 86_400 * 1_000_000_000
  }

  /** `pool` holds those of the rows that are in time. */
  ghost predicate IsPool(pool: multiset<Event>, rows: multiset<Event>, now: int, cfg: Retention) {
    forall x :: pool[x] == if InTime(x, now, cfg) then rows[x] else 0
  }

  /** The rows are the newest of the pool, up to the cap. */
  ghost predicate NewestOf(rows: seq<Event>, pool: multiset<Event>, cap: int) {
    && multiset(rows) <= pool
    && |rows| == (if |pool| <= cap then |pool| else cap)
    && forall kept, dropped :: kept in rows && dropped in pool - multiset(rows)
         ==> dropped.time.At? && kept.time.At? && dropped.time.t <= kept.time.t
  }

  lemma LivePool(rows: seq<Event>, cutoff: int, pool: multiset<Event>)
    requires forall x :: pool[x] == if Live(x, cutoff) then multiset(rows)[x] else 0
    ensures multiset(LiveRows(rows, cutoff)) == pool
    ensures |LiveRows(rows, cutoff)| == |pool|
  {
    forall x ensures multiset(LiveRows(rows, cutoff))[x] == pool[x] { LiveRowsCount(rows, cutoff, x); }
  }

  lemma MultisetSplit(all: seq<Event>, n: nat)
    requires n <= |all|
    ensures multiset(all) == multiset(all[..n]) + multiset(all[n..])
  {
    assert all == all[..n] + all[n..];
  }

  lemma NewerThanTail(live: seq<Event>, n: nat, kept: Event, dropped: Event)
    requires Sorted(live) && n <= |live| && kept in live[..n] && dropped in live[n..]
    ensures kept.time.At? && dropped.time.At? && dropped.time.t <= kept.time.t
  {
    var i :| 0 <= i < n && live[i] == kept;
    var j :| 0 <= j < |live[n..]| && live[n..][j] == dropped;
    assert live[n + j] == dropped;
  }

  lemma CappedNewest(live: seq<Event>, max: nat)
    requires Sorted(live)
    ensures multiset(Capped(live, max)) <= multiset(live)
    ensures forall kept, dropped :: kept in Capped(live, max) && dropped in multiset(live) - multiset(Capped(live, max))
              ==> dropped.time.At? && kept.time.At? && dropped.time.t <= kept.time.t
  {
    var n := if |live| <= max then |live| else max;
    assert Capped(live, max) == live[..n];
    MultisetSplit(live, n);
    forall kept: Event, dropped: Event | kept in live[..n] && dropped in multiset(live) - multiset(live[..n])
      ensures dropped.time.At? && kept.time.At? && dropped.time.t <= kept.time.t
    {
      assert dropped in multiset(live[n..]);
      NewerThanTail(live, n, kept, dropped);
    }
  }

  lemma InTimeIsLive(x: Event, now: int, cfg: Retention)
    ensures InTime(x, now, cfg) <==> Live(x, Cutoff(now, cfg.ttlDays))
  {
  }

  lemma RetainedKeepsNewest(st: State, now: int, pool: multiset<Event>)
    requires st.cfg.maxEvents >= 0 && Ordered(st.events) && IsPool(pool, multiset(st.events), now, st.cfg)
    ensures NewestOf(Retained(st, now).events, pool, st.cfg.maxEvents)
  {
    var cutoff := Cutoff(now, st.cfg.ttlDays);
    forall x ensures InTime(x, now, st.cfg) <==> Live(x, cutoff) { InTimeIsLive(x, now, st.cfg); }
    LiveRowsKeep(st.events, cutoff);
    LivePool(st.events, cutoff, pool);
    CappedNewest(LiveRows(st.events, cutoff), st.cfg.maxEvents);
  }

  /** The row repeats the event: the same violation by every field compared, its time
      less than thirty seconds away. */
  ghost predicate SeenAgain(row: Event, e: Event) {
    && (row.policyName, row.namespace, row.name) == (e.policyName, e.namespace, e.name)
    && (row.involvedName, row.operation, row.source) == (e.involvedName, e.operation, e.source)
    && row.time.At? && e.time.At? && -30_000_000_000 < e.time.t - row.time.t < 30_000_000_000
  }

  /** The first row in the list that repeats the event. */
  ghost predicate IsFirstSeen(rows: seq<Event>, row: Event, e: Event) {
    exists i :: 0 <= i < |rows| && rows[i] == row && SeenAgain(row, e) && forall j :: 0 <= j < i ==> !SeenAgain(rows[j], e)
  }

  /** The event was counted: one row has one sighting more, and the event's time. */
  ghost predicate CountedIn(before: seq<Event>, after: seq<Event>, row: Event, e: Event) {
    multiset(after) == multiset(before) - multiset{row} + multiset{row.(count := row.count + 1, time := e.time)}
  }

  /** The first row that repeats the event counts it, and is what is broadcast. */
  ghost predicate CountedOnce(before: State, e: Event, after: State, sent: Event) {
    after.seen == before.seen + {e.id} && exists row :: IsFirstSeen(before.events, row, e) && CountsRow(before, e, after, sent, row)
  }

  ghost predicate CountsRow(before: State, e: Event, after: State, sent: Event, row: Event) {
    sent == row.(count := row.count + 1, time := e.time) && CountedIn(before.events, after.events, row, e)
  }

  /** The event is broadcast itself, and of the rows and it the newest in time are kept. */
  ghost predicate RowOpened(before: State, e: Event, now: int, after: State, sent: Event) {
    && sent == e
    && (forall pool :: IsPool(pool, multiset(before.events) + multiset{e}, now, before.cfg) ==>
          NewestOf(after.events, pool, before.cfg.maxEvents))
    && ForgetsDropped(before.seen + {e.id}, before.events + [e], after)
  }

  /** Ids are forgotten together with their rows, and only with them. */
  ghost predicate ForgetsDropped(seen: set<string>, rows: seq<Event>, after: State) {
    forall id :: id in after.seen <==> id in seen && forall x :: x in rows && x.id == id ==> x in after.events
  }

  /** An event with a new id is counted once if some row repeats it, and opens a row
      otherwise. */
  ghost predicate TakenIn(before: State, e: Event, now: int, after: State, sent: Event) {
    && after.cfg == before.cfg && after.gen == before.gen + 1
    && if exists row :: row in before.events && SeenAgain(row, e) then CountedOnce(before, e, after, sent)
       else RowOpened(before, e, now, after, sent)
  }

  lemma RepeatsExactly(row: Event, e: Event)
    ensures Repeats(row, e) <==> SeenAgain(row, e)
  {
  }

  lemma FirstRepeatExactly(rows: seq<Event>, e: Event)
    ensures FirstRepeat(rows, e) == |rows| <==> !exists row :: row in rows && SeenAgain(row, e)
    ensures FirstRepeat(rows, e) < |rows| ==> IsFirstSeen(rows, rows[FirstRepeat(rows, e)], e)
  {
    forall x ensures Repeats(x, e) <==> SeenAgain(x, e) { RepeatsExactly(x, e); }
  }

  lemma RepeatAccepted(st: State, e: Event, now: int, i: nat, row: Event)
    requires st.cfg.maxEvents >= 0 && i == FirstRepeat(st.events, e) < |st.events| && row == Bumped(st.events[i], e.time)
    ensures Accepted(st, e, now) == (Merged(st.(seen := st.seen + {e.id}), i, row), row)
  {
  }

  lemma MergedRows(st: State, i: nat, row: Event)
    requires i < |st.events|
    ensures multiset(Merged(st, i, row).events) == multiset(st.events) - multiset{st.events[i]} + multiset{row}
  {
    ReplacedRow(st.events, i, row);
  }

  lemma RepeatCounts(st: State, e: Event, now: int, i: nat)
    requires st.cfg.maxEvents >= 0 && i == FirstRepeat(st.events, e) < |st.events|
    ensures CountsRow(st, e, Accepted(st, e, now).0, Accepted(st, e, now).1, st.events[i])
    ensures Accepted(st, e, now).0.seen == st.seen + {e.id}
  {
    var row := Bumped(st.events[i], e.time);
    RepeatAccepted(st, e, now, i, row);
    MergedRows(st.(seen := st.seen + {e.id}), i, row);
  }

  lemma RepeatTakenIn(st: State, e: Event, now: int)
    requires st.cfg.maxEvents >= 0 && FirstRepeat(st.events, e) < |st.events|
    ensures CountedOnce(st, e, Accepted(st, e, now).0, Accepted(st, e, now).1)
  {
    FirstRepeatExactly(st.events, e);
    RepeatCounts(st, e, now, FirstRepeat(st.events, e));
  }

  /** The state a new row is put into before the retention is applied. */
  ghost function WithRow(st: State, e: Event): State { st.(seen := st.seen + {e.id}, events := Inserted(st.events, e)) }

  lemma WithRowForgets(st: State, e: Event, now: int)
    requires Inv(st) && e.id !in st.seen
    ensures ForgetsDropped(st.seen + {e.id}, st.events + [e], Retained(WithRow(st, e), now))
  {
    InsertedDistinct(st.events, e);
    InsertedMembers(st.events, e);
    RetainedForgets(WithRow(st, e), now);
    assert forall x :: x in st.events + [e] <==> x in Inserted(st.events, e);
  }

  lemma OpenTakenIn(st: State, e: Event, now: int)
    requires Inv(st) && e.id !in st.seen && FirstRepeat(st.events, e) == |st.events|
    ensures RowOpened(st, e, now, Accepted(st, e, now).0, Accepted(st, e, now).1)
  {
    InsertedSorted(st.events, e);
    var after := Accepted(st, e, now).0;
    assert after == Retained(WithRow(st, e), now).(gen := st.gen + 1);
    forall pool | IsPool(pool, multiset(st.events) + multiset{e}, now, st.cfg) ensures NewestOf(after.events, pool, st.cfg.maxEvents) {
      RetainedKeepsNewest(WithRow(st, e), now, pool);
    }
    WithRowForgets(st, e, now);
  }

  lemma AcceptedTakenIn(st: State, e: Event, now: int)
    requires Inv(st) && e.id !in st.seen
    ensures TakenIn(st, e, now, Accepted(st, e, now).0, Accepted(st, e, now).1)
  {
    FirstRepeatExactly(st.events, e);
    if FirstRepeat(st.events, e) < |st.events| { RepeatTakenIn(st, e, now); } else { OpenTakenIn(st, e, now); }
  }

  lemma RetainedForgets(st: State, now: int)
    requires st.cfg.maxEvents >= 0 && DistinctIds(st.events)
    ensures ForgetsDropped(st.seen, st.events, Retained(st, now))
  {
    var cutoff := Cutoff(now, st.cfg.ttlDays);
    var live, after := LiveRows(st.events, cutoff), Retained(st, now);
    LiveRowsKeep(st.events, cutoff);
    LiveRowsMembers(st.events, cutoff);
    forall x | x in st.events ensures x in after.events <==> Live(x, cutoff) && (|live| > st.cfg.maxEvents ==> x !in live[st.cfg.maxEvents..]) {
      KeptOrOver(live, st.cfg.maxEvents, x);
    }
    forall x, y | x in st.events && y in st.events && x.id == y.id ensures x == y { SameRow(st.events, x, y); }
  }

  lemma SameRow(rows: seq<Event>, x: Event, y: Event)
    requires DistinctIds(rows) && x in rows && y in rows && x.id == y.id
    ensures x == y
  {
    var i :| 0 <= i < |rows| && rows[i] == x;
    var j :| 0 <= j < |rows| && rows[j] == y;
    assert i == j;
  }

  lemma KeptOrOver(live: seq<Event>, max: nat, x: Event)
    requires DistinctIds(live)
    ensures x in Capped(live, max) <==> x in live && (|live| > max ==> x !in live[max..])
  {
    if |live| > max { assert live == live[..max] + live[max..]; }
  }

  /** What the webhook's path does with any event: one whose id is remembered changes
      nothing, any other is taken in. */
  lemma AddedExactly(st: State, e: Event, now: int)
    requires Inv(st)
    ensures var (st', sent) := Added(st, e, now);
            if e.id in st.seen then st' == st && sent.None?
            else sent.Some? && TakenIn(st, if e.count == 0 then e.(count := 1) else e, now, st', sent.value)
  {
    if e.id !in st.seen { AcceptedTakenIn(st, Counted(e), now); }
  }

  /** The row an API server's Warning makes: one sighting, critical, at a whole second,
      its own or else the present one. */
  ghost predicate IsWarning(e: Event, k: K8sEvent, now: int) {
    var t := if k.last.Some? then k.last.value else now;
    && e.id == k.uid && e.count == 1 && e.severity == "critical" && e.source == "k8s-event"
    && e.time.At? && e.time.t <= t < e.time.t + SECOND && e.time.t % SECOND == 0
    && (e.namespace, e.involvedKind, e.involvedName) == (k.namespace, k.kind, k.name)
    && (e.policyName, e.bindingName, e.message, e.rawMessage) == (k.policy, k.binding, k.violation, k.message)
    && e.resource == e.name == e.operation == e.username == ""
  }

  /** The same of the watcher's path. */
  lemma ObservedExactly(st: State, k: K8sEvent, now: int)
    requires Inv(st)
    ensures var (st', sent) := Observed(st, k, now);
            if k.uid in st.seen then st' == st && sent.None?
            else sent.Some? && exists e :: IsWarning(e, k, now) && TakenIn(st, e, now, st', sent.value)
  {
    if k.uid !in st.seen {
      var e := FromK8s(k, now);
      WarningRow(k, now);
      AcceptedTakenIn(st, e, now);
      assert TakenIn(st, e, now, Observed(st, k, now).0, Observed(st, k, now).1.value);
    }
  }

  lemma WarningRow(k: K8sEvent, now: int)
    ensures IsWarning(FromK8s(k, now), k, now)
  {
  }

  /** A new retention applies at once: of the rows the newest that are in time are kept. */
  lemma ReconfiguredKeepsNewest(st: State, cfg: Retention, now: int, pool: multiset<Event>)
    requires Inv(st) && cfg.maxEvents >= 0 && IsPool(pool, multiset(st.events), now, cfg)
    ensures NewestOf(Reconfigured(st, cfg, now).events, pool, cfg.maxEvents) && Reconfigured(st, cfg, now).cfg == cfg
    ensures ForgetsDropped(st.seen, st.events, Reconfigured(st, cfg, now))
  {
    RetainedForgets(st.(cfg := cfg), now);
    RetainedKeepsNewest(st.(cfg := cfg), now, pool);
  }

  lemma Without(rows: seq<Event>, i: nat)
    requires i < |rows|
    ensures multiset(rows[..i] + rows[i + 1..]) == multiset(rows) - multiset{rows[i]}
  {
    assert rows == rows[..i] + [rows[i]] + rows[i + 1..];
  }

  lemma ReplacedRow(rows: seq<Event>, i: nat, row: Event)
    requires i < |rows|
    ensures multiset(Inserted(rows[..i] + rows[i + 1..], row)) == multiset(rows) - multiset{rows[i]} + multiset{row}
  {
    Without(rows, i);
  }

  // ------------------------------------------------- sorting and loading a file

  /** Places k behind the last row that is unreadable or not older. */
  function InsertedBack(rows: seq<Event>, k: Event): (r: seq<Event>)
    requires k.time.At?
    ensures |r| == |rows| + 1
  {
    if rows == [] then [k]
    else
      var last := rows[|rows| - 1];
      if last.time.Garbled? || k.time.t <= last.time.t then rows + [k]
      else InsertedBack(rows[..|rows| - 1], k) + [last]
  }

  /** What the insertion sort makes of a list: unreadable rows are never moved past. */
  function SortedRuns(rows: seq<Event>): (r: seq<Event>)
    ensures |r| == |rows|
  {
    if rows == [] then []
    else
      var init, k := rows[..|rows| - 1], rows[|rows| - 1];
      if k.time.Garbled? then SortedRuns(init) + [k] else InsertedBack(SortedRuns(init), k)
  }

  lemma {:induction false} InsertedBackPermutes(rows: seq<Event>, k: Event)
    requires k.time.At?
    ensures multiset(InsertedBack(rows, k)) == multiset(rows) + multiset{k}
  {
    if rows != [] {
      assert rows == rows[..|rows| - 1] + [rows[|rows| - 1]];
      InsertedBackPermutes(rows[..|rows| - 1], k);
    }
  }

  /** Sorting loses no row and invents none. */
  lemma {:induction false} SortedRunsPermutes(rows: seq<Event>)
    ensures multiset(SortedRuns(rows)) == multiset(rows)
  {
    if rows != [] {
      var init, k := rows[..|rows| - 1], rows[|rows| - 1];
      assert rows == init + [k];
      SortedRunsPermutes(init);
      if k.time.At? { InsertedBackPermutes(SortedRuns(init), k); }
    }
  }

  lemma InsertedBackMembers(rows: seq<Event>, k: Event)
    requires k.time.At?
    ensures forall x :: x in InsertedBack(rows, k) <==> x == k || x in rows
  {
    InsertedBackPermutes(rows, k);
    forall x ensures x in InsertedBack(rows, k) <==> x == k || x in rows {
      assert x in InsertedBack(rows, k) <==> x in multiset(InsertedBack(rows, k));
    }
  }

  lemma {:induction false} InsertedBackSorted(rows: seq<Event>, k: Event)
    requires Sorted(rows) && k.time.At?
    ensures Sorted(InsertedBack(rows, k))
  {
    if rows != [] && rows[|rows| - 1].time.t < k.time.t {
      var init, last := rows[..|rows| - 1], rows[|rows| - 1];
      InsertedBackSorted(init, k);
      InsertedBackMembers(init, k);
      var r := InsertedBack(init, k);
      forall j | 0 <= j < |r| ensures r[j].time.At? && r[j].time.t >= last.time.t {
        assert r[j] == k || r[j] in init;
      }
    }
  }

  /** Readable rows come out newest first. */
  lemma {:induction false} SortedRunsSorted(rows: seq<Event>)
    requires forall e :: e in rows ==> e.time.At?
    ensures Sorted(SortedRuns(rows))
  {
    if rows != [] {
      SortedRunsSorted(rows[..|rows| - 1]);
      InsertedBackSorted(SortedRuns(rows[..|rows| - 1]), rows[|rows| - 1]);
    }
  }

  ghost function Of(time: Stamp): Event -> bool { (row: Event) => row.time == time }

  lemma {:induction false} InsertedBackStable(rows: seq<Event>, k: Event, p: Event -> bool)
    requires k.time.At? && (p(k) ==> forall x :: p(x) ==> x.time == k.time)
    ensures Filtered(InsertedBack(rows, k), p) == Filtered(rows, p) + if p(k) then [k] else []
  {
    if rows == [] {
      FilteredLast([], k, p);
      assert [] + [k] == [k];
    } else {
      var init, last := rows[..|rows| - 1], rows[|rows| - 1];
      if last.time.Garbled? || k.time.t <= last.time.t {
        FilteredLast(rows, k, p);
      } else {
        InsertedBackStable(init, k, p);
        FilteredLast(InsertedBack(init, k), last, p);
        Passed(init, last, k, p);
      }
    }
  }

  lemma Passed(init: seq<Event>, last: Event, k: Event, p: Event -> bool)
    requires !(p(k) && p(last))
    ensures Filtered(init, p) + (if p(k) then [k] else []) + (if p(last) then [last] else [])
         == Filtered(init + [last], p) + if p(k) then [k] else []
  {
    FilteredLast(init, last, p);
  }

  /** Rows of one time stay in the order the file had them. */
  lemma {:induction false} SortedRunsStable(rows: seq<Event>, time: Stamp)
    ensures Filtered(SortedRuns(rows), Of(time)) == Filtered(rows, Of(time))
  {
    if rows != [] {
      var init, k := rows[..|rows| - 1], rows[|rows| - 1];
      SortedRunsStable(init, time);
      if k.time.Garbled? { FilteredLast(SortedRuns(init), k, Of(time)); } else { InsertedBackStable(SortedRuns(init), k, Of(time)); }
    }
  }

  lemma {:induction false} InsertedBackKeepsUnreadable(rows: seq<Event>, k: Event, i: nat)
    requires i < |rows| && rows[i].time.Garbled? && k.time.At?
    ensures InsertedBack(rows, k)[i] == rows[i]
  {
    if rows[|rows| - 1].time.At? && rows[|rows| - 1].time.t < k.time.t {
      InsertedBackKeepsUnreadable(rows[..|rows| - 1], k, i);
    }
  }

  /** An unreadable row stays where the file had it, a wall for the rows around it. */
  lemma {:induction false} UnreadableRowsStay(rows: seq<Event>, i: nat)
    requires i < |rows| && rows[i].time.Garbled?
    ensures SortedRuns(rows)[i] == rows[i]
  {
    var init, k := rows[..|rows| - 1], rows[|rows| - 1];
    if i < |init| {
      UnreadableRowsStay(init, i);
      if k.time.At? { InsertedBackKeepsUnreadable(SortedRuns(init), k, i); }
    }
  }

  lemma SortedPrefix(rows: seq<Event>, n: nat)
    requires Sorted(rows) && n <= |rows|
    ensures Sorted(rows[..n])
    ensures 0 < n < |rows| ==> rows[n - 1].time.At? && rows[n].time.At? && rows[n].time.t <= rows[n - 1].time.t
  {
    forall e | e in rows[..n] ensures e.time.At? { assert e in rows; }
    if 0 < n < |rows| { assert rows[n - 1] in rows && rows[n] in rows; }
  }

  /** Sorting leaves a list that is newest first as it is. */
  lemma {:induction false} SortedRunsFixed(rows: seq<Event>)
    requires Sorted(rows)
    ensures SortedRuns(rows) == rows
  {
    if rows != [] {
      var init, k := rows[..|rows| - 1], rows[|rows| - 1];
      SortedLast(rows);
      SortedRunsFixed(init);
      OldestStaysLast(init, k);
      assert rows == init + [k];
    }
  }

  lemma SortedLast(rows: seq<Event>)
    requires Sorted(rows) && rows != []
    ensures var init, k := rows[..|rows| - 1], rows[|rows| - 1];
            Sorted(init) && k.time.At? && (init != [] ==> init[|init| - 1].time.At? && k.time.t <= init[|init| - 1].time.t)
  {
    SortedPrefix(rows, |rows| - 1);
    assert rows[|rows| - 1] in rows;
  }

  lemma OldestStaysLast(rows: seq<Event>, k: Event)
    requires k.time.At?
    requires rows != [] ==> rows[|rows| - 1].time.At? && k.time.t <= rows[|rows| - 1].time.t
    requires SortedRuns(rows) == rows
    ensures SortedRuns(rows + [k]) == rows + [k]
  {
    assert (rows + [k])[..|rows|] == rows;
    assert InsertedBack(rows, k) == rows + [k];
  }

  predicate Older(row: Event, key: Event)
    requires key.time.At?
  {
    row.time.At? && row.time.t < key.time.t
  }

  /** A row goes back to where the older ones end. */
  lemma {:induction false} InsertedBackAt(run: seq<Event>, key: Event, j: nat)
    requires key.time.At? && j <= |run| && (j > 0 ==> !Older(run[j - 1], key))
    requires forall k :: j <= k < |run| ==> Older(run[k], key)
    ensures InsertedBack(run, key) == run[..j] + [key] + run[j..]
  {
    if j < |run| {
      var init := run[..|run| - 1];
      InsertedBackAt(init, key, j);
      assert init[..j] == run[..j] && init[j..] + [run[|run| - 1]] == run[j..];
    } else {
      assert run[..j] == run && run[j..] == [];
    }
  }

  lemma ShiftedUp(was: seq<Event>, now: seq<Event>, key: Event, i: nat, j: nat)
    requires j <= i < |was| == |now| && now[j] == key
    requires forall k :: 0 <= k < j ==> now[k] == was[k]
    requires forall k :: j <= k < i ==> now[k + 1] == was[k]
    requires forall k :: i < k < |was| ==> now[k] == was[k]
    ensures now[..i + 1] == was[..i][..j] + [key] + was[..i][j..]
    ensures now[i + 1..] == was[i + 1..]
  {
  }

  /** The inner loop: shifts older rows up and puts row i in the gap. */
  method Place(a: array<Event>, i: nat)
    requires 0 < i < a.Length && a[i].time.At?
    modifies a
    ensures a[..i + 1] == InsertedBack(old(a[..i]), old(a[i]))
    ensures a[i + 1..] == old(a[i + 1..])
  {
    ghost var was := a[..];
    var key := a[i];
    var j := i;
    while j > 0 && Older(a[j - 1], key)
      invariant 0 <= j <= i
      invariant forall k :: 0 <= k < j ==> a[k] == was[k]
      invariant forall k :: j <= k < i ==> a[k + 1] == was[k] && Older(was[k], key)
      invariant forall k :: i < k < a.Length ==> a[k] == was[k]
    {
      a[j] := a[j - 1];
      j := j - 1;
    }
    a[j] := key;
    InsertedBackAt(was[..i], key, j);
    ShiftedUp(was, a[..], key, i, j);
  }

  /** sortEventsDesc: insertion sort in place. */
  method SortEventsDesc(a: array<Event>)
    modifies a
    ensures a[..] == SortedRuns(old(a[..]))
  {
    ghost var was := a[..];
    if a.Length <= 1 { SortedRunsShort(was); return; }
    var i := 1;
    SortedRunsShort(was[..1]);
    while i < a.Length
      invariant 1 <= i <= a.Length
      invariant a[..i] == SortedRuns(was[..i]) && a[i..] == was[i..]
    {
      assert was[..i + 1][..i] == was[..i] && was[..i + 1][i] == was[i] == was[i..][0] == a[i..][0] == a[i];
      assert a[i + 1..] == a[i..][1..] == was[i..][1..] == was[i + 1..];
      if a[i].time.At? {
        Place(a, i);
      } else {
        assert a[..i + 1] == a[..i] + [a[i]];
      }
      i := i + 1;
    }
    assert was[..a.Length] == was && a[..a.Length] == a[..];
  }

  lemma SortedRunsShort(rows: seq<Event>)
    requires |rows| <= 1
    ensures SortedRuns(rows) == rows
  {
    if |rows| == 1 { assert SortedRuns(rows[..0]) == []; }
  }

  /** The persisted file: rows and, in newer files, the retention they were kept under. */
  datatype File = File(events: seq<Event>, retention: Option<Retention>)

  const DEFAULT_RETENTION := Retention(500, 30)

  /** The rows of a file that are read: no repeated id, none readably expired. An
      unreadable time does not keep a row out. */
  function FileRows(rows: seq<Event>, cutoff: int): (r: seq<Event>) {
    if rows == [] then []
    else
      var r, e := FileRows(rows[..|rows| - 1], cutoff), rows[|rows| - 1];
      if (exists x :: x in r && x.id == e.id) || (e.time.At? && e.time.t < cutoff) then r else r + [e]
  }

  function LoadedConfig(file: File): Retention {
    if file.retention.Some? then file.retention.value else DEFAULT_RETENTION
  }

  ghost function Loaded(file: File, now: int): (r: State)
    requires LoadedConfig(file).maxEvents >= 0
  {
    var cfg := LoadedConfig(file);
    var rows := SortedRuns(Capped(FileRows(file.events, Cutoff(now, cfg.ttlDays)), cfg.maxEvents));
    State(rows, Ids(rows), cfg, 0)
  }

  lemma {:induction false} FileRowsOfStore(rows: seq<Event>, cutoff: int)
    requires Sorted(rows) && DistinctIds(rows)
    ensures FileRows(rows, cutoff) == LiveRows(rows, cutoff)
  {
    if rows != [] {
      var init, e := rows[..|rows| - 1], rows[|rows| - 1];
      SortedPrefix(rows, |rows| - 1);
      FileRowsOfStore(init, cutoff);
      LiveRowsMembers(init, cutoff);
      assert forall x :: x in init ==> x.id != e.id;
      assert e in rows;
    }
  }

  ghost function StillInTime(now: int, cfg: Retention): Event -> bool { e => InTime(e, now, cfg) }

  lemma {:induction false} LiveIsFiltered(rows: seq<Event>, now: int, cfg: Retention)
    ensures LiveRows(rows, Cutoff(now, cfg.ttlDays)) == Filtered(rows, StillInTime(now, cfg))
  {
    if rows != [] { LiveIsFiltered(rows[..|rows| - 1], now, cfg); }
  }

  ghost predicate Expired(e: Event, now: int, cfg: Retention) {
    e.time.At? && now - e.time.t > cfg.ttlDays * 86_400 * 1_000_000_000
  }

  ghost predicate FirstOfId(rows: seq<Event>, i: nat, now: int, cfg: Retention)
    requires i < |rows|
  {
    !Expired(rows[i], now, cfg) && forall j :: 0 <= j < i ==> Expired(rows[j], now, cfg) || rows[j].id != rows[i].id
  }

  lemma FirstOfIdStep(rows: seq<Event>, e: Event, now: int, cfg: Retention, x: Event)
    ensures (exists i :: 0 <= i < |rows| + 1 && (rows + [e])[i] == x && FirstOfId(rows + [e], i, now, cfg))
       <==> || (exists i :: 0 <= i < |rows| && rows[i] == x && FirstOfId(rows, i, now, cfg))
            || (x == e && !Expired(e, now, cfg) && forall j :: 0 <= j < |rows| ==> Expired(rows[j], now, cfg) || rows[j].id != e.id)
  {
    var all := rows + [e];
    forall i | 0 <= i < |rows| ensures all[i] == rows[i] && (FirstOfId(all, i, now, cfg) <==> FirstOfId(rows, i, now, cfg)) {
      assert forall j :: 0 <= j <= i ==> all[j] == rows[j];
    }
    assert all[|rows|] == e;
    assert FirstOfId(all, |rows|, now, cfg)
      <==> !Expired(e, now, cfg) && forall j :: 0 <= j < |rows| ==> Expired(rows[j], now, cfg) || rows[j].id != e.id by
    {
      assert forall j :: 0 <= j < |rows| ==> all[j] == rows[j];
    }
  }

  /** Of a file the first row of each id is read, those readably expired apart. */
  lemma {:induction false} FileRowsExactly(rows: seq<Event>, now: int, cfg: Retention, x: Event)
    ensures x in FileRows(rows, Cutoff(now, cfg.ttlDays)) <==> exists i :: 0 <= i < |rows| && rows[i] == x && FirstOfId(rows, i, now, cfg)
  {
    if rows != [] {
      var init, e := rows[..|rows| - 1], rows[|rows| - 1];
      assert rows == init + [e];
      FileRowsExactly(init, now, cfg, x);
      FirstOfIdStep(init, e, now, cfg, x);
      IdRead(init, now, cfg, e.id);
    }
  }

  lemma {:induction false} IdRead(rows: seq<Event>, now: int, cfg: Retention, id: string)
    ensures (exists x :: x in FileRows(rows, Cutoff(now, cfg.ttlDays)) && x.id == id)
       <==> exists j :: 0 <= j < |rows| && !Expired(rows[j], now, cfg) && rows[j].id == id
  {
    if rows != [] {
      var init, e := rows[..|rows| - 1], rows[|rows| - 1];
      IdRead(init, now, cfg, id);
    }
  }

  /** Restarting from the file a store wrote gives back its unexpired rows, in order,
      and the invariant with them. */
  lemma ReloadRestores(st: State, now: int)
    requires Inv(st)
    ensures var r := Loaded(File(st.events, Some(st.cfg)), now);
            r.events == Filtered(st.events, StillInTime(now, st.cfg)) && r.cfg == st.cfg && Inv(r)
  {
    var cutoff := Cutoff(now, st.cfg.ttlDays);
    LiveIsFiltered(st.events, now, st.cfg);
    FileRowsOfStore(st.events, cutoff);
    LiveRowsKeep(st.events, cutoff);
    SortedRunsFixed(LiveRows(st.events, cutoff));
  }

  lemma FileRowsDistinct(rows: seq<Event>, cutoff: int)
    ensures DistinctIds(FileRows(rows, cutoff))
  {
  }

  lemma FileRowsStep(rows: seq<Event>, i: nat, cutoff: int)
    requires i < |rows|
    ensures FileRows(rows[..i + 1], cutoff)
         == if rows[i].id in Ids(FileRows(rows[..i], cutoff)) || (rows[i].time.At? && rows[i].time.t < cutoff)
            then FileRows(rows[..i], cutoff) else FileRows(rows[..i], cutoff) + [rows[i]]
  {
    assert rows[..i + 1][..i] == rows[..i];
  }

  lemma LiveRowsStep(rows: seq<Event>, i: nat, cutoff: int)
    requires i < |rows|
    ensures LiveRows(rows[..i + 1], cutoff)
         == if Live(rows[i], cutoff) then LiveRows(rows[..i], cutoff) + [rows[i]] else LiveRows(rows[..i], cutoff)
  {
    assert rows[..i + 1][..i] == rows[..i];
  }

  lemma DeadIdsStep(rows: seq<Event>, i: nat, cutoff: int)
    requires i < |rows|
    ensures DeadIds(rows[..i + 1], cutoff) == DeadIds(rows[..i], cutoff) + if Live(rows[i], cutoff) then {} else {rows[i].id}
  {
    assert rows[..i + 1] == rows[..i] + [rows[i]];
  }

  /** One turn of the search for the place of a row. */
  lemma InsertedStep(rows: seq<Event>, e: Event, i: nat)
    requires i < |rows|
    ensures rows[..i] + Inserted(rows[i..], e)
         == if GoesBefore(e, rows[i]) then rows[..i] + [e] + rows[i..] else rows[..i + 1] + Inserted(rows[i + 1..], e)
  {
    assert rows[i..][0] == rows[i] && rows[i..][1..] == rows[i + 1..];
    assert rows[..i + 1] == rows[..i] + [rows[i]];
  }

  // ------------------------------------------------------------------ the store

  class Store {
    var events: seq<Event>
    var seen: set<string>
    var cfg: Retention
    var flushGen: nat

    ghost function Now(): (st: State)
      reads this
    {
      State(events, seen, cfg, flushGen)
    }

    /** NewStore: reads the file if there is one. */
    constructor (file: Option<File>, now: int)
      requires file.Some? ==> LoadedConfig(file.value).maxEvents >= 0
      ensures file.None? ==> Now() == State([], {}, Retention(500, 30), 0)
      ensures file.Some? ==> Now() == Loaded(file.value, now)
    {
      events, seen, cfg, flushGen := [], {}, DEFAULT_RETENTION, 0;
      new;
      if file.Some? { Load(file.value, now); }
    }

    method Load(file: File, now: int)
      requires Now() == State([], {}, DEFAULT_RETENTION, 0)
      requires LoadedConfig(file).maxEvents >= 0
      modifies this
      ensures Now() == Loaded(file, now)
    {
      if file.retention.Some? { cfg := file.retention.value; }
      var cutoff := Cutoff(now, cfg.ttlDays);
      ReadRows(file.events, cutoff);
      FileRowsDistinct(file.events, cutoff);
      if |events| > cfg.maxEvents {
        var over := events[cfg.maxEvents..];
        Forget(over);
        assert events == events[..cfg.maxEvents] + over;
        events := events[..cfg.maxEvents];
      }
      assert seen == Ids(events);
      SortRows();
    }

    /** The loop over the rows of the file. */
    method ReadRows(rows: seq<Event>, cutoff: int)
      requires events == [] && seen == {}
      modifies `events, `seen
      ensures events == FileRows(rows, cutoff) && seen == Ids(events)
    {
      for i := 0 to |rows|
        invariant events == FileRows(rows[..i], cutoff) && seen == Ids(events)
      {
        FileRowsStep(rows, i, cutoff);
        var e := rows[i];
        if e.id !in seen && !(e.time.At? && e.time.t < cutoff) {
          seen := seen + {e.id};
          events := events + [e];
        }
      }
      assert rows[..|rows|] == rows;
    }

    /** Sorts the rows in place. */
    method SortRows()
      modifies `events
      ensures events == SortedRuns(old(events)) && Ids(events) == Ids(old(events))
    {
      var a := new Event[|events|](i requires 0 <= i < |events| reads this => events[i]);
      assert a[..] == events;
      SortEventsDesc(a);
      SortedRunsPermutes(events);
      SameIds(events, a[..]);
      events := a[..];
    }

    /** Removes the ids of the given rows from `seen`. */
    method Forget(rows: seq<Event>)
      modifies `seen
      ensures seen == old(seen) - Ids(rows)
    {
      for i := 0 to |rows|
        invariant seen == old(seen) - Ids(rows[..i])
      {
        assert rows[..i + 1] == rows[..i] + [rows[i]];
        seen := seen - {rows[i].id};
      }
      assert rows[..|rows|] == rows;
    }

    method InsertSorted(evt: Event)
      modifies `events
      ensures events == Inserted(old(events), evt)
    {
      if evt.time.Garbled? {
        events := [evt] + events;
        return;
      }
      ghost var was := events;
      var i := 0;
      while i < |events|
        invariant i <= |events| && events == was
        invariant Inserted(was, evt) == was[..i] + Inserted(was[i..], evt)
      {
        InsertedStep(was, evt, i);
        if events[i].time.Garbled? || !(evt.time.t < events[i].time.t) {
          events := events[..i] + [evt] + events[i..];
          return;
        }
        i := i + 1;
      }
      assert was[i..] == [] && was[..i] == was;
      events := events + [evt];
    }

    /** The loop of the retention: rows out of time go, and their ids with them. */
    method Expire(cutoff: int)
      modifies `events, `seen
      ensures events == LiveRows(old(events), cutoff)
      ensures seen == old(seen) - DeadIds(old(events), cutoff)
    {
      ghost var was := events;
      var kept: seq<Event> := [];
      for i := 0 to |events|
        invariant events == was && kept == LiveRows(was[..i], cutoff)
        invariant seen == old(seen) - DeadIds(was[..i], cutoff)
      {
        LiveRowsStep(was, i, cutoff);
        DeadIdsStep(was, i, cutoff);
        var e := events[i];
        if e.time.Garbled? || e.time.t < cutoff {
          seen := seen - {e.id};
        } else {
          kept := kept + [e];
        }
      }
      assert was[..|was|] == was;
      events := kept;
    }

    method ApplyRetentionLocked(now: int)
      requires cfg.maxEvents >= 0
      modifies `events, `seen
      ensures Now() == Retained(old(Now()), now)
    {
      Expire(Cutoff(now, cfg.ttlDays));
      if |events| > cfg.maxEvents {
        Forget(events[cfg.maxEvents..]);
        events := events[..cfg.maxEvents];
      }
    }

    method FlushLocked()
      modifies `flushGen
      ensures flushGen == old(flushGen) + 1
    {
      flushGen := flushGen + 1;
    }

    /** The dedup loop: the first row the event repeats, or the number of rows. */
    method FindRepeat(e: Event) returns (i: nat)
      ensures i == FirstRepeat(events, e)
    {
      i := 0;
      while i < |events| && !Repeats(events[i], e)
        invariant i <= |events| && forall j :: 0 <= j < i ==> !Repeats(events[j], e)
      {
        i := i + 1;
      }
    }

    /** Takes row i out and puts its update at its sorted position. */
    method Reinsert(i: nat, updated: Event)
      requires i < |events|
      modifies `events, `flushGen
      ensures Now() == Merged(old(Now()), i, updated)
    {
      events := events[..i] + events[i + 1..];
      InsertSorted(updated);
      FlushLocked();
    }

    method Record(evt: Event, now: int)
      requires cfg.maxEvents >= 0
      modifies `events, `seen, `flushGen
      ensures Now() == Recorded(old(Now()), evt, now)
    {
      InsertSorted(evt);
      ApplyRetentionLocked(now);
      FlushLocked();
    }

    /** What both paths do with an event that is new by id. The webhook also copies the
        operation into the row it repeats, where it stands already. */
    method Accept(evt: Event, now: int) returns (sent: Event)
      requires cfg.maxEvents >= 0
      modifies this
      ensures (Now(), sent) == Accepted(old(Now()), evt, now)
    {
      seen := seen + {evt.id};
      var i := FindRepeat(evt);
      if i < |events| {
        sent := Bumped(events[i], evt.time);
        assert sent.operation == evt.operation;
        Reinsert(i, sent);
      } else {
        sent := evt;
        Record(evt, now);
      }
    }

    /** The audit webhook's path; what is broadcast, if anything. */
    method Add(e: Event, now: int) returns (sent: Option<Event>)
      requires cfg.maxEvents >= 0
      modifies this
      ensures (Now(), sent) == Added(old(Now()), e, now)
    {
      if e.id in seen { return None; }
      var evt := Accept(if e.count == 0 then e.(count := 1) else e, now);
      return Some(evt);
    }

    /** The Kubernetes event watcher's path. */
    method AddFromK8sEvent(k: K8sEvent, now: int) returns (sent: Option<Event>)
      requires cfg.maxEvents >= 0
      modifies this
      ensures (Now(), sent) == Observed(old(Now()), k, now)
    {
      if k.uid in seen { return None; }
      var evt := Accept(FromK8s(k, now), now);
      return Some(evt);
    }

    method SetRetention(c: Retention, now: int)
      requires c.maxEvents >= 0
      modifies this
      ensures Now() == Reconfigured(old(Now()), c, now)
    {
      cfg := c;
      ApplyRetentionLocked(now);
      FlushLocked();
    }
  }

  lemma SameIds(a: seq<Event>, b: seq<Event>)
    requires multiset(a) == multiset(b)
    ensures Ids(a) == Ids(b)
  {
    assert forall x :: x in a <==> x in multiset(a);
    assert forall x :: x in b <==> x in multiset(b);
  }
}
