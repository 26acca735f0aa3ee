/** Alert cooldowns (internal/alert/dispatcher.go, internal/alert/store.go). Two
    goroutines decide alerts under one lock, hand them to a bounded queue outside it,
    and take the cooldown back when the queue refuses; either may purge old cooldowns.
    A state machine over those steps covers every interleaving for a fixed rule set. */
module AlertCooldown {
  import opened Wrappers
  import opened Text
  import opened Clock

  const QUEUE_SIZE := 256

  datatype Rule = Rule(id: string, eventTypes: seq<string>, severities: seq<string>, namespaces: seq<string>,
                       policies: seq<string>, cooldownMin: int, webhookURL: string)
  {
    function Cooldown(): int { cooldownMin * MINUTE }

    /** Empty event types or severities match nothing; empty namespaces or policies, everything. */
    predicate Matches(eventType: string, severity: string, namespace: string, policy: string) {
      && eventType in eventTypes
      && severity in severities
      && (namespaces == [] || namespace in namespaces)
      && (policies == [] || policy in policies)
    }
  }

  /** Which goroutine an event belongs to. */
  datatype Thread = Security | Admission

  /** The identity an alert is about: the ten fingerprint fields of a security event,
      or what names an admission violation. */
  datatype Identity =
    | SecurityEvent(fields: seq<string>)
    | Violation(namespace: string, name: string, policy: string)
  {
    function Parts(): seq<string> {
      match this
      case SecurityEvent(fields) => fields
      case Violation(ns, n, p) => ["admission", ns, n, p]
    }

    predicate Plain() {
      && (SecurityEvent? ==> |fields| == 10)
      && forall p :: p in Parts() ==> '|' !in p
    }

    function Owner(): Thread { if SecurityEvent? then Security else Admission }
  }

  /** What a cooldown is kept for. The code renders it as one string. */
  datatype AlertKey = AlertKey(ruleID: string, id: Identity)

  function CooldownKey(key: AlertKey): string {
    key.ruleID + "|" + Join(key.id.Parts(), '|')
  }

  /** The rendering keeps keys apart, the two goroutines' among them. */
  lemma CooldownKeyInjective(a: AlertKey, b: AlertKey)
    requires '|' !in a.ruleID && '|' !in b.ruleID && a.id.Plain() && b.id.Plain()
    requires CooldownKey(a) == CooldownKey(b)
    ensures a == b
  {
    CutUnique(a.ruleID, Join(a.id.Parts(), '|'), b.ruleID, Join(b.id.Parts(), '|'), '|');
    JoinInjective(a.id.Parts(), b.id.Parts(), '|');
    assert |a.id.Parts()| == |b.id.Parts()|;
    if a.id.Violation? {
      assert forall i :: 0 <= i < 4 ==> a.id.Parts()[i] == b.id.Parts()[i];
    }
  }

  predicate WithinCooldown(last: map<AlertKey, int>, key: AlertKey, cooldownMin: int, now: int) {
    cooldownMin > 0 && key in last && now - last[key] < cooldownMin * MINUTE
  }

  function MaxCooldown(rules: seq<Rule>): (m: int)
    ensures m >= 0
    ensures forall r :: r in rules ==> r.cooldownMin <= m
  {
    if rules == [] then 0
    else
      var m := MaxCooldown(rules[..|rules| - 1]);
      var r := rules[|rules| - 1];
      assert rules == rules[..|rules| - 1] + [r];
      if r.cooldownMin > m then r.cooldownMin else m
  }

  function Purged(last: map<AlertKey, int>, rules: seq<Rule>, now: int): map<AlertKey, int> {
    map k | k in last && now - last[k] <= (MaxCooldown(rules) + 1) * MINUTE :: last[k]
  }

  /** A cooldown is forgotten once no rule could still hold an alert back by it, with a
      minute to spare. */
  lemma {:induction false} PurgedExactly(last: map<AlertKey, int>, rules: seq<Rule>, now: int, k: AlertKey)
    ensures k in Purged(last, rules, now)
       <==> k in last && (now - last[k] <= 60 * SECOND || exists r :: r in rules && now - last[k] <= (r.cooldownMin + 1) * 60 * SECOND)
    ensures k in Purged(last, rules, now) ==> Purged(last, rules, now)[k] == last[k]
  {
    LongestIs(rules);
  }

  lemma {:induction false} LongestIs(rules: seq<Rule>)
    ensures MaxCooldown(rules) == 0 || exists r :: r in rules && r.cooldownMin == MaxCooldown(rules)
  {
    if rules != [] {
      assert rules == rules[..|rules| - 1] + [rules[|rules| - 1]];
      LongestIs(rules[..|rules| - 1]);
    }
  }

  // ------------------------------------------------------------- state machine

  /** An alert decided on and not yet settled; `refused` once the queue turned it down. */
  datatype Attempt = Attempt(rule: Rule, id: Identity, at: int, refused: bool)
  {
    function Key(): AlertKey { AlertKey(rule.id, id) }
  }

  /** An alert that was queued, with the instants of decision and of queueing. */
  datatype Sent = Sent(rule: Rule, id: Identity, decided: int, queued: int)
  {
    function Key(): AlertKey { AlertKey(rule.id, id) }
  }

  datatype State = State(clock: int, last: map<AlertKey, int>, queue: nat, pending: map<Thread, Attempt>, sent: seq<Sent>)

  const INITIAL := State(0, map[], 0, map[], [])

  datatype Step =
    | Decide(rule: Rule, id: Identity)
    | Enqueue(th: Thread)
    | Refuse(th: Thread)
    | Rollback(th: Thread)
    | Drain
    | Purge(th: Thread)

  predicate Enabled(rules: seq<Rule>, st: State, s: Step, now: int) {
    && st.clock <= now
    && match s
       case Decide(rule, id) => rule in rules && id.Owner() !in st.pending
       case Enqueue(th) => th in st.pending && !st.pending[th].refused && st.queue < QUEUE_SIZE
       // a full queue, or a payload that cannot be marshalled
       case Refuse(th) => th in st.pending && !st.pending[th].refused
       case Rollback(th) => th in st.pending && st.pending[th].refused
       case Drain => st.queue > 0
       case Purge(th) => th !in st.pending
  }

  function Apply(rules: seq<Rule>, st0: State, s: Step, now: int): State
    requires Enabled(rules, st0, s, now)
  {
    var st := st0.(clock := now);
    match s
    case Decide(rule, id) =>
      var key := AlertKey(rule.id, id);
      if WithinCooldown(st.last, key, rule.cooldownMin, now) then st
      else st.(last := st.last[key := now], pending := st.pending[id.Owner() := Attempt(rule, id, now, false)])
    case Enqueue(th) =>
      var a := st.pending[th];
      st.(queue := st.queue + 1, pending := st.pending - {th}, sent := st.sent + [Sent(a.rule, a.id, a.at, now)])
    case Refuse(th) => st.(pending := st.pending[th := st.pending[th].(refused := true)])
    case Rollback(th) => st.(last := st.last - {st.pending[th].Key()}, pending := st.pending - {th})
    case Drain => st.(queue := st.queue - 1)
    case Purge(_) => st.(last := Purged(st.last, rules, now))
  }

  datatype Event = Event(step: Step, now: int)

  /** The store keys its rules by id. */
  predicate ValidRules(rules: seq<Rule>) {
    forall i, j :: 0 <= i < j < |rules| ==> rules[i].id != rules[j].id
  }

  predicate Legal(rules: seq<Rule>, trace: seq<Event>)
    decreases |trace|, 0
  {
    trace == [] ||
    var init, e := trace[..|trace| - 1], trace[|trace| - 1];
    Legal(rules, init) && Enabled(rules, After(rules, init), e.step, e.now)
  }

  function After(rules: seq<Rule>, trace: seq<Event>): State
    requires Legal(rules, trace)
    decreases |trace|, 1
  {
    if trace == [] then INITIAL
    else
      var init, e := trace[..|trace| - 1], trace[|trace| - 1];
      Apply(rules, After(rules, init), e.step, e.now)
  }

  // ---------------------------------------------------------------- invariants

  /** The alerts are of known rules, and their instants lie in order. */
  ghost predicate WellFormed(rules: seq<Rule>, st: State) {
    && (forall th :: th in st.pending ==>
          var a := st.pending[th]; a.rule in rules && a.id.Owner() == th && a.at <= st.clock)
    && (forall s :: s in st.sent ==> s.rule in rules && s.decided <= s.queued <= st.clock)
  }

  /** A cooldown that still matters is in force. */
  ghost predicate InForce(st: State, key: AlertKey, at: int, cooldown: int) {
    (key in st.last && st.last[key] >= at) || st.clock - at >= cooldown
  }

  ghost predicate CooldownsHeld(st: State) {
    && (forall s :: s in st.sent ==> InForce(st, s.Key(), s.decided, s.rule.Cooldown()))
    && (forall th :: th in st.pending ==>
          InForce(st, st.pending[th].Key(), st.pending[th].at, st.pending[th].rule.Cooldown()))
  }

  /** No cooldown without an alert that was queued or is being settled. */
  ghost predicate CooldownsEarned(st: State) {
    forall k :: k in st.last ==>
      || (exists th :: th in st.pending && st.pending[th].Key() == k && st.pending[th].at == st.last[k])
      || (exists s :: s in st.sent && s.Key() == k && s.decided == st.last[k])
  }

  ghost predicate Spaced(st: State) {
    && (forall i, j :: 0 <= i < j < |st.sent| && st.sent[i].Key() == st.sent[j].Key() ==>
          && st.sent[j].decided - st.sent[i].decided >= st.sent[i].rule.Cooldown()
          && st.sent[j].decided >= st.sent[i].queued)
    && (forall th, s :: th in st.pending && s in st.sent && s.Key() == st.pending[th].Key() ==>
          && st.pending[th].at - s.decided >= s.rule.Cooldown()
          && st.pending[th].at >= s.queued)
  }

  ghost predicate Inv(rules: seq<Rule>, st: State) {
    WellFormed(rules, st) && CooldownsHeld(st) && CooldownsEarned(st) && Spaced(st)
  }

  lemma SameKeySameAlert(rules: seq<Rule>, r1: Rule, id1: Identity, r2: Rule, id2: Identity)
    requires ValidRules(rules) && r1 in rules && r2 in rules
    requires AlertKey(r1.id, id1) == AlertKey(r2.id, id2)
    ensures r1 == r2 && id1 == id2
  {
    var i :| 0 <= i < |rules| && rules[i] == r1;
    var j :| 0 <= j < |rules| && rules[j] == r2;
  }

  lemma CooldownBounded(rules: seq<Rule>, r: Rule)
    requires r in rules
    ensures r.Cooldown() <= MaxCooldown(rules) * MINUTE
  {
  }

  /** Once the cooldown check lets an alert through, every earlier one is a cooldown ago. */
  lemma CheckedIsLater(rules: seq<Rule>, st: State, rule: Rule, id: Identity, now: int, s: Sent)
    requires ValidRules(rules) && Inv(rules, st) && rule in rules && now >= st.clock
    requires !WithinCooldown(st.last, AlertKey(rule.id, id), rule.cooldownMin, now)
    requires s in st.sent && s.Key() == AlertKey(rule.id, id)
    ensures now - s.decided >= s.rule.Cooldown() && now >= s.queued
  {
    SameKeySameAlert(rules, rule, id, s.rule, s.id);
  }

  lemma HeldAfterDecide(rules: seq<Rule>, st: State, rule: Rule, id: Identity, now: int)
    requires WellFormed(rules, st) && CooldownsHeld(st) && Enabled(rules, st, Decide(rule, id), now)
    ensures WellFormed(rules, Apply(rules, st, Decide(rule, id), now))
    ensures CooldownsHeld(Apply(rules, st, Decide(rule, id), now))
  {
  }

  lemma SpacedAfterDecide(rules: seq<Rule>, st: State, rule: Rule, id: Identity, now: int)
    requires ValidRules(rules) && Inv(rules, st) && Enabled(rules, st, Decide(rule, id), now)
    requires !WithinCooldown(st.last, AlertKey(rule.id, id), rule.cooldownMin, now)
    ensures Spaced(Apply(rules, st, Decide(rule, id), now))
  {
    var st' := Apply(rules, st, Decide(rule, id), now);
    forall th, s | th in st'.pending && s in st'.sent && s.Key() == st'.pending[th].Key()
      ensures st'.pending[th].at - s.decided >= s.rule.Cooldown() && st'.pending[th].at >= s.queued
    {
      if th == id.Owner() {
        CheckedIsLater(rules, st, rule, id, now, s);
      } else {
        assert st'.pending[th] == st.pending[th];
      }
    }
  }

  lemma DecideKeepsInv(rules: seq<Rule>, st: State, rule: Rule, id: Identity, now: int)
    requires ValidRules(rules) && Inv(rules, st) && Enabled(rules, st, Decide(rule, id), now)
    ensures Inv(rules, Apply(rules, st, Decide(rule, id), now))
  {
    HeldAfterDecide(rules, st, rule, id, now);
    if !WithinCooldown(st.last, AlertKey(rule.id, id), rule.cooldownMin, now) {
      SpacedAfterDecide(rules, st, rule, id, now);
      EarnedAfterDecide(rules, st, rule, id, now);
    } else {
      assert Apply(rules, st, Decide(rule, id), now) == st.(clock := now);
    }
  }

  lemma EarnedAfterDecide(rules: seq<Rule>, st: State, rule: Rule, id: Identity, now: int)
    requires CooldownsEarned(st) && Enabled(rules, st, Decide(rule, id), now)
    requires !WithinCooldown(st.last, AlertKey(rule.id, id), rule.cooldownMin, now)
    ensures CooldownsEarned(Apply(rules, st, Decide(rule, id), now))
  {
    var st' := Apply(rules, st, Decide(rule, id), now);
    var key := AlertKey(rule.id, id);
    forall k | k in st'.last
      ensures || (exists th :: th in st'.pending && st'.pending[th].Key() == k && st'.pending[th].at == st'.last[k])
              || (exists s :: s in st'.sent && s.Key() == k && s.decided == st'.last[k])
    {
      if k == key {
        assert st'.pending[id.Owner()].Key() == k && st'.pending[id.Owner()].at == st'.last[k];
      } else if th :| th in st.pending && st.pending[th].Key() == k && st.pending[th].at == st.last[k] {
        assert st'.pending[th] == st.pending[th];
      }
    }
  }

  lemma EarnedAfterEnqueue(rules: seq<Rule>, st: State, th: Thread, now: int)
    requires CooldownsEarned(st) && Enabled(rules, st, Enqueue(th), now)
    ensures CooldownsEarned(Apply(rules, st, Enqueue(th), now))
  {
    var st' := Apply(rules, st, Enqueue(th), now);
    var a := st.pending[th];
    var sent := Sent(a.rule, a.id, a.at, now);
    forall k | k in st'.last
      ensures || (exists o :: o in st'.pending && st'.pending[o].Key() == k && st'.pending[o].at == st'.last[k])
              || (exists s :: s in st'.sent && s.Key() == k && s.decided == st'.last[k])
    {
      if s :| s in st.sent && s.Key() == k && s.decided == st.last[k] {
        assert s in st'.sent;
      } else {
        var o :| o in st.pending && st.pending[o].Key() == k && st.pending[o].at == st.last[k];
        if o == th { assert sent in st'.sent; } else { assert st'.pending[o] == st.pending[o]; }
      }
    }
  }

  lemma SpacedAfterEnqueue(rules: seq<Rule>, st: State, th: Thread, now: int)
    requires ValidRules(rules) && Inv(rules, st) && Enabled(rules, st, Enqueue(th), now)
    ensures Spaced(Apply(rules, st, Enqueue(th), now))
  {
    var st' := Apply(rules, st, Enqueue(th), now);
    var a := st.pending[th];
    var sent := Sent(a.rule, a.id, a.at, now);
    forall i, j | 0 <= i < j < |st'.sent| && st'.sent[i].Key() == st'.sent[j].Key()
      ensures st'.sent[j].decided - st'.sent[i].decided >= st'.sent[i].rule.Cooldown()
      ensures st'.sent[j].decided >= st'.sent[i].queued
    {
      assert st'.sent[i] == st.sent[i] && st.sent[i] in st.sent;
      if j == |st.sent| {
        assert st'.sent[j] == sent && sent.Key() == a.Key();
      }
    }
    forall o, s | o in st'.pending && s in st'.sent && s.Key() == st'.pending[o].Key()
      ensures st'.pending[o].at - s.decided >= s.rule.Cooldown() && st'.pending[o].at >= s.queued
    {
      OwnKeys(rules, st, th, o);
      assert s in st.sent;
    }
  }

  lemma EnqueueKeepsInv(rules: seq<Rule>, st: State, th: Thread, now: int)
    requires ValidRules(rules) && Inv(rules, st) && Enabled(rules, st, Enqueue(th), now)
    ensures Inv(rules, Apply(rules, st, Enqueue(th), now))
  {
    EarnedAfterEnqueue(rules, st, th, now);
    SpacedAfterEnqueue(rules, st, th, now);
  }

  /** The two goroutines never work on one key. */
  lemma OwnKeys(rules: seq<Rule>, st: State, a: Thread, b: Thread)
    requires ValidRules(rules) && WellFormed(rules, st) && a in st.pending && b in st.pending && a != b
    ensures st.pending[a].Key() != st.pending[b].Key()
  {
  }

  lemma EarnedAfterRefuse(rules: seq<Rule>, st: State, th: Thread, now: int)
    requires CooldownsEarned(st) && Enabled(rules, st, Refuse(th), now)
    ensures CooldownsEarned(Apply(rules, st, Refuse(th), now))
  {
    var st' := Apply(rules, st, Refuse(th), now);
    assert forall o :: o in st.pending ==> st'.pending[o].Key() == st.pending[o].Key() && st'.pending[o].at == st.pending[o].at;
  }

  lemma RefuseKeepsInv(rules: seq<Rule>, st: State, th: Thread, now: int)
    requires Inv(rules, st) && Enabled(rules, st, Refuse(th), now)
    ensures Inv(rules, Apply(rules, st, Refuse(th), now))
  {
    EarnedAfterRefuse(rules, st, th, now);
    HeldAfterRefuse(rules, st, th, now);
  }

  lemma HeldAfterRefuse(rules: seq<Rule>, st: State, th: Thread, now: int)
    requires CooldownsHeld(st) && Enabled(rules, st, Refuse(th), now)
    ensures CooldownsHeld(Apply(rules, st, Refuse(th), now))
  {
  }

  lemma EarnedAfterRollback(rules: seq<Rule>, st: State, th: Thread, now: int)
    requires CooldownsEarned(st) && Enabled(rules, st, Rollback(th), now)
    ensures CooldownsEarned(Apply(rules, st, Rollback(th), now))
  {
    var st' := Apply(rules, st, Rollback(th), now);
    forall k | k in st'.last
      ensures || (exists o :: o in st'.pending && st'.pending[o].Key() == k && st'.pending[o].at == st'.last[k])
              || (exists s :: s in st'.sent && s.Key() == k && s.decided == st'.last[k])
    {
      if o :| o in st.pending && st.pending[o].Key() == k && st.pending[o].at == st.last[k] {
        assert st'.pending[o] == st.pending[o];
      }
    }
  }

  /** The cooldown taken back is the one alert's own: the alerts sent under its key are
      out of force already. */
  lemma HeldAfterRollback(rules: seq<Rule>, st: State, th: Thread, now: int)
    requires ValidRules(rules) && Inv(rules, st) && Enabled(rules, st, Rollback(th), now)
    ensures CooldownsHeld(Apply(rules, st, Rollback(th), now))
  {
    var st' := Apply(rules, st, Rollback(th), now);
    forall other | other in st'.pending ensures st'.pending[other].Key() != st.pending[th].Key() {
      OwnKeys(rules, st, th, other);
    }
  }

  lemma RollbackKeepsInv(rules: seq<Rule>, st: State, th: Thread, now: int)
    requires ValidRules(rules) && Inv(rules, st) && Enabled(rules, st, Rollback(th), now)
    ensures Inv(rules, Apply(rules, st, Rollback(th), now))
  {
    EarnedAfterRollback(rules, st, th, now);
    HeldAfterRollback(rules, st, th, now);
  }

  /** Purging drops a cooldown only when it has run out under every rule. */
  lemma PurgeKeepsInForce(rules: seq<Rule>, st: State, th: Thread, now: int, key: AlertKey, at: int, rule: Rule)
    requires rule in rules && InForce(st, key, at, rule.Cooldown()) && Enabled(rules, st, Purge(th), now)
    ensures InForce(Apply(rules, st, Purge(th), now), key, at, rule.Cooldown())
  {
    CooldownBounded(rules, rule);
  }

  lemma PurgeKeepsInv(rules: seq<Rule>, st: State, th: Thread, now: int)
    requires Inv(rules, st) && Enabled(rules, st, Purge(th), now)
    ensures Inv(rules, Apply(rules, st, Purge(th), now))
  {
    var st' := Apply(rules, st, Purge(th), now);
    forall s | s in st'.sent ensures InForce(st', s.Key(), s.decided, s.rule.Cooldown()) {
      PurgeKeepsInForce(rules, st, th, now, s.Key(), s.decided, s.rule);
    }
    forall o | o in st'.pending
      ensures InForce(st', st'.pending[o].Key(), st'.pending[o].at, st'.pending[o].rule.Cooldown())
    {
      PurgeKeepsInForce(rules, st, th, now, st.pending[o].Key(), st.pending[o].at, st.pending[o].rule);
    }
  }

  lemma ApplyKeepsInv(rules: seq<Rule>, st: State, s: Step, now: int)
    requires ValidRules(rules) && Inv(rules, st) && Enabled(rules, st, s, now)
    ensures Inv(rules, Apply(rules, st, s, now))
  {
    match s
    case Decide(rule, id) => DecideKeepsInv(rules, st, rule, id, now);
    case Enqueue(th) => EnqueueKeepsInv(rules, st, th, now);
    case Refuse(th) => RefuseKeepsInv(rules, st, th, now);
    case Rollback(th) => RollbackKeepsInv(rules, st, th, now);
    case Drain =>
    case Purge(th) => PurgeKeepsInv(rules, st, th, now);
  }

  lemma {:induction false} LegalKeepsInv(rules: seq<Rule>, trace: seq<Event>)
    requires ValidRules(rules) && Legal(rules, trace)
    ensures Inv(rules, After(rules, trace))
  {
    if trace != [] {
      var init, e := trace[..|trace| - 1], trace[|trace| - 1];
      LegalKeepsInv(rules, init);
      ApplyKeepsInv(rules, After(rules, init), e.step, e.now);
    }
  }

  // ---------------------------------------------------------------- main results

  /** In every interleaving, two queued alerts of one rule and identity were decided at
      least the rule's cooldown apart, the later one after the earlier was queued. */
  lemma QueuedAlertsSpaced(rules: seq<Rule>, trace: seq<Event>, i: nat, j: nat)
    requires ValidRules(rules) && Legal(rules, trace) && i < j < |After(rules, trace).sent|
    requires After(rules, trace).sent[i].rule == After(rules, trace).sent[j].rule
    requires After(rules, trace).sent[i].id == After(rules, trace).sent[j].id
    ensures var a, b := After(rules, trace).sent[i], After(rules, trace).sent[j];
            b.decided - a.decided >= a.rule.Cooldown() && a.queued <= b.decided
  {
    LegalKeepsInv(rules, trace);
  }

  /** The instants of queueing themselves may lie closer, by the time the earlier alert
      took from its decision to the queue. */
  lemma QueuedApart(rules: seq<Rule>, trace: seq<Event>, i: nat, j: nat)
    requires ValidRules(rules) && Legal(rules, trace) && i < j < |After(rules, trace).sent|
    requires After(rules, trace).sent[i].rule == After(rules, trace).sent[j].rule
    requires After(rules, trace).sent[i].id == After(rules, trace).sent[j].id
    ensures var a, b := After(rules, trace).sent[i], After(rules, trace).sent[j];
            b.queued - a.queued >= a.rule.Cooldown() - (a.queued - a.decided)
  {
    LegalKeepsInv(rules, trace);
    QueuedAlertsSpaced(rules, trace, i, j);
    assert After(rules, trace).sent[j] in After(rules, trace).sent;
  }

  lemma OneMoreStep(rules: seq<Rule>, trace: seq<Event>, e: Event)
    requires Legal(rules, trace) && Enabled(rules, After(rules, trace), e.step, e.now)
    ensures Legal(rules, trace + [e]) && After(rules, trace + [e]) == Apply(rules, After(rules, trace), e.step, e.now)
  {
    assert (trace + [e])[..|trace|] == trace;
  }

  lemma {:induction false} SentGrows(rules: seq<Rule>, start: seq<Event>, later: seq<Event>)
    requires Legal(rules, later) && start <= later
    ensures Legal(rules, start) && After(rules, start).sent <= After(rules, later).sent
  {
    if start != later {
      var init := later[..|later| - 1];
      assert start <= init;
      SentGrows(rules, start, init);
    } else {
      assert start == later;
    }
  }

  /** The time an alert of the same key has to wait, from the instant one is queued. */
  function LeastGap(a: Attempt, now: int): int {
    var rest := a.rule.Cooldown() - (now - a.at);
    if rest > 0 then rest else 0
  }

  /** A run that goes on from `start`, in which alert j is queued after alert n and has
      its key. */
  ghost predicate QueuedAgain(rules: seq<Rule>, start: seq<Event>, later: seq<Event>, n: nat, j: nat) {
    && Legal(rules, later) && start <= later && n < j < |After(rules, later).sent|
    && After(rules, later).sent[j].Key() == After(rules, later).sent[n].Key()
  }

  ghost function Gap(rules: seq<Rule>, later: seq<Event>, n: nat, j: nat): int
    requires Legal(rules, later) && n < |After(rules, later).sent| && j < |After(rules, later).sent|
  {
    After(rules, later).sent[j].queued - After(rules, later).sent[n].queued
  }

  /** The run with a pending alert queued. */
  function WithQueued(trace: seq<Event>, th: Thread, now: int): seq<Event> { trace + [Event(Enqueue(th), now)] }

  lemma QueuedIsLast(rules: seq<Rule>, trace: seq<Event>, th: Thread, now: int, later: seq<Event>)
    requires Legal(rules, trace) && Enabled(rules, After(rules, trace), Enqueue(th), now)
    requires Legal(rules, later) && WithQueued(trace, th, now) <= later
    ensures var st := After(rules, trace);
            && |After(rules, later).sent| > |st.sent|
            && After(rules, later).sent[|st.sent|] == Sent(st.pending[th].rule, st.pending[th].id, st.pending[th].at, now)
  {
    OneMoreStep(rules, trace, Event(Enqueue(th), now));
    SentGrows(rules, WithQueued(trace, th, now), later);
  }

  lemma NoSooner(rules: seq<Rule>, trace: seq<Event>, th: Thread, now: int, later: seq<Event>, j: nat)
    requires ValidRules(rules) && Legal(rules, trace) && Enabled(rules, After(rules, trace), Enqueue(th), now)
    requires QueuedAgain(rules, WithQueued(trace, th, now), later, |After(rules, trace).sent|, j)
    ensures Gap(rules, later, |After(rules, trace).sent|, j) >= LeastGap(After(rules, trace).pending[th], now)
  {
    var n, sent := |After(rules, trace).sent|, After(rules, later).sent;
    QueuedIsLast(rules, trace, th, now, later);
    LegalKeepsInv(rules, later);
    assert sent[n] in sent && sent[j] in sent;
    SameKeySameAlert(rules, sent[n].rule, sent[n].id, sent[j].rule, sent[j].id);
    QueuedApart(rules, later, n, j);
    QueuedAlertsSpaced(rules, later, n, j);
  }

  /** The cooldown on record for a pending alert's key is no later than its decision. */
  lemma PendingIsLatest(rules: seq<Rule>, st: State, th: Thread)
    requires ValidRules(rules) && Inv(rules, st) && th in st.pending
    ensures st.pending[th].Key() in st.last ==> st.last[st.pending[th].Key()] <= st.pending[th].at
  {
    var k := st.pending[th].Key();
    if k in st.last {
      if o :| o in st.pending && st.pending[o].Key() == k && st.pending[o].at == st.last[k] {
        if o != th { OwnKeys(rules, st, th, o); }
      } else {
        var s :| s in st.sent && s.Key() == k && s.decided == st.last[k];
        assert st.pending[th].at >= s.queued;
      }
    }
  }

  /** An alert that is let through can be queued at the instant of its decision. */
  lemma QueuedAtOnce(rules: seq<Rule>, trace: seq<Event>, rule: Rule, id: Identity, now: int) returns (later: seq<Event>)
    requires ValidRules(rules) && Legal(rules, trace) && Enabled(rules, After(rules, trace), Decide(rule, id), now)
    requires After(rules, trace).queue < QUEUE_SIZE
    requires !WithinCooldown(After(rules, trace).last, AlertKey(rule.id, id), rule.cooldownMin, now)
    ensures Legal(rules, later) && trace <= later
    ensures After(rules, later).sent == After(rules, trace).sent + [Sent(rule, id, now, now)]
  {
    OneMoreStep(rules, trace, Event(Decide(rule, id), now));
    var decided := trace + [Event(Decide(rule, id), now)];
    assert After(rules, decided).pending[id.Owner()] == Attempt(rule, id, now, false);
    OneMoreStep(rules, decided, Event(Enqueue(id.Owner()), now));
    later := decided + [Event(Enqueue(id.Owner()), now)];
  }

  /** A pending alert is queued, and the queue drained by one. */
  lemma QueuedAndDrained(rules: seq<Rule>, trace: seq<Event>, th: Thread, now: int) returns (later: seq<Event>)
    requires Legal(rules, trace) && Enabled(rules, After(rules, trace), Enqueue(th), now)
    ensures Legal(rules, later) && WithQueued(trace, th, now) <= later
    ensures var st := After(rules, trace);
            After(rules, later) == State(now, st.last, st.queue, st.pending - {th}, st.sent
                                         + [Sent(st.pending[th].rule, st.pending[th].id, st.pending[th].at, now)])
  {
    OneMoreStep(rules, trace, Event(Enqueue(th), now));
    var queued := WithQueued(trace, th, now);
    OneMoreStep(rules, queued, Event(Drain, now));
    later := queued + [Event(Drain, now)];
  }

  /** The shortest way to queue a key again: make room, decide once the cooldown is over,
      queue at once. */
  lemma QueuedAgainThatSoon(rules: seq<Rule>, trace: seq<Event>, th: Thread, now: int) returns (later: seq<Event>, j: nat)
    requires ValidRules(rules) && Legal(rules, trace) && Enabled(rules, After(rules, trace), Enqueue(th), now)
    ensures QueuedAgain(rules, WithQueued(trace, th, now), later, |After(rules, trace).sent|, j)
    ensures Gap(rules, later, |After(rules, trace).sent|, j) == LeastGap(After(rules, trace).pending[th], now)
  {
    var st := After(rules, trace);
    LegalKeepsInv(rules, trace);
    PendingIsLatest(rules, st, th);
    var a, due := st.pending[th], now + LeastGap(st.pending[th], now);
    var drained := QueuedAndDrained(rules, trace, th, now);
    later := QueuedAtOnce(rules, drained, a.rule, a.id, due);
    j := |st.sent| + 1;
    assert After(rules, later).sent == st.sent + [Sent(a.rule, a.id, a.at, now), Sent(a.rule, a.id, due, due)];
  }

  /** After an alert is queued, the same key is queued again no sooner than what is left
      of the cooldown since the decision, and in some continuation exactly then. */
  lemma LeastGapExactly(rules: seq<Rule>, trace: seq<Event>, th: Thread, now: int)
    requires ValidRules(rules) && Legal(rules, trace) && Enabled(rules, After(rules, trace), Enqueue(th), now)
    ensures var n, least := |After(rules, trace).sent|, LeastGap(After(rules, trace).pending[th], now);
            && (forall later, j :: QueuedAgain(rules, WithQueued(trace, th, now), later, n, j) ==> Gap(rules, later, n, j) >= least)
            && (exists later, j :: QueuedAgain(rules, WithQueued(trace, th, now), later, n, j) && Gap(rules, later, n, j) == least)
  {
    var n := |After(rules, trace).sent|;
    forall later, j | QueuedAgain(rules, WithQueued(trace, th, now), later, n, j)
      ensures Gap(rules, later, n, j) >= LeastGap(After(rules, trace).pending[th], now)
    {
      NoSooner(rules, trace, th, now, later, j);
    }
    var later, j := QueuedAgainThatSoon(rules, trace, th, now);
    assert QueuedAgain(rules, WithQueued(trace, th, now), later, n, j);
  }

  /** So the same key can be queued again within its cooldown exactly when there is one
      and queueing came later than the decision. */
  lemma TooSoonExactly(rules: seq<Rule>, trace: seq<Event>, th: Thread, now: int)
    requires ValidRules(rules) && Legal(rules, trace) && Enabled(rules, After(rules, trace), Enqueue(th), now)
    ensures var n, a := |After(rules, trace).sent|, After(rules, trace).pending[th];
            (exists later, j :: QueuedAgain(rules, WithQueued(trace, th, now), later, n, j)
                                && Gap(rules, later, n, j) < a.rule.Cooldown())
            <==> a.at < now && a.rule.Cooldown() > 0
  {
    LegalKeepsInv(rules, trace);
    LeastGapExactly(rules, trace, th, now);
  }

  predicate QueuedTooClose(sent: seq<Sent>, rule: Rule, id: Identity) {
    && |sent| == 2 && sent[0].Key() == sent[1].Key() == AlertKey(rule.id, id)
    && sent[1].queued - sent[0].queued < rule.Cooldown()
  }

  /** An instance: decided at once and queued 50 seconds later, then decided and queued
      the minute after. */
  lemma QueuedCloser(rule: Rule, id: Identity)
    requires rule.cooldownMin == 1
    ensures exists trace :: Legal([rule], trace) && QueuedTooClose(After([rule], trace).sent, rule, id)
  {
    var rules, th := [rule], id.Owner();
    OneMoreStep(rules, [], Event(Decide(rule, id), 0));
    var t1 := [] + [Event(Decide(rule, id), 0)];
    OneMoreStep(rules, t1, Event(Enqueue(th), 50 * SECOND));
    var t2 := t1 + [Event(Enqueue(th), 50 * SECOND)];
    OneMoreStep(rules, t2, Event(Decide(rule, id), MINUTE));
    var t3 := t2 + [Event(Decide(rule, id), MINUTE)];
    OneMoreStep(rules, t3, Event(Enqueue(th), MINUTE));
    var t4 := t3 + [Event(Enqueue(th), MINUTE)];
    assert After(rules, t4).sent == [Sent(rule, id, 0, 50 * SECOND), Sent(rule, id, MINUTE, MINUTE)];
  }

  lemma HeldBackHasCause(rules: seq<Rule>, st: State, rule: Rule, id: Identity, now: int)
    requires ValidRules(rules) && Inv(rules, st) && Enabled(rules, st, Decide(rule, id), now)
    requires WithinCooldown(st.last, AlertKey(rule.id, id), rule.cooldownMin, now)
    ensures exists s :: s in st.sent && s.rule == rule && s.id == id && now - s.decided < rule.Cooldown()
  {
    var key := AlertKey(rule.id, id);
    forall th | th in st.pending ensures st.pending[th].Key() != key {
      assert st.pending[th].id.Owner() == th;
    }
    var s :| s in st.sent && s.Key() == key && s.decided == st.last[key];
    SameKeySameAlert(rules, rule, id, s.rule, s.id);
  }

  lemma RecentHoldsBack(rules: seq<Rule>, st: State, s: Sent, now: int)
    requires Inv(rules, st) && st.clock <= now && s in st.sent && now - s.decided < s.rule.Cooldown()
    ensures WithinCooldown(st.last, s.Key(), s.rule.cooldownMin, now)
  {
    assert InForce(st, s.Key(), s.decided, s.rule.Cooldown());
  }

  /** The cooldown map answers exactly what the history of queued alerts says: an
      alert is held back if and only if one of its rule and identity was queued less
      than a cooldown ago. Rollback and purge change no answer. */
  lemma HeldBackExactly(rules: seq<Rule>, trace: seq<Event>, rule: Rule, id: Identity, now: int)
    requires ValidRules(rules) && Legal(rules, trace) && Enabled(rules, After(rules, trace), Decide(rule, id), now)
    ensures WithinCooldown(After(rules, trace).last, AlertKey(rule.id, id), rule.cooldownMin, now)
       <==> exists s :: s in After(rules, trace).sent && s.rule == rule && s.id == id && now - s.decided < rule.Cooldown()
  {
    LegalKeepsInv(rules, trace);
    var st := After(rules, trace);
    if WithinCooldown(st.last, AlertKey(rule.id, id), rule.cooldownMin, now) {
      HeldBackHasCause(rules, st, rule, id, now);
    }
    if s :| s in st.sent && s.rule == rule && s.id == id && now - s.decided < rule.Cooldown() {
      RecentHoldsBack(rules, st, s, now);
    }
  }

  /** An alert the queue refused leaves no cooldown behind: right after the rollback the
      same alert is let through at any time, other cooldowns stand as they were, and what
      was forgotten was no queued alert's, whose cooldowns for the key had all run out by
      the decision. */
  lemma RefusedLeavesNoCooldown(rules: seq<Rule>, trace: seq<Event>, th: Thread, now: int, later: int)
    requires ValidRules(rules) && Legal(rules, trace) && Enabled(rules, After(rules, trace), Rollback(th), now)
    ensures var a := After(rules, trace).pending[th];
            var st' := Apply(rules, After(rules, trace), Rollback(th), now);
            && !WithinCooldown(st'.last, a.Key(), a.rule.cooldownMin, later)
            && st'.sent == After(rules, trace).sent
            && st'.last == After(rules, trace).last - {a.Key()}
            && (forall k :: k in st'.last ==> k != a.Key() && st'.last[k] == After(rules, trace).last[k])
            && (forall s :: s in st'.sent && s.Key() == a.Key() ==> s.decided + s.rule.Cooldown() <= a.at)
  {
    LegalKeepsInv(rules, trace);
  }

  /** Once nothing is being settled, every cooldown on record is that of a queued alert,
      from its decision: refusals have left nothing. */
  lemma SettledCooldownsAreQueued(rules: seq<Rule>, trace: seq<Event>, k: AlertKey)
    requires ValidRules(rules) && Legal(rules, trace) && After(rules, trace).pending == map[]
    requires k in After(rules, trace).last
    ensures exists s :: s in After(rules, trace).sent && s.Key() == k && s.decided == After(rules, trace).last[k]
  {
    LegalKeepsInv(rules, trace);
  }

  // ------------------------------------------------------------- the dispatcher

  /** One rule's turn in a dispatch loop run alone. */
  function Attempted(last: map<AlertKey, int>, queue: nat, rule: Rule, id: Identity, now: int): (r: (map<AlertKey, int>, nat, bool)) {
    var key := AlertKey(rule.id, id);
    if WithinCooldown(last, key, rule.cooldownMin, now) then (last, queue, false)
    else if queue < QUEUE_SIZE then (last[key := now], queue + 1, true)
    else (last - {key}, queue, false)
  }

  /** Run alone, a turn that queues is a decision and its queueing. */
  lemma QueuedIsSteps(rules: seq<Rule>, st: State, rule: Rule, id: Identity, now: int)
    requires ValidRules(rules) && Inv(rules, st) && Enabled(rules, st, Decide(rule, id), now)
    requires Attempted(st.last, st.queue, rule, id, now).2
    ensures var d := Apply(rules, st, Decide(rule, id), now);
            && Enabled(rules, d, Enqueue(id.Owner()), now)
            && var f := Apply(rules, d, Enqueue(id.Owner()), now);
               (f.last, f.queue, true) == Attempted(st.last, st.queue, rule, id, now) && |f.sent| == |st.sent| + 1
  {
  }

  /** A turn that does not queue is a decision to hold back, or one refused and rolled
      back. */
  lemma UnqueuedIsSteps(rules: seq<Rule>, st: State, rule: Rule, id: Identity, now: int)
    requires ValidRules(rules) && Inv(rules, st) && Enabled(rules, st, Decide(rule, id), now)
    requires !Attempted(st.last, st.queue, rule, id, now).2
    ensures var d := Apply(rules, st, Decide(rule, id), now);
            if id.Owner() !in d.pending then (d.last, d.queue, false) == Attempted(st.last, st.queue, rule, id, now)
            else
              && Enabled(rules, d, Refuse(id.Owner()), now)
              && var f := Apply(rules, Apply(rules, d, Refuse(id.Owner()), now), Rollback(id.Owner()), now);
                 (f.last, f.queue, false) == Attempted(st.last, st.queue, rule, id, now) && f.sent == st.sent
  {
    if !WithinCooldown(st.last, AlertKey(rule.id, id), rule.cooldownMin, now) { RefusedAndRolledBack(rules, st, rule, id, now); }
  }

  lemma RefusedAndRolledBack(rules: seq<Rule>, st: State, rule: Rule, id: Identity, now: int)
    requires Enabled(rules, st, Decide(rule, id), now) && !WithinCooldown(st.last, AlertKey(rule.id, id), rule.cooldownMin, now)
    ensures var d := Apply(rules, st, Decide(rule, id), now);
            var f := Apply(rules, Apply(rules, d, Refuse(id.Owner()), now), Rollback(id.Owner()), now);
            f.last == st.last - {AlertKey(rule.id, id)} && f.queue == st.queue && f.sent == st.sent
  {
  }

  /** What happened, as far as rules look at it, and the identity alerts are about. */
  datatype Occurrence = Occurrence(eventType: string, severity: string, namespace: string, policy: string, id: Identity)

  /** A webhook and what it is to be told about. */
  type Delivery = (string, Identity)

  /** The rules an occurrence concerns, taken one after the other. */
  function Dispatched(last: map<AlertKey, int>, queue: seq<Delivery>, rules: seq<Rule>, o: Occurrence, clock: seq<int>)
      : (r: (map<AlertKey, int>, seq<Delivery>))
    requires |clock| == |rules|
  {
    if rules == [] then (last, queue)
    else
      var n := |rules| - 1;
      var (l, q) := Dispatched(last, queue, rules[..n], o, clock[..n]);
      if !rules[n].Matches(o.eventType, o.severity, o.namespace, o.policy) then (l, q)
      else
        var (l', _, queued) := Attempted(l, |q|, rules[n], o.id, clock[n]);
        (l', if queued then q + [(rules[n].webhookURL, o.id)] else q)
  }

  /** The rule asks for other occurrences than this one. */
  ghost predicate Passes(rule: Rule, o: Occurrence) {
    || (forall t :: t in rule.eventTypes ==> t != o.eventType)
    || (forall x :: x in rule.severities ==> x != o.severity)
    || (rule.namespaces != [] && forall n :: n in rule.namespaces ==> n != o.namespace)
    || (rule.policies != [] && forall p :: p in rule.policies ==> p != o.policy)
  }

  /** The rule alerts: it asks for the occurrence, and has not alerted about its identity
      for a cooldown. */
  ghost predicate Due(last: map<AlertKey, int>, rule: Rule, o: Occurrence, now: int) {
    && !Passes(rule, o)
    && (AlertKey(rule.id, o.id) in last ==> now - last[AlertKey(rule.id, o.id)] >= rule.cooldownMin * 60 * SECOND || rule.cooldownMin <= 0)
  }

  /** The positions of the rules that are due, in order. */
  ghost function DueRules(last: map<AlertKey, int>, rules: seq<Rule>, o: Occurrence, clock: seq<int>): (due: seq<nat>)
    requires |clock| == |rules|
    ensures forall k :: 0 <= k < |due| ==> due[k] < |rules|
  {
    if rules == [] then []
    else
      var n := |rules| - 1;
      var due := DueRules(last, rules[..n], o, clock[..n]);
      if Due(last, rules[n], o, clock[n]) then due + [n] else due
  }

  /** A cooldown after dispatching: that of a due rule is its decision's instant when the
      alert found room in the queue, and gone when it did not; all others stand. */
  ghost predicate CooldownSet(before: map<AlertKey, int>, after: map<AlertKey, int>, rules: seq<Rule>, o: Occurrence, clock: seq<int>,
                              room: nat, key: AlertKey)
    requires |clock| == |rules|
  {
    var due := DueRules(before, rules, o, clock);
    && (forall k :: 0 <= k < |due| && AlertKey(rules[due[k]].id, o.id) == key ==>
          if k < room then key in after && after[key] == clock[due[k]] else key !in after)
    && ((forall k :: 0 <= k < |due| ==> AlertKey(rules[due[k]].id, o.id) != key) ==>
          (key in after <==> key in before) && (key in before ==> after[key] == before[key]))
  }

  /** The alerts of the first due rules, as far as there is room, follow in the queue. */
  ghost predicate QueuedDue(before: seq<Delivery>, after: seq<Delivery>, rules: seq<Rule>, due: seq<nat>, room: nat, id: Identity)
    requires forall k :: 0 <= k < |due| ==> due[k] < |rules|
  {
    var n := if |due| <= room then |due| else room;
    && |after| == |before| + n && before <= after
    && forall k :: 0 <= k < n ==> after[|before| + k] == (rules[due[k]].webhookURL, id)
  }

  function Room(queue: seq<Delivery>): nat { if |queue| < 256 then 256 - |queue| else 0 }

  lemma DueIsLetThrough(last: map<AlertKey, int>, l: map<AlertKey, int>, rule: Rule, o: Occurrence, now: int)
    requires var key := AlertKey(rule.id, o.id); (key in l <==> key in last) && (key in last ==> l[key] == last[key])
    ensures Due(last, rule, o, now)
       <==> && rule.Matches(o.eventType, o.severity, o.namespace, o.policy)
            && !WithinCooldown(l, AlertKey(rule.id, o.id), rule.cooldownMin, now)
  {
  }

  lemma DueStep(last: map<AlertKey, int>, rules: seq<Rule>, o: Occurrence, clock: seq<int>)
    requires |clock| == |rules| && rules != []
    ensures var n := |rules| - 1;
            DueRules(last, rules, o, clock)
              == DueRules(last, rules[..n], o, clock[..n]) + if Due(last, rules[n], o, clock[n]) then [n] else []
  {
  }

  lemma CooldownStep(last: map<AlertKey, int>, l: map<AlertKey, int>, l': map<AlertKey, int>, rules: seq<Rule>, o: Occurrence,
                     clock: seq<int>, room: nat, key: AlertKey)
    requires |clock| == |rules| && rules != [] && ValidRules(rules)
    requires var n := |rules| - 1;
             && CooldownSet(last, l, rules[..n], o, clock[..n], room, key)
             && var own, due := AlertKey(rules[n].id, o.id), DueRules(last, rules[..n], o, clock[..n]);
                l' == if !Due(last, rules[n], o, clock[n]) then l else if |due| < room then l[own := clock[n]] else l - {own}
    ensures CooldownSet(last, l', rules, o, clock, room, key)
  {
    DueStep(last, rules, o, clock);
    var n := |rules| - 1;
    var due, before := DueRules(last, rules, o, clock), DueRules(last, rules[..n], o, clock[..n]);
    forall k | 0 <= k < |before| ensures due[k] == before[k] && rules[due[k]].id != rules[n].id {
      assert rules[..n][before[k]] == rules[due[k]];
    }
    if Due(last, rules[n], o, clock[n]) { assert due[|before|] == n; }
  }

  /** Dispatching queues the alerts of the due rules in order, to their webhooks and about
      the occurrence's identity, until the queue holds 256; and sets their cooldowns and
      no other's. */
  lemma {:induction false} DispatchedExactly(last: map<AlertKey, int>, queue: seq<Delivery>, rules: seq<Rule>, o: Occurrence, clock: seq<int>)
    requires |clock| == |rules| && ValidRules(rules)
    ensures var (l, q) := Dispatched(last, queue, rules, o, clock);
            && QueuedDue(queue, q, rules, DueRules(last, rules, o, clock), Room(queue), o.id)
            && forall key :: CooldownSet(last, l, rules, o, clock, Room(queue), key)
  {
    if rules != [] {
      var n := |rules| - 1;
      var (l, q) := Dispatched(last, queue, rules[..n], o, clock[..n]);
      DispatchedExactly(last, queue, rules[..n], o, clock[..n]);
      KeyUntouched(last, l, rules, o, clock, Room(queue));
      DueIsLetThrough(last, l, rules[n], o, clock[n]);
      DueStep(last, rules, o, clock);
      var l' := Dispatched(last, queue, rules, o, clock).0;
      forall key ensures CooldownSet(last, l', rules, o, clock, Room(queue), key) {
        CooldownStep(last, l, l', rules, o, clock, Room(queue), key);
      }
    }
  }

  /** No earlier rule has the key of the last. */
  lemma KeyUntouched(last: map<AlertKey, int>, l: map<AlertKey, int>, rules: seq<Rule>, o: Occurrence, clock: seq<int>, room: nat)
    requires |clock| == |rules| && rules != [] && ValidRules(rules)
    requires var n := |rules| - 1; CooldownSet(last, l, rules[..n], o, clock[..n], room, AlertKey(rules[n].id, o.id))
    ensures var key := AlertKey(rules[|rules| - 1].id, o.id); (key in l <==> key in last) && (key in last ==> l[key] == last[key])
  {
  }

  class Dispatcher {
    var last: map<AlertKey, int>
    var queue: seq<Delivery>

    constructor ()
      ensures last == map[] && queue == []
    {
      last, queue := map[], [];
    }

    /** Hands a delivery to the sender unless the queue is full. */
    method TryQueue(url: string, id: Identity) returns (ok: bool)
      modifies `queue
      ensures ok == (old(|queue|) < QUEUE_SIZE)
      ensures queue == if ok then old(queue) + [(url, id)] else old(queue)
    {
      ok := |queue| < QUEUE_SIZE;
      if ok { queue := queue + [(url, id)]; }
    }

    /** dispatch and dispatchAdmission; `clock` is what each turn of the loop reads. */
    method Dispatch(rules: seq<Rule>, o: Occurrence, clock: seq<int>)
      requires |clock| == |rules|
      modifies this
      ensures (last, queue) == Dispatched(old(last), old(queue), rules, o, clock)
    {
      for i := 0 to |rules|
        invariant (last, queue) == Dispatched(old(last), old(queue), rules[..i], o, clock[..i])
      {
        assert rules[..i + 1][..i] == rules[..i] && clock[..i + 1][..i] == clock[..i];
        var rule := rules[i];
        if !rule.Matches(o.eventType, o.severity, o.namespace, o.policy) { continue; }
        var key := AlertKey(rule.id, o.id);
        if WithinCooldown(last, key, rule.cooldownMin, clock[i]) { continue; }
        ghost var before := last;
        last := last[key := clock[i]];
        var ok := TryQueue(rule.webhookURL, o.id);
        if !ok {
          last := last - {key};
          assert last == before - {key};
        }
      }
      assert rules[..|rules|] == rules && clock[..|clock|] == clock;
    }

    method PurgeCooldowns(rules: seq<Rule>, now: int)
      modifies `last
      ensures last == Purged(old(last), rules, now)
    {
      var max := 0;
      for i := 0 to |rules|
        invariant max == MaxCooldown(rules[..i])
      {
        assert rules[..i + 1][..i] == rules[..i];
        if rules[i].cooldownMin > max { max := rules[i].cooldownMin; }
      }
      assert rules[..|rules|] == rules;
      var keys := last.Keys;
      while keys != {}
        invariant keys <= last.Keys <= old(last).Keys
        invariant forall k :: k in last ==> last[k] == old(last)[k]
        invariant forall k :: k in old(last) && k !in keys ==>
                    (k in last <==> now - old(last)[k] <= (max + 1) * MINUTE)
        invariant forall k :: k in keys ==> k in last
        decreases keys
      {
        var k :| k in keys;
        keys := keys - {k};
        if now - last[k] > (max + 1) * MINUTE { last := last - {k}; }
      }
    }
  }
}
