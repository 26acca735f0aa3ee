/** Webhook delivery (internal/alert/dispatcher.go, deliver and parseRetryAfter): one
    sender posts queued alerts one at a time, paces each destination, and retries a
    bounded number of times for a bounded time. The network, the clock and the
    context are inputs. */
module Delivery {
  import opened Wrappers
  import opened Text
  import opened Clock

  const MAX_RETRIES := 3
  const MIN_SEND_INTERVAL := SECOND
  const BASE_BACKOFF := SECOND
  const MAX_RETRY_WAIT := 30 * SECOND

  /** A Retry-After header as time to wait: seconds, or the time until an HTTP date
      (`date` is the instant the header parses to, if it is one). */
  function ParseRetryAfter(header: string, date: Option<int>, now: int): (wait: int)
    ensures wait >= 0
  {
    var h := Trim(header, GoSpace);
    if h == "" then 0
    else
      match ParseInt64(h)
      case Some(secs) =>
        if secs >= 0 then (if secs > MAX_RETRY_WAIT / SECOND then MAX_RETRY_WAIT + SECOND else secs * SECOND)
        else UntilDate(date, now)
      case None => UntilDate(date, now)
  }

  function UntilDate(date: Option<int>, now: int): (wait: int)
    ensures wait >= 0
  {
    match date case Some(t) => if t > now then t - now else 0 case None => 0
  }

  /** Seconds never overflow, and a number of them is over the cap exactly when it is
      above thirty. */
  lemma RetryAfterSecondsExactly(h: string, n: nat, date: Option<int>, now: int)
    requires ParseInt64(Trim(h, GoSpace)) == Some(n)
    ensures n <= 30 ==> ParseRetryAfter(h, date, now) == n * SECOND
    ensures n > 30 ==> 30 * SECOND < ParseRetryAfter(h, date, now) <= MAX_INT64
  {
  }

  /** A number that does not fit in 64 bits is read as no header at all. */
  lemma RetryAfterTooLong(h: string, now: int)
    requires AllDigits(Trim(h, GoSpace)) && Value(Trim(h, GoSpace)) > MAX_INT64
    ensures ParseRetryAfter(h, None, now) == 0
  {
    var t := Trim(h, GoSpace);
    assert IsDigit(t[0]);
  }

  /** Anything that is not a number of seconds is a date or nothing: the wait is the time
      left until the date, and none when it has passed or cannot be read. */
  lemma RetryAfterDateExactly(h: string, date: Option<int>, now: int)
    requires ParseInt64(Trim(h, GoSpace)).None? || ParseInt64(Trim(h, GoSpace)).value < 0
    ensures ParseRetryAfter(h, date, now) > 0 <==> Trim(h, GoSpace) != "" && date.Some? && date.value > now
    ensures ParseRetryAfter(h, date, now) > 0 ==> now + ParseRetryAfter(h, date, now) == date.value
  {
  }

  // ------------------------------------------------------------------ one delivery

  datatype Reply = Broken | Status(code: int, retryAfter: string, date: Option<int>)

  /** The k-th POST takes `took`; a wait after it lasts `late` longer than asked for,
      unless the context ends during it. */
  datatype Attempt = Attempt(took: nat, reply: Reply, canceled: bool, late: nat)

  /** What the world answers during one delivery. */
  datatype World = World(pacingCanceled: bool, pacingLate: nat, attempts: nat -> Attempt)

  /** When each POST began, the waits asked for between them, when the delivery ended,
      and whether the context cut it short. */
  datatype Log = Log(posts: seq<int>, waits: seq<int>, end: int, canceled: bool)

  predicate Retryable(reply: Reply) {
    reply.Status? && (reply.code == 429 || reply.code >= 500)
  }

  /** The wait before POST k + 1, or nothing when k was the last. */
  function NextWait(a: Attempt, k: nat, answered: int): (wait: Option<int>) {
    if !Retryable(a.reply) || k >= MAX_RETRIES then None
    else
      var asked := ParseRetryAfter(a.reply.retryAfter, a.reply.date, answered);
      if asked > MAX_RETRY_WAIT then None
      else if asked <= 0 then Some((k + 1) * BASE_BACKOFF)
      else Some(asked)
  }

  lemma NextWaitBounded(a: Attempt, k: nat, answered: int)
    requires NextWait(a, k, answered).Some?
    ensures Retryable(a.reply) && k < MAX_RETRIES && 0 < NextWait(a, k, answered).value <= MAX_RETRY_WAIT
  {
  }

  /** For POST k answered at instant t, the wait before the next, if there is to be one. */
  type Plan = (nat, int) -> Option<int>

  function PlanOf(w: World): Plan {
    (k: nat, answered: int) => NextWait(w.attempts(k), k, answered)
  }

  /** A plan stops in time and asks for bounded waits. */
  ghost predicate Bounded(plan: Plan) {
    forall k: nat, t: int :: plan(k, t).Some? ==> k < MAX_RETRIES && 0 < plan(k, t).value <= MAX_RETRY_WAIT
  }

  lemma PlanBounded(w: World)
    ensures Bounded(PlanOf(w))
  {
    forall k: nat, t: int | PlanOf(w)(k, t).Some? ensures k < MAX_RETRIES && 0 < PlanOf(w)(k, t).value <= MAX_RETRY_WAIT {
      NextWaitBounded(w.attempts(k), k, t);
    }
  }

  /** The rest of a delivery with `left` retries left. */
  function PostsFrom(w: World, plan: Plan, left: nat, now: int): (log: Log)
    requires left <= MAX_RETRIES
  {
    var a := w.attempts(MAX_RETRIES - left);
    var answered := now + a.took;
    match plan(MAX_RETRIES - left, answered)
    case None => Log([now], [], answered, false)
    case Some(wait) =>
      if a.canceled || left == 0 then Log([now], [wait], answered, true)
      else Prepend(now, wait, PostsFrom(w, plan, left - 1, answered + wait + a.late))
  }

  function Prepend(now: int, wait: int, rest: Log): Log {
    Log([now] + rest.posts, [wait] + rest.waits, rest.end, rest.canceled)
  }

  /** A destination that was used lately is waited for first. */
  function DeliveredBy(w: World, plan: Plan, next: Option<int>, now: int): (log: Log) {
    if next.Some? && next.value > now then
      if w.pacingCanceled then Log([], [], now, true)
      else PostsFrom(w, plan, MAX_RETRIES, next.value + w.pacingLate)
    else PostsFrom(w, plan, MAX_RETRIES, now)
  }

  function Delivered(w: World, next: Option<int>, now: int): (log: Log) {
    DeliveredBy(w, PlanOf(w), next, now)
  }

  function Total(waits: seq<int>): int {
    if waits == [] then 0 else waits[0] + Total(waits[1..])
  }

  /** The bounds on the rest of a delivery. */
  ghost predicate Bounds(log: Log, left: nat, now: int) {
    && 1 <= |log.posts| <= left + 1
    && |log.waits| == |log.posts| - (if log.canceled then 0 else 1)
    && |log.waits| <= left
    && log.posts[0] == now <= log.end
    && forall wait :: wait in log.waits ==> 0 < wait <= MAX_RETRY_WAIT
  }

  lemma PrependBounds(now: int, wait: int, rest: Log, left: nat, later: int)
    requires Bounds(rest, left, later) && 0 < wait <= MAX_RETRY_WAIT && now <= later
    ensures Bounds(Prepend(now, wait, rest), left + 1, now)
  {
  }

  lemma {:induction false} PostsFromBounded(w: World, plan: Plan, left: nat, now: int)
    requires left <= MAX_RETRIES && Bounded(plan)
    ensures Bounds(PostsFrom(w, plan, left, now), left, now)
  {
    var a := w.attempts(MAX_RETRIES - left);
    var answered := now + a.took;
    if plan(MAX_RETRIES - left, answered).Some? && !a.canceled {
      var wait := plan(MAX_RETRIES - left, answered).value;
      PostsFromBounded(w, plan, left - 1, answered + wait + a.late);
      PrependBounds(now, wait, PostsFrom(w, plan, left - 1, answered + wait + a.late), left - 1, answered + wait + a.late);
    }
  }

  lemma {:induction false} TotalBounded(waits: seq<int>, n: nat)
    requires |waits| <= n && forall wait :: wait in waits ==> 0 < wait <= MAX_RETRY_WAIT
    ensures 0 <= Total(waits) <= n * MAX_RETRY_WAIT
  {
    if waits != [] {
      assert waits[0] in waits && forall x :: x in waits[1..] ==> x in waits;
      TotalBounded(waits[1..], n - 1);
    }
  }

  /** Retry i of a log whose first POST is number k: the wait before it is what the plan
      says for the answer, and the retry comes right after it. */
  ghost predicate RetryPlanned(w: World, plan: Plan, log: Log, k: nat, i: nat)
    requires i + 1 < |log.posts|
  {
    var a := w.attempts(k + i);
    var answered := log.posts[i] + a.took;
    && !a.canceled
    && i < |log.waits| && plan(k + i, answered) == Some(log.waits[i])
    && log.posts[i + 1] == answered + log.waits[i] + a.late
  }

  /** The last POST: no wait is planned after it, or the context ends during the wait. */
  ghost predicate LastPlanned(w: World, plan: Plan, log: Log, k: nat)
    requires |log.posts| >= 1
  {
    var n := |log.posts| - 1;
    var a := w.attempts(k + n);
    && log.end == log.posts[n] + a.took
    && match plan(k + n, log.end)
       case None => !log.canceled && |log.waits| == n
       case Some(wait) => log.canceled && a.canceled && |log.waits| == n + 1 && log.waits[n] == wait
  }

  ghost predicate Planned(w: World, plan: Plan, log: Log, k: nat) {
    && |log.posts| >= 1
    && (forall i :: 0 <= i < |log.posts| - 1 ==> RetryPlanned(w, plan, log, k, i))
    && LastPlanned(w, plan, log, k)
  }

  lemma PrependPlanned(w: World, plan: Plan, k: nat, now: int, wait: int, rest: Log)
    requires Planned(w, plan, rest, k + 1) && plan(k, now + w.attempts(k).took) == Some(wait) && !w.attempts(k).canceled
    requires rest.posts[0] == now + w.attempts(k).took + wait + w.attempts(k).late
    ensures Planned(w, plan, Prepend(now, wait, rest), k)
  {
    var log := Prepend(now, wait, rest);
    forall i | 0 <= i < |log.posts| - 1 ensures RetryPlanned(w, plan, log, k, i) {
      if i > 0 {
        assert RetryPlanned(w, plan, rest, k + 1, i - 1);
        assert k + i == k + 1 + (i - 1);
      }
    }
    assert log.posts[|log.posts| - 1] == rest.posts[|rest.posts| - 1];
    assert k + (|log.posts| - 1) == k + 1 + (|rest.posts| - 1);
  }

  lemma OnePostPlanned(w: World, plan: Plan, k: nat, now: int)
    requires var a := w.attempts(k); plan(k, now + a.took).None? || a.canceled
    ensures var answered := now + w.attempts(k).took;
            Planned(w, plan, match plan(k, answered)
                             case None => Log([now], [], answered, false)
                             case Some(wait) => Log([now], [wait], answered, true), k)
  {
    assert k + 0 == k;
  }

  lemma {:induction false} PostsFromPlanned(w: World, plan: Plan, left: nat, now: int)
    requires left <= MAX_RETRIES && Bounded(plan)
    ensures Planned(w, plan, PostsFrom(w, plan, left, now), MAX_RETRIES - left)
  {
    var k: nat := MAX_RETRIES - left;
    var a := w.attempts(k);
    var answered := now + a.took;
    if plan(k, answered).None? || a.canceled {
      OnePostPlanned(w, plan, k, now);
    } else {
      var later := answered + plan(k, answered).value + a.late;
      PostsFromPlanned(w, plan, left - 1, later);
      PostsFromBounded(w, plan, left - 1, later);
      PrependPlanned(w, plan, k, now, plan(k, answered).value, PostsFrom(w, plan, left - 1, later));
    }
  }

  /** The answer to POST i, at this instant, makes for another one: a 429 or 5xx to one of
      the first three, that asks for no more than thirty seconds. */
  ghost predicate RetryDue(w: World, i: nat, answered: int) {
    var reply := w.attempts(i).reply;
    && reply.Status? && (reply.code == 429 || reply.code >= 500)
    && i < 3
    && ParseRetryAfter(reply.retryAfter, reply.date, answered) <= 30 * SECOND
  }

  /** The wait before a retry: what the answer asks for, else as many seconds as there
      were POSTs so far. */
  ghost predicate IsDueWait(w: World, i: nat, answered: int, wait: int) {
    var reply := w.attempts(i).reply;
    var asked := if reply.Status? then ParseRetryAfter(reply.retryAfter, reply.date, answered) else 0;
    wait == if asked > 0 then asked else (i + 1) * SECOND
  }

  /** A delivery POST by POST: a retry follows each answer that makes for one, after the
      wait due, and the delivery ends at the first that does not or where the context
      cuts the wait short. */
  ghost predicate RetriesJustified(w: World, log: Log) {
    && |log.posts| >= 1
    && (forall i :: 0 <= i < |log.posts| - 1 ==> RetryJustified(w, log, i))
    && var n := |log.posts| - 1;
       && log.end == log.posts[n] + w.attempts(n).took
       && (log.canceled <==> RetryDue(w, n, log.end))
       && (log.canceled ==> w.attempts(n).canceled)
  }

  ghost predicate RetryJustified(w: World, log: Log, i: nat)
    requires i + 1 < |log.posts|
  {
    var answered := log.posts[i] + w.attempts(i).took;
    && RetryDue(w, i, answered) && !w.attempts(i).canceled
    && i < |log.waits| && IsDueWait(w, i, answered, log.waits[i])
    && log.posts[i + 1] == answered + log.waits[i] + w.attempts(i).late
  }

  lemma PlanIsDue(w: World, i: nat, answered: int)
    ensures PlanOf(w)(i, answered).Some? <==> RetryDue(w, i, answered)
    ensures PlanOf(w)(i, answered).Some? ==> IsDueWait(w, i, answered, PlanOf(w)(i, answered).value)
  {
  }

  lemma RetryIsJustified(w: World, log: Log, i: nat)
    requires i + 1 < |log.posts| && RetryPlanned(w, PlanOf(w), log, 0, i)
    ensures RetryJustified(w, log, i)
  {
    assert 0 + i == i;
    PlanIsDue(w, i, log.posts[i] + w.attempts(i).took);
  }

  lemma PlannedIsJustified(w: World, log: Log)
    requires Planned(w, PlanOf(w), log, 0)
    ensures RetriesJustified(w, log)
  {
    forall i | 0 <= i < |log.posts| - 1 ensures RetryJustified(w, log, i) {
      RetryIsJustified(w, log, i);
    }
    var n := |log.posts| - 1;
    assert 0 + n == n;
    PlanIsDue(w, n, log.end);
  }

  /** Every delivery ends after at most four POSTs and ninety seconds of retry waits, each
      retry due by the answer before it and after exactly the wait due. It starts at once,
      or when its destination may be used, or not at all when the context ends first. */
  lemma DeliveryBounded(w: World, next: Option<int>, now: int)
    ensures var log := Delivered(w, next, now);
            && |log.posts| <= 4 && |log.waits| <= 3 && Total(log.waits) <= 90 * SECOND
            && now <= log.end
            && (log.posts == [] <==> next.Some? && next.value > now && w.pacingCanceled)
            && (log.posts == [] ==> log.canceled)
            && (log.posts != [] ==>
                  && RetriesJustified(w, log)
                  && log.posts[0] == if next.Some? && next.value > now then next.value + w.pacingLate else now)
  {
    FromStart(w, if next.Some? && next.value > now then next.value + w.pacingLate else now);
  }

  lemma FromStart(w: World, start: int)
    ensures var log := PostsFrom(w, PlanOf(w), MAX_RETRIES, start);
            && Bounds(log, 3, start) && Total(log.waits) <= 90 * SECOND && RetriesJustified(w, log)
  {
    var log := PostsFrom(w, PlanOf(w), MAX_RETRIES, start);
    PlanBounded(w);
    PostsFromBounded(w, PlanOf(w), MAX_RETRIES, start);
    PostsFromPlanned(w, PlanOf(w), MAX_RETRIES, start);
    PlannedIsJustified(w, log);
    TotalBounded(log.waits, 3);
  }

  // ----------------------------------------------------------- one after the other

  /** One queued alert, taken from the queue `idle` after the previous delivery ended. */
  datatype Job = Job(url: string, world: World, idle: nat)

  function Next(nextSend: map<string, int>, url: string): Option<int> {
    if url in nextSend then Some(nextSend[url]) else None
  }

  function Paced(nextSend: map<string, int>, url: string, log: Log): map<string, int> {
    if log.canceled then nextSend else nextSend[url := log.end + MIN_SEND_INTERVAL]
  }

  /** How one job is delivered, given when its destination may next be used and the time. */
  type Courier = (Job, Option<int>, int) -> Log

  function Deliver(job: Job, next: Option<int>, now: int): Log { Delivered(job.world, next, now) }

  /** The deliveries of a list of jobs, and the pacing table they leave. */
  function Deliveries(courier: Courier, jobs: seq<Job>, now: int): (r: (seq<Log>, map<string, int>))
    ensures |r.0| == |jobs|
  {
    if jobs == [] then ([], map[])
    else
      var (logs, table) := Deliveries(courier, jobs[..|jobs| - 1], now);
      var job := jobs[|jobs| - 1];
      var at := (if logs == [] then now else logs[|logs| - 1].end) + job.idle;
      var log := courier(job, Next(table, job.url), at);
      (logs + [log], Paced(table, job.url, log))
  }

  /** Never ends before it starts, nor posts before its destination may be used. */
  ghost predicate Patient(courier: Courier) {
    forall job, next, at :: var log := courier(job, next, at);
      at <= log.end && (log.posts != [] && next.Some? ==> log.posts[0] >= next.value)
  }

  lemma DeliverIsPatient()
    ensures Patient(Deliver)
  {
    forall job: Job, next: Option<int>, at: int
      ensures var log := Deliver(job, next, at);
              at <= log.end && (log.posts != [] && next.Some? ==> log.posts[0] >= next.value)
    {
      DeliveryBounded(job.world, next, at);
    }
  }

  ghost predicate PacingInv(jobs: seq<Job>, logs: seq<Log>, table: map<string, int>)
    requires |logs| == |jobs|
  {
    && (forall i, j :: 0 <= i <= j < |logs| ==> logs[i].end <= logs[j].end)
    && forall i :: 0 <= i < |logs| && !logs[i].canceled ==>
         jobs[i].url in table && table[jobs[i].url] >= logs[i].end + MIN_SEND_INTERVAL
  }

  lemma {:induction false} DeliveriesPaced(courier: Courier, jobs: seq<Job>, now: int)
    requires Patient(courier)
    ensures var (logs, table) := Deliveries(courier, jobs, now); PacingInv(jobs, logs, table)
  {
    if jobs != [] {
      DeliveriesPaced(courier, jobs[..|jobs| - 1], now);
    }
  }

  lemma {:induction false} CourierSpaced(courier: Courier, jobs: seq<Job>, now: int, i: nat, j: nat)
    requires Patient(courier) && i < j < |jobs| && jobs[i].url == jobs[j].url
    ensures var logs := Deliveries(courier, jobs, now).0;
            !logs[i].canceled && logs[j].posts != [] ==> logs[j].posts[0] >= logs[i].end + MIN_SEND_INTERVAL
  {
    var init := jobs[..|jobs| - 1];
    if j < |init| {
      CourierSpaced(courier, init, now, i, j);
    } else {
      DeliveriesPaced(courier, init, now);
    }
  }

  /** However the deliveries to other destinations fall between, the first POST of a
      delivery comes at least the send interval after any earlier delivery to the same
      destination ended, unless that one was cut short by cancellation. */
  lemma SameDestinationSpaced(jobs: seq<Job>, now: int, i: nat, j: nat)
    requires i < j < |jobs| && jobs[i].url == jobs[j].url
    ensures var logs := Deliveries(Deliver, jobs, now).0;
            !logs[i].canceled && logs[j].posts != [] ==> logs[j].posts[0] >= logs[i].end + 1 * SECOND
  {
    DeliverIsPatient();
    CourierSpaced(Deliver, jobs, now, i, j);
  }

  /** A destination is booked exactly when a delivery to it ran its course, for a second
      after the last such one ended. */
  ghost predicate Booked(jobs: seq<Job>, logs: seq<Log>, url: string, booked: Option<int>)
    requires |logs| == |jobs|
  {
    match booked
    case None => forall i :: 0 <= i < |jobs| && jobs[i].url == url ==> logs[i].canceled
    case Some(t) =>
      exists i :: 0 <= i < |jobs| && jobs[i].url == url && !logs[i].canceled && t == logs[i].end + 1 * SECOND
        && forall j :: i < j < |jobs| && jobs[j].url == url ==> logs[j].canceled
  }

  lemma BookedStep(jobs: seq<Job>, logs: seq<Log>, job: Job, log: Log, url: string, booked: Option<int>)
    requires |logs| == |jobs| && Booked(jobs, logs, url, booked)
    ensures Booked(jobs + [job], logs + [log], url, if job.url == url && !log.canceled then Some(log.end + 1 * SECOND) else booked)
  {
    var jobs', logs' := jobs + [job], logs + [log];
    if job.url == url && !log.canceled {
      assert jobs'[|jobs|] == job && logs'[|jobs|] == log;
    } else if booked.Some? {
      var i :| 0 <= i < |jobs| && jobs[i].url == url && !logs[i].canceled && booked.value == logs[i].end + 1 * SECOND
        && forall j :: i < j < |jobs| && jobs[j].url == url ==> logs[j].canceled;
      assert jobs'[i] == jobs[i] && logs'[i] == logs[i];
    }
  }

  /** Deliveries cut short book nothing. */
  lemma {:induction false} BookedExactly(courier: Courier, jobs: seq<Job>, now: int, url: string)
    ensures var (logs, table) := Deliveries(courier, jobs, now); Booked(jobs, logs, url, Next(table, url))
  {
    if jobs != [] {
      var init, job := jobs[..|jobs| - 1], jobs[|jobs| - 1];
      BookedExactly(courier, init, now, url);
      var (logs, table) := Deliveries(courier, jobs, now);
      assert jobs == init + [job];
      BookedStep(init, Deliveries(courier, init, now).0, job, logs[|logs| - 1], url, Next(Deliveries(courier, init, now).1, url));
    }
  }

  ghost function Resumed(posts: seq<int>, waits: seq<int>, rest: Log): Log {
    Log(posts + rest.posts, waits + rest.waits, rest.end, rest.canceled)
  }

  /** The last turn of the retry loop: no wait is asked for, or the context ends in it. */
  lemma ResumedEnd(posts: seq<int>, waits: seq<int>, w: World, plan: Plan, left: nat, now: int)
    requires left <= MAX_RETRIES
    ensures var a := w.attempts(MAX_RETRIES - left);
            var wait := plan(MAX_RETRIES - left, now + a.took);
            && (wait.None? ==> Resumed(posts, waits, PostsFrom(w, plan, left, now)) == Log(posts + [now], waits, now + a.took, false))
            && (wait.Some? && a.canceled ==>
                  Resumed(posts, waits, PostsFrom(w, plan, left, now)) == Log(posts + [now], waits + [wait.value], now + a.took, true))
  {
  }

  /** Any other turn. */
  lemma ResumedOn(posts: seq<int>, waits: seq<int>, w: World, plan: Plan, left: nat, now: int, wait: int, later: int)
    requires 0 < left <= MAX_RETRIES && !w.attempts(MAX_RETRIES - left).canceled
    requires plan(MAX_RETRIES - left, now + w.attempts(MAX_RETRIES - left).took) == Some(wait)
    requires later == now + w.attempts(MAX_RETRIES - left).took + wait + w.attempts(MAX_RETRIES - left).late
    ensures Resumed(posts, waits, PostsFrom(w, plan, left, now)) == Resumed(posts + [now], waits + [wait], PostsFrom(w, plan, left - 1, later))
  {
    var rest := PostsFrom(w, plan, left - 1, later);
    assert posts + ([now] + rest.posts) == posts + [now] + rest.posts;
    assert waits + ([wait] + rest.waits) == waits + [wait] + rest.waits;
  }

  class Sender {
    var nextSend: map<string, int>

    constructor ()
      ensures nextSend == map[]
    {
      nextSend := map[];
    }

    /** The retry loop with so many retries left, for any plan that stops in time. */
    static method Post(w: World, plan: Plan, retries: nat, start: int) returns (log: Log)
      requires forall t :: plan(MAX_RETRIES, t).None?
      requires retries <= MAX_RETRIES
      ensures log == PostsFrom(w, plan, retries, start)
    {
      var now, left: nat := start, retries;
      var posts: seq<int>, waits: seq<int> := [], [];
      ghost var whole := PostsFrom(w, plan, retries, start);
      assert Resumed([], [], whole) == whole;
      while true
        invariant 0 <= left <= MAX_RETRIES
        invariant Resumed(posts, waits, PostsFrom(w, plan, left, now)) == whole
        decreases left
      {
        var a := w.attempts(MAX_RETRIES - left);
        var wait := plan(MAX_RETRIES - left, now + a.took);
        if wait.None? {
          ResumedEnd(posts, waits, w, plan, left, now);
          return Log(posts + [now], waits, now + a.took, false);
        }
        if a.canceled {
          ResumedEnd(posts, waits, w, plan, left, now);
          return Log(posts + [now], waits + [wait.value], now + a.took, true);
        }
        var later := now + a.took + wait.value + a.late;
        ResumedOn(posts, waits, w, plan, left, now, wait.value, later);
        posts, waits, now, left := posts + [now], waits + [wait.value], later, left - 1;
      }
    }

    /** Waits for the destination's turn, posts, and books its next turn. */
    method DeliverBy(url: string, w: World, plan: Plan, start: int) returns (log: Log)
      requires Bounded(plan)
      modifies this
      ensures log == DeliveredBy(w, plan, Next(old(nextSend), url), start)
      ensures nextSend == Paced(old(nextSend), url, log)
    {
      var now := start;
      if url in nextSend && nextSend[url] > now {
        if w.pacingCanceled { return Log([], [], now, true); }
        now := nextSend[url] + w.pacingLate;
      }
      log := Post(w, plan, MAX_RETRIES, now);
      if !log.canceled { nextSend := nextSend[url := log.end + MIN_SEND_INTERVAL]; }
    }

    /** deliver, with the waits the answers ask for. */
    method Deliver(url: string, w: World, start: int) returns (log: Log)
      modifies this
      ensures log == Delivered(w, Next(old(nextSend), url), start)
      ensures nextSend == Paced(old(nextSend), url, log)
    {
      PlanBounded(w);
      log := DeliverBy(url, w, PlanOf(w), start);
    }
  }
}
