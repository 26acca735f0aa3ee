/** How both event stores write their file (internal/security/store.go and
    internal/admission/store.go): every change starts a goroutine that writes the
    snapshot of its generation to one shared temporary file and, under a lock, renames
    that file into place unless a newer generation has started. The goroutines run
    concurrently; a state machine over their steps covers every interleaving.
    Snapshots are named by their generation. */
module FlushProtocol {
  import opened Wrappers

  datatype Phase = Pending | Written | Checked | Done

  /** `file` is the generation the target file holds, 0 before any rename. `renames`
      lists the generations that got as far as renaming, in order. */
  datatype State = State(gen: nat, phase: map<nat, Phase>, tmp: Option<nat>, file: nat,
                         lock: Option<nat>, renames: seq<nat>)

  datatype Step =
    | Start
    | Write(g: nat)
    | WriteFails(g: nat)
    | Check(g: nat)
    | Rename(g: nat)
    | RenameFails(g: nat)

  const INITIAL := State(0, map[], None, 0, None, [])

  predicate Enabled(st: State, s: Step) {
    match s
    case Start => true
    case Write(g) => g in st.phase && st.phase[g].Pending?
    case WriteFails(g) => g in st.phase && st.phase[g].Pending?
    case Check(g) => g in st.phase && st.phase[g].Written? && st.lock.None?
    case Rename(g) => g in st.phase && st.phase[g].Checked?
    case RenameFails(g) => g in st.phase && st.phase[g].Checked?
  }

  /** A stale goroutine releases the lock at once and leaves the temporary file alone;
      the lock is otherwise held from the check to the end of the rename. Renaming a
      temporary file that an earlier rename has moved away fails. */
  function Apply(st: State, s: Step): State
    requires Enabled(st, s)
  {
    match s
    case Start => st.(gen := st.gen + 1, phase := st.phase[st.gen + 1 := Pending])
    case Write(g) => st.(phase := st.phase[g := Written], tmp := Some(g))
    case WriteFails(g) => st.(phase := st.phase[g := Done])
    case Check(g) =>
      if st.gen != g then st.(phase := st.phase[g := Done])
      else st.(phase := st.phase[g := Checked], lock := Some(g))
    case Rename(g) =>
      var moved := if st.tmp.Some? then st.(file := st.tmp.value, tmp := None) else st;
      moved.(phase := st.phase[g := Done], lock := None, renames := st.renames + [g])
    case RenameFails(g) =>
      st.(phase := st.phase[g := Done], lock := None, renames := st.renames + [g])
  }

  predicate Legal(trace: seq<Step>)
    decreases |trace|, 0
  {
    trace == [] || (Legal(trace[..|trace| - 1]) && Enabled(After(trace[..|trace| - 1]), trace[|trace| - 1]))
  }

  function After(trace: seq<Step>): State
    requires Legal(trace)
    decreases |trace|, 1
  {
    if trace == [] then INITIAL else Apply(After(trace[..|trace| - 1]), trace[|trace| - 1])
  }

  ghost predicate Quiescent(st: State) {
    forall g :: g in st.phase ==> st.phase[g].Done?
  }

  // ------------------------------------------------------------ renames in order

  ghost predicate Inv(st: State) {
    && (forall g :: g in st.phase <==> 1 <= g <= st.gen)
    && (forall g :: g in st.phase ==> (st.phase[g].Checked? <==> st.lock == Some(g)))
    && (st.lock.Some? ==> st.lock.value in st.phase)
    && (forall r :: r in st.renames ==> r in st.phase && st.phase[r].Done?)
    && (st.lock.Some? ==> forall r :: r in st.renames ==> r < st.lock.value)
    && (forall i, j :: 0 <= i < j < |st.renames| ==> st.renames[i] < st.renames[j])
    && (st.tmp.Some? ==> st.tmp.value in st.phase)
  }

  lemma CheckKeepsInv(st: State, g: nat)
    requires Inv(st) && Enabled(st, Check(g))
    ensures Inv(Apply(st, Check(g)))
  {
  }

  /** A goroutine that renames is newer than all that did, and leaves the lock. */
  lemma RenameKeepsInv(st: State, s: Step)
    requires Inv(st) && Enabled(st, s) && (s.Rename? || s.RenameFails?)
    ensures Inv(Apply(st, s))
  {
    assert forall i :: 0 <= i < |st.renames| ==> st.renames[i] in st.renames;
  }

  lemma ApplyKeepsInv(st: State, s: Step)
    requires Inv(st) && Enabled(st, s)
    ensures Inv(Apply(st, s))
  {
    match s
    case Check(g) => CheckKeepsInv(st, g);
    case Rename(_) => RenameKeepsInv(st, s);
    case RenameFails(_) => RenameKeepsInv(st, s);
    case _ =>
  }

  lemma {:induction false} LegalKeepsInv(trace: seq<Step>)
    requires Legal(trace)
    ensures Inv(After(trace))
  {
    if trace != [] {
      LegalKeepsInv(trace[..|trace| - 1]);
      ApplyKeepsInv(After(trace[..|trace| - 1]), trace[|trace| - 1]);
    }
  }

  /** In every interleaving, failures included, the generations that rename do so in
      strictly increasing order. */
  lemma RenamesIncrease(trace: seq<Step>, i: nat, j: nat)
    requires Legal(trace) && i < j < |After(trace).renames|
    ensures After(trace).renames[i] < After(trace).renames[j]
  {
    LegalKeepsInv(trace);
  }

  /** The newest generation is never found stale, and no goroutine waits for ever:
      short of quiescence some goroutine can take its next step. */
  lemma AlwaysProgress(trace: seq<Step>)
    requires Legal(trace)
    ensures var st := After(trace);
            && (Enabled(st, Check(st.gen)) ==> Apply(st, Check(st.gen)).phase[st.gen].Checked?)
            && (!Quiescent(st) ==> exists s: Step :: !s.Start? && Enabled(st, s))
  {
    LegalKeepsInv(trace);
    var st := After(trace);
    if !Quiescent(st) {
      var g :| g in st.phase && !st.phase[g].Done?;
      if st.lock.Some? {
        assert Enabled(st, Rename(st.lock.value));
      } else if st.phase[g].Pending? {
        assert Enabled(st, Write(g));
      } else {
        assert Enabled(st, Check(g));
      }
    }
  }

  // ------------------------------------------------------- what the file ends up with

  ghost predicate NoFailures(trace: seq<Step>) {
    forall s: Step :: s in trace ==> !s.WriteFails? && !s.RenameFails?
  }

  /** After generation n wrote the temporary file and before n renamed, another
      generation's write landed. */
  ghost predicate Overtaken(trace: seq<Step>, n: nat) {
    trace != [] &&
    var init, s := trace[..|trace| - 1], trace[|trace| - 1];
    || Overtaken(init, n)
    || (s.Write? && s.g != n && Write(n) in init && Rename(n) !in init)
  }

  /** What holds of generation n, the newest of a run, in each of its phases. */
  ghost predicate NewestInv(trace: seq<Step>, st: State, n: nat) {
    if n !in st.phase || st.phase[n].Pending? then
      Write(n) !in trace && Rename(n) !in trace && !Overtaken(trace, n) && st.file != n && st.tmp != Some(n)
    else if st.phase[n].Done? then
      Rename(n) in trace && n in st.renames && (st.file == n <==> !Overtaken(trace, n))
    else
      && Write(n) in trace && Rename(n) !in trace
      && (if Overtaken(trace, n) then st.tmp != Some(n) && (st.tmp.None? ==> st.file != n)
          else st.tmp == Some(n) || (st.tmp.None? && st.file == n))
  }

  lemma {:induction false} NewestStep(trace: seq<Step>, n: nat)
    requires trace != [] && Legal(trace) && NoFailures(trace)
    requires After(trace).gen <= n && n > 0
    requires NewestInv(trace[..|trace| - 1], After(trace[..|trace| - 1]), n)
    ensures NewestInv(trace, After(trace), n)
  {
    var init, s := trace[..|trace| - 1], trace[|trace| - 1];
    assert trace == init + [s];
    LegalKeepsInv(init);
    assert s in trace;
  }

  lemma {:induction false} NewestKept(trace: seq<Step>, n: nat)
    requires Legal(trace) && NoFailures(trace) && After(trace).gen <= n && n > 0
    ensures NewestInv(trace, After(trace), n)
  {
    if trace != [] {
      var init, s := trace[..|trace| - 1], trace[|trace| - 1];
      assert forall x :: x in init ==> x in trace;
      NewestKept(init, n);
      NewestStep(trace, n);
    }
  }

  /** With no failed write or rename, once every goroutine is done the newest generation
      is among those that renamed, and by RenamesIncrease it was the last. */
  lemma NewestRenames(trace: seq<Step>)
    requires Legal(trace) && NoFailures(trace) && Quiescent(After(trace)) && After(trace).gen > 0
    ensures var renames := After(trace).renames; renames != [] && renames[|renames| - 1] == After(trace).gen
  {
    LegalKeepsInv(trace);
    NewestKept(trace, After(trace).gen);
    var renames := After(trace).renames;
    assert renames[|renames| - 1] in renames;
  }

  /** With no failed write or rename, once every goroutine is done the file holds the
      newest snapshot exactly when no older write overtook the newest one. */
  lemma QuiescentFileExactly(trace: seq<Step>)
    requires Legal(trace) && NoFailures(trace) && Quiescent(After(trace)) && After(trace).gen > 0
    ensures After(trace).file == After(trace).gen <==> !Overtaken(trace, After(trace).gen)
  {
    LegalKeepsInv(trace);
    NewestKept(trace, After(trace).gen);
  }

  ghost predicate WritesInOrder(trace: seq<Step>) {
    forall i, j :: 0 <= i < j < |trace| && trace[i].Write? && trace[j].Write? ==> trace[i].g < trace[j].g
  }

  lemma {:induction false} InOrderNotOvertaken(trace: seq<Step>, n: nat)
    requires WritesInOrder(trace) && forall s :: s in trace && s.Write? ==> s.g <= n
    ensures !Overtaken(trace, n)
  {
    if trace != [] {
      var init, s := trace[..|trace| - 1], trace[|trace| - 1];
      InOrderNotOvertaken(init, n);
      if Write(n) in init {
        var i :| 0 <= i < |init| && init[i] == Write(n);
        assert trace[i] == Write(n) && s in trace;
      }
    }
  }

  lemma {:induction false} WritesAreStarted(trace: seq<Step>)
    requires Legal(trace)
    ensures forall s :: s in trace && s.Write? ==> s.g <= After(trace).gen
  {
    if trace != [] {
      var init, s := trace[..|trace| - 1], trace[|trace| - 1];
      assert trace == init + [s];
      WritesAreStarted(init);
      LegalKeepsInv(init);
    }
  }

  /** If the writes to the temporary file land in generation order, the file ends up
      with the newest snapshot. */
  lemma OrderedWritesKeepNewest(trace: seq<Step>)
    requires Legal(trace) && NoFailures(trace) && Quiescent(After(trace)) && After(trace).gen > 0
    requires WritesInOrder(trace)
    ensures After(trace).file == After(trace).gen
  {
    WritesAreStarted(trace);
    InOrderNotOvertaken(trace, After(trace).gen);
    QuiescentFileExactly(trace);
  }

  lemma After1(trace: seq<Step>, s: Step)
    requires Legal(trace) && Enabled(After(trace), s)
    ensures Legal(trace + [s]) && After(trace + [s]) == Apply(After(trace), s)
  {
    assert (trace + [s])[..|trace|] == trace;
  }

  /** Without that order it need not: two changes, the older write landing last, and
      the newer goroutine renames the older snapshot into place for good. */
  lemma OldSnapshotCanWin() returns (trace: seq<Step>)
    ensures Legal(trace) && NoFailures(trace) && Quiescent(After(trace))
    ensures After(trace).gen == 2 && After(trace).file == 1
  {
    trace := [];
    After1(trace, Start); trace := trace + [Start];
    After1(trace, Start); trace := trace + [Start];
    After1(trace, Write(2)); trace := trace + [Write(2)];
    After1(trace, Write(1)); trace := trace + [Write(1)];
    After1(trace, Check(2)); trace := trace + [Check(2)];
    After1(trace, Rename(2)); trace := trace + [Rename(2)];
    After1(trace, Check(1)); trace := trace + [Check(1)];
  }
}
