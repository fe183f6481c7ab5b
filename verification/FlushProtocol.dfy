/**
 Snapshots against FLUSHDB: the loop thread mutates, clears and wipes; any number of dump jobs,
 each carrying a snapshot and the epoch it was taken in, commit from worker threads. A job checks
 the epoch and commits under the lock that the wipe also takes; the clear that bumps the epoch
 happens outside it. Every step below is one atomic action of one thread.
 */
module FlushProtocol {
  import opened Bytes
  import opened Options

  type Rows = map<Bytes, Bytes>

  /** What the store held at some moment, and the epoch it held it in. */
  datatype Moment = Moment(epoch: nat, store: Rows)

  datatype Phase = Waiting | Locked | Checked | Committed | Finished

  datatype Dump = Dump(snapshot: Rows, epoch: nat, phase: Phase)

  /** The loop thread: serving commands, or inside a flush. */
  datatype Loop = Idle | Cleared | Wiping | Wiped

  datatype Lock = Free | HeldByDump(job: nat) | HeldByLoop

  /**
   `history` and `missed` only observe the run: the moments the store went through, and whether a
   wipe has failed with nothing written since that would make the table current again.
   */
  datatype State = State(
    store: Rows, epoch: nat, table: Rows, dumps: seq<Dump>, loop: Loop, lock: Lock,
    history: set<Moment>, missed: bool)

  datatype Action =
    | Mutate(store: Rows)
    | StartDump(final: bool)
    | Acquire(job: nat)
    | Check(job: nat)
    | Commit(job: nat)
    | Release(job: nat)
    | DumpFails(job: nat)
    | Clear
    | FlushAcquire
    | Wipe
    | FlushRelease
    | FlushFails

  /** Boot: the table as found on disk counts as written in epoch 0; the store holds what was restored. */
  predicate Init(s: State) {
    && s.epoch == 0 && s.dumps == [] && s.loop == Idle && s.lock == Free && !s.missed
    && s.history == {Moment(0, s.table), Moment(0, s.store)}
  }

  predicate HasPhase(s: State, job: nat, phase: Phase) {
    job < |s.dumps| && s.dumps[job].phase == phase
  }

  predicate Enabled(s: State, a: Action) {
    match a
    case Mutate(_) => s.loop == Idle
    case StartDump(final) => s.loop == Idle && (final || s.store != map[])
    case Acquire(job) => HasPhase(s, job, Waiting) && s.lock == Free
    case Check(job) => HasPhase(s, job, Locked)
    case Commit(job) => HasPhase(s, job, Checked)
    case Release(job) => HasPhase(s, job, Committed)
    case DumpFails(job) => job < |s.dumps| && s.dumps[job].phase != Finished
    case Clear => s.loop == Idle
    case FlushAcquire => s.loop == Cleared && s.lock == Free
    case Wipe => s.loop == Wiping
    case FlushRelease => s.loop == Wiped
    case FlushFails => s.loop == Cleared || s.loop == Wiping
  }

  function SetPhase(s: State, job: nat, phase: Phase): State
    requires job < |s.dumps|
  {
    s.(dumps := s.dumps[job := s.dumps[job].(phase := phase)])
  }

  function Apply(s: State, a: Action): State
    requires Enabled(s, a)
  {
    match a
    case Mutate(store) => s.(store := store, history := s.history + {Moment(s.epoch, store)})
    case StartDump(_) => s.(dumps := s.dumps + [Dump(s.store, s.epoch, Waiting)])
    case Acquire(job) => SetPhase(s, job, Locked).(lock := HeldByDump(job))
    case Check(job) =>
      if s.dumps[job].epoch != s.epoch then SetPhase(s, job, Finished).(lock := Free)
      else SetPhase(s, job, Checked)
    case Commit(job) =>
      var d := s.dumps[job];
      SetPhase(s, job, Committed).(table := d.snapshot, missed := s.missed && d.epoch != s.epoch)
    case Release(job) => SetPhase(s, job, Finished).(lock := Free)
    case DumpFails(job) =>
      SetPhase(s, job, Finished).(lock := if s.lock == HeldByDump(job) then Free else s.lock)
    case Clear =>
      s.(store := map[], epoch := s.epoch + 1, loop := Cleared, history := s.history + {Moment(s.epoch + 1, map[])})
    case FlushAcquire => s.(loop := Wiping, lock := HeldByLoop)
    case Wipe => s.(table := map[], loop := Wiped, missed := false)
    case FlushRelease => s.(loop := Idle, lock := Free)
    case FlushFails => s.(loop := Idle, lock := if s.lock == HeldByLoop then Free else s.lock, missed := true)
  }

  /** The whole table is one state the store was in, in the current epoch; or it is empty. */
  predicate Fresh(s: State) {
    s.table == map[] || Moment(s.epoch, s.table) in s.history
  }

  predicate Holding(phase: Phase) { phase == Locked || phase == Checked || phase == Committed }

  predicate LockCoherent(s: State) {
    && (forall job :: 0 <= job < |s.dumps| ==> (s.lock == HeldByDump(job) <==> Holding(s.dumps[job].phase)))
    && (s.lock.HeldByDump? ==> s.lock.job < |s.dumps|)
    && (s.lock == HeldByLoop <==> s.loop == Wiping || s.loop == Wiped)
  }

  /** Every snapshot in flight, and the store itself, is a state the store was in; no moment is ahead of the epoch. */
  predicate Recorded(s: State) {
    && (forall m :: m in s.history ==> m.epoch <= s.epoch)
    && (forall job :: 0 <= job < |s.dumps| ==> Moment(s.dumps[job].epoch, s.dumps[job].snapshot) in s.history)
    && Moment(s.epoch, s.store) in s.history
  }

  /** A job past its check is current, unless a flush has cleared since and not yet wiped, or its wipe has failed. */
  predicate CheckedIsCurrent(s: State) {
    forall job :: 0 <= job < |s.dumps| && s.dumps[job].phase == Checked ==>
                    s.dumps[job].epoch == s.epoch || s.loop == Cleared || s.missed
  }

  predicate FreshOutsideFlush(s: State) {
    (s.loop == Idle || s.loop == Wiped) && !s.missed ==> Fresh(s)
  }

  predicate Invariant(s: State) {
    LockCoherent(s) && Recorded(s) && CheckedIsCurrent(s) && FreshOutsideFlush(s)
  }

  lemma InitHolds(s: State)
    requires Init(s)
    ensures Invariant(s)
  {
  }

  lemma LockKept(s: State, a: Action)
    requires LockCoherent(s) && Enabled(s, a)
    ensures LockCoherent(Apply(s, a))
  {
  }

  lemma RecordKept(s: State, a: Action)
    requires Recorded(s) && Enabled(s, a)
    ensures Recorded(Apply(s, a))
  {
  }

  /** While the loop holds the lock to wipe, no job is past its check. */
  lemma CheckedKept(s: State, a: Action)
    requires LockCoherent(s) && CheckedIsCurrent(s) && Enabled(s, a)
    ensures CheckedIsCurrent(Apply(s, a))
  {
  }

  lemma FreshKept(s: State, a: Action)
    requires Invariant(s) && Enabled(s, a)
    ensures FreshOutsideFlush(Apply(s, a))
  {
    hide LockCoherent;
  }

  lemma StepKeeps(s: State, a: Action)
    requires Invariant(s) && Enabled(s, a)
    ensures Invariant(Apply(s, a))
  {
    hide LockCoherent, Recorded, CheckedIsCurrent, FreshOutsideFlush, Apply, Enabled;
    LockKept(s, a);
    RecordKept(s, a);
    CheckedKept(s, a);
    FreshKept(s, a);
  }

  /** A run: a state and the action that leads to the next one, for every state but the last. */
  predicate IsRun(states: seq<State>, actions: seq<Action>) {
    && |states| == |actions| + 1 && Init(states[0])
    && forall k :: 0 <= k < |actions| ==> Enabled(states[k], actions[k]) && states[k + 1] == Apply(states[k], actions[k])
  }

  lemma {:induction false} RunKeeps(states: seq<State>, actions: seq<Action>, k: nat)
    requires IsRun(states, actions) && k < |states|
    ensures Invariant(states[k])
  {
    if k == 0 {
      InitHolds(states[0]);
    } else {
      RunKeeps(states, actions, k - 1);
      StepKeeps(states[k - 1], actions[k - 1]);
    }
  }

  /**
   Over every interleaving: whenever the loop is not inside a flush, and no failed wipe is outstanding,
   the whole table is a state the store was in during the current epoch, or it is empty.
   */
  lemma TableIsFresh(states: seq<State>, actions: seq<Action>, k: nat)
    requires IsRun(states, actions) && k < |states|
    requires states[k].loop == Idle && !states[k].missed
    ensures Fresh(states[k])
  {
    RunKeeps(states, actions, k);
  }

  lemma {:induction false} EpochsGrow(states: seq<State>, actions: seq<Action>, i: nat, j: nat)
    requires IsRun(states, actions) && i <= j < |states|
    ensures states[i].epoch <= states[j].epoch
    decreases j - i
  {
    hide Apply, Enabled;
    if i < j {
      EpochsGrow(states, actions, i, j - 1);
      StepCommits(states[j - 1], actions[j - 1]);
      assert states[j] == Apply(states[j - 1], actions[j - 1]);
    }
  }

  /** A recorded moment really happened: at boot, or at some state of the run. */
  lemma {:induction false} MomentHappened(states: seq<State>, actions: seq<Action>, k: nat, m: Moment) returns (j: nat)
    requires IsRun(states, actions) && k < |states|
    requires m in states[k].history && m.epoch > 0
    ensures j <= k && Moment(states[j].epoch, states[j].store) == m
  {
    j := k;
    if Moment(states[k].epoch, states[k].store) != m {
      assert k > 0;
      assert states[k] == Apply(states[k - 1], actions[k - 1]);
      assert m in states[k - 1].history;
      j := MomentHappened(states, actions, k - 1, m);
    }
  }

  /**
   A flushed key never comes back: if step `f` is a clear and the store does not hold `key` in any
   later state, then no later table holds it either, once the flush is over.
   */
  lemma FlushedKeyStaysGone(states: seq<State>, actions: seq<Action>, f: nat, k: nat, key: Bytes)
    requires IsRun(states, actions) && f < k < |states| && actions[f] == Clear
    requires states[k].loop == Idle && !states[k].missed
    requires forall j :: f < j <= k ==> key !in states[j].store
    ensures key !in states[k].table
  {
    TableIsFresh(states, actions, k);
    if states[k].table != map[] {
      assert states[f + 1] == Apply(states[f], actions[f]);
      EpochsGrow(states, actions, f + 1, k);
      var j := MomentHappened(states, actions, k, Moment(states[k].epoch, states[k].table));
      if j <= f {
        EpochsGrow(states, actions, j, f);
      }
    }
  }

  /** The one way it fails: the wipe itself fails, and the table keeps what was flushed from memory. */
  lemma FailedWipeLeavesRows(key: Bytes, value: Bytes) returns (states: seq<State>, actions: seq<Action>)
    ensures IsRun(states, actions) && |states| == 3 && actions[0] == Clear
    ensures states[2].loop == Idle && states[2].missed
    ensures key !in states[1].store && key !in states[2].store && key in states[2].table
    ensures !Fresh(states[2])
  {
    var rows: Rows := map[key := value];
    var s0 := State(rows, 0, rows, [], Idle, Free, {Moment(0, rows)}, false);
    assert s0.history == {Moment(0, s0.table), Moment(0, s0.store)};
    var s1 := Apply(s0, Clear);
    states, actions := [s0, s1, Apply(s1, FlushFails)], [Clear, FlushFails];
  }

  // ----- While a failed wipe is outstanding

  /** The last commit among the actions from `lo` to `hi`. */
  function LastCommit(actions: seq<Action>, lo: nat, hi: nat): (at: Option<nat>)
    requires lo <= hi <= |actions|
    ensures at.Some? ==> lo <= at.value < hi && actions[at.value].Commit?
    decreases hi
  {
    if lo == hi then None
    else if actions[hi - 1].Commit? then Some(hi - 1)
    else LastCommit(actions, lo, hi - 1)
  }

  /** A failed wipe is outstanding from step `f` on: it failed there, and nothing has made up for it since. */
  ghost predicate Outstanding(states: seq<State>, actions: seq<Action>, f: nat, k: nat)
    requires IsRun(states, actions)
  {
    f < k < |states| && actions[f] == FlushFails && forall j :: f < j <= k ==> states[j].missed
  }

  lemma {:induction false} FailureOf(states: seq<State>, actions: seq<Action>, k: nat) returns (f: nat)
    requires IsRun(states, actions) && k < |states| && states[k].missed
    ensures Outstanding(states, actions, f, k)
  {
    assert k > 0;
    assert states[k] == Apply(states[k - 1], actions[k - 1]);
    if actions[k - 1] == FlushFails {
      f := k - 1;
    } else {
      f := FailureOf(states, actions, k - 1);
    }
  }

  lemma StepTable(s: State, a: Action)
    requires Invariant(s) && Enabled(s, a) && Apply(s, a).missed
    ensures !a.Commit? ==> Apply(s, a).table == s.table
    ensures a.Commit? ==> Apply(s, a).table == s.dumps[a.job].snapshot && s.dumps[a.job].epoch < s.epoch
  {
  }

  /** The rows a run has in its table while the wipe that failed at `f` is outstanding. */
  ghost function RowsSince(states: seq<State>, actions: seq<Action>, f: nat, k: nat): Rows
    requires IsRun(states, actions) && f < k < |states|
  {
    match LastCommit(actions, f + 1, k)
    case None => states[f].table
    case Some(c) => states[c].dumps[actions[c].job].snapshot
  }

  /**
   Over every run with a failed wipe outstanding, the table is the one there was when the wipe failed, or, once a
   job past its check has still committed, that job's snapshot of an older epoch. So a flushed key is in the table
   exactly when that one held it.
   */
  lemma {:induction false} TableSinceFailure(states: seq<State>, actions: seq<Action>, f: nat, k: nat)
    requires IsRun(states, actions) && Outstanding(states, actions, f, k)
    ensures states[k].table == RowsSince(states, actions, f, k)
    ensures LastCommit(actions, f + 1, k).Some? ==>
              var c := LastCommit(actions, f + 1, k).value;
              states[c].dumps[actions[c].job].epoch < states[c].epoch
  {
    hide Apply, Enabled, Invariant;
    RunKeeps(states, actions, k - 1);
    assert states[k] == Apply(states[k - 1], actions[k - 1]) && states[k].missed;
    StepTable(states[k - 1], actions[k - 1]);
    if k > f + 1 {
      TableSinceFailure(states, actions, f, k - 1);
    }
  }

  // ----- The persisted table itself

  /** The persisted table, as one call that nobody interrupts changes it. */
  class Db {
    var table: Rows

    constructor ()
      ensures table == map[]
    {
      table := map[];
    }

    /**
     Replaces every row by the snapshot's, unless the epoch of the store, `current`, has moved on since the
     snapshot. Without a store to ask, there is no such check.
     */
    method Dump(snapshot: Rows, current: Option<nat>, epoch: nat)
      modifies this
      ensures table == if current.None? || current.value == epoch then snapshot else old(table)
    {
      if current.Some? && current.value != epoch {
        return;
      }
      table := map[];
      var todo := snapshot.Keys;
      while todo != {}
        invariant todo <= snapshot.Keys
        invariant table.Keys == snapshot.Keys - todo
        invariant forall k :: k in table ==> table[k] == snapshot[k]
        decreases todo
      {
        var key :| key in todo;
        todo := todo - {key};
        table := table[key := snapshot[key]];
      }
    }

    method Flush()
      modifies this
      ensures table == map[]
    {
      table := map[];
    }
  }

  /** Steps in a row, each of them enabled. */
  ghost predicate Steps(s: State, actions: seq<Action>, after: State)
    decreases |actions|
  {
    if actions == [] then after == s
    else Enabled(s, actions[0]) && Steps(Apply(s, actions[0]), actions[1..], after)
  }

  function StepsOfDump(job: nat, current: bool): seq<Action> {
    if current then [Acquire(job), Check(job), Commit(job), Release(job)] else [Acquire(job), Check(job)]
  }

  lemma {:induction false} TwoSteps(s: State, x: Action, y: Action, rest: seq<Action>, after: State)
    requires Enabled(s, x) && Enabled(Apply(s, x), y) && Steps(Apply(Apply(s, x), y), rest, after)
    ensures Steps(s, [x, y] + rest, after)
  {
    hide Apply, Enabled;
    var actions := [x, y] + rest;
    assert actions[1..] == [y] + rest && actions[1..][1..] == rest;
  }

  /**
   A job that runs from its lock to its release undisturbed, by the steps of the protocol, does to the table what
   the call does, and leaves everything else as it was; a failed wipe is then no longer outstanding if the job has
   committed.
   */
  lemma DumpAlone(s: State, job: nat) returns (after: State)
    requires Invariant(s) && HasPhase(s, job, Waiting) && s.lock == Free
    ensures Steps(s, StepsOfDump(job, s.dumps[job].epoch == s.epoch), after)
    ensures var d := s.dumps[job];
            && after.table == (if d.epoch == s.epoch then d.snapshot else s.table)
            && after == SetPhase(s, job, Finished).(table := after.table, missed := s.missed && d.epoch != s.epoch)
    ensures Invariant(after)
  {
    hide Invariant;
    var locked := Apply(s, Acquire(job));
    StepKeeps(s, Acquire(job));
    var checked := Apply(locked, Check(job));
    StepKeeps(locked, Check(job));
    if s.dumps[job].epoch == s.epoch {
      var committed := Apply(checked, Commit(job));
      StepKeeps(checked, Commit(job));
      after := Apply(committed, Release(job));
      StepKeeps(committed, Release(job));
      assert Steps(after, [], after);
      TwoSteps(checked, Commit(job), Release(job), [], after);
      TwoSteps(s, Acquire(job), Check(job), [Commit(job), Release(job)] + [], after);
      assert [Acquire(job), Check(job)] + ([Commit(job), Release(job)] + []) == StepsOfDump(job, true);
    } else {
      after := checked;
      assert Steps(after, [], after);
      TwoSteps(s, Acquire(job), Check(job), [], after);
      assert [Acquire(job), Check(job)] + [] == StepsOfDump(job, false);
    }
  }

  // ----- A dump arrives

  /** A job is as it was when it started, but for its phase; and how its phase moves. */
  lemma StepJob(s: State, a: Action, job: nat)
    requires Enabled(s, a) && job < |Apply(s, a).dumps|
    ensures |s.dumps| <= |Apply(s, a).dumps|
    ensures job < |s.dumps| ==>
              var d, d' := s.dumps[job], Apply(s, a).dumps[job];
              && d'.snapshot == d.snapshot && d'.epoch == d.epoch
              && (d'.phase == Committed && d.phase != Committed ==> a == Commit(job))
              && (d'.phase == Finished && d.phase != Finished && a != DumpFails(job) && d.epoch == s.epoch ==>
                    d.phase == Committed)
    ensures job >= |s.dumps| ==>
              a.StartDump? && job == |s.dumps| && Apply(s, a).dumps[job] == Dump(s.store, s.epoch, Waiting)
  {
  }

  lemma StepCommits(s: State, a: Action)
    requires Enabled(s, a)
    ensures s.epoch <= Apply(s, a).epoch
    ensures a.Commit? ==> a.job < |s.dumps| && Apply(s, a).table == s.dumps[a.job].snapshot
    ensures !a.Commit? && a != Wipe ==> Apply(s, a).table == s.table
  {
  }

  /** A snapshot is what the store held, in the epoch it was in, when the job was started. */
  lemma {:induction false} JobStarted(states: seq<State>, actions: seq<Action>, job: nat, k: nat) returns (x: nat)
    requires IsRun(states, actions) && k < |states| && job < |states[k].dumps|
    ensures x < k && actions[x].StartDump? && job == |states[x].dumps|
    ensures states[k].dumps[job].snapshot == states[x].store && states[k].dumps[job].epoch == states[x].epoch
  {
    hide Apply, Enabled;
    assert k > 0;
    StepJob(states[k - 1], actions[k - 1], job);
    if job < |states[k - 1].dumps| {
      x := JobStarted(states, actions, job, k - 1);
    } else {
      x := k - 1;
    }
  }

  /** A job past its commit, whose epoch is still the store's, and which has not failed, has committed. */
  lemma {:induction false} CommitOf(states: seq<State>, actions: seq<Action>, job: nat, k: nat) returns (z: nat)
    requires IsRun(states, actions) && k < |states| && job < |states[k].dumps|
    requires states[k].dumps[job].phase == Committed || states[k].dumps[job].phase == Finished
    requires states[k].dumps[job].epoch == states[k].epoch
    requires forall j :: 0 <= j < k ==> actions[j] != DumpFails(job)
    ensures z < k && actions[z] == Commit(job)
    ensures job < |states[z].dumps| && states[z].dumps[job].snapshot == states[k].dumps[job].snapshot
  {
    hide Apply, Enabled;
    assert k > 0;
    StepJob(states[k - 1], actions[k - 1], job);
    if actions[k - 1] == Commit(job) {
      z := k - 1;
    } else {
      RunKeeps(states, actions, k - 1);
      EpochsGrow(states, actions, k - 1, k);
      z := CommitOf(states, actions, job, k - 1);
    }
  }

  /** Between two states without a commit or a wipe, the table does not change. */
  lemma {:induction false} TableStays(states: seq<State>, actions: seq<Action>, i: nat, k: nat)
    requires IsRun(states, actions) && i <= k < |states|
    requires forall j :: i <= j < k ==> !actions[j].Commit? && actions[j] != Wipe
    ensures states[k].table == states[i].table
    decreases k - i
  {
    hide Apply, Enabled;
    if i < k {
      TableStays(states, actions, i, k - 1);
      StepCommits(states[k - 1], actions[k - 1]);
      assert states[k] == Apply(states[k - 1], actions[k - 1]);
    }
  }

  /**
   A dump arrives. Over every interleaving: a job that is through, has not failed and has not been overtaken by a
   clear has put into the table what the store held when it started, and there it stays until the next commit or
   wipe.
   */
  lemma DumpArrives(states: seq<State>, actions: seq<Action>, job: nat, k: nat) returns (x: nat, z: nat)
    requires IsRun(states, actions) && k < |states| && HasPhase(states[k], job, Finished)
    requires states[k].dumps[job].epoch == states[k].epoch
    requires forall j :: 0 <= j < k ==> actions[j] != DumpFails(job)
    ensures x < z < k && actions[x].StartDump? && job == |states[x].dumps|
    ensures actions[z] == Commit(job) && states[z + 1].table == states[x].store
    ensures (forall j :: z < j < k ==> !actions[j].Commit? && actions[j] != Wipe) ==> states[k].table == states[x].store
  {
    hide Apply, Enabled, Invariant;
    z := CommitOf(states, actions, job, k);
    x := JobStarted(states, actions, job, z);
    StepCommits(states[z], actions[z]);
    assert states[z + 1] == Apply(states[z], actions[z]);
    if forall j :: z < j < k ==> !actions[j].Commit? && actions[j] != Wipe {
      TableStays(states, actions, z + 1, k);
    }
  }

  /** And nothing holds a job up for good: whoever holds the lock has a next step, and so has a flush. */
  lemma NeverStuck(s: State) returns (a: Action)
    requires Invariant(s)
    ensures s.lock.HeldByDump? ==>
              Enabled(s, a) && (a == Check(s.lock.job) || a == Commit(s.lock.job) || a == Release(s.lock.job))
    ensures s.lock == HeldByLoop ==> Enabled(s, a) && (a == Wipe || a == FlushRelease)
    ensures s.lock == Free ==> forall job :: HasPhase(s, job, Waiting) ==> Enabled(s, Acquire(job))
  {
    if s.lock.HeldByDump? {
      var job := s.lock.job;
      assert Holding(s.dumps[job].phase);
      a := if s.dumps[job].phase == Locked then Check(job)
           else if s.dumps[job].phase == Checked then Commit(job) else Release(job);
    } else {
      a := if s.loop == Wiping then Wipe else FlushRelease;
    }
  }
}
