/** Every interleaving of one master and any number of workers on a CCheckQueue, one critical
    section at a time (checkqueue.h, Loop, Add and CCheckQueueControl). */
module CheckQueueRuns {
  import opened CheckQueue

  /** Thread 0 is the master. A thread is outside Loop, runs a batch, or is blocked in
      cond.wait, perhaps already notified. */
  datatype Thread = Out | Running(vChecks: seq<Check>, fOk: bool) | Waiting(notified: bool)

  /** `added` records the checks added under the present controller, if there is one. */
  datatype State = State(q: Shared, threads: seq<Thread>, fControl: bool, added: seq<Check>)

  /** Enter: a thread calls Loop. Finish: its batch is done. Wake: it leaves cond.wait, with or
      without a notification. Add with one check notifies the worker `wake`, if it waits. */
  datatype Step = Construct | Add(vChecks: seq<Check>, wake: nat) | Enter(i: nat) | Finish(i: nat) | Wake(i: nat)

  function Init(nWorkers: nat, nBatchSize: nat): State {
    State(Shared([], 0, 0, true, 0, nBatchSize), seq(nWorkers + 1, _ => Out), false, [])
  }

  // ---------- sums over threads ----------

  function Sum(ts: seq<Thread>, f: Thread -> nat): nat {
    if ts == [] then 0 else Sum(ts[..|ts| - 1], f) + f(ts[|ts| - 1])
  }

  lemma {:induction false} SumUpdate(ts: seq<Thread>, i: nat, t: Thread, f: Thread -> nat)
    requires i < |ts|
    ensures Sum(ts[i := t], f) == Sum(ts, f) - f(ts[i]) + f(t)
  {
    var n := |ts| - 1;
    if i == n {
      assert ts[i := t][..n] == ts[..n];
    } else {
      assert ts[i := t][..n] == ts[..n][i := t];
      SumUpdate(ts[..n], i, t, f);
    }
  }

  lemma {:induction false} SumAtLeast(ts: seq<Thread>, i: nat, f: Thread -> nat)
    requires i < |ts|
    ensures f(ts[i]) <= Sum(ts, f)
  {
    if i < |ts| - 1 { SumAtLeast(ts[..|ts| - 1], i, f); }
  }

  lemma {:induction false} SumPositive(ts: seq<Thread>, f: Thread -> nat) returns (i: nat)
    requires Sum(ts, f) > 0
    ensures i < |ts| && f(ts[i]) > 0
  {
    i := |ts| - 1;
    if f(ts[i]) == 0 { i := SumPositive(ts[..i], f); }
  }

  lemma {:induction false} SumSame(ts: seq<Thread>, us: seq<Thread>, f: Thread -> nat)
    requires |ts| == |us| && forall i | 0 <= i < |ts| :: f(ts[i]) == f(us[i])
    ensures Sum(ts, f) == Sum(us, f)
  {
    if ts != [] { SumSame(ts[..|ts| - 1], us[..|us| - 1], f); }
  }

  function IdleOf(t: Thread): nat { if t.Waiting? then 1 else 0 }
  function InOf(t: Thread): nat { if t.Out? then 0 else 1 }
  function HeldOf(t: Thread): nat { if t.Running? then |t.vChecks| else 0 }
  function RunningOf(t: Thread): nat { if t.Running? then 1 else 0 }
  function OutOf(t: Thread): nat { if t.Out? then 1 else 0 }
  function NotifiedOf(t: Thread): nat { if t.Waiting? && t.notified then 1 else 0 }

  // ---------- steps ----------

  function Notified(t: Thread): Thread {
    if t.Waiting? then Waiting(true) else t
  }

  function NotifyMaster(ts: seq<Thread>): seq<Thread>
    requires ts != []
  {
    ts[0 := Notified(ts[0])]
  }

  /** What Add's notify_one or notify_all does to the workers. */
  function NotifyWorkers(ts: seq<Thread>, n: nat, wake: nat): (r: seq<Thread>)
    ensures |r| == |ts|
  {
    seq(|ts|, i requires 0 <= i < |ts| => if i > 0 && (n > 1 || (n == 1 && i == wake)) then Notified(ts[i]) else ts[i])
  }

  /** The rest of the critical section of thread i. */
  function Section(s: State, i: nat): State
    requires i < |s.threads| && s.q.nTotal + s.q.nIdle >= 0
  {
    var q := AfterSection(s.q, i == 0);
    match SectionOutcome(s.q, i == 0)
    case Return(_) => State(q, s.threads[i := Out], false, [])
    case Wait => State(q, s.threads[i := Waiting(false)], s.fControl, s.added)
    case Work(vChecks, fOk) => State(q, s.threads[i := Running(vChecks, fOk)], s.fControl, s.added)
  }

  /** The clean-up or the return from cond.wait that comes before. */
  function Before(s: State, step: Step): State
    requires step.Enter? || step.Finish? || step.Wake?
    requires step.i < |s.threads| && (step.Finish? ==> s.threads[step.i].Running?)
  {
    match step
    case Enter(i) => s.(q := s.q.(nTotal := s.q.nTotal + 1))
    case Finish(i) =>
      var t := s.threads[i];
      var q := AfterBatch(s.q, |t.vChecks|, t.fOk && AllPass(t.vChecks));
      s.(q := q, threads := if q.nTodo == 0 && i != 0 then NotifyMaster(s.threads) else s.threads)
    case Wake(i) => s.(q := s.q.(nIdle := s.q.nIdle - 1))
  }

  predicate Enabled(s: State, step: Step) {
    s.threads != [] &&
    match step
    case Construct => !s.fControl
    case Add(_, wake) => s.fControl && s.threads[0].Out?
    case Enter(i) => i < |s.threads| && s.threads[i].Out? && (i == 0 ==> s.fControl)
    case Finish(i) => i < |s.threads| && s.threads[i].Running?
    case Wake(i) => i < |s.threads| && s.threads[i].Waiting?
  }

  ghost predicate Next(s: State, step: Step, s': State) {
    Enabled(s, step) &&
    match step
    case Construct => s' == s.(fControl := true, added := [])
    case Add(vs, wake) =>
      s' == State(s.q.(queue := s.q.queue + vs, nTodo := s.q.nTodo + |vs|), NotifyWorkers(s.threads, |vs|, wake), true, s.added + vs)
    case _ =>
      var b := Before(s, step);
      b.q.nTotal + b.q.nIdle >= 0 && s' == Section(b, step.i)
  }

  // ---------- the invariant ----------

  ghost predicate Counts(s: State) {
    && s.q.nIdle == Sum(s.threads, IdleOf)
    && s.q.nTotal == Sum(s.threads, InOf)
    && s.q.nTodo == |s.q.queue| + Sum(s.threads, HeldOf)
  }

  /** Held batches are not empty, and none was started after a failure that fAllOk forgot. */
  ghost predicate BatchesOk(s: State) {
    forall i | 0 <= i < |s.threads| && s.threads[i].Running? :: s.threads[i].vChecks != [] && (s.q.fAllOk ==> s.threads[i].fOk)
  }

  ghost predicate HeldPass(ts: seq<Thread>) {
    forall i | 0 <= i < |ts| && ts[i].Running? :: AllPass(ts[i].vChecks)
  }

  /** The verdict so far and the checks still to run tell how all that was added comes out. */
  ghost predicate VerdictOk(s: State) {
    AllPass(s.added) <==> s.q.fAllOk && AllPass(s.q.queue) && HeldPass(s.threads)
  }

  ghost predicate ControlOk(s: State) {
    && s.threads != []
    && (!s.threads[0].Out? ==> s.fControl)
    && (!s.fControl ==> s.q.nTodo == 0 && s.q.fAllOk && s.added == [])
    && (s.threads[0].Waiting? ==> s.q.queue == [] && (s.threads[0].notified || s.q.nTodo > 0))
  }

  ghost predicate Inv(s: State) {
    Counts(s) && BatchesOk(s) && VerdictOk(s) && ControlOk(s)
  }

  /** Thread i is inside the critical section: counted, not idle, holding nothing. */
  ghost predicate Inside(s: State, i: nat) {
    i < |s.threads| &&
    var us := s.threads[i := Out];
    && s.q.nIdle == Sum(us, IdleOf) && s.q.nTotal == Sum(us, InOf) + 1
    && s.q.nTodo == |s.q.queue| + Sum(us, HeldOf)
    && BatchesOk(s.(threads := us)) && VerdictOk(s.(threads := us))
    && (i == 0 || !us[0].Out? ==> s.fControl)
    && (!s.fControl ==> s.q.nTodo == 0 && s.q.fAllOk && s.added == [])
    && (us[0].Waiting? ==> s.q.queue == [] && (us[0].notified || s.q.nTodo > 0))
  }

  lemma SumsWithout(ts: seq<Thread>, i: nat)
    requires i < |ts|
    ensures Sum(ts[i := Out], IdleOf) == Sum(ts, IdleOf) - IdleOf(ts[i])
    ensures Sum(ts[i := Out], InOf) == Sum(ts, InOf) - InOf(ts[i])
    ensures Sum(ts[i := Out], HeldOf) == Sum(ts, HeldOf) - HeldOf(ts[i])
  {
    SumUpdate(ts, i, Out, IdleOf);
    SumUpdate(ts, i, Out, InOf);
    SumUpdate(ts, i, Out, HeldOf);
  }

  lemma EnterInside(s: State, i: nat)
    requires Inv(s) && Enabled(s, Enter(i))
    ensures Inside(Before(s, Enter(i)), i)
  {
    SumsWithout(s.threads, i);
    assert s.threads[i := Out] == s.threads;
    hide AllPass;
  }

  lemma WakeInside(s: State, i: nat)
    requires Inv(s) && Enabled(s, Wake(i))
    ensures Inside(Before(s, Wake(i)), i)
  {
    SumsWithout(s.threads, i);
    var us := s.threads[i := Out];
    assert us[i := s.threads[i]] == s.threads;
    HeldUpdate(us, i, s.threads[i]);
    hide AllPass, Sum, HeldPass;
  }

  lemma NothingHeldMeans(ts: seq<Thread>)
    requires Sum(ts, HeldOf) == 0 && forall i | 0 <= i < |ts| && ts[i].Running? :: ts[i].vChecks != []
    ensures forall i | 0 <= i < |ts| :: !ts[i].Running?
  {
    forall i | 0 <= i < |ts| ensures !ts[i].Running? {
      SumAtLeast(ts, i, HeldOf);
    }
  }

  lemma NotifySums(ts: seq<Thread>)
    requires ts != []
    ensures Sum(NotifyMaster(ts), IdleOf) == Sum(ts, IdleOf)
    ensures Sum(NotifyMaster(ts), InOf) == Sum(ts, InOf)
    ensures Sum(NotifyMaster(ts), HeldOf) == Sum(ts, HeldOf)
  {
    SumSame(NotifyMaster(ts), ts, IdleOf);
    SumSame(NotifyMaster(ts), ts, InOf);
    SumSame(NotifyMaster(ts), ts, HeldOf);
  }

  lemma FinishInside(s: State, i: nat)
    requires Inv(s) && Enabled(s, Finish(i))
    ensures Inside(Before(s, Finish(i)), i)
  {
    var t := s.threads[i];
    SumsWithout(s.threads, i);
    SumAtLeast(s.threads, i, HeldOf);
    if s.fControl == false { NothingHeldMeans(s.threads); }
    var us := s.threads[i := Out];
    var b := Before(s, Finish(i));
    FinishVerdict(s, i);
    if b.q.nTodo == 0 && i != 0 {
      assert b.threads[i := Out] == NotifyMaster(us);
      NotifySums(us);
    } else {
      assert b.threads[i := Out] == us;
    }
    hide AllPass, Sum;
  }

  /** Folding a finished batch into fAllOk keeps the overall verdict. */
  lemma FinishVerdict(s: State, i: nat)
    requires Inv(s) && Enabled(s, Finish(i))
    ensures
      var b := Before(s, Finish(i));
      BatchesOk(b.(threads := b.threads[i := Out])) && VerdictOk(b.(threads := b.threads[i := Out]))
  {
    hide AllPass, Sum;
    var b := Before(s, Finish(i));
    var us := b.threads[i := Out];
    assert HeldPass(s.threads) <==> HeldPass(us) && AllPass(s.threads[i].vChecks) by {
      assert forall j | 0 <= j < |us| && us[j].Running? :: us[j] == s.threads[j];
      assert forall j | 0 <= j < |us| && j != i && s.threads[j].Running? :: us[j] == s.threads[j];
    }
  }

  lemma CountsUpdate(q: Shared, us: seq<Thread>, i: nat, t: Thread)
    requires i < |us| && us[i] == Out
    ensures Sum(us[i := t], IdleOf) == Sum(us, IdleOf) + IdleOf(t)
    ensures Sum(us[i := t], InOf) == Sum(us, InOf) + InOf(t)
    ensures Sum(us[i := t], HeldOf) == Sum(us, HeldOf) + HeldOf(t)
  {
    SumUpdate(us, i, t, IdleOf);
    SumUpdate(us, i, t, InOf);
    SumUpdate(us, i, t, HeldOf);
  }

  /** The batch taken and the queue left are the queue there was. */
  lemma BatchAndRest(q: Shared)
    requires q.queue != [] && q.nTotal + q.nIdle >= 0
    ensures AllPass(q.queue) <==> AllPass(Batch(q)) && AllPass(q.queue[..|q.queue| - BatchSize(q)])
  {
    var n := |q.queue|;
    if AllPass(Batch(q)) && AllPass(q.queue[..n - BatchSize(q)]) {
      forall i | 0 <= i < n ensures q.queue[i] {
        if i < n - BatchSize(q) { assert q.queue[..n - BatchSize(q)][i]; } else { assert Batch(q)[n - 1 - i]; }
      }
    }
  }

  lemma SectionKeeps(s: State, i: nat)
    requires Inside(s, i)
    ensures s.q.nTotal + s.q.nIdle >= 0 && Inv(Section(s, i))
  {
    hide AllPass, Sum, Batch, BatchSize;
    var us := s.threads[i := Out];
    var o := SectionOutcome(s.q, i == 0);
    var t := match o case Return(_) => Out case Wait => Waiting(false) case Work(vChecks, fOk) => Running(vChecks, fOk);
    assert s.threads[i := t] == us[i := t];
    CountsUpdate(s.q, us, i, t);
    match o {
      case Return(_) => NothingHeldMeans(us); assert us[i := t] == us;
      case Wait =>
        assert HeldPass(us[i := t]) <==> HeldPass(us) by { HeldUpdate(us, i, t); }
      case Work(_, _) =>
        BatchAndRest(s.q);
        HeldUpdate(us, i, t);
    }
  }

  lemma HeldUpdate(us: seq<Thread>, i: nat, t: Thread)
    requires i < |us| && us[i] == Out
    ensures HeldPass(us[i := t]) <==> HeldPass(us) && (t.Running? ==> AllPass(t.vChecks))
  {
    hide AllPass;
    assert forall j | 0 <= j < |us| && us[j].Running? :: us[i := t][j] == us[j];
    if HeldPass(us[i := t]) && t.Running? { assert us[i := t][i] == t; }
  }

  lemma AddSums(ts: seq<Thread>, n: nat, wake: nat)
    ensures Sum(NotifyWorkers(ts, n, wake), IdleOf) == Sum(ts, IdleOf)
    ensures Sum(NotifyWorkers(ts, n, wake), InOf) == Sum(ts, InOf)
    ensures Sum(NotifyWorkers(ts, n, wake), HeldOf) == Sum(ts, HeldOf)
  {
    SumSame(NotifyWorkers(ts, n, wake), ts, IdleOf);
    SumSame(NotifyWorkers(ts, n, wake), ts, InOf);
    SumSame(NotifyWorkers(ts, n, wake), ts, HeldOf);
  }

  lemma AllPassJoin(a: seq<Check>, b: seq<Check>)
    ensures AllPass(a + b) <==> AllPass(a) && AllPass(b)
  {
    if AllPass(a + b) {
      forall i | 0 <= i < |a| ensures a[i] { assert (a + b)[i]; }
      forall i | 0 <= i < |b| ensures b[i] { assert (a + b)[|a| + i]; }
    }
  }

  lemma AddKeeps(s: State, vs: seq<Check>, wake: nat, s': State)
    requires Inv(s) && Next(s, Add(vs, wake), s')
    ensures Inv(s')
  {
    hide AllPass, Sum;
    var us := NotifyWorkers(s.threads, |vs|, wake);
    AddSums(s.threads, |vs|, wake);
    AllPassJoin(s.added, vs);
    AllPassJoin(s.q.queue, vs);
    assert forall i | 0 <= i < |us| && us[i].Running? :: us[i] == s.threads[i];
    assert forall i | 0 <= i < |us| && s.threads[i].Running? :: us[i] == s.threads[i];
  }

  /** Every step of every thread keeps the invariant. */
  lemma StepKeeps(s: State, step: Step, s': State)
    requires Inv(s) && Next(s, step, s')
    ensures Inv(s')
  {
    match step {
      case Construct => hide AllPass, Sum;
      case Add(vs, wake) => AddKeeps(s, vs, wake, s');
      case Enter(i) => EnterInside(s, i); SectionKeeps(Before(s, step), i);
      case Finish(i) => FinishInside(s, i); SectionKeeps(Before(s, step), i);
      case Wake(i) => WakeInside(s, i); SectionKeeps(Before(s, step), i);
    }
  }

  /** An enabled step can be taken. */
  lemma EnabledCanStep(s: State, step: Step) returns (s': State)
    requires Inv(s) && Enabled(s, step)
    ensures Next(s, step, s') && Inv(s')
  {
    match step {
      case Construct => s' := s.(fControl := true, added := []);
      case Add(vs, wake) =>
        s' := State(s.q.(queue := s.q.queue + vs, nTodo := s.q.nTodo + |vs|), NotifyWorkers(s.threads, |vs|, wake), true, s.added + vs);
      case Enter(i) => EnterInside(s, i); SectionKeeps(Before(s, step), i); s' := Section(Before(s, step), i);
      case Finish(i) => FinishInside(s, i); SectionKeeps(Before(s, step), i); s' := Section(Before(s, step), i);
      case Wake(i) => WakeInside(s, i); SectionKeeps(Before(s, step), i); s' := Section(Before(s, step), i);
    }
    StepKeeps(s, step, s');
  }

  // ---------- runs ----------

  /** A run: each state follows from the one before by the step between them. */
  ghost predicate IsRun(states: seq<State>, steps: seq<Step>) {
    |states| == |steps| + 1 && forall k | 0 <= k < |steps| :: Next(states[k], steps[k], states[k + 1])
  }

  lemma InitInv(nWorkers: nat, nBatchSize: nat)
    ensures Inv(Init(nWorkers, nBatchSize))
  {
    var ts := Init(nWorkers, nBatchSize).threads;
    if Sum(ts, IdleOf) > 0 { var i := SumPositive(ts, IdleOf); }
    if Sum(ts, InOf) > 0 { var i := SumPositive(ts, InOf); }
    if Sum(ts, HeldOf) > 0 { var i := SumPositive(ts, HeldOf); }
  }

  lemma {:induction false} RunKeeps(states: seq<State>, steps: seq<Step>, k: nat)
    requires IsRun(states, steps) && Inv(states[0]) && k < |states|
    ensures Inv(states[k])
  {
    if k > 0 {
      RunKeeps(states, steps, k - 1);
      StepKeeps(states[k - 1], steps[k - 1], states[k]);
    }
  }

  /** In every state of every run: the counters say what they are for, and a master blocked
      without a notification is waiting for a batch that some worker holds. */
  lemma CountersAreRight(nWorkers: nat, nBatchSize: nat, states: seq<State>, steps: seq<Step>, k: nat)
    requires IsRun(states, steps) && states[0] == Init(nWorkers, nBatchSize) && k < |states|
    ensures
      var s := states[k];
      && s.q.nTodo == |s.q.queue| + Sum(s.threads, HeldOf)
      && s.q.nTotal - s.q.nIdle == Sum(s.threads, RunningOf)
      && (s.threads != [] && s.threads[0] == Waiting(false) ==> exists i :: 0 < i < |s.threads| && s.threads[i].Running?)
  {
    InitInv(nWorkers, nBatchSize);
    RunKeeps(states, steps, k);
    var s := states[k];
    SumDifference(s.threads);
    if s.threads != [] && s.threads[0] == Waiting(false) {
      var i := SumPositive(s.threads, HeldOf);
    }
  }

  lemma {:induction false} SumDifference(ts: seq<Thread>)
    ensures Sum(ts, InOf) == Sum(ts, IdleOf) + Sum(ts, RunningOf)
  {
    if ts != [] { SumDifference(ts[..|ts| - 1]); }
  }

  /** The constructor's three assertions hold whenever a controller can be made. */
  lemma ControllerStartsClean(nWorkers: nat, nBatchSize: nat, states: seq<State>, steps: seq<Step>, k: nat)
    requires IsRun(states, steps) && states[0] == Init(nWorkers, nBatchSize) && k < |states| && Enabled(states[k], Construct)
    ensures states[k].q.nTotal == states[k].q.nIdle && states[k].q.nTodo == 0 && states[k].q.fAllOk
  {
    CountersAreRight(nWorkers, nBatchSize, states, steps, k);
    RunKeeps(states, steps, k) by { InitInv(nWorkers, nBatchSize); }
    var ts := states[k].threads;
    if Sum(ts, RunningOf) > 0 {
      var i := SumPositive(ts, RunningOf);
      SumAtLeast(ts, i, HeldOf);
    }
  }

  // ---------- what Wait returns ----------

  /** The checks added since the last controller was made. */
  function History(steps: seq<Step>): seq<Check> {
    if steps == [] then [] else
    match steps[|steps| - 1]
    case Construct => []
    case Add(vs, _) => History(steps[..|steps| - 1]) + vs
    case _ => History(steps[..|steps| - 1])
  }

  lemma {:induction false} AddedIsHistory(states: seq<State>, steps: seq<Step>, k: nat)
    requires IsRun(states, steps) && Inv(states[0]) && !states[0].fControl && k < |states|
    ensures states[k].fControl ==> states[k].added == History(steps[..k])
  {
    if k > 0 {
      AddedIsHistory(states, steps, k - 1);
      assert steps[..k][..k - 1] == steps[..k - 1];
      RunKeeps(states, steps, k - 1);
    }
  }

  /** The verdict the master leaves Loop with in this step, if it leaves. */
  predicate MasterReturns(s: State, step: Step, fRet: bool) {
    && Enabled(s, step) && (step.Enter? || step.Finish? || step.Wake?) && step.i == 0
    && var q := Before(s, step).q;
       q.nTotal + q.nIdle >= 0 && SectionOutcome(q, true) == Return(fRet)
  }

  lemma VerdictAtReturn(s: State, step: Step, fRet: bool)
    requires Inv(s) && MasterReturns(s, step, fRet)
    ensures fRet <==> AllPass(s.added)
  {
    var b := Before(s, step);
    match step {
      case Enter(i) => EnterInside(s, i);
      case Finish(i) => FinishInside(s, i);
      case Wake(i) => WakeInside(s, i);
    }
    NothingHeldMeans(b.threads[0 := Out]);
    hide Sum;
  }

  /** Wait returns the conjunction of all checks added since the controller was made. */
  lemma WaitReturnsConjunction(nWorkers: nat, nBatchSize: nat, states: seq<State>, steps: seq<Step>, k: nat, fRet: bool)
    requires IsRun(states, steps) && states[0] == Init(nWorkers, nBatchSize) && k < |steps|
    requires MasterReturns(states[k], steps[k], fRet)
    ensures fRet <==> AllPass(History(steps[..k]))
  {
    InitInv(nWorkers, nBatchSize);
    RunKeeps(states, steps, k);
    AddedIsHistory(states, steps, k);
    VerdictAtReturn(states[k], steps[k], fRet);
    hide AllPass, Sum;
  }

  // ---------- Wait comes back ----------

  /** A step that is not a spurious wake-up. */
  predicate Real(s: State, step: Step) {
    step.Wake? ==> step.i < |s.threads| && s.threads[step.i] == Waiting(true)
  }

  /** Twice the work left, plus the threads yet to start, plus the notifications pending. */
  function Rank(s: State): int {
    2 * s.q.nTodo + Sum(s.threads, OutOf) + Sum(s.threads, NotifiedOf)
  }

  /** While the master is in Loop some thread takes a step without a spurious wake-up. */
  lemma NeverStuck(s: State) returns (step: Step, s': State)
    requires Inv(s) && !s.threads[0].Out?
    ensures Next(s, step, s') && Inv(s') && Real(s, step) && (step.Finish? || step.Wake?)
  {
    if s.threads[0].Running? {
      step := Finish(0);
    } else if s.threads[0].notified {
      step := Wake(0);
    } else {
      var i := SumPositive(s.threads, HeldOf);
      step := Finish(i);
    }
    s' := EnabledCanStep(s, step);
  }

  lemma RankSection(b: State, i: nat)
    requires Inside(b, i) && b.q.nTotal + b.q.nIdle >= 0
    requires i == 0 ==> !Section(b, i).threads[0].Out?
    ensures Rank(Section(b, i)) == Rank(b) - OutOf(b.threads[i]) - NotifiedOf(b.threads[i])
  {
    var s' := Section(b, i);
    SumUpdate(b.threads, i, s'.threads[i], OutOf);
    SumUpdate(b.threads, i, s'.threads[i], NotifiedOf);
    hide Sum, Batch, BatchSize;
  }

  /** Every such step brings the master closer to its return. */
  lemma RankFalls(s: State, step: Step, s': State)
    requires Inv(s) && Next(s, step, s') && Real(s, step) && !s.threads[0].Out? && !s'.threads[0].Out?
    ensures Rank(s') < Rank(s)
  {
    match step {
      case Construct => assert false;
      case Add(_, _) => assert false;
      case Enter(i) => EnterInside(s, i); RankSection(Before(s, step), i);
      case Wake(i) => WakeInside(s, i); RankSection(Before(s, step), i);
      case Finish(i) =>
        FinishInside(s, i);
        RankSection(Before(s, step), i);
        FinishRank(s, i);
    }
  }

  lemma FinishRank(s: State, i: nat)
    requires Inv(s) && Enabled(s, Finish(i))
    ensures Rank(Before(s, Finish(i))) < Rank(s)
  {
    var b := Before(s, Finish(i));
    assert |s.threads[i].vChecks| >= 1;
    if b.threads != s.threads {
      SumUpdate(s.threads, 0, Notified(s.threads[0]), OutOf);
      SumUpdate(s.threads, 0, Notified(s.threads[0]), NotifiedOf);
    }
    hide Sum;
  }

  /** A spurious wake-up leaves the rank as it is. */
  lemma RankStays(s: State, step: Step, s': State)
    requires Inv(s) && Next(s, step, s') && !Real(s, step) && !s.threads[0].Out? && !s'.threads[0].Out?
    ensures Rank(s') == Rank(s)
  {
    WakeInside(s, step.i);
    RankSection(Before(s, step), step.i);
  }

  /** How many of the first n steps were not spurious wake-ups. */
  function RealSteps(states: seq<State>, steps: seq<Step>, n: nat): nat
    requires n <= |steps| && n <= |states|
  {
    if n == 0 then 0 else RealSteps(states, steps, n - 1) + if Real(states[n - 1], steps[n - 1]) then 1 else 0
  }

  lemma RankIsNotNegative(s: State)
    requires Inv(s)
    ensures Rank(s) >= 0
  {
    hide Sum;
  }

  /** However many spurious wake-ups there are, a master that has not returned after n steps
      had a rank of at least the number of the others: so Wait returns. */
  lemma {:induction false} WaitReturns(states: seq<State>, steps: seq<Step>, n: nat)
    requires IsRun(states, steps) && Inv(states[0]) && n < |states|
    requires forall k | 0 <= k <= n :: states[k].threads != [] && !states[k].threads[0].Out?
    ensures RealSteps(states, steps, n) <= Rank(states[0]) - Rank(states[n]) && Rank(states[n]) >= 0
  {
    hide Inv, Real, Next, Sum;
    RunKeeps(states, steps, n);
    RankIsNotNegative(states[n]);
    if n > 0 {
      assert Next(states[n - 1], steps[n - 1], states[n]);
      WaitReturns(states, steps, n - 1);
      RunKeeps(states, steps, n - 1);
      if Real(states[n - 1], steps[n - 1]) {
        RankFalls(states[n - 1], steps[n - 1], states[n]);
      } else {
        RankStays(states[n - 1], steps[n - 1], states[n]);
      }
    }
  }
}
