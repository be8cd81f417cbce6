/** The parallel check queue (checkqueue.h). The class holds the shared fields and its methods
    are the code between two lock operations; CheckQueueRuns runs any number of threads
    through them. */
module CheckQueue {
  import opened Arithmetic

  /** A check is the verdict its operator() gives. */
  type Check = bool

  predicate AllPass(s: seq<Check>) {
    forall i | 0 <= i < |s| :: s[i]
  }

  /** The fields under the mutex. */
  datatype Shared = Shared(queue: seq<Check>, nIdle: int, nTotal: int, fAllOk: bool, nTodo: int, nBatchSize: nat)

  /** How a thread leaves the critical section of Loop. */
  datatype Outcome = Return(fRet: bool) | Wait | Work(vChecks: seq<Check>, fOk: bool)

  /** Smaller batches as the queue empties, at least one check, at most nBatchSize. */
  function BatchSize(q: Shared): (nNow: nat)
    requires q.queue != [] && q.nTotal + q.nIdle >= 0
    ensures 1 <= nNow <= |q.queue|
  {
    var share := |q.queue| / (q.nTotal + q.nIdle + 1);
    ShareFits(|q.queue|, q.nTotal + q.nIdle + 1);
    var capped := if q.nBatchSize < share then q.nBatchSize else share;
    if capped < 1 then 1 else capped
  }

  lemma ShareFits(n: nat, d: int)
    requires d >= 1
    ensures 0 <= n / d <= n
  {
    var s := n / d;
    assert n == d * s + n % d;
    MulMono(s, 1, d);
  }

  /** It is the largest batch that leaves as much for every other thread, idle ones among them,
      if that is one check at least. */
  lemma BatchLeavesShares(q: Shared)
    requires q.queue != [] && q.nTotal + q.nIdle >= 0
    ensures BatchSize(q) == 1 || (BatchSize(q) <= q.nBatchSize && BatchSize(q) + (q.nTotal + q.nIdle) * BatchSize(q) <= |q.queue|)
    ensures BatchSize(q) >= q.nBatchSize || (BatchSize(q) + 1) + (q.nTotal + q.nIdle) * (BatchSize(q) + 1) > |q.queue|
  {
    var d := q.nTotal + q.nIdle + 1;
    var share := |q.queue| / d;
    assert |q.queue| == d * share + |q.queue| % d;
    ShareFits(|q.queue|, d);
    SharesGrow(d - 1, BatchSize(q), share);
  }

  lemma SharesGrow(others: nat, n: nat, share: nat)
    ensures n <= share ==> n + others * n <= (others + 1) * share
    ensures n >= share ==> (others + 1) * share + others + 1 <= (n + 1) + others * (n + 1)
  {
    if n <= share { MulMono(others, n, share); } else { MulMono(others, share, n); }
    assert (others + 1) * share == others * share + share;
  }

  /** The batch a thread takes: the end of the queue, last first. */
  function Batch(q: Shared): (r: seq<Check>)
    requires q.queue != [] && q.nTotal + q.nIdle >= 0
    ensures |r| == BatchSize(q)
  {
    seq(BatchSize(q), i requires 0 <= i < BatchSize(q) => q.queue[|q.queue| - 1 - i])
  }

  /** What the critical section does to the fields once the clean-up is done: wait or return
      when the queue is empty, otherwise take a batch off its end. */
  function AfterSection(q: Shared, fMaster: bool): Shared
    requires q.nTotal + q.nIdle >= 0
  {
    if q.queue == [] then
      if fMaster && q.nTodo == 0 then q.(nTotal := q.nTotal - 1, fAllOk := true) else q.(nIdle := q.nIdle + 1)
    else q.(queue := q.queue[..|q.queue| - BatchSize(q)])
  }

  function SectionOutcome(q: Shared, fMaster: bool): Outcome
    requires q.nTotal + q.nIdle >= 0
  {
    if q.queue == [] then if fMaster && q.nTodo == 0 then Return(q.fAllOk) else Wait
    else Work(Batch(q), q.fAllOk)
  }

  /** Accounting for a finished batch. */
  function AfterBatch(q: Shared, nNow: nat, fOk: bool): Shared {
    q.(fAllOk := q.fAllOk && fOk, nTodo := q.nTodo - nNow)
  }

  class CCheckQueue {
    var queue: seq<Check>
    var nIdle: int
    var nTotal: int
    var fAllOk: bool
    var nTodo: int
    const nBatchSize: nat

    ghost function Fields(): Shared
      reads this
    {
      Shared(queue, nIdle, nTotal, fAllOk, nTodo, nBatchSize)
    }

    constructor (nBatchSizeIn: nat)
      ensures Fields() == Shared([], 0, 0, true, 0, nBatchSizeIn)
    {
      queue, nIdle, nTotal, fAllOk, nTodo, nBatchSize := [], 0, 0, true, 0, nBatchSizeIn;
    }

    /** The clean-up that opens the critical section; `notify` wakes the master. */
    method CleanUp(fMaster: bool, nNow: nat, fOk: bool) returns (notify: bool)
      modifies this
      ensures Fields() == if nNow > 0 then AfterBatch(old(Fields()), nNow, fOk) else old(Fields()).(nTotal := old(nTotal) + 1)
      ensures notify <==> nNow > 0 && nTodo == 0 && !fMaster
    {
      notify := false;
      if nNow > 0 {
        fAllOk := fAllOk && fOk;
        nTodo := nTodo - nNow;
        notify := nTodo == 0 && !fMaster;
      } else {
        nTotal := nTotal + 1;
      }
    }

    /** Back from cond.wait. */
    method WakeUp()
      modifies this`nIdle
      ensures Fields() == old(Fields()).(nIdle := old(nIdle) - 1)
    {
      nIdle := nIdle - 1;
    }

    /** The rest of the critical section. */
    method Section(fMaster: bool) returns (outcome: Outcome)
      requires nTotal + nIdle >= 0
      modifies this
      ensures Fields() == AfterSection(old(Fields()), fMaster) && outcome == SectionOutcome(old(Fields()), fMaster)
    {
      if queue == [] {
        if fMaster && nTodo == 0 {
          nTotal := nTotal - 1;
          outcome := Return(fAllOk);
          fAllOk := true;
        } else {
          nIdle := nIdle + 1;
          outcome := Wait;
        }
      } else {
        var nNow := BatchSize(Shared(queue, nIdle, nTotal, fAllOk, nTodo, nBatchSize));
        ghost var all := queue;
        var vChecks := [];
        for i := 0 to nNow
          invariant queue == all[..|all| - i] && |vChecks| == i
          invariant forall k | 0 <= k < i :: vChecks[k] == all[|all| - 1 - k]
          invariant nIdle == old(nIdle) && nTotal == old(nTotal) && fAllOk == old(fAllOk) && nTodo == old(nTodo)
        {
          vChecks := vChecks + [queue[|queue| - 1]];
          queue := queue[..|queue| - 1];
        }
        outcome := Work(vChecks, fAllOk);
      }
    }

    method Add(vChecks: seq<Check>)
      modifies this
      ensures Fields() == old(Fields()).(queue := old(queue) + vChecks, nTodo := old(nTodo) + |vChecks|)
    {
      for i := 0 to |vChecks|
        invariant queue == old(queue) + vChecks[..i]
        invariant nIdle == old(nIdle) && nTotal == old(nTotal) && fAllOk == old(fAllOk) && nTodo == old(nTodo)
      {
        queue := queue + [vChecks[i]];
      }
      nTodo := nTodo + |vChecks|;
      assert vChecks[..|vChecks|] == vChecks;
    }
  }

  /** The unlocked part of Loop: runs a batch until the first failure. */
  method RunBatch(vChecks: seq<Check>, fStart: bool) returns (fOk: bool)
    ensures fOk <==> fStart && AllPass(vChecks)
  {
    fOk := fStart;
    for i := 0 to |vChecks|
      invariant fOk <==> fStart && AllPass(vChecks[..i])
    {
      assert vChecks[..i + 1] == vChecks[..i] + [vChecks[i]];
      if fOk {
        fOk := vChecks[i];
      }
    }
    assert vChecks[..|vChecks|] == vChecks;
  }
}
