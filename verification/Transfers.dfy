/** A large transfer of src/net/RdmaSocket.cpp as a state machine: the caller pushes one task to each
    worker's queue and spins on TransferSignal; the steps of caller and workers, down to the halves of
    a push and a pop, interleave in any order. */
module Transfers {
  import opened Blocks
  import opened Storage
  import opened RdmaSockets
  import Q = PollingQueues

  /** The ranges [starts[w], starts[w] + sizes[w]) of a transfer from `src` at `from` to offset `to`. */
  datatype Job = Job(src: seq<byte>, from: nat, to: nat, starts: seq<nat>, sizes: seq<nat>)

  /** A worker waits for a task, holds a pointer to the caller's task, or copies with the task's
      fields in its own variables: `total` bytes are through, one more chunk may be staged. */
  datatype Worker = Idle | HasTask(task: nat) | Copying(task: nat, total: nat, staged: bool)

  datatype State = State(
    pushed: nat, returned: bool, queues: seq<Q.State<nat>>, workers: seq<Worker>, done: set<nat>, signal: nat,
    region: seq<byte>, dst: seq<byte>)

  datatype Step =
    | Append               // the caller appends the next task to its worker's queue
    | Raise                // and raises the queue's counter
    | Return               // the caller's spin ends
    | Pop(w: nat, op: Q.Step<nat>) // a part of the worker's PopPolling
    | Begin(w: nat)        // the worker reads the task's fields
    | Stage(w: nat)        // it fills its bounce buffer
    | Flush(w: nat)        // it empties its bounce buffer
    | Finish(w: nat)       // it signals

  function Count(job: Job): nat {
    |job.sizes|
  }

  /** The ranges lie inside source and destination and do not overlap; each worker has a buffer. */
  ghost predicate JobOk(job: Job, s: State) {
    && |job.starts| == |job.sizes| && PoolAddr(Count(job)) <= |s.region|
    && (forall w :: 0 <= w < Count(job) ==>
          && job.from + job.starts[w] + job.sizes[w] <= |job.src|
          && job.to + job.starts[w] + job.sizes[w] <= |s.dst|)
    && (forall v, w :: 0 <= v < w < Count(job) ==> job.starts[v] + job.sizes[v] <= job.starts[w])
  }

  function ChunkSize(job: Job, w: nat, total: nat): nat
    requires w < Count(job) && total <= job.sizes[w]
  {
    if job.sizes[w] - total >= POOL_SIZE then POOL_SIZE else job.sizes[w] - total
  }

  /** Nothing waits in the queue, and neither side is inside an operation on it. */
  predicate Empty(q: Q.State<nat>) {
    q.queue == [] && q.offset == 0 && q.producer.Resting? && q.consumer.Polling?
  }

  /** The caller is between the two halves of pushing task w. */
  predicate Appended(q: Q.State<nat>, w: nat) {
    q.queue == [w] && q.offset == 0 && q.producer.MidPush? && q.consumer.Polling?
  }

  /** Task w has been pushed, and the worker has not yet popped it. */
  predicate Holding(q: Q.State<nat>, w: nat) {
    && q.offset == 1 && q.producer.Resting?
    && match q.consumer
       case Polling => q.queue == [w]
       case SawItem => q.queue == [w]
       case Read(item) => q.queue == [w] && item == w
       case MidPop(item) => q.queue == [] && item == w
  }

  /** Queues are empty, workers wait, nothing is signalled: where a transfer starts and ends. */
  ghost predicate Quiet(s: State, n: nat) {
    && |s.queues| == n && |s.workers| == n
    && forall w :: 0 <= w < n ==> Empty(s.queues[w]) && s.workers[w] == Idle
  }

  ghost predicate Start(job: Job, s: State) {
    && JobOk(job, s) && Quiet(s, Count(job))
    && s.pushed == 0 && !s.returned && s.done == {} && s.signal == 0
  }

  ghost predicate Sized(job: Job, s: State) {
    |s.queues| == Count(job) && |s.workers| == Count(job)
  }

  ghost predicate Enabled(job: Job, s: State, step: Step) {
    && JobOk(job, s) && Sized(job, s)
    && match step
       case Append => s.pushed < Count(job) && Q.Ready(s.queues[s.pushed], Q.PushBack(s.pushed))
       case Raise => s.pushed < Count(job) && Q.Ready(s.queues[s.pushed], Q.RaiseOffset)
       case Return => !s.returned && s.pushed == Count(job) && s.signal == Count(job)
       case Pop(w, op) =>
         w < Count(job) && s.workers[w].Idle? && !op.PushBack? && !op.RaiseOffset? && Q.Ready(s.queues[w], op)
       case Begin(w) => w < Count(job) && s.workers[w].HasTask?
       case Stage(w) =>
         w < Count(job) && s.workers[w].Copying? && !s.workers[w].staged
         && s.workers[w].task < Count(job) && s.workers[w].total < job.sizes[s.workers[w].task]
       case Flush(w) =>
         w < Count(job) && s.workers[w].Copying? && s.workers[w].staged
         && s.workers[w].task < Count(job) && s.workers[w].total <= job.sizes[s.workers[w].task]
       case Finish(w) =>
         w < Count(job) && s.workers[w].Copying? && !s.workers[w].staged
         && s.workers[w].task < Count(job) && s.workers[w].total >= job.sizes[s.workers[w].task]
  }

  function StageRegion(job: Job, s: State, w: nat): seq<byte>
    requires Enabled(job, s, Stage(w))
  {
    var t, total := s.workers[w].task, s.workers[w].total;
    var n, from := ChunkSize(job, t, total), job.from + job.starts[t] + total;
    PoolInRegion(w, Count(job), |s.region|);
    Splice(s.region, PoolAddr(w), job.src[from..from + n])
  }

  function FlushDst(job: Job, s: State, w: nat): seq<byte>
    requires Enabled(job, s, Flush(w))
  {
    var t, total := s.workers[w].task, s.workers[w].total;
    var n := ChunkSize(job, t, total);
    PoolInRegion(w, Count(job), |s.region|);
    Splice(s.dst, job.to + job.starts[t] + total, s.region[PoolAddr(w)..PoolAddr(w) + n])
  }

  lemma PoolInRegion(w: nat, n: nat, length: nat)
    requires w < n && PoolAddr(n) <= length
    ensures PoolAddr(w) + POOL_SIZE <= length
  {
  }

  function Take(job: Job, s: State, step: Step): State
    requires Enabled(job, s, step)
  {
    match step
    case Append => s.(queues := s.queues[s.pushed := Q.After(s.queues[s.pushed], Q.PushBack(s.pushed))])
    case Raise =>
      s.(queues := s.queues[s.pushed := Q.After(s.queues[s.pushed], Q.RaiseOffset)], pushed := s.pushed + 1)
    case Return => s.(returned := true)
    case Pop(w, op) =>
      var popped := s.(queues := s.queues[w := Q.After(s.queues[w], op)]);
      if op.LowerOffset? then popped.(workers := s.workers[w := HasTask(s.queues[w].consumer.item)]) else popped
    case Begin(w) => s.(workers := s.workers[w := Copying(s.workers[w].task, 0, false)])
    case Stage(w) =>
      s.(region := StageRegion(job, s, w), workers := s.workers[w := s.workers[w].(staged := true)])
    case Flush(w) =>
      var k := s.workers[w];
      s.(dst := FlushDst(job, s, w),
         workers := s.workers[w := k.(total := k.total + ChunkSize(job, k.task, k.total), staged := false)])
    case Finish(w) => s.(workers := s.workers[w := Idle], done := s.done + {w}, signal := s.signal + 1)
  }

  // ----- what every interleaving keeps -----

  /** Worker w has no task yet, has its own task somewhere between queue and last chunk, or is done. */
  ghost predicate WorkerOk(job: Job, s: State, w: nat)
    requires w < Count(job) && Sized(job, s)
  {
    if w > s.pushed then Empty(s.queues[w]) && s.workers[w] == Idle && w !in s.done
    else if w == s.pushed then (Empty(s.queues[w]) || Appended(s.queues[w], w)) && s.workers[w] == Idle && w !in s.done
    else if Holding(s.queues[w], w) then s.workers[w] == Idle && w !in s.done
    else Empty(s.queues[w]) && match s.workers[w]
      case Idle => w in s.done
      case HasTask(t) => t == w && w !in s.done
      case Copying(t, total, staged) =>
        t == w && w !in s.done && total <= job.sizes[w] && (staged ==> total < job.sizes[w])
  }

  /** How many bytes of worker w's range have arrived. */
  function Arrived(job: Job, s: State, w: nat): nat
    requires w < Count(job) && Sized(job, s)
  {
    if w in s.done then job.sizes[w] else if s.workers[w].Copying? then s.workers[w].total else 0
  }

  /** n bytes of `a` from i on equal those of `b` from j on. */
  ghost predicate Same(a: seq<byte>, i: nat, b: seq<byte>, j: nat, n: nat) {
    i + n <= |a| && j + n <= |b| && forall k :: i <= k < i + n ==> a[k] == b[j + (k - i)]
  }

  ghost predicate ArrivedOk(job: Job, s: State, w: nat)
    requires JobOk(job, s) && w < Count(job) && Sized(job, s)
  {
    && Arrived(job, s, w) <= job.sizes[w]
    && Same(s.dst, job.to + job.starts[w], job.src, job.from + job.starts[w], Arrived(job, s, w))
  }

  ghost predicate StagedOk(job: Job, s: State, w: nat)
    requires JobOk(job, s) && w < Count(job) && Sized(job, s) && WorkerOk(job, s, w)
  {
    s.workers[w].Copying? && s.workers[w].staged ==>
      PoolAddr(w) + POOL_SIZE <= |s.region| &&
      Same(s.region, PoolAddr(w), job.src, job.from + job.starts[w] + s.workers[w].total,
           ChunkSize(job, w, s.workers[w].total))
  }

  /** Destination offset j lies in the range of some task. */
  ghost predicate InTask(job: Job, j: int) {
    exists w: nat :: w < Count(job) && w < |job.starts| && job.to + job.starts[w] <= j < job.to + job.starts[w] + job.sizes[w]
  }

  ghost predicate Untouched(job: Job, s: State, dst0: seq<byte>) {
    |s.dst| == |dst0| && forall j :: 0 <= j < |dst0| && !InTask(job, j) ==> s.dst[j] == dst0[j]
  }

  ghost predicate AllWorkersOk(job: Job, s: State)
    requires JobOk(job, s) && Sized(job, s)
  {
    forall w: nat :: w < Count(job) ==> WorkerOk(job, s, w) && ArrivedOk(job, s, w) && StagedOk(job, s, w)
  }

  ghost predicate Inv(job: Job, s: State, dst0: seq<byte>) {
    && JobOk(job, s) && Sized(job, s) && s.pushed <= Count(job)
    && (forall w :: w in s.done ==> w < Count(job)) && s.signal == |s.done|
    && AllWorkersOk(job, s)
    && Untouched(job, s, dst0)
    && (s.returned ==> s.pushed == Count(job) && s.signal == Count(job))
  }

  lemma StartInv(job: Job, s: State)
    requires Start(job, s)
    ensures Inv(job, s, s.dst)
  {
  }

  /** A worker for which nothing has changed but what others put into their queues. */
  lemma WorkerKept(job: Job, s: State, t: State, w: nat)
    requires JobOk(job, s) && Sized(job, s) && Sized(job, t) && w < Count(job)
    requires WorkerOk(job, s, w) && ArrivedOk(job, s, w) && StagedOk(job, s, w)
    requires t.workers[w] == s.workers[w] && (w in t.done <==> w in s.done) && t.region == s.region && t.dst == s.dst
    requires WorkerOk(job, t, w)
    ensures JobOk(job, t) && ArrivedOk(job, t, w) && StagedOk(job, t, w)
  {
    hide Same;
  }

  lemma PushStep(job: Job, s: State, step: Step, dst0: seq<byte>)
    requires Inv(job, s, dst0) && Enabled(job, s, step) && (step.Append? || step.Raise?)
    ensures Inv(job, Take(job, s, step), dst0)
  {
    var t := Take(job, s, step);
    AllDone(s.done, Count(job));
    forall w: nat | w < Count(job) ensures WorkerOk(job, t, w) && ArrivedOk(job, t, w) && StagedOk(job, t, w) {
      assert WorkerOk(job, s, w) && ArrivedOk(job, s, w) && StagedOk(job, s, w);
      hide ArrivedOk;
      hide StagedOk;
      WorkerKept(job, s, t, w);
    }
    hide WorkerOk;
    hide ArrivedOk;
    hide StagedOk;
  }

  lemma PopStep(job: Job, s: State, step: Step, dst0: seq<byte>)
    requires Inv(job, s, dst0) && Enabled(job, s, step) && step.Pop?
    ensures Inv(job, Take(job, s, step), dst0)
  {
    var t := Take(job, s, step);
    AllDone(s.done, Count(job));
    forall w: nat | w < Count(job) ensures WorkerOk(job, t, w) && ArrivedOk(job, t, w) && StagedOk(job, t, w) {
      assert WorkerOk(job, s, w) && ArrivedOk(job, s, w) && StagedOk(job, s, w);
      PopWorker(job, s, step, w);
    }
    hide WorkerOk;
    hide ArrivedOk;
    hide StagedOk;
  }

  lemma PopWorker(job: Job, s: State, step: Step, w: nat)
    requires JobOk(job, s) && AllSized(job, s) && Enabled(job, s, step) && step.Pop? && w < Count(job)
    requires WorkerOk(job, s, w) && ArrivedOk(job, s, w) && StagedOk(job, s, w)
    ensures var t := Take(job, s, step);
            JobOk(job, t) && WorkerOk(job, t, w) && ArrivedOk(job, t, w) && StagedOk(job, t, w)
  {
    hide Same;
    var t := Take(job, s, step);
    if w == step.w {
      assert step.op.LowerOffset? ==> Empty(t.queues[w]);
    }
    SameNothing(s.dst, job.to + job.starts[w], job.src, job.from + job.starts[w]);
  }

  lemma TaskStep(job: Job, s: State, step: Step, dst0: seq<byte>)
    requires Inv(job, s, dst0) && Enabled(job, s, step) && (step.Begin? || step.Finish? || step.Return?)
    ensures Inv(job, Take(job, s, step), dst0)
  {
    var t := Take(job, s, step);
    AllDone(s.done, Count(job));
    if step.Finish? {
      assert WorkerOk(job, s, step.w);
    }
    forall w: nat | w < Count(job) ensures WorkerOk(job, t, w) && ArrivedOk(job, t, w) && StagedOk(job, t, w) {
      assert WorkerOk(job, s, w) && ArrivedOk(job, s, w) && StagedOk(job, s, w);
      TaskWorker(job, s, step, w);
    }
    hide ArrivedOk;
    hide StagedOk;
  }

  lemma TaskWorker(job: Job, s: State, step: Step, w: nat)
    requires JobOk(job, s) && AllSized(job, s) && Enabled(job, s, step) && (step.Begin? || step.Finish? || step.Return?)
    requires w < Count(job) && WorkerOk(job, s, w) && ArrivedOk(job, s, w) && StagedOk(job, s, w)
    ensures var t := Take(job, s, step);
            JobOk(job, t) && WorkerOk(job, t, w) && ArrivedOk(job, t, w) && StagedOk(job, t, w)
  {
    hide Same;
    hide Empty;
    hide Holding;
    SameNothing(s.dst, job.to + job.starts[w], job.src, job.from + job.starts[w]);
  }

  lemma SameNothing(a: seq<byte>, i: nat, b: seq<byte>, j: nat)
    requires i <= |a| && j <= |b|
    ensures Same(a, i, b, j, 0)
  {
  }

  /** Distinct workers, as many as there are, are all of them. */
  lemma {:induction false} AllDone(done: set<nat>, n: nat)
    requires forall w :: w in done ==> w < n
    ensures |done| <= n
    ensures |done| == n ==> forall w: nat :: w < n ==> w in done
    decreases n
  {
    if n > 0 {
      AllDone(done - {n - 1}, n - 1);
      if n - 1 in done {
        assert |done - {n - 1}| == |done| - 1;
        if |done| == n {
          forall w: nat | w < n ensures w in done {
            assert w == n - 1 || w in done - {n - 1};
          }
        }
      } else {
        assert done - {n - 1} == done;
      }
    } else {
      assert done == {};
    }
  }

  /** A splice keeps what it does not overlap, and extends what it follows. */
  lemma SpliceSame(a: seq<byte>, at: nat, data: seq<byte>, i: nat, b: seq<byte>, j: nat, n: nat)
    requires at + |data| <= |a| && Same(a, i, b, j, n)
    ensures i + n <= at || at + |data| <= i ==> Same(Splice(a, at, data), i, b, j, n)
    ensures i + n == at && j + n + |data| <= |b| && data == b[j + n..j + n + |data|] ==>
              Same(Splice(a, at, data), i, b, j, n + |data|)
  {
  }

  lemma SameSlice(a: seq<byte>, i: nat, b: seq<byte>, j: nat, n: nat)
    requires i + n <= |a| && j + n <= |b|
    ensures Same(a, i, b, j, n) <==> a[i..i + n] == b[j..j + n]
  {
    var x, y := a[i..i + n], b[j..j + n];
    if x == y {
      forall k | i <= k < i + n ensures a[k] == b[j + (k - i)] {
        assert x[k - i] == y[k - i];
      }
    }
    if Same(a, i, b, j, n) {
      forall k | 0 <= k < n ensures x[k] == y[k] {
        assert a[i + k] == b[j + (i + k - i)];
      }
    }
  }

  /** The staging worker's bounce buffer then holds the next chunk of its range. */
  lemma StageOwn(job: Job, s: State, w: nat)
    requires JobOk(job, s) && AllSized(job, s) && Enabled(job, s, Stage(w)) && WorkerOk(job, s, w)
    ensures var t := Take(job, s, Stage(w)); JobOk(job, t) && WorkerOk(job, t, w) && StagedOk(job, t, w)
  {
    hide Same;
    hide Splice;
    hide Empty;
    hide Appended;
    hide Holding;
    var total := s.workers[w].total;
    PoolInRegion(w, Count(job), |s.region|);
    var n, from := ChunkSize(job, w, total), job.from + job.starts[w] + total;
    SameNothing(s.region, PoolAddr(w), job.src, from);
    SpliceSame(s.region, PoolAddr(w), job.src[from..from + n], PoolAddr(w), job.src, from, 0);
  }

  /** The others' bounce buffers keep their chunks. */
  lemma StageOther(job: Job, s: State, w: nat, v: nat)
    requires JobOk(job, s) && AllSized(job, s) && Enabled(job, s, Stage(w)) && v < Count(job) && v != w
    requires WorkerOk(job, s, v) && StagedOk(job, s, v)
    ensures var t := Take(job, s, Stage(w)); JobOk(job, t) && WorkerOk(job, t, v) && StagedOk(job, t, v)
  {
    hide Same;
    hide Splice;
    hide Empty;
    hide Appended;
    hide Holding;
    if s.workers[v].Copying? && s.workers[v].staged {
      var task, total := s.workers[w].task, s.workers[w].total;
      PoolInRegion(w, Count(job), |s.region|);
      var n, from := ChunkSize(job, task, total), job.from + job.starts[task] + total;
      PoolsDisjoint(v, w);
      SpliceSame(s.region, PoolAddr(w), job.src[from..from + n], PoolAddr(v), job.src,
                 job.from + job.starts[v] + s.workers[v].total, ChunkSize(job, v, s.workers[v].total));
    }
  }

  lemma StageArrived(job: Job, s: State, w: nat, v: nat)
    requires JobOk(job, s) && Sized(job, s) && Enabled(job, s, Stage(w)) && v < Count(job) && ArrivedOk(job, s, v)
    ensures JobOk(job, Take(job, s, Stage(w))) && ArrivedOk(job, Take(job, s, Stage(w)), v)
  {
    hide Same;
  }

  lemma StageWorker(job: Job, s: State, w: nat, v: nat)
    requires JobOk(job, s) && AllSized(job, s) && Enabled(job, s, Stage(w)) && v < Count(job)
    requires WorkerOk(job, s, v) && ArrivedOk(job, s, v) && StagedOk(job, s, v)
    ensures var t := Take(job, s, Stage(w));
            JobOk(job, t) && WorkerOk(job, t, v) && ArrivedOk(job, t, v) && StagedOk(job, t, v)
  {
    hide WorkerOk;
    hide ArrivedOk;
    hide StagedOk;
    hide StageRegion;
    StageArrived(job, s, w, v);
    if v == w {
      StageOwn(job, s, w);
    } else {
      StageOther(job, s, w, v);
    }
  }

  ghost predicate AllSized(job: Job, s: State) {
    Sized(job, s) && s.pushed <= Count(job)
  }

  lemma RangesApart(job: Job, s: State, v: nat, w: nat)
    requires JobOk(job, s) && v < Count(job) && w < Count(job) && v != w
    ensures job.starts[v] + job.sizes[v] <= job.starts[w] || job.starts[w] + job.sizes[w] <= job.starts[v]
  {
    assert v < w || w < v;
  }

  lemma FlushWorker(job: Job, s: State, w: nat, v: nat)
    requires JobOk(job, s) && AllSized(job, s) && Enabled(job, s, Flush(w)) && v < Count(job)
    requires WorkerOk(job, s, w) && StagedOk(job, s, w)
    requires WorkerOk(job, s, v) && ArrivedOk(job, s, v) && StagedOk(job, s, v)
    ensures var t := Take(job, s, Flush(w));
            JobOk(job, t) && WorkerOk(job, t, v) && ArrivedOk(job, t, v) && StagedOk(job, t, v)
  {
    hide Splice;
    hide Same;
    hide Empty;
    hide Appended;
    hide Holding;
    var t, total := Take(job, s, Flush(w)), s.workers[w].total;
    var n := ChunkSize(job, w, total);
    var data, at := s.region[PoolAddr(w)..PoolAddr(w) + n], job.to + job.starts[w] + total;
    SameSlice(s.region, PoolAddr(w), job.src, job.from + job.starts[w] + total, n);
    if v != w {
      RangesApart(job, s, v, w);
    }
    SpliceSame(s.dst, at, data, job.to + job.starts[v], job.src, job.from + job.starts[v], Arrived(job, s, v));
  }

  lemma StageStep(job: Job, s: State, w: nat, dst0: seq<byte>)
    requires Inv(job, s, dst0) && Enabled(job, s, Stage(w))
    ensures Inv(job, Take(job, s, Stage(w)), dst0)
  {
    var t := Take(job, s, Stage(w));
    assert WorkerOk(job, s, w);
    AllDone(s.done, Count(job));
    hide Same;
    forall v: nat | v < Count(job) ensures JobOk(job, t) && WorkerOk(job, t, v) && ArrivedOk(job, t, v) && StagedOk(job, t, v) {
      StageWorker(job, s, w, v);
    }
  }

  lemma FlushUntouched(job: Job, s: State, w: nat, dst0: seq<byte>)
    requires JobOk(job, s) && AllSized(job, s) && Enabled(job, s, Flush(w)) && WorkerOk(job, s, w) && Untouched(job, s, dst0)
    ensures Untouched(job, Take(job, s, Flush(w)), dst0)
  {
    var t := Take(job, s, Flush(w));
    forall j | 0 <= j < |dst0| && !InTask(job, j) ensures t.dst[j] == dst0[j] {
      assert !(job.to + job.starts[w] <= j < job.to + job.starts[w] + job.sizes[w]);
    }
  }

  lemma FlushStep(job: Job, s: State, w: nat, dst0: seq<byte>)
    requires Inv(job, s, dst0) && Enabled(job, s, Flush(w))
    ensures Inv(job, Take(job, s, Flush(w)), dst0)
  {
    var t := Take(job, s, Flush(w));
    assert WorkerOk(job, s, w) && StagedOk(job, s, w);
    AllDone(s.done, Count(job));
    FlushUntouched(job, s, w, dst0);
    hide Same;
    hide Untouched;
    forall v: nat | v < Count(job) ensures JobOk(job, t) && WorkerOk(job, t, v) && ArrivedOk(job, t, v) && StagedOk(job, t, v) {
      FlushWorker(job, s, w, v);
    }
  }

  lemma StepInv(job: Job, s: State, step: Step, dst0: seq<byte>)
    requires Inv(job, s, dst0) && Enabled(job, s, step)
    ensures Inv(job, Take(job, s, step), dst0)
  {
    hide Inv;
    hide Enabled;
    hide Take;
    match step
    case Stage(w) => StageStep(job, s, w, dst0);
    case Flush(w) => FlushStep(job, s, w, dst0);
    case Append => PushStep(job, s, step, dst0);
    case Raise => PushStep(job, s, step, dst0);
    case Pop(_, _) => PopStep(job, s, step, dst0);
    case _ => TaskStep(job, s, step, dst0);
  }

  // ----- whole runs -----

  /** A run of steps in any order the queues and workers allow. */
  ghost predicate Run(job: Job, states: seq<State>, steps: seq<Step>) {
    && |states| == |steps| + 1 && Start(job, states[0])
    && forall k :: 0 <= k < |steps| ==> Enabled(job, states[k], steps[k]) && states[k + 1] == Take(job, states[k], steps[k])
  }

  lemma {:induction false} RunInv(job: Job, states: seq<State>, steps: seq<Step>, k: nat)
    requires Run(job, states, steps) && k <= |steps|
    ensures Inv(job, states[k], states[0].dst)
    decreases k
  {
    hide Inv;
    hide Enabled;
    hide Take;
    hide Start;
    if k == 0 {
      StartInv(job, states[0]);
    } else {
      RunInv(job, states, steps, k - 1);
      StepInv(job, states[k - 1], steps[k - 1], states[0].dst);
    }
  }

  /** One after the other: the ranges of the first n tasks copied in order. */
  function Sequential(job: Job, dst: seq<byte>, n: nat): (r: seq<byte>)
    requires n <= |job.starts| == |job.sizes|
    requires forall w :: 0 <= w < n ==> job.from + job.starts[w] + job.sizes[w] <= |job.src|
    requires forall w :: 0 <= w < n ==> job.to + job.starts[w] + job.sizes[w] <= |dst|
    ensures |r| == |dst|
    decreases n
  {
    if n == 0 then dst else
      var from := job.from + job.starts[n - 1];
      Splice(Sequential(job, dst, n - 1), job.to + job.starts[n - 1], job.src[from..from + job.sizes[n - 1]])
  }

  ghost predicate InTaskBelow(job: Job, j: int, n: nat) {
    exists w: nat :: w < n && w < |job.starts| == |job.sizes| && job.to + job.starts[w] <= j < job.to + job.starts[w] + job.sizes[w]
  }

  lemma {:induction false} SequentialAt(job: Job, dst: seq<byte>, n: nat, j: nat)
    requires n <= |job.starts| == |job.sizes| && j < |dst|
    requires forall w :: 0 <= w < n ==> job.from + job.starts[w] + job.sizes[w] <= |job.src|
    requires forall w :: 0 <= w < n ==> job.to + job.starts[w] + job.sizes[w] <= |dst|
    ensures InTaskBelow(job, j, n) ==> 0 <= job.from + (j - job.to) < |job.src|
    ensures Sequential(job, dst, n)[j] == if InTaskBelow(job, j, n) then job.src[job.from + (j - job.to)] else dst[j]
    decreases n
  {
    if n > 0 {
      SequentialAt(job, dst, n - 1, j);
      if job.to + job.starts[n - 1] <= j < job.to + job.starts[n - 1] + job.sizes[n - 1] {
        assert InTaskBelow(job, j, n);
      } else if InTaskBelow(job, j, n) {
        assert InTaskBelow(job, j, n - 1);
      } else {
        assert !InTaskBelow(job, j, n - 1);
      }
    }
  }

  /** When the caller's spin has ended, every task is done, the destination is what copying the task
      ranges one after the other makes of it, no worker holds or will find a pointer to the caller's
      tasks, and the next transfer can start. */
  lemma Returned(job: Job, s: State, dst0: seq<byte>)
    requires Inv(job, s, dst0) && s.returned
    ensures |dst0| == |s.dst| && s.dst == Sequential(job, dst0, Count(job))
    ensures Quiet(s, Count(job)) && forall w: nat :: w < Count(job) ==> w in s.done
  {
    AllDone(s.done, Count(job));
    forall w: nat | w < Count(job) ensures Empty(s.queues[w]) && s.workers[w] == Idle {
      assert WorkerOk(job, s, w);
    }
    forall j: nat | j < |dst0| ensures s.dst[j] == Sequential(job, dst0, Count(job))[j] {
      ReturnedAt(job, s, dst0, j);
    }
  }

  lemma ReturnedAt(job: Job, s: State, dst0: seq<byte>, j: nat)
    requires Inv(job, s, dst0) && j < |dst0| && forall w: nat :: w < Count(job) ==> w in s.done
    ensures s.dst[j] == Sequential(job, dst0, Count(job))[j]
  {
    InvParts(job, s, dst0);
    SequentialAt(job, dst0, Count(job), j);
    if InTaskBelow(job, j, Count(job)) {
      var w: nat :| w < Count(job) && job.to + job.starts[w] <= j < job.to + job.starts[w] + job.sizes[w];
      DoneArrived(job, s, dst0, w);
      hide Inv;
    } else {
      assert !InTask(job, j);
      hide Inv;
    }
  }

  lemma InvParts(job: Job, s: State, dst0: seq<byte>)
    requires Inv(job, s, dst0)
    ensures JobOk(job, s) && Untouched(job, s, dst0)
  {
  }

  lemma DoneArrived(job: Job, s: State, dst0: seq<byte>, w: nat)
    requires Inv(job, s, dst0) && w < Count(job) && w in s.done
    ensures Same(s.dst, job.to + job.starts[w], job.src, job.from + job.starts[w], job.sizes[w])
  {
    hide Same;
    assert ArrivedOk(job, s, w);
  }

  /** Any two interleavings of the same transfer that return end with the same destination. */
  lemma InterleavingsAgree(job: Job, a: seq<State>, x: seq<Step>, b: seq<State>, y: seq<Step>)
    requires Run(job, a, x) && Run(job, b, y) && a[0].dst == b[0].dst
    requires a[|x|].returned && b[|y|].returned
    ensures a[|x|].dst == b[|y|].dst == Sequential(job, a[0].dst, Count(job))
  {
    RunInv(job, a, x, |x|);
    RunInv(job, b, y, |y|);
    hide Inv;
    Returned(job, a[|x|], a[0].dst);
    Returned(job, b[|y|], b[0].dst);
  }

  /** The part of a pop that comes next. */
  function NextPop(q: Q.State<nat>): Q.Step<nat> {
    match q.consumer
    case Polling => Q.SeeNonZero
    case SawItem => Q.ReadFront
    case Read(_) => Q.EraseFront
    case MidPop(_) => Q.LowerOffset
  }

  /** Until the caller's spin ends, some step is possible. */
  lemma NeverStuck(job: Job, s: State, dst0: seq<byte>) returns (step: Step)
    requires Inv(job, s, dst0) && !s.returned
    ensures Enabled(job, s, step)
  {
    hide Same;
    if s.pushed < Count(job) {
      assert WorkerOk(job, s, s.pushed);
      step := if s.queues[s.pushed].producer.MidPush? then Raise else Append;
    } else if s.signal == Count(job) {
      step := Return;
    } else {
      var w := SomeNotDone(s.done, Count(job));
      assert WorkerOk(job, s, w);
      if Holding(s.queues[w], w) {
        step := Pop(w, NextPop(s.queues[w]));
      } else {
        match s.workers[w]
        case HasTask(_) => step := Begin(w);
        case Copying(_, total, staged) =>
          step := if staged then Flush(w) else if total < job.sizes[w] then Stage(w) else Finish(w);
      }
    }
  }

  lemma {:induction false} SomeNotDone(done: set<nat>, n: nat) returns (w: nat)
    requires |done| != n && forall v :: v in done ==> v < n
    ensures w < n && w !in done
    decreases n
  {
    AllDone(done, n);
    if n - 1 !in done {
      w := n - 1;
    } else {
      assert |done - {n - 1}| == |done| - 1;
      w := SomeNotDone(done - {n - 1}, n - 1);
    }
  }

  function PopLeft(q: Q.State<nat>): nat {
    match q.consumer
    case Polling => 7
    case SawItem => 6
    case Read(_) => 5
    case MidPop(_) => 4
  }

  /** What worker w still has to do. */
  function Left(job: Job, s: State, w: nat): nat
    requires w < Count(job) && Sized(job, s)
  {
    if w in s.done then 0
    else if w >= s.pushed then 2 * job.sizes[w] + if s.queues[w].producer.MidPush? then 8 else 9
    else if s.queues[w].offset != 0 then 2 * job.sizes[w] + PopLeft(s.queues[w])
    else match s.workers[w]
      case Idle => 0
      case HasTask(_) => 2 * job.sizes[w] + 3
      case Copying(_, total, staged) =>
        if total > job.sizes[w] then 0 else 2 * (job.sizes[w] - total) + if staged then 1 else 2
  }

  function LeftSum(job: Job, s: State, n: nat): nat
    requires n <= Count(job) && Sized(job, s)
    decreases n
  {
    if n == 0 then 0 else LeftSum(job, s, n - 1) + Left(job, s, n - 1)
  }

  /** Each step lowers the work left, so every run that goes on ends the caller's spin. */
  function Rank(job: Job, s: State): nat
    requires Sized(job, s)
  {
    LeftSum(job, s, Count(job)) + if s.returned then 0 else 1
  }

  lemma {:induction false} LeftSumDrops(job: Job, s: State, t: State, n: nat, w: nat)
    requires n <= Count(job) && Sized(job, s) && Sized(job, t) && w < Count(job)
    requires Left(job, t, w) < Left(job, s, w)
    requires forall v: nat :: v < Count(job) && v != w ==> Left(job, t, v) == Left(job, s, v)
    ensures LeftSum(job, t, n) <= LeftSum(job, s, n) && (w < n ==> LeftSum(job, t, n) < LeftSum(job, s, n))
    decreases n
  {
    if n > 0 {
      hide Left;
      LeftSumDrops(job, s, t, n - 1, w);
    }
  }

  function Actor(s: State, step: Step): nat {
    match step
    case Append => s.pushed
    case Raise => s.pushed
    case Return => 0
    case Pop(w, _) => w
    case Begin(w) => w
    case Stage(w) => w
    case Flush(w) => w
    case Finish(w) => w
  }

  lemma QueueStepLowers(job: Job, s: State, step: Step)
    requires AllSized(job, s) && Enabled(job, s, step) && (step.Append? || step.Raise? || step.Pop?)
    requires Actor(s, step) < Count(job) && WorkerOk(job, s, Actor(s, step))
    ensures Left(job, Take(job, s, step), Actor(s, step)) < Left(job, s, Actor(s, step))
  {
  }

  lemma CopyStepLowers(job: Job, s: State, step: Step)
    requires AllSized(job, s) && Enabled(job, s, step) && (step.Begin? || step.Stage? || step.Flush? || step.Finish?)
    requires Actor(s, step) < Count(job) && WorkerOk(job, s, Actor(s, step))
    ensures Left(job, Take(job, s, step), Actor(s, step)) < Left(job, s, Actor(s, step))
  {
    hide StageRegion;
    hide FlushDst;
    hide PopLeft;
  }

  lemma ActorOk(job: Job, s: State, step: Step, dst0: seq<byte>)
    requires Inv(job, s, dst0) && Enabled(job, s, step) && !step.Return?
    ensures AllSized(job, s) && Actor(s, step) < Count(job) && WorkerOk(job, s, Actor(s, step))
  {
    hide WorkerOk;
  }

  lemma StepLowersLeft(job: Job, s: State, step: Step, dst0: seq<byte>)
    requires Inv(job, s, dst0) && Enabled(job, s, step) && !step.Return?
    ensures Actor(s, step) < Count(job) && Left(job, Take(job, s, step), Actor(s, step)) < Left(job, s, Actor(s, step))
    ensures forall v: nat :: v < Count(job) && v != Actor(s, step) ==> Left(job, Take(job, s, step), v) == Left(job, s, v)
  {
    ActorOk(job, s, step, dst0);
    hide Inv;
    hide WorkerOk;
    hide Left;
    OthersLeft(job, s, step);
    if step.Append? || step.Raise? || step.Pop? {
      QueueStepLowers(job, s, step);
    } else {
      CopyStepLowers(job, s, step);
    }
  }

  /** A step leaves the work of all workers but one as it is. */
  lemma OthersLeft(job: Job, s: State, step: Step)
    requires Enabled(job, s, step) && s.pushed <= Count(job)
    ensures forall v: nat :: v < Count(job) && v != Actor(s, step) ==> Left(job, Take(job, s, step), v) == Left(job, s, v)
  {
    hide StageRegion;
    hide FlushDst;
  }

  lemma {:induction false} SameLeftSum(job: Job, s: State, t: State, n: nat)
    requires n <= Count(job) && Sized(job, s) && t == s.(returned := t.returned)
    ensures LeftSum(job, t, n) == LeftSum(job, s, n)
    decreases n
  {
    if n > 0 {
      SameLeftSum(job, s, t, n - 1);
    }
  }

  lemma StepLowersRank(job: Job, s: State, step: Step, dst0: seq<byte>)
    requires Inv(job, s, dst0) && Enabled(job, s, step)
    ensures Sized(job, Take(job, s, step)) && Rank(job, Take(job, s, step)) < Rank(job, s)
  {
    var t := Take(job, s, step);
    if step.Return? {
      SameLeftSum(job, s, t, Count(job));
    } else {
      StepLowersLeft(job, s, step, dst0);
      hide Left;
      hide Inv;
      LeftSumDrops(job, s, t, Count(job), Actor(s, step));
    }
  }

  // ----- the split of RemoteRead and RemoteWrite -----

  function SplitJob(src: seq<byte>, from: nat, to: nat, size: nat, workers: nat): (job: Job)
    requires 1 <= workers <= MAX_TASKS
    ensures Count(job) == workers == |job.starts|
    ensures forall i: nat :: i < workers ==> job.starts[i] == TaskStart(size, workers, i) && job.sizes[i] == TaskSize(size, workers, i)
  {
    TasksTile(size, workers);
    Job(src, from, to,
        seq(workers, i requires 0 <= i < workers => TaskStart(size, workers, i)),
        seq(workers, i requires 0 <= i < workers => TaskSize(size, workers, i) as nat))
  }

  ghost predicate RangesFit(job: Job, length: nat, n: nat) {
    && n <= |job.starts| == |job.sizes|
    && (forall w :: 0 <= w < n ==> job.from + job.starts[w] + job.sizes[w] <= |job.src|)
    && (forall w :: 0 <= w < n ==> job.to + job.starts[w] + job.sizes[w] <= length)
  }

  /** The first n tasks copy the first `end` bytes. */
  ghost predicate CopiesPrefix(job: Job, dst: seq<byte>, n: nat, end: nat) {
    && RangesFit(job, |dst|, n) && job.from + end <= |job.src| && job.to + end <= |dst|
    && Sequential(job, dst, n) == Splice(dst, job.to, job.src[job.from..job.from + end])
  }

  lemma CopiesNothing(job: Job, dst: seq<byte>)
    requires RangesFit(job, |dst|, 0) && job.from <= |job.src| && job.to <= |dst|
    ensures CopiesPrefix(job, dst, 0, 0)
  {
    assert Splice(dst, job.to, job.src[job.from..job.from]) == dst;
  }

  lemma PrefixParts(src: seq<byte>, from: nat, end: nat, share: nat)
    requires from + end + share <= |src|
    ensures var data := src[from..from + (end + share)];
            && data[..end] == src[from..from + end] && data[end..end + share] == src[from + end..from + end + share]
            && data[..end + share] == data
  {
  }

  lemma CopiesOneMore(job: Job, dst: seq<byte>, n: nat, end: nat)
    requires n > 0 && RangesFit(job, |dst|, n) && CopiesPrefix(job, dst, n - 1, end) && job.starts[n - 1] == end
    ensures CopiesPrefix(job, dst, n, end + job.sizes[n - 1])
  {
    hide Splice;
    var share := job.sizes[n - 1];
    PrefixParts(job.src, job.from, end, share);
    SpliceExtends(dst, job.to, job.src[job.from..job.from + (end + share)], end, share);
  }

  lemma {:induction false} SequentialTiles(job: Job, dst: seq<byte>, size: nat, workers: nat, n: nat)
    requires 1 <= workers <= MAX_TASKS && n <= workers
    requires job == SplitJob(job.src, job.from, job.to, size, workers) && RangesFit(job, |dst|, workers)
    requires job.from <= |job.src| && job.to <= |dst|
    ensures CopiesPrefix(job, dst, n, TasksEnd(size, workers, n))
    decreases n
  {
    hide CopiesPrefix;
    hide TasksCover;
    hide TaskStart;
    hide TaskSize;
    hide TasksEnd;
    if n == 0 {
      CopiesNothing(job, dst);
    } else {
      SequentialTiles(job, dst, size, workers, n - 1);
      TaskInside(size, workers, n - 1);
      CopiesOneMore(job, dst, n, TasksEnd(size, workers, n - 1));
    }
  }

  lemma SplitRangesFit(job: Job, size: nat, workers: nat, w: nat)
    requires 1 <= workers <= MAX_TASKS && job == SplitJob(job.src, job.from, job.to, size, workers) && w < workers
    ensures job.starts[w] + job.sizes[w] <= TasksCover(size, workers) <= size
  {
    TasksTile(size, workers);
    TaskInside(size, workers, w);
  }

  lemma CopiesCovered(job: Job, dst: seq<byte>, size: nat, workers: nat)
    requires 1 <= workers <= MAX_TASKS && job == SplitJob(job.src, job.from, job.to, size, workers)
    requires job.from + size <= |job.src| && job.to + size <= |dst|
    ensures TasksCover(size, workers) <= size && RangesFit(job, |dst|, workers)
    ensures Sequential(job, dst, workers) == Splice(dst, job.to, job.src[job.from..job.from + TasksCover(size, workers)])
  {
    hide TasksCover;
    hide TaskStart;
    hide TaskSize;
    forall w: nat | w < workers ensures job.starts[w] + job.sizes[w] <= TasksCover(size, workers) <= size {
      SplitRangesFit(job, size, workers, w);
    }
    assert job.starts[0] + job.sizes[0] <= TasksCover(size, workers) <= size;
    SequentialTiles(job, dst, size, workers, workers);
  }

  /** However the workers interleave, a large transfer that returns has copied exactly the bytes that
      the tasks cover: with two workers all but the last size mod 8192. */
  lemma LargeTransfer(job: Job, size: nat, workers: nat, states: seq<State>, steps: seq<Step>)
    requires 1 <= workers <= MAX_TASKS && job == SplitJob(job.src, job.from, job.to, size, workers)
    requires Run(job, states, steps) && states[|steps|].returned
    requires job.from + size <= |job.src| && job.to + size <= |states[0].dst|
    ensures TasksCover(size, workers) <= size
    ensures states[|steps|].dst
            == Splice(states[0].dst, job.to, job.src[job.from..job.from + TasksCover(size, workers)])
  {
    RunInv(job, states, steps, |steps|);
    Returned(job, states[|steps|], states[0].dst);
    hide *;
    CopiesCovered(job, states[0].dst, size, workers);
  }
}
