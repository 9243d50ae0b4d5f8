/** include/queue.h: the counter-guarded FIFO between one caller and one worker. */
module PollingQueues {
  /** The producer appends an item and then raises `offset`; the consumer waits for a nonzero
      `offset`, reads the front, erases it and then lowers `offset`. */
  datatype Producer = Resting | MidPush
  datatype Consumer<T> = Polling | SawItem | Read(item: T) | MidPop(item: T)

  /** `pushed` and `popped` record the history of complete appends and returned items. */
  datatype State<T> = State(
    queue: seq<T>, offset: nat, producer: Producer, consumer: Consumer<T>, pushed: seq<T>, popped: seq<T>)

  datatype Step<T> = PushBack(item: T) | RaiseOffset | SeeNonZero | ReadFront | EraseFront | LowerOffset

  const UINT8: int := 0x100

  /** The step can be taken now; the spin on a zero `offset` and an access to an empty vector cannot. */
  predicate Ready<T>(s: State<T>, step: Step<T>) {
    match step
    case PushBack(_) => s.producer.Resting?
    case RaiseOffset => s.producer.MidPush?
    case SeeNonZero => s.consumer.Polling? && s.offset != 0
    case ReadFront => s.consumer.SawItem? && |s.queue| > 0
    case EraseFront => s.consumer.Read? && |s.queue| > 0
    case LowerOffset => s.consumer.MidPop?
  }

  function After<T>(s: State<T>, step: Step<T>): State<T>
    requires Ready(s, step)
  {
    match step
    case PushBack(item) => s.(queue := s.queue + [item], producer := MidPush, pushed := s.pushed + [item])
    case RaiseOffset => s.(offset := (s.offset + 1) % UINT8, producer := Resting)
    case SeeNonZero => s.(consumer := SawItem)
    case ReadFront => s.(consumer := Consumer.Read(s.queue[0]))
    case EraseFront =>
      s.(queue := s.queue[1..], consumer := MidPop(s.consumer.item), popped := s.popped + [s.consumer.item])
    case LowerOffset => s.(offset := (s.offset - 1) % UINT8, consumer := Polling)
  }

  ghost predicate Next<T(!new)>(s: State<T>, step: Step<T>, t: State<T>) {
    Ready(s, step) && t == After(s, step)
  }

  ghost predicate Start<T>(s: State<T>) {
    s.queue == [] && s.offset == 0 && s.producer.Resting? && s.consumer.Polling? && s.pushed == [] && s.popped == []
  }

  /** Items whose push is complete and whose pop is not. */
  function Pending<T>(s: State<T>): int {
    |s.queue| - (if s.producer.MidPush? then 1 else 0) + (if s.consumer.MidPop? then 1 else 0)
  }

  /** Popped items followed by queued ones are the pushed ones; `offset` counts the pending items in
      a byte; once the consumer has seen an item the queue holds it until it is erased. */
  ghost predicate Inv<T>(s: State<T>) {
    && s.pushed == s.popped + s.queue
    && s.offset == Pending(s) % UINT8
    && Pending(s) >= (if s.consumer.Polling? then 0 else 1)
    && (s.consumer.SawItem? || s.consumer.Read? ==> s.queue != [])
    && (s.consumer.Read? ==> s.queue[0] == s.consumer.item)
  }

  lemma StepInv<T(!new)>(s: State<T>, step: Step<T>, t: State<T>)
    requires Inv(s) && Next(s, step, t)
    ensures Inv(t)
  {
    match step
    case PushBack(item) =>
      assert s.popped + (s.queue + [item]) == (s.popped + s.queue) + [item];
    case EraseFront =>
      assert s.queue == [s.queue[0]] + s.queue[1..];
      assert s.popped + ([s.queue[0]] + s.queue[1..]) == (s.popped + [s.queue[0]]) + s.queue[1..];
    case RaiseOffset =>
      CountUp(Pending(s));
    case LowerOffset =>
      CountDown(Pending(s));
    case _ =>
  }

  lemma CountUp(n: int)
    ensures (n % UINT8 + 1) % UINT8 == (n + 1) % UINT8
  {
  }

  lemma CountDown(n: int)
    ensures (n % UINT8 - 1) % UINT8 == (n - 1) % UINT8
  {
  }

  ghost predicate Run<T(!new)>(states: seq<State<T>>, steps: seq<Step<T>>) {
    && |states| == |steps| + 1 && Start(states[0])
    && forall k :: 0 <= k < |steps| ==> Next(states[k], steps[k], states[k + 1])
  }

  lemma {:induction false} RunInv<T(!new)>(states: seq<State<T>>, steps: seq<Step<T>>, k: nat)
    requires Run(states, steps) && k <= |steps|
    ensures Inv(states[k])
    decreases k
  {
    if k > 0 {
      RunInv(states, steps, k - 1);
      StepInv(states[k - 1], steps[k - 1], states[k]);
    }
  }

  /** In every interleaving of one producer and one consumer the popped sequence is a prefix of the
      pushed one, the vector is never read or erased while empty, and |queue| is `offset` modulo 256 up
      to the push and the pop under way. This holds for any number of pending items. */
  lemma FifoSafety<T(!new)>(states: seq<State<T>>, steps: seq<Step<T>>, k: nat)
    requires Run(states, steps) && k <= |steps|
    ensures var s := states[k];
            && s.popped <= s.pushed
            && (s.consumer.SawItem? || s.consumer.Read? ==> s.queue != [])
            && s.offset == Pending(s) % UINT8
  {
    RunInv(states, steps, k);
  }

  /** A waiting consumer keeps waiting exactly when the number of pending items is a multiple of 256;
      with fewer than 256 pending items, exactly when there is none. */
  lemma WaitsIff<T(!new)>(states: seq<State<T>>, steps: seq<Step<T>>, k: nat, t: State<T>)
    requires Run(states, steps) && k <= |steps| && states[k].consumer.Polling? && t == states[k].(consumer := SawItem)
    ensures !Next(states[k], SeeNonZero, t) <==> Pending(states[k]) % UINT8 == 0
    ensures Pending(states[k]) < UINT8 ==> (!Next(states[k], SeeNonZero, t) <==> Pending(states[k]) == 0)
  {
    RunInv(states, steps, k);
  }

  lemma Extend<T(!new)>(states: seq<State<T>>, steps: seq<Step<T>>, step: Step<T>, t: State<T>)
    returns (states': seq<State<T>>, steps': seq<Step<T>>)
    requires Run(states, steps) && Next(states[|steps|], step, t)
    ensures Run(states', steps') && states'[|steps'|] == t
  {
    states', steps' := states + [t], steps + [step];
  }

  /** n pushes before the first pop. */
  lemma {:induction false} Pushes<T(!new)>(item: T, n: nat) returns (states: seq<State<T>>, steps: seq<Step<T>>)
    ensures Run(states, steps)
    ensures var s := states[|steps|];
            |s.queue| == n && s.offset == n % UINT8 && s.producer.Resting? && s.consumer.Polling?
    decreases n
  {
    if n == 0 {
      states, steps := [State([], 0, Resting, Polling, [], [])], [];
    } else {
      states, steps := Pushes(item, n - 1);
      var s := states[|steps|];
      hide Run;
      var t := s.(queue := s.queue + [item], producer := MidPush, pushed := s.pushed + [item]);
      states, steps := Extend(states, steps, PushBack(item), t);
      states, steps := Extend(states, steps, RaiseOffset, t.(offset := (t.offset + 1) % UINT8, producer := Resting));
      CountUp(n - 1);
    }
  }

  /** The bound on pending items is needed: after 256 pushes the consumer does not see any of them. */
  lemma Overlooked<T(!new)>(item: T) returns (states: seq<State<T>>, steps: seq<Step<T>>)
    ensures Run(states, steps)
    ensures var s := states[|steps|]; s.offset == 0 && |s.queue| == 256 && s.consumer.Polling?
  {
    states, steps := Pushes(item, 256);
  }

  // ----- the class, for one thread at a time -----

  class Queue<T> {
    var queue: seq<T>
    var offset: nat

    ghost predicate Valid()
      reads this
    {
      offset == |queue| % UINT8
    }

    constructor ()
      ensures Valid() && queue == []
    {
      queue, offset := [], 0;
    }

    method PushPolling(item: T)
      requires Valid()
      modifies this
      ensures Valid() && queue == old(queue) + [item]
    {
      queue := queue + [item];
      CountUp(|queue| - 1);
      offset := (offset + 1) % UINT8;
    }

    /** The spin on `offset` has ended. */
    method PopPolling() returns (item: T)
      requires Valid() && offset != 0
      modifies this
      ensures Valid() && [item] + queue == old(queue)
    {
      item := queue[0];
      queue := queue[1..];
      CountDown(|queue| + 1);
      offset := (offset - 1) % UINT8;
    }
  }
}
