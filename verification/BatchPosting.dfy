/** _RdmaBatchSend, _RdmaBatchRead and _RdmaBatchWrite of src/net/RdmaSocket.cpp on a client: only
    every 32nd work request is signalled, and one completion is polled before each such request but
    the first. Completions arrive in order, each for a signalled request that has been posted. */
module BatchPosting {
  const MAX_POST_LIST: nat := 24
  const QPS_MAX_DEPTH: nat := 128
  /** SIGNAL_BATCH + 1: the requests whose counter has the mask's bits all 0 are signalled. */
  const PERIOD: nat := 32

  /** `counter` requests prepared, `posted` of them handed to the device, `polled` completions taken. */
  datatype Peer = Peer(counter: nat, posted: nat, polled: nat)

  predicate Polls(p: Peer) {
    p.counter % PERIOD == 0 && p.counter > 0
  }

  /** The completion that the next poll waits for belongs to a request that has been posted. */
  predicate PollEnds(p: Peer) {
    p.polled * PERIOD < p.posted
  }

  /** One round of the loop: poll if due, then prepare a request. */
  function Prepare(p: Peer): Peer {
    p.(counter := p.counter + 1, polled := if Polls(p) then p.polled + 1 else p.polled)
  }

  function PrepareAll(p: Peer, n: nat): Peer {
    if n == 0 then p else Prepare(PrepareAll(p, n - 1))
  }

  /** A whole batch: prepare n requests, then post them. */
  function Batch(p: Peer, n: nat): Peer {
    var q := PrepareAll(p, n);
    q.(posted := q.counter)
  }

  /** No poll of the batch waits for a request that the same batch has yet to post. */
  predicate NeverWaits(p: Peer, n: nat) {
    n == 0 || (NeverWaits(p, n - 1) && (Polls(PrepareAll(p, n - 1)) ==> PollEnds(PrepareAll(p, n - 1))))
  }

  /** Requests prepared or posted that no polled completion covers. A completion covers its request
      and all before it. */
  function Unretired(p: Peer): int {
    p.counter - if p.polled == 0 then 0 else (p.polled - 1) * PERIOD + 1
  }

  /** How many completions have been polled once `counter` requests are prepared. */
  function PolledBy(counter: nat): nat {
    if counter == 0 then 0 else (counter - 1) / PERIOD
  }

  /** Between batches everything prepared is posted. */
  predicate Between(p: Peer) {
    p.posted == p.counter && p.polled == PolledBy(p.counter)
  }

  lemma {:induction false} PreparedIs(p: Peer, n: nat)
    requires Between(p)
    ensures PrepareAll(p, n) == Peer(p.counter + n, p.counter, PolledBy(p.counter + n))
    decreases n
  {
    if n > 0 {
      PreparedIs(p, n - 1);
    }
  }

  /** From any point between batches, a batch never waits for itself if it has at most 32 requests. */
  lemma {:induction false} SmallNeverWaits(p: Peer, n: nat)
    requires Between(p) && n <= PERIOD
    ensures NeverWaits(p, n)
    decreases n
  {
    if n > 0 {
      SmallNeverWaits(p, n - 1);
      PreparedIs(p, n - 1);
    }
  }

  lemma {:induction false} LargeWaits(n: nat)
    requires n > PERIOD
    ensures !NeverWaits(Peer(0, 0, 0), n)
    decreases n
  {
    if n == PERIOD + 1 {
      PreparedIs(Peer(0, 0, 0), PERIOD);
    } else {
      LargeWaits(n - 1);
    }
  }

  /** Batches of n requests can be posted from every point without a poll that never ends exactly
      when n is at most 32; MAX_POST_LIST is 24. */
  lemma NeverWaitsIff(n: nat)
    ensures (forall p: Peer :: Between(p) ==> NeverWaits(p, n)) <==> n <= PERIOD
  {
    if n <= PERIOD {
      forall p: Peer | Between(p) ensures NeverWaits(p, n) {
        SmallNeverWaits(p, n);
      }
    } else {
      LargeWaits(n);
      assert Between(Peer(0, 0, 0));
    }
  }

  function Total(sizes: seq<nat>): nat
    decreases |sizes|
  {
    if sizes == [] then 0 else Total(sizes[..|sizes| - 1]) + sizes[|sizes| - 1]
  }

  /** A connection after batches of the given sizes. */
  function After(sizes: seq<nat>): Peer
    decreases |sizes|
  {
    if sizes == [] then Peer(0, 0, 0) else Batch(After(sizes[..|sizes| - 1]), sizes[|sizes| - 1])
  }

  lemma {:induction false} AfterBetween(sizes: seq<nat>)
    ensures Between(After(sizes)) && After(sizes).counter == Total(sizes)
    decreases |sizes|
  {
    if sizes != [] {
      AfterBetween(sizes[..|sizes| - 1]);
      PreparedIs(After(sizes[..|sizes| - 1]), sizes[|sizes| - 1]);
    }
  }

  /** Batch sizes that the arrays of a batch have room for. */
  predicate Postable(sizes: seq<nat>) {
    forall k :: 0 <= k < |sizes| ==> 1 <= sizes[k] <= MAX_POST_LIST
  }

  /** In every run of batches of at most MAX_POST_LIST requests, at every request of the next batch,
      no poll waits for the batch itself and at most 63 requests are unretired, which the queue pair
      holds. */
  lemma FlowControl(sizes: seq<nat>, n: nat, i: nat)
    requires Postable(sizes) && 1 <= n <= MAX_POST_LIST && i <= n
    ensures NeverWaits(After(sizes), n)
    ensures 0 <= Unretired(PrepareAll(After(sizes), i)) <= 63 < QPS_MAX_DEPTH
  {
    AfterBetween(sizes);
    SmallNeverWaits(After(sizes), n);
    PreparedIs(After(sizes), i);
  }

  /** The bound of 63 is reached by batches of at most MAX_POST_LIST requests. */
  lemma BoundReached() returns (sizes: seq<nat>)
    ensures Postable(sizes) && Unretired(After(sizes)) == 63
  {
    sizes := [24, 24, 16];
    hide *;
    ThreeBatches(24, 24, 16);
  }

  lemma ThreeBatches(a: nat, b: nat, c: nat)
    requires a + b + c > 0
    ensures Unretired(After([a, b, c]))
            == (a + b + c) - if a + b + c <= PERIOD then 0 else ((a + b + c - 1) / PERIOD - 1) * PERIOD + 1
  {
    AfterBetween([a, b, c]);
    TotalPush([a, b], c);
    TotalPush([a], b);
    TotalPush([], a);
    hide After;
    hide Total;
    assert [a, b] + [c] == [a, b, c] && [a] + [b] == [a, b] && [] + [a] == [a];
  }

  lemma TotalPush(sizes: seq<nat>, n: nat)
    ensures Total(sizes + [n]) == Total(sizes) + n && Total([]) == 0
  {
    assert (sizes + [n])[..|sizes|] == sizes;
  }

  // ----- the connection -----

  class PeerSockData {
    var counter: nat
    var posted: nat
    var polled: nat

    ghost function State(): Peer
      reads this
    {
      Peer(counter, posted, polled)
    }

    constructor ()
      ensures State() == Peer(0, 0, 0)
    {
      counter, posted, polled := 0, 0, 0;
    }

    /** Spins until a completion arrives; one will only if its request has been posted. */
    method PollCompletion()
      requires PollEnds(State())
      modifies `polled
      ensures polled == old(polled) + 1
    {
      polled := polled + 1;
    }

    method PostBatch(batchSize: nat)
      requires Between(State()) && batchSize <= MAX_POST_LIST
      modifies this
      ensures Between(State()) && State() == Batch(old(State()), batchSize)
    {
      ghost var start := State();
      SmallNeverWaits(start, batchSize);
      for i := 0 to batchSize
        invariant State() == PrepareAll(start, i)
      {
        PollsEnd(start, batchSize, i);
        if counter % PERIOD == 0 && counter > 0 {
          PollCompletion();
        }
        counter := counter + 1;
      }
      PreparedIs(start, batchSize);
      posted := counter;
    }
  }

  lemma {:induction false} PollsEnd(p: Peer, n: nat, i: nat)
    requires NeverWaits(p, n) && i < n
    ensures Polls(PrepareAll(p, i)) ==> PollEnds(PrepareAll(p, i))
    decreases n
  {
    if i < n - 1 {
      PollsEnd(p, n - 1, i);
    }
  }
}
