/** src/net/RdmaSocket.cpp: transfers between user memory and a storage server through the bounce
    buffers of the registered region. An RDMA operation is a copy that is complete when polled. */
module RdmaSockets {
  import opened Blocks
  import opened Storage

  const POOL_BASE: nat := 4 * 1024
  const POOL_SIZE: nat := 1024 * 1024
  const SMALL_LIMIT: nat := 4 * 1024 * 1024
  const PAGE: nat := 4096
  const MAX_TASKS: nat := 4

  // ----- the split of a large transfer over workers -----

  /** `size / workers >> 12 << 12`. */
  function ShipSize(size: nat, workers: nat): (r: nat)
    requires workers > 0
    ensures r % PAGE == 0
  {
    size / workers - size / workers % PAGE
  }

  /** The share and the offsets of the tasks fit the int that the code computes them in. */
  predicate SharesFitInt(size: nat, workers: nat)
    requires workers > 0
  {
    size / workers < TWO_TO_THE_31 && (workers - 1) * ShipSize(size, workers) < TWO_TO_THE_31
  }

  function TaskStart(size: nat, workers: nat, i: nat): nat
    requires workers > 0
  {
    i * ShipSize(size, workers)
  }

  /** The first three tasks get one share each; a fourth gets what is left. */
  function TaskSize(size: nat, workers: nat, i: nat): int
    requires workers > 0
  {
    if i < 3 then ShipSize(size, workers) else size - 3 * ShipSize(size, workers)
  }

  /** The bytes that the tasks of a large transfer cover, for at most four workers. */
  function TasksCover(size: nat, workers: nat): nat
    requires workers > 0
  {
    if workers <= 3 then workers * ShipSize(size, workers) else size
  }

  /** How much of a request of `size` bytes is transferred. */
  function Transferred(size: nat, workers: nat): nat
    requires workers > 0
  {
    if size < SMALL_LIMIT then size else TasksCover(size, workers)
  }

  lemma ShipBounds(size: nat, workers: nat)
    requires 1 <= workers <= MAX_TASKS
    ensures workers * ShipSize(size, workers) <= size
  {
    if workers == 1 {
    } else if workers == 2 {
    } else if workers == 3 {
    } else {
      assert workers == 4;
    }
  }

  /** The tasks start at page multiples, follow one another without gap or overlap from 0, and end
      exactly where TasksCover says. */
  lemma TasksTile(size: nat, workers: nat)
    requires 1 <= workers <= MAX_TASKS
    ensures TaskStart(size, workers, 0) == 0
    ensures forall i: nat :: i < workers ==> TaskStart(size, workers, i) % PAGE == 0 && TaskSize(size, workers, i) >= 0
    ensures forall i: nat :: i + 1 < workers ==>
              TaskStart(size, workers, i) + TaskSize(size, workers, i) == TaskStart(size, workers, i + 1)
    ensures TaskStart(size, workers, workers - 1) + TaskSize(size, workers, workers - 1)
            == TasksCover(size, workers) <= size
  {
    ShipBounds(size, workers);
    var ship := ShipSize(size, workers);
    forall i: nat | i < workers ensures TaskStart(size, workers, i) % PAGE == 0 && TaskSize(size, workers, i) >= 0 {
      assert i == 0 || i == 1 || i == 2 || i == 3;
    }
    forall i: nat | i + 1 < workers
      ensures TaskStart(size, workers, i) + TaskSize(size, workers, i) == TaskStart(size, workers, i + 1)
    {
      assert i == 0 || i == 1 || i == 2;
    }
    assert workers == 1 || workers == 2 || workers == 3 || workers == 4;
  }

  /** A share is the greatest multiple of 4 KiB of which the request holds one for each worker. The first
      three tasks get a share each, a fourth at least a share and less than 16 KiB more. */
  lemma SharesBalanced(size: nat, workers: nat)
    requires 1 <= workers <= MAX_TASKS
    ensures var ship := ShipSize(size, workers);
            && ship % 0x1000 == 0 && workers * ship <= size < workers * (ship + 0x1000)
            && (forall i: nat :: i < workers && i < 3 ==> TaskStart(size, workers, i) == i * ship && TaskSize(size, workers, i) == ship)
            && (workers == 4 ==>
                  TaskStart(size, workers, 3) == 3 * ship && ship <= TaskSize(size, workers, 3) < ship + 0x4000)
  {
    ShipBounds(size, workers);
    ShareIsGreatest(size, workers);
    hide ShipSize;
  }

  lemma ShareIsGreatest(size: nat, workers: nat)
    requires 1 <= workers <= MAX_TASKS
    ensures size < workers * (ShipSize(size, workers) + 0x1000)
  {
    if workers == 1 {
    } else if workers == 2 {
    } else if workers == 3 {
    } else {
      assert workers == 4;
    }
  }

  /** Where the first i tasks end. */
  function TasksEnd(size: nat, workers: nat, i: nat): (r: nat)
    requires 1 <= workers <= MAX_TASKS && i <= workers
    ensures r <= TasksCover(size, workers)
    ensures i == 0 ==> r == 0
    ensures i == workers ==> r == TasksCover(size, workers)
  {
    if i == workers then TasksCover(size, workers) else
      ShipBounds(size, workers);
      assert i == 0 || i == 1 || i == 2 || i == 3;
      TaskStart(size, workers, i)
  }

  lemma TaskInside(size: nat, workers: nat, i: nat)
    requires 1 <= workers <= MAX_TASKS && i < workers
    ensures TaskSize(size, workers, i) >= 0
    ensures TasksEnd(size, workers, i) == TaskStart(size, workers, i)
    ensures TaskStart(size, workers, i) + TaskSize(size, workers, i) == TasksEnd(size, workers, i + 1)
  {
    TasksTile(size, workers);
    assert i == 0 || i == 1 || i == 2 || i == 3;
    assert workers == 1 || workers == 2 || workers == 3 || workers == 4;
  }

  /** The two workers of the repository cover all but the last size mod 8192 bytes. */
  lemma TwoWorkersCover(size: nat)
    ensures TasksCover(size, 2) == size - size % 8192
  {
  }

  lemma OneWorkerCovers(size: nat)
    ensures TasksCover(size, 1) == size - size % 4096
  {
  }

  lemma ThreeWorkersCover(size: nat)
    ensures TasksCover(size, 3) == size - size % 12288
  {
  }

  /** A request is transferred whole exactly when it is small, four workers share it, or its size is
      a multiple of one page per worker. */
  lemma TransferredWhole(size: nat, workers: nat)
    requires 1 <= workers <= MAX_TASKS
    ensures Transferred(size, workers) == size
            <==> size < 0x40_0000 || workers == 4 || size % (0x1000 * workers) == 0
  {
    OneWorkerCovers(size);
    TwoWorkersCover(size);
    ThreeWorkersCover(size);
    hide ShipSize;
    assert workers == 1 || workers == 2 || workers == 3 || workers == 4;
  }

  /** Tasks of one share each, but a last one that takes what is left. */
  predicate InRemainderTask(size: nat, workers: nat, ship: nat, i: nat, k: nat) {
    i < workers && i * ship <= k && (if i + 1 < workers then k < i * ship + ship else k < size)
  }

  lemma SharesApart(i: nat, j: nat, ship: nat)
    requires i < j
    ensures i * ship + ship <= j * ship
  {
    assert (j - i - 1) * ship >= 0;
    assert j * ship == (i + 1) * ship + (j - i - 1) * ship;
  }

  /** With any number of workers such tasks tile the whole range: every byte is in exactly one. */
  lemma RemainderTiles(size: nat, workers: nat, ship: nat, k: nat) returns (i: nat)
    requires workers > 0 && k < size
    ensures InRemainderTask(size, workers, ship, i, k)
    ensures forall j: nat :: InRemainderTask(size, workers, ship, j, k) ==> j == i
  {
    i := 0;
    while i + 1 < workers && k >= i * ship + ship
      invariant i < workers && i * ship <= k
    {
      assert (i + 1) * ship == i * ship + ship;
      i := i + 1;
    }
    forall j: nat | InRemainderTask(size, workers, ship, j, k) ensures j == i {
      if i < j {
        SharesApart(i, j, ship);
      } else if j < i {
        SharesApart(j, i, ship);
      }
    }
  }

  // ----- bounce buffers -----

  function PoolAddr(taskId: nat): nat {
    POOL_BASE + taskId * POOL_SIZE
  }

  /** No two workers share a byte of bounce buffer. */
  lemma PoolsDisjoint(i: nat, j: nat)
    requires i != j
    ensures PoolAddr(i) + POOL_SIZE <= PoolAddr(j) || PoolAddr(j) + POOL_SIZE <= PoolAddr(i)
    ensures PoolAddr(i) >= 0x1000 && (i < j ==> PoolAddr(j) - PoolAddr(i) == (j - i) * 0x10_0000)
  {
  }

  /** Putting a chunk after what has been put extends it. */
  lemma PutExtends(mem: Memory, node: nat, addr: nat, data: seq<byte>, total: nat, n: nat)
    requires node in mem && addr + |data| <= |mem[node]| && total + n <= |data|
    ensures Put(Put(mem, node, addr, data[..total]), node, addr + total, data[total..total + n])
            == Put(mem, node, addr, data[..total + n])
  {
    var a, b := Put(Put(mem, node, addr, data[..total]), node, addr + total, data[total..total + n]),
                Put(mem, node, addr, data[..total + n]);
    assert a[node] == b[node];
  }

  lemma PutNothing(mem: Memory, node: nat, addr: nat, data: seq<byte>)
    requires node in mem && addr <= |mem[node]| && data == []
    ensures Put(mem, node, addr, data) == mem
  {
    assert Splice(mem[node], addr, data) == mem[node];
  }

  lemma SpliceExtends(buf: seq<byte>, at: nat, data: seq<byte>, total: nat, n: nat)
    requires at + |data| <= |buf| && total + n <= |data|
    ensures Splice(Splice(buf, at, data[..total]), at + total, data[total..total + n]) == Splice(buf, at, data[..total + n])
  {
  }

  /** n chunks are just enough for the bytes: all but the last fill the bounce buffer of 1 MiB. */
  predicate Chunks(size: nat, n: int) {
    if size == 0 then n == 0 else (n - 1) * 0x10_0000 < size <= n * 0x10_0000
  }

  class RdmaSocket {
    /** The registered region of the client. */
    const region: array<byte>
    const workers: nat
    /** The registered regions of the storage servers. */
    var remote: Memory
    var transferSignal: nat
    /** How many operations have been polled to completion. */
    ghost var completions: nat

    ghost predicate Valid()
      reads this
    {
      && 1 <= workers <= MAX_TASKS && PoolAddr(workers) <= region.Length
      && transferSignal < 0x1_0000
    }

    constructor (region: array<byte>, workers: nat, remote: Memory)
      requires 1 <= workers <= MAX_TASKS && PoolAddr(workers) <= region.Length
      ensures Valid() && this.region == region && this.workers == workers && this.remote == remote
    {
      this.region, this.workers, this.remote, transferSignal := region, workers, remote, 0;
      completions := 0;
    }

    /** memcpy. */
    method Copy(dest: array<byte>, to: nat, src: array<byte>, from: nat, n: nat)
      requires dest != src && to + n <= dest.Length && from + n <= src.Length
      modifies dest
      ensures dest[..] == Splice(old(dest[..]), to, src[from..from + n])
    {
      for k := 0 to n
        invariant forall j :: 0 <= j < dest.Length ==>
                    dest[j] == if to <= j < to + k then src[from + (j - to)] else old(dest[j])
      {
        dest[to + k] := src[from + k];
      }
    }

    /** RDMA_WRITE of `n` bytes of the registered region, polled to completion. */
    method RdmaWrite(nodeId: nat, source: nat, dest: nat, n: nat)
      requires nodeId in remote && dest + n <= |remote[nodeId]| && source + n <= region.Length
      modifies `remote, `completions
      ensures remote == Put(old(remote), nodeId, dest, region[source..source + n])
      ensures completions == old(completions) + 1
    {
      completions := completions + 1;
      remote := Put(remote, nodeId, dest, region[source..source + n]);
    }

    /** RDMA_READ of `n` bytes into the registered region, polled to completion. */
    method RdmaRead(nodeId: nat, dest: nat, source: nat, n: nat)
      requires nodeId in remote && source + n <= |remote[nodeId]| && dest + n <= region.Length
      modifies region, `completions
      ensures region[..] == Splice(old(region[..]), dest, Get(remote, nodeId, source, n))
      ensures completions == old(completions) + 1
    {
      var bytes := Get(remote, nodeId, source, n);
      for k := 0 to n
        invariant completions == old(completions)
        invariant forall j :: 0 <= j < region.Length ==>
                    region[j] == if dest <= j < dest + k then bytes[j - dest] else old(region[j])
      {
        region[dest + k] := bytes[k];
      }
      completions := completions + 1;
    }

    /** Outside the worker's bounce buffer the registered region is unchanged. */
    twostate predicate OnlyPool(taskId: nat)
      reads region
    {
      forall k :: 0 <= k < region.Length && !(PoolAddr(taskId) <= k < PoolAddr(taskId) + POOL_SIZE) ==>
        region[k] == old(region[k])
    }

    /** One chunk from user memory through the bounce buffer to the server. */
    method SendChunk(taskId: nat, user: array<byte>, source: nat, nodeId: nat, dest: nat, n: nat)
      requires Valid() && taskId < workers && user != region && n <= POOL_SIZE
      requires nodeId in remote && dest + n <= |remote[nodeId]| && source + n <= user.Length
      modifies this`remote, this`completions, region
      ensures remote == Put(old(remote), nodeId, dest, user[source..source + n]) && completions == old(completions) + 1
      ensures OnlyPool(taskId)
    {
      PoolInside(taskId);
      var sendPoolAddr := PoolAddr(taskId);
      Copy(region, sendPoolAddr, user, source, n);
      SpliceMiddle(old(region[..]), sendPoolAddr, user[source..source + n]);
      RdmaWrite(nodeId, sendPoolAddr, dest, n);
      SpliceOutside(old(region[..]), sendPoolAddr, user[source..source + n], region[..]);
    }

    /** One chunk from the server through the bounce buffer to user memory. */
    method ReceiveChunk(taskId: nat, user: array<byte>, dest: nat, nodeId: nat, source: nat, n: nat)
      requires Valid() && taskId < workers && user != region && n <= POOL_SIZE
      requires nodeId in remote && source + n <= |remote[nodeId]| && dest + n <= user.Length
      modifies this`completions, region, user
      ensures completions == old(completions) + 1
      ensures user[..] == Splice(old(user[..]), dest, Get(remote, nodeId, source, n))
      ensures OnlyPool(taskId)
    {
      PoolInside(taskId);
      var sendPoolAddr := PoolAddr(taskId);
      RdmaRead(nodeId, sendPoolAddr, source, n);
      SpliceMiddle(old(region[..]), sendPoolAddr, Get(remote, nodeId, source, n));
      SpliceOutside(old(region[..]), sendPoolAddr, Get(remote, nodeId, source, n), region[..]);
      Copy(user, dest, region, sendPoolAddr, n);
    }

    /** Write `size` bytes of user memory to a server, one bounce buffer at a time. */
    method OutboundHamal(taskId: nat, user: array<byte>, bufferSend: nat, nodeId: nat, bufferReceive: nat, size: nat)
      requires Valid() && taskId < workers && user != region
      requires nodeId in remote && bufferReceive + size <= |remote[nodeId]| && bufferSend + size <= user.Length
      modifies this, region
      ensures Valid() && remote == Put(old(remote), nodeId, bufferReceive, user[bufferSend..bufferSend + size])
      ensures transferSignal == (old(transferSignal) + 1) % 0x1_0000
      ensures OnlyPool(taskId) && Chunks(size, completions - old(completions))
    {
      var totalSizeSend: nat := 0;
      ghost var data, start := user[bufferSend..bufferSend + size], remote;
      PutNothing(start, nodeId, bufferReceive, data[..0]);
      hide Put;
      hide Splice;
      while totalSizeSend < size
        invariant totalSizeSend <= size && transferSignal == old(transferSignal) && completions >= old(completions)
        invariant Chunks(totalSizeSend, completions - old(completions))
        invariant totalSizeSend < size ==> totalSizeSend == (completions - old(completions)) * POOL_SIZE
        invariant remote == Put(start, nodeId, bufferReceive, data[..totalSizeSend])
        invariant OnlyPool(taskId)
        decreases size - totalSizeSend
      {
        var sendSize := if size - totalSizeSend >= POOL_SIZE then POOL_SIZE else size - totalSizeSend;
        SendChunk(taskId, user, bufferSend + totalSizeSend, nodeId, bufferReceive + totalSizeSend, sendSize);
        ChunkIs(user[..], bufferSend, size, totalSizeSend, sendSize);
        PutExtends(start, nodeId, bufferReceive, data, totalSizeSend, sendSize);
        totalSizeSend := totalSizeSend + sendSize;
      }
      assert data[..size] == data;
      transferSignal := (transferSignal + 1) % 0x1_0000;
    }

    /** Read `size` bytes of a server into user memory, one bounce buffer at a time. */
    method InboundHamal(taskId: nat, user: array<byte>, bufferSend: nat, nodeId: nat, bufferReceive: nat, size: nat)
      requires Valid() && taskId < workers && user != region
      requires nodeId in remote && bufferReceive + size <= |remote[nodeId]| && bufferSend + size <= user.Length
      modifies this`transferSignal, this`completions, region, user
      ensures Valid() && user[..] == Splice(old(user[..]), bufferSend, Get(remote, nodeId, bufferReceive, size))
      ensures transferSignal == (old(transferSignal) + 1) % 0x1_0000
      ensures OnlyPool(taskId) && Chunks(size, completions - old(completions))
    {
      hide Get;
      hide Splice;
      var totalSizeSend: nat := 0;
      ghost var data, start := Get(remote, nodeId, bufferReceive, size), user[..];
      SpliceNothing(start, bufferSend, data);
      while totalSizeSend < size
        invariant totalSizeSend <= size && transferSignal == old(transferSignal) && completions >= old(completions)
        invariant Chunks(totalSizeSend, completions - old(completions))
        invariant totalSizeSend < size ==> totalSizeSend == (completions - old(completions)) * POOL_SIZE
        invariant user[..] == Splice(start, bufferSend, data[..totalSizeSend])
        invariant OnlyPool(taskId)
        decreases size - totalSizeSend
      {
        var sendSize := if size - totalSizeSend >= POOL_SIZE then POOL_SIZE else size - totalSizeSend;
        ReceiveChunk(taskId, user, bufferSend + totalSizeSend, nodeId, bufferReceive + totalSizeSend, sendSize);
        GetChunk(remote, nodeId, bufferReceive, size, totalSizeSend, sendSize);
        SpliceExtends(start, bufferSend, data, totalSizeSend, sendSize);
        totalSizeSend := totalSizeSend + sendSize;
      }
      assert data[..size] == data;
      transferSignal := (transferSignal + 1) % 0x1_0000;
    }

    /** Write `size` bytes to a server. A large request is split over the workers, which are run here
        one after the other; the module Transfers shows that every interleaving ends the same way. */
    method RemoteWrite(user: array<byte>, bufferSend: nat, nodeId: nat, bufferReceive: nat, size: nat)
      requires Valid() && user != region
      requires nodeId in remote && bufferReceive + size <= |remote[nodeId]| && bufferSend + size <= user.Length
      requires size >= SMALL_LIMIT ==> SharesFitInt(size, workers)
      modifies this, region
      ensures Valid() && Transferred(size, workers) <= size
      ensures remote == Put(old(remote), nodeId, bufferReceive,
                            user[bufferSend..bufferSend + Transferred(size, workers)])
      ensures size >= SMALL_LIMIT ==> transferSignal == workers
      ensures size < SMALL_LIMIT ==> Chunks(size, completions - old(completions))
    {
      TasksTile(size, workers);
      if size < SMALL_LIMIT {
        OutboundHamal(0, user, bufferSend, nodeId, bufferReceive, size);
      } else {
        WriteTasks(user, bufferSend, nodeId, bufferReceive, size);
      }
    }

    /** Task i: the bytes that have arrived at the server then end where the task does. */
    method WriteTask(user: array<byte>, bufferSend: nat, nodeId: nat, bufferReceive: nat, size: nat, i: nat, ghost start: Memory)
      requires Valid() && user != region && i < workers && TasksCover(size, workers) <= size
      requires nodeId in start && bufferReceive + size <= |start[nodeId]| && bufferSend + size <= user.Length
      requires remote == Put(start, nodeId, bufferReceive, user[bufferSend..bufferSend + TasksEnd(size, workers, i)])
      modifies this, region
      ensures Valid() && transferSignal == (old(transferSignal) + 1) % 0x1_0000
      ensures remote == Put(start, nodeId, bufferReceive, user[bufferSend..bufferSend + TasksEnd(size, workers, i + 1)])
    {
      hide TasksCover;
      hide TasksEnd;
      hide TaskStart;
      hide TaskSize;
      hide Put;
      TaskInside(size, workers, i);
      var offset, n := TaskStart(size, workers, i), TaskSize(size, workers, i);
      ghost var data := user[bufferSend..bufferSend + (offset + n)];
      assert data[..offset] == user[bufferSend..bufferSend + offset];
      assert data[offset..offset + n] == user[bufferSend + offset..bufferSend + offset + n];
      assert data[..offset + n] == data;
      OutboundHamal(i, user, bufferSend + offset, nodeId, bufferReceive + offset, n);
      PutExtends(start, nodeId, bufferReceive, data, offset, n);
    }

    method WriteTasks(user: array<byte>, bufferSend: nat, nodeId: nat, bufferReceive: nat, size: nat)
      requires Valid() && user != region && TasksCover(size, workers) <= size
      requires nodeId in remote && bufferReceive + size <= |remote[nodeId]| && bufferSend + size <= user.Length
      requires SharesFitInt(size, workers)
      modifies this, region
      ensures Valid() && transferSignal == workers
      ensures remote == Put(old(remote), nodeId, bufferReceive, user[bufferSend..bufferSend + TasksCover(size, workers)])
    {
      hide TasksCover;
      hide TasksEnd;
      hide ShipSize;
      transferSignal := 0;
      ghost var start := remote;
      PutNothing(start, nodeId, bufferReceive, user[bufferSend..bufferSend]);
      hide Put;
      for i := 0 to workers
        invariant Valid() && transferSignal == i
        invariant remote == Put(start, nodeId, bufferReceive, user[bufferSend..bufferSend + TasksEnd(size, workers, i)])
      {
        WriteTask(user, bufferSend, nodeId, bufferReceive, size, i, start);
      }
    }

    /** Read `size` bytes of a server into user memory. */
    method RemoteRead(user: array<byte>, bufferSend: nat, nodeId: nat, bufferReceive: nat, size: nat)
      requires Valid() && user != region
      requires nodeId in remote && bufferReceive + size <= |remote[nodeId]| && bufferSend + size <= user.Length
      requires size >= SMALL_LIMIT ==> SharesFitInt(size, workers)
      modifies this`transferSignal, this`completions, region, user
      ensures Valid() && Transferred(size, workers) <= size
      ensures user[..] == Splice(old(user[..]), bufferSend,
                                 Get(remote, nodeId, bufferReceive, Transferred(size, workers)))
      ensures size >= SMALL_LIMIT ==> transferSignal == workers
      ensures size < SMALL_LIMIT ==> Chunks(size, completions - old(completions))
    {
      TasksTile(size, workers);
      if size < SMALL_LIMIT {
        InboundHamal(0, user, bufferSend, nodeId, bufferReceive, size);
      } else {
        ReadTasks(user, bufferSend, nodeId, bufferReceive, size);
      }
    }

    method ReadTasks(user: array<byte>, bufferSend: nat, nodeId: nat, bufferReceive: nat, size: nat)
      requires Valid() && user != region && TasksCover(size, workers) <= size
      requires nodeId in remote && bufferReceive + size <= |remote[nodeId]| && bufferSend + size <= user.Length
      requires SharesFitInt(size, workers)
      modifies this`transferSignal, this`completions, region, user
      ensures Valid() && transferSignal == workers
      ensures user[..] == Splice(old(user[..]), bufferSend, Get(remote, nodeId, bufferReceive, TasksCover(size, workers)))
    {
      hide TasksCover;
      hide TasksEnd;
      hide TaskStart;
      hide TaskSize;
      hide Get;
      hide Splice;
      transferSignal := 0;
      ghost var start, covered := user[..], TasksCover(size, workers);
      ghost var data := Get(remote, nodeId, bufferReceive, covered);
      SpliceNothing(start, bufferSend, data);
      for i := 0 to workers
        invariant Valid() && transferSignal == i
        invariant user[..] == Splice(start, bufferSend, data[..TasksEnd(size, workers, i)])
      {
        TaskInside(size, workers, i);
        var offset, n := TaskStart(size, workers, i), TaskSize(size, workers, i);
        GetChunk(remote, nodeId, bufferReceive, covered, offset, n);
        InboundHamal(i, user, bufferSend + offset, nodeId, bufferReceive + offset, n);
        SpliceExtends(start, bufferSend, data, offset, n);
      }
      assert data[..covered] == data;
    }

    lemma PoolInside(taskId: nat)
      requires Valid() && taskId < workers
      ensures PoolAddr(taskId) + POOL_SIZE <= region.Length
    {
    }
  }

  lemma SpliceMiddle(s: seq<byte>, at: nat, data: seq<byte>)
    requires at + |data| <= |s|
    ensures Splice(s, at, data)[at..at + |data|] == data
  {
    var spliced := Splice(s, at, data);
    var middle := spliced[at..at + |data|];
    forall k | 0 <= k < |data| ensures middle[k] == data[k] {
      assert middle[k] == spliced[at + k];
    }
  }

  lemma SpliceNothing(s: seq<byte>, at: nat, data: seq<byte>)
    requires at <= |s|
    ensures Splice(s, at, data[..0]) == s
  {
  }

  lemma GetChunk(mem: Memory, node: nat, from: nat, size: nat, total: nat, n: nat)
    requires node in mem && from + size <= |mem[node]| && total + n <= size
    ensures Get(mem, node, from + total, n) == Get(mem, node, from, size)[total..total + n]
  {
    ChunkIs(mem[node], from, size, total, n);
  }

  lemma SpliceOutside(s: seq<byte>, at: nat, data: seq<byte>, r: seq<byte>)
    requires at + |data| <= |s| && r == Splice(s, at, data)
    ensures forall k :: 0 <= k < |s| && !(at <= k < at + |data|) ==> r[k] == s[k]
  {
  }

  lemma ChunkIs(user: seq<byte>, from: nat, size: nat, total: nat, n: nat)
    requires from + size <= |user| && total + n <= size
    ensures user[from + total..from + total + n] == user[from..from + size][total..total + n]
  {
    var a, b := user[from + total..from + total + n], user[from..from + size][total..total + n];
    assert forall k :: 0 <= k < n ==> a[k] == user[from + total + k] && b[k] == user[from + total + k];
  }
}
