/** src/fs/spacemanager.cpp: the block allocator of one storage server. */
module SpaceManagers {
  import opened Blocks
  import opened MinHeap

  /** Where one block of a file lives (file_block_info). */
  datatype BlockInfo = BlockInfo(serverId: nat, startAddr: nat, length: nat, blockNr: nat)

  /** No block occurs twice in the list. */
  ghost predicate DistinctBlocks(blocks: seq<BlockInfo>) {
    forall p, q :: 0 <= p < q < |blocks| ==>
      blocks[p].serverId != blocks[q].serverId || blocks[p].blockNr != blocks[q].blockNr
  }

  /** The fields of a space manager as a value. */
  datatype Space = Space(
    start: nat, end: nat, totalBytes: nat, blockSize: nat, total: nat,
    serverId: nat, free: multiset<nat>, inUse: set<nat>, cur: nat)

  // ----- the operations, on values -----

  /** `(start + blockSize) & ~(blockSize - 1)` for a power of two. */
  function NextAligned(start: nat, blockSize: nat): (r: nat)
    requires blockSize > 0
    ensures start < r <= start + blockSize
  {
    (start + blockSize) - (start + blockSize) % blockSize
  }

  function AlignUp(start: nat, blockSize: nat): nat
    requires blockSize > 0
  {
    if start % blockSize != 0 then NextAligned(start, blockSize) else start
  }

  function WholeBlocks(bytes: nat, blockSize: nat): nat
    requires blockSize > 0
  {
    bytes / blockSize
  }

  function BytesFrom(start: nat, end: nat): nat {
    Wrap64(end - start + 1)
  }

  function NewSpace(start: nat, end: nat, blockSize: nat, serverId: nat): Space
    requires blockSize > 0
  {
    var aligned := AlignUp(start, blockSize);
    var bytes := BytesFrom(aligned, end);
    var total := WholeBlocks(bytes, blockSize);
    Space(aligned, end, bytes, blockSize, total, serverId, Iota(0, total), {}, 0)
  }

  /** A new range with a full free list; the in-use set and its counter stay as they are. */
  function Reset(sp: Space, start: nat, length: nat): Space
    requires sp.blockSize > 0
  {
    var reset := NewSpace(start, Wrap64(start + length - 1), sp.blockSize, sp.serverId);
    reset.(inUse := sp.inUse, cur := sp.cur)
  }

  function TakeOne(sp: Space): Space
    requires |sp.free| > 0
  {
    sp.(free := Pop(sp.free), inUse := sp.inUse + {Top(sp.free)}, cur := sp.cur + 1)
  }

  /** uint64_t `x--`. */
  function Decrement(x: nat): nat {
    if x == 0 then TWO_TO_THE_64 - 1 else x - 1
  }

  function GiveBack(sp: Space, nr: nat): Space {
    sp.(free := Push(sp.free, nr), inUse := sp.inUse - {nr}, cur := Decrement(sp.cur))
  }

  function Take(sp: Space, n: nat): (r: Space)
    requires n <= |sp.free|
    ensures |r.free| == |sp.free| - n
    decreases n
  {
    if n == 0 then sp else TakeOne(Take(sp, n - 1))
  }

  /** The blocks that n pops yield, in the order they are popped. */
  function Taken(sp: Space, n: nat): (r: seq<nat>)
    requires n <= |sp.free|
    ensures |r| == n
    decreases n
  {
    if n == 0 then [] else Taken(sp, n - 1) + [Top(Take(sp, n - 1).free)]
  }

  function Reclaim(sp: Space, blocks: seq<nat>): Space
    decreases |blocks|
  {
    if blocks == [] then sp else GiveBack(Reclaim(sp, blocks[..|blocks| - 1]), blocks[|blocks| - 1])
  }

  /** The block numbers of a file that lie on one server, in file order. */
  function OnServer(blocks: seq<BlockInfo>, serverId: nat): seq<nat>
    decreases |blocks|
  {
    if blocks == [] then [] else
      var before := OnServer(blocks[..|blocks| - 1], serverId);
      var last := blocks[|blocks| - 1];
      if last.serverId == serverId then before + [last.blockNr] else before
  }

  function ReclaimInode(sp: Space, blocks: seq<BlockInfo>): Space {
    Reclaim(sp, OnServer(blocks, sp.serverId))
  }

  // ----- what every reachable manager satisfies -----

  /** The managers differ at most in what is free and what is in use. */
  predicate SameRange(a: Space, b: Space) {
    a.(free := b.free, inUse := b.inUse, cur := b.cur) == b
  }

  /** Free list and in-use set partition [0, total), without repetition, and `cur` counts the latter. */
  ghost predicate SpaceOk(sp: Space) {
    && sp.blockSize > 0
    && (forall x: nat :: sp.free[x] == if x < sp.total && x !in sp.inUse then 1 else 0)
    && (forall x: nat :: x in sp.inUse ==> x < sp.total)
    && sp.cur == |sp.inUse|
  }

  lemma FreePlusInUse(sp: Space)
    requires SpaceOk(sp)
    ensures |sp.free| + |sp.inUse| == sp.total
  {
    ComplementSize(sp.free, sp.inUse, sp.total);
  }

  lemma NewSpaceOk(start: nat, end: nat, blockSize: nat, serverId: nat)
    requires blockSize > 0
    ensures SpaceOk(NewSpace(start, end, blockSize, serverId))
  {
    FullSpaceOk(NewSpace(start, end, blockSize, serverId));
  }

  lemma FullSpaceOk(sp: Space)
    requires sp.blockSize > 0 && sp.free == Iota(0, sp.total) && sp.inUse == {} && sp.cur == 0
    ensures SpaceOk(sp)
  {
  }

  lemma DivBounds(x: nat, d: nat)
    requires d > 0
    ensures (x / d) * d <= x < (x / d) * d + d
  {
    assert x == (x / d) * d + x % d;
  }

  lemma MulMonotone(a: nat, b: nat, d: nat)
    requires a <= b
    ensures a * d <= b * d
  {
  }

  lemma TakeOneOk(sp: Space)
    requires SpaceOk(sp) && |sp.free| > 0
    ensures SpaceOk(TakeOne(sp))
    ensures Top(sp.free) < sp.total && Top(sp.free) !in sp.inUse
    ensures forall y: nat :: y in TakeOne(sp).free ==> y in sp.free && Top(sp.free) < y
  {
    var nr := Top(sp.free);
    assert sp.free[nr] > 0;
    forall y: nat | y in TakeOne(sp).free ensures y in sp.free && nr < y {
      assert sp.free[y] == 1;
    }
  }

  /** The in-use set determines the rest of a consistent manager. */
  lemma FreeFromInUse(a: Space, b: Space)
    requires SpaceOk(a) && SpaceOk(b) && SameRange(a, b) && a.inUse == b.inUse
    ensures a == b
  {
    assert a.free == b.free;
  }

  lemma GiveBackOk(sp: Space, nr: nat)
    requires SpaceOk(sp) && nr in sp.inUse
    ensures SpaceOk(GiveBack(sp, nr))
  {
    FreePlusInUse(sp);
    assert |sp.inUse - {nr}| == |sp.inUse| - 1;
  }

  ghost predicate Below(blocks: seq<nat>, free: multiset<nat>) {
    forall x: nat, y: nat :: x in blocks && y in free ==> x < y
  }

  ghost predicate AllFree(sp: Space, blocks: seq<nat>) {
    forall x: nat :: x in blocks ==> x in sp.free
  }

  ghost predicate FreeBefore(sp: Space, after: Space) {
    forall x: nat :: x in after.free ==> x in sp.free
  }

  /** `after` is `sp` without its |blocks| smallest free blocks, which `blocks` lists in order. */
  ghost predicate TookSmallest(sp: Space, after: Space, blocks: seq<nat>) {
    && SpaceOk(after) && SameRange(sp, after)
    && Ascending(blocks) && Below(blocks, after.free)
    && AllFree(sp, blocks) && FreeBefore(sp, after)
    && after.inUse == sp.inUse + ToSet(blocks)
  }

  lemma TakeOneMore(sp: Space, before: Space, blocks: seq<nat>)
    requires TookSmallest(sp, before, blocks) && |before.free| > 0
    ensures TookSmallest(sp, TakeOne(before), blocks + [Top(before.free)])
  {
    TakeOneOk(before);
    AscendingPush(blocks, Top(before.free));
  }

  lemma TakeNone(sp: Space)
    requires SpaceOk(sp)
    ensures TookSmallest(sp, Take(sp, 0), Taken(sp, 0))
  {
  }

  lemma TakeStep(sp: Space, n: nat)
    requires 0 < n <= |sp.free| && TookSmallest(sp, Take(sp, n - 1), Taken(sp, n - 1))
    ensures TookSmallest(sp, Take(sp, n), Taken(sp, n))
  {
    TakeOneMore(sp, Take(sp, n - 1), Taken(sp, n - 1));
  }

  /** n pops yield the n smallest free blocks in ascending order. */
  lemma {:induction false} TakeSmallest(sp: Space, n: nat)
    requires SpaceOk(sp) && n <= |sp.free|
    ensures TookSmallest(sp, Take(sp, n), Taken(sp, n))
    decreases n
  {
    hide *;
    if n == 0 {
      TakeNone(sp);
    } else {
      TakeSmallest(sp, n - 1);
      TakeStep(sp, n);
    }
  }

  /** AllocateSpace: nothing when the blocks that cover `length` exceed the free ones. */
  function Allocate(sp: Space, length: nat): (r: (Space, seq<nat>))
    requires SpaceOk(sp) && length + sp.blockSize <= TWO_TO_THE_64
  {
    FreePlusInUse(sp);
    var toAllocate := WholeBlocks(length + sp.blockSize - 1, sp.blockSize);
    if toAllocate > sp.total - sp.cur then (sp, []) else (Take(sp, toAllocate), Taken(sp, toAllocate))
  }

  /** `need` is the least number of blocks that cover `length`. */
  lemma BlocksNeeded(length: nat, blockSize: nat, need: nat)
    requires blockSize > 0 && need == WholeBlocks(length + blockSize - 1, blockSize)
    ensures need * blockSize - blockSize < length <= need * blockSize
  {
    DivBounds(length + blockSize - 1, blockSize);
  }

  lemma AllocateIs(sp: Space, length: nat)
    requires SpaceOk(sp) && length + sp.blockSize <= TWO_TO_THE_64
    ensures var need := WholeBlocks(length + sp.blockSize - 1, sp.blockSize);
            Allocate(sp, length) == if need <= |sp.free| then (Take(sp, need), Taken(sp, need)) else (sp, [])
  {
    FreePlusInUse(sp);
    hide Take;
    hide Taken;
  }

  lemma TookFromFree(sp: Space, after: Space, blocks: seq<nat>)
    requires SpaceOk(sp) && TookSmallest(sp, after, blocks)
    ensures SpaceOk(after) && Ascending(blocks) && after.inUse == sp.inUse + ToSet(blocks)
    ensures forall x: nat :: x in blocks ==> x in sp.free && x !in sp.inUse
    ensures forall x: nat, y: nat :: x in blocks && y in sp.free && y !in blocks ==> x < y
  {
    forall y: nat | y in sp.free && y !in blocks ensures y in after.free {
      assert sp.free[y] == 1 && y !in after.inUse;
      assert after.free[y] == 1;
    }
    forall x: nat | x in blocks ensures x in sp.free && x !in sp.inUse {
      assert sp.free[x] > 0;
    }
  }

  lemma AllocateAllOrNothing(sp: Space, length: nat)
    requires SpaceOk(sp) && length + sp.blockSize <= TWO_TO_THE_64
    ensures var (after, blocks) := Allocate(sp, length);
            var need := WholeBlocks(length + sp.blockSize - 1, sp.blockSize);
            && SpaceOk(after)
            && (need > |sp.free| ==> after == sp && blocks == [])
            && (need <= |sp.free| ==>
                  && |blocks| == need && Ascending(blocks)
                  && after.inUse == sp.inUse + ToSet(blocks)
                  && (forall x: nat :: x in blocks ==> x in sp.free && x !in sp.inUse)
                  && (forall x: nat, y: nat :: x in blocks && y in sp.free && y !in blocks ==> x < y))
  {
    AllocateIs(sp, length);
    hide *;
    var need := WholeBlocks(length + sp.blockSize - 1, sp.blockSize);
    if need <= |sp.free| {
      TakeSmallest(sp, need);
      TookFromFree(sp, Take(sp, need), Taken(sp, need));
    }
  }

  /** Some free entry is repeated or names no block. */
  ghost predicate Corrupt(sp: Space) {
    exists x: nat :: sp.free[x] > 1 || (x in sp.free && x >= sp.total)
  }

  lemma CorruptGiveBack(sp: Space, nr: nat)
    requires Corrupt(sp)
    ensures Corrupt(GiveBack(sp, nr))
  {
    var x: nat :| sp.free[x] > 1 || (x in sp.free && x >= sp.total);
    assert GiveBack(sp, nr).free[x] >= sp.free[x];
  }

  ghost predicate ValidReclaim(sp: Space, blocks: seq<nat>) {
    NoDuplicates(blocks) && forall x: nat :: x in blocks ==> x in sp.inUse
  }

  lemma {:induction false} ValidReclaimOk(sp: Space, blocks: seq<nat>)
    requires SpaceOk(sp) && ValidReclaim(sp, blocks)
    ensures var r := Reclaim(sp, blocks);
            SpaceOk(r) && SameRange(sp, r) && r.inUse == sp.inUse - ToSet(blocks)
    decreases |blocks|
  {
    if blocks != [] {
      var init, last := blocks[..|blocks| - 1], blocks[|blocks| - 1];
      assert blocks == init + [last];
      NoDuplicatesPush(init, last);
      ValidReclaimOk(sp, init);
      GiveBackOk(Reclaim(sp, init), last);
    }
  }

  lemma {:induction false} InvalidReclaimCorrupts(sp: Space, blocks: seq<nat>)
    requires SpaceOk(sp) && !ValidReclaim(sp, blocks)
    ensures Corrupt(Reclaim(sp, blocks))
    decreases |blocks|
  {
    var init, last := blocks[..|blocks| - 1], blocks[|blocks| - 1];
    assert blocks == init + [last];
    NoDuplicatesPush(init, last);
    var r := Reclaim(sp, init);
    if ValidReclaim(sp, init) {
      ValidReclaimOk(sp, init);
      assert last !in r.inUse;
      assert r.free[last] == if last < r.total then 1 else 0;
      assert GiveBack(r, last).free[last] == r.free[last] + 1;
    } else {
      InvalidReclaimCorrupts(sp, init);
      CorruptGiveBack(r, last);
    }
  }

  /** A reclaim keeps the manager consistent exactly when every block is in use and listed once. */
  lemma ReclaimKeepsSpaceOk(sp: Space, blocks: seq<nat>)
    requires SpaceOk(sp)
    ensures SpaceOk(Reclaim(sp, blocks)) <==> ValidReclaim(sp, blocks)
  {
    if ValidReclaim(sp, blocks) {
      ValidReclaimOk(sp, blocks);
    } else {
      InvalidReclaimCorrupts(sp, blocks);
      var r := Reclaim(sp, blocks);
      var x: nat :| r.free[x] > 1 || (x in r.free && x >= r.total);
      assert !SpaceOk(r);
    }
  }

  /** Reclaiming what was just allocated restores the free list. */
  lemma AllocateThenReclaim(sp: Space, length: nat)
    requires SpaceOk(sp) && length + sp.blockSize <= TWO_TO_THE_64
    ensures var (after, blocks) := Allocate(sp, length); Reclaim(after, blocks) == sp
  {
    AllocateAllOrNothing(sp, length);
    var (after, blocks) := Allocate(sp, length);
    FreePlusInUse(sp);
    if blocks != [] {
      TakeSmallest(sp, |blocks|);
      AscendingHasNoDuplicates(blocks);
      ValidReclaimOk(after, blocks);
      FreeFromInUse(sp, Reclaim(after, blocks));
    }
  }

  /** ResetSpaceRange keeps the manager consistent exactly when no block is in use. */
  lemma ResetKeepsSpaceOk(sp: Space, start: nat, length: nat)
    requires SpaceOk(sp)
    ensures SpaceOk(Reset(sp, start, length)) <==> sp.inUse == {}
  {
    var r := Reset(sp, start, length);
    NewSpaceOk(start, Wrap64(start + length - 1), sp.blockSize, sp.serverId);
    if sp.inUse != {} {
      var x: nat :| x in sp.inUse;
      assert r.free[x] == if x < r.total then 1 else 0;
    }
  }

  // ----- the registered region -----

  /** Every block the manager can hand out lies inside the `length` bytes of the registered region. */
  ghost predicate BlocksInside(sp: Space, length: nat) {
    forall nr: nat :: nr < sp.total ==> nr * sp.blockSize + sp.blockSize <= length
  }

  lemma BlockEndsBy(nr: nat, total: nat, blockSize: nat)
    requires nr < total
    ensures nr * blockSize + blockSize <= total * blockSize
  {
    assert (nr + 1) * blockSize <= total * blockSize;
  }

  /** Registering [start, start + length): rounding the start up keeps every block inside the region
      exactly when the rounded start does not pass the end of the region. */
  lemma BlocksInsideIff(start: nat, length: nat, blockSize: nat, serverId: nat)
    requires 0 < blockSize < TWO_TO_THE_64 / 2 && 0 < length && start + length + blockSize <= TWO_TO_THE_64
    ensures BlocksInside(NewSpace(start, start + length - 1, blockSize, serverId), length)
            <==> AlignUp(start, blockSize) <= start + length
    ensures length >= blockSize ==> AlignUp(start, blockSize) <= start + length
  {
    hide WholeBlocks;
    hide NextAligned;
    var sp := NewSpace(start, start + length - 1, blockSize, serverId);
    var gap := sp.start - start;
    if sp.start <= start + length {
      assert sp.totalBytes == length - gap;
      UnwrappedInside(sp, length, gap);
    } else {
      assert sp.totalBytes == TWO_TO_THE_64 - (gap - length);
      WrappedOutside(sp, length);
    }
  }

  lemma UnwrappedInside(sp: Space, length: nat, gap: nat)
    requires sp.blockSize > 0 && gap <= length && sp.total == WholeBlocks(length - gap, sp.blockSize)
    ensures BlocksInside(sp, length)
  {
    DivBounds(length - gap, sp.blockSize);
    forall nr: nat | nr < sp.total ensures nr * sp.blockSize + sp.blockSize <= length {
      BlockEndsBy(nr, sp.total, sp.blockSize);
    }
  }

  lemma WrappedOutside(sp: Space, length: nat)
    requires length < sp.blockSize <= sp.totalBytes && sp.total == WholeBlocks(sp.totalBytes, sp.blockSize)
    ensures !BlocksInside(sp, length)
  {
    DivBounds(sp.totalBytes, sp.blockSize);
    assert sp.total > 0;
    assert 0 * sp.blockSize + sp.blockSize > length;
  }

  /** The rounding costs at most one block, and none exactly when the skipped bytes fit into the
      part of the region that fills no block. */
  lemma RoundingCost(start: nat, length: nat, blockSize: nat, serverId: nat)
    requires 0 < blockSize <= length && start + length + blockSize <= TWO_TO_THE_64
    ensures var sp := NewSpace(start, start + length - 1, blockSize, serverId);
            && WholeBlocks(length, blockSize) - 1 <= sp.total <= WholeBlocks(length, blockSize)
            && (sp.total == WholeBlocks(length, blockSize) <==> sp.start - start <= length % blockSize)
  {
    var sp := NewSpace(start, start + length - 1, blockSize, serverId);
    var gap := sp.start - start;
    assert gap < blockSize && sp.totalBytes == length - gap by {
      assert (start + blockSize) % blockSize == start % blockSize by { ModShift(start, blockSize); }
    }
    QuotientLoss(length, gap, blockSize);
  }

  /** The bytes from `start` to the first block boundary. */
  function Skipped(start: nat, blockSize: nat): (r: nat)
    requires blockSize > 0
    ensures r < blockSize
    ensures start % blockSize == 0 ==> r == 0
    ensures start % blockSize != 0 ==> r + start % blockSize == blockSize
  {
    if start % blockSize == 0 then 0 else blockSize - start % blockSize
  }

  /** What a manager of [start, start + length) hands out: as many whole blocks as fit behind the first
      boundary, all of them free. */
  ghost predicate Manages(sp: Space, start: nat, length: nat) {
    && sp.blockSize > 0 && sp.start == start + Skipped(start, sp.blockSize) && sp.end == start + length - 1
    && sp.total * sp.blockSize <= length - Skipped(start, sp.blockSize) < sp.total * sp.blockSize + sp.blockSize
    && |sp.free| == sp.total && forall nr: nat :: sp.free[nr] == if nr < sp.total then 1 else 0
  }

  lemma AlignUpSkips(start: nat, blockSize: nat)
    requires blockSize > 0
    ensures AlignUp(start, blockSize) == start + Skipped(start, blockSize)
  {
    ModShift(start, blockSize);
  }

  lemma NewSpaceManages(start: nat, length: nat, blockSize: nat, serverId: nat)
    requires blockSize > 0 && 0 < length && start + length + blockSize <= TWO_TO_THE_64
    requires Skipped(start, blockSize) <= length
    ensures var sp := NewSpace(start, Wrap64(start + length - 1), blockSize, serverId);
            Manages(sp, start, length) && sp.blockSize == blockSize && sp.serverId == serverId && sp.inUse == {} && sp.cur == 0
  {
    AlignUpSkips(start, blockSize);
    hide AlignUp;
    assert Wrap64(start + length - 1) == start + length - 1;
    var bytes := length - Skipped(start, blockSize);
    hide Skipped;
    assert Wrap64((start + length - 1) - (start + length - bytes) + 1) == bytes;
    DivBounds(bytes, blockSize);
  }

  /** A region that ends before its first block boundary: the byte count wraps around, and the manager
      hands out blocks although none lies in the region. */
  lemma NewSpaceOverflows(start: nat, length: nat, blockSize: nat, serverId: nat)
    requires 0 < blockSize < TWO_TO_THE_64 / 2 && 0 < length < Skipped(start, blockSize)
    requires start + length + blockSize <= TWO_TO_THE_64
    ensures var sp := NewSpace(start, Wrap64(start + length - 1), blockSize, serverId);
            && sp.total > 0 && !BlocksInside(sp, length)
            && sp.total * blockSize <= TWO_TO_THE_64 - (Skipped(start, blockSize) - length) < sp.total * blockSize + blockSize
  {
    AlignUpSkips(start, blockSize);
    hide AlignUp;
    assert Wrap64(start + length - 1) == start + length - 1;
    var gap := Skipped(start, blockSize);
    hide Skipped;
    assert Wrap64((start + length - 1) - (start + gap) + 1) == TWO_TO_THE_64 - (gap - length);
    DivBounds(TWO_TO_THE_64 - (gap - length), blockSize);
    WrappedOutside(NewSpace(start, start + length - 1, blockSize, serverId), length);
  }

  /** ResetSpaceRange hands out the new range, and forgets nothing of what was in use. */
  lemma ResetManages(sp: Space, start: nat, length: nat)
    requires sp.blockSize > 0 && 0 < length && start + length + sp.blockSize <= TWO_TO_THE_64
    requires Skipped(start, sp.blockSize) <= length
    ensures var r := Reset(sp, start, length);
            && Manages(r, start, length) && r.blockSize == sp.blockSize && r.serverId == sp.serverId
            && r.inUse == sp.inUse && r.cur == sp.cur
  {
    NewSpaceManages(start, length, sp.blockSize, sp.serverId);
    hide NewSpace;
    hide Skipped;
  }

  /** Against the blocks of the bare length the rounding costs at most one, and none exactly when the
      skipped bytes fit into the part of the region that fills no block. */
  lemma ManagedBlocks(sp: Space, start: nat, length: nat)
    requires Manages(sp, start, length) && Skipped(start, sp.blockSize) <= length
    ensures length / sp.blockSize - 1 <= sp.total <= length / sp.blockSize
    ensures sp.total == length / sp.blockSize <==> Skipped(start, sp.blockSize) <= length % sp.blockSize
  {
    var gap, d := Skipped(start, sp.blockSize), sp.blockSize;
    QuotientLoss(length, gap, d);
    QuotientIs(length - gap, d, sp.total, length - gap - sp.total * d);
  }

  lemma NextMultiple(q: nat, r: nat, k: nat, d: nat)
    requires 0 < r < d && q * d + r <= k * d
    ensures (q + 1) * d <= k * d
  {
    if k <= q {
      MulMonotone(k, q, d);
    } else {
      MulMonotone(q + 1, k, d);
    }
  }

  lemma AlignUpIs(start: nat, blockSize: nat)
    requires blockSize > 0
    ensures var q, r := start / blockSize, start % blockSize;
            start == q * blockSize + r && r < blockSize
            && AlignUp(start, blockSize) == (if r == 0 then q else q + 1) * blockSize
  {
    var q, r := start / blockSize, start % blockSize;
    assert start == q * blockSize + r;
    ModShift(start, blockSize);
    assert (q + 1) * blockSize == q * blockSize + blockSize;
  }

  /** The aligned start is the least multiple of the block size that is not below the start. */
  lemma AlignUpIsLeast(start: nat, blockSize: nat)
    requires blockSize > 0
    ensures start <= AlignUp(start, blockSize)
    ensures exists k: nat :: AlignUp(start, blockSize) == k * blockSize
    ensures forall k: nat :: start <= k * blockSize ==> AlignUp(start, blockSize) <= k * blockSize
  {
    AlignUpIs(start, blockSize);
    hide AlignUp;
    var q, r := start / blockSize, start % blockSize;
    if r != 0 {
      assert (q + 1) * blockSize == q * blockSize + blockSize;
      forall k: nat | start <= k * blockSize ensures AlignUp(start, blockSize) <= k * blockSize {
        NextMultiple(q, r, k, blockSize);
      }
    }
  }

  lemma ModShift(x: nat, d: nat)
    requires d > 0
    ensures (x + d) % d == x % d
  {
    var q := x / d;
    assert x + d == (q + 1) * d + x % d;
    QuotientIs(x + d, d, q + 1, x % d);
  }

  lemma QuotientLoss(length: nat, gap: nat, d: nat)
    requires gap < d && gap <= length
    ensures length / d - 1 <= (length - gap) / d <= length / d
    ensures (length - gap) / d == length / d <==> gap <= length % d
  {
    var q, r := length / d, length % d;
    assert length == q * d + r;
    if gap <= r {
      QuotientIs(length - gap, d, q, r - gap);
    } else {
      assert q >= 1;
      assert q * d == (q - 1) * d + d;
      QuotientIs(length - gap, d, q - 1, d + r - gap);
    }
  }

  lemma QuotientIs(x: nat, d: nat, q: nat, r: nat)
    requires r < d && x == q * d + r
    ensures x / d == q
  {
    var k := x / d;
    DivBounds(x, d);
    if k < q {
      MulMonotone(k + 1, q, d);
    } else if k > q {
      MulMonotone(q + 1, k, d);
    }
  }

  // ----- the class -----

  class SpaceManager {
    var inUsedBlocks: set<nat>
    var freeList: multiset<nat>
    var spaceStart: nat
    var spaceEnd: nat
    var totalBytes: nat
    var blockSize: nat
    var totalBlocks: nat
    var curBlocks: nat
    var serverId: nat

    ghost function State(): Space
      reads this
    {
      Space(spaceStart, spaceEnd, totalBytes, blockSize, totalBlocks, serverId, freeList, inUsedBlocks, curBlocks)
    }

    constructor (start: nat, end: nat, blockSize: nat, serverId: nat)
      requires blockSize > 0
      ensures State() == NewSpace(start, end, blockSize, serverId)
    {
      this.blockSize := blockSize;
      this.serverId := serverId;
      spaceStart, spaceEnd := start, end;
      curBlocks, inUsedBlocks := 0, {};
      new;
      if start % blockSize != 0 {
        spaceStart := NextAligned(start, blockSize);
      }
      totalBytes := BytesFrom(spaceStart, spaceEnd);
      totalBlocks := WholeBlocks(totalBytes, blockSize);
      freeList := Iota(0, totalBlocks);
    }

    method AllocateSpace(length: nat) returns (res: seq<nat>)
      requires SpaceOk(State()) && length + blockSize <= TWO_TO_THE_64
      modifies this
      ensures (State(), res) == Allocate(old(State()), length)
    {
      var toAllocate := WholeBlocks(length + blockSize - 1, blockSize);
      FreePlusInUse(State());
      if toAllocate > totalBlocks - curBlocks {
        return [];
      }
      res := [];
      ghost var sp := State();
      for i := 0 to toAllocate
        invariant toAllocate <= |sp.free|
        invariant State() == Take(sp, i) && res == Taken(sp, i)
      {
        var nr := Top(freeList);
        res := res + [nr];
        freeList := Pop(freeList);
        inUsedBlocks := inUsedBlocks + {nr};
        curBlocks := curBlocks + 1;
      }
    }

    method AllocateOneBlock() returns (blockNr: nat)
      requires |freeList| > 0
      modifies this
      ensures State() == TakeOne(old(State()))
      ensures blockNr == Top(old(freeList))
    {
      blockNr := Top(freeList);
      freeList := Pop(freeList);
      inUsedBlocks := inUsedBlocks + {blockNr};
      curBlocks := curBlocks + 1;
    }

    method ReclaimInodeSpace(blockInfoList: seq<BlockInfo>)
      modifies this
      ensures State() == ReclaimInode(old(State()), blockInfoList)
    {
      ghost var sp := State();
      for i := 0 to |blockInfoList|
        invariant serverId == sp.serverId
        invariant State() == Reclaim(sp, OnServer(blockInfoList[..i], sp.serverId))
      {
        ghost var before := OnServer(blockInfoList[..i], sp.serverId);
        assert blockInfoList[..i + 1][..i] == blockInfoList[..i];
        if blockInfoList[i].serverId != serverId {
          continue;
        }
        var blockNr := blockInfoList[i].blockNr;
        assert (before + [blockNr])[..|before|] == before;
        freeList := Push(freeList, blockNr);
        inUsedBlocks := inUsedBlocks - {blockNr};
        curBlocks := Decrement(curBlocks);
      }
      assert blockInfoList[..|blockInfoList|] == blockInfoList;
    }

    method ReclaimSpace(blockList: seq<nat>)
      modifies this
      ensures State() == Reclaim(old(State()), blockList)
    {
      ghost var sp := State();
      for i := 0 to |blockList|
        invariant State() == Reclaim(sp, blockList[..i])
      {
        assert blockList[..i + 1][..i] == blockList[..i];
        freeList := Push(freeList, blockList[i]);
        inUsedBlocks := inUsedBlocks - {blockList[i]};
        curBlocks := Decrement(curBlocks);
      }
      assert blockList[..|blockList|] == blockList;
    }

    method ResetSpaceRange(startAddr: nat, length: nat)
      requires blockSize > 0
      modifies this
      ensures State() == Reset(old(State()), startAddr, length)
    {
      spaceStart := startAddr;
      spaceEnd := Wrap64(spaceStart + length - 1);
      if spaceStart % blockSize != 0 {
        spaceStart := NextAligned(spaceStart, blockSize);
      }
      totalBytes := BytesFrom(spaceStart, spaceEnd);
      totalBlocks := WholeBlocks(totalBytes, blockSize);
      freeList := Iota(0, totalBlocks);
    }
  }
}
