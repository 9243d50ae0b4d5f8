/** Remote memory of the storage servers, and what applying an extent list to it means for a file. */
module Storage {
  import opened Blocks
  import opened SpaceManagers
  import opened Extents

  /** The registered bytes of every storage server. */
  type Memory = map<nat, seq<byte>>

  ghost predicate SameShape(a: Memory, b: Memory) {
    a.Keys == b.Keys && forall s :: s in a ==> |a[s]| == |b[s]|
  }

  function Put(mem: Memory, s: nat, addr: nat, data: seq<byte>): (r: Memory)
    requires s in mem && addr + |data| <= |mem[s]|
    ensures SameShape(mem, r)
  {
    mem[s := Splice(mem[s], addr, data)]
  }

  /** The bytes that a transfer of `n` bytes at `addr` reads. */
  function Get(mem: Memory, s: nat, addr: nat, n: nat): (r: seq<byte>)
    requires s in mem && addr + n <= |mem[s]|
    ensures |r| == n
  {
    mem[s][addr..addr + n]
  }

  // ----- the bytes of a file -----

  /** Every block of the list lies in the memory of its server. */
  ghost predicate BlocksIn(mem: Memory, blocks: seq<BlockInfo>) {
    forall p :: 0 <= p < |blocks| ==>
      && blocks[p].serverId in mem
      && blocks[p].startAddr == blocks[p].blockNr * FILE_BLOCK_SIZE
      && blocks[p].startAddr + FILE_BLOCK_SIZE <= |mem[blocks[p].serverId]|
  }

  function ByteAt(mem: Memory, blocks: seq<BlockInfo>, pos: nat): byte
    requires BlocksIn(mem, blocks) && pos < |blocks| * FILE_BLOCK_SIZE
  {
    var block := blocks[pos / FILE_BLOCK_SIZE];
    mem[block.serverId][block.startAddr + pos % FILE_BLOCK_SIZE]
  }

  /** The flat byte array that a block list stands for. */
  function Backing(mem: Memory, blocks: seq<BlockInfo>): (r: seq<byte>)
    requires BlocksIn(mem, blocks)
    ensures |r| == |blocks| * FILE_BLOCK_SIZE
  {
    seq(|blocks| * FILE_BLOCK_SIZE, pos requires 0 <= pos < |blocks| * FILE_BLOCK_SIZE => ByteAt(mem, blocks, pos))
  }

  ghost predicate Disjoint(a: seq<BlockInfo>, b: seq<BlockInfo>) {
    forall p, q :: 0 <= p < |a| && 0 <= q < |b| ==> a[p].serverId != b[q].serverId || a[p].blockNr != b[q].blockNr
  }

  /** Bytes put inside block q of a list show up in its backing at the same offset of block q. */
  lemma PutInBlock(mem: Memory, blocks: seq<BlockInfo>, q: nat, inner: nat, data: seq<byte>)
    requires BlocksIn(mem, blocks) && DistinctBlocks(blocks) && q < |blocks| && inner + |data| <= FILE_BLOCK_SIZE
    ensures var after := Put(mem, blocks[q].serverId, blocks[q].startAddr + inner, data);
            && BlocksIn(after, blocks)
            && Backing(after, blocks) == Splice(Backing(mem, blocks), q * FILE_BLOCK_SIZE + inner, data)
  {
    var after := Put(mem, blocks[q].serverId, blocks[q].startAddr + inner, data);
    var actual, expected := Backing(after, blocks), Splice(Backing(mem, blocks), q * FILE_BLOCK_SIZE + inner, data);
    forall pos: nat | pos < |actual| ensures actual[pos] == expected[pos] {
      var p := pos / FILE_BLOCK_SIZE;
      assert p != q ==> blocks[p].serverId != blocks[q].serverId || blocks[p].blockNr != blocks[q].blockNr;
    }
  }

  /** Bytes put inside a block that a list does not mention leave its backing unchanged. */
  lemma PutElsewhere(mem: Memory, block: BlockInfo, inner: nat, data: seq<byte>, other: seq<BlockInfo>)
    requires BlocksIn(mem, [block]) && BlocksIn(mem, other) && inner + |data| <= FILE_BLOCK_SIZE
    requires Disjoint([block], other)
    ensures var after := Put(mem, [block][0].serverId, block.startAddr + inner, data);
            BlocksIn(after, other) && Backing(after, other) == Backing(mem, other)
  {
    var after := Put(mem, [block][0].serverId, block.startAddr + inner, data);
    var actual, expected := Backing(after, other), Backing(mem, other);
    forall pos: nat | pos < |actual| ensures actual[pos] == expected[pos] {
      var p := pos / FILE_BLOCK_SIZE;
      assert [block][0].serverId != other[p].serverId || [block][0].blockNr != other[p].blockNr;
    }
  }

  /** More blocks append to the backing; the recorded lengths do not matter to it. */
  lemma BackingPrefix(mem: Memory, a: seq<BlockInfo>, b: seq<BlockInfo>)
    requires BlocksIn(mem, b) && a <= b
    ensures BlocksIn(mem, a) && Backing(mem, a) == Backing(mem, b)[..|a| * FILE_BLOCK_SIZE]
  {
    forall p | 0 <= p < |a| ensures a[p] == b[p] {
    }
  }

  lemma BackingSamePlaces(mem: Memory, a: seq<BlockInfo>, b: seq<BlockInfo>)
    requires BlocksIn(mem, a) && SamePlaces(a, b)
    ensures BlocksIn(mem, b) && Backing(mem, b) == Backing(mem, a)
  {
  }

  // ----- applying extents -----

  /** Where in the user's buffer the client takes or puts the bytes of an extent: at the extent's
      own offset if `shifted`, else at the start of the buffer. */
  function BufferPos(e: Extent, shifted: bool): nat {
    if shifted then e.buffOffset else 0
  }

  ghost predicate Fits(mem: Memory, e: Extent, room: nat, shifted: bool) {
    && e.serverId in mem && e.memOffset + e.length <= |mem[e.serverId]|
    && BufferPos(e, shifted) + e.length <= room
  }

  ghost predicate AllFit(mem: Memory, extents: seq<Extent>, room: nat, shifted: bool) {
    forall k :: 0 <= k < |extents| ==> Fits(mem, extents[k], room, shifted)
  }

  function StoreOne(mem: Memory, e: Extent, buf: seq<byte>, shifted: bool): (r: Memory)
    requires Fits(mem, e, |buf|, shifted)
    ensures SameShape(mem, r)
  {
    var from := BufferPos(e, shifted);
    Put(mem, e.serverId, e.memOffset, buf[from..from + e.length])
  }

  /** Memory after the buffer's pieces were written to the extents in turn. */
  function StoreAll(mem: Memory, extents: seq<Extent>, buf: seq<byte>, shifted: bool): (r: Memory)
    requires AllFit(mem, extents, |buf|, shifted)
    ensures SameShape(mem, r)
    decreases |extents|
  {
    if extents == [] then mem else
      StoreAll(StoreOne(mem, extents[0], buf, shifted), extents[1..], buf, shifted)
  }

  function LoadOne(mem: Memory, e: Extent, buf: seq<byte>, shifted: bool): (r: seq<byte>)
    requires Fits(mem, e, |buf|, shifted)
    ensures |r| == |buf|
  {
    Splice(buf, BufferPos(e, shifted), Get(mem, e.serverId, e.memOffset, e.length))
  }

  /** The buffer after the extents were read into it in turn. */
  function LoadAll(mem: Memory, extents: seq<Extent>, buf: seq<byte>, shifted: bool): (r: seq<byte>)
    requires AllFit(mem, extents, |buf|, shifted)
    ensures |r| == |buf|
    decreases |extents|
  {
    if extents == [] then buf else
      LoadAll(mem, extents[1..], LoadOne(mem, extents[0], buf, shifted), shifted)
  }

  lemma SplitHead(blocks: seq<BlockInfo>, off: nat, len: nat, buff: nat)
    requires InFile(blocks, off, len) && len > 0
    ensures var n := Chunk(off, len);
            && off / FILE_BLOCK_SIZE < |blocks|
            && Split(blocks, off, len, buff) != []
            && Split(blocks, off, len, buff)[0] == ExtentAt(blocks, off, n, buff)
            && Split(blocks, off, len, buff)[1..] == Split(blocks, off + n, len - n, buff + n)
  {
  }

  lemma {:induction false} SplitFits(mem: Memory, blocks: seq<BlockInfo>, off: nat, len: nat, buff: nat, room: nat, shifted: bool)
    requires BlocksIn(mem, blocks) && InFile(blocks, off, len) && buff + len <= room
    ensures AllFit(mem, Split(blocks, off, len, buff), room, shifted)
    decreases len
  {
    if len > 0 {
      var n := Chunk(off, len);
      SplitHead(blocks, off, len, buff);
      SplitFits(mem, blocks, off + n, len - n, buff + n, room, shifted);
      var extents := Split(blocks, off, len, buff);
      forall k | 0 <= k < |extents| ensures Fits(mem, extents[k], room, shifted) {
        if k > 0 {
          assert extents[k] == extents[1..][k - 1];
        }
      }
    }
  }

  /** The buffer index whose byte a store at [off, ...) leaves at file position `pos`: without the
      shift every piece starts again at index 0. */
  function Source(off: nat, buff: nat, pos: nat, shifted: bool): int
    requires off <= pos
  {
    if shifted then buff + (pos - off)
    else if pos / FILE_BLOCK_SIZE == off / FILE_BLOCK_SIZE then pos - off
    else pos % FILE_BLOCK_SIZE
  }

  /** `after` is `before` with the bytes of [off, off + len) taken from the buffer. */
  ghost predicate Stored(before: seq<byte>, after: seq<byte>, off: nat, len: nat, buff: nat, buf: seq<byte>, shifted: bool) {
    && |after| == |before|
    && forall pos: nat :: pos < |after| ==>
         if off <= pos < off + len
         then 0 <= Source(off, buff, pos, shifted) < |buf| && after[pos] == buf[Source(off, buff, pos, shifted)]
         else after[pos] == before[pos]
  }

  lemma SpliceStored(before: seq<byte>, off: nat, n: nat, buff: nat, buf: seq<byte>, shifted: bool)
    requires off + n <= |before| && off % FILE_BLOCK_SIZE + n <= FILE_BLOCK_SIZE && buff + n <= |buf|
    ensures var from := if shifted then buff else 0;
            Stored(before, Splice(before, off, buf[from..from + n]), off, n, buff, buf, shifted)
  {
  }

  lemma StoreHead(mem: Memory, blocks: seq<BlockInfo>, off: nat, n: nat, buff: nat, buf: seq<byte>, shifted: bool)
    requires BlocksIn(mem, blocks) && DistinctBlocks(blocks) && off / FILE_BLOCK_SIZE < |blocks|
    requires off % FILE_BLOCK_SIZE + n <= FILE_BLOCK_SIZE && buff + n <= |buf|
    ensures var e := ExtentAt(blocks, off, n, buff);
            && Fits(mem, e, |buf|, shifted)
            && var after := StoreOne(mem, e, buf, shifted);
               (BlocksIn(after, blocks) && Stored(Backing(mem, blocks), Backing(after, blocks), off, n, buff, buf, shifted))
  {
    hide Stored;
    var e := ExtentAt(blocks, off, n, buff);
    var from := BufferPos(e, shifted);
    PutInBlock(mem, blocks, off / FILE_BLOCK_SIZE, off % FILE_BLOCK_SIZE, buf[from..from + n]);
    SpliceStored(Backing(mem, blocks), off, n, buff, buf, shifted);
  }

  lemma StoredCompose(a: seq<byte>, b: seq<byte>, c: seq<byte>, off: nat, len: nat, buff: nat, buf: seq<byte>, shifted: bool)
    requires var n := Chunk(off, len);
             Stored(a, b, off, n, buff, buf, shifted) && Stored(b, c, off + n, len - n, buff + n, buf, shifted)
    ensures Stored(a, c, off, len, buff, buf, shifted)
  {
  }

  /** The client's loops handle the first extent, then the rest. */
  lemma FirstThenRest(mem: Memory, e: Extent, rest: seq<Extent>, buf: seq<byte>, shifted: bool)
    requires Fits(mem, e, |buf|, shifted) && AllFit(mem, rest, |buf|, shifted)
    ensures AllFit(mem, [e] + rest, |buf|, shifted) && AllFit(StoreOne(mem, e, buf, shifted), rest, |buf|, shifted)
    ensures StoreAll(mem, [e] + rest, buf, shifted) == StoreAll(StoreOne(mem, e, buf, shifted), rest, buf, shifted)
    ensures LoadAll(mem, [e] + rest, buf, shifted) == LoadAll(mem, rest, LoadOne(mem, e, buf, shifted), shifted)
  {
    hide StoreOne;
    hide LoadOne;
    assert ([e] + rest)[1..] == rest;
  }

  /** The first extent of a nonempty range, and the range that remains. */
  lemma SplitOnce(mem: Memory, blocks: seq<BlockInfo>, off: nat, len: nat, buff: nat, room: nat, shifted: bool)
    returns (n: nat, e: Extent, rest: seq<Extent>)
    requires BlocksIn(mem, blocks) && InFile(blocks, off, len) && len > 0 && buff + len <= room
    ensures 0 < n <= len && n == Chunk(off, len) && off % FILE_BLOCK_SIZE + n <= FILE_BLOCK_SIZE
    ensures off / FILE_BLOCK_SIZE < |blocks| && e == ExtentAt(blocks, off, n, buff)
    ensures InFile(blocks, off + n, len - n) && rest == Split(blocks, off + n, len - n, buff + n)
    ensures Split(blocks, off, len, buff) == [e] + rest
    ensures Fits(mem, e, room, shifted) && AllFit(mem, rest, room, shifted)
  {
    n := Chunk(off, len);
    e, rest := ExtentAt(blocks, off, n, buff), Split(blocks, off + n, len - n, buff + n);
    SplitFits(mem, blocks, off + n, len - n, buff + n, room, shifted);
  }

  ghost predicate StoresRange(mem: Memory, extents: seq<Extent>, blocks: seq<BlockInfo>, off: nat, len: nat, buff: nat,
                              buf: seq<byte>, shifted: bool)
  {
    && BlocksIn(mem, blocks) && AllFit(mem, extents, |buf|, shifted)
    && var after := StoreAll(mem, extents, buf, shifted);
       (BlocksIn(after, blocks) && Stored(Backing(mem, blocks), Backing(after, blocks), off, len, buff, buf, shifted))
  }

  lemma StoresNothing(mem: Memory, blocks: seq<BlockInfo>, off: nat, buff: nat, buf: seq<byte>, shifted: bool)
    requires BlocksIn(mem, blocks) && InFile(blocks, off, 0)
    ensures StoresRange(mem, Split(blocks, off, 0, buff), blocks, off, 0, buff, buf, shifted)
  {
  }

  lemma StoresFirstThenRest(mem: Memory, blocks: seq<BlockInfo>, off: nat, len: nat, buff: nat, buf: seq<byte>, shifted: bool,
                            n: nat, e: Extent, rest: seq<Extent>)
    requires BlocksIn(mem, blocks) && Fits(mem, e, |buf|, shifted) && AllFit(mem, rest, |buf|, shifted)
    requires n == Chunk(off, len)
    requires var next := StoreOne(mem, e, buf, shifted);
             && BlocksIn(next, blocks) && Stored(Backing(mem, blocks), Backing(next, blocks), off, n, buff, buf, shifted)
             && StoresRange(next, rest, blocks, off + n, len - n, buff + n, buf, shifted)
    ensures StoresRange(mem, [e] + rest, blocks, off, len, buff, buf, shifted)
  {
    hide Stored;
    hide StoreOne;
    hide StoreAll;
    hide Backing;
    hide BlocksIn;
    FirstThenRest(mem, e, rest, buf, shifted);
    var next := StoreOne(mem, e, buf, shifted);
    var after := StoreAll(next, rest, buf, shifted);
    StoredCompose(Backing(mem, blocks), Backing(next, blocks), Backing(after, blocks), off, len, buff, buf, shifted);
  }

  /** Storing the pieces of [off, off + len) changes exactly that range of the file. */
  lemma {:induction false} StoreSplit(mem: Memory, blocks: seq<BlockInfo>, off: nat, len: nat, buff: nat, buf: seq<byte>, shifted: bool)
    requires BlocksIn(mem, blocks) && DistinctBlocks(blocks) && InFile(blocks, off, len) && buff + len <= |buf|
    ensures StoresRange(mem, Split(blocks, off, len, buff), blocks, off, len, buff, buf, shifted)
    decreases len
  {
    hide *;
    if len == 0 {
      StoresNothing(mem, blocks, off, buff, buf, shifted);
    } else {
      var n, e, rest := SplitOnce(mem, blocks, off, len, buff, |buf|, shifted);
      StoreHead(mem, blocks, off, n, buff, buf, shifted);
      StoreSplit(StoreOne(mem, e, buf, shifted), blocks, off + n, len - n, buff + n, buf, shifted);
      StoresFirstThenRest(mem, blocks, off, len, buff, buf, shifted, n, e, rest);
    }
  }

  ghost predicate StoresElsewhere(mem: Memory, extents: seq<Extent>, buf: seq<byte>, shifted: bool, other: seq<BlockInfo>) {
    && BlocksIn(mem, other) && AllFit(mem, extents, |buf|, shifted)
    && BlocksIn(StoreAll(mem, extents, buf, shifted), other)
    && Backing(StoreAll(mem, extents, buf, shifted), other) == Backing(mem, other)
  }

  lemma HeadElsewhere(mem: Memory, blocks: seq<BlockInfo>, off: nat, n: nat, buff: nat, buf: seq<byte>, shifted: bool,
                      other: seq<BlockInfo>)
    requires BlocksIn(mem, blocks) && off / FILE_BLOCK_SIZE < |blocks|
    requires off % FILE_BLOCK_SIZE + n <= FILE_BLOCK_SIZE && buff + n <= |buf|
    requires BlocksIn(mem, other) && Disjoint(blocks, other)
    ensures var e := ExtentAt(blocks, off, n, buff);
            && Fits(mem, e, |buf|, shifted)
            && var next := StoreOne(mem, e, buf, shifted);
               (BlocksIn(next, blocks) && BlocksIn(next, other) && Backing(next, other) == Backing(mem, other))
  {
    var from := BufferPos(ExtentAt(blocks, off, n, buff), shifted);
    PutElsewhere(mem, blocks[off / FILE_BLOCK_SIZE], off % FILE_BLOCK_SIZE, buf[from..from + n], other);
  }

  lemma ElsewhereNothing(mem: Memory, blocks: seq<BlockInfo>, off: nat, buff: nat, buf: seq<byte>, shifted: bool,
                         other: seq<BlockInfo>)
    requires InFile(blocks, off, 0) && BlocksIn(mem, other)
    ensures StoresElsewhere(mem, Split(blocks, off, 0, buff), buf, shifted, other)
  {
  }

  lemma ElsewhereFirstThenRest(mem: Memory, e: Extent, rest: seq<Extent>, buf: seq<byte>, shifted: bool, other: seq<BlockInfo>)
    requires Fits(mem, e, |buf|, shifted) && AllFit(mem, rest, |buf|, shifted) && BlocksIn(mem, other)
    requires var next := StoreOne(mem, e, buf, shifted);
             && BlocksIn(next, other) && Backing(next, other) == Backing(mem, other)
             && StoresElsewhere(next, rest, buf, shifted, other)
    ensures StoresElsewhere(mem, [e] + rest, buf, shifted, other)
  {
    FirstThenRest(mem, e, rest, buf, shifted);
  }

  /** A store through one list leaves the backing of a disjoint list unchanged. */
  lemma {:induction false} StoreElsewhere(mem: Memory, blocks: seq<BlockInfo>, off: nat, len: nat, buff: nat,
                                          buf: seq<byte>, shifted: bool, other: seq<BlockInfo>)
    requires BlocksIn(mem, blocks) && InFile(blocks, off, len) && buff + len <= |buf|
    requires BlocksIn(mem, other) && Disjoint(blocks, other)
    ensures StoresElsewhere(mem, Split(blocks, off, len, buff), buf, shifted, other)
    decreases len
  {
    hide *;
    if len == 0 {
      ElsewhereNothing(mem, blocks, off, buff, buf, shifted, other);
    } else {
      var n, e, rest := SplitOnce(mem, blocks, off, len, buff, |buf|, shifted);
      HeadElsewhere(mem, blocks, off, n, buff, buf, shifted, other);
      StoreElsewhere(StoreOne(mem, e, buf, shifted), blocks, off + n, len - n, buff + n, buf, shifted, other);
      ElsewhereFirstThenRest(mem, e, rest, buf, shifted, other);
    }
  }

  lemma LoadHead(mem: Memory, blocks: seq<BlockInfo>, off: nat, n: nat, buff: nat, buf: seq<byte>)
    requires BlocksIn(mem, blocks) && off / FILE_BLOCK_SIZE < |blocks|
    requires off % FILE_BLOCK_SIZE + n <= FILE_BLOCK_SIZE && buff + n <= |buf|
    ensures var e := ExtentAt(blocks, off, n, buff);
            && Fits(mem, e, |buf|, true) && off + n <= |Backing(mem, blocks)|
            && LoadOne(mem, e, buf, true) == Splice(buf, buff, Backing(mem, blocks)[off..off + n])
  {
    var e := ExtentAt(blocks, off, n, buff);
    var got, expected := Get(mem, e.serverId, e.memOffset, n), Backing(mem, blocks)[off..off + n];
    forall k | 0 <= k < n ensures got[k] == expected[k] {
      assert (off + k) / FILE_BLOCK_SIZE == off / FILE_BLOCK_SIZE;
      assert expected[k] == ByteAt(mem, blocks, off + k);
    }
    assert got == expected;
  }

  lemma SpliceCompose(buf: seq<byte>, at: nat, data: seq<byte>, n: nat)
    requires at + |data| <= |buf| && n <= |data|
    ensures Splice(Splice(buf, at, data[..n]), at + n, data[n..]) == Splice(buf, at, data)
  {
  }

  ghost predicate LoadsRange(mem: Memory, extents: seq<Extent>, blocks: seq<BlockInfo>, off: nat, len: nat, buff: nat,
                             buf: seq<byte>)
    requires BlocksIn(mem, blocks) && InFile(blocks, off, len) && buff + len <= |buf|
  {
    && AllFit(mem, extents, |buf|, true)
    && LoadAll(mem, extents, buf, true) == Splice(buf, buff, Backing(mem, blocks)[off..off + len])
  }

  lemma LoadsNothing(mem: Memory, blocks: seq<BlockInfo>, off: nat, buff: nat, buf: seq<byte>)
    requires BlocksIn(mem, blocks) && InFile(blocks, off, 0) && buff <= |buf|
    ensures LoadsRange(mem, Split(blocks, off, 0, buff), blocks, off, 0, buff, buf)
  {
    assert Splice(buf, buff, Backing(mem, blocks)[off..off]) == buf;
  }

  lemma LoadsFirstThenRest(mem: Memory, blocks: seq<BlockInfo>, off: nat, len: nat, buff: nat, buf: seq<byte>,
                           n: nat, e: Extent, rest: seq<Extent>)
    requires BlocksIn(mem, blocks) && InFile(blocks, off, len) && buff + len <= |buf| && n <= len
    requires Fits(mem, e, |buf|, true) && AllFit(mem, rest, |buf|, true)
    requires LoadOne(mem, e, buf, true) == Splice(buf, buff, Backing(mem, blocks)[off..off + n])
    requires LoadsRange(mem, rest, blocks, off + n, len - n, buff + n, LoadOne(mem, e, buf, true))
    ensures LoadsRange(mem, [e] + rest, blocks, off, len, buff, buf)
  {
    FirstThenRest(mem, e, rest, buf, true);
    hide LoadOne;
    hide LoadAll;
    hide AllFit;
    hide Backing;
    var backing := Backing(mem, blocks);
    var data := backing[off..off + len];
    assert data[..n] == backing[off..off + n] && data[n..] == backing[off + n..off + len];
    SpliceCompose(buf, buff, data, n);
  }

  /** Loading the pieces of [off, off + len) yields exactly those bytes of the file. */
  lemma {:induction false} LoadSplit(mem: Memory, blocks: seq<BlockInfo>, off: nat, len: nat, buff: nat, buf: seq<byte>)
    requires BlocksIn(mem, blocks) && InFile(blocks, off, len) && buff + len <= |buf|
    ensures LoadsRange(mem, Split(blocks, off, len, buff), blocks, off, len, buff, buf)
    decreases len
  {
    hide *;
    if len == 0 {
      LoadsNothing(mem, blocks, off, buff, buf);
    } else {
      var n, e, rest := SplitOnce(mem, blocks, off, len, buff, |buf|, true);
      LoadHead(mem, blocks, off, n, buff, buf);
      LoadSplit(mem, blocks, off + n, len - n, buff + n, LoadOne(mem, e, buf, true));
      LoadsFirstThenRest(mem, blocks, off, len, buff, buf, n, e, rest);
    }
  }

  // ----- whole replies -----

  lemma ExtentListFits(mem: Memory, blocks: seq<BlockInfo>, off: nat, len: nat, room: nat, shifted: bool)
    requires BlocksIn(mem, blocks) && InFile(blocks, off, len) && len <= room
    ensures AllFit(mem, ExtentList(blocks, off, len), room, shifted)
  {
    SplitFits(mem, blocks, off, len, 0, room, shifted);
  }

  lemma EmptyExtentIsIdle(mem: Memory, e: Extent, buf: seq<byte>, shifted: bool)
    requires Fits(mem, e, |buf|, shifted) && e.length == 0
    ensures AllFit(mem, [e], |buf|, shifted)
    ensures StoreAll(mem, [e], buf, shifted) == mem && LoadAll(mem, [e], buf, shifted) == buf
  {
    assert Splice(mem[e.serverId], e.memOffset, []) == mem[e.serverId];
    assert StoreOne(mem, e, buf, shifted) == mem;
    assert LoadOne(mem, e, buf, shifted) == buf;
    assert [e][1..] == [];
  }

  lemma SplitOfNothing(mem: Memory, blocks: seq<BlockInfo>, off: nat, buf: seq<byte>, shifted: bool)
    requires BlocksIn(mem, blocks) && InFile(blocks, off, 0)
    ensures AllFit(mem, ExtentList(blocks, off, 0), |buf|, shifted)
    ensures StoreAll(mem, ExtentList(blocks, off, 0), buf, shifted) == mem
    ensures LoadAll(mem, ExtentList(blocks, off, 0), buf, shifted) == buf
  {
    ExtentListFits(mem, blocks, off, 0, |buf|, shifted);
    if off % FILE_BLOCK_SIZE != 0 {
      EmptyExtentIsIdle(mem, ExtentAt(blocks, off, 0, 0), buf, shifted);
    }
  }

  /** What the client's write loop does to the file it writes and to every other file. */
  lemma StoreReply(mem: Memory, blocks: seq<BlockInfo>, off: nat, len: nat, buf: seq<byte>, shifted: bool)
    requires BlocksIn(mem, blocks) && DistinctBlocks(blocks) && InFile(blocks, off, len) && len <= |buf|
    ensures AllFit(mem, ExtentList(blocks, off, len), |buf|, shifted)
    ensures var after := StoreAll(mem, ExtentList(blocks, off, len), buf, shifted);
            && BlocksIn(after, blocks)
            && Stored(Backing(mem, blocks), Backing(after, blocks), off, len, 0, buf, shifted)
            && forall other :: BlocksIn(mem, other) && Disjoint(blocks, other) ==>
                 BlocksIn(after, other) && Backing(after, other) == Backing(mem, other)
  {
    if len == 0 {
      SplitOfNothing(mem, blocks, off, buf, shifted);
    } else {
      StoreSplit(mem, blocks, off, len, 0, buf, shifted);
      hide Stored;
      hide Backing;
      forall other | BlocksIn(mem, other) && Disjoint(blocks, other)
        ensures var after := StoreAll(mem, ExtentList(blocks, off, len), buf, shifted);
                BlocksIn(after, other) && Backing(after, other) == Backing(mem, other)
      {
        StoreElsewhere(mem, blocks, off, len, 0, buf, shifted, other);
      }
    }
  }

  /** The client's read loop with the shift returns exactly the bytes of [off, off + len). */
  lemma LoadReply(mem: Memory, blocks: seq<BlockInfo>, off: nat, len: nat, buf: seq<byte>)
    requires BlocksIn(mem, blocks) && InFile(blocks, off, len) && len <= |buf|
    ensures AllFit(mem, ExtentList(blocks, off, len), |buf|, true)
    ensures LoadAll(mem, ExtentList(blocks, off, len), buf, true) == Splice(buf, 0, Backing(mem, blocks)[off..off + len])
  {
    if len == 0 {
      SplitOfNothing(mem, blocks, off, buf, true);
      assert Splice(buf, 0, Backing(mem, blocks)[off..off + len]) == buf;
    } else {
      LoadSplit(mem, blocks, off, len, 0, buf);
    }
  }

  // ----- the client without the shift -----

  /** The request touches one block only. */
  predicate OneBlock(off: nat, len: nat) {
    off % FILE_BLOCK_SIZE + len <= FILE_BLOCK_SIZE
  }

  lemma OneBlockOneExtent(blocks: seq<BlockInfo>, off: nat, len: nat)
    requires InFile(blocks, off, len) && OneBlock(off, len)
    ensures forall k :: 0 <= k < |ExtentList(blocks, off, len)| ==> ExtentList(blocks, off, len)[k].buffOffset == 0
  {
    if len > 0 {
      SplitHead(blocks, off, len, 0);
      assert Split(blocks, off + len, 0, len) == [];
    }
  }

  lemma {:induction false} ShiftIsIdle(mem: Memory, extents: seq<Extent>, buf: seq<byte>)
    requires forall k :: 0 <= k < |extents| ==> extents[k].buffOffset == 0
    requires AllFit(mem, extents, |buf|, true) && AllFit(mem, extents, |buf|, false)
    ensures StoreAll(mem, extents, buf, false) == StoreAll(mem, extents, buf, true)
    ensures LoadAll(mem, extents, buf, false) == LoadAll(mem, extents, buf, true)
    decreases |extents|
  {
    if extents != [] {
      ShiftIsIdle(StoreOne(mem, extents[0], buf, true), extents[1..], buf);
      ShiftIsIdle(mem, extents[1..], LoadOne(mem, extents[0], buf, true));
    }
  }

  /** Without the shift the client stores the same memory as with it. */
  ghost predicate StoresSame(mem: Memory, extents: seq<Extent>, buf: seq<byte>) {
    && AllFit(mem, extents, |buf|, false) && AllFit(mem, extents, |buf|, true)
    && StoreAll(mem, extents, buf, false) == StoreAll(mem, extents, buf, true)
  }

  ghost predicate LoadsSame(mem: Memory, extents: seq<Extent>, buf: seq<byte>) {
    && AllFit(mem, extents, |buf|, false) && AllFit(mem, extents, |buf|, true)
    && LoadAll(mem, extents, buf, false) == LoadAll(mem, extents, buf, true)
  }

  lemma OneBlockSame(mem: Memory, blocks: seq<BlockInfo>, off: nat, len: nat, buf: seq<byte>)
    requires BlocksIn(mem, blocks) && InFile(blocks, off, len) && len <= |buf| && OneBlock(off, len)
    ensures StoresSame(mem, ExtentList(blocks, off, len), buf) && LoadsSame(mem, ExtentList(blocks, off, len), buf)
  {
    ExtentListFits(mem, blocks, off, len, |buf|, false);
    ExtentListFits(mem, blocks, off, len, |buf|, true);
    OneBlockOneExtent(blocks, off, len);
    hide *;
    ShiftIsIdle(mem, ExtentList(blocks, off, len), buf);
    StoresSameFrom(mem, ExtentList(blocks, off, len), buf);
  }

  lemma StoresSameFrom(mem: Memory, extents: seq<Extent>, buf: seq<byte>)
    requires AllFit(mem, extents, |buf|, false) && AllFit(mem, extents, |buf|, true)
    ensures StoreAll(mem, extents, buf, false) == StoreAll(mem, extents, buf, true) ==> StoresSame(mem, extents, buf)
    ensures LoadAll(mem, extents, buf, false) == LoadAll(mem, extents, buf, true) ==> LoadsSame(mem, extents, buf)
  {
  }

  /** A buffer of zeros with a last byte of its own. */
  function LastByte(len: nat, last: byte): (r: seq<byte>)
    requires len > 0
    ensures |r| == len && r[len - 1] == last && forall k :: 0 <= k < len - 1 ==> r[k] == 0
  {
    seq(len, k => if k == len - 1 then last else 0)
  }

  /** Without the shift the last byte of a request that crosses a block boundary is not stored. */
  lemma CrossingStoreDiffers(mem: Memory, blocks: seq<BlockInfo>, off: nat, len: nat)
    requires BlocksIn(mem, blocks) && DistinctBlocks(blocks) && InFile(blocks, off, len) && !OneBlock(off, len)
    ensures len > 0 && !StoresSame(mem, ExtentList(blocks, off, len), LastByte(len, 1))
  {
    var buf, pos := LastByte(len, 1), off + len - 1;
    assert pos / FILE_BLOCK_SIZE > off / FILE_BLOCK_SIZE;
    assert Source(off, 0, pos, false) == pos % FILE_BLOCK_SIZE < len - 1;
    assert Source(off, 0, pos, true) == len - 1;
    StoreReply(mem, blocks, off, len, buf, false);
    StoreReply(mem, blocks, off, len, buf, true);
    hide StoreAll;
    hide ExtentList;
    hide Backing;
    hide BlocksIn;
    hide AllFit;
    var unshifted := StoreAll(mem, ExtentList(blocks, off, len), buf, false);
    assert Backing(unshifted, blocks)[pos] == 0;
    var shifted := StoreAll(mem, ExtentList(blocks, off, len), buf, true);
    assert Backing(shifted, blocks)[pos] == 1;
  }

  /** The client as written stores every buffer where it belongs exactly when the request stays
      inside one block. */
  lemma UnshiftedStoreIff(mem: Memory, blocks: seq<BlockInfo>, off: nat, len: nat)
    requires BlocksIn(mem, blocks) && DistinctBlocks(blocks) && InFile(blocks, off, len)
    ensures (forall buf: seq<byte> :: |buf| == len ==> StoresSame(mem, ExtentList(blocks, off, len), buf))
            <==> OneBlock(off, len)
  {
    if OneBlock(off, len) {
      forall buf: seq<byte> | |buf| == len ensures StoresSame(mem, ExtentList(blocks, off, len), buf) {
        OneBlockSame(mem, blocks, off, len, buf);
      }
    } else {
      CrossingStoreDiffers(mem, blocks, off, len);
      assert |LastByte(len, 1)| == len;
    }
  }

  lemma {:induction false} ExtentsNoLonger(blocks: seq<BlockInfo>, off: nat, len: nat, buff: nat)
    requires InFile(blocks, off, len)
    ensures forall k :: 0 <= k < |Split(blocks, off, len, buff)| ==> Split(blocks, off, len, buff)[k].length <= len
    decreases len
  {
    if len > 0 {
      ExtentsNoLonger(blocks, off + Chunk(off, len), len - Chunk(off, len), buff + Chunk(off, len));
    }
  }

  lemma CrossingExtentsShorter(blocks: seq<BlockInfo>, off: nat, len: nat)
    requires InFile(blocks, off, len) && !OneBlock(off, len)
    ensures forall k :: 0 <= k < |ExtentList(blocks, off, len)| ==> ExtentList(blocks, off, len)[k].length <= len - 1
  {
    var n := Chunk(off, len);
    assert 0 < n < len;
    ExtentsNoLonger(blocks, off + n, len - n, n);
    var rest := Split(blocks, off + n, len - n, n);
    assert ExtentList(blocks, off, len) == [ExtentAt(blocks, off, n, 0)] + rest;
    assert forall k :: 0 < k < |rest| + 1 ==> ([ExtentAt(blocks, off, n, 0)] + rest)[k] == rest[k - 1];
  }

  lemma {:induction false} UnshiftedLeaves(mem: Memory, extents: seq<Extent>, buf: seq<byte>, k: nat)
    requires AllFit(mem, extents, |buf|, false) && k < |buf|
    requires forall i :: 0 <= i < |extents| ==> extents[i].length <= k
    ensures LoadAll(mem, extents, buf, false)[k] == buf[k]
    decreases |extents|
  {
    if extents != [] {
      UnshiftedLeaves(mem, extents[1..], LoadOne(mem, extents[0], buf, false), k);
    }
  }

  lemma LastLoaded(mem: Memory, blocks: seq<BlockInfo>, off: nat, len: nat, buf: seq<byte>)
    requires BlocksIn(mem, blocks) && InFile(blocks, off, len) && 0 < len == |buf|
    ensures AllFit(mem, ExtentList(blocks, off, len), |buf|, true)
    ensures LoadAll(mem, ExtentList(blocks, off, len), buf, true)[len - 1] == Backing(mem, blocks)[off + len - 1]
  {
    hide ExtentList;
    hide LoadAll;
    hide AllFit;
    hide BlocksIn;
    LoadReply(mem, blocks, off, len, buf);
  }

  /** Without the shift the last byte of a request that crosses a block boundary is not read. */
  lemma CrossingLoadDiffers(mem: Memory, blocks: seq<BlockInfo>, off: nat, len: nat) returns (buf: seq<byte>)
    requires BlocksIn(mem, blocks) && InFile(blocks, off, len) && !OneBlock(off, len)
    ensures |buf| == len && !LoadsSame(mem, ExtentList(blocks, off, len), buf)
  {
    hide ExtentList;
    hide BlocksIn;
    hide Backing;
    hide AllFit;
    hide LoadAll;
    buf := LastByte(len, if Backing(mem, blocks)[off + len - 1] == 0 then 1 else 0);
    LastLoaded(mem, blocks, off, len, buf);
    CrossingExtentsShorter(blocks, off, len);
    ExtentListFits(mem, blocks, off, len, len, false);
    UnshiftedLeaves(mem, ExtentList(blocks, off, len), buf, len - 1);
  }

  /** The client as written reads every buffer right exactly when the request stays inside one block. */
  lemma UnshiftedLoadIff(mem: Memory, blocks: seq<BlockInfo>, off: nat, len: nat)
    requires BlocksIn(mem, blocks) && InFile(blocks, off, len)
    ensures (forall buf: seq<byte> :: |buf| == len ==> LoadsSame(mem, ExtentList(blocks, off, len), buf))
            <==> OneBlock(off, len)
  {
    hide LoadsSame;
    hide ExtentList;
    if OneBlock(off, len) {
      forall buf: seq<byte> | |buf| == len ensures LoadsSame(mem, ExtentList(blocks, off, len), buf) {
        OneBlockSame(mem, blocks, off, len, buf);
      }
    } else {
      var buf := CrossingLoadDiffers(mem, blocks, off, len);
    }
  }
}
