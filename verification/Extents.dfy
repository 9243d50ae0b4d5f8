/** The extent lists that ReadFile and WriteFile of src/metadata/MetaServer.cpp send to a client. */
module Extents {
  import opened Blocks
  import opened SpaceManagers

  /** FileBlockInfo of the reply: `length` bytes at `memOffset` of server `serverId` belong at
      `buffOffset` of the client's buffer. */
  datatype Extent = Extent(blockIdx: nat, serverId: nat, memOffset: nat, length: nat, buffOffset: nat)

  /** The bytes of [off, off + len) that lie in the block of `off`. */
  function Chunk(off: nat, len: nat): (n: nat)
    ensures n <= len && off % FILE_BLOCK_SIZE + n <= FILE_BLOCK_SIZE
    ensures len > 0 ==> n > 0
    ensures n < len ==> (off + n) % FILE_BLOCK_SIZE == 0
  {
    var room := FILE_BLOCK_SIZE - off % FILE_BLOCK_SIZE;
    if room <= len then room else len
  }

  ghost predicate InFile(blocks: seq<BlockInfo>, off: nat, len: nat) {
    off + len <= |blocks| * FILE_BLOCK_SIZE
  }

  /** A nonempty range is in the file exactly when the block of each of its bytes is in the list. */
  lemma InFileIff(blocks: seq<BlockInfo>, off: nat, len: nat)
    requires len > 0
    ensures InFile(blocks, off, len) <==> forall pos: nat :: off <= pos < off + len ==> pos / FILE_BLOCK_SIZE < |blocks|
  {
    if !InFile(blocks, off, len) {
      assert (off + len - 1) / FILE_BLOCK_SIZE >= |blocks|;
    }
  }

  function ExtentAt(blocks: seq<BlockInfo>, off: nat, n: nat, buff: nat): Extent
    requires off / FILE_BLOCK_SIZE < |blocks|
  {
    var block := blocks[off / FILE_BLOCK_SIZE];
    Extent(off / FILE_BLOCK_SIZE, block.serverId, block.startAddr + off % FILE_BLOCK_SIZE, n, buff)
  }

  /** Cut [off, off + len) at every block boundary; the first piece goes to `buff` of the buffer. */
  function Split(blocks: seq<BlockInfo>, off: nat, len: nat, buff: nat): seq<Extent>
    requires InFile(blocks, off, len)
    decreases len
  {
    if len == 0 then [] else
      var n := Chunk(off, len);
      [ExtentAt(blocks, off, n, buff)] + Split(blocks, off + n, len - n, buff + n)
  }

  lemma SplitNothing(blocks: seq<BlockInfo>, off: nat, buff: nat)
    requires InFile(blocks, off, 0)
    ensures Split(blocks, off, 0, buff) == []
  {
  }

  /** The reply to a request; a request for no bytes inside a block gets one empty extent. */
  function ExtentList(blocks: seq<BlockInfo>, off: nat, len: nat): seq<Extent>
    requires InFile(blocks, off, len)
  {
    if len == 0 && off % FILE_BLOCK_SIZE != 0 then [ExtentAt(blocks, off, 0, 0)] else Split(blocks, off, len, 0)
  }

  /** Where byte `pos` of a file lives. */
  function Place(blocks: seq<BlockInfo>, pos: nat): (nat, nat)
    requires pos / FILE_BLOCK_SIZE < |blocks|
  {
    (blocks[pos / FILE_BLOCK_SIZE].serverId, blocks[pos / FILE_BLOCK_SIZE].startAddr + pos % FILE_BLOCK_SIZE)
  }

  predicate Inside(e: Extent, i: nat) {
    e.buffOffset <= i < e.buffOffset + e.length
  }

  /** Extents follow one another in the buffer from `buff` to `end`. */
  ghost predicate Contiguous(extents: seq<Extent>, buff: nat, end: nat) {
    && (extents == [] ==> buff == end)
    && (extents != [] ==> extents[0].buffOffset == buff)
    && (forall k :: 0 < k < |extents| ==> extents[k].buffOffset == extents[k - 1].buffOffset + extents[k - 1].length)
    && (extents != [] ==> extents[|extents| - 1].buffOffset + extents[|extents| - 1].length == end)
  }

  /** The extent lies inside one block of the file. */
  ghost predicate WithinBlock(e: Extent, blocks: seq<BlockInfo>) {
    && e.blockIdx < |blocks|
    && e.serverId == blocks[e.blockIdx].serverId
    && blocks[e.blockIdx].startAddr <= e.memOffset
    && e.memOffset + e.length <= blocks[e.blockIdx].startAddr + FILE_BLOCK_SIZE
  }

  /** Buffer byte i of a request at file offset `base` goes where byte base + i of the file lives. */
  ghost predicate MapsBytes(e: Extent, blocks: seq<BlockInfo>, base: int) {
    forall i: nat :: Inside(e, i) ==>
      && 0 <= base + i && (base + i) / FILE_BLOCK_SIZE < |blocks|
      && (e.serverId, e.memOffset + (i - e.buffOffset)) == Place(blocks, base + i)
  }

  ghost predicate GoodExtent(e: Extent, blocks: seq<BlockInfo>, base: int) {
    WithinBlock(e, blocks) && MapsBytes(e, blocks, base)
  }

  lemma ExtentAtGood(blocks: seq<BlockInfo>, off: nat, n: nat, buff: nat)
    requires off / FILE_BLOCK_SIZE < |blocks| && off % FILE_BLOCK_SIZE + n <= FILE_BLOCK_SIZE
    ensures GoodExtent(ExtentAt(blocks, off, n, buff), blocks, off - buff)
  {
  }

  lemma ContiguousCons(e: Extent, rest: seq<Extent>, end: nat)
    requires Contiguous(rest, e.buffOffset + e.length, end)
    ensures Contiguous([e] + rest, e.buffOffset, end)
  {
    var all := [e] + rest;
    forall k | 0 < k < |all| ensures all[k].buffOffset == all[k - 1].buffOffset + all[k - 1].length {
      assert all[k] == rest[k - 1];
    }
  }

  lemma NothingContiguous(buff: nat)
    ensures Contiguous([], buff, buff)
  {
  }

  lemma {:induction false} SplitContiguous(blocks: seq<BlockInfo>, off: nat, len: nat, buff: nat)
    requires InFile(blocks, off, len)
    ensures Contiguous(Split(blocks, off, len, buff), buff, buff + len)
    decreases len
  {
    hide Contiguous;
    if len == 0 {
      NothingContiguous(buff);
    } else {
      var n := Chunk(off, len);
      SplitContiguous(blocks, off + n, len - n, buff + n);
      ContiguousCons(ExtentAt(blocks, off, n, buff), Split(blocks, off + n, len - n, buff + n), buff + len);
    }
  }

  lemma {:induction false} SplitGood(blocks: seq<BlockInfo>, off: nat, len: nat, buff: nat)
    requires InFile(blocks, off, len)
    ensures forall e :: e in Split(blocks, off, len, buff) ==> GoodExtent(e, blocks, off - buff) && e.length > 0
    decreases len
  {
    hide GoodExtent;
    if len > 0 {
      var n := Chunk(off, len);
      SplitGood(blocks, off + n, len - n, buff + n);
      ExtentAtGood(blocks, off, n, buff);
      assert (off + n) - (buff + n) == off - buff;
    }
  }

  /** The reply refines byte-by-byte translation: the extents tile the buffer [0, len) in order, each
      stays inside one block and maps each of its bytes to that byte's place in the file. Only a
      request for no bytes yields an empty extent. */
  lemma ExtentListTranslates(blocks: seq<BlockInfo>, off: nat, len: nat)
    requires InFile(blocks, off, len)
    ensures Contiguous(ExtentList(blocks, off, len), 0, len)
    ensures forall e :: e in ExtentList(blocks, off, len) ==>
              GoodExtent(e, blocks, off) && e.length <= FILE_BLOCK_SIZE && (e.length > 0 || len == 0)
  {
    hide MapsBytes;
    SplitContiguous(blocks, off, len, 0);
    SplitGood(blocks, off, len, 0);
    if len == 0 && off % FILE_BLOCK_SIZE != 0 {
      ExtentAtGood(blocks, off, 0, 0);
    }
  }

  /** Offsets of contiguous extents never decrease. */
  lemma {:induction false} BuffOffsetsGrow(extents: seq<Extent>, buff: nat, end: nat, j: nat, k: nat)
    requires Contiguous(extents, buff, end) && j < k < |extents|
    ensures extents[j].buffOffset + extents[j].length <= extents[k].buffOffset
    decreases k
  {
    if j + 1 < k {
      BuffOffsetsGrow(extents, buff, end, j, k - 1);
    }
  }

  /** Every buffer byte lies in exactly one of several contiguous extents. */
  lemma ExactlyOneExtent(extents: seq<Extent>, buff: nat, end: nat, i: nat) returns (k: nat)
    requires Contiguous(extents, buff, end) && buff <= i < end
    ensures k < |extents| && Inside(extents[k], i)
    ensures forall j: nat :: j < |extents| && Inside(extents[j], i) ==> j == k
  {
    k := 0;
    while !Inside(extents[k], i)
      invariant k < |extents| && extents[k].buffOffset <= i
      decreases |extents| - k
    {
      k := k + 1;
    }
    forall j: nat | j < |extents| && Inside(extents[j], i) ensures j == k {
      if j < k {
        BuffOffsetsGrow(extents, buff, end, j, k);
      } else if k < j {
        BuffOffsetsGrow(extents, buff, end, k, j);
      }
    }
  }

  // ----- the per-block length that WriteFile keeps -----

  /** The block lists agree on everything but the `length` field. */
  ghost predicate SamePlaces(a: seq<BlockInfo>, b: seq<BlockInfo>) {
    |a| == |b| && forall p :: 0 <= p < |a| ==> a[p].(length := b[p].length) == b[p]
  }

  function LengthAfter(blocks: seq<BlockInfo>, off: nat, n: nat): nat
    requires off / FILE_BLOCK_SIZE < |blocks|
  {
    if off % FILE_BLOCK_SIZE != 0 then blocks[off / FILE_BLOCK_SIZE].length + n else n
  }

  /** The block list after WriteFile has recorded a write of [off, off + len). */
  function Recorded(blocks: seq<BlockInfo>, off: nat, len: nat): (r: seq<BlockInfo>)
    requires InFile(blocks, off, len)
    ensures SamePlaces(blocks, r)
    decreases len
  {
    if len == 0 then blocks else
      var n := Chunk(off, len);
      var idx := off / FILE_BLOCK_SIZE;
      Recorded(blocks[idx := blocks[idx].(length := LengthAfter(blocks, off, n))], off + n, len - n)
  }

  function Min(a: int, b: int): int {
    if a <= b then a else b
  }

  /** What a write of [off, off + len) makes of the recorded length of block p: nothing if it does not touch
      the block; it adds the bytes written to a block it enters in the middle, and overwrites the length
      of a block it enters at its start. */
  function NewLength(before: nat, off: nat, len: nat, p: nat): int {
    if len == 0 || p < off / FILE_BLOCK_SIZE || off + len <= p * FILE_BLOCK_SIZE then before
    else if p * FILE_BLOCK_SIZE < off then before + Min(len, (p + 1) * FILE_BLOCK_SIZE - off)
    else Min(FILE_BLOCK_SIZE, off + len - p * FILE_BLOCK_SIZE)
  }

  lemma NewLengthFirst(before: nat, off: nat, len: nat, n: nat)
    requires len > 0 && n == Chunk(off, len)
    ensures NewLength(before, off, len, off / FILE_BLOCK_SIZE) == if off % FILE_BLOCK_SIZE != 0 then before + n else n
    ensures n < len ==> (off + n) / FILE_BLOCK_SIZE == off / FILE_BLOCK_SIZE + 1 && (off + n) % FILE_BLOCK_SIZE == 0
  {
    var p := off / FILE_BLOCK_SIZE;
    assert off == p * FILE_BLOCK_SIZE + off % FILE_BLOCK_SIZE;
  }

  lemma NewLengthRest(before: nat, off: nat, len: nat, n: nat, p: nat)
    requires len > 0 && n == Chunk(off, len) && p != off / FILE_BLOCK_SIZE
    ensures NewLength(before, off, len, p) == NewLength(before, off + n, len - n, p)
  {
    NewLengthFirst(before, off, len, n);
  }

  lemma NewLengthStays(before: nat, off: nat, len: nat, n: nat)
    requires len > 0 && n == Chunk(off, len)
    ensures NewLength(before, off + n, len - n, off / FILE_BLOCK_SIZE) == before
  {
    NewLengthFirst(before, off, len, n);
  }

  /** The recorded lengths after a write, block by block. */
  lemma {:induction false} RecordedLengths(blocks: seq<BlockInfo>, off: nat, len: nat, p: nat)
    requires InFile(blocks, off, len) && p < |blocks|
    ensures Recorded(blocks, off, len)[p].length == NewLength(blocks[p].length, off, len, p)
    decreases len
  {
    if len > 0 {
      var n, idx := Chunk(off, len), off / FILE_BLOCK_SIZE;
      var first := blocks[idx := blocks[idx].(length := LengthAfter(blocks, off, n))];
      RecordedLengths(first, off + n, len - n, p);
      if p == idx {
        NewLengthFirst(blocks[p].length, off, len, n);
        NewLengthStays(first[p].length, off, len, n);
      } else {
        NewLengthRest(blocks[p].length, off, len, n, p);
      }
      hide NewLength;
    }
  }

  // ----- the three phases of the handlers -----

  /** An unaligned request starts with the rest of its first block, even when it asks for no bytes. */
  lemma HeadPhase(blocks: seq<BlockInfo>, off: nat, len: nat)
    requires InFile(blocks, off, len) && off % FILE_BLOCK_SIZE != 0
    ensures var n, next := Chunk(off, len), (off / FILE_BLOCK_SIZE + 1) * FILE_BLOCK_SIZE;
            && InFile(blocks, next, len - n)
            && ExtentList(blocks, off, len) == [ExtentAt(blocks, off, n, 0)] + Split(blocks, next, len - n, n)
            && (n < len ==> off + n == next)
  {
    var n := Chunk(off, len);
    assert n < len ==> off + n == (off / FILE_BLOCK_SIZE + 1) * FILE_BLOCK_SIZE;
  }

  lemma FullPhase(blocks: seq<BlockInfo>, q: nat, len: nat, buff: nat)
    requires InFile(blocks, q * FILE_BLOCK_SIZE, len) && len >= FILE_BLOCK_SIZE
    ensures InFile(blocks, (q + 1) * FILE_BLOCK_SIZE, len - FILE_BLOCK_SIZE) && q < |blocks|
    ensures Split(blocks, q * FILE_BLOCK_SIZE, len, buff)
            == [Extent(q, blocks[q].serverId, blocks[q].startAddr, FILE_BLOCK_SIZE, buff)]
               + Split(blocks, (q + 1) * FILE_BLOCK_SIZE, len - FILE_BLOCK_SIZE, buff + FILE_BLOCK_SIZE)
  {
    assert Chunk(q * FILE_BLOCK_SIZE, len) == FILE_BLOCK_SIZE;
  }

  lemma TailPhase(blocks: seq<BlockInfo>, q: nat, len: nat, buff: nat)
    requires InFile(blocks, q * FILE_BLOCK_SIZE, len) && 0 < len < FILE_BLOCK_SIZE
    ensures q < |blocks|
    ensures Split(blocks, q * FILE_BLOCK_SIZE, len, buff)
            == [Extent(q, blocks[q].serverId, blocks[q].startAddr, len, buff)]
  {
    assert Chunk(q * FILE_BLOCK_SIZE, len) == len;
    assert Split(blocks, q * FILE_BLOCK_SIZE + len, 0, buff + len) == [];
  }

  lemma RecordHead(blocks: seq<BlockInfo>, off: nat, len: nat)
    requires InFile(blocks, off, len) && off % FILE_BLOCK_SIZE != 0
    ensures off / FILE_BLOCK_SIZE < |blocks|
    ensures var n, q := Chunk(off, len), off / FILE_BLOCK_SIZE;
            var recorded := blocks[q := blocks[q].(length := blocks[q].length + n)];
            && InFile(recorded, (q + 1) * FILE_BLOCK_SIZE, len - n)
            && Recorded(blocks, off, len) == Recorded(recorded, (q + 1) * FILE_BLOCK_SIZE, len - n)
  {
    var n, q := Chunk(off, len), off / FILE_BLOCK_SIZE;
    var recorded := blocks[q := blocks[q].(length := blocks[q].length + n)];
    if len == 0 {
      assert recorded == blocks;
    }
    assert n < len ==> off + n == (q + 1) * FILE_BLOCK_SIZE;
  }

  lemma RecordAligned(blocks: seq<BlockInfo>, q: nat, len: nat)
    requires InFile(blocks, q * FILE_BLOCK_SIZE, len) && len > 0
    ensures q < |blocks|
    ensures var n := if len >= FILE_BLOCK_SIZE then FILE_BLOCK_SIZE else len;
            var recorded := blocks[q := blocks[q].(length := n)];
            && (len >= FILE_BLOCK_SIZE ==>
                  && InFile(recorded, (q + 1) * FILE_BLOCK_SIZE, len - FILE_BLOCK_SIZE)
                  && Recorded(blocks, q * FILE_BLOCK_SIZE, len)
                     == Recorded(recorded, (q + 1) * FILE_BLOCK_SIZE, len - FILE_BLOCK_SIZE))
            && (len < FILE_BLOCK_SIZE ==> Recorded(blocks, q * FILE_BLOCK_SIZE, len) == recorded)
  {
    var n := if len >= FILE_BLOCK_SIZE then FILE_BLOCK_SIZE else len;
    assert Chunk(q * FILE_BLOCK_SIZE, len) == n;
    assert q * FILE_BLOCK_SIZE + FILE_BLOCK_SIZE == (q + 1) * FILE_BLOCK_SIZE;
  }

  lemma RecordNothing(blocks: seq<BlockInfo>, off: nat)
    requires InFile(blocks, off, 0)
    ensures Recorded(blocks, off, 0) == blocks
  {
  }
}
