/** Requests taken apart: the metadata server answers with extents, and the client moves the bytes of
    each extent later, between the requests and transfers of other clients. */
module HeldReplies {
  import opened Blocks
  import opened SpaceManagers
  import opened Files
  import opened Extents
  import opened MetaServer
  import opened Ownership
  import opened Storage
  import opened Cluster

  datatype Task = Storing | Loading

  /** What a client holds between the answer and its last transfer: the extents still to be moved. `live`
      records that the file has not been removed since the answer. */
  datatype Held = Held(name: FileName, off: nat, task: Task, extents: seq<Extent>, buf: seq<byte>, live: bool)

  /** The system and the replies that clients hold. */
  datatype World = World(sys: System, held: map<nat, Held>)

  datatype Step =
    | Request(op: Op, reply: Reply) // create, remove or register
    | AskWrite(c: nat, name: FileName, off: nat, data: seq<byte>, rolls: seq<nat>)
    | AskRead(c: nat, name: FileName, off: nat, len: nat, buf: seq<byte>)
    | Move(c: nat)                  // client c moves the next extent of its reply

  // ----- steps -----

  /** The replies that point into the file under hash h are out of date. */
  function Expire(held: map<nat, Held>, h: nat): map<nat, Held> {
    map c | c in held :: if held[c].name.hash == h then held[c].(live := false) else held[c]
  }

  ghost predicate CanMove(w: World, c: nat, shifted: bool) {
    && c in w.held && w.held[c].extents != []
    && Fits(w.sys.mem, w.held[c].extents[0], |w.held[c].buf|, shifted)
  }

  function Moved(w: World, c: nat, shifted: bool): World
    requires CanMove(w, c, shifted)
  {
    var r := w.held[c];
    var rest := r.(extents := r.extents[1..]);
    match r.task
    case Storing =>
      World(w.sys.(mem := StoreOne(w.sys.mem, r.extents[0], r.buf, shifted)), w.held[c := rest])
    case Loading =>
      w.(held := w.held[c := rest.(buf := LoadOne(w.sys.mem, r.extents[0], r.buf, shifted))])
  }

  function Asked(w: World, name: FileName, off: nat, data: seq<byte>, rolls: seq<nat>): System
    requires CanWrite(w.sys.meta, name, off, |data|, rolls)
  {
    w.sys.(meta := WriteEffect(w.sys.meta, name, off, |data|, rolls).0)
  }

  ghost predicate Next(w: World, step: Step, shifted: bool, w': World) {
    match step
    case Request(op, reply) =>
      && (op.Create? || op.Remove? || op.Register?)
      && Cluster.Next(w.sys, op, shifted, w'.sys, reply)
      && w'.held == if op.Remove? then Expire(w.held, op.name.hash) else w.held
    case AskWrite(c, name, off, data, rolls) =>
      && CanWrite(w.sys.meta, name, off, |data|, rolls)
      && var extents := WriteEffect(w.sys.meta, name, off, |data|, rolls).1;
         w' == World(Asked(w, name, off, data, rolls), w.held[c := Held(name, off, Storing, extents, data, true)])
    case AskRead(c, name, off, len, buf) =>
      && CanRead(w.sys.meta, name, off, len) && len <= |buf|
      && var extents := ReadReply(w.sys.meta, name, off, len).0;
         w' == w.(held := w.held[c := Held(name, off, Loading, extents, buf, true)])
    case Move(c) => CanMove(w, c, shifted) && w' == Moved(w, c, shifted)
  }

  // ----- the specification: requests and single pieces on flat files -----

  /** A write request enlarges the backing by whole blocks of unspecified bytes and sets the size; it
      changes no byte. */
  ghost predicate Prepared(before: File, after: File, off: nat, len: nat) {
    && before.backing <= after.backing && Reaches(|before.backing|, |after.backing|, off + len)
    && after.size == off + len
  }

  /** The bytes of one piece go to, or come from, the place in the file that its request gave them. */
  ghost predicate PieceMoved(files: map<nat, File>, r: Held, shifted: bool, files': map<nat, File>, r': Held) {
    && r.name.hash in files && r.extents != []
    && var file, e := files[r.name.hash], r.extents[0];
       var pos, from := r.off + e.buffOffset, BufferPos(e, shifted);
       && pos + e.length <= |file.backing| && from + e.length <= |r.buf|
       && match r.task
          case Storing =>
            files' == files[r.name.hash := file.(backing := Splice(file.backing, pos, r.buf[from..from + e.length]))]
          case Loading =>
            files' == files && r'.buf == Splice(r.buf, from, file.backing[pos..pos + e.length])
  }

  /** Nothing is said about a store through a reply that is out of date. */
  ghost predicate SpecStep(files: map<nat, File>, held: map<nat, Held>, step: Step, shifted: bool,
                           files': map<nat, File>, held': map<nat, Held>)
  {
    match step
    case Request(op, reply) => SpecNext(files, op, reply, files')
    case AskWrite(_, name, off, data, _) =>
      && name.hash in files' && files' == files[name.hash := files'[name.hash]]
      && Prepared(FileOrEmpty(files, name.hash), files'[name.hash], off, |data|)
    case AskRead(_, name, _, _, _) => files' == files && name.hash in files
    case Move(c) =>
      && c in held && c in held'
      && (held[c].task.Loading? ==> files' == files)
      && (held[c].live ==> PieceMoved(files, held[c], shifted, files', held'[c]))
  }

  // ----- what every run keeps -----

  /** Where in its file an extent lies. */
  function PosOf(blocks: seq<BlockInfo>, e: Extent): int
    requires e.blockIdx < |blocks|
  {
    e.blockIdx * FILE_BLOCK_SIZE + (e.memOffset - blocks[e.blockIdx].startAddr)
  }

  ghost predicate PieceOk(blocks: seq<BlockInfo>, e: Extent, off: nat, room: nat, shifted: bool) {
    WithinBlock(e, blocks) && PosOf(blocks, e) == off + e.buffOffset && BufferPos(e, shifted) + e.length <= room
  }

  ghost predicate PiecesOk(blocks: seq<BlockInfo>, extents: seq<Extent>, off: nat, room: nat, shifted: bool) {
    forall k :: 0 <= k < |extents| ==> PieceOk(blocks, extents[k], off, room, shifted)
  }

  /** The reply's extents still lie in the blocks of its file. */
  ghost predicate ReplyOk(m: Meta, r: Held, shifted: bool) {
    RootExists(m) && IsFile(m, r.name) && PiecesOk(InodeOf(m, r.name).blocks, r.extents, r.off, |r.buf|, shifted)
  }

  ghost predicate WorldInv(w: World, shifted: bool) {
    SysInv(w.sys) && forall c :: c in w.held && w.held[c].live ==> ReplyOk(w.sys.meta, w.held[c], shifted)
  }

  /** The block list only grew; recorded lengths do not matter. */
  ghost predicate Extends(a: seq<BlockInfo>, b: seq<BlockInfo>) {
    |a| <= |b| && forall p :: 0 <= p < |a| ==> a[p].(length := b[p].length) == b[p]
  }

  /** The file is still there, with all its blocks. */
  ghost predicate Kept(m: Meta, n: Meta, name: FileName)
    requires RootExists(m) && RootExists(n)
  {
    IsFile(m, name) ==> IsFile(n, name) && Extends(InodeOf(m, name).blocks, InodeOf(n, name).blocks)
  }

  lemma KeptReply(m: Meta, n: Meta, r: Held, shifted: bool)
    requires RootExists(n) && ReplyOk(m, r, shifted) && Kept(m, n, r.name)
    ensures ReplyOk(n, r, shifted)
  {
    var a, b := InodeOf(m, r.name).blocks, InodeOf(n, r.name).blocks;
    forall k | 0 <= k < |r.extents| ensures PieceOk(b, r.extents[k], r.off, |r.buf|, shifted) {
      assert PieceOk(a, r.extents[k], r.off, |r.buf|, shifted);
    }
  }

  lemma CreateKeeps(m: Meta, name: FileName, isDir: bool, other: FileName)
    requires Inv(m) && (Listed(m, name) || m.table.cur != m.table.total)
    ensures CanAllocate(m.table)
    ensures RootExists(CreateEffect(m, name, isDir).0) && Kept(m, CreateEffect(m, name, isDir).0, other)
  {
    CreateInv(m, name, isDir);
    if !Listed(m, name) {
      NewEntryChange(m, name, isDir);
      EntriesNotRoot(m);
      hide Inv;
      hide NewEntry;
    }
  }

  lemma RemoveKeeps(m: Meta, name: FileName, other: FileName)
    requires Inv(m) && name.hash != other.hash
    ensures CanRemove(m, name) && RootExists(RemoveEffect(m, name).0) && Kept(m, RemoveEffect(m, name).0, other)
  {
    if Listed(m, name) {
      RemoveInodes(m, name);
      EntriesNotRoot(m);
      hide Inv;
      hide RemoveEffect;
    } else {
      RemoveNothing(m, name);
    }
  }

  lemma GrowKeeps(m: Meta, name: FileName, rolls: seq<nat>, other: FileName)
    requires Inv(m) && IsFile(m, name) && CanGrow(m, InumOf(m, name), rolls)
    ensures RootExists(Grow(m, InumOf(m, name), rolls)) && Kept(m, Grow(m, InumOf(m, name), rolls), other)
  {
    var inum := InumOf(m, name);
    GrowGrew(m, inum, rolls);
    hide Grow;
    hide CanGrow;
    hide Grew;
    GrewLookup(m, Grow(m, inum, rolls), name, |rolls|);
    GrewKeeps(m, Grow(m, inum, rolls), name, |rolls|, other);
  }

  lemma GrewKeeps(m: Meta, g: Meta, name: FileName, n: nat, other: FileName)
    requires Inv(m) && IsFile(m, name) && Grew(m, g, InumOf(m, name), n) && RootExists(g) && Directory(g) == Directory(m)
    ensures Kept(m, g, other)
  {
    EntriesNotRoot(m);
    hide Inv;
    if IsFile(m, other) {
      var i := InumOf(m, other);
      assert i in g.table.inodes && m.table.inodes[i].blocks <= g.table.inodes[i].blocks;
    }
  }

  lemma RecordKeeps(m: Meta, name: FileName, off: nat, len: nat, other: FileName)
    requires Inv(m) && IsFile(m, name) && InFile(InodeOf(m, name).blocks, off, len)
    ensures var after := WithInode(m, InumOf(m, name), Written(InodeOf(m, name), off, len));
            RootExists(after) && Kept(m, after, other)
  {
    EntriesNotRoot(m);
    hide Inv;
    hide Recorded;
  }

  lemma KeptTransitive(m: Meta, n: Meta, k: Meta, name: FileName)
    requires RootExists(m) && RootExists(n) && RootExists(k) && Kept(m, n, name) && Kept(n, k, name)
    ensures Kept(m, k, name)
  {
  }

  /** The server's part of a write, without the client's. */
  ghost predicate Answers(sys: System, after: System, found: System, grown: System, name: FileName, off: nat, len: nat,
                          rolls: seq<nat>)
  {
    && Phases(sys, found, grown, name, off, len, rolls)
    && after == System(WithInode(grown.meta, InumOf(grown.meta, name), Written(InodeOf(grown.meta, name), off, len)), sys.mem)
  }

  lemma AskWriteAnswers(w: World, name: FileName, off: nat, data: seq<byte>, rolls: seq<nat>)
    returns (found: System, grown: System)
    requires Consistent(w.sys) && CanWrite(w.sys.meta, name, off, |data|, rolls)
    ensures Answers(w.sys, Asked(w, name, off, data, rolls), found, grown, name, off, |data|, rolls)
    ensures WriteEffect(w.sys.meta, name, off, |data|, rolls).1 == ExtentList(InodeOf(grown.meta, name).blocks, off, |data|)
  {
    found, grown := WritePhases(w.sys, name, off, |data|, rolls);
    WriteSteps(w.sys.meta, name, off, |data|, rolls);
    hide Inv;
    hide Grow;
    hide CanGrow;
    hide CreateEffect;
    hide WriteEffect;
    hide ExtentList;
    hide Written;
  }

  lemma WriteKeeps(sys: System, after: System, found: System, grown: System, name: FileName, off: nat, len: nat,
                   rolls: seq<nat>, other: FileName)
    requires Consistent(sys) && Answers(sys, after, found, grown, name, off, len, rolls)
    ensures RootExists(after.meta) && Kept(sys.meta, after.meta, other)
  {
    FirstPhases(sys, found, grown, name, off, len, rolls);
    CreateKeeps(sys.meta, name, false, other);
    GrowKeeps(found.meta, name, rolls, other);
    RecordKeeps(grown.meta, name, off, len, other);
    hide Kept;
    hide Inv;
    hide Grow;
    hide CanGrow;
    hide CreateEffect;
    hide Written;
    KeptTransitive(sys.meta, found.meta, grown.meta, other);
    KeptTransitive(sys.meta, grown.meta, after.meta, other);
  }

  // ----- the answer to a write -----

  lemma RecordsNothingMoved(sys: System, after: System, found: System, grown: System, name: FileName, off: nat, len: nat,
                            rolls: seq<nat>)
    requires Answers(sys, after, found, grown, name, off, len, rolls) && Consistent(grown)
    ensures RecordsWrite(grown, after, name, off, len)
  {
    hide Inv;
    hide Written;
    hide Grow;
    hide CanGrow;
    hide CreateEffect;
  }

  lemma GrownPrepared(files: map<nat, File>, found: map<nat, File>, grown: map<nat, File>, h: nat, off: nat, len: nat)
    requires found == files[h := FileOrEmpty(files, h)] && h in grown && grown == found[h := grown[h]]
    requires found[h].backing <= grown[h].backing
    requires Reaches(|found[h].backing|, |grown[h].backing|, off + len)
    ensures var after := File(grown[h].backing, off + len);
            grown[h := after] == files[h := after] && Prepared(FileOrEmpty(files, h), after, off, len)
  {
  }

  /** The server's part of a write only makes room in the file and sets its size. */
  lemma AnswersRefines(sys: System, after: System, found: System, grown: System, name: FileName, off: nat, len: nat,
                       rolls: seq<nat>)
    requires Consistent(sys) && Answers(sys, after, found, grown, name, off, len, rolls)
    ensures Backed(sys) && Consistent(after) && Backed(after) && name.hash in FilesOf(after)
    ensures FilesOf(after) == FilesOf(sys)[name.hash := FilesOf(after)[name.hash]]
    ensures Prepared(FileOrEmpty(FilesOf(sys), name.hash), FilesOf(after)[name.hash], off, len)
  {
    FirstPhases(sys, found, grown, name, off, len, rolls);
    RecordsNothingMoved(sys, after, found, grown, name, off, len, rolls);
    AnswersMemory(sys, after, found, grown, name, off, len, rolls);
    hide *;
    EntryBacking(grown, name);
    RecordRefines(grown, after, name, off, len);
    GrownPrepared(FilesOf(sys), FilesOf(found), FilesOf(grown), name.hash, off, len);
  }

  lemma AnswersMemory(sys: System, after: System, found: System, grown: System, name: FileName, off: nat, len: nat,
                      rolls: seq<nat>)
    requires Answers(sys, after, found, grown, name, off, len, rolls)
    ensures after.mem == grown.mem && RootExists(grown.meta) && IsFile(grown.meta, name)
  {
  }

  // ----- the extents of an answer -----

  lemma {:induction false} SplitPieces(blocks: seq<BlockInfo>, off: nat, len: nat, base: nat, buff: nat, room: nat, shifted: bool)
    requires InFile(blocks, off, len) && off == base + buff && buff + len <= room
    ensures PiecesOk(blocks, Split(blocks, off, len, buff), base, room, shifted)
    decreases len
  {
    if len > 0 {
      var n := Chunk(off, len);
      SplitPieces(blocks, off + n, len - n, base, buff + n, room, shifted);
      PieceAt(blocks, off, n, base, buff, room, shifted);
      hide PieceOk;
      SplitHead(blocks, off, len, buff);
      var extents := Split(blocks, off, len, buff);
      forall k | 0 <= k < |extents| ensures PieceOk(blocks, extents[k], base, room, shifted) {
        assert k > 0 ==> extents[k] == extents[1..][k - 1];
      }
    }
  }

  lemma PieceAt(blocks: seq<BlockInfo>, off: nat, n: nat, base: nat, buff: nat, room: nat, shifted: bool)
    requires off / FILE_BLOCK_SIZE < |blocks| && off % FILE_BLOCK_SIZE + n <= FILE_BLOCK_SIZE
    requires off == base + buff && buff + n <= room
    ensures PieceOk(blocks, ExtentAt(blocks, off, n, buff), base, room, shifted)
  {
  }

  lemma ReplyPieces(blocks: seq<BlockInfo>, off: nat, len: nat, room: nat, shifted: bool)
    requires InFile(blocks, off, len) && len <= room
    ensures PiecesOk(blocks, ExtentList(blocks, off, len), off, room, shifted)
  {
    hide PieceOk;
    SplitPieces(blocks, off, len, off, 0, room, shifted);
    if len == 0 && off % FILE_BLOCK_SIZE != 0 {
      PieceAt(blocks, off, 0, off, 0, room, shifted);
    }
  }

  // ----- one piece -----

  /** A piece of a reply that is up to date fits the server's memory, and its bytes are those of the file. */
  lemma PieceFits(sys: System, name: FileName, e: Extent, off: nat, room: nat, shifted: bool)
    requires Consistent(sys) && IsFile(sys.meta, name) && PieceOk(InodeOf(sys.meta, name).blocks, e, off, room, shifted)
    ensures BlocksIn(sys.mem, InodeOf(sys.meta, name).blocks) && Fits(sys.mem, e, room, shifted)
  {
    BlocksInMemory(sys, InumOf(sys.meta, name));
  }

  lemma PieceGeometry(blocks: seq<BlockInfo>, e: Extent, off: nat, room: nat, shifted: bool)
    requires PieceOk(blocks, e, off, room, shifted)
    ensures e.blockIdx < |blocks| && e.serverId == blocks[e.blockIdx].serverId && BufferPos(e, shifted) + e.length <= room
    ensures var inner := e.memOffset - blocks[e.blockIdx].startAddr;
            && 0 <= inner && inner + e.length <= FILE_BLOCK_SIZE && e.blockIdx * FILE_BLOCK_SIZE + inner == off + e.buffOffset
  {
  }

  lemma StoreIsPut(mem: Memory, e: Extent, buf: seq<byte>, shifted: bool)
    requires Fits(mem, e, |buf|, shifted)
    ensures var from := BufferPos(e, shifted);
            && e.serverId in mem && e.memOffset + e.length <= |mem[e.serverId]| && from + e.length <= |buf|
            && StoreOne(mem, e, buf, shifted) == Put(mem, e.serverId, e.memOffset, buf[from..from + e.length])
  {
    hide Put;
  }

  lemma PieceInMemory(mem: Memory, blocks: seq<BlockInfo>, e: Extent, off: nat, room: nat, shifted: bool)
    requires BlocksIn(mem, blocks) && PieceOk(blocks, e, off, room, shifted)
    ensures Fits(mem, e, room, shifted)
  {
  }

  lemma PieceStored(mem: Memory, blocks: seq<BlockInfo>, e: Extent, off: nat, buf: seq<byte>, shifted: bool)
    requires BlocksIn(mem, blocks) && DistinctBlocks(blocks) && PieceOk(blocks, e, off, |buf|, shifted)
    ensures Fits(mem, e, |buf|, shifted)
    ensures var pos, from := off + e.buffOffset, BufferPos(e, shifted);
            && pos + e.length <= |blocks| * FILE_BLOCK_SIZE && from + e.length <= |buf|
            && var after := StoreOne(mem, e, buf, shifted);
               (BlocksIn(after, blocks)
                && Backing(after, blocks) == Splice(Backing(mem, blocks), pos, buf[from..from + e.length]))
  {
    hide BlocksIn;
    hide DistinctBlocks;
    hide Backing;
    hide PieceOk;
    hide Fits;
    hide StoreOne;
    hide Put;
    hide Splice;
    PieceGeometry(blocks, e, off, |buf|, shifted);
    PieceInMemory(mem, blocks, e, off, |buf|, shifted);
    StoreIsPut(mem, e, buf, shifted);
    var from := BufferPos(e, shifted);
    PutInBlock(mem, blocks, e.blockIdx, e.memOffset - blocks[e.blockIdx].startAddr, buf[from..from + e.length]);
  }

  lemma PieceElsewhere(mem: Memory, blocks: seq<BlockInfo>, e: Extent, off: nat, buf: seq<byte>, shifted: bool,
                       other: seq<BlockInfo>)
    requires BlocksIn(mem, blocks) && PieceOk(blocks, e, off, |buf|, shifted) && BlocksIn(mem, other) && Disjoint(blocks, other)
    ensures Fits(mem, e, |buf|, shifted)
    ensures BlocksIn(StoreOne(mem, e, buf, shifted), other)
    ensures Backing(StoreOne(mem, e, buf, shifted), other) == Backing(mem, other)
  {
    var from, block := BufferPos(e, shifted), blocks[e.blockIdx];
    assert [block][0] == block;
    PutElsewhere(mem, block, e.memOffset - block.startAddr, buf[from..from + e.length], other);
  }

  lemma PieceLoaded(mem: Memory, blocks: seq<BlockInfo>, e: Extent, off: nat, buf: seq<byte>, shifted: bool)
    requires BlocksIn(mem, blocks) && PieceOk(blocks, e, off, |buf|, shifted)
    ensures Fits(mem, e, |buf|, shifted)
    ensures var pos := off + e.buffOffset;
            && pos + e.length <= |blocks| * FILE_BLOCK_SIZE
            && LoadOne(mem, e, buf, shifted) == Splice(buf, BufferPos(e, shifted), Backing(mem, blocks)[pos..pos + e.length])
  {
    var pos := off + e.buffOffset;
    var got, expected := Get(mem, e.serverId, e.memOffset, e.length), Backing(mem, blocks)[pos..pos + e.length];
    forall k | 0 <= k < e.length ensures got[k] == expected[k] {
      assert (pos + k) / FILE_BLOCK_SIZE == e.blockIdx;
      assert expected[k] == ByteAt(mem, blocks, pos + k);
    }
    assert got == expected;
  }

  /** A store through a reply that is up to date changes its own file only, and there only its piece. */
  lemma StoreMoved(sys: System, name: FileName, e: Extent, off: nat, buf: seq<byte>, shifted: bool)
    requires Consistent(sys) && IsFile(sys.meta, name) && PieceOk(InodeOf(sys.meta, name).blocks, e, off, |buf|, shifted)
    ensures Fits(sys.mem, e, |buf|, shifted) && Backed(sys) && name.hash in FilesOf(sys)
    ensures var after, pos, from := sys.(mem := StoreOne(sys.mem, e, buf, shifted)), off + e.buffOffset, BufferPos(e, shifted);
            && Consistent(after) && Backed(after)
            && var file := FilesOf(sys)[name.hash];
               (pos + e.length <= |file.backing|
                && FilesOf(after)
                   == FilesOf(sys)[name.hash := file.(backing := Splice(file.backing, pos, buf[from..from + e.length]))])
  {
    var inum := InumOf(sys.meta, name);
    PieceFits(sys, name, e, off, |buf|, shifted);
    InodeBlocksDistinct(sys.meta, inum);
    PieceStored(sys.mem, InodeOf(sys.meta, name).blocks, e, off, buf, shifted);
    var after := sys.(mem := StoreOne(sys.mem, e, buf, shifted));
    StoreKeepsShape(sys, after.mem);
    InvBacked(sys);
    InvBacked(after);
    EntryBacking(sys, name);
    EntryBacking(after, name);
    forall k | k in Directory(sys.meta) && k != name.hash ensures EntryKept(sys, after, k) {
      StoreKeepsOther(sys, after, name, e, off, buf, shifted, k);
    }
    hide *;
    SameSizes(sys, after, name);
    FilesUpdated(sys, after, name.hash);
  }

  lemma SameSizes(sys: System, after: System, name: FileName)
    requires Backed(sys) && Backed(after) && after.meta == sys.meta && IsFile(sys.meta, name)
    ensures Directory(after.meta) == Directory(sys.meta) && Directory(after.meta).Keys == Directory(sys.meta).Keys + {name.hash}
    ensures name.hash in FilesOf(sys) && name.hash in FilesOf(after)
    ensures FilesOf(after)[name.hash] == FilesOf(sys)[name.hash].(backing := FilesOf(after)[name.hash].backing)
  {
  }

  lemma StoreKeepsOther(sys: System, after: System, name: FileName, e: Extent, off: nat, buf: seq<byte>, shifted: bool, h: nat)
    requires Consistent(sys) && IsFile(sys.meta, name) && PieceOk(InodeOf(sys.meta, name).blocks, e, off, |buf|, shifted)
    requires Fits(sys.mem, e, |buf|, shifted) && after == sys.(mem := StoreOne(sys.mem, e, buf, shifted))
    requires Backed(sys) && Backed(after) && h in Directory(sys.meta) && h != name.hash
    ensures EntryKept(sys, after, h)
  {
    var i, inum := Directory(sys.meta)[h].inum, InumOf(sys.meta, name);
    EntriesNotRoot(sys.meta);
    InodesDisjoint(sys.meta, inum, i);
    PieceFits(sys, name, e, off, |buf|, shifted);
    BlocksInMemory(sys, i);
    hide Inv;
    hide PieceOk;
    hide Disjoint;
    hide BlocksIn;
    hide Backing;
    PieceElsewhere(sys.mem, InodeOf(sys.meta, name).blocks, e, off, buf, shifted, sys.meta.table.inodes[i].blocks);
  }

  // ----- every step -----

  /** The step keeps the invariant and is a step of the flat files. */
  ghost predicate Refines(w: World, step: Step, shifted: bool, w': World) {
    && WorldInv(w', shifted) && Backed(w.sys) && Backed(w'.sys)
    && SpecStep(FilesOf(w.sys), w.held, step, shifted, FilesOf(w'.sys), w'.held)
  }

  lemma RequestKeeps(sys: System, op: Op, shifted: bool, sys': System, reply: Reply, other: FileName)
    requires SysInv(sys) && Cluster.Next(sys, op, shifted, sys', reply) && (op.Create? || op.Remove? || op.Register?)
    requires op.Remove? ==> op.name.hash != other.hash
    ensures RootExists(sys.meta) && RootExists(sys'.meta) && Kept(sys.meta, sys'.meta, other)
  {
    match op
    case Create(name, isDir) => CreateKeeps(sys.meta, name, isDir, other);
    case Remove(name) => RemoveKeeps(sys.meta, name, other);
    case Register(_, _, _) =>
  }

  lemma RefinesFrom(w: World, step: Step, shifted: bool, w': World)
    requires WorldInv(w', shifted) && Backed(w.sys) && Backed(w'.sys)
    requires SpecStep(FilesOf(w.sys), w.held, step, shifted, FilesOf(w'.sys), w'.held)
    ensures Refines(w, step, shifted, w')
  {
  }

  lemma RequestIs(w: World, op: Op, reply: Reply, shifted: bool, w': World)
    requires WorldInv(w, shifted) && Next(w, Request(op, reply), shifted, w')
    ensures SysInv(w.sys) && (op.Create? || op.Remove? || op.Register?) && Cluster.Next(w.sys, op, shifted, w'.sys, reply)
    ensures InOneBlock(w.sys, op)
    ensures forall c :: c in w'.held && w'.held[c].live ==>
              && c in w.held && w'.held[c] == w.held[c] && ReplyOk(w.sys.meta, w.held[c], shifted)
              && (op.Remove? ==> op.name.hash != w.held[c].name.hash)
  {
    hide ReplyOk;
    hide SysInv;
  }

  lemma InvFrom(w: World, shifted: bool)
    requires SysInv(w.sys) && forall c :: c in w.held && w.held[c].live ==> ReplyOk(w.sys.meta, w.held[c], shifted)
    ensures WorldInv(w, shifted)
  {
  }

  lemma RequestSpec(files: map<nat, File>, held: map<nat, Held>, op: Op, reply: Reply, shifted: bool,
                    files': map<nat, File>, held': map<nat, Held>)
    requires SpecNext(files, op, reply, files')
    ensures SpecStep(files, held, Request(op, reply), shifted, files', held')
  {
  }

  lemma RequestStep(w: World, op: Op, reply: Reply, shifted: bool, w': World)
    requires WorldInv(w, shifted) && Next(w, Request(op, reply), shifted, w')
    ensures Refines(w, Request(op, reply), shifted, w')
  {
    hide *;
    RequestIs(w, op, reply, shifted, w');
    StepSpec(w.sys, op, shifted, w'.sys, reply);
    forall c | c in w'.held && w'.held[c].live ensures ReplyOk(w'.sys.meta, w'.held[c], shifted) {
      RequestKeeps(w.sys, op, shifted, w'.sys, reply, w.held[c].name);
      KeptReply(w.sys.meta, w'.sys.meta, w.held[c], shifted);
    }
    InvFrom(w', shifted);
    RequestSpec(FilesOf(w.sys), w.held, op, reply, shifted, FilesOf(w'.sys), w'.held);
    RefinesFrom(w, Request(op, reply), shifted, w');
  }

  lemma AnswerOk(grown: System, after: System, name: FileName, off: nat, data: seq<byte>, shifted: bool)
    requires Consistent(grown) && IsFile(grown.meta, name) && InFile(InodeOf(grown.meta, name).blocks, off, |data|)
    requires after.meta == WithInode(grown.meta, InumOf(grown.meta, name), Written(InodeOf(grown.meta, name), off, |data|))
    ensures ReplyOk(after.meta, Held(name, off, Storing, ExtentList(InodeOf(grown.meta, name).blocks, off, |data|), data, true), shifted)
  {
    var r := Held(name, off, Storing, ExtentList(InodeOf(grown.meta, name).blocks, off, |data|), data, true);
    ReplyPieces(InodeOf(grown.meta, name).blocks, off, |data|, |data|, shifted);
    RecordKeeps(grown.meta, name, off, |data|, name);
    hide PiecesOk;
    hide Inv;
    hide Written;
    hide Kept;
    assert ReplyOk(grown.meta, r, shifted);
    KeptReply(grown.meta, after.meta, r, shifted);
  }

  lemma AskWriteRefines(w: World, name: FileName, off: nat, data: seq<byte>, rolls: seq<nat>, shifted: bool)
    requires SysInv(w.sys) && CanWrite(w.sys.meta, name, off, |data|, rolls)
    ensures var after, extents := Asked(w, name, off, data, rolls), WriteEffect(w.sys.meta, name, off, |data|, rolls).1;
            && SysInv(after) && Backed(w.sys) && Backed(after)
            && ReplyOk(after.meta, Held(name, off, Storing, extents, data, true), shifted)
            && name.hash in FilesOf(after) && FilesOf(after) == FilesOf(w.sys)[name.hash := FilesOf(after)[name.hash]]
            && Prepared(FileOrEmpty(FilesOf(w.sys), name.hash), FilesOf(after)[name.hash], off, |data|)
            && forall other :: ReplyOk(w.sys.meta, other, shifted) ==> ReplyOk(after.meta, other, shifted)
  {
    var found, grown := AskWriteAnswers(w, name, off, data, rolls);
    var after := Asked(w, name, off, data, rolls);
    WriteAddressable(w.sys.meta, name, off, |data|, rolls);
    AnswerParts(w.sys, after, found, grown, name, off, |data|, rolls);
    hide WriteEffect;
    hide CanWrite;
    hide Answers;
    hide Written;
    hide Inv;
    hide ReplyOk;
    hide FilesOf;
    hide Backed;
    hide Prepared;
    hide Kept;
    AnswersRefines(w.sys, after, found, grown, name, off, |data|, rolls);
    AnswerOk(grown, after, name, off, data, shifted);
    forall other | ReplyOk(w.sys.meta, other, shifted) ensures ReplyOk(after.meta, other, shifted) {
      WriteKeeps(w.sys, after, found, grown, name, off, |data|, rolls, other.name);
      ReplyRoot(w.sys.meta, other, shifted);
      KeptReply(w.sys.meta, after.meta, other, shifted);
    }
  }

  lemma ReplyRoot(m: Meta, r: Held, shifted: bool)
    requires ReplyOk(m, r, shifted)
    ensures RootExists(m) && IsFile(m, r.name)
  {
  }

  lemma AnswerParts(sys: System, after: System, found: System, grown: System, name: FileName, off: nat, len: nat, rolls: seq<nat>)
    requires Consistent(sys) && Answers(sys, after, found, grown, name, off, len, rolls)
    ensures RootExists(sys.meta) && RootExists(grown.meta) && IsFile(grown.meta, name) && Consistent(grown)
    ensures InFile(InodeOf(grown.meta, name).blocks, off, len)
    ensures after.meta == WithInode(grown.meta, InumOf(grown.meta, name), Written(InodeOf(grown.meta, name), off, len))
  {
    FirstPhases(sys, found, grown, name, off, len, rolls);
  }

  lemma AskWriteIs(w: World, c: nat, name: FileName, off: nat, data: seq<byte>, rolls: seq<nat>, shifted: bool, w': World)
    requires WorldInv(w, shifted) && Next(w, AskWrite(c, name, off, data, rolls), shifted, w')
    ensures SysInv(w.sys) && CanWrite(w.sys.meta, name, off, |data|, rolls) && w'.sys == Asked(w, name, off, data, rolls)
    ensures var extents := WriteEffect(w.sys.meta, name, off, |data|, rolls).1;
            w'.held == w.held[c := Held(name, off, Storing, extents, data, true)]
  {
    hide SysInv;
    hide ReplyOk;
    hide CanWrite;
    hide WriteEffect;
  }

  /** One more reply is held, and the others are as good as before. */
  lemma HoldOneMore(w: World, w': World, c: nat, r: Held, shifted: bool)
    requires WorldInv(w, shifted) && SysInv(w'.sys) && w'.held == w.held[c := r] && ReplyOk(w'.sys.meta, r, shifted)
    requires forall other :: ReplyOk(w.sys.meta, other, shifted) ==> ReplyOk(w'.sys.meta, other, shifted)
    ensures WorldInv(w', shifted)
  {
    hide SysInv;
    hide ReplyOk;
  }

  lemma AskWriteSpec(files: map<nat, File>, held: map<nat, Held>, c: nat, name: FileName, off: nat, data: seq<byte>,
                     rolls: seq<nat>, shifted: bool, files': map<nat, File>, held': map<nat, Held>)
    requires name.hash in files' && files' == files[name.hash := files'[name.hash]]
    requires Prepared(FileOrEmpty(files, name.hash), files'[name.hash], off, |data|)
    ensures SpecStep(files, held, AskWrite(c, name, off, data, rolls), shifted, files', held')
  {
  }

  lemma AskWriteStep(w: World, c: nat, name: FileName, off: nat, data: seq<byte>, rolls: seq<nat>, shifted: bool, w': World)
    requires WorldInv(w, shifted) && Next(w, AskWrite(c, name, off, data, rolls), shifted, w')
    ensures Refines(w, AskWrite(c, name, off, data, rolls), shifted, w')
  {
    hide *;
    AskWriteIs(w, c, name, off, data, rolls, shifted, w');
    AskWriteRefines(w, name, off, data, rolls, shifted);
    HoldOneMore(w, w', c, w'.held[c], shifted);
    AskWriteSpec(FilesOf(w.sys), w.held, c, name, off, data, rolls, shifted, FilesOf(w'.sys), w'.held);
    RefinesFrom(w, AskWrite(c, name, off, data, rolls), shifted, w');
  }

  lemma AskReadHeld(w: World, c: nat, name: FileName, off: nat, len: nat, buf: seq<byte>, shifted: bool, w': World)
    requires WorldInv(w, shifted) && Next(w, AskRead(c, name, off, len, buf), shifted, w')
    ensures SysInv(w.sys) && Consistent(w.sys) && w'.sys == w.sys && RootExists(w.sys.meta) && IsFile(w.sys.meta, name)
    ensures c in w'.held && w'.held == w.held[c := w'.held[c]] && ReplyOk(w.sys.meta, w'.held[c], shifted)
  {
    ReplyIsClipped(w.sys.meta, name, off, len);
    var inode := InodeOf(w.sys.meta, name);
    ReplyPieces(inode.blocks, off, Clipped(off, len, inode.size), |buf|, shifted);
    hide ReadReply;
    hide PiecesOk;
    hide Inv;
    hide ExtentList;
  }

  lemma AskReadStep(w: World, c: nat, name: FileName, off: nat, len: nat, buf: seq<byte>, shifted: bool, w': World)
    requires WorldInv(w, shifted) && Next(w, AskRead(c, name, off, len, buf), shifted, w')
    ensures Refines(w, AskRead(c, name, off, len, buf), shifted, w')
  {
    hide *;
    AskReadHeld(w, c, name, off, len, buf, shifted, w');
    EntryIs(w.sys, name);
    HoldOneMore(w, w', c, w'.held[c], shifted);
    AskReadSpec(FilesOf(w.sys), w.held, c, name, off, len, buf, shifted, w'.held);
    RefinesFrom(w, AskRead(c, name, off, len, buf), shifted, w');
  }

  lemma AskReadSpec(files: map<nat, File>, held: map<nat, Held>, c: nat, name: FileName, off: nat, len: nat, buf: seq<byte>,
                    shifted: bool, held': map<nat, Held>)
    requires name.hash in files
    ensures SpecStep(files, held, AskRead(c, name, off, len, buf), shifted, files, held')
  {
  }

  lemma RestOk(m: Meta, r: Held, shifted: bool, rest: Held)
    requires ReplyOk(m, r, shifted) && r.extents != [] && |rest.buf| == |r.buf|
    requires rest == r.(extents := r.extents[1..], buf := rest.buf)
    ensures PieceOk(InodeOf(m, r.name).blocks, r.extents[0], r.off, |r.buf|, shifted)
    ensures ReplyOk(m, rest, shifted)
  {
    hide PieceOk;
    forall k | 0 <= k < |rest.extents|
      ensures PieceOk(InodeOf(m, r.name).blocks, rest.extents[k], rest.off, |rest.buf|, shifted)
    {
      assert rest.extents[k] == r.extents[k + 1];
    }
  }

  lemma LoadMoved(sys: System, name: FileName, e: Extent, off: nat, buf: seq<byte>, shifted: bool)
    requires Consistent(sys) && IsFile(sys.meta, name) && PieceOk(InodeOf(sys.meta, name).blocks, e, off, |buf|, shifted)
    ensures Fits(sys.mem, e, |buf|, shifted) && Backed(sys) && name.hash in FilesOf(sys)
    ensures var file, pos := FilesOf(sys)[name.hash], off + e.buffOffset;
            && pos + e.length <= |file.backing|
            && LoadOne(sys.mem, e, buf, shifted) == Splice(buf, BufferPos(e, shifted), file.backing[pos..pos + e.length])
  {
    PieceFits(sys, name, e, off, |buf|, shifted);
    InvBacked(sys);
    EntryBacking(sys, name);
    hide Inv;
    hide Backing;
    hide FilesOf;
    PieceLoaded(sys.mem, InodeOf(sys.meta, name).blocks, e, off, buf, shifted);
  }

  lemma MoveShape(w: World, c: nat, shifted: bool, w': World)
    requires Next(w, Move(c), shifted, w')
    ensures w'.sys.meta == w.sys.meta && SameShape(w.sys.mem, w'.sys.mem)
    ensures c in w.held && w.held[c].extents != [] && w'.held == w.held[c := w'.held[c]]
    ensures |w'.held[c].buf| == |w.held[c].buf|
    ensures w'.held[c] == w.held[c].(extents := w.held[c].extents[1..], buf := w'.held[c].buf)
  {
  }

  /** Moving a piece keeps the invariant, whether or not the reply is up to date. */
  lemma MoveKeeps(w: World, c: nat, shifted: bool, w': World)
    requires WorldInv(w, shifted) && Next(w, Move(c), shifted, w')
    ensures WorldInv(w', shifted)
  {
    MoveShape(w, c, shifted, w');
    StoreKeepsShape(w.sys, w'.sys.mem);
    hide Consistent;
    hide Addressable;
    hide ReplyOk;
    hide Next;
    forall d | d in w'.held && w'.held[d].live ensures ReplyOk(w'.sys.meta, w'.held[d], shifted) {
      if d == c {
        RestOk(w.sys.meta, w.held[c], shifted, w'.held[c]);
      }
    }
  }

  /** What a move through a reply that is up to date works on, and what it leaves. */
  lemma MoveIs(w: World, c: nat, shifted: bool, w': World)
    requires WorldInv(w, shifted) && Next(w, Move(c), shifted, w') && w.held[c].live
    ensures CanMove(w, c, shifted) && Consistent(w.sys) && RootExists(w.sys.meta) && IsFile(w.sys.meta, w.held[c].name)
    ensures var r := w.held[c];
            && PieceOk(InodeOf(w.sys.meta, r.name).blocks, r.extents[0], r.off, |r.buf|, shifted)
            && c in w'.held
            && (r.task.Storing? ==> w'.sys == w.sys.(mem := StoreOne(w.sys.mem, r.extents[0], r.buf, shifted)))
            && (r.task.Loading? ==>
                  w'.sys == w.sys && w'.held[c].buf == LoadOne(w.sys.mem, r.extents[0], r.buf, shifted))
  {
    var r := w.held[c];
    RestOk(w.sys.meta, r, shifted, r.(extents := r.extents[1..]));
    ReplyRoot(w.sys.meta, r, shifted);
    hide Inv;
    hide ReplyOk;
    hide PieceOk;
    hide StoreOne;
    hide LoadOne;
    hide Fits;
  }

  lemma StorePieceSpec(files: map<nat, File>, r: Held, shifted: bool, files': map<nat, File>, r': Held)
    requires r.task.Storing? && r.name.hash in files && r.extents != []
    requires var file, e := files[r.name.hash], r.extents[0];
             var pos, from := r.off + e.buffOffset, BufferPos(e, shifted);
             && pos + e.length <= |file.backing| && from + e.length <= |r.buf|
             && files' == files[r.name.hash := file.(backing := Splice(file.backing, pos, r.buf[from..from + e.length]))]
    ensures PieceMoved(files, r, shifted, files', r')
  {
  }

  lemma LoadPieceSpec(files: map<nat, File>, r: Held, shifted: bool, r': Held)
    requires r.task.Loading? && r.name.hash in files && r.extents != []
    requires var file, e := files[r.name.hash], r.extents[0];
             var pos, from := r.off + e.buffOffset, BufferPos(e, shifted);
             && pos + e.length <= |file.backing| && from + e.length <= |r.buf|
             && r'.buf == Splice(r.buf, from, file.backing[pos..pos + e.length])
    ensures PieceMoved(files, r, shifted, files, r')
  {
  }

  lemma RoomFor(blocks: seq<BlockInfo>, e: Extent, off: nat, room: nat, shifted: bool)
    requires PieceOk(blocks, e, off, room, shifted)
    ensures BufferPos(e, shifted) + e.length <= room
  {
  }

  lemma CanMoveHas(w: World, c: nat, shifted: bool)
    requires CanMove(w, c, shifted)
    ensures c in w.held && w.held[c].extents != []
  {
  }

  lemma PieceStep(w: World, c: nat, shifted: bool, w': World)
    requires WorldInv(w, shifted) && Next(w, Move(c), shifted, w') && c in w.held && w.held[c].live
    requires Backed(w.sys) && Backed(w'.sys)
    ensures c in w'.held && PieceMoved(FilesOf(w.sys), w.held[c], shifted, FilesOf(w'.sys), w'.held[c])
  {
    hide *;
    var r := w.held[c];
    MoveIs(w, c, shifted, w');
    CanMoveHas(w, c, shifted);
    RoomFor(InodeOf(w.sys.meta, r.name).blocks, r.extents[0], r.off, |r.buf|, shifted);
    match r.task
    case Storing =>
      StoreMoved(w.sys, r.name, r.extents[0], r.off, r.buf, shifted);
      StorePieceSpec(FilesOf(w.sys), r, shifted, FilesOf(w'.sys), w'.held[c]);
    case Loading =>
      LoadMoved(w.sys, r.name, r.extents[0], r.off, r.buf, shifted);
      LoadPieceSpec(FilesOf(w.sys), r, shifted, w'.held[c]);
  }

  lemma MoveParts(w: World, c: nat, shifted: bool, w': World)
    requires WorldInv(w, shifted) && Next(w, Move(c), shifted, w') && WorldInv(w', shifted)
    ensures Consistent(w.sys) && Consistent(w'.sys) && c in w.held && c in w'.held
    ensures w.held[c].task.Loading? ==> w'.sys == w.sys
  {
  }

  lemma MoveSpec(files: map<nat, File>, held: map<nat, Held>, c: nat, shifted: bool, files': map<nat, File>, held': map<nat, Held>)
    requires c in held && c in held' && (held[c].task.Loading? ==> files' == files)
    requires held[c].live ==> PieceMoved(files, held[c], shifted, files', held'[c])
    ensures SpecStep(files, held, Move(c), shifted, files', held')
  {
  }

  lemma MoveStep(w: World, c: nat, shifted: bool, w': World)
    requires WorldInv(w, shifted) && Next(w, Move(c), shifted, w')
    ensures Refines(w, Move(c), shifted, w')
  {
    hide *;
    MoveKeeps(w, c, shifted, w');
    MoveParts(w, c, shifted, w');
    InvBacked(w.sys);
    InvBacked(w'.sys);
    if w.held[c].live {
      PieceStep(w, c, shifted, w');
    }
    MoveSpec(FilesOf(w.sys), w.held, c, shifted, FilesOf(w'.sys), w'.held);
    RefinesFrom(w, Move(c), shifted, w');
  }

  lemma StepRefines(w: World, step: Step, shifted: bool, w': World)
    requires WorldInv(w, shifted) && Next(w, step, shifted, w')
    ensures Refines(w, step, shifted, w')
  {
    hide *;
    match step
    case Request(op, reply) => RequestStep(w, op, reply, shifted, w');
    case AskWrite(c, name, off, data, rolls) => AskWriteStep(w, c, name, off, data, rolls, shifted, w');
    case AskRead(c, name, off, len, buf) => AskReadStep(w, c, name, off, len, buf, shifted, w');
    case Move(c) => MoveStep(w, c, shifted, w');
  }

  // ----- runs -----

  ghost predicate Run(worlds: seq<World>, steps: seq<Step>, shifted: bool) {
    && |worlds| == |steps| + 1 && worlds[0] == World(System(Meta(NewTable(100), map[]), map[]), map[])
    && forall k :: 0 <= k < |steps| ==> Next(worlds[k], steps[k], shifted, worlds[k + 1])
  }

  lemma StartInv(shifted: bool)
    ensures WorldInv(World(System(Meta(NewTable(100), map[]), map[]), map[]), shifted)
  {
    InitialInv(100);
    hide Inv;
  }

  lemma {:induction false} RunInv(worlds: seq<World>, steps: seq<Step>, shifted: bool, k: nat)
    requires Run(worlds, steps, shifted) && k <= |steps|
    ensures WorldInv(worlds[k], shifted)
    decreases k
  {
    hide WorldInv;
    hide Next;
    if k == 0 {
      StartInv(shifted);
    } else {
      RunInv(worlds, steps, shifted, k - 1);
      StepRefines(worlds[k - 1], steps[k - 1], shifted, worlds[k]);
      RefinesInv(worlds[k - 1], steps[k - 1], shifted, worlds[k]);
    }
  }

  lemma RefinesInv(w: World, step: Step, shifted: bool, w': World)
    requires Refines(w, step, shifted, w')
    ensures WorldInv(w', shifted) && Backed(w.sys) && Backed(w'.sys)
    ensures SpecStep(FilesOf(w.sys), w.held, step, shifted, FilesOf(w'.sys), w'.held)
  {
  }

  /** In every run, with the requests and the single transfers of all clients interleaved in any order,
      the ownership invariant holds in every state; a write request only makes room, and a transfer
      through a reply whose file has not been removed moves just its piece of that file. */
  lemma RunRefinesPieces(worlds: seq<World>, steps: seq<Step>, shifted: bool)
    requires Run(worlds, steps, shifted)
    ensures forall k :: 0 <= k < |worlds| ==> SysInv(worlds[k].sys) && Backed(worlds[k].sys)
    ensures forall k :: 0 <= k < |steps| ==>
              SpecStep(FilesOf(worlds[k].sys), worlds[k].held, steps[k], shifted,
                       FilesOf(worlds[k + 1].sys), worlds[k + 1].held)
  {
    hide SpecStep;
    hide FilesOf;
    hide Next;
    forall k | 0 <= k < |worlds| ensures SysInv(worlds[k].sys) && Backed(worlds[k].sys) {
      RunInv(worlds, steps, shifted, k);
      InvBacked(worlds[k].sys);
    }
    forall k | 0 <= k < |steps|
      ensures SpecStep(FilesOf(worlds[k].sys), worlds[k].held, steps[k], shifted,
                       FilesOf(worlds[k + 1].sys), worlds[k + 1].held)
    {
      RunInv(worlds, steps, shifted, k);
      StepRefines(worlds[k], steps[k], shifted, worlds[k + 1]);
      RefinesInv(worlds[k], steps[k], shifted, worlds[k + 1]);
    }
  }
}
