/** What holding a reply means for the client that holds it and for the other files. */
module ReplyRuns {
  import opened Blocks
  import opened MinHeap
  import opened SpaceManagers
  import opened Files
  import opened Extents
  import opened MetaServer
  import opened Ownership
  import opened Storage
  import opened Cluster
  import opened HeldReplies

  // ----- a write among the steps of other clients -----

  /** Step i of a run is none that may touch what client c is writing: it neither removes the file, nor
      starts another request of c, nor stores for another client into the file or through a reply that is
      out of date. */
  ghost predicate Harmless(w: World, step: HeldReplies.Step, c: nat, h: nat) {
    match step
    case Request(op, _) => op.Remove? ==> op.name.hash != h
    case AskWrite(d, _, _, _, _) => d != c
    case AskRead(d, _, _, _, _) => d != c
    case Move(d) => d == c || (d in w.held && (w.held[d].task.Storing? ==> w.held[d].live && w.held[d].name.hash != h))
  }

  /** Of the data, the first n bytes are in the file and the reply holds the extents of the rest. */
  ghost predicate Progress(files: map<nat, File>, r: Held, name: FileName, off: nat, data: seq<byte>, n: nat) {
    && r.live && r.task.Storing? && r.name == name && r.off == off && r.buf == data
    && n <= |data| && Contiguous(r.extents, n, |data|)
    && name.hash in files && off + |data| <= |files[name.hash].backing|
    && files[name.hash].backing[off..off + n] == data[..n]
  }

  lemma ContiguousRest(extents: seq<Extent>, buff: nat, end: nat)
    requires Contiguous(extents, buff, end) && extents != []
    ensures extents[0].buffOffset == buff
    ensures Contiguous(extents[1..], buff + extents[0].length, end)
  {
    var rest := extents[1..];
    forall k | 0 < k < |rest| ensures rest[k].buffOffset == rest[k - 1].buffOffset + rest[k - 1].length {
      assert extents[k + 1].buffOffset == extents[k].buffOffset + extents[k].length;
    }
  }

  lemma SpliceGrows(s: seq<byte>, off: nat, data: seq<byte>, n: nat, m: nat)
    requires n + m <= |data| && off + |data| <= |s| && s[off..off + n] == data[..n]
    ensures Splice(s, off + n, data[n..n + m])[off..off + (n + m)] == data[..n + m]
  {
    var t := Splice(s, off + n, data[n..n + m]);
    var got := t[off..off + (n + m)];
    forall k | 0 <= k < n + m ensures got[k] == data[k] {
      if k < n {
        assert s[off..off + n][k] == s[off + k];
      }
    }
    assert got == data[..n + m];
  }

  lemma OwnMove(files: map<nat, File>, r: Held, files': map<nat, File>, r': Held, name: FileName, off: nat, data: seq<byte>, n: nat)
    returns (m: nat)
    requires Progress(files, r, name, off, data, n) && PieceMoved(files, r, true, files', r')
    requires r.extents != [] && r' == r.(extents := r.extents[1..])
    ensures Progress(files', r', name, off, data, m)
  {
    var e := r.extents[0];
    ContiguousRest(r.extents, n, |data|);
    SpliceGrows(files[name.hash].backing, off, data, n, e.length);
    hide Contiguous;
    m := n + e.length;
  }

  /** A harmless step of another client leaves the bytes of the file where they are. */
  lemma OthersKeep(files: map<nat, File>, w: World, step: HeldReplies.Step, files': map<nat, File>, w': World, c: nat, h: nat)
    requires SpecStep(files, w.held, step, true, files', w'.held) && Harmless(w, step, c, h) && step != Move(c)
    requires h in files && (step.Request? ==> step.op.Create? || step.op.Remove? || step.op.Register?)
    ensures h in files' && files[h].backing <= files'[h].backing
  {
  }

  lemma OthersHold(w: World, step: HeldReplies.Step, w': World, c: nat, h: nat)
    requires HeldReplies.Next(w, step, true, w') && Harmless(w, step, c, h) && step != Move(c)
    requires c in w.held && w.held[c].name.hash == h
    ensures c in w'.held && w'.held[c] == w.held[c]
    ensures step.Request? ==> step.op.Create? || step.op.Remove? || step.op.Register?
  {
    hide CanWrite;
    hide CanRead;
    hide WriteEffect;
    hide ReadReply;
    hide StoreOne;
    hide LoadOne;
    hide Cluster.Next;
  }

  lemma PrefixKeeps(files: map<nat, File>, files': map<nat, File>, r: Held, name: FileName, off: nat, data: seq<byte>, n: nat)
    requires Progress(files, r, name, off, data, n)
    requires name.hash in files' && files[name.hash].backing <= files'[name.hash].backing
    ensures Progress(files', r, name, off, data, n)
  {
    var a, b := files[name.hash].backing, files'[name.hash].backing;
    assert b[off..off + n] == a[off..off + n];
  }

  lemma OwnHold(w: World, c: nat, w': World)
    requires HeldReplies.Next(w, Move(c), true, w')
    ensures c in w.held && c in w'.held && w.held[c].extents != []
    ensures w.held[c].task.Storing? ==> w'.held[c] == w.held[c].(extents := w.held[c].extents[1..])
  {
    hide StoreOne;
    hide LoadOne;
  }

  lemma ProgressStep(w: World, step: HeldReplies.Step, w': World, c: nat, name: FileName, off: nat, data: seq<byte>, n: nat)
    returns (m: nat)
    requires WorldInv(w, true) && HeldReplies.Next(w, step, true, w') && Harmless(w, step, c, name.hash)
    requires Backed(w.sys) && c in w.held && Progress(FilesOf(w.sys), w.held[c], name, off, data, n)
    ensures Backed(w'.sys) && c in w'.held && Progress(FilesOf(w'.sys), w'.held[c], name, off, data, m)
  {
    HeldReplies.StepRefines(w, step, true, w');
    RefinesInv(w, step, true, w');
    ProgressHeld(FilesOf(w.sys), w.held[c], name, off, data, n);
    hide *;
    if step == Move(c) {
      OwnHold(w, c, w');
      MoveSpecOut(FilesOf(w.sys), w.held, c, FilesOf(w'.sys), w'.held);
      m := OwnMove(FilesOf(w.sys), w.held[c], FilesOf(w'.sys), w'.held[c], name, off, data, n);
    } else {
      OthersHold(w, step, w', c, name.hash);
      OthersKeep(FilesOf(w.sys), w, step, FilesOf(w'.sys), w', c, name.hash);
      PrefixKeeps(FilesOf(w.sys), FilesOf(w'.sys), w.held[c], name, off, data, n);
      m := n;
    }
  }

  lemma ProgressHeld(files: map<nat, File>, r: Held, name: FileName, off: nat, data: seq<byte>, n: nat)
    requires Progress(files, r, name, off, data, n)
    ensures r.live && r.task.Storing? && r.name == name && name.hash in files
  {
  }

  lemma MoveSpecOut(files: map<nat, File>, held: map<nat, Held>, c: nat, files': map<nat, File>, held': map<nat, Held>)
    requires SpecStep(files, held, Move(c), true, files', held') && c in held && held[c].live
    ensures c in held' && PieceMoved(files, held[c], true, files', held'[c])
  {
  }

  /** The run up to step k leaves client c's write, asked for at step j, in progress. */
  ghost predicate Undisturbed(worlds: seq<World>, steps: seq<HeldReplies.Step>, c: nat, h: nat, j: nat, k: nat)
    requires j <= k <= |steps| && |worlds| == |steps| + 1
  {
    forall i :: j < i < k ==> Harmless(worlds[i], steps[i], c, h)
  }

  lemma ProgressStart(w: World, c: nat, name: FileName, off: nat, data: seq<byte>, rolls: seq<nat>, w': World)
    requires WorldInv(w, true) && HeldReplies.Next(w, AskWrite(c, name, off, data, rolls), true, w')
    ensures Backed(w'.sys) && c in w'.held && Progress(FilesOf(w'.sys), w'.held[c], name, off, data, 0)
  {
    AskWriteIs(w, c, name, off, data, rolls, true, w');
    AskWriteRefines(w, name, off, data, rolls, true);
    var found, grown := AskWriteAnswers(w, name, off, data, rolls);
    AnswerParts(w.sys, w'.sys, found, grown, name, off, |data|, rolls);
    ExtentListTranslates(InodeOf(grown.meta, name).blocks, off, |data|);
    hide *;
    RoomAfter(FilesOf(w.sys), FilesOf(w'.sys), name.hash, off, |data|);
    ProgressNone(FilesOf(w'.sys), w'.held[c], name, off, data);
  }

  lemma RoomAfter(files: map<nat, File>, files': map<nat, File>, h: nat, off: nat, len: nat)
    requires h in files' && Prepared(FileOrEmpty(files, h), files'[h], off, len)
    ensures off + len <= |files'[h].backing|
  {
  }

  lemma ProgressNone(files: map<nat, File>, r: Held, name: FileName, off: nat, data: seq<byte>)
    requires r == Held(name, off, Storing, r.extents, data, true) && Contiguous(r.extents, 0, |data|)
    requires name.hash in files && off + |data| <= |files[name.hash].backing|
    ensures Progress(files, r, name, off, data, 0)
  {
  }

  lemma {:induction false} WriteProgresses(worlds: seq<World>, steps: seq<HeldReplies.Step>, c: nat, name: FileName, off: nat,
                                           data: seq<byte>, rolls: seq<nat>, j: nat, k: nat)
    returns (n: nat)
    requires HeldReplies.Run(worlds, steps, true) && j < k <= |steps| && steps[j] == AskWrite(c, name, off, data, rolls)
    requires Undisturbed(worlds, steps, c, name.hash, j, k)
    ensures Backed(worlds[k].sys) && c in worlds[k].held
    ensures Progress(FilesOf(worlds[k].sys), worlds[k].held[c], name, off, data, n)
    decreases k
  {
    hide Progress;
    hide WorldInv;
    hide HeldReplies.Next;
    hide Harmless;
    HeldReplies.RunInv(worlds, steps, true, k - 1);
    if k == j + 1 {
      ProgressStart(worlds[j], c, name, off, data, rolls, worlds[k]);
      n := 0;
    } else {
      n := WriteProgresses(worlds, steps, c, name, off, data, rolls, j, k - 1);
      n := ProgressStep(worlds[k - 1], steps[k - 1], worlds[k], c, name, off, data, n);
    }
  }

  /** A client that has moved its last extent has its data in the file, whatever other clients did
      between its transfers, if none of them removed or stored into the file and none stored through a
      reply that was out of date. */
  lemma WriteCompletes(worlds: seq<World>, steps: seq<HeldReplies.Step>, c: nat, name: FileName, off: nat,
                       data: seq<byte>, rolls: seq<nat>, j: nat, k: nat)
    requires HeldReplies.Run(worlds, steps, true) && j < k <= |steps| && steps[j] == AskWrite(c, name, off, data, rolls)
    requires Undisturbed(worlds, steps, c, name.hash, j, k)
    requires c in worlds[k].held && worlds[k].held[c].extents == []
    ensures Backed(worlds[k].sys) && name.hash in FilesOf(worlds[k].sys)
    ensures var backing := FilesOf(worlds[k].sys)[name.hash].backing;
            off + |data| <= |backing| && backing[off..off + |data|] == data
  {
    var n := WriteProgresses(worlds, steps, c, name, off, data, rolls, j, k);
    ProgressDone(FilesOf(worlds[k].sys), worlds[k].held[c], name, off, data, n);
  }

  lemma ProgressDone(files: map<nat, File>, r: Held, name: FileName, off: nat, data: seq<byte>, n: nat)
    requires Progress(files, r, name, off, data, n) && r.extents == []
    ensures name.hash in files && off + |data| <= |files[name.hash].backing|
    ensures files[name.hash].backing[off..off + |data|] == data
  {
    assert data[..|data|] == data;
  }

  // ----- the requests of the module Cluster are runs of pieces -----

  /** From w, client c moves all it holds, and nobody else does anything. */
  ghost predicate MovesAll(worlds: seq<World>, w: World, c: nat, shifted: bool) {
    && |worlds| > 0 && worlds[0] == w && c in worlds[|worlds| - 1].held && worlds[|worlds| - 1].held[c].extents == []
    && forall k :: 0 <= k < |worlds| - 1 ==> HeldReplies.Next(worlds[k], Move(c), shifted, worlds[k + 1])
  }

  lemma MovesCons(w: World, rest: seq<World>, c: nat, shifted: bool)
    requires |rest| > 0 && MovesAll(rest, rest[0], c, shifted) && HeldReplies.Next(w, Move(c), shifted, rest[0])
    ensures MovesAll([w] + rest, w, c, shifted) && ([w] + rest)[|[w] + rest| - 1] == rest[|rest| - 1]
  {
    var all := [w] + rest;
    hide HeldReplies.Next;
    forall k | 0 <= k < |all| - 1 ensures HeldReplies.Next(all[k], Move(c), shifted, all[k + 1]) {
      assert all[k + 1] == rest[k];
      assert k > 0 ==> all[k] == rest[k - 1];
    }
  }

  lemma MoveFirst(w: World, c: nat, shifted: bool) returns (w': World)
    requires c in w.held && w.held[c].extents != [] && AllFit(w.sys.mem, w.held[c].extents, |w.held[c].buf|, shifted)
    ensures HeldReplies.Next(w, Move(c), shifted, w') && c in w'.held && w'.sys.meta == w.sys.meta
    ensures var r, r', mem := w.held[c], w'.held[c], w.sys.mem;
            && r' == r.(extents := r.extents[1..], buf := r'.buf) && |r'.buf| == |r.buf|
            && AllFit(w'.sys.mem, r'.extents, |r'.buf|, shifted)
            && (r.task.Storing? ==> r'.buf == r.buf)
            && (r.task.Storing? ==>
                  StoreAll(w'.sys.mem, r'.extents, r'.buf, shifted) == StoreAll(mem, r.extents, r.buf, shifted))
            && (r.task.Loading? ==> w'.sys.mem == mem)
            && (r.task.Loading? ==>
                  LoadAll(mem, r'.extents, r'.buf, shifted) == LoadAll(mem, r.extents, r.buf, shifted))
  {
    var r := w.held[c];
    assert r.extents == [r.extents[0]] + r.extents[1..];
    forall k | 0 <= k < |r.extents| - 1 ensures Fits(w.sys.mem, r.extents[1..][k], |r.buf|, shifted) {
      assert r.extents[1..][k] == r.extents[k + 1];
    }
    hide Fits;
    FirstThenRest(w.sys.mem, r.extents[0], r.extents[1..], r.buf, shifted);
    w' := Moved(w, c, shifted);
  }

  lemma MovedNone(w: World, c: nat, shifted: bool)
    requires c in w.held && w.held[c].extents == []
    ensures var r := w.held[c];
            && MovesAll([w], w, c, shifted) && AllFit(w.sys.mem, r.extents, |r.buf|, shifted)
            && StoreAll(w.sys.mem, r.extents, r.buf, shifted) == w.sys.mem
            && LoadAll(w.sys.mem, r.extents, r.buf, shifted) == r.buf
  {
  }

  /** A client that goes on without interruption ends where the loops of its `read` and `write` end. */
  lemma {:induction false} MovesToEnd(w: World, c: nat, shifted: bool) returns (worlds: seq<World>)
    requires c in w.held && AllFit(w.sys.mem, w.held[c].extents, |w.held[c].buf|, shifted)
    ensures MovesAll(worlds, w, c, shifted) && |worlds| > 0 && c in worlds[|worlds| - 1].held
    ensures var r, end := w.held[c], worlds[|worlds| - 1];
            && end.sys.meta == w.sys.meta
            && (r.task.Storing? ==> end.sys.mem == StoreAll(w.sys.mem, r.extents, r.buf, shifted))
            && (r.task.Loading? ==> end.sys.mem == w.sys.mem)
            && (r.task.Loading? ==> end.held[c].buf == LoadAll(w.sys.mem, r.extents, r.buf, shifted))
    decreases |w.held[c].extents|
  {
    hide AllFit;
    hide StoreAll;
    hide LoadAll;
    hide HeldReplies.Next;
    hide MovesAll;
    if w.held[c].extents == [] {
      worlds := [w];
      MovedNone(w, c, shifted);
    } else {
      var w' := MoveFirst(w, c, shifted);
      var rest := MovesToEnd(w', c, shifted);
      FirstWorld(rest, w', c, shifted);
      MovesCons(w, rest, c, shifted);
      worlds := [w] + rest;
    }
  }

  lemma FirstWorld(worlds: seq<World>, w: World, c: nat, shifted: bool)
    requires MovesAll(worlds, w, c, shifted)
    ensures |worlds| > 0 && worlds[0] == w && MovesAll(worlds, worlds[0], c, shifted)
  {
  }

  /** A write in one step is a write request followed by all its moves. */
  lemma WriteIsPieces(w: World, c: nat, name: FileName, off: nat, data: seq<byte>, rolls: seq<nat>, shifted: bool,
                      sys': System, reply: Reply)
    returns (asked: World, worlds: seq<World>)
    requires Cluster.Next(w.sys, Op.Write(name, off, data, rolls), shifted, sys', reply)
    ensures HeldReplies.Next(w, AskWrite(c, name, off, data, rolls), shifted, asked)
    ensures MovesAll(worlds, asked, c, shifted) && |worlds| > 0 && worlds[|worlds| - 1].sys == sys'
  {
    var extents := WriteEffect(w.sys.meta, name, off, |data|, rolls).1;
    asked := World(Asked(w, name, off, data, rolls), w.held[c := Held(name, off, Storing, extents, data, true)]);
    hide CanWrite;
    hide WriteEffect;
    hide AllFit;
    worlds := MovesToEnd(asked, c, shifted);
  }

  /** A read in one step is a read request followed by all its moves. */
  lemma ReadIsPieces(w: World, c: nat, name: FileName, off: nat, len: nat, buf: seq<byte>, shifted: bool,
                     sys': System, reply: Reply)
    returns (asked: World, worlds: seq<World>)
    requires Cluster.Next(w.sys, Op.Read(name, off, len, buf), shifted, sys', reply)
    ensures HeldReplies.Next(w, AskRead(c, name, off, len, buf), shifted, asked)
    ensures MovesAll(worlds, asked, c, shifted) && |worlds| > 0 && c in worlds[|worlds| - 1].held
    ensures worlds[|worlds| - 1].sys == sys' && reply.Contents? && worlds[|worlds| - 1].held[c].buf == reply.buf
  {
    var extents := ReadReply(w.sys.meta, name, off, len).0;
    asked := w.(held := w.held[c := Held(name, off, Loading, extents, buf, true)]);
    hide CanRead;
    hide ReadReply;
    hide AllFit;
    worlds := MovesToEnd(asked, c, shifted);
  }

  // ----- replies that are out of date -----

  ghost predicate ChangesNoFile(sys: System, e: Extent, buf: seq<byte>, shifted: bool) {
    && Fits(sys.mem, e, |buf|, shifted) && Backed(sys)
    && var after := sys.(mem := StoreOne(sys.mem, e, buf, shifted));
       (Backed(after) && FilesOf(after) == FilesOf(sys))
  }

  /** The extent lies in block nr of its server. */
  ghost predicate InBlock(mem: Memory, e: Extent, nr: nat) {
    && e.serverId in mem && nr * FILE_BLOCK_SIZE + FILE_BLOCK_SIZE <= |mem[e.serverId]|
    && nr * FILE_BLOCK_SIZE <= e.memOffset && e.memOffset + e.length <= nr * FILE_BLOCK_SIZE + FILE_BLOCK_SIZE
  }

  lemma UnusedApart(m: Meta, i: nat, block: BlockInfo)
    requires Inv(m) && i in m.table.inodes && !InUse(m, block.serverId, block.blockNr)
    ensures Disjoint([block], m.table.inodes[i].blocks)
  {
    var blocks := m.table.inodes[i].blocks;
    forall q: nat | q < |blocks| ensures block.serverId != blocks[q].serverId || block.blockNr != blocks[q].blockNr {
      assert Holds(m, i, q, blocks[q].serverId, blocks[q].blockNr);
    }
  }

  lemma StoreOutside(mem: Memory, e: Extent, nr: nat, buf: seq<byte>, shifted: bool, other: seq<BlockInfo>)
    requires InBlock(mem, e, nr) && Fits(mem, e, |buf|, shifted) && BlocksIn(mem, other)
    requires Disjoint([BlockInfo(e.serverId, nr * FILE_BLOCK_SIZE, 0, nr)], other)
    ensures BlocksIn(StoreOne(mem, e, buf, shifted), other)
    ensures Backing(StoreOne(mem, e, buf, shifted), other) == Backing(mem, other)
  {
    var block, from := BlockInfo(e.serverId, nr * FILE_BLOCK_SIZE, 0, nr), BufferPos(e, shifted);
    assert BlocksIn(mem, [block]);
    hide BlocksIn;
    hide Disjoint;
    hide Backing;
    PutElsewhere(mem, block, e.memOffset - block.startAddr, buf[from..from + e.length], other);
  }

  lemma UnusedKeepsEntry(sys: System, e: Extent, nr: nat, buf: seq<byte>, shifted: bool, after: System, h: nat)
    requires Consistent(sys) && InBlock(sys.mem, e, nr) && !InUse(sys.meta, e.serverId, nr)
    requires Fits(sys.mem, e, |buf|, shifted) && after == sys.(mem := StoreOne(sys.mem, e, buf, shifted))
    requires Backed(sys) && Backed(after) && h in Directory(sys.meta)
    ensures EntryKept(sys, after, h)
  {
    var i := Directory(sys.meta)[h].inum;
    UnusedApart(sys.meta, i, BlockInfo(e.serverId, nr * FILE_BLOCK_SIZE, 0, nr));
    hide Consistent;
    hide InUse;
    hide Disjoint;
    hide BlocksIn;
    hide Backing;
    hide InBlock;
    hide Fits;
    hide StoreOne;
    StoreOutside(sys.mem, e, nr, buf, shifted, sys.meta.table.inodes[i].blocks);
  }

  lemma UnusedHarmless(sys: System, e: Extent, nr: nat, buf: seq<byte>, shifted: bool)
    requires Consistent(sys) && InBlock(sys.mem, e, nr) && !InUse(sys.meta, e.serverId, nr)
    requires Fits(sys.mem, e, |buf|, shifted)
    ensures ChangesNoFile(sys, e, buf, shifted)
  {
    var after := sys.(mem := StoreOne(sys.mem, e, buf, shifted));
    StoreKeepsShape(sys, after.mem);
    InvBacked(sys);
    InvBacked(after);
    hide StoreOne;
    hide Consistent;
    hide InUse;
    hide EntryKept;
    hide Backed;
    forall h | h in Directory(sys.meta) ensures EntryKept(sys, after, h) {
      UnusedKeepsEntry(sys, e, nr, buf, shifted, after, h);
    }
    FilesSame(sys, after);
  }

  /** A block in use belongs to some file. */
  lemma UserOf(m: Meta, s: nat, nr: nat) returns (h: nat, p: nat)
    requires Inv(m) && InUse(m, s, nr)
    ensures h in Directory(m) && Holds(m, Directory(m)[h].inum, p, s, nr)
  {
    var i: nat, q: nat :| Holds(m, i, q, s, nr);
    h :| h in Directory(m) && Directory(m)[h].inum == i;
    p := q;
  }

  lemma BackingAt(mem: Memory, blocks: seq<BlockInfo>, p: nat, inner: nat)
    requires BlocksIn(mem, blocks) && p < |blocks| && inner < FILE_BLOCK_SIZE
    ensures blocks[p].serverId in mem && blocks[p].startAddr == blocks[p].blockNr * FILE_BLOCK_SIZE
    ensures blocks[p].startAddr + inner < |mem[blocks[p].serverId]|
    ensures p * FILE_BLOCK_SIZE + inner < |Backing(mem, blocks)|
    ensures Backing(mem, blocks)[p * FILE_BLOCK_SIZE + inner] == mem[blocks[p].serverId][blocks[p].startAddr + inner]
  {
    assert (p * FILE_BLOCK_SIZE + inner) / FILE_BLOCK_SIZE == p;
    assert Backing(mem, blocks)[p * FILE_BLOCK_SIZE + inner] == ByteAt(mem, blocks, p * FILE_BLOCK_SIZE + inner);
  }

  lemma ByteOfFile(sys: System, h: nat, p: nat, inner: nat)
    requires Backed(sys) && h in Directory(sys.meta) && inner < FILE_BLOCK_SIZE
    requires p < |sys.meta.table.inodes[Directory(sys.meta)[h].inum].blocks|
    ensures var block := sys.meta.table.inodes[Directory(sys.meta)[h].inum].blocks[p];
            && block.serverId in sys.mem && block.startAddr == block.blockNr * FILE_BLOCK_SIZE
            && block.startAddr + inner < |sys.mem[block.serverId]|
            && h in FilesOf(sys) && p * FILE_BLOCK_SIZE + inner < |FilesOf(sys)[h].backing|
            && FilesOf(sys)[h].backing[p * FILE_BLOCK_SIZE + inner] == sys.mem[block.serverId][block.startAddr + inner]
  {
    hide Backing;
    hide BlocksIn;
    BackingAt(sys.mem, sys.meta.table.inodes[Directory(sys.meta)[h].inum].blocks, p, inner);
  }

  /** A buffer of `room` equal bytes. */
  function Uniform(room: nat, b: byte): (r: seq<byte>)
    ensures |r| == room && forall k :: 0 <= k < room ==> r[k] == b
  {
    seq(room, k => b)
  }

  lemma UsedHarmed(sys: System, e: Extent, nr: nat, room: nat, shifted: bool) returns (buf: seq<byte>)
    requires Consistent(sys) && InBlock(sys.mem, e, nr) && InUse(sys.meta, e.serverId, nr)
    requires e.length > 0 && BufferPos(e, shifted) + e.length <= room
    ensures |buf| == room && !ChangesNoFile(sys, e, buf, shifted)
  {
    var h, p := UserOf(sys.meta, e.serverId, nr);
    buf := Uniform(room, if sys.mem[e.serverId][e.memOffset] == 0 then 1 else 0);
    StoredByte(sys.mem, e, buf, shifted);
    InvBacked(sys);
    hide Consistent;
    hide StoreOne;
    hide InUse;
    ChangedByte(sys, e, nr, buf, shifted, h, p);
  }

  /** A file that holds the block sees the new byte. */
  lemma ChangedByte(sys: System, e: Extent, nr: nat, buf: seq<byte>, shifted: bool, h: nat, p: nat)
    requires InBlock(sys.mem, e, nr) && e.length > 0 && Backed(sys) && h in Directory(sys.meta)
    requires Holds(sys.meta, Directory(sys.meta)[h].inum, p, e.serverId, nr) && Fits(sys.mem, e, |buf|, shifted)
    requires var after := StoreOne(sys.mem, e, buf, shifted);
             && e.serverId in after && e.memOffset < |after[e.serverId]|
             && after[e.serverId][e.memOffset] != sys.mem[e.serverId][e.memOffset]
    ensures !ChangesNoFile(sys, e, buf, shifted)
  {
    var after := sys.(mem := StoreOne(sys.mem, e, buf, shifted));
    var inner := e.memOffset - nr * FILE_BLOCK_SIZE;
    hide StoreOne;
    ByteOfFile(sys, h, p, inner);
    if Backed(after) {
      ByteOfFile(after, h, p, inner);
    }
    hide Backed;
    hide FilesOf;
  }

  lemma StoredByte(mem: Memory, e: Extent, buf: seq<byte>, shifted: bool)
    requires Fits(mem, e, |buf|, shifted) && e.length > 0
    ensures var after := StoreOne(mem, e, buf, shifted);
            e.serverId in after && |after[e.serverId]| == |mem[e.serverId]|
            && after[e.serverId][e.memOffset] == buf[BufferPos(e, shifted)]
  {
  }

  /** A store into a block, through whatever reply, leaves every file as it is, for all data, exactly
      when the block is not in use: nobody has been given it since it was freed. */
  lemma StaleStoreIff(sys: System, e: Extent, nr: nat, room: nat, shifted: bool)
    requires Consistent(sys) && InBlock(sys.mem, e, nr)
    requires e.length > 0 && BufferPos(e, shifted) + e.length <= room
    ensures (forall buf: seq<byte> :: |buf| == room ==> ChangesNoFile(sys, e, buf, shifted))
            <==> !InUse(sys.meta, e.serverId, nr)
  {
    hide Consistent;
    hide InUse;
    hide ChangesNoFile;
    if InUse(sys.meta, e.serverId, nr) {
      var buf := UsedHarmed(sys, e, nr, room, shifted);
    } else {
      forall buf: seq<byte> | |buf| == room ensures ChangesNoFile(sys, e, buf, shifted) {
        UnusedHarmless(sys, e, nr, buf, shifted);
      }
    }
  }

  // ----- a run in which one does harm -----

  /** One server with one block. */
  ghost predicate Lone(sys: System) {
    SysInv(sys) && sys.meta.spaces.Keys == {1} && sys.meta.spaces[1].total == 1 && sys.meta.table.total == 100
  }

  /** The only block, which the first write of one byte gets. */
  const FIRST: Extent := Extent(0, 1, 0, 1, 0)

  lemma StartMeta()
    ensures var m := Meta(NewTable(100), map[]);
            RootExists(m) && Directory(m) == map[] && m.spaces == map[] && m.table.total == 100
  {
    hide Iota;
  }

  lemma LoneManager()
    ensures var sp := NewSpace(0, Wrap64(0 + FILE_BLOCK_SIZE - 1), FILE_BLOCK_SIZE, 1); sp.total == 1 && sp.inUse == {}
    ensures AlignUp(0, FILE_BLOCK_SIZE) == 0
  {
    hide Iota;
  }

  lemma RegisterLone(w: World, shifted: bool) returns (w': World)
    requires w == World(System(Meta(NewTable(100), map[]), map[]), map[])
    ensures HeldReplies.Next(w, Request(Register(1, 0, Uniform(FILE_BLOCK_SIZE, 0)), Done), shifted, w')
    ensures Lone(w'.sys) && w'.held == map[] && Directory(w'.sys.meta) == map[] && w'.sys.meta.spaces[1].inUse == {}
  {
    StartInv(shifted);
    StartMeta();
    LoneManager();
    hide Inv;
    hide NewTable;
    hide NewSpace;
    hide Wrap64;
    hide AlignUp;
    hide Uniform;
    var region := Uniform(FILE_BLOCK_SIZE, 0);
    var sys' := System(RegisterEffect(w.sys.meta, 1, 0, |region|), w.sys.mem[1 := region]);
    w' := w.(sys := sys');
    RegisterRefines(w.sys, 1, 0, region);
    RegisterAddressable(w.sys.meta, 1, 0, |region|);
  }

  lemma EmptyTable(m: Meta)
    requires Inv(m) && Directory(m) == map[]
    ensures m.table.cur == 1
  {
    assert m.table.inodes.Keys == {ROOT_INUM};
    assert |m.table.inodes| == |m.table.inodes.Keys|;
  }

  lemma LoneCanWrite(m: Meta, name: FileName)
    requires Inv(m) && Directory(m) == map[] && m.spaces.Keys == {1} && m.spaces[1].total == 1 && m.table.total == 100
    requires m.spaces[1].inUse == {}
    ensures CanWrite(m, name, 0, 1, [0])
  {
    EmptyTable(m);
    BlocksConserved(m, 1);
    hide Inv;
    assert GrowthOf(m, name, 0, 1) == 1;
    assert EveryServerHas(m, 1);
    WriteRuns(m, name, 0, 1);
    assert |[0]| == 1;
  }

  /** A file that holds the only block. */
  ghost predicate HasFirst(m: Meta, name: FileName) {
    && RootExists(m) && IsFile(m, name) && Holds(m, InumOf(m, name), 0, 1, 0)
  }

  lemma LoneBlock(sys: System, name: FileName)
    requires Consistent(sys) && sys.meta.spaces.Keys == {1} && sys.meta.spaces[1].total == 1
    requires IsFile(sys.meta, name) && |InodeOf(sys.meta, name).blocks| > 0
    ensures HasFirst(sys.meta, name) && ExtentAt(InodeOf(sys.meta, name).blocks, 0, 1, 0) == FIRST
  {
    var block := InodeOf(sys.meta, name).blocks[0];
    assert Holds(sys.meta, InumOf(sys.meta, name), 0, block.serverId, block.blockNr);
    assert InUse(sys.meta, block.serverId, block.blockNr);
    assert ManagerOk(sys.meta.spaces[1], 1);
    assert InodeOk(InodeOf(sys.meta, name));
  }

  lemma OneByteExtents(blocks: seq<BlockInfo>)
    requires InFile(blocks, 0, 1)
    ensures |blocks| > 0 && ExtentList(blocks, 0, 1) == [ExtentAt(blocks, 0, 1, 0)]
  {
    SplitNothing(blocks, 1, 1);
  }

  lemma AnswerTotals(sys: System, after: System, found: System, grown: System, name: FileName, off: nat, len: nat, rolls: seq<nat>)
    requires Consistent(sys) && Answers(sys, after, found, grown, name, off, len, rolls)
    ensures SameTotals(sys.meta, grown.meta) && after.meta.spaces == grown.meta.spaces
    ensures after.meta.table.total == sys.meta.table.total
  {
    CreateTotals(sys.meta, name);
    GrowTotals(found.meta, InumOf(found.meta, name), rolls);
    GrowGrew(found.meta, InumOf(found.meta, name), rolls);
    hide Inv;
    hide Grow;
    hide CanGrow;
    hide CreateEffect;
    hide Written;
  }

  lemma CreateTotals(m: Meta, name: FileName)
    requires RootExists(m) && CanAllocate(m.table)
    ensures var f := CreateEffect(m, name, false).0; f.spaces == m.spaces && f.table.total == m.table.total
  {
  }

  lemma LoneIs(w: World, shifted: bool)
    requires WorldInv(w, shifted) && Lone(w.sys)
    ensures Consistent(w.sys) && Inv(w.sys.meta) && RootExists(w.sys.meta)
    ensures w.sys.meta.spaces.Keys == {1} && w.sys.meta.spaces[1].total == 1 && w.sys.meta.table.total == 100
  {
  }

  lemma AskedNext(w: World, c: nat, name: FileName, v: byte, shifted: bool) returns (w': World)
    requires CanWrite(w.sys.meta, name, 0, 1, [0])
    ensures HeldReplies.Next(w, AskWrite(c, name, 0, [v], [0]), shifted, w')
    ensures w'.sys == Asked(w, name, 0, [v], [0])
    ensures w'.held == w.held[c := Held(name, 0, Storing, WriteEffect(w.sys.meta, name, 0, 1, [0]).1, [v], true)]
  {
    var extents := WriteEffect(w.sys.meta, name, 0, 1, [0]).1;
    w' := World(Asked(w, name, 0, [v], [0]), w.held[c := Held(name, 0, Storing, extents, [v], true)]);
    hide CanWrite;
    hide WriteEffect;
    hide Asked;
  }

  lemma LoneTotals(m: Meta, grown: Meta, after: Meta)
    requires m.spaces.Keys == {1} && m.spaces[1].total == 1 && SameTotals(m, grown) && after.spaces == grown.spaces
    ensures grown.spaces.Keys == {1} && grown.spaces[1].total == 1 && after.spaces.Keys == {1} && after.spaces[1].total == 1
  {
  }

  lemma AskLone(w: World, c: nat, name: FileName, v: byte, shifted: bool) returns (w': World)
    requires Consistent(w.sys) && CanWrite(w.sys.meta, name, 0, 1, [0])
    requires w.sys.meta.spaces.Keys == {1} && w.sys.meta.spaces[1].total == 1 && w.sys.meta.table.total == 100
    ensures HeldReplies.Next(w, AskWrite(c, name, 0, [v], [0]), shifted, w')
    ensures w'.sys.meta.spaces.Keys == {1} && w'.sys.meta.spaces[1].total == 1 && w'.sys.meta.table.total == 100
    ensures w'.held == w.held[c := Held(name, 0, Storing, [FIRST], [v], true)]
  {
    hide *;
    w' := AskedNext(w, c, name, v, shifted);
    var found, grown := AskWriteAnswers(w, name, 0, [v], [0]);
    AnswerParts(w.sys, w'.sys, found, grown, name, 0, 1, [0]);
    AnswerTotals(w.sys, w'.sys, found, grown, name, 0, 1, [0]);
    LoneTotals(w.sys.meta, grown.meta, w'.sys.meta);
    OneByteExtents(InodeOf(grown.meta, name).blocks);
    LoneBlock(grown, name);
  }

  /** The only block goes to the first file that asks for a byte. */
  lemma WriteLone(w: World, c: nat, name: FileName, v: byte, shifted: bool) returns (w': World)
    requires WorldInv(w, shifted) && Lone(w.sys) && Directory(w.sys.meta) == map[] && w.sys.meta.spaces[1].inUse == {}
    ensures HeldReplies.Next(w, AskWrite(c, name, 0, [v], [0]), shifted, w')
    ensures WorldInv(w', shifted) && Lone(w'.sys) && HasFirst(w'.sys.meta, name)
    ensures Directory(w'.sys.meta).Keys == {name.hash}
    ensures w'.held == w.held[c := Held(name, 0, Storing, [FIRST], [v], true)]
  {
    hide *;
    LoneIs(w, shifted);
    LoneCanWrite(w.sys.meta, name);
    w' := AskLone(w, c, name, v, shifted);
    AskWriteStep(w, c, name, 0, [v], [0], shifted, w');
    RefinesInv(w, AskWrite(c, name, 0, [v], [0]), shifted, w');
    SpecKeys(FilesOf(w.sys), w.held, c, name, [v], [0], shifted, FilesOf(w'.sys), w'.held);
    KeysOfFiles(w.sys);
    KeysOfFiles(w'.sys);
    LoneAfter(w', c, name, v, shifted);
  }

  lemma KeysOfFiles(sys: System)
    requires Backed(sys)
    ensures RootExists(sys.meta) && FilesOf(sys).Keys == Directory(sys.meta).Keys
  {
  }

  lemma SpecKeys(files: map<nat, File>, held: map<nat, Held>, c: nat, name: FileName, data: seq<byte>, rolls: seq<nat>,
                 shifted: bool, files': map<nat, File>, held': map<nat, Held>)
    requires SpecStep(files, held, AskWrite(c, name, 0, data, rolls), shifted, files', held')
    ensures files'.Keys == files.Keys + {name.hash}
  {
  }

  lemma LoneAfter(w: World, c: nat, name: FileName, v: byte, shifted: bool)
    requires WorldInv(w, shifted) && c in w.held && w.held[c] == Held(name, 0, Storing, [FIRST], [v], true)
    requires w.sys.meta.spaces.Keys == {1} && w.sys.meta.spaces[1].total == 1 && w.sys.meta.table.total == 100
    ensures Lone(w.sys) && HasFirst(w.sys.meta, name)
  {
    assert ReplyOk(w.sys.meta, w.held[c], shifted);
    hide Inv;
    FirstPiece(w.sys.meta, w.held[c], shifted);
    hide ReplyOk;
    LoneBlock(w.sys, name);
  }

  lemma FirstPiece(m: Meta, r: Held, shifted: bool)
    requires ReplyOk(m, r, shifted) && r.extents == [FIRST]
    ensures RootExists(m) && IsFile(m, r.name) && |InodeOf(m, r.name).blocks| > 0
  {
    assert PieceOk(InodeOf(m, r.name).blocks, r.extents[0], r.off, |r.buf|, shifted);
  }

  /** After the only file is removed the only block is free again. */
  lemma RemoveLone(w: World, name: FileName, shifted: bool) returns (w': World)
    requires WorldInv(w, shifted) && Lone(w.sys) && HasFirst(w.sys.meta, name) && Directory(w.sys.meta).Keys == {name.hash}
    ensures HeldReplies.Next(w, Request(Remove(name), Removed(true)), shifted, w')
    ensures WorldInv(w', shifted) && Lone(w'.sys) && Directory(w'.sys.meta) == map[] && w'.sys.meta.spaces[1].inUse == {}
    ensures w'.held == Expire(w.held, name.hash) && w'.sys.mem == w.sys.mem
  {
    RemoveInv(w.sys.meta, name);
    w' := World(w.sys.(meta := RemoveEffect(w.sys.meta, name).0), Expire(w.held, name.hash));
    RemovedMeta(w.sys.meta, name);
    RemovedNext(w, name, shifted, w');
    hide *;
    RequestStep(w, Remove(name), Removed(true), shifted, w');
    RefinesInv(w, Request(Remove(name), Removed(true)), shifted, w');
    InvSys(w', shifted);
    IsLone(w'.sys);
  }

  lemma InvSys(w: World, shifted: bool)
    requires WorldInv(w, shifted)
    ensures SysInv(w.sys)
  {
  }

  lemma IsLone(sys: System)
    requires SysInv(sys) && sys.meta.spaces.Keys == {1} && sys.meta.spaces[1].total == 1 && sys.meta.table.total == 100
    ensures Lone(sys)
  {
  }

  lemma RemovedNext(w: World, name: FileName, shifted: bool, w': World)
    requires RootExists(w.sys.meta) && CanRemove(w.sys.meta, name) && RemoveEffect(w.sys.meta, name).1
    requires w' == World(w.sys.(meta := RemoveEffect(w.sys.meta, name).0), Expire(w.held, name.hash))
    ensures HeldReplies.Next(w, Request(Remove(name), Removed(true)), shifted, w')
  {
    hide RemoveEffect;
    hide CanRemove;
    hide Expire;
  }

  lemma RemovedMeta(m: Meta, name: FileName)
    requires Inv(m) && HasFirst(m, name) && Directory(m).Keys == {name.hash}
    requires m.spaces.Keys == {1} && m.spaces[1].total == 1 && m.table.total == 100
    ensures CanRemove(m, name) && RemoveEffect(m, name).1
    ensures var after := RemoveEffect(m, name).0;
            && RootExists(after) && Directory(after) == map[] && after.spaces.Keys == {1} && after.spaces[1].total == 1
            && after.spaces[1].inUse == {} && after.table.total == 100
  {
    RemoveInv(m, name);
    RemoveInodes(m, name);
    RemoveTotals(m, name);
    RemovedTotal(m, name);
    hide *;
    FirstOf(m, name);
    NothingLeft(m, RemoveEffect(m, name).0, InumOf(m, name));
    NoEntries(m, RemoveEffect(m, name).0, name);
  }

  lemma FirstOf(m: Meta, name: FileName)
    requires HasFirst(m, name)
    ensures RootExists(m) && Listed(m, name) && Holds(m, InumOf(m, name), 0, 1, 0)
  {
  }

  lemma NoEntries(m: Meta, after: Meta, name: FileName)
    requires RootExists(m) && RootExists(after) && Directory(m).Keys == {name.hash}
    requires Directory(after) == Directory(m) - {name.hash}
    ensures Directory(after) == map[]
  {
  }

  lemma NothingLeft(m: Meta, after: Meta, inum: nat)
    requires Inv(m) && m.spaces.Keys == {1} && m.spaces[1].total == 1 && after.spaces.Keys == {1}
    requires Holds(m, inum, 0, 1, 0)
    requires forall s: nat, nr: nat :: InUse(after, s, nr) <==> InUse(m, s, nr) && !exists p: nat :: Holds(m, inum, p, s, nr)
    ensures after.spaces[1].inUse == {}
  {
    assert ManagerOk(m.spaces[1], 1);
    forall nr: nat ensures nr !in after.spaces[1].inUse {
      assert InUse(after, 1, nr) <==> nr in after.spaces[1].inUse;
      assert InUse(m, 1, nr) <==> nr in m.spaces[1].inUse;
    }
  }

  lemma RemovedTotal(m: Meta, name: FileName)
    requires CanRemove(m, name)
    ensures RemoveEffect(m, name).0.table.total == m.table.total
  {
    hide ReclaimedOn;
  }

  lemma MoveStores(w: World, c: nat, shifted: bool) returns (w': World)
    requires c in w.held && w.held[c].task == Storing && w.held[c].extents == [FIRST] && |w.held[c].buf| == 1
    requires 1 in w.sys.mem && |w.sys.mem[1]| >= FILE_BLOCK_SIZE
    ensures HeldReplies.Next(w, Move(c), shifted, w') && Fits(w.sys.mem, FIRST, 1, shifted)
    ensures w'.sys.meta == w.sys.meta && w'.held == w.held[c := w.held[c].(extents := [])]
    ensures w'.sys.mem == StoreOne(w.sys.mem, FIRST, w.held[c].buf, shifted)
  {
    hide StoreOne;
    w' := Moved(w, c, shifted);
    assert [FIRST][1..] == [];
  }

  /** Client c's byte goes to the only block. */
  lemma MoveLone(w: World, c: nat, shifted: bool) returns (w': World)
    requires WorldInv(w, shifted) && Lone(w.sys) && c in w.held
    requires w.held[c].task == Storing && w.held[c].extents == [FIRST] && |w.held[c].buf| == 1
    ensures HeldReplies.Next(w, Move(c), shifted, w') && WorldInv(w', shifted) && Lone(w'.sys)
    ensures w'.sys.meta == w.sys.meta && w'.held == w.held[c := w.held[c].(extents := [])]
    ensures 1 in w'.sys.mem && |w'.sys.mem[1]| > 0 && w'.sys.mem[1][0] == w.held[c].buf[0]
  {
    hide *;
    LoneMemory(w.sys);
    LoneIs(w, shifted);
    w' := MoveStores(w, c, shifted);
    FirstStored(w.sys.mem, w.held[c].buf, shifted);
    MoveKeeps(w, c, shifted, w');
    InvSys(w', shifted);
    IsLone(w'.sys);
  }

  lemma FirstStored(mem: Memory, buf: seq<byte>, shifted: bool)
    requires Fits(mem, FIRST, |buf|, shifted) && |buf| == 1
    ensures var after := StoreOne(mem, FIRST, buf, shifted); 1 in after && |after[1]| > 0 && after[1][0] == buf[0]
  {
    StoredByte(mem, FIRST, buf, shifted);
    hide StoreOne;
  }

  lemma LoneMemory(sys: System)
    requires Lone(sys)
    ensures 1 in sys.mem && |sys.mem[1]| >= FILE_BLOCK_SIZE
  {
  }

  lemma FirstByte(sys: System, name: FileName)
    requires SysInv(sys) && HasFirst(sys.meta, name)
    ensures Backed(sys) && name.hash in FilesOf(sys) && |FilesOf(sys)[name.hash].backing| > 0
    ensures 1 in sys.mem && |sys.mem[1]| > 0 && FilesOf(sys)[name.hash].backing[0] == sys.mem[1][0]
  {
    InvBacked(sys);
    hide Inv;
    ByteOfFile(sys, name.hash, 0, 0);
  }

  lemma SixSteps(worlds: seq<World>, steps: seq<HeldReplies.Step>, shifted: bool)
    requires |worlds| == 7 && |steps| == 6 && worlds[0] == World(System(Meta(NewTable(100), map[]), map[]), map[])
    requires HeldReplies.Next(worlds[0], steps[0], shifted, worlds[1]) && HeldReplies.Next(worlds[1], steps[1], shifted, worlds[2])
    requires HeldReplies.Next(worlds[2], steps[2], shifted, worlds[3]) && HeldReplies.Next(worlds[3], steps[3], shifted, worlds[4])
    requires HeldReplies.Next(worlds[4], steps[4], shifted, worlds[5]) && HeldReplies.Next(worlds[5], steps[5], shifted, worlds[6])
    ensures HeldReplies.Run(worlds, steps, shifted)
  {
    hide HeldReplies.Next;
    forall k | 0 <= k < |steps| ensures HeldReplies.Next(worlds[k], steps[k], shifted, worlds[k + 1]) {
      assert k == 0 || k == 1 || k == 2 || k == 3 || k == 4 || k == 5;
    }
  }

  /** The two writes and the removal: b has the only block, and both clients hold extents on it. */
  lemma TwoReplies(a: FileName, b: FileName, shifted: bool) returns (w0: World, w1: World, w2: World, w3: World, w4: World)
    requires a.hash != b.hash
    ensures w0 == World(System(Meta(NewTable(100), map[]), map[]), map[])
    ensures HeldReplies.Next(w0, Request(Register(1, 0, Uniform(FILE_BLOCK_SIZE, 0)), Done), shifted, w1)
    ensures HeldReplies.Next(w1, AskWrite(0, a, 0, [1], [0]), shifted, w2)
    ensures HeldReplies.Next(w2, Request(Remove(a), Removed(true)), shifted, w3)
    ensures HeldReplies.Next(w3, AskWrite(1, b, 0, [0], [0]), shifted, w4)
    ensures WorldInv(w4, shifted) && Lone(w4.sys) && HasFirst(w4.sys.meta, b)
    ensures 0 in w4.held && w4.held[0] == Held(a, 0, Storing, [FIRST], [1], false)
    ensures 1 in w4.held && w4.held[1] == Held(b, 0, Storing, [FIRST], [0], true)
  {
    hide *;
    w0 := World(System(Meta(NewTable(100), map[]), map[]), map[]);
    w1 := RegisterLone(w0, shifted);
    NoReplies(w1, shifted);
    w2 := WriteLone(w1, 0, a, 1, shifted);
    w3 := RemoveLone(w2, a, shifted);
    w4 := WriteLone(w3, 1, b, 0, shifted);
    ExpiredHeld(w2, w3, w4, a, b);
  }

  /** A reply that outlives its file does harm: client 0 is answered for file a, a is removed, client 1
      writes a byte 0 to file b, and then client 0 moves its extent. File b, which nobody else has
      written to, now holds client 0's byte 1. */
  lemma StaleStoreCorrupts(a: FileName, b: FileName, shifted: bool)
    returns (worlds: seq<World>, steps: seq<HeldReplies.Step>)
    requires a.hash != b.hash
    ensures HeldReplies.Run(worlds, steps, shifted)
    ensures steps == [Request(Register(1, 0, Uniform(FILE_BLOCK_SIZE, 0)), Done), AskWrite(0, a, 0, [1], [0]),
                      Request(Remove(a), Removed(true)), AskWrite(1, b, 0, [0], [0]), Move(1), Move(0)]
    ensures Backed(worlds[5].sys) && Backed(worlds[6].sys)
    ensures var before, after := FilesOf(worlds[5].sys), FilesOf(worlds[6].sys);
            && b.hash in before && b.hash in after && |before[b.hash].backing| > 0 && |after[b.hash].backing| > 0
            && before[b.hash].backing[0] == 0 && after[b.hash].backing[0] == 1
  {
    hide *;
    var w0, w1, w2, w3, w4 := TwoReplies(a, b, shifted);
    var w5 := MoveLone(w4, 1, shifted);
    var w6 := MoveLone(w5, 0, shifted);
    InvSys(w5, shifted);
    InvSys(w6, shifted);
    FirstByte(w5.sys, b);
    FirstByte(w6.sys, b);
    worlds := [w0, w1, w2, w3, w4, w5, w6];
    steps := [Request(Register(1, 0, Uniform(FILE_BLOCK_SIZE, 0)), Done), AskWrite(0, a, 0, [1], [0]),
              Request(Remove(a), Removed(true)), AskWrite(1, b, 0, [0], [0]), Move(1), Move(0)];
    SixSteps(worlds, steps, shifted);
  }

  lemma NoReplies(w: World, shifted: bool)
    requires Lone(w.sys) && w.held == map[]
    ensures WorldInv(w, shifted)
  {
  }

  lemma ExpiredHeld(w2: World, w3: World, w4: World, a: FileName, b: FileName)
    requires 0 in w2.held && w2.held[0] == Held(a, 0, Storing, [FIRST], [1], true) && w3.held == Expire(w2.held, a.hash)
    requires w4.held == w3.held[1 := Held(b, 0, Storing, [FIRST], [0], true)]
    ensures 0 in w4.held && w4.held[0] == Held(a, 0, Storing, [FIRST], [1], false)
    ensures 1 in w4.held && w4.held[1] == Held(b, 0, Storing, [FIRST], [0], true)
  {
  }
}
