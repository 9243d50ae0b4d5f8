/** The whole system: metadata server, storage servers and client copy loops, against flat files. */
module Cluster {
  import opened Blocks
  import opened MinHeap
  import opened SpaceManagers
  import opened Files
  import opened Extents
  import opened MetaServer
  import opened Ownership
  import opened Storage

  datatype System = System(meta: Meta, mem: Memory)

  datatype Op =
    | Create(name: FileName, isDir: bool)
    | Write(name: FileName, off: nat, data: seq<byte>, rolls: seq<nat>)
    | Read(name: FileName, off: nat, len: nat, buf: seq<byte>)
    | Remove(name: FileName)
    | Register(nodeId: nat, addr: nat, region: seq<byte>)

  datatype Reply = Created(inum: nat) | Count(n: nat) | Contents(buf: seq<byte>, n: nat) | Removed(success: bool) | Done

  // ----- the specification: names (by hash) to flat files -----

  /** `size` bytes of `backing` are visible; the rest can become visible by later writes. */
  datatype File = File(backing: seq<byte>, size: nat)

  function FileOrEmpty(files: map<nat, File>, h: nat): File {
    if h in files then files[h] else File([], 0)
  }

  /** A backing that must reach `end` stays as long as it is if it does; else it ends with the block of
      the last byte it must reach. */
  predicate Reaches(before: nat, after: nat, end: nat) {
    if end <= before then after == before
    else after % FILE_BLOCK_SIZE == 0 && after - FILE_BLOCK_SIZE < end <= after
  }

  /** A write enlarges the backing by whole blocks of unspecified bytes if it must, then replaces
      [off, off + |data|); the size becomes the end of the write, even when that shrinks the file. */
  ghost predicate Overwritten(before: File, after: File, off: nat, data: seq<byte>) {
    exists extra: seq<byte> ::
      && Reaches(|before.backing|, |before.backing + extra|, off + |data|)
      && after == File(Splice(before.backing + extra, off, data), off + |data|)
  }

  /** How much of a request for `len` bytes the file has. */
  function Clipped(off: nat, len: nat, size: nat): (n: nat)
    requires off <= size
    ensures n <= len && off + n <= size
    ensures n == len || off + n == size
  {
    if off + len > size then size - off else len
  }

  ghost predicate SpecNext(files: map<nat, File>, op: Op, reply: Reply, files': map<nat, File>) {
    match op
    case Create(name, _) =>
      reply.Created? && files' == files[name.hash := FileOrEmpty(files, name.hash)]
    case Write(name, off, data, _) =>
      && reply == Count(|data|) && name.hash in files'
      && files' == files[name.hash := files'[name.hash]]
      && Overwritten(FileOrEmpty(files, name.hash), files'[name.hash], off, data)
    case Read(name, off, len, buf) =>
      && files' == files && name.hash in files && off <= files[name.hash].size <= |files[name.hash].backing|
      && var n := Clipped(off, len, files[name.hash].size);
         (n <= |buf| && reply == Contents(Splice(buf, 0, files[name.hash].backing[off..off + n]), n))
    case Remove(name) =>
      reply == Removed(name.hash in files) && files' == files - {name.hash}
    case Register(_, _, _) =>
      reply == Done && files' == files
  }

  // ----- the system -----

  /** Every server's memory holds all blocks of its manager. */
  ghost predicate MemoryOk(sys: System) {
    && sys.mem.Keys == sys.meta.spaces.Keys
    && forall s :: s in sys.mem ==> sys.meta.spaces[s].total * FILE_BLOCK_SIZE <= |sys.mem[s]|
  }

  ghost predicate Consistent(sys: System) {
    Inv(sys.meta) && MemoryOk(sys)
  }

  ghost predicate SysInv(sys: System) {
    Consistent(sys) && Addressable(sys.meta)
  }

  /** What the code needs to run the request. A registered node must not lose blocks in use; its region
      must reach the first block boundary. */
  ghost predicate Enabled(sys: System, op: Op) {
    && RootExists(sys.meta)
    && match op
       case Create(name, _) => Listed(sys.meta, name) || (sys.meta.table.cur != sys.meta.table.total && CanAllocate(sys.meta.table))
       case Write(name, off, data, rolls) => CanWrite(sys.meta, name, off, |data|, rolls)
       case Read(name, off, len, buf) => CanRead(sys.meta, name, off, len) && len <= |buf|
       case Remove(name) => CanRemove(sys.meta, name)
       case Register(nodeId, addr, region) =>
         && (nodeId in sys.meta.spaces ==> sys.meta.spaces[nodeId].inUse == {})
         && 0 < |region| && addr + |region| + FILE_BLOCK_SIZE <= TWO_TO_THE_64
         && AlignUp(addr, FILE_BLOCK_SIZE) <= addr + |region|
  }

  /** The effect of an enabled request. `shifted` says whether the client adds an extent's buffer
      offset to the user's buffer: the intended client does, the one in the repository does not. */
  ghost predicate Effect(sys: System, op: Op, shifted: bool, sys': System, reply: Reply)
    requires Enabled(sys, op)
  {
    match op
    case Create(name, isDir) =>
      var (meta, inum) := CreateEffect(sys.meta, name, isDir);
      sys' == System(meta, sys.mem) && reply == Created(inum)
    case Write(name, off, data, rolls) =>
      var (meta, extents, n) := WriteEffect(sys.meta, name, off, |data|, rolls);
      && AllFit(sys.mem, extents, |data|, shifted)
      && sys' == System(meta, StoreAll(sys.mem, extents, data, shifted)) && reply == Count(n)
    case Read(name, off, len, buf) =>
      var (extents, n) := ReadReply(sys.meta, name, off, len);
      && AllFit(sys.mem, extents, |buf|, shifted)
      && sys' == sys && reply == Contents(LoadAll(sys.mem, extents, buf, shifted), n)
    case Remove(name) =>
      var (meta, success) := RemoveEffect(sys.meta, name);
      sys' == System(meta, sys.mem) && reply == Removed(success)
    case Register(nodeId, addr, region) =>
      && sys' == System(RegisterEffect(sys.meta, nodeId, addr, |region|), sys.mem[nodeId := region])
      && reply == Done
  }

  ghost predicate Next(sys: System, op: Op, shifted: bool, sys': System, reply: Reply) {
    Enabled(sys, op) && Effect(sys, op, shifted, sys', reply)
  }

  // ----- the abstraction -----

  lemma BlocksInMemory(sys: System, i: nat)
    requires Consistent(sys) && i in sys.meta.table.inodes
    ensures BlocksIn(sys.mem, sys.meta.table.inodes[i].blocks)
  {
    var blocks := sys.meta.table.inodes[i].blocks;
    forall p: nat | p < |blocks|
      ensures blocks[p].serverId in sys.mem && blocks[p].startAddr == blocks[p].blockNr * FILE_BLOCK_SIZE
      ensures blocks[p].startAddr + FILE_BLOCK_SIZE <= |sys.mem[blocks[p].serverId]|
    {
      assert Holds(sys.meta, i, p, blocks[p].serverId, blocks[p].blockNr);
      assert InUse(sys.meta, blocks[p].serverId, blocks[p].blockNr);
      assert ManagerOk(sys.meta.spaces[blocks[p].serverId], blocks[p].serverId);
      assert InodeOk(sys.meta.table.inodes[i]);
    }
  }

  function FileOf(mem: Memory, inode: InodeState): File
    requires BlocksIn(mem, inode.blocks)
  {
    File(Backing(mem, inode.blocks), inode.size)
  }

  ghost predicate Backed(sys: System) {
    RootExists(sys.meta) && forall h :: h in Directory(sys.meta) ==>
      && Directory(sys.meta)[h].inum in sys.meta.table.inodes
      && BlocksIn(sys.mem, sys.meta.table.inodes[Directory(sys.meta)[h].inum].blocks)
  }

  lemma InvBacked(sys: System)
    requires Consistent(sys)
    ensures RootExists(sys.meta) && Backed(sys)
  {
    forall h | h in Directory(sys.meta) ensures Directory(sys.meta)[h].inum in sys.meta.table.inodes
      ensures BlocksIn(sys.mem, sys.meta.table.inodes[Directory(sys.meta)[h].inum].blocks)
    {
      BlocksInMemory(sys, Directory(sys.meta)[h].inum);
    }
  }

  /** The files a system stands for, by the hash of their names. */
  function FilesOf(sys: System): map<nat, File>
    requires Backed(sys)
  {
    map h | h in Directory(sys.meta) :: FileOf(sys.mem, sys.meta.table.inodes[Directory(sys.meta)[h].inum])
  }

  /** The entry keeps its inode, and the inode its size and bytes. */
  ghost predicate EntryKept(a: System, b: System, h: nat)
    requires Backed(a) && Backed(b)
  {
    && h in Directory(a.meta) && h in Directory(b.meta) && Directory(b.meta)[h].inum == Directory(a.meta)[h].inum
    && var i := Directory(a.meta)[h].inum;
       FileOf(b.mem, b.meta.table.inodes[i]) == FileOf(a.mem, a.meta.table.inodes[i])
  }

  lemma FilesUpdated(a: System, b: System, h: nat)
    requires Backed(a) && Backed(b) && h in Directory(b.meta) && Directory(b.meta).Keys == Directory(a.meta).Keys + {h}
    requires forall k :: k in Directory(a.meta) && k != h ==> EntryKept(a, b, k)
    ensures h in FilesOf(b) && FilesOf(b) == FilesOf(a)[h := FilesOf(b)[h]]
  {
    hide BlocksIn;
    hide FileOf;
    assert forall k :: k in FilesOf(a) && k != h ==> FilesOf(b)[k] == FilesOf(a)[k];
  }

  lemma FilesReduced(a: System, b: System, h: nat)
    requires Backed(a) && Backed(b) && Directory(b.meta).Keys == Directory(a.meta).Keys - {h}
    requires forall k :: k in Directory(b.meta) ==> EntryKept(a, b, k)
    ensures FilesOf(b) == FilesOf(a) - {h}
  {
    hide BlocksIn;
    hide FileOf;
    assert forall k :: k in FilesOf(b) ==> FilesOf(b)[k] == FilesOf(a)[k];
  }

  // ----- steps that do not touch memory -----

  lemma NewEntryChange(m: Meta, name: FileName, isDir: bool)
    requires TableOk(m.table) && RootExists(m) && !Listed(m, name) && CanAllocate(m.table)
    ensures var (after, inum) := NewEntry(m, name, isDir);
            && RootExists(after) && after.spaces == m.spaces && Directory(after).Keys == Directory(m).Keys + {name.hash}
            && (forall h :: h in Directory(m) ==> Directory(after)[h] == Directory(m)[h])
            && Directory(after)[name.hash].inum == inum
            && (m.table.cur != m.table.total ==> inum in after.table.inodes && after.table.inodes[inum] == NewInode(isDir, inum))
            && (forall i :: i in m.table.inodes && i != ROOT_INUM ==>
                  i in after.table.inodes && after.table.inodes[i] == m.table.inodes[i])
  {
    IssueInodeOk(m.table, isDir);
  }

  lemma CreateRefines(sys: System, name: FileName, isDir: bool)
    requires Consistent(sys) && (Listed(sys.meta, name) || sys.meta.table.cur != sys.meta.table.total)
    ensures CanAllocate(sys.meta.table) && Backed(sys)
    ensures var after := System(CreateEffect(sys.meta, name, isDir).0, sys.mem);
            && Consistent(after) && Backed(after)
            && FilesOf(after) == FilesOf(sys)[name.hash := FileOrEmpty(FilesOf(sys), name.hash)]
  {
    CreateInv(sys.meta, name, isDir);
    InvBacked(sys);
    var after := System(CreateEffect(sys.meta, name, isDir).0, sys.mem);
    if !Listed(sys.meta, name) {
      NewEntryChange(sys.meta, name, isDir);
      EntriesNotRoot(sys.meta);
      hide Inv;
      hide NewEntry;
      hide CreateEffect;
      InvBacked(after);
      FilesUpdated(sys, after, name.hash);
      assert Backing(sys.mem, []) == [];
    }
  }

  lemma EntriesNotRoot(m: Meta)
    requires Inv(m)
    ensures forall h :: h in Directory(m) ==> Directory(m)[h].inum != ROOT_INUM && Directory(m)[h].inum in m.table.inodes
    ensures forall h, k :: h in Directory(m) && k in Directory(m) && h != k ==> Directory(m)[h].inum != Directory(m)[k].inum
  {
  }

  lemma RemoveKeepsMemory(sys: System, name: FileName)
    requires Consistent(sys)
    ensures CanRemove(sys.meta, name) && Consistent(System(RemoveEffect(sys.meta, name).0, sys.mem))
  {
    RemoveInv(sys.meta, name);
    if Listed(sys.meta, name) {
      RemoveTotals(sys.meta, name);
    } else {
      RemoveNothing(sys.meta, name);
    }
    hide Inv;
    hide RemoveEffect;
  }

  lemma RemoveFiles(sys: System, after: System, name: FileName)
    requires Consistent(sys) && Listed(sys.meta, name) && CanRemove(sys.meta, name)
    requires after == System(RemoveEffect(sys.meta, name).0, sys.mem) && Backed(sys) && Backed(after)
    ensures FilesOf(after) == FilesOf(sys) - {name.hash}
  {
    RemoveInodes(sys.meta, name);
    EntriesNotRoot(sys.meta);
    hide RemoveEffect;
    hide Inv;
    hide BlocksIn;
    hide Backing;
    FilesReduced(sys, after, name.hash);
  }

  lemma FilesWithout(sys: System, name: FileName)
    requires Backed(sys) && !Listed(sys.meta, name)
    ensures FilesOf(sys) == FilesOf(sys) - {name.hash}
  {
    hide FileOf;
  }

  lemma EntryIff(sys: System, name: FileName)
    requires Backed(sys)
    ensures name.hash in FilesOf(sys) <==> Listed(sys.meta, name)
  {
    hide FileOf;
  }

  lemma RemoveRefines(sys: System, name: FileName)
    requires Consistent(sys)
    ensures CanRemove(sys.meta, name) && Backed(sys)
    ensures var (meta, success) := RemoveEffect(sys.meta, name);
            && Consistent(System(meta, sys.mem)) && Backed(System(meta, sys.mem))
            && FilesOf(System(meta, sys.mem)) == FilesOf(sys) - {name.hash}
            && success == (name.hash in FilesOf(sys))
  {
    InvBacked(sys);
    EntryIff(sys, name);
    RemoveInv(sys.meta, name);
    RemoveKeepsMemory(sys, name);
    InvBacked(System(RemoveEffect(sys.meta, name).0, sys.mem));
    if Listed(sys.meta, name) {
      hide *;
      RemoveFiles(sys, System(RemoveEffect(sys.meta, name).0, sys.mem), name);
    } else {
      RemoveNothing(sys.meta, name);
      hide *;
      FilesWithout(sys, name);
    }
  }

  lemma RemoveTotals(m: Meta, name: FileName)
    requires Inv(m) && Listed(m, name) && CanRemove(m, name)
    ensures var after := RemoveEffect(m, name).0;
            after.spaces.Keys == m.spaces.Keys && forall s :: s in m.spaces ==> after.spaces[s].total == m.spaces[s].total
  {
    RemoveInodes(m, name);
    RemoveSteps(m, name);
    hide RemoveEffect;
    hide ReclaimInode;
    forall s | s in m.spaces
      ensures ReclaimInode(m.spaces[s], InodeOf(m, name).blocks).total == m.spaces[s].total
    {
      ReclaimTotal(m.spaces[s], InodeOf(m, name).blocks);
    }
  }

  lemma ReclaimTotal(sp: Space, blocks: seq<BlockInfo>)
    ensures ReclaimInode(sp, blocks).total == sp.total
  {
    ReclaimListTotal(sp, OnServer(blocks, sp.serverId));
  }

  lemma {:induction false} ReclaimListTotal(sp: Space, blocks: seq<nat>)
    ensures Reclaim(sp, blocks).total == sp.total
    decreases |blocks|
  {
    if blocks != [] {
      ReclaimListTotal(sp, blocks[..|blocks| - 1]);
    }
  }

  /** A node without a used block serves no file. */
  lemma UnusedNode(m: Meta, i: nat, nodeId: nat)
    requires Inv(m) && i in m.table.inodes && (nodeId in m.spaces ==> m.spaces[nodeId].inUse == {})
    ensures forall p :: 0 <= p < |m.table.inodes[i].blocks| ==> m.table.inodes[i].blocks[p].serverId != nodeId
  {
    var blocks := m.table.inodes[i].blocks;
    forall p: nat | p < |blocks| ensures blocks[p].serverId != nodeId {
      assert Holds(m, i, p, blocks[p].serverId, blocks[p].blockNr);
      assert InUse(m, blocks[p].serverId, blocks[p].blockNr);
    }
  }

  lemma BackingOtherNode(mem: Memory, blocks: seq<BlockInfo>, nodeId: nat, region: seq<byte>)
    requires BlocksIn(mem, blocks) && forall p :: 0 <= p < |blocks| ==> blocks[p].serverId != nodeId
    ensures BlocksIn(mem[nodeId := region], blocks) && Backing(mem[nodeId := region], blocks) == Backing(mem, blocks)
  {
  }

  /** A region that reaches its first block boundary holds all blocks of its manager. */
  lemma RegionFits(addr: nat, length: nat, nodeId: nat)
    requires 0 < length && addr + length + FILE_BLOCK_SIZE <= TWO_TO_THE_64 && AlignUp(addr, FILE_BLOCK_SIZE) <= addr + length
    ensures NewSpace(addr, Wrap64(addr + length - 1), FILE_BLOCK_SIZE, nodeId).total * FILE_BLOCK_SIZE <= length
  {
    assert Wrap64(addr + length - 1) == addr + length - 1;
    BlocksInsideIff(addr, length, FILE_BLOCK_SIZE, nodeId);
    SameBlockSize(addr, addr + length - 1, nodeId);
    hide NewSpace;
    hide AlignUp;
    hide BlocksInside;
    InsideFits(NewSpace(addr, addr + length - 1, FILE_BLOCK_SIZE, nodeId), length);
  }

  lemma SameBlockSize(start: nat, end: nat, nodeId: nat)
    ensures NewSpace(start, end, FILE_BLOCK_SIZE, nodeId).blockSize == FILE_BLOCK_SIZE
  {
    hide AlignUp;
  }

  lemma RegisterKeepsMemory(sys: System, nodeId: nat, addr: nat, region: seq<byte>)
    requires Consistent(sys) && Enabled(sys, Register(nodeId, addr, region))
    ensures Consistent(System(RegisterEffect(sys.meta, nodeId, addr, |region|), sys.mem[nodeId := region]))
  {
    hide NewSpace;
    hide Wrap64;
    hide AlignUp;
    hide Inv;
    RegionFits(addr, |region|, nodeId);
    RegisterInv(sys.meta, nodeId, addr, |region|);
  }

  lemma RegisterRefines(sys: System, nodeId: nat, addr: nat, region: seq<byte>)
    requires Consistent(sys) && Enabled(sys, Register(nodeId, addr, region))
    ensures var after := System(RegisterEffect(sys.meta, nodeId, addr, |region|), sys.mem[nodeId := region]);
            Consistent(after) && Backed(after) && Backed(sys) && FilesOf(after) == FilesOf(sys)
  {
    hide NewSpace;
    hide Wrap64;
    hide Inv;
    var after := System(RegisterEffect(sys.meta, nodeId, addr, |region|), sys.mem[nodeId := region]);
    RegisterKeepsMemory(sys, nodeId, addr, region);
    InvBacked(sys);
    InvBacked(after);
    forall h | h in Directory(sys.meta) ensures EntryKept(sys, after, h) {
      var i := Directory(sys.meta)[h].inum;
      UnusedNode(sys.meta, i, nodeId);
      BackingOtherNode(sys.mem, sys.meta.table.inodes[i].blocks, nodeId, region);
    }
    FilesSame(sys, after);
  }

  lemma FilesSame(a: System, b: System)
    requires Backed(a) && Backed(b) && Directory(b.meta).Keys == Directory(a.meta).Keys
    requires forall k :: k in Directory(a.meta) ==> EntryKept(a, b, k)
    ensures FilesOf(b) == FilesOf(a)
  {
    hide BlocksIn;
    hide FileOf;
  }

  lemma InsideFits(sp: Space, length: nat)
    requires sp.blockSize == FILE_BLOCK_SIZE && BlocksInside(sp, length)
    ensures sp.total * FILE_BLOCK_SIZE <= length
  {
    if sp.total > 0 {
      assert (sp.total - 1) * sp.blockSize + sp.blockSize <= length;
    }
  }

  // ----- writes -----

  ghost predicate SameTotals(m: Meta, n: Meta) {
    n.spaces.Keys == m.spaces.Keys && forall s :: s in m.spaces ==> n.spaces[s].total == m.spaces[s].total
  }

  lemma GrowOneTotals(m: Meta, inum: nat, roll: nat)
    requires CanGrowOne(m, inum, roll)
    ensures SameTotals(m, GrowOne(m, inum, roll))
  {
    hide Pick;
  }

  lemma GrowUnfolds(m: Meta, inum: nat, rolls: seq<nat>)
    requires CanGrow(m, inum, rolls)
    ensures rolls == [] ==> Grow(m, inum, rolls) == m
    ensures rolls != [] ==> CanGrowOne(m, inum, rolls[0]) && CanGrow(GrowOne(m, inum, rolls[0]), inum, rolls[1..])
                            && Grow(m, inum, rolls) == Grow(GrowOne(m, inum, rolls[0]), inum, rolls[1..])
  {
  }

  lemma SameTotalsTransitive(m: Meta, n: Meta, k: Meta)
    ensures SameTotals(m, m)
    ensures SameTotals(m, n) && SameTotals(n, k) ==> SameTotals(m, k)
  {
  }

  lemma {:induction false} GrowTotals(m: Meta, inum: nat, rolls: seq<nat>)
    requires CanGrow(m, inum, rolls)
    ensures SameTotals(m, Grow(m, inum, rolls))
    decreases |rolls|
  {
    hide *;
    GrowUnfolds(m, inum, rolls);
    if rolls == [] {
      SameTotalsTransitive(m, m, m);
    } else {
      GrowOneTotals(m, inum, rolls[0]);
      GrowTotals(GrowOne(m, inum, rolls[0]), inum, rolls[1..]);
      SameTotalsTransitive(m, GrowOne(m, inum, rolls[0]), Grow(m, inum, rolls));
    }
  }

  /** Growing a file appends unspecified bytes to its backing and leaves every other file alone. */
  lemma GrowRefines(sys: System, name: FileName, rolls: seq<nat>)
    requires Consistent(sys) && IsFile(sys.meta, name) && CanGrow(sys.meta, InumOf(sys.meta, name), rolls)
    ensures Backed(sys)
    ensures var after := System(Grow(sys.meta, InumOf(sys.meta, name), rolls), sys.mem);
            && Consistent(after) && Backed(after) && Directory(after.meta) == Directory(sys.meta)
            && var before, grown := FilesOf(sys)[name.hash], FilesOf(after)[name.hash];
               (&& FilesOf(after) == FilesOf(sys)[name.hash := grown]
                && grown.size == before.size && before.backing <= grown.backing
                && |grown.backing| == |before.backing| + |rolls| * FILE_BLOCK_SIZE)
  {
    var inum := InumOf(sys.meta, name);
    var after := System(Grow(sys.meta, inum, rolls), sys.mem);
    EntriesNotRoot(sys.meta);
    GrowInv(sys.meta, inum, rolls);
    GrowGrew(sys.meta, inum, rolls);
    GrowTotals(sys.meta, inum, rolls);
    hide Grow;
    hide Inv;
    InvBacked(sys);
    InvBacked(after);
    hide Grew;
    GrewFiles(sys, after, name, |rolls|);
  }

  lemma GrewFiles(sys: System, after: System, name: FileName, n: nat)
    requires Consistent(sys) && Backed(sys) && Backed(after) && after.mem == sys.mem
    requires IsFile(sys.meta, name) && Grew(sys.meta, after.meta, InumOf(sys.meta, name), n)
    ensures Directory(after.meta) == Directory(sys.meta)
    ensures var before, grown := FilesOf(sys)[name.hash], FilesOf(after)[name.hash];
            && FilesOf(after) == FilesOf(sys)[name.hash := grown]
            && grown.size == before.size && before.backing <= grown.backing
            && |grown.backing| == |before.backing| + n * FILE_BLOCK_SIZE
  {
    EntriesNotRoot(sys.meta);
    GrewLookup(sys.meta, after.meta, name, n);
    BackingPrefix(sys.mem, InodeOf(sys.meta, name).blocks, InodeOf(after.meta, name).blocks);
    hide Inv;
    hide BlocksIn;
    hide Backing;
    FilesUpdated(sys, after, name.hash);
  }

  lemma InodesDisjoint(m: Meta, i: nat, j: nat)
    requires HeldOnce(m) && i in m.table.inodes && j in m.table.inodes && i != j
    ensures Disjoint(m.table.inodes[i].blocks, m.table.inodes[j].blocks)
  {
    var a, b := m.table.inodes[i].blocks, m.table.inodes[j].blocks;
    forall p: nat, q: nat | p < |a| && q < |b| ensures a[p].serverId != b[q].serverId || a[p].blockNr != b[q].blockNr {
      assert Holds(m, i, p, a[p].serverId, a[p].blockNr);
      assert Holds(m, j, q, b[q].serverId, b[q].blockNr);
    }
  }

  /** With the shift, what is stored is the buffer itself. */
  lemma StoredShifted(before: seq<byte>, after: seq<byte>, off: nat, buf: seq<byte>)
    requires Stored(before, after, off, |buf|, 0, buf, true) && off + |buf| <= |before|
    ensures after == Splice(before, off, buf)
  {
  }

  lemma StoreKeepsShape(sys: System, mem: Memory)
    requires Consistent(sys) && SameShape(sys.mem, mem)
    ensures Consistent(System(sys.meta, mem))
  {
  }

  /** The client's write loop, seen from the file written and from all others. */
  lemma StoreOnFiles(sys: System, name: FileName, off: nat, data: seq<byte>)
    requires Consistent(sys) && IsFile(sys.meta, name) && InFile(InodeOf(sys.meta, name).blocks, off, |data|)
    ensures var blocks := InodeOf(sys.meta, name).blocks;
            && BlocksIn(sys.mem, blocks) && AllFit(sys.mem, ExtentList(blocks, off, |data|), |data|, true)
            && var mem := StoreAll(sys.mem, ExtentList(blocks, off, |data|), data, true);
               (&& Consistent(System(sys.meta, mem))
                && BlocksIn(mem, blocks) && Backing(mem, blocks) == Splice(Backing(sys.mem, blocks), off, data)
                && forall other :: BlocksIn(sys.mem, other) && Disjoint(blocks, other) ==>
                     BlocksIn(mem, other) && Backing(mem, other) == Backing(sys.mem, other))
  {
    var inum, blocks := InumOf(sys.meta, name), InodeOf(sys.meta, name).blocks;
    BlocksInMemory(sys, inum);
    InodeBlocksDistinct(sys.meta, inum);
    hide Inv;
    StoreReply(sys.mem, blocks, off, |data|, data, true);
    var mem := StoreAll(sys.mem, ExtentList(blocks, off, |data|), data, true);
    hide StoreAll;
    StoreKeepsShape(sys, mem);
    StoredShifted(Backing(sys.mem, blocks), Backing(mem, blocks), off, data);
  }

  lemma RecordedFile(m: Meta, name: FileName, off: nat, len: nat)
    requires Inv(m) && IsFile(m, name) && InFile(InodeOf(m, name).blocks, off, len)
    ensures var after := WithInode(m, InumOf(m, name), Written(InodeOf(m, name), off, len));
            && Inv(after) && Directory(after) == Directory(m) && after.spaces == m.spaces
            && SamePlaces(InodeOf(m, name).blocks, InodeOf(after, name).blocks) && InodeOf(after, name).size == off + len
  {
    hide Recorded;
    RecordInv(m, InumOf(m, name), off, len);
  }

  /** `after` records a write of [off, off + len) in the inode of `name` over memory `after.mem`, which
      differs from `sys.mem` at most in the blocks of that inode. */
  ghost predicate RecordsWrite(sys: System, after: System, name: FileName, off: nat, len: nat) {
    && Consistent(sys) && Consistent(System(sys.meta, after.mem)) && IsFile(sys.meta, name)
    && var inode := InodeOf(sys.meta, name);
       && InFile(inode.blocks, off, len)
       && after.meta == WithInode(sys.meta, InumOf(sys.meta, name), Written(inode, off, len))
       && forall other :: BlocksIn(sys.mem, other) && Disjoint(inode.blocks, other) ==>
            BlocksIn(after.mem, other) && Backing(after.mem, other) == Backing(sys.mem, other)
  }

  lemma RecordedSystem(sys: System, after: System, name: FileName, off: nat, len: nat)
    requires RecordsWrite(sys, after, name, off, len)
    ensures Consistent(after) && RootExists(after.meta) && RootExists(sys.meta)
    ensures Directory(after.meta) == Directory(sys.meta) && IsFile(after.meta, name)
  {
    RecordedFile(sys.meta, name, off, len);
    hide Inv;
    hide Written;
    hide Backing;
    hide BlocksIn;
  }

  lemma RecordedEntry(sys: System, after: System, name: FileName, off: nat, len: nat)
    requires RecordsWrite(sys, after, name, off, len) && Backed(after)
    ensures var blocks := InodeOf(sys.meta, name).blocks;
            && BlocksIn(after.mem, blocks) && name.hash in Directory(after.meta)
            && FilesOf(after)[name.hash] == File(Backing(after.mem, blocks), off + len)
  {
    RecordedFile(sys.meta, name, off, len);
    BlocksInMemory(System(sys.meta, after.mem), InumOf(sys.meta, name));
    hide Inv;
    hide Written;
    BackingSamePlaces(after.mem, InodeOf(sys.meta, name).blocks, InodeOf(after.meta, name).blocks);
  }

  lemma OtherEntryKept(sys: System, after: System, name: FileName, off: nat, len: nat, h: nat)
    requires RecordsWrite(sys, after, name, off, len) && Backed(after) && Backed(sys)
    requires Directory(after.meta) == Directory(sys.meta) && h in Directory(sys.meta) && h != name.hash
    ensures EntryKept(sys, after, h)
  {
    var i, inum := Directory(sys.meta)[h].inum, InumOf(sys.meta, name);
    EntriesNotRoot(sys.meta);
    InodesDisjoint(sys.meta, inum, i);
    BlocksInMemory(sys, i);
    hide Inv;
    hide Written;
    hide Disjoint;
    hide BlocksIn;
    hide Backing;
    assert after.meta.table.inodes[i] == sys.meta.table.inodes[i];
  }

  lemma RecordRefines(sys: System, after: System, name: FileName, off: nat, len: nat)
    requires RecordsWrite(sys, after, name, off, len)
    ensures Backed(sys) && Consistent(after) && Backed(after) && RootExists(sys.meta) && IsFile(sys.meta, name)
    ensures var blocks := InodeOf(sys.meta, name).blocks;
            && BlocksIn(after.mem, blocks)
            && FilesOf(after) == FilesOf(sys)[name.hash := File(Backing(after.mem, blocks), off + len)]
  {
    hide *;
    RecordsWriteInv(sys, after, name, off, len);
    RecordedSystem(sys, after, name, off, len);
    InvBacked(sys);
    InvBacked(after);
    RecordedEntry(sys, after, name, off, len);
    forall k | k in Directory(sys.meta) && k != name.hash ensures EntryKept(sys, after, k) {
      OtherEntryKept(sys, after, name, off, len, k);
    }
    assert Directory(after.meta).Keys == Directory(sys.meta).Keys + {name.hash};
    FilesUpdated(sys, after, name.hash);
  }

  lemma RecordsWriteInv(sys: System, after: System, name: FileName, off: nat, len: nat)
    requires RecordsWrite(sys, after, name, off, len)
    ensures Consistent(sys) && RootExists(sys.meta) && IsFile(sys.meta, name)
  {
  }

  /** The system after the client's write loop and the recording of the write. */
  ghost predicate StoresWrite(sys: System, after: System, name: FileName, off: nat, data: seq<byte>) {
    && Consistent(sys) && IsFile(sys.meta, name) && InFile(InodeOf(sys.meta, name).blocks, off, |data|)
    && var extents := ExtentList(InodeOf(sys.meta, name).blocks, off, |data|);
       && AllFit(sys.mem, extents, |data|, true)
       && after == System(WithInode(sys.meta, InumOf(sys.meta, name), Written(InodeOf(sys.meta, name), off, |data|)),
                          StoreAll(sys.mem, extents, data, true))
  }

  lemma StoredRecords(sys: System, after: System, name: FileName, off: nat, data: seq<byte>)
    requires StoresWrite(sys, after, name, off, data)
    ensures Consistent(sys) && RootExists(sys.meta) && IsFile(sys.meta, name) && RecordsWrite(sys, after, name, off, |data|)
    ensures var blocks := InodeOf(sys.meta, name).blocks;
            && BlocksIn(sys.mem, blocks) && BlocksIn(after.mem, blocks) && off + |data| <= |Backing(sys.mem, blocks)|
            && Backing(after.mem, blocks) == Splice(Backing(sys.mem, blocks), off, data)
  {
    StoreOnFiles(sys, name, off, data);
  }

  lemma EntryBacking(sys: System, name: FileName)
    requires Consistent(sys) && Backed(sys) && IsFile(sys.meta, name)
    ensures name.hash in FilesOf(sys) && BlocksIn(sys.mem, InodeOf(sys.meta, name).blocks)
    ensures FilesOf(sys)[name.hash].backing == Backing(sys.mem, InodeOf(sys.meta, name).blocks)
  {
  }

  /** Storing a buffer through the reply and recording the write replaces exactly [off, off + |data|)
      of the file and leaves every other file alone. */
  lemma StoreRefines(sys: System, after: System, name: FileName, off: nat, data: seq<byte>)
    requires StoresWrite(sys, after, name, off, data)
    ensures Backed(sys) && name.hash in FilesOf(sys) && off + |data| <= |FilesOf(sys)[name.hash].backing|
    ensures Consistent(after) && Backed(after)
    ensures FilesOf(after) == FilesOf(sys)[name.hash :=
              File(Splice(FilesOf(sys)[name.hash].backing, off, data), off + |data|)]
  {
    hide *;
    StoredRecords(sys, after, name, off, data);
    InvBacked(sys);
    EntryBacking(sys, name);
    RecordRefines(sys, after, name, off, |data|);
  }

  /** The result of a whole write request with the shift. */
  ghost predicate Writes(sys: System, after: System, name: FileName, off: nat, data: seq<byte>, rolls: seq<nat>) {
    && Consistent(sys) && CanWrite(sys.meta, name, off, |data|, rolls)
    && var (meta, extents, n) := WriteEffect(sys.meta, name, off, |data|, rolls);
       && AllFit(sys.mem, extents, |data|, true)
       && after == System(meta, StoreAll(sys.mem, extents, data, true))
  }

  /** A write finds or creates the file, grows it, and then stores into blocks it owns. */
  ghost predicate Phases(sys: System, found: System, grown: System, name: FileName, off: nat, len: nat, rolls: seq<nat>) {
    && RootExists(sys.meta) && CanAllocate(sys.meta.table)
    && (Listed(sys.meta, name) || sys.meta.table.cur != sys.meta.table.total)
    && found == System(CreateEffect(sys.meta, name, false).0, sys.mem)
    && RootExists(found.meta) && IsFile(found.meta, name) && CanGrow(found.meta, InumOf(found.meta, name), rolls)
    && |rolls| == Growth(InodeOf(found.meta, name).blocks, off, len)
    && grown == System(Grow(found.meta, InumOf(found.meta, name), rolls), sys.mem)
    && RootExists(grown.meta) && IsFile(grown.meta, name) && InFile(InodeOf(grown.meta, name).blocks, off, len)
  }

  lemma WritePhases(sys: System, name: FileName, off: nat, len: nat, rolls: seq<nat>) returns (found: System, grown: System)
    requires Consistent(sys) && CanWrite(sys.meta, name, off, len, rolls)
    ensures Phases(sys, found, grown, name, off, len, rolls)
  {
    WriteSteps(sys.meta, name, off, len, rolls);
    CreateInv(sys.meta, name, false);
    OpenedListed(sys.meta, name);
    found := System(Opened(sys.meta, name), sys.mem);
    grown := System(Grow(found.meta, InumOf(found.meta, name), rolls), sys.mem);
    hide Inv;
    hide CreateEffect;
    hide WriteEffect;
    EnlargedFits(found.meta, name, off, len, rolls);
  }

  lemma LastPhase(sys: System, found: System, grown: System, after: System, name: FileName, off: nat, data: seq<byte>,
                  rolls: seq<nat>)
    requires Phases(sys, found, grown, name, off, |data|, rolls) && Writes(sys, after, name, off, data, rolls) && Consistent(grown)
    ensures StoresWrite(grown, after, name, off, data)
  {
    WriteSteps(sys.meta, name, off, |data|, rolls);
    hide Inv;
    hide Grow;
    hide CanGrow;
    hide CreateEffect;
    hide WriteEffect;
    hide StoreAll;
    hide AllFit;
    hide ExtentList;
    hide Written;
  }

  lemma FirstPhases(sys: System, found: System, grown: System, name: FileName, off: nat, len: nat, rolls: seq<nat>)
    requires Phases(sys, found, grown, name, off, len, rolls) && Consistent(sys)
    ensures Backed(sys) && Consistent(found) && Backed(found) && Consistent(grown) && Backed(grown)
    ensures name.hash in FilesOf(found) && name.hash in FilesOf(grown)
    ensures FilesOf(found) == FilesOf(sys)[name.hash := FileOrEmpty(FilesOf(sys), name.hash)]
    ensures var before, after := FilesOf(found)[name.hash], FilesOf(grown)[name.hash];
            && FilesOf(grown) == FilesOf(found)[name.hash := after]
            && before.backing <= after.backing && Reaches(|before.backing|, |after.backing|, off + len)
  {
    hide Inv;
    hide Grow;
    hide CanGrow;
    hide CreateEffect;
    CreateRefines(sys, name, false);
    GrowRefines(found, name, rolls);
    EntryBacking(found, name);
    var blocks := InodeOf(found.meta, name).blocks;
    GrowthIs(blocks, off, len);
    hide Growth;
    BlocksReach(|blocks|, |rolls|, off + len);
  }

  lemma BlocksReach(blocks: nat, more: nat, end: nat)
    requires end <= blocks * FILE_BLOCK_SIZE ==> more == 0
    requires end > blocks * FILE_BLOCK_SIZE ==>
               (blocks + more - 1) * FILE_BLOCK_SIZE < end <= (blocks + more) * FILE_BLOCK_SIZE
    ensures Reaches(blocks * FILE_BLOCK_SIZE, blocks * FILE_BLOCK_SIZE + more * FILE_BLOCK_SIZE, end)
  {
  }

  lemma WriteRefines(sys: System, after: System, name: FileName, off: nat, data: seq<byte>, rolls: seq<nat>)
    requires Writes(sys, after, name, off, data, rolls)
    ensures Backed(sys) && Consistent(after) && Backed(after) && name.hash in FilesOf(after)
    ensures FilesOf(after) == FilesOf(sys)[name.hash := FilesOf(after)[name.hash]]
    ensures Overwritten(FileOrEmpty(FilesOf(sys), name.hash), FilesOf(after)[name.hash], off, data)
  {
    hide Overwritten;
    hide FilesOf;
    hide Inv;
    hide Phases;
    hide StoresWrite;
    hide Backed;
    var found, grown := WritePhases(sys, name, off, |data|, rolls);
    FirstPhases(sys, found, grown, name, off, |data|, rolls);
    LastPhase(sys, found, grown, after, name, off, data, rolls);
    StoreRefines(grown, after, name, off, data);
    WriteCombines(FilesOf(sys), FilesOf(found), FilesOf(grown), name.hash, off, data);
  }

  lemma WriteCombines(files: map<nat, File>, found: map<nat, File>, grown: map<nat, File>, h: nat, off: nat, data: seq<byte>)
    requires found == files[h := FileOrEmpty(files, h)] && h in grown && grown == found[h := grown[h]]
    requires found[h].backing <= grown[h].backing
    requires Reaches(|found[h].backing|, |grown[h].backing|, off + |data|)
    ensures var written := File(Splice(grown[h].backing, off, data), off + |data|);
            grown[h := written] == files[h := written] && Overwritten(FileOrEmpty(files, h), written, off, data)
  {
    var before := FileOrEmpty(files, h);
    var extra := grown[h].backing[|before.backing|..];
    assert before.backing + extra == grown[h].backing;
  }

  // ----- reads -----

  lemma ReadBytes(sys: System, name: FileName, off: nat, n: nat, buf: seq<byte>)
    requires Consistent(sys) && IsFile(sys.meta, name) && off + n <= InodeOf(sys.meta, name).size && n <= |buf|
    ensures var inode := InodeOf(sys.meta, name);
            && BlocksIn(sys.mem, inode.blocks) && InFile(inode.blocks, off, n)
            && inode.size <= |Backing(sys.mem, inode.blocks)|
            && AllFit(sys.mem, ExtentList(inode.blocks, off, n), |buf|, true)
            && LoadAll(sys.mem, ExtentList(inode.blocks, off, n), buf, true)
               == Splice(buf, 0, Backing(sys.mem, inode.blocks)[off..off + n])
  {
    BlocksInMemory(sys, InumOf(sys.meta, name));
    SizeFits(sys.meta, InumOf(sys.meta, name));
    hide Inv;
    LoadReply(sys.mem, InodeOf(sys.meta, name).blocks, off, n, buf);
  }

  lemma SizeFits(m: Meta, i: nat)
    requires Inv(m) && i in m.table.inodes
    ensures m.table.inodes[i].size <= |m.table.inodes[i].blocks| * FILE_BLOCK_SIZE
  {
    assert InodeOk(m.table.inodes[i]);
  }

  /** The file's entry in the abstraction. */
  lemma EntryIs(sys: System, name: FileName)
    requires Consistent(sys) && IsFile(sys.meta, name)
    ensures BlocksIn(sys.mem, InodeOf(sys.meta, name).blocks)
    ensures Backed(sys) && name.hash in FilesOf(sys)
    ensures FilesOf(sys)[name.hash] == File(Backing(sys.mem, InodeOf(sys.meta, name).blocks), InodeOf(sys.meta, name).size)
  {
    InvBacked(sys);
  }

  /** In a reachable state the length that ReadFile computes is that of the bytes the file has. */
  lemma ReplyIsClipped(m: Meta, name: FileName, off: nat, len: nat)
    requires Inv(m) && Addressable(m) && CanRead(m, name, off, len)
    ensures var inode := InodeOf(m, name);
            && off <= inode.size
            && var n := Clipped(off, len, inode.size);
               InFile(inode.blocks, off, n) && ReadReply(m, name, off, len) == (ExtentList(inode.blocks, off, n), n)
  {
    ReadRuns(m, name, off, len);
    SizeFits(m, InumOf(m, name));
  }

  lemma SysInvParts(sys: System)
    requires SysInv(sys)
    ensures Consistent(sys) && Inv(sys.meta) && Addressable(sys.meta)
  {
  }

  lemma ReadSpec(files: map<nat, File>, name: FileName, off: nat, len: nat, buf: seq<byte>, got: seq<byte>)
    requires name.hash in files && off <= files[name.hash].size <= |files[name.hash].backing| && len <= |buf|
    requires var n := Clipped(off, len, files[name.hash].size); got == Splice(buf, 0, files[name.hash].backing[off..off + n])
    ensures SpecNext(files, Read(name, off, len, buf), Contents(got, Clipped(off, len, files[name.hash].size)), files)
  {
  }

  /** A read returns exactly the bytes of [off, min(off + len, size)) of the file. */
  lemma ReadRefines(sys: System, name: FileName, off: nat, len: nat, buf: seq<byte>, extents: seq<Extent>, n: nat)
    requires SysInv(sys) && CanRead(sys.meta, name, off, len) && len <= |buf|
    requires (extents, n) == ReadReply(sys.meta, name, off, len)
    ensures AllFit(sys.mem, extents, |buf|, true)
    ensures Backed(sys) && SpecNext(FilesOf(sys), Read(name, off, len, buf),
                                    Contents(LoadAll(sys.mem, extents, buf, true), n), FilesOf(sys))
  {
    hide *;
    CanReadIs(sys.meta, name, off, len);
    SysInvParts(sys);
    ReplyIsClipped(sys.meta, name, off, len);
    ReadBytes(sys, name, off, n, buf);
    EntryIs(sys, name);
    ReadSpec(FilesOf(sys), name, off, len, buf, LoadAll(sys.mem, extents, buf, true));
  }

  lemma CanReadIs(m: Meta, name: FileName, off: nat, len: nat)
    requires CanRead(m, name, off, len)
    ensures RootExists(m) && IsFile(m, name)
  {
  }

  // ----- runs -----

  /** The request of the step stays inside one block of its file. */
  ghost predicate InOneBlock(sys: System, op: Op)
    requires Enabled(sys, op)
  {
    match op
    case Write(name, off, data, _) => OneBlock(off, |data|)
    case Read(name, off, len, _) => OneBlock(off, ReadReply(sys.meta, name, off, len).1)
    case _ => true
  }

  /** On a request inside one block the client as written takes the step of the intended client. */
  lemma OneBlockNext(sys: System, op: Op, sys': System, reply: Reply)
    requires SysInv(sys) && Next(sys, op, false, sys', reply) && InOneBlock(sys, op)
    ensures Next(sys, op, true, sys', reply)
  {
    match op
    case Write(name, off, data, rolls) =>
      var found, grown := WritePhases(sys, name, off, |data|, rolls);
      FirstPhases(sys, found, grown, name, off, |data|, rolls);
      WriteSteps(sys.meta, name, off, |data|, rolls);
      BlocksInMemory(grown, InumOf(grown.meta, name));
      OneBlockSame(sys.mem, InodeOf(grown.meta, name).blocks, off, |data|, data);
    case Read(name, off, len, buf) =>
      BlocksInMemory(sys, InumOf(sys.meta, name));
      ReplyIsClipped(sys.meta, name, off, len);
      var inode := InodeOf(sys.meta, name);
      OneBlockSame(sys.mem, inode.blocks, off, Clipped(off, len, inode.size), buf);
    case _ =>
  }

  /** Every enabled step can be taken: no request meets an address outside a server's memory. */
  lemma StepExists(sys: System, op: Op) returns (sys': System, reply: Reply)
    requires SysInv(sys) && Enabled(sys, op)
    ensures Next(sys, op, true, sys', reply)
  {
    match op
    case Create(name, isDir) =>
      CreateRefines(sys, name, isDir);
      var (meta, inum) := CreateEffect(sys.meta, name, isDir);
      sys', reply := System(meta, sys.mem), Created(inum);
    case Write(name, off, data, rolls) =>
      var found, grown := WritePhases(sys, name, off, |data|, rolls);
      FirstPhases(sys, found, grown, name, off, |data|, rolls);
      WriteSteps(sys.meta, name, off, |data|, rolls);
      BlocksInMemory(grown, InumOf(grown.meta, name));
      ExtentListFits(sys.mem, InodeOf(grown.meta, name).blocks, off, |data|, |data|, true);
      var (meta, extents, n) := WriteEffect(sys.meta, name, off, |data|, rolls);
      sys', reply := System(meta, StoreAll(sys.mem, extents, data, true)), Count(n);
    case Read(name, off, len, buf) =>
      var (extents, n) := ReadReply(sys.meta, name, off, len);
      ReadRefines(sys, name, off, len, buf, extents, n);
      sys', reply := sys, Contents(LoadAll(sys.mem, extents, buf, true), n);
    case Remove(name) =>
      RemoveRefines(sys, name);
      var (meta, success) := RemoveEffect(sys.meta, name);
      sys', reply := System(meta, sys.mem), Removed(success);
    case Register(nodeId, addr, region) =>
      sys', reply := System(RegisterEffect(sys.meta, nodeId, addr, |region|), sys.mem[nodeId := region]), Done;
  }

  /** The step keeps the invariant and is a step of the flat files. */
  ghost predicate Refines(sys: System, op: Op, sys': System, reply: Reply) {
    SysInv(sys') && Backed(sys) && Backed(sys') && SpecNext(FilesOf(sys), op, reply, FilesOf(sys'))
  }

  lemma CreateStep(sys: System, name: FileName, isDir: bool, sys': System, reply: Reply)
    requires SysInv(sys) && Next(sys, Create(name, isDir), true, sys', reply)
    ensures Refines(sys, Create(name, isDir), sys', reply)
  {
    hide Inv;
    hide CreateEffect;
    CreateRefines(sys, name, isDir);
    CreateAddressable(sys.meta, name, isDir);
  }

  lemma WriteStep(sys: System, name: FileName, off: nat, data: seq<byte>, rolls: seq<nat>, sys': System, reply: Reply)
    requires SysInv(sys) && Next(sys, Write(name, off, data, rolls), true, sys', reply)
    ensures Refines(sys, Write(name, off, data, rolls), sys', reply)
  {
    hide Inv;
    hide CanWrite;
    assert reply == Count(|data|);
    WriteAddressable(sys.meta, name, off, |data|, rolls);
    hide WriteEffect;
    assert Writes(sys, sys', name, off, data, rolls);
    hide Writes;
    WriteRefines(sys, sys', name, off, data, rolls);
  }

  lemma ReadStep(sys: System, name: FileName, off: nat, len: nat, buf: seq<byte>, sys': System, reply: Reply)
    requires SysInv(sys) && Next(sys, Read(name, off, len, buf), true, sys', reply)
    ensures Refines(sys, Read(name, off, len, buf), sys', reply)
  {
    hide Inv;
    hide ReadReply;
    hide SpecNext;
    var (extents, n) := ReadReply(sys.meta, name, off, len);
    ReadRefines(sys, name, off, len, buf, extents, n);
  }

  lemma RemoveStep(sys: System, name: FileName, sys': System, reply: Reply)
    requires SysInv(sys) && Next(sys, Remove(name), true, sys', reply)
    ensures Refines(sys, Remove(name), sys', reply)
  {
    hide Inv;
    hide RemoveEffect;
    RemoveRefines(sys, name);
    RemoveAddressable(sys.meta, name);
  }

  lemma RegisterStep(sys: System, nodeId: nat, addr: nat, region: seq<byte>, sys': System, reply: Reply)
    requires SysInv(sys) && Next(sys, Register(nodeId, addr, region), true, sys', reply)
    ensures Refines(sys, Register(nodeId, addr, region), sys', reply)
  {
    hide Inv;
    hide RegisterEffect;
    RegisterAddressable(sys.meta, nodeId, addr, |region|);
    RegisterRefines(sys, nodeId, addr, region);
  }

  lemma StepRefines(sys: System, op: Op, sys': System, reply: Reply)
    requires SysInv(sys) && Next(sys, op, true, sys', reply)
    ensures Refines(sys, op, sys', reply)
  {
    hide *;
    match op
    case Create(name, isDir) => CreateStep(sys, name, isDir, sys', reply);
    case Write(name, off, data, rolls) => WriteStep(sys, name, off, data, rolls, sys', reply);
    case Read(name, off, len, buf) => ReadStep(sys, name, off, len, buf, sys', reply);
    case Remove(name) => RemoveStep(sys, name, sys', reply);
    case Register(nodeId, addr, region) => RegisterStep(sys, nodeId, addr, region, sys', reply);
  }

  /** A run: each step is enabled and taken; an unshifted client keeps to requests inside one block. */
  ghost predicate Run(states: seq<System>, ops: seq<Op>, replies: seq<Reply>, shifted: bool) {
    && |states| == |ops| + 1 && |replies| == |ops|
    && states[0] == System(Meta(NewTable(100), map[]), map[])
    && forall k :: 0 <= k < |ops| ==>
         && Next(states[k], ops[k], shifted, states[k + 1], replies[k])
         && (shifted || InOneBlock(states[k], ops[k]))
  }

  lemma StartSysInv()
    ensures SysInv(System(Meta(NewTable(100), map[]), map[]))
  {
    InitialInv(100);
    hide Inv;
  }

  lemma {:induction false} RunInvariant(states: seq<System>, ops: seq<Op>, replies: seq<Reply>, shifted: bool, k: nat)
    requires Run(states, ops, replies, shifted) && k <= |ops|
    ensures SysInv(states[k])
    decreases k
  {
    hide SysInv;
    hide Next;
    hide InOneBlock;
    hide NewTable;
    if k == 0 {
      StartSysInv();
    } else {
      RunInvariant(states, ops, replies, shifted, k - 1);
      StepSpec(states[k - 1], ops[k - 1], shifted, states[k], replies[k - 1]);
    }
  }

  lemma StepShifted(sys: System, op: Op, shifted: bool, sys': System, reply: Reply)
    requires SysInv(sys) && Next(sys, op, shifted, sys', reply)
    requires shifted || InOneBlock(sys, op)
    ensures Refines(sys, op, sys', reply)
  {
    if !shifted {
      OneBlockNext(sys, op, sys', reply);
    }
    StepRefines(sys, op, sys', reply);
  }

  /** The whole system refines a map from name to flat file: in every run the invariant holds in every
      state, and every step is a step of the specification. It holds for the intended client on all
      requests and for the client as written on requests inside one block. */
  lemma RunRefines(states: seq<System>, ops: seq<Op>, replies: seq<Reply>, shifted: bool)
    requires Run(states, ops, replies, shifted)
    ensures forall k :: 0 <= k < |states| ==> SysInv(states[k]) && Backed(states[k])
    ensures FilesOf(states[0]) == map[]
    ensures forall k :: 0 <= k < |ops| ==> SpecNext(FilesOf(states[k]), ops[k], replies[k], FilesOf(states[k + 1]))
  {
    hide SpecNext;
    forall k | 0 <= k < |states| ensures SysInv(states[k]) && Backed(states[k]) {
      RunInvariant(states, ops, replies, shifted, k);
      InvBacked(states[k]);
    }
    forall k | 0 <= k < |ops| ensures SpecNext(FilesOf(states[k]), ops[k], replies[k], FilesOf(states[k + 1])) {
      StepShifted(states[k], ops[k], shifted, states[k + 1], replies[k]);
    }
  }

  // ----- the numbers of files -----

  /** The hash of the name that a removal drops. */
  predicate Removes(op: Op, h: nat) {
    op.Remove? && op.name.hash == h
  }

  lemma CreateKeepsEntry(m: Meta, name: FileName, isDir: bool, h: nat)
    requires Inv(m) && h in Directory(m)
    ensures CanAllocate(m.table) && RootExists(CreateEffect(m, name, isDir).0)
    ensures h in Directory(CreateEffect(m, name, isDir).0)
    ensures Directory(CreateEffect(m, name, isDir).0)[h] == Directory(m)[h]
  {
    CreateReplies(m, name, isDir);
    hide Inv;
    hide CreateEffect;
    if !Listed(m, name) {
      assert h != name.hash;
    }
  }

  /** Whatever is asked but its removal, an entry stays as it is. */
  lemma StepKeepsEntry(sys: System, op: Op, shifted: bool, sys': System, reply: Reply, h: nat)
    requires Inv(sys.meta) && Next(sys, op, shifted, sys', reply) && h in Directory(sys.meta) && !Removes(op, h)
    ensures RootExists(sys'.meta) && h in Directory(sys'.meta) && Directory(sys'.meta)[h] == Directory(sys.meta)[h]
  {
    match op
    case Create(name, isDir) =>
      CreateKeepsEntry(sys.meta, name, isDir, h);
    case Write(name, off, data, rolls) =>
      WriteDirectory(sys.meta, name, off, |data|, rolls);
      CreateKeepsEntry(sys.meta, name, false, h);
    case Read(_, _, _, _) =>
    case Remove(name) =>
      if Listed(sys.meta, name) {
        RemoveInodes(sys.meta, name);
      } else {
        RemoveNothing(sys.meta, name);
      }
    case Register(_, _, _) =>
  }

  lemma CreateStepReply(sys: System, name: FileName, isDir: bool, shifted: bool, sys': System, reply: Reply)
    requires Inv(sys.meta) && Next(sys, Create(name, isDir), shifted, sys', reply)
    ensures RootExists(sys'.meta) && name.hash in Directory(sys'.meta) && reply == Created(Directory(sys'.meta)[name.hash].inum)
  {
    CreateReplies(sys.meta, name, isDir);
    hide Inv;
  }

  lemma RunRoot(states: seq<System>, ops: seq<Op>, replies: seq<Reply>, shifted: bool, k: nat)
    requires Run(states, ops, replies, shifted) && k <= |ops|
    ensures Inv(states[k].meta)
  {
    RunInvariant(states, ops, replies, shifted, k);
  }

  /** The number that a create replied stays the file's until the file is removed. */
  lemma {:induction false} NumberStays(states: seq<System>, ops: seq<Op>, replies: seq<Reply>, shifted: bool, j: nat, k: nat,
                                       name: FileName, isDir: bool)
    requires Run(states, ops, replies, shifted) && j < k <= |ops| && ops[j] == Create(name, isDir)
    requires forall i :: j < i < k ==> !Removes(ops[i], name.hash)
    ensures RootExists(states[k].meta) && name.hash in Directory(states[k].meta)
    ensures replies[j] == Created(Directory(states[k].meta)[name.hash].inum)
    decreases k
  {
    hide Next;
    hide Inv;
    RunRoot(states, ops, replies, shifted, k - 1);
    if k == j + 1 {
      CreateStepReply(states[j], name, isDir, shifted, states[k], replies[j]);
    } else {
      NumberStays(states, ops, replies, shifted, j, k - 1, name, isDir);
      StepKeepsEntry(states[k - 1], ops[k - 1], shifted, states[k], replies[k - 1], name.hash);
    }
  }

  /** In every run two creates, with no removal of the first file between them, reply the same number
      exactly when their names have the same hash; and the number is never the root's. */
  lemma CreatesAgreeIff(states: seq<System>, ops: seq<Op>, replies: seq<Reply>, shifted: bool, j: nat, k: nat,
                        a: FileName, x: bool, b: FileName, y: bool)
    requires Run(states, ops, replies, shifted) && j < k < |ops| && ops[j] == Create(a, x) && ops[k] == Create(b, y)
    requires forall i :: j < i < k ==> !Removes(ops[i], a.hash)
    ensures replies[j].Created? && replies[k].Created? && replies[j].inum != ROOT_INUM
    ensures replies[j] == replies[k] <==> a.hash == b.hash
  {
    hide Next;
    RunRoot(states, ops, replies, shifted, k + 1);
    NumberStays(states, ops, replies, shifted, j, k + 1, a, x);
    NumberStays(states, ops, replies, shifted, k, k + 1, b, y);
    EntriesNotRoot(states[k + 1].meta);
    hide Inv;
  }

  // ----- what a caller sees -----

  lemma StepSpec(sys: System, op: Op, shifted: bool, sys': System, reply: Reply)
    requires SysInv(sys) && Next(sys, op, shifted, sys', reply) && (shifted || InOneBlock(sys, op))
    ensures SysInv(sys') && Backed(sys) && Backed(sys') && SpecNext(FilesOf(sys), op, reply, FilesOf(sys'))
  {
    hide *;
    StepShifted(sys, op, shifted, sys', reply);
    RefinesSpec(sys, op, sys', reply);
  }

  lemma RefinesSpec(sys: System, op: Op, sys': System, reply: Reply)
    requires Refines(sys, op, sys', reply)
    ensures SysInv(sys') && Backed(sys) && Backed(sys') && SpecNext(FilesOf(sys), op, reply, FilesOf(sys'))
  {
  }

  lemma SpecWriteThenRead(files: map<nat, File>, name: FileName, off: nat, data: seq<byte>, rolls: seq<nat>, files': map<nat, File>,
                          w: Reply, buf: seq<byte>, files'': map<nat, File>, r: Reply)
    requires SpecNext(files, Write(name, off, data, rolls), w, files') && |data| <= |buf|
    requires SpecNext(files', Read(name, off, |data|, buf), r, files'')
    ensures w == Count(|data|) && r == Contents(data + buf[|data|..], |data|)
  {
    OverwrittenKeeps(FileOrEmpty(files, name.hash), files'[name.hash], off, data);
    assert Splice(buf, 0, data) == data + buf[|data|..];
  }

  /** Reading back the range just written returns the data written. */
  lemma WriteThenRead(sys: System, write: Op, shifted: bool, sys': System, w: Reply, buf: seq<byte>, sys'': System, r: Reply)
    requires write.Write? && |write.data| <= |buf|
    requires SysInv(sys) && Next(sys, write, shifted, sys', w) && (shifted || InOneBlock(sys, write))
    requires var read := Read(write.name, write.off, |write.data|, buf);
             Next(sys', read, shifted, sys'', r) && (shifted || InOneBlock(sys', read))
    ensures w == Count(|write.data|) && r == Contents(write.data + buf[|write.data|..], |write.data|)
  {
    hide *;
    var read := Read(write.name, write.off, |write.data|, buf);
    StepSpec(sys, write, shifted, sys', w);
    StepSpec(sys', read, shifted, sys'', r);
    SpecWriteThenRead(FilesOf(sys), write.name, write.off, write.data, write.rolls, FilesOf(sys'), w, buf, FilesOf(sys''), r);
  }

  lemma SpecWriteLeavesRest(files: map<nat, File>, name: FileName, off: nat, data: seq<byte>, rolls: seq<nat>,
                            files': map<nat, File>, w: Reply)
    requires SpecNext(files, Write(name, off, data, rolls), w, files')
    ensures files'.Keys == files.Keys + {name.hash}
    ensures forall h :: h in files && h != name.hash ==> files'[h] == files[h]
    ensures name.hash in files ==>
              var before, after := files[name.hash].backing, files'[name.hash].backing;
              |before| <= |after| && forall pos :: 0 <= pos < |before| && !(off <= pos < off + |data|) ==> after[pos] == before[pos]
  {
    OverwrittenKeeps(FileOrEmpty(files, name.hash), files'[name.hash], off, data);
  }

  /** A write leaves every other file alone, and in its own file every byte that was backed before
      and lies outside the range written, also when it allocates blocks or shrinks the file. */
  lemma WriteLeavesRest(sys: System, write: Op, shifted: bool, sys': System, w: Reply)
    requires write.Write? && SysInv(sys) && Next(sys, write, shifted, sys', w) && (shifted || InOneBlock(sys, write))
    ensures Backed(sys) && Backed(sys') && FilesOf(sys').Keys == FilesOf(sys).Keys + {write.name.hash}
    ensures forall h :: h in FilesOf(sys) && h != write.name.hash ==> FilesOf(sys')[h] == FilesOf(sys)[h]
    ensures write.name.hash in FilesOf(sys) ==>
              var before, after := FilesOf(sys)[write.name.hash].backing, FilesOf(sys')[write.name.hash].backing;
              && |before| <= |after|
              && forall pos :: 0 <= pos < |before| && !(write.off <= pos < write.off + |write.data|) ==> after[pos] == before[pos]
  {
    hide *;
    StepSpec(sys, write, shifted, sys', w);
    SpecWriteLeavesRest(FilesOf(sys), write.name, write.off, write.data, write.rolls, FilesOf(sys'), w);
  }

  /** The bytes past the new size are still those of before. */
  ghost predicate KeepsTail(before: File, after: File) {
    && |before.backing| <= |after.backing|
    && forall pos :: after.size <= pos < |before.backing| ==> after.backing[pos] == before.backing[pos]
  }

  /** A write shrinks its file exactly when it ends before the file did; the bytes that this hides stay
      in the backing. */
  lemma WriteShrinksIff(sys: System, write: Op, shifted: bool, sys': System, w: Reply)
    requires write.Write? && SysInv(sys) && Next(sys, write, shifted, sys', w) && (shifted || InOneBlock(sys, write))
    ensures Backed(sys) && Backed(sys') && write.name.hash in FilesOf(sys')
    ensures var before, after := FileOrEmpty(FilesOf(sys), write.name.hash), FilesOf(sys')[write.name.hash];
            (after.size < before.size <==> write.off + |write.data| < before.size) && KeepsTail(before, after)
  {
    hide *;
    StepSpec(sys, write, shifted, sys', w);
    SpecWriteShrinks(FilesOf(sys), write.name, write.off, write.data, write.rolls, FilesOf(sys'), w);
  }

  lemma SpecWriteShrinks(files: map<nat, File>, name: FileName, off: nat, data: seq<byte>, rolls: seq<nat>,
                         files': map<nat, File>, w: Reply)
    requires SpecNext(files, Write(name, off, data, rolls), w, files')
    ensures name.hash in files'
    ensures var before, after := FileOrEmpty(files, name.hash), files'[name.hash];
            (after.size < before.size <==> off + |data| < before.size) && KeepsTail(before, after)
  {
    OverwrittenKeeps(FileOrEmpty(files, name.hash), files'[name.hash], off, data);
    hide Overwritten;
  }

  lemma OverwrittenKeeps(before: File, after: File, off: nat, data: seq<byte>)
    requires Overwritten(before, after, off, data)
    ensures |before.backing| <= |after.backing| && off + |data| == after.size <= |after.backing|
    ensures after.backing[off..off + |data|] == data
    ensures forall pos :: 0 <= pos < |before.backing| && !(off <= pos < off + |data|) ==>
              after.backing[pos] == before.backing[pos]
  {
  }
}
