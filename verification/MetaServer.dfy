/** src/metadata/MetaServer.cpp: the request handlers of the metadata server. */
module MetaServer {
  import opened Blocks
  import opened MinHeap
  import opened SpaceManagers
  import opened Files
  import opened Extents

  /** Everything the handlers read and write: the inode table and one space manager per storage node. */
  datatype Meta = Meta(table: Table, spaces: map<nat, Space>)

  // ----- the handlers, on values -----

  predicate RootExists(m: Meta) {
    ROOT_INUM in m.table.inodes && ROOT_INUM !in m.table.free
  }

  function Directory(m: Meta): map<nat, Dentry>
    requires RootExists(m)
  {
    m.table.inodes[ROOT_INUM].children
  }

  predicate Listed(m: Meta, name: FileName)
    requires RootExists(m)
  {
    name.hash in Directory(m)
  }

  /** The name has an entry and the entry's inode exists. */
  predicate IsFile(m: Meta, name: FileName)
    requires RootExists(m)
  {
    Listed(m, name) && Directory(m)[name.hash].inum in m.table.inodes
  }

  function InumOf(m: Meta, name: FileName): nat
    requires RootExists(m) && Listed(m, name)
  {
    Directory(m)[name.hash].inum
  }

  function InodeOf(m: Meta, name: FileName): InodeState
    requires RootExists(m) && IsFile(m, name)
  {
    m.table.inodes[InumOf(m, name)]
  }

  function WithInode(m: Meta, inum: nat, inode: InodeState): Meta {
    m.(table := m.table.(inodes := m.table.inodes[inum := inode]))
  }

  function WithDirectory(m: Meta, directory: map<nat, Dentry>): Meta
    requires RootExists(m)
  {
    WithInode(m, ROOT_INUM, m.table.inodes[ROOT_INUM].(children := directory))
  }

  /** Issue an inode and enter it under a name that has no entry; the entry is made even when no
      inode is left. */
  function NewEntry(m: Meta, name: FileName, isDir: bool): (r: (Meta, nat))
    requires RootExists(m) && CanAllocate(m.table)
    ensures RootExists(r.0) && Listed(r.0, name) && InumOf(r.0, name) == r.1
  {
    var (table, inum) := IssueInode(m.table, isDir);
    var issued := m.(table := table);
    (WithDirectory(issued, Directory(issued)[name.hash := Dentry(name.text, name.hash, inum)]), inum)
  }

  lemma NewEntryKeepsRoot(m: Meta, isDir: bool)
    requires RootExists(m) && CanAllocate(m.table)
    ensures var issued := m.(table := IssueInode(m.table, isDir).0);
            RootExists(issued) && Directory(issued) == Directory(m)
  {
  }

  function CreateEffect(m: Meta, name: FileName, isDir: bool): (r: (Meta, nat))
    requires RootExists(m) && (Listed(m, name) || CanAllocate(m.table))
  {
    if Listed(m, name) then (m, InumOf(m, name)) else NewEntry(m, name, isDir)
  }

  /** The server that `rand() % space_manager_.size()` selects. */
  function Pick(spaces: map<nat, Space>, roll: nat): (s: nat)
    requires spaces != map[]
    ensures s in spaces
  {
    var keys := SortedKeys(spaces.Keys);
    assert |keys| > 0 by {
      var k :| k in spaces;
      assert k in keys;
    }
    assert keys[roll % |keys|] in keys;
    keys[roll % |keys|]
  }

  /** The draw falls on the server that has `roll % n` of the n registered servers before it in key order. */
  lemma PickPosition(spaces: map<nat, Space>, roll: nat)
    requires spaces != map[]
    ensures |spaces| > 0 && |set s: nat | s in spaces && s < Pick(spaces, roll)| == roll % |spaces|
  {
    var keys := SortedKeys(spaces.Keys);
    assert |spaces| == |spaces.Keys|;
    assert |keys| > 0 by {
      var k :| k in spaces;
      assert k in keys;
    }
    SmallerElements(keys, roll % |keys|);
    assert (set s: nat | s in spaces && s < Pick(spaces, roll)) == (set s: nat | s in keys && s < keys[roll % |keys|]);
  }

  predicate CanGrowOne(m: Meta, inum: nat, roll: nat) {
    inum in m.table.inodes && m.spaces != map[] && |m.spaces[Pick(m.spaces, roll)].free| > 0
  }

  function NewBlock(m: Meta, inum: nat, roll: nat): BlockInfo
    requires CanGrowOne(m, inum, roll)
  {
    var s := Pick(m.spaces, roll);
    var nr := Top(m.spaces[s].free);
    BlockInfo(s, nr * FILE_BLOCK_SIZE, 0, nr)
  }

  function AppendBlock(inode: InodeState, block: BlockInfo): InodeState {
    inode.(blocks := inode.blocks + [block])
  }

  function GrowOne(m: Meta, inum: nat, roll: nat): Meta
    requires CanGrowOne(m, inum, roll)
  {
    var s := Pick(m.spaces, roll);
    WithInode(m, inum, AppendBlock(m.table.inodes[inum], NewBlock(m, inum, roll)))
      .(spaces := m.spaces[s := TakeOne(m.spaces[s])])
  }

  /** Each of the servers selected in turn still has a free block. */
  predicate CanGrow(m: Meta, inum: nat, rolls: seq<nat>)
    decreases |rolls|
  {
    rolls == [] || (CanGrowOne(m, inum, rolls[0]) && CanGrow(GrowOne(m, inum, rolls[0]), inum, rolls[1..]))
  }

  function Grow(m: Meta, inum: nat, rolls: seq<nat>): Meta
    requires CanGrow(m, inum, rolls)
    decreases |rolls|
  {
    if rolls == [] then m else Grow(GrowOne(m, inum, rolls[0]), inum, rolls[1..])
  }

  lemma GrowNothing(m: Meta, inum: nat)
    ensures CanGrow(m, inum, []) && Grow(m, inum, []) == m
  {
  }

  function Growth(blocks: seq<BlockInfo>, off: nat, len: nat): nat {
    var total := BlocksFor(off + len);
    if |blocks| < total then total - |blocks| else 0
  }

  /** No block is added if the write ends inside those there are, else just as many as it needs. */
  lemma GrowthIs(blocks: seq<BlockInfo>, off: nat, len: nat)
    ensures off + len <= |blocks| * FILE_BLOCK_SIZE ==> Growth(blocks, off, len) == 0
    ensures off + len > |blocks| * FILE_BLOCK_SIZE ==>
              var after := |blocks| + Growth(blocks, off, len);
              (after - 1) * FILE_BLOCK_SIZE < off + len <= after * FILE_BLOCK_SIZE
  {
  }

  /** The state in which WriteFile looks up the inode: a missing file is created first. */
  function Opened(m: Meta, name: FileName): Meta
    requires RootExists(m) && (Listed(m, name) || CanAllocate(m.table))
  {
    CreateEffect(m, name, false).0
  }

  predicate Representable(off: nat, len: nat, growth: nat) {
    off + len + FILE_BLOCK_SIZE <= TWO_TO_THE_64 && growth < TWO_TO_THE_31
  }

  /** What WriteFile needs: an inode for the name (a missing file must get one), and a free block on
      every server that `rolls` selects, one roll for each block the file grows by. */
  ghost predicate CanWrite(m: Meta, name: FileName, off: nat, len: nat, rolls: seq<nat>) {
    && RootExists(m) && (Listed(m, name) || CanAllocate(m.table))
    && IsFile(Opened(m, name), name)
    && |rolls| == Growth(InodeOf(Opened(m, name), name).blocks, off, len)
    && Representable(off, len, |rolls|)
    && CanGrow(Opened(m, name), InumOf(Opened(m, name), name), rolls)
  }

  /** `g` differs from `m` only in the managers' blocks and in `n` blocks appended to the inode. */
  ghost predicate Grew(m: Meta, g: Meta, inum: nat, n: nat) {
    && inum in m.table.inodes && inum in g.table.inodes && g.spaces.Keys == m.spaces.Keys
    && var before, after := m.table.inodes[inum], g.table.inodes[inum];
       (&& g.table == m.table.(inodes := m.table.inodes[inum := after])
        && after == before.(blocks := after.blocks)
        && before.blocks <= after.blocks && |after.blocks| == |before.blocks| + n)
  }

  lemma GrewTransitive(m: Meta, g: Meta, h: Meta, inum: nat, n: nat, k: nat)
    requires Grew(m, g, inum, n) && Grew(g, h, inum, k)
    ensures Grew(m, h, inum, n + k)
  {
  }

  lemma GrowOneGrew(m: Meta, inum: nat, roll: nat)
    requires CanGrowOne(m, inum, roll)
    ensures Grew(m, GrowOne(m, inum, roll), inum, 1)
  {
  }

  lemma {:induction false} GrowGrew(m: Meta, inum: nat, rolls: seq<nat>)
    requires CanGrow(m, inum, rolls) && inum in m.table.inodes
    ensures Grew(m, Grow(m, inum, rolls), inum, |rolls|)
    decreases |rolls|
  {
    if rolls != [] {
      GrowOneGrew(m, inum, rolls[0]);
      hide Grew;
      hide GrowOne;
      var g := GrowOne(m, inum, rolls[0]);
      InumStays(m, g, inum, 1);
      GrowGrew(g, inum, rolls[1..]);
      GrewTransitive(m, g, Grow(m, inum, rolls), inum, 1, |rolls| - 1);
    } else {
      assert m.table.inodes[inum := m.table.inodes[inum]] == m.table.inodes;
    }
  }

  lemma InumStays(m: Meta, g: Meta, inum: nat, n: nat)
    requires Grew(m, g, inum, n)
    ensures inum in g.table.inodes
  {
  }

  lemma GrowthCovers(blocks: seq<BlockInfo>, off: nat, len: nat)
    ensures off + len <= (|blocks| + Growth(blocks, off, len)) * FILE_BLOCK_SIZE
    ensures len == 0 && off % FILE_BLOCK_SIZE != 0 ==> off / FILE_BLOCK_SIZE < |blocks| + Growth(blocks, off, len)
  {
  }

  lemma GrewLookup(m: Meta, g: Meta, name: FileName, n: nat)
    requires RootExists(m) && IsFile(m, name) && Grew(m, g, InumOf(m, name), n)
    ensures RootExists(g) && Directory(g) == Directory(m) && IsFile(g, name)
    ensures |InodeOf(g, name).blocks| == |InodeOf(m, name).blocks| + n
  {
  }

  lemma EnlargedFits(m: Meta, name: FileName, off: nat, len: nat, rolls: seq<nat>)
    requires RootExists(m) && IsFile(m, name) && CanGrow(m, InumOf(m, name), rolls)
    requires |rolls| == Growth(InodeOf(m, name).blocks, off, len)
    ensures var g := Grow(m, InumOf(m, name), rolls);
            && RootExists(g) && Directory(g) == Directory(m) && IsFile(g, name)
            && InFile(InodeOf(g, name).blocks, off, len)
  {
    hide Grew;
    GrowGrew(m, InumOf(m, name), rolls);
    GrewLookup(m, Grow(m, InumOf(m, name), rolls), name, |rolls|);
    GrowthCovers(InodeOf(m, name).blocks, off, len);
  }

  /** The inode with the blocks the write needs, before the write is recorded in it. */
  function Enlarged(m: Meta, name: FileName, off: nat, len: nat, rolls: seq<nat>): (r: Meta)
    requires CanWrite(m, name, off, len, rolls)
    ensures RootExists(r) && Directory(r) == Directory(Opened(m, name)) && IsFile(r, name)
    ensures InFile(InodeOf(r, name).blocks, off, len)
  {
    var found := Opened(m, name);
    EnlargedFits(found, name, off, len, rolls);
    Grow(found, InumOf(found, name), rolls)
  }

  function Written(inode: InodeState, off: nat, len: nat): InodeState
    requires InFile(inode.blocks, off, len)
  {
    inode.(blocks := Recorded(inode.blocks, off, len), size := off + len)
  }

  /** The new state and the reply: extents and bytes written. */
  function WriteEffect(m: Meta, name: FileName, off: nat, len: nat, rolls: seq<nat>): (r: (Meta, seq<Extent>, nat))
    requires CanWrite(m, name, off, len, rolls)
  {
    var enlarged := Enlarged(m, name, off, len, rolls);
    var inode := InodeOf(enlarged, name);
    (WithInode(enlarged, InumOf(enlarged, name), Written(inode, off, len)), ExtentList(inode.blocks, off, len), len)
  }

  /** The steps of a write: find or create the file, enlarge it, record the write. */
  lemma WriteSteps(m: Meta, name: FileName, off: nat, len: nat, rolls: seq<nat>)
    requires CanWrite(m, name, off, len, rolls)
    ensures var f := Opened(m, name);
            && RootExists(f) && IsFile(f, name) && CanGrow(f, InumOf(f, name), rolls)
            && |rolls| == Growth(InodeOf(f, name).blocks, off, len)
            && var inum, g := InumOf(f, name), Grow(f, InumOf(f, name), rolls);
               (&& inum in g.table.inodes && InFile(g.table.inodes[inum].blocks, off, len)
                && WriteEffect(m, name, off, len, rolls)
                   == (WithInode(g, inum, Written(g.table.inodes[inum], off, len)),
                       ExtentList(g.table.inodes[inum].blocks, off, len), len))
  {
    var f := Opened(m, name);
    EnlargedFits(f, name, off, len, rolls);
  }

  /** The length that ReadFile settles on, in uint64_t arithmetic: a request that passes the size is cut
      to what lies between offset and size, which wraps when the offset is beyond the size. */
  function ReadLength(off: nat, len: nat, size: nat): nat {
    if Wrap64(off + len) > size then Wrap64(size - off) else len
  }

  /** What ReadFile needs: an inode for the name, and in its list every block that the length it
      settles on makes it look up. */
  ghost predicate CanRead(m: Meta, name: FileName, off: nat, len: nat) {
    && RootExists(m) && IsFile(m, name)
    && off < TWO_TO_THE_64 && len < TWO_TO_THE_64
    && InFile(InodeOf(m, name).blocks, off, ReadLength(off, len, InodeOf(m, name).size))
  }

  function ReadReply(m: Meta, name: FileName, off: nat, len: nat): (r: (seq<Extent>, nat))
    requires CanRead(m, name, off, len)
  {
    var inode := InodeOf(m, name);
    var n := ReadLength(off, len, inode.size);
    (ExtentList(inode.blocks, off, n), n)
  }

  /** What RemoveFile needs: the entry, if there is one, has an inode (no manager dereferences it
      when there is none). */
  predicate CanRemove(m: Meta, name: FileName) {
    RootExists(m) && (Listed(m, name) ==> InumOf(m, name) != ROOT_INUM && (IsFile(m, name) || m.spaces == map[]))
  }

  /** The managers after those of `servers` took back the blocks that they issued. */
  function ReclaimedOn(spaces: map<nat, Space>, servers: set<nat>, blocks: seq<BlockInfo>): map<nat, Space> {
    map s | s in spaces :: if s in servers then ReclaimInode(spaces[s], blocks) else spaces[s]
  }

  /** The managers after the listed ones, in turn, took back the blocks that they issued. */
  function OneByOne(spaces: map<nat, Space>, servers: seq<nat>, blocks: seq<BlockInfo>): map<nat, Space>
    decreases |servers|
  {
    if servers == [] || servers[0] !in spaces then spaces else
      var s := servers[0];
      OneByOne(spaces[s := ReclaimInode(spaces[s], blocks)], servers[1..], blocks)
  }

  lemma OneByOneStep(spaces: map<nat, Space>, servers: seq<nat>, i: nat, blocks: seq<BlockInfo>)
    requires i < |servers| && servers[i] in spaces
    ensures OneByOne(spaces, servers[i..], blocks)
            == OneByOne(spaces[servers[i] := ReclaimInode(spaces[servers[i]], blocks)], servers[i + 1..], blocks)
  {
    assert servers[i..][1..] == servers[i + 1..];
  }

  lemma OneByOneNone(spaces: map<nat, Space>, servers: seq<nat>, blocks: seq<BlockInfo>)
    requires |servers| == 0
    ensures OneByOne(spaces, servers, blocks) == spaces
  {
  }

  /** Visiting each manager once gives back the blocks on every one of them. */
  lemma {:induction false} OneByOneIsEverywhere(spaces: map<nat, Space>, servers: seq<nat>, blocks: seq<BlockInfo>)
    requires Ascending(servers) && forall s :: s in servers ==> s in spaces
    ensures OneByOne(spaces, servers, blocks) == ReclaimedOn(spaces, ToSet(servers), blocks)
    decreases |servers|
  {
    if servers != [] {
      hide ReclaimInode;
      var s, rest := servers[0], servers[1..];
      assert s !in rest;
      assert ToSet(servers) == {s} + ToSet(rest);
      OneByOneIsEverywhere(spaces[s := ReclaimInode(spaces[s], blocks)], rest, blocks);
    } else {
      assert ReclaimedOn(spaces, ToSet(servers), blocks) == spaces;
    }
  }

  lemma RemoveNothing(m: Meta, name: FileName)
    requires CanRemove(m, name) && !Listed(m, name)
    ensures RemoveEffect(m, name) == (m, false)
  {
  }

  /** The steps of a removal: drop the entry, give the blocks back, drop the inode. */
  lemma RemoveSteps(m: Meta, name: FileName)
    requires CanRemove(m, name) && Listed(m, name)
    ensures var unlisted := WithDirectory(m, Directory(m) - {name.hash});
            var blocks := if IsFile(m, name) then InodeOf(m, name).blocks else [];
            RemoveEffect(m, name) == (Meta(EraseInode(unlisted.table, InumOf(m, name)).0,
                                           ReclaimedOn(m.spaces, m.spaces.Keys, blocks)), true)
  {
  }

  function RemoveEffect(m: Meta, name: FileName): (r: (Meta, bool))
    requires CanRemove(m, name)
  {
    if !Listed(m, name) then (m, false) else
      var inum := InumOf(m, name);
      var unlisted := WithDirectory(m, Directory(m) - {name.hash});
      var blocks := if IsFile(m, name) then InodeOf(m, name).blocks else [];
      (Meta(EraseInode(unlisted.table, inum).0,
            ReclaimedOn(m.spaces, m.spaces.Keys, blocks)), true)
  }

  function RegisterEffect(m: Meta, nodeId: nat, addr: nat, length: nat): Meta {
    m.(spaces := m.spaces[nodeId := NewSpace(addr, Wrap64(addr + length - 1), FILE_BLOCK_SIZE, nodeId)])
  }

  // ----- the service -----

  ghost function SpaceStates(managers: map<nat, SpaceManager>): (r: map<nat, Space>)
    reads managers.Values
    ensures r.Keys == managers.Keys
  {
    map s | s in managers :: managers[s].State()
  }

  /** No two nodes share a manager object. */
  ghost predicate Unshared(managers: map<nat, SpaceManager>) {
    forall s, t :: s in managers && t in managers && managers[s] == managers[t] ==> s == t
  }

  class MetadataService {
    const inodeTable: InodeTable
    const fileMap: FileMap
    var spaceManager: map<nat, SpaceManager>

    ghost function State(): Meta
      reads this, inodeTable, inodeTable.table.Values, spaceManager.Values
    {
      Meta(inodeTable.State(), SpaceStates(spaceManager))
    }

    ghost function Repr(): set<object>
      reads this, inodeTable
    {
      {this, inodeTable, fileMap} + inodeTable.table.Values + spaceManager.Values
    }

    ghost predicate Valid()
      reads this, inodeTable
    {
      && Separate(inodeTable.table) && Unshared(spaceManager)
      && ROOT_INUM in inodeTable.table && ROOT_INUM !in inodeTable.freeList
    }

    constructor ()
      ensures Valid() && fresh(Repr())
      ensures State() == Meta(NewTable(100), map[]) && fileMap.State() == NewFds(100)
    {
      hide Iota;
      hide NewFds;
      hide NewInode;
      inodeTable := new InodeTable(100);
      fileMap := new FileMap(100);
      spaceManager := map[];
      new;
      assert SpaceStates(spaceManager) == map[];
    }

    /** Cut [startOffset, startOffset + readLength) at block boundaries. */
    method LocateRead(inode: Inode, startOffset: nat, readLength: nat) returns (blockInfo: seq<Extent>)
      requires InFile(inode.blockInfoList, startOffset, readLength)
      ensures blockInfo == ExtentList(inode.blockInfoList, startOffset, readLength)
    {
      hide Split;
      ghost var blocks := inode.blockInfoList;
      var toReadLength: nat := readLength;
      var buffOffset: nat := 0;
      var startBlock: nat := startOffset / FILE_BLOCK_SIZE;
      blockInfo := [];
      if startOffset % FILE_BLOCK_SIZE != 0 {
        HeadPhase(blocks, startOffset, readLength);
        var current := inode.blockInfoList[startBlock];
        var innerOffset := startOffset % FILE_BLOCK_SIZE;
        var bytesRead := if FILE_BLOCK_SIZE - innerOffset <= toReadLength
                         then FILE_BLOCK_SIZE - innerOffset else toReadLength;
        blockInfo := blockInfo +
          [Extent(startBlock, current.serverId, current.startAddr + innerOffset, bytesRead, buffOffset)];
        buffOffset := buffOffset + bytesRead;
        toReadLength := toReadLength - bytesRead;
        startBlock := startBlock + 1;
      }
      while toReadLength >= FILE_BLOCK_SIZE
        invariant InFile(blocks, startBlock * FILE_BLOCK_SIZE, toReadLength)
        invariant blockInfo + Split(blocks, startBlock * FILE_BLOCK_SIZE, toReadLength, buffOffset)
                  == ExtentList(blocks, startOffset, readLength)
      {
        FullPhase(blocks, startBlock, toReadLength, buffOffset);
        var current := inode.blockInfoList[startBlock];
        blockInfo := blockInfo +
          [Extent(startBlock, current.serverId, current.startAddr, FILE_BLOCK_SIZE, buffOffset)];
        buffOffset := buffOffset + FILE_BLOCK_SIZE;
        toReadLength := toReadLength - FILE_BLOCK_SIZE;
        startBlock := startBlock + 1;
      }
      if toReadLength > 0 {
        TailPhase(blocks, startBlock, toReadLength, buffOffset);
        var current := inode.blockInfoList[startBlock];
        blockInfo := blockInfo +
          [Extent(startBlock, current.serverId, current.startAddr, toReadLength, buffOffset)];
      } else {
        SplitNothing(blocks, startBlock * FILE_BLOCK_SIZE, buffOffset);
      }
    }

    method ReadFile(name: FileName, startOffset: nat, length: nat) returns (blockInfo: seq<Extent>, bytesRead: nat)
      requires Valid() && CanRead(State(), name, startOffset, length)
      ensures (blockInfo, bytesRead) == ReadReply(State(), name, startOffset, length)
    {
      var fileInode := inodeTable.table[inodeTable.table[ROOT_INUM].children[name.hash].inum];
      var readLength := length;
      if Wrap64(startOffset + readLength) > fileInode.size {
        readLength := Wrap64(fileInode.size - startOffset);
      }
      blockInfo := LocateRead(fileInode, startOffset, readLength);
      bytesRead := readLength;
    }

    /** Cut [startOffset, startOffset + writeLength) at block boundaries and record each piece. */
    method LocateWrite(inode: Inode, startOffset: nat, writeLength: nat) returns (blockInfo: seq<Extent>)
      requires InFile(inode.blockInfoList, startOffset, writeLength)
      modifies inode
      ensures blockInfo == ExtentList(old(inode.blockInfoList), startOffset, writeLength)
      ensures inode.State() == old(inode.State()).(blocks := Recorded(old(inode.blockInfoList), startOffset, writeLength))
    {
      hide Split;
      hide Recorded;
      ghost var blocks := inode.blockInfoList;
      var toWriteLength: nat := writeLength;
      var buffOffset: nat := 0;
      var startBlock: nat := startOffset / FILE_BLOCK_SIZE;
      blockInfo := [];
      if startOffset % FILE_BLOCK_SIZE != 0 {
        HeadPhase(blocks, startOffset, writeLength);
        RecordHead(blocks, startOffset, writeLength);
        var current := inode.blockInfoList[startBlock];
        var innerOffset := startOffset % FILE_BLOCK_SIZE;
        var bytesWrite := if FILE_BLOCK_SIZE - innerOffset <= toWriteLength
                          then FILE_BLOCK_SIZE - innerOffset else toWriteLength;
        blockInfo := blockInfo +
          [Extent(startBlock, current.serverId, current.startAddr + innerOffset, bytesWrite, buffOffset)];
        buffOffset := buffOffset + bytesWrite;
        toWriteLength := toWriteLength - bytesWrite;
        inode.ChangeFileBlockInfoLength(startBlock, current.length + bytesWrite);
        startBlock := startBlock + 1;
      }
      while toWriteLength >= FILE_BLOCK_SIZE
        invariant inode.State() == old(inode.State()).(blocks := inode.blockInfoList)
        invariant SamePlaces(blocks, inode.blockInfoList)
        invariant InFile(blocks, startBlock * FILE_BLOCK_SIZE, toWriteLength)
        invariant blockInfo + Split(blocks, startBlock * FILE_BLOCK_SIZE, toWriteLength, buffOffset)
                  == ExtentList(blocks, startOffset, writeLength)
        invariant Recorded(inode.blockInfoList, startBlock * FILE_BLOCK_SIZE, toWriteLength)
                  == Recorded(blocks, startOffset, writeLength)
      {
        FullPhase(blocks, startBlock, toWriteLength, buffOffset);
        RecordAligned(inode.blockInfoList, startBlock, toWriteLength);
        var current := inode.blockInfoList[startBlock];
        blockInfo := blockInfo +
          [Extent(startBlock, current.serverId, current.startAddr, FILE_BLOCK_SIZE, buffOffset)];
        buffOffset := buffOffset + FILE_BLOCK_SIZE;
        toWriteLength := toWriteLength - FILE_BLOCK_SIZE;
        inode.ChangeFileBlockInfoLength(startBlock, FILE_BLOCK_SIZE);
        startBlock := startBlock + 1;
      }
      if toWriteLength > 0 {
        TailPhase(blocks, startBlock, toWriteLength, buffOffset);
        RecordAligned(inode.blockInfoList, startBlock, toWriteLength);
        var current := inode.blockInfoList[startBlock];
        blockInfo := blockInfo +
          [Extent(startBlock, current.serverId, current.startAddr, toWriteLength, buffOffset)];
        inode.ChangeFileBlockInfoLength(startBlock, toWriteLength);
      } else {
        SplitNothing(blocks, startBlock * FILE_BLOCK_SIZE, buffOffset);
        RecordNothing(inode.blockInfoList, startBlock * FILE_BLOCK_SIZE);
      }
    }

    /** Take the least free block of the server that `roll` selects. */
    method TakeBlock(roll: nat) returns (serverId: nat, blockNr: nat)
      requires Valid() && spaceManager != map[]
      requires |SpaceStates(spaceManager)[Pick(SpaceStates(spaceManager), roll)].free| > 0
      modifies spaceManager.Values
      ensures Valid() && Repr() == old(Repr()) && serverId == Pick(old(State()).spaces, roll)
      ensures blockNr == Top(old(State()).spaces[serverId].free)
      ensures State() == old(State()).(spaces := old(State()).spaces[serverId := TakeOne(old(State()).spaces[serverId])])
    {
      hide Pick;
      hide TakeOne;
      hide Top;
      serverId := SelectServer(roll);
      blockNr := spaceManager[serverId].AllocateOneBlock();
      assert InodeStates(inodeTable.table) == old(InodeStates(inodeTable.table));
      assert SpaceStates(spaceManager)
          == old(SpaceStates(spaceManager))[serverId := spaceManager[serverId].State()] by {
        MapUpdated(old(SpaceStates(spaceManager)), SpaceStates(spaceManager), serverId);
      }
    }

    method AppendTo(inum: nat, serverId: nat, blockNr: nat)
      requires Valid() && inum in inodeTable.table
      modifies inodeTable.table[inum]
      ensures Valid() && Repr() == old(Repr())
      ensures State() == WithInode(old(State()), inum,
                           AppendBlock(old(State()).table.inodes[inum], BlockInfo(serverId, blockNr * FILE_BLOCK_SIZE, 0, blockNr)))
    {
      inodeTable.table[inum].AppendFileBlockInfo(serverId, blockNr * FILE_BLOCK_SIZE, 0, blockNr);
      assert SpaceStates(spaceManager) == old(SpaceStates(spaceManager));
      assert InodeStates(inodeTable.table)
          == old(InodeStates(inodeTable.table))[inum := inodeTable.table[inum].State()] by {
        MapUpdated(old(InodeStates(inodeTable.table)), InodeStates(inodeTable.table), inum);
      }
    }

    /** Append one block of the server that `roll` selects. */
    method AppendRandomBlock(inum: nat, roll: nat)
      requires Valid() && CanGrowOne(State(), inum, roll)
      modifies inodeTable.table[inum], spaceManager.Values
      ensures Valid() && Repr() == old(Repr()) && State() == GrowOne(old(State()), inum, roll)
    {
      hide Pick;
      hide TakeOne;
      hide Top;
      hide AppendBlock;
      var serverId, blockNr := TakeBlock(roll);
      AppendTo(inum, serverId, blockNr);
    }

    /** Give the inode one more block for every roll. */
    method EnlargeFile(inum: nat, rolls: seq<nat>)
      requires Valid() && inum in inodeTable.table && CanGrow(State(), inum, rolls)
      modifies inodeTable.table[inum], spaceManager.Values
      ensures Valid() && Repr() == old(Repr()) && State() == Grow(old(State()), inum, rolls)
    {
      hide GrowOne;
      hide CanGrowOne;
      ghost var m := State();
      for i := 0 to |rolls|
        invariant Valid() && Repr() == old(Repr()) && CanGrow(State(), inum, rolls[i..])
        invariant Grow(State(), inum, rolls[i..]) == Grow(m, inum, rolls)
      {
        assert rolls[i..][0] == rolls[i] && rolls[i..][1..] == rolls[i + 1..];
        AppendRandomBlock(inum, rolls[i]);
      }
    }

    /** Walk the managers in key order up to the selected position. */
    method SelectServer(roll: nat) returns (serverId: nat)
      requires spaceManager != map[]
      ensures serverId == Pick(SpaceStates(spaceManager), roll)
    {
      assert SpaceStates(spaceManager).Keys == spaceManager.Keys;
      var keys := SortedKeys(spaceManager.Keys);
      assert |keys| > 0 by {
        var k :| k in spaceManager;
        assert k in keys;
      }
      var r := roll % |keys|;
      var currIdx := 0;
      while currIdx != r
        invariant currIdx <= r
      {
        currIdx := currIdx + 1;
      }
      serverId := keys[currIdx];
    }

    method CreateFile(name: FileName, isDir: bool) returns (inum: nat)
      requires Valid() && (Listed(State(), name) || CanAllocate(State().table))
      modifies Repr()
      ensures Valid() && spaceManager == old(spaceManager)
      ensures fresh(Repr() - old(Repr()))
      ensures (State(), inum) == CreateEffect(old(State()), name, isDir)
    {
      var rootInode := inodeTable.table[ROOT_INUM];
      if name.hash in rootInode.children {
        return rootInode.children[name.hash].inum;
      }
      inum := EnterFile(name, isDir);
    }

    /** Make an entry in the root directory for a name that has none. */
    method AddRootEntry(name: FileName, inum: nat)
      requires Valid() && !Listed(State(), name)
      modifies inodeTable.table[ROOT_INUM]
      ensures Valid()
      ensures State() == WithDirectory(old(State()),
                           Directory(old(State()))[name.hash := Dentry(name.text, name.hash, inum)])
    {
      var _ := inodeTable.table[ROOT_INUM].AddDentry(name, inum);
      assert SpaceStates(spaceManager) == old(SpaceStates(spaceManager));
      assert InodeStates(inodeTable.table)
          == old(InodeStates(inodeTable.table))[ROOT_INUM := inodeTable.table[ROOT_INUM].State()] by {
        MapUpdated(old(InodeStates(inodeTable.table)), InodeStates(inodeTable.table), ROOT_INUM);
      }
    }

    /** Issue an inode; the root inode and the managers stay as they are. */
    method IssueFileInode(isDir: bool) returns (inum: nat)
      requires Valid() && CanAllocate(State().table)
      modifies inodeTable
      ensures Valid() && inodeTable.table[ROOT_INUM] == old(inodeTable.table[ROOT_INUM])
      ensures fresh(Repr() - old(Repr()))
      ensures (State(), inum) == var r := IssueInode(old(State()).table, isDir); (old(State()).(table := r.0), r.1)
    {
      hide IssueInode;
      hide Top;
      hide InodeStates;
      hide Separate;
      inum := inodeTable.AllocateFreeInode(isDir);
      assert SpaceStates(spaceManager) == old(SpaceStates(spaceManager));
    }

    /** Issue an inode and enter it into the root directory. */
    method EnterFile(name: FileName, isDir: bool) returns (inum: nat)
      requires Valid() && !Listed(State(), name) && CanAllocate(State().table)
      modifies inodeTable, inodeTable.table[ROOT_INUM]
      ensures Valid() && inodeTable.table[ROOT_INUM] == old(inodeTable.table[ROOT_INUM])
      ensures fresh(Repr() - old(Repr()))
      ensures (State(), inum) == NewEntry(old(State()), name, isDir)
    {
      hide IssueInode;
      hide InodeStates;
      inum := IssueFileInode(isDir);
      NewEntryKeepsRoot(old(State()), isDir);
      AddRootEntry(name, inum);
    }

    /** Locate the pieces of a write in an inode that is large enough, and record the write in it. */
    method RecordWrite(inum: nat, startOffset: nat, writeLength: nat) returns (blockInfo: seq<Extent>)
      requires Valid() && inum in inodeTable.table
      requires InFile(inodeTable.table[inum].blockInfoList, startOffset, writeLength)
      modifies inodeTable.table[inum]
      ensures Valid() && Repr() == old(Repr())
      ensures blockInfo == ExtentList(old(inodeTable.table[inum].blockInfoList), startOffset, writeLength)
      ensures State() == WithInode(old(State()), inum, Written(old(inodeTable.table[inum].State()), startOffset, writeLength))
    {
      hide Recorded;
      hide ExtentList;
      var fileInode := inodeTable.table[inum];
      blockInfo := LocateWrite(fileInode, startOffset, writeLength);
      fileInode.SetSize(startOffset + writeLength);
      assert SpaceStates(spaceManager) == old(SpaceStates(spaceManager));
      assert InodeStates(inodeTable.table)
          == old(InodeStates(inodeTable.table))[inum := fileInode.State()] by {
        MapUpdated(old(InodeStates(inodeTable.table)), InodeStates(inodeTable.table), inum);
      }
    }

    /** Create the file if its name has no entry. */
    method FindOrCreate(name: FileName)
      requires Valid() && (Listed(State(), name) || CanAllocate(State().table))
      modifies inodeTable, inodeTable.table[ROOT_INUM]
      ensures Valid() && inodeTable.table[ROOT_INUM] == old(inodeTable.table[ROOT_INUM])
      ensures fresh(Repr() - old(Repr()))
      ensures State() == Opened(old(State()), name)
    {
      hide NewEntry;
      if name.hash !in inodeTable.table[ROOT_INUM].children {
        var _ := EnterFile(name, false);
      }
    }

    /** Enlarge an existing file and record the write in it. */
    method WriteExisting(fileInum: nat, startOffset: nat, writeLength: nat, rolls: seq<nat>)
      returns (blockInfo: seq<Extent>)
      requires Valid() && fileInum in inodeTable.table && CanGrow(State(), fileInum, rolls)
      requires |rolls| == Growth(inodeTable.table[fileInum].blockInfoList, startOffset, writeLength)
      requires var g := Grow(State(), fileInum, rolls);
               fileInum in g.table.inodes && InFile(g.table.inodes[fileInum].blocks, startOffset, writeLength)
      modifies inodeTable.table[fileInum], spaceManager.Values
      ensures Valid() && Repr() == old(Repr())
      ensures var g := Grow(old(State()), fileInum, rolls);
              && State() == WithInode(g, fileInum, Written(g.table.inodes[fileInum], startOffset, writeLength))
              && blockInfo == ExtentList(g.table.inodes[fileInum].blocks, startOffset, writeLength)
    {
      hide Grow;
      hide CanGrow;
      hide Written;
      hide ExtentList;
      var totalBlocks := (startOffset + writeLength + FILE_BLOCK_SIZE - 1) / FILE_BLOCK_SIZE;
      if |inodeTable.table[fileInum].blockInfoList| < totalBlocks {
        EnlargeFile(fileInum, rolls);
      } else {
        GrowNothing(State(), fileInum);
      }
      blockInfo := RecordWrite(fileInum, startOffset, writeLength);
    }

    method WriteFile(name: FileName, startOffset: nat, writeLength: nat, rolls: seq<nat>)
      returns (blockInfo: seq<Extent>, bytesWrite: nat)
      requires Valid() && CanWrite(State(), name, startOffset, writeLength, rolls)
      modifies Repr()
      ensures Valid() && fresh(Repr() - old(Repr()))
      ensures (State(), blockInfo, bytesWrite) == WriteEffect(old(State()), name, startOffset, writeLength, rolls)
    {
      WriteSteps(State(), name, startOffset, writeLength, rolls);
      hide CanWrite;
      hide WriteEffect;
      hide Opened;
      hide Grow;
      hide CanGrow;
      hide Growth;
      hide Written;
      hide ExtentList;
      FindOrCreate(name);
      var fileInum := inodeTable.table[ROOT_INUM].children[name.hash].inum;
      assert inodeTable.table[fileInum] in Repr();
      blockInfo := WriteExisting(fileInum, startOffset, writeLength, rolls);
      bytesWrite := writeLength;
    }

    method RemoveFile(name: FileName) returns (success: bool)
      requires Valid() && CanRemove(State(), name)
      modifies Repr()
      ensures Valid() && Repr() <= old(Repr())
      ensures (State(), success) == RemoveEffect(old(State()), name)
    {
      hide RemoveEffect;
      hide ReclaimedOn;
      hide EraseInode;
      ghost var m := State();
      if name.hash !in inodeTable.table[ROOT_INUM].children {
        RemoveNothing(m, name);
        return false;
      }
      RemoveSteps(m, name);
      var inum := inodeTable.table[ROOT_INUM].children[name.hash].inum;
      DeleteRootEntry(name);
      RemoveInode(inum);
      return true;
    }

    /** Give the blocks of an inode back and drop it. */
    method RemoveInode(inum: nat)
      requires Valid() && inum != ROOT_INUM && (inum in inodeTable.table || spaceManager == map[])
      modifies inodeTable, spaceManager.Values
      ensures Valid() && Repr() <= old(Repr())
      ensures State() == Meta(EraseInode(old(State()).table, inum).0,
                              ReclaimedOn(old(State()).spaces, old(State()).spaces.Keys,
                                if inum in old(State()).table.inodes then old(State()).table.inodes[inum].blocks else []))
    {
      hide ReclaimedOn;
      hide EraseInode;
      ReclaimBlocks(inum);
      EraseFileInode(inum);
    }

    method DeleteRootEntry(name: FileName)
      requires Valid()
      modifies inodeTable.table[ROOT_INUM]
      ensures Valid() && Repr() == old(Repr()) && inodeTable.table == old(inodeTable.table)
      ensures State() == WithDirectory(old(State()), Directory(old(State())) - {name.hash})
    {
      var _ := inodeTable.table[ROOT_INUM].DeleteDentry(name);
      assert SpaceStates(spaceManager) == old(SpaceStates(spaceManager));
      assert InodeStates(inodeTable.table)
          == old(InodeStates(inodeTable.table))[ROOT_INUM := inodeTable.table[ROOT_INUM].State()] by {
        MapUpdated(old(InodeStates(inodeTable.table)), InodeStates(inodeTable.table), ROOT_INUM);
      }
    }

    method EraseFileInode(inum: nat)
      requires Valid() && inum != ROOT_INUM
      modifies inodeTable
      ensures Valid() && Repr() <= old(Repr()) && inodeTable.table == old(inodeTable.table) - {inum}
      ensures State() == old(State()).(table := EraseInode(old(State()).table, inum).0)
    {
      hide InodeStates;
      var _ := inodeTable.DeleteInode(inum);
      assert SpaceStates(spaceManager) == old(SpaceStates(spaceManager));
    }

    /** Every manager takes back the blocks of the list that it issued. */
    static method ReclaimEverywhere(managers: map<nat, SpaceManager>, blocks: seq<BlockInfo>)
      requires Unshared(managers)
      modifies managers.Values
      ensures SpaceStates(managers) == ReclaimedOn(old(SpaceStates(managers)), managers.Keys, blocks)
    {
      hide OneByOne;
      hide ReclaimedOn;
      var keys := SortedKeys(managers.Keys);
      OneByOneIsEverywhere(SpaceStates(managers), keys, blocks);
      assert ToSet(keys) == managers.Keys;
      ReclaimInTurn(managers, keys, blocks);
    }

    static method ReclaimInTurn(managers: map<nat, SpaceManager>, keys: seq<nat>, blocks: seq<BlockInfo>)
      requires Unshared(managers) && forall k :: 0 <= k < |keys| ==> keys[k] in managers
      modifies managers.Values
      ensures SpaceStates(managers) == OneByOne(old(SpaceStates(managers)), keys, blocks)
    {
      hide OneByOne;
      hide ReclaimInode;
      ghost var spaces := SpaceStates(managers);
      assert keys[0..] == keys;
      for i := 0 to |keys|
        invariant OneByOne(SpaceStates(managers), keys[i..], blocks) == OneByOne(spaces, keys, blocks)
      {
        OneByOneStep(SpaceStates(managers), keys, i, blocks);
        ReclaimFrom(managers, keys[i], blocks);
      }
      OneByOneNone(SpaceStates(managers), keys[|keys|..], blocks);
    }

    static method ReclaimFrom(managers: map<nat, SpaceManager>, serverId: nat, blocks: seq<BlockInfo>)
      requires Unshared(managers) && serverId in managers
      modifies managers[serverId]
      ensures SpaceStates(managers)
              == old(SpaceStates(managers))[serverId := ReclaimInode(old(managers[serverId].State()), blocks)]
    {
      hide ReclaimInode;
      managers[serverId].ReclaimInodeSpace(blocks);
      MapUpdated(old(SpaceStates(managers)), SpaceStates(managers), serverId);
    }

    /** The managers take back the blocks of the inode, which exists unless there is no manager. */
    method ReclaimBlocks(inum: nat)
      requires Valid() && (inum in inodeTable.table || spaceManager == map[])
      modifies spaceManager.Values
      ensures Valid() && Repr() == old(Repr())
      ensures State() == Meta(old(State()).table, ReclaimedOn(old(SpaceStates(spaceManager)), spaceManager.Keys,
                if inum in inodeTable.table then inodeTable.table[inum].blockInfoList else []))
    {
      hide ReclaimedOn;
      if inum in inodeTable.table {
        ReclaimEverywhere(spaceManager, inodeTable.table[inum].blockInfoList);
      } else {
        ReclaimEverywhere(spaceManager, []);
      }
      assert InodeStates(inodeTable.table) == old(InodeStates(inodeTable.table));
    }

    method RegisterMemoryRegion(nodeId: nat, startAddr: nat, length: nat)
      requires Valid()
      modifies this
      ensures Valid() && nodeId in spaceManager && fresh(spaceManager[nodeId])
      ensures spaceManager == old(spaceManager)[nodeId := spaceManager[nodeId]]
      ensures State() == RegisterEffect(old(State()), nodeId, startAddr, length)
    {
      hide NewSpace;
      hide Wrap64;
      hide InodeStates;
      hide Separate;
      var manager := new SpaceManager(startAddr, Wrap64(startAddr + length - 1), FILE_BLOCK_SIZE, nodeId);
      spaceManager := spaceManager[nodeId := manager];
      assert SpaceStates(spaceManager) == old(SpaceStates(spaceManager))[nodeId := manager.State()];
      assert InodeStates(inodeTable.table) == old(InodeStates(inodeTable.table));
    }

    method OpenFile(name: FileName) returns (fd: int)
      requires Valid() && (Listed(State(), name) || CanAllocate(State().table))
      modifies inodeTable, inodeTable.table[ROOT_INUM], fileMap
      ensures Valid() && fresh(Repr() - old(Repr())) && State() == Opened(old(State()), name)
      ensures (fileMap.State(), fd) == IssueFD(old(fileMap.State()))
    {
      hide Opened;
      hide IssueFD;
      FindOrCreate(name);
      fd := IssueFd();
    }

    method IssueFd() returns (fd: int)
      requires Valid()
      modifies fileMap
      ensures Valid() && Repr() == old(Repr()) && State() == old(State())
      ensures (fileMap.State(), fd) == IssueFD(old(fileMap.State()))
    {
      fd := fileMap.AllocateFD();
    }

    method CloseFile(fd: nat) returns (success: bool)
      modifies fileMap
      ensures (fileMap.State(), success) == ReturnFD(old(fileMap.State()), fd)
    {
      success := fileMap.ReclaimFD(fd);
    }
  }
}
