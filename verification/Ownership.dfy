/** What every reachable state of the metadata server satisfies. */
module Ownership {
  import opened Blocks
  import opened MinHeap
  import opened SpaceManagers
  import opened Files
  import opened Extents
  import opened MetaServer

  /** Position p of inode i's block list is block nr of server s. */
  ghost predicate Holds(m: Meta, i: nat, p: nat, s: nat, nr: nat) {
    && i in m.table.inodes && p < |m.table.inodes[i].blocks|
    && m.table.inodes[i].blocks[p].serverId == s && m.table.inodes[i].blocks[p].blockNr == nr
  }

  ghost predicate InUse(m: Meta, s: nat, nr: nat) {
    s in m.spaces && nr in m.spaces[s].inUse
  }

  /** Each block is held by at most one position of one inode. */
  ghost predicate HeldOnce(m: Meta) {
    forall i: nat, p: nat, j: nat, q: nat, s: nat, nr: nat ::
      Holds(m, i, p, s, nr) && Holds(m, j, q, s, nr) ==> i == j && p == q
  }

  ghost predicate HeldAreInUse(m: Meta) {
    forall i: nat, p: nat, s: nat, nr: nat :: Holds(m, i, p, s, nr) ==> InUse(m, s, nr)
  }

  ghost predicate InUseAreHeld(m: Meta) {
    forall s: nat, nr: nat :: InUse(m, s, nr) ==> exists i: nat, p: nat :: Holds(m, i, p, s, nr)
  }

  ghost predicate Addressed(blocks: seq<BlockInfo>) {
    forall p :: 0 <= p < |blocks| ==> blocks[p].startAddr == blocks[p].blockNr * FILE_BLOCK_SIZE
  }

  ghost predicate InodeOk(inode: InodeState) {
    Addressed(inode.blocks) && inode.size <= |inode.blocks| * FILE_BLOCK_SIZE
  }

  ghost predicate InodesOk(m: Meta) {
    forall i :: i in m.table.inodes ==> InodeOk(m.table.inodes[i])
  }

  ghost predicate ManagerOk(sp: Space, s: nat) {
    SpaceOk(sp) && sp.serverId == s && sp.blockSize == FILE_BLOCK_SIZE
  }

  ghost predicate SpacesOk(m: Meta) {
    forall s :: s in m.spaces ==> ManagerOk(m.spaces[s], s)
  }

  /** Entries and inodes other than the root's are in bijection; the root owns no block. */
  ghost predicate DirectoryOk(table: Table, directory: map<nat, Dentry>) {
    && (forall h :: h in directory ==>
          directory[h].hash == h && directory[h].inum in table.inodes && directory[h].inum != ROOT_INUM)
    && (forall h, k :: h in directory && k in directory && directory[h].inum == directory[k].inum ==> h == k)
    && (forall i :: i in table.inodes && i != ROOT_INUM ==> exists h :: h in directory && directory[h].inum == i)
    && ROOT_INUM in table.inodes && table.inodes[ROOT_INUM].blocks == []
  }

  ghost predicate Inv(m: Meta) {
    && TableOk(m.table) && RootExists(m) && DirectoryOk(m.table, Directory(m))
    && SpacesOk(m) && InodesOk(m) && HeldOnce(m) && HeldAreInUse(m) && InUseAreHeld(m)
  }

  // ----- the empty server -----

  lemma InitialInv(size: nat)
    requires size > 0
    ensures Inv(Meta(NewTable(size), map[]))
  {
    NewTableOk(size);
  }

  // ----- steps that leave the block lists' places alone -----

  ghost predicate OwnershipOk(m: Meta) {
    HeldOnce(m) && HeldAreInUse(m) && InUseAreHeld(m)
  }

  ghost predicate SameHolds(m: Meta, n: Meta) {
    && n.spaces == m.spaces
    && forall i: nat, p: nat, s: nat, nr: nat :: Holds(m, i, p, s, nr) <==> Holds(n, i, p, s, nr)
  }

  lemma SameUsersKeepOwnership(m: Meta, n: Meta)
    requires OwnershipOk(m)
    requires forall i: nat, p: nat, s: nat, nr: nat :: Holds(n, i, p, s, nr) <==> Holds(m, i, p, s, nr)
    requires forall s: nat, nr: nat :: InUse(n, s, nr) <==> InUse(m, s, nr)
    ensures OwnershipOk(n)
  {
    hide InUse;
    hide Holds;
    forall s: nat, nr: nat | InUse(n, s, nr) ensures exists i: nat, p: nat :: Holds(n, i, p, s, nr) {
      var i: nat, p: nat :| Holds(m, i, p, s, nr);
      assert Holds(n, i, p, s, nr);
    }
  }

  lemma SameHoldsKeepsOwnership(m: Meta, n: Meta)
    requires SameHolds(m, n) && OwnershipOk(m)
    ensures OwnershipOk(n)
  {
    SameUsersKeepOwnership(m, n);
  }

  // ----- creation -----

  lemma NewEntryBlocks(m: Meta, name: FileName, isDir: bool)
    requires TableOk(m.table) && RootExists(m) && !Listed(m, name) && CanAllocate(m.table)
    ensures var after := NewEntry(m, name, isDir).0;
            && after.spaces == m.spaces
            && (forall i :: i in m.table.inodes ==>
                  i in after.table.inodes && after.table.inodes[i].blocks == m.table.inodes[i].blocks)
            && (forall i :: i in after.table.inodes && i !in m.table.inodes ==> after.table.inodes[i].blocks == [])
  {
    IssueInodeOk(m.table, isDir);
  }

  lemma NewEntryHolds(m: Meta, name: FileName, isDir: bool)
    requires Inv(m) && !Listed(m, name) && CanAllocate(m.table)
    ensures SameHolds(m, NewEntry(m, name, isDir).0)
  {
    NewEntryBlocks(m, name, isDir);
    hide Inv;
    hide NewEntry;
  }

  lemma NewEntryTable(m: Meta, name: FileName, isDir: bool)
    requires Inv(m) && !Listed(m, name) && m.table.cur != m.table.total && CanAllocate(m.table)
    ensures var after := NewEntry(m, name, isDir).0; InodesOk(after) && TableOk(after.table) && SpacesOk(after)
  {
    IssueInodeOk(m.table, isDir);
    hide DirectoryOk;
  }

  lemma NewEntryDirectory(m: Meta, name: FileName, isDir: bool)
    requires Inv(m) && !Listed(m, name) && m.table.cur != m.table.total && CanAllocate(m.table)
    ensures var after := NewEntry(m, name, isDir).0; DirectoryOk(after.table, Directory(after))
  {
    IssueInodeOk(m.table, isDir);
    var (after, inum) := NewEntry(m, name, isDir);
    hide InodesOk;
    hide SpacesOk;
    hide DirectoryOk;
    hide OwnershipOk;
    assert after.table.inodes.Keys == m.table.inodes.Keys + {inum};
    DirectoryGains(m.table, Directory(m), after.table, Dentry(name.text, name.hash, inum));
  }

  /** A new inode and an entry for it, under a hash that has none. */
  lemma DirectoryGains(table: Table, directory: map<nat, Dentry>, after: Table, entry: Dentry)
    requires DirectoryOk(table, directory) && entry.hash !in directory
    requires entry.inum !in table.inodes && after.inodes.Keys == table.inodes.Keys + {entry.inum}
    requires after.inodes[ROOT_INUM].blocks == []
    ensures DirectoryOk(after, directory[entry.hash := entry])
  {
    var grown := directory[entry.hash := entry];
    forall i | i in after.inodes && i != ROOT_INUM ensures exists h :: h in grown && grown[h].inum == i {
      if i == entry.inum {
        assert grown[entry.hash].inum == i;
      } else {
        var h :| h in directory && directory[h].inum == i;
        assert h in grown && grown[h].inum == i;
      }
    }
  }

  /** Creating a file keeps the invariant exactly when the name has an entry or the table has room. */
  lemma CreateInv(m: Meta, name: FileName, isDir: bool)
    requires Inv(m)
    ensures CanAllocate(m.table)
    ensures Inv(CreateEffect(m, name, isDir).0) <==> Listed(m, name) || m.table.cur != m.table.total
  {
    IssueInodeOk(m.table, isDir);
    if !Listed(m, name) {
      var (after, inum) := NewEntry(m, name, isDir);
      if m.table.cur != m.table.total {
        NewEntryHolds(m, name, isDir);
        NewEntryTable(m, name, isDir);
        NewEntryDirectory(m, name, isDir);
        SameHoldsKeepsOwnership(m, after);
      } else {
        assert Directory(after)[name.hash].inum !in after.table.inodes;
      }
    }
  }

  /** A created file's number: that of the entry if there is one; else the least unused number, or total + 1
      when the table is full. The entry has the file's name and number. */
  lemma CreateReplies(m: Meta, name: FileName, isDir: bool)
    requires Inv(m)
    ensures CanAllocate(m.table)
    ensures var (after, inum) := CreateEffect(m, name, isDir);
            && RootExists(after) && name.hash in Directory(after) && Directory(after)[name.hash].inum == inum
            && (Listed(m, name) ==> after == m && inum != ROOT_INUM && inum in m.table.inodes)
            && (!Listed(m, name) ==> Directory(after) == Directory(m)[name.hash := Dentry(name.text, name.hash, inum)])
            && (!Listed(m, name) && m.table.cur == m.table.total ==> inum == m.table.total + 1)
            && (!Listed(m, name) && m.table.cur != m.table.total ==>
                  && inum !in m.table.inodes && ROOT_INUM < inum <= m.table.total
                  && forall i: nat :: i < inum ==> i in m.table.inodes)
  {
    IssueInodeOk(m.table, isDir);
    hide SpacesOk;
    hide InodesOk;
    hide HeldOnce;
    hide HeldAreInUse;
    hide InUseAreHeld;
  }

  /** Under a new number there is an empty inode of the kind asked for, none when the table is full; every
      other file and every manager stays. */
  lemma CreatedInode(m: Meta, name: FileName, isDir: bool)
    requires TableOk(m.table) && RootExists(m) && !Listed(m, name)
    ensures CanAllocate(m.table)
    ensures var (after, inum) := CreateEffect(m, name, isDir);
            && after.spaces == m.spaces
            && (m.table.cur == m.table.total ==> inum !in after.table.inodes && after.table.inodes.Keys == m.table.inodes.Keys)
            && (m.table.cur != m.table.total ==>
                  && after.table.inodes.Keys == m.table.inodes.Keys + {inum}
                  && after.table.inodes[inum] == InodeState(inum, isDir, 0, map[], []))
            && (forall i :: i in m.table.inodes && i != ROOT_INUM ==>
                  i in after.table.inodes && after.table.inodes[i] == m.table.inodes[i])
  {
    IssueInodeOk(m.table, isDir);
  }

  /** Creating the same name again returns the same number and changes nothing. */
  lemma CreateAgain(m: Meta, name: FileName, isDir: bool, again: bool)
    requires Inv(m)
    ensures CanAllocate(m.table)
    ensures var (after, inum) := CreateEffect(m, name, isDir);
            RootExists(after) && Listed(after, name) && CreateEffect(after, name, again) == (after, inum)
  {
    IssueInodeOk(m.table, isDir);
  }

  // ----- growth and writes -----

  /** `g` has one more block in use than `m`, and one more holder: position `pos` of inode `inum`. */
  ghost predicate AddsHolder(m: Meta, g: Meta, inum: nat, pos: nat, s: nat, nr: nat) {
    && !InUse(m, s, nr)
    && (forall t: nat, k: nat :: InUse(g, t, k) <==> InUse(m, t, k) || (t == s && k == nr))
    && (forall i: nat, p: nat, t: nat, k: nat :: Holds(g, i, p, t, k) <==>
          Holds(m, i, p, t, k) || (i == inum && p == pos && t == s && k == nr))
  }

  lemma AddsHolderKeepsOwnership(m: Meta, g: Meta, inum: nat, pos: nat, s: nat, nr: nat)
    requires OwnershipOk(m) && AddsHolder(m, g, inum, pos, s, nr)
    ensures OwnershipOk(g)
  {
    hide InUse;
    hide Holds;
    forall t: nat, k: nat | InUse(g, t, k) ensures exists i: nat, p: nat :: Holds(g, i, p, t, k) {
      if InUse(m, t, k) {
        var i: nat, p: nat :| Holds(m, i, p, t, k);
        assert Holds(g, i, p, t, k);
      } else {
        assert Holds(g, inum, pos, t, k);
      }
    }
  }

  /** Growing a file by a block adds one holder: the file, for a block that was not in use. */
  lemma GrowOneAddsHolder(m: Meta, inum: nat, roll: nat)
    requires Inv(m) && CanGrowOne(m, inum, roll)
    ensures var b := NewBlock(m, inum, roll);
            AddsHolder(m, GrowOne(m, inum, roll), inum, |m.table.inodes[inum].blocks|, b.serverId, b.blockNr)
  {
    hide GrowOne;
    hide NewBlock;
    hide Inv;
    hide InUse;
    hide Holds;
    hide Pick;
    hide AddsHolder;
    GrowOneUses(m, inum, roll);
    GrowOneHolds(m, inum, roll);
    var b := NewBlock(m, inum, roll);
    AddsHolderFrom(m, GrowOne(m, inum, roll), inum, |m.table.inodes[inum].blocks|, b.serverId, b.blockNr);
  }

  lemma AddsHolderFrom(m: Meta, g: Meta, inum: nat, pos: nat, s: nat, nr: nat)
    requires !InUse(m, s, nr)
    requires forall t: nat, k: nat :: InUse(g, t, k) <==> InUse(m, t, k) || (t == s && k == nr)
    requires forall i: nat, p: nat, t: nat, k: nat :: Holds(g, i, p, t, k) <==>
               Holds(m, i, p, t, k) || (i == inum && p == pos && t == s && k == nr)
    ensures AddsHolder(m, g, inum, pos, s, nr)
  {
    hide InUse;
    hide Holds;
  }

  lemma GrowOneUses(m: Meta, inum: nat, roll: nat)
    requires Inv(m) && CanGrowOne(m, inum, roll)
    ensures var g, b := GrowOne(m, inum, roll), NewBlock(m, inum, roll);
            && !InUse(m, b.serverId, b.blockNr)
            && (forall t: nat, k: nat :: InUse(g, t, k) <==> InUse(m, t, k) || (t == b.serverId && k == b.blockNr))
  {
    hide Pick;
    hide Top;
    TakeOneOk(m.spaces[Pick(m.spaces, roll)]);
  }

  lemma GrowOneHolds(m: Meta, inum: nat, roll: nat)
    requires CanGrowOne(m, inum, roll)
    ensures var g, b := GrowOne(m, inum, roll), NewBlock(m, inum, roll);
            forall i: nat, p: nat, t: nat, k: nat :: Holds(g, i, p, t, k) <==>
              Holds(m, i, p, t, k) || (i == inum && p == |m.table.inodes[inum].blocks| && t == b.serverId && k == b.blockNr)
  {
    hide Pick;
    hide Top;
    var g := GrowOne(m, inum, roll);
    assert g.table.inodes[inum].blocks == m.table.inodes[inum].blocks + [NewBlock(m, inum, roll)];
  }

  ghost predicate TablesOk(m: Meta) {
    TableOk(m.table) && RootExists(m) && DirectoryOk(m.table, Directory(m))
  }

  /** A changed inode other than the root's leaves table and directory as consistent as they were. */
  lemma UpdateKeepsTables(m: Meta, inum: nat, inode: InodeState)
    requires TablesOk(m) && inum in m.table.inodes && inum != ROOT_INUM
    ensures TablesOk(WithInode(m, inum, inode)) && Directory(WithInode(m, inum, inode)) == Directory(m)
  {
    var n := WithInode(m, inum, inode);
    assert n.table.inodes.Keys == m.table.inodes.Keys;
    assert |n.table.inodes| == |n.table.inodes.Keys|;
    assert |m.table.inodes| == |m.table.inodes.Keys|;
  }

  lemma UpdateKeepsInodes(m: Meta, inum: nat, inode: InodeState)
    requires InodesOk(m) && InodeOk(inode)
    ensures InodesOk(WithInode(m, inum, inode))
  {
    hide InodeOk;
  }

  lemma TakenOk(m: Meta, s: nat)
    requires SpacesOk(m) && s in m.spaces && |m.spaces[s].free| > 0
    ensures SpacesOk(m.(spaces := m.spaces[s := TakeOne(m.spaces[s])]))
  {
    TakeOneOk(m.spaces[s]);
    hide SpaceOk;
  }

  lemma AppendedOk(m: Meta, inum: nat, roll: nat)
    requires CanGrowOne(m, inum, roll) && InodeOk(m.table.inodes[inum])
    ensures InodeOk(AppendBlock(m.table.inodes[inum], NewBlock(m, inum, roll)))
  {
    hide Pick;
    hide Top;
  }

  lemma GrowOneParts(m: Meta, inum: nat, roll: nat)
    requires Inv(m) && CanGrowOne(m, inum, roll) && inum != ROOT_INUM
    ensures TablesOk(GrowOne(m, inum, roll)) && SpacesOk(GrowOne(m, inum, roll)) && InodesOk(GrowOne(m, inum, roll))
  {
    var inode := AppendBlock(m.table.inodes[inum], NewBlock(m, inum, roll));
    AppendedOk(m, inum, roll);
    UpdateKeepsTables(m, inum, inode);
    UpdateKeepsInodes(m, inum, inode);
    TakenOk(m, Pick(m.spaces, roll));
    hide Inv;
    hide Pick;
    hide TakeOne;
    hide NewBlock;
    hide AppendBlock;
    SameTables(m, GrowOne(m, inum, roll), inum, inode);
  }

  lemma SameTables(m: Meta, g: Meta, inum: nat, inode: InodeState)
    requires g.table == WithInode(m, inum, inode).table && TablesOk(WithInode(m, inum, inode)) && InodesOk(WithInode(m, inum, inode))
    ensures TablesOk(g) && InodesOk(g)
  {
  }

  lemma GrowOneInv(m: Meta, inum: nat, roll: nat)
    requires Inv(m) && CanGrowOne(m, inum, roll) && inum != ROOT_INUM
    ensures Inv(GrowOne(m, inum, roll))
  {
    GrowOneAddsHolder(m, inum, roll);
    GrowOneParts(m, inum, roll);
    var g, b := GrowOne(m, inum, roll), NewBlock(m, inum, roll);
    AddsHolderKeepsOwnership(m, g, inum, |m.table.inodes[inum].blocks|, b.serverId, b.blockNr);
  }

  lemma {:induction false} GrowInv(m: Meta, inum: nat, rolls: seq<nat>)
    requires Inv(m) && CanGrow(m, inum, rolls) && inum != ROOT_INUM
    ensures Inv(Grow(m, inum, rolls))
    decreases |rolls|
  {
    hide Inv;
    hide GrowOne;
    hide CanGrowOne;
    if rolls != [] {
      GrowOneInv(m, inum, rolls[0]);
      GrowInv(GrowOne(m, inum, rolls[0]), inum, rolls[1..]);
    }
  }

  lemma WrittenOk(inode: InodeState, off: nat, len: nat)
    requires InodeOk(inode) && InFile(inode.blocks, off, len)
    ensures InodeOk(Written(inode, off, len)) && SamePlaces(inode.blocks, Written(inode, off, len).blocks)
  {
    hide Recorded;
  }

  lemma SamePlacesHold(m: Meta, inum: nat, inode: InodeState)
    requires inum in m.table.inodes && SamePlaces(m.table.inodes[inum].blocks, inode.blocks)
    ensures SameHolds(m, WithInode(m, inum, inode))
  {
  }

  lemma RecordInv(m: Meta, inum: nat, off: nat, len: nat)
    requires Inv(m) && inum in m.table.inodes && inum != ROOT_INUM
    requires InFile(m.table.inodes[inum].blocks, off, len)
    ensures Inv(WithInode(m, inum, Written(m.table.inodes[inum], off, len)))
  {
    hide Written;
    hide SamePlaces;
    hide TableOk;
    hide DirectoryOk;
    hide HeldOnce;
    hide HeldAreInUse;
    hide InUseAreHeld;
    hide ManagerOk;
    hide InodeOk;
    hide SameHolds;
    var inode := Written(m.table.inodes[inum], off, len);
    WrittenOk(m.table.inodes[inum], off, len);
    SamePlacesHold(m, inum, inode);
    UpdateKeepsTables(m, inum, inode);
    UpdateKeepsInodes(m, inum, inode);
    SameHoldsKeepsOwnership(m, WithInode(m, inum, inode));
  }

  /** A write keeps the invariant, whichever servers it takes its new blocks from. */
  lemma WriteInv(m: Meta, name: FileName, off: nat, len: nat, rolls: seq<nat>)
    requires Inv(m) && CanWrite(m, name, off, len, rolls)
    ensures Inv(WriteEffect(m, name, off, len, rolls).0) && Inv(Opened(m, name))
  {
    WriteSteps(m, name, off, len, rolls);
    CreateInv(m, name, false);
    OpenedListed(m, name);
    var f := Opened(m, name);
    var inum := InumOf(f, name);
    assert inum != ROOT_INUM;
    hide *;
    GrowInv(f, inum, rolls);
    RecordInv(Grow(f, inum, rolls), inum, off, len);
  }

  /** A write to a name without an entry needs room in the inode table. */
  lemma OpenedListed(m: Meta, name: FileName)
    requires Inv(m) && CanAllocate(m.table)
    ensures IsFile(Opened(m, name), name) <==> Listed(m, name) || m.table.cur != m.table.total
  {
    IssueInodeOk(m.table, false);
  }

  /** The file's block count before the write, 0 if there is no file. */
  function BlocksBefore(m: Meta, name: FileName): nat
    requires RootExists(m)
  {
    if IsFile(m, name) then |InodeOf(m, name).blocks| else 0
  }

  lemma OpenedBlocks(m: Meta, name: FileName)
    requires Inv(m) && CanAllocate(m.table)
    ensures IsFile(Opened(m, name), name) ==> |InodeOf(Opened(m, name), name).blocks| == BlocksBefore(m, name)
  {
    IssueInodeOk(m.table, false);
  }

  lemma WrittenLookup(g: Meta, name: FileName, off: nat, len: nat)
    requires RootExists(g) && IsFile(g, name) && InumOf(g, name) != ROOT_INUM && InFile(InodeOf(g, name).blocks, off, len)
    ensures var n := WithInode(g, InumOf(g, name), Written(InodeOf(g, name), off, len));
            && RootExists(n) && IsFile(n, name) && Directory(n) == Directory(g)
            && InodeOf(n, name) == Written(InodeOf(g, name), off, len)
            && |InodeOf(n, name).blocks| == |InodeOf(g, name).blocks|
  {
    hide Recorded;
  }

  /** A write leaves the file its blocks if it ends inside them; else the file has afterwards exactly the
      blocks it takes to hold the last byte written. */
  lemma WriteBlockCount(m: Meta, name: FileName, off: nat, len: nat, rolls: seq<nat>)
    requires Inv(m) && CanWrite(m, name, off, len, rolls)
    ensures var after := WriteEffect(m, name, off, len, rolls).0;
            && RootExists(after) && IsFile(after, name)
            && var b, a := BlocksBefore(m, name), |InodeOf(after, name).blocks|;
               && (off + len <= b * FILE_BLOCK_SIZE ==> a == b)
               && (off + len > b * FILE_BLOCK_SIZE ==> (a - 1) * FILE_BLOCK_SIZE < off + len <= a * FILE_BLOCK_SIZE)
  {
    WriteSteps(m, name, off, len, rolls);
    CreateInv(m, name, false);
    OpenedListed(m, name);
    OpenedBlocks(m, name);
    var f := Opened(m, name);
    var inum := InumOf(f, name);
    assert inum != ROOT_INUM;
    GrowthIs(InodeOf(f, name).blocks, off, len);
    GrowGrew(f, inum, rolls);
    GrewLookup(f, Grow(f, inum, rolls), name, |rolls|);
    hide Inv;
    hide Opened;
    hide Grow;
    hide CanGrow;
    hide Growth;
    hide WriteEffect;
    hide BlocksBefore;
    hide Written;
    WrittenLookup(Grow(f, inum, rolls), name, off, len);
  }

  /** `n` has the directory of `m`, the same inode numbers, and the same inode for the name but for its
      size and blocks. */
  ghost predicate SameButData(m: Meta, n: Meta, name: FileName) {
    && RootExists(m) && RootExists(n) && Directory(n) == Directory(m) && n.table.inodes.Keys == m.table.inodes.Keys
    && IsFile(m, name) && IsFile(n, name)
    && InodeOf(n, name).(size := 0, blocks := []) == InodeOf(m, name).(size := 0, blocks := [])
  }

  lemma GrewSameButData(m: Meta, g: Meta, name: FileName, n: nat)
    requires RootExists(m) && IsFile(m, name) && Grew(m, g, InumOf(m, name), n)
    ensures SameButData(m, g, name)
  {
    GrewLookup(m, g, name, n);
  }

  lemma WrittenSameButData(m: Meta, g: Meta, name: FileName, off: nat, len: nat)
    requires SameButData(m, g, name) && InumOf(g, name) != ROOT_INUM && InFile(InodeOf(g, name).blocks, off, len)
    ensures var n := WithInode(g, InumOf(g, name), Written(InodeOf(g, name), off, len));
            SameButData(m, n, name) && InodeOf(n, name).size == off + len
  {
    WrittenLookup(g, name, off, len);
    hide Recorded;
  }

  /** A write enters the file's name as a regular file if it has no entry, leaves the directory else, and
      sets the size to its end. */
  lemma WriteDirectory(m: Meta, name: FileName, off: nat, len: nat, rolls: seq<nat>)
    requires Inv(m) && CanWrite(m, name, off, len, rolls)
    ensures CanAllocate(m.table)
    ensures var after := WriteEffect(m, name, off, len, rolls).0;
            SameButData(CreateEffect(m, name, false).0, after, name) && InodeOf(after, name).size == off + len
  {
    WriteSteps(m, name, off, len, rolls);
    CreateInv(m, name, false);
    OpenedListed(m, name);
    var f := Opened(m, name);
    var inum := InumOf(f, name);
    assert inum != ROOT_INUM;
    assert f == CreateEffect(m, name, false).0;
    hide *;
    GrowGrew(f, inum, rolls);
    GrewSameButData(f, Grow(f, inum, rolls), name, |rolls|);
    GrewLookup(f, Grow(f, inum, rolls), name, |rolls|);
    SameNumber(f, Grow(f, inum, rolls), name);
    WrittenSameButData(f, Grow(f, inum, rolls), name, off, len);
  }

  lemma SameNumber(m: Meta, n: Meta, name: FileName)
    requires SameButData(m, n, name)
    ensures RootExists(m) && RootExists(n) && IsFile(m, name) && IsFile(n, name) && InumOf(n, name) == InumOf(m, name)
    ensures InodeOf(n, name) == n.table.inodes[InumOf(m, name)]
  {
  }

  lemma GrowOneLength(m: Meta, inum: nat, roll: nat)
    requires CanGrowOne(m, inum, roll)
    ensures inum in GrowOne(m, inum, roll).table.inodes
    ensures var blocks := GrowOne(m, inum, roll).table.inodes[inum].blocks;
            |blocks| == |m.table.inodes[inum].blocks| + 1 && blocks[|blocks| - 1].length == 0
  {
    hide Pick;
    hide Top;
  }

  /** The blocks a file grows by hold no bytes yet. */
  lemma {:induction false} GrownLengths(m: Meta, inum: nat, rolls: seq<nat>, p: nat)
    requires CanGrow(m, inum, rolls) && inum in m.table.inodes && inum in Grow(m, inum, rolls).table.inodes
    requires |m.table.inodes[inum].blocks| <= p < |Grow(m, inum, rolls).table.inodes[inum].blocks|
    ensures Grow(m, inum, rolls).table.inodes[inum].blocks[p].length == 0
    decreases |rolls|
  {
    if rolls != [] {
      var g := GrowOne(m, inum, rolls[0]);
      GrowOneLength(m, inum, rolls[0]);
      GrowGrew(g, inum, rolls[1..]);
      hide GrowOne;
      hide CanGrowOne;
      if p > |m.table.inodes[inum].blocks| {
        GrownLengths(g, inum, rolls[1..], p);
      }
    }
  }

  /** The recorded length of block p before the write, 0 if the file has no such block. */
  function LengthBefore(m: Meta, name: FileName, p: nat): nat
    requires RootExists(m)
  {
    if IsFile(m, name) && p < |InodeOf(m, name).blocks| then InodeOf(m, name).blocks[p].length else 0
  }

  lemma OpenedLength(m: Meta, name: FileName, p: nat)
    requires Inv(m) && CanAllocate(m.table)
    ensures var f := Opened(m, name);
            IsFile(f, name) ==> LengthBefore(m, name, p) == if p < |InodeOf(f, name).blocks| then InodeOf(f, name).blocks[p].length else 0
  {
    IssueInodeOk(m.table, false);
  }

  lemma GrownLength(f: Meta, g: Meta, name: FileName, n: nat, p: nat)
    requires RootExists(f) && IsFile(f, name) && Grew(f, g, InumOf(f, name), n)
    ensures RootExists(g) && IsFile(g, name)
    ensures p < |InodeOf(f, name).blocks| ==> p < |InodeOf(g, name).blocks| && InodeOf(g, name).blocks[p] == InodeOf(f, name).blocks[p]
    ensures InodeOf(g, name) == g.table.inodes[InumOf(f, name)] && InumOf(g, name) == InumOf(f, name)
  {
    GrewLookup(f, g, name, n);
  }

  lemma WrittenLengths(g: Meta, name: FileName, off: nat, len: nat, p: nat)
    requires RootExists(g) && IsFile(g, name) && InumOf(g, name) != ROOT_INUM && InFile(InodeOf(g, name).blocks, off, len)
    requires p < |InodeOf(g, name).blocks|
    ensures var n := WithInode(g, InumOf(g, name), Written(InodeOf(g, name), off, len));
            && RootExists(n) && IsFile(n, name) && |InodeOf(n, name).blocks| == |InodeOf(g, name).blocks|
            && InodeOf(n, name).blocks[p].length == NewLength(InodeOf(g, name).blocks[p].length, off, len, p)
  {
    WrittenLookup(g, name, off, len);
    RecordedLengths(InodeOf(g, name).blocks, off, len, p);
    hide NewLength;
    hide Recorded;
  }

  /** What a write records as the length of each block of the file. */
  lemma WriteLengths(m: Meta, name: FileName, off: nat, len: nat, rolls: seq<nat>, p: nat)
    requires Inv(m) && CanWrite(m, name, off, len, rolls)
    ensures var after := WriteEffect(m, name, off, len, rolls).0;
            && RootExists(after) && IsFile(after, name)
            && (p < |InodeOf(after, name).blocks| ==>
                  InodeOf(after, name).blocks[p].length == NewLength(LengthBefore(m, name, p), off, len, p))
  {
    WriteSteps(m, name, off, len, rolls);
    CreateInv(m, name, false);
    OpenedListed(m, name);
    OpenedLength(m, name, p);
    var f := Opened(m, name);
    var inum, g := InumOf(f, name), Grow(f, InumOf(f, name), rolls);
    assert inum != ROOT_INUM;
    hide *;
    GrowGrew(f, inum, rolls);
    GrownLength(f, g, name, |rolls|, p);
    WrittenLookup(g, name, off, len);
    if p < |InodeOf(g, name).blocks| {
      WrittenLengths(g, name, off, len, p);
      if p >= |InodeOf(f, name).blocks| {
        GrownLengths(f, inum, rolls, p);
      }
    }
  }

  // ----- removal -----

  lemma {:induction false} OnServerElements(blocks: seq<BlockInfo>, s: nat, nr: nat)
    ensures nr in OnServer(blocks, s) <==>
              exists p :: 0 <= p < |blocks| && blocks[p].serverId == s && blocks[p].blockNr == nr
    decreases |blocks|
  {
    if blocks != [] {
      var init, last := blocks[..|blocks| - 1], blocks[|blocks| - 1];
      OnServerElements(init, s, nr);
      if nr in OnServer(init, s) {
        var p :| 0 <= p < |init| && init[p].serverId == s && init[p].blockNr == nr;
        assert blocks[p] == init[p];
      }
      if p :| 0 <= p < |blocks| && blocks[p].serverId == s && blocks[p].blockNr == nr {
        assert p == |blocks| - 1 || init[p] == blocks[p];
      }
    }
  }

  lemma {:induction false} OnServerNoDuplicates(blocks: seq<BlockInfo>, s: nat)
    requires DistinctBlocks(blocks)
    ensures NoDuplicates(OnServer(blocks, s))
    decreases |blocks|
  {
    if blocks != [] {
      var init, last := blocks[..|blocks| - 1], blocks[|blocks| - 1];
      OnServerNoDuplicates(init, s);
      if last.serverId == s {
        OnServerElements(init, s, last.blockNr);
        assert last.blockNr !in OnServer(init, s);
        NoDuplicatesPush(OnServer(init, s), last.blockNr);
      }
    }
  }

  lemma InodeBlocksDistinct(m: Meta, i: nat)
    requires HeldOnce(m) && i in m.table.inodes
    ensures DistinctBlocks(m.table.inodes[i].blocks)
  {
    var blocks := m.table.inodes[i].blocks;
    forall p: nat, q: nat | p < q < |blocks|
      ensures blocks[p].serverId != blocks[q].serverId || blocks[p].blockNr != blocks[q].blockNr
    {
      assert Holds(m, i, p, blocks[p].serverId, blocks[p].blockNr);
      assert Holds(m, i, q, blocks[q].serverId, blocks[q].blockNr);
    }
  }

  /** Each manager gets back exactly the blocks it issued to the inode, each once. */
  lemma ReclaimInodeExact(m: Meta, i: nat, s: nat)
    requires Inv(m) && i in m.table.inodes && s in m.spaces
    ensures var r := ReclaimInode(m.spaces[s], m.table.inodes[i].blocks);
            && ManagerOk(r, s)
            && (forall nr: nat :: nr in r.inUse <==> InUse(m, s, nr) && !exists p: nat :: Holds(m, i, p, s, nr))
  {
    var sp, blocks := m.spaces[s], m.table.inodes[i].blocks;
    var list := OnServer(blocks, s);
    InodeBlocksDistinct(m, i);
    OnServerNoDuplicates(blocks, s);
    forall nr: nat ensures nr in list <==> exists p: nat :: Holds(m, i, p, s, nr) {
      OnServerElements(blocks, s, nr);
      if nr in list {
        var p :| 0 <= p < |blocks| && blocks[p].serverId == s && blocks[p].blockNr == nr;
        assert Holds(m, i, p, s, nr);
      }
    }
    forall nr: nat | nr in list ensures nr in sp.inUse {
      var p: nat :| Holds(m, i, p, s, nr);
      assert InUse(m, s, nr);
    }
    ValidReclaimOk(sp, list);
  }

  /** What removing the file under `name` does to the inodes. */
  lemma RemoveInodes(m: Meta, name: FileName)
    requires Inv(m) && Listed(m, name)
    ensures CanRemove(m, name) && IsFile(m, name)
    ensures var after := RemoveEffect(m, name).0;
            && RootExists(after) && Directory(after) == Directory(m) - {name.hash}
            && after.table.inodes.Keys == m.table.inodes.Keys - {InumOf(m, name)}
            && after.spaces.Keys == m.spaces.Keys
            && (forall i :: i in after.table.inodes ==> after.table.inodes[i].blocks == m.table.inodes[i].blocks)
            && (forall i :: i in after.table.inodes && i != ROOT_INUM ==> after.table.inodes[i] == m.table.inodes[i])
  {
    hide ReclaimInode;
  }

  lemma RemoveHolds(m: Meta, name: FileName)
    requires Inv(m) && Listed(m, name) && CanRemove(m, name)
    ensures var after, inum := RemoveEffect(m, name).0, InumOf(m, name);
            && (forall i: nat, p: nat, s: nat, nr: nat :: Holds(after, i, p, s, nr) <==> Holds(m, i, p, s, nr) && i != inum)
            && (forall s: nat, nr: nat :: InUse(after, s, nr) <==>
                  InUse(m, s, nr) && !exists p: nat :: Holds(m, inum, p, s, nr))
            && SpacesOk(after)
  {
    RemoveInodes(m, name);
    RemoveSteps(m, name);
    var after, inum := RemoveEffect(m, name).0, InumOf(m, name);
    hide RemoveEffect;
    hide ReclaimInode;
    forall s | s in after.spaces
      ensures ManagerOk(after.spaces[s], s)
      ensures forall nr: nat :: nr in after.spaces[s].inUse <==>
                InUse(m, s, nr) && !exists p: nat :: Holds(m, inum, p, s, nr)
    {
      ReclaimInodeExact(m, inum, s);
    }
  }

  lemma RemoveOwnership(m: Meta, after: Meta, inum: nat)
    requires OwnershipOk(m)
    requires forall i: nat, p: nat, s: nat, nr: nat :: Holds(after, i, p, s, nr) <==> Holds(m, i, p, s, nr) && i != inum
    requires forall s: nat, nr: nat :: InUse(after, s, nr) <==>
               InUse(m, s, nr) && !exists p: nat :: Holds(m, inum, p, s, nr)
    ensures OwnershipOk(after)
  {
    hide InUse;
    hide Holds;
    forall s: nat, nr: nat | InUse(after, s, nr) ensures exists i: nat, p: nat :: Holds(after, i, p, s, nr) {
      var i: nat, p: nat :| Holds(m, i, p, s, nr);
      assert Holds(after, i, p, s, nr);
    }
    forall i: nat, p: nat, s: nat, nr: nat | Holds(after, i, p, s, nr) ensures InUse(after, s, nr) {
      assert Holds(m, i, p, s, nr);
      assert forall q: nat :: !Holds(m, inum, q, s, nr);
    }
  }

  lemma RemoveTable(m: Meta, name: FileName)
    requires Inv(m) && Listed(m, name) && CanRemove(m, name)
    ensures var after := RemoveEffect(m, name).0;
            TableOk(after.table) && DirectoryOk(after.table, Directory(m) - {name.hash}) && InodesOk(after)
  {
    RemoveInodes(m, name);
    RemoveSteps(m, name);
    var after, inum := RemoveEffect(m, name).0, InumOf(m, name);
    hide RemoveEffect;
    var unlisted := WithDirectory(m, Directory(m) - {name.hash});
    assert unlisted.table.inodes.Keys == m.table.inodes.Keys;
    EraseInodeOk(unlisted.table, inum);
    hide DirectoryOk;
    hide OwnershipOk;
    DirectoryLoses(m.table, Directory(m), after.table, name.hash);
  }

  /** An entry goes together with its inode. */
  lemma DirectoryLoses(table: Table, directory: map<nat, Dentry>, after: Table, h: nat)
    requires DirectoryOk(table, directory) && h in directory
    requires after.inodes.Keys == table.inodes.Keys - {directory[h].inum} && after.inodes[ROOT_INUM].blocks == []
    ensures DirectoryOk(after, directory - {h})
  {
    var rest := directory - {h};
    forall i | i in after.inodes && i != ROOT_INUM ensures exists k :: k in rest && rest[k].inum == i {
      var k :| k in directory && directory[k].inum == i;
      assert k in rest;
    }
  }

  /** Removal keeps the invariant and succeeds exactly when the name has an entry. The blocks of the
      removed file, and no others, are free again, and no inode owns them. */
  lemma RemoveInv(m: Meta, name: FileName)
    requires Inv(m)
    ensures CanRemove(m, name)
    ensures var (after, success) := RemoveEffect(m, name);
            && Inv(after) && success == Listed(m, name)
            && (success ==> InumOf(m, name) !in after.table.inodes && !Listed(after, name))
            && (success ==> forall s: nat, nr: nat :: InUse(after, s, nr) <==>
                  InUse(m, s, nr) && !exists p: nat :: Holds(m, InumOf(m, name), p, s, nr))
  {
    if Listed(m, name) {
      RemoveInodes(m, name);
      RemoveHolds(m, name);
      RemoveTable(m, name);
      hide RemoveEffect;
      RemoveOwnership(m, RemoveEffect(m, name).0, InumOf(m, name));
      RemoveSteps(m, name);
    } else {
      RemoveNothing(m, name);
    }
  }

  /** On every server free and used blocks add up to all blocks. */
  lemma BlocksConserved(m: Meta, s: nat)
    requires Inv(m) && s in m.spaces
    ensures |m.spaces[s].free| + |m.spaces[s].inUse| == m.spaces[s].total
    ensures m.spaces[s].cur == |m.spaces[s].inUse|
  {
    FreePlusInUse(m.spaces[s]);
  }

  // ----- registration -----

  /** Registering a node keeps the invariant exactly when it has no manager yet, or its manager has
      no block in use. */
  lemma RegisterInv(m: Meta, nodeId: nat, addr: nat, length: nat)
    requires Inv(m)
    ensures Inv(RegisterEffect(m, nodeId, addr, length))
            <==> (nodeId in m.spaces ==> m.spaces[nodeId].inUse == {})
  {
    hide NewSpace;
    hide Wrap64;
    var after := RegisterEffect(m, nodeId, addr, length);
    FreshManager(addr, Wrap64(addr + length - 1), nodeId);
    assert forall i: nat, p: nat, s: nat, nr: nat :: Holds(after, i, p, s, nr) <==> Holds(m, i, p, s, nr);
    if nodeId in m.spaces && m.spaces[nodeId].inUse != {} {
      var nr: nat :| nr in m.spaces[nodeId].inUse;
      assert InUse(m, nodeId, nr);
      var i: nat, p: nat :| Holds(m, i, p, nodeId, nr);
      assert Holds(after, i, p, nodeId, nr) && !InUse(after, nodeId, nr);
    } else {
      assert forall s: nat, nr: nat :: InUse(after, s, nr) <==> InUse(m, s, nr);
      SameUsersKeepOwnership(m, after);
    }
  }

  /** A registered region, if it reaches its first block boundary, is handed out whole: the new manager
      has just the blocks that fit behind that boundary, all free; every other manager and the inode
      table stay. Of the blocks of the bare length at most one is lost, and none exactly when the bytes
      skipped at the start fit into the part that fills no block. */
  lemma RegisterGives(m: Meta, nodeId: nat, addr: nat, length: nat)
    requires 0 < length && addr + length + FILE_BLOCK_SIZE <= TWO_TO_THE_64
    requires Skipped(addr, FILE_BLOCK_SIZE) <= length
    ensures var after := RegisterEffect(m, nodeId, addr, length);
            && after.table == m.table && after.spaces.Keys == m.spaces.Keys + {nodeId}
            && (forall s :: s in m.spaces && s != nodeId ==> after.spaces[s] == m.spaces[s])
            && var sp, skipped := after.spaces[nodeId], (FILE_BLOCK_SIZE - addr % FILE_BLOCK_SIZE) % FILE_BLOCK_SIZE;
               && Manages(sp, addr, length) && sp.serverId == nodeId && sp.inUse == {} && sp.cur == 0
               && sp.start == addr + skipped && sp.end == addr + length - 1 && |sp.free| == sp.total
               && sp.total * FILE_BLOCK_SIZE <= length - skipped < (sp.total + 1) * FILE_BLOCK_SIZE
               && length / FILE_BLOCK_SIZE - 1 <= sp.total <= length / FILE_BLOCK_SIZE
               && (sp.total == length / FILE_BLOCK_SIZE <==> skipped <= length % FILE_BLOCK_SIZE)
  {
    NewSpaceManages(addr, length, FILE_BLOCK_SIZE, nodeId);
    hide NewSpace;
    hide Wrap64;
    ManagedBlocks(RegisterEffect(m, nodeId, addr, length).spaces[nodeId], addr, length);
  }

  /** A registered region that ends before its first block boundary gets a manager whose blocks it does not
      hold. */
  lemma RegisterOverflows(m: Meta, nodeId: nat, addr: nat, length: nat)
    requires 0 < length < Skipped(addr, FILE_BLOCK_SIZE) && addr + length + FILE_BLOCK_SIZE <= TWO_TO_THE_64
    ensures var sp := RegisterEffect(m, nodeId, addr, length).spaces[nodeId];
            && sp.total > 0 && !BlocksInside(sp, length)
            && sp.total * FILE_BLOCK_SIZE <= TWO_TO_THE_64 - (Skipped(addr, FILE_BLOCK_SIZE) - length)
                                           < (sp.total + 1) * FILE_BLOCK_SIZE
  {
    NewSpaceOverflows(addr, length, FILE_BLOCK_SIZE, nodeId);
    hide NewSpace;
    hide Wrap64;
  }

  lemma FreshManager(start: nat, end: nat, nodeId: nat)
    ensures ManagerOk(NewSpace(start, end, FILE_BLOCK_SIZE, nodeId), nodeId)
    ensures NewSpace(start, end, FILE_BLOCK_SIZE, nodeId).inUse == {}
  {
    NewSpaceOk(start, end, FILE_BLOCK_SIZE, nodeId);
  }

  // ----- when the handlers can run -----

  // ----- no file passes 2^64 bytes of blocks -----

  ghost predicate Addressable(m: Meta) {
    forall i :: i in m.table.inodes ==> |m.table.inodes[i].blocks| * FILE_BLOCK_SIZE < TWO_TO_THE_64
  }

  lemma CreateAddressable(m: Meta, name: FileName, isDir: bool)
    requires Inv(m) && Addressable(m)
    ensures CanAllocate(m.table) && Addressable(CreateEffect(m, name, isDir).0)
  {
    IssueInodeOk(m.table, isDir);
    hide Inv;
  }

  /** The blocks that a write adds end at most a block after the write does. */
  lemma GrowthBound(blocks: seq<BlockInfo>, off: nat, len: nat)
    requires |blocks| * FILE_BLOCK_SIZE < TWO_TO_THE_64 && off + len + FILE_BLOCK_SIZE <= TWO_TO_THE_64
    ensures (|blocks| + Growth(blocks, off, len)) * FILE_BLOCK_SIZE < TWO_TO_THE_64
  {
  }

  lemma WriteAddressable(m: Meta, name: FileName, off: nat, len: nat, rolls: seq<nat>)
    requires Inv(m) && Addressable(m) && CanWrite(m, name, off, len, rolls)
    ensures Addressable(WriteEffect(m, name, off, len, rolls).0)
  {
    WriteSteps(m, name, off, len, rolls);
    CreateAddressable(m, name, false);
    var f := Opened(m, name);
    var inum := InumOf(f, name);
    assert Representable(off, len, |rolls|);
    hide *;
    GrownAddressable(f, inum, rolls, off, len);
    WrittenAddressable(Grow(f, inum, rolls), inum, off, len);
  }

  lemma GrownAddressable(m: Meta, inum: nat, rolls: seq<nat>, off: nat, len: nat)
    requires Addressable(m) && inum in m.table.inodes && CanGrow(m, inum, rolls)
    requires |rolls| == Growth(m.table.inodes[inum].blocks, off, len) && Representable(off, len, |rolls|)
    ensures Addressable(Grow(m, inum, rolls))
  {
    GrowGrew(m, inum, rolls);
    GrowthBound(m.table.inodes[inum].blocks, off, len);
    hide Grow;
    hide CanGrow;
    hide Growth;
  }

  lemma WrittenAddressable(m: Meta, inum: nat, off: nat, len: nat)
    requires inum in m.table.inodes && InFile(m.table.inodes[inum].blocks, off, len) && Addressable(m)
    ensures Addressable(WithInode(m, inum, Written(m.table.inodes[inum], off, len)))
  {
    hide Recorded;
  }

  lemma RemoveAddressable(m: Meta, name: FileName)
    requires Inv(m) && Addressable(m)
    ensures CanRemove(m, name) && Addressable(RemoveEffect(m, name).0)
  {
    if Listed(m, name) {
      RemoveInodes(m, name);
      hide RemoveEffect;
    } else {
      RemoveNothing(m, name);
    }
  }

  lemma RegisterAddressable(m: Meta, nodeId: nat, addr: nat, length: nat)
    requires Addressable(m)
    ensures Addressable(RegisterEffect(m, nodeId, addr, length))
  {
  }

  /** The length that ReadFile computes stays inside the file's blocks exactly when neither the offset
      passes the size nor the end of the request passes 2^64. */
  lemma ReadLengthInFile(blocks: seq<BlockInfo>, off: nat, len: nat, size: nat)
    requires size <= |blocks| * FILE_BLOCK_SIZE < TWO_TO_THE_64 && off < TWO_TO_THE_64 && len < TWO_TO_THE_64
    ensures InFile(blocks, off, ReadLength(off, len, size)) <==> off <= size && off + len < TWO_TO_THE_64
  {
    if off + len >= TWO_TO_THE_64 {
      assert Wrap64(off + len) == off + len - TWO_TO_THE_64;
    } else if off > size {
      assert Wrap64(size - off) == TWO_TO_THE_64 + size - off;
    }
  }

  /** In a reachable state ReadFile looks up only blocks that exist exactly when the file exists, the
      offset does not pass its size and the end of the request does not pass 2^64. */
  lemma ReadRuns(m: Meta, name: FileName, off: nat, len: nat)
    requires Inv(m) && Addressable(m) && off < TWO_TO_THE_64 && len < TWO_TO_THE_64
    ensures CanRead(m, name, off, len) <==>
              Listed(m, name) && off <= InodeOf(m, name).size && off + len < TWO_TO_THE_64
  {
    if Listed(m, name) {
      assert InodeOk(InodeOf(m, name));
      ReadLengthInFile(InodeOf(m, name).blocks, off, len, InodeOf(m, name).size);
    }
  }

  /** Every server can hand out n blocks. */
  predicate EveryServerHas(m: Meta, n: nat) {
    m.spaces != map[] && forall s :: s in m.spaces ==> |m.spaces[s].free| >= n
  }

  lemma GrowOneLeaves(m: Meta, inum: nat, roll: nat, n: nat)
    requires inum in m.table.inodes && EveryServerHas(m, n) && n > 0
    ensures CanGrowOne(m, inum, roll)
    ensures inum in GrowOne(m, inum, roll).table.inodes && EveryServerHas(GrowOne(m, inum, roll), n - 1)
  {
    hide Pick;
    var g := GrowOne(m, inum, roll);
    assert Pick(m.spaces, roll) in g.spaces;
  }

  lemma {:induction false} EnoughForAll(m: Meta, inum: nat, rolls: seq<nat>)
    requires inum in m.table.inodes && (rolls == [] || EveryServerHas(m, |rolls|))
    ensures CanGrow(m, inum, rolls)
    decreases |rolls|
  {
    if rolls != [] {
      GrowOneLeaves(m, inum, rolls[0], |rolls|);
      hide GrowOne;
      hide CanGrowOne;
      hide EveryServerHas;
      EnoughForAll(GrowOne(m, inum, rolls[0]), inum, rolls[1..]);
    }
  }

  /** The rolls that select server s every time. */
  function Always(roll: nat, n: nat): (r: seq<nat>)
    ensures |r| == n && forall k :: 0 <= k < n ==> r[k] == roll
  {
    seq(n, k => roll)
  }

  lemma PickedBySomeRoll(spaces: map<nat, Space>, s: nat) returns (roll: nat)
    requires s in spaces
    ensures Pick(spaces, roll) == s
  {
    hide SortedKeys;
    var keys := SortedKeys(spaces.Keys);
    assert s in keys;
    roll :| roll < |keys| && keys[roll] == s;
    SmallMod(roll, |keys|);
  }

  lemma SmallMod(x: nat, d: nat)
    requires x < d
    ensures x % d == x
  {
  }

  lemma PickByKeys(a: map<nat, Space>, b: map<nat, Space>, roll: nat)
    requires a.Keys == b.Keys && a != map[]
    ensures b != map[] && Pick(a, roll) == Pick(b, roll)
  {
    var s := Pick(a, roll);
    assert s in b;
  }

  lemma GrowOneTakes(m: Meta, inum: nat, roll: nat)
    requires CanGrowOne(m, inum, roll)
    ensures var s, g := Pick(m.spaces, roll), GrowOne(m, inum, roll);
            g.spaces != map[] && Pick(g.spaces, roll) == s && |g.spaces[s].free| == |m.spaces[s].free| - 1
  {
    PickByKeys(m.spaces, GrowOne(m, inum, roll).spaces, roll);
    hide Pick;
  }

  lemma AlwaysUnfolds(m: Meta, inum: nat, roll: nat, n: nat)
    requires n > 0 && CanGrow(m, inum, Always(roll, n))
    ensures CanGrowOne(m, inum, roll) && CanGrow(GrowOne(m, inum, roll), inum, Always(roll, n - 1))
  {
    hide CanGrowOne;
    hide GrowOne;
    assert Always(roll, n)[0] == roll && Always(roll, n)[1..] == Always(roll, n - 1);
  }

  lemma {:induction false} TooFewForOne(m: Meta, inum: nat, roll: nat, n: nat)
    requires m.spaces != map[] && |m.spaces[Pick(m.spaces, roll)].free| < n
    ensures !CanGrow(m, inum, Always(roll, n))
    decreases n
  {
    hide *;
    if CanGrow(m, inum, Always(roll, n)) {
      AlwaysUnfolds(m, inum, roll, n);
      GrowOneTakes(m, inum, roll);
      TooFewForOne(GrowOne(m, inum, roll), inum, roll, n - 1);
    }
  }

  /** A file can grow by n blocks whatever rand() returns exactly when n is 0 or every one of at
      least one registered servers has n free blocks. */
  lemma GrowsWhateverRand(m: Meta, inum: nat, n: nat)
    requires inum in m.table.inodes
    ensures (forall rolls: seq<nat> :: |rolls| == n ==> CanGrow(m, inum, rolls)) <==> n == 0 || EveryServerHas(m, n)
  {
    if n == 0 || EveryServerHas(m, n) {
      forall rolls: seq<nat> | |rolls| == n ensures CanGrow(m, inum, rolls) {
        EnoughForAll(m, inum, rolls);
      }
    } else if m.spaces == map[] {
      assert !CanGrow(m, inum, Always(0, n));
    } else {
      var s :| s in m.spaces && |m.spaces[s].free| < n;
      var roll := PickedBySomeRoll(m.spaces, s);
      TooFewForOne(m, inum, roll, n);
      assert |Always(roll, n)| == n;
    }
  }

  /** How many blocks a write adds to the file, which has none before it is created. */
  function GrowthOf(m: Meta, name: FileName, off: nat, len: nat): nat
    requires RootExists(m)
  {
    Growth(if IsFile(m, name) then InodeOf(m, name).blocks else [], off, len)
  }

  lemma OpenedIs(m: Meta, name: FileName, off: nat, len: nat)
    requires Inv(m) && CanAllocate(m.table)
    ensures var f := Opened(m, name);
            && f.spaces == m.spaces
            && (IsFile(f, name) <==> Listed(m, name) || m.table.cur != m.table.total)
            && (IsFile(f, name) ==> Growth(InodeOf(f, name).blocks, off, len) == GrowthOf(m, name, off, len))
  {
    IssueInodeOk(m.table, false);
    hide Growth;
    hide InodesOk;
    hide SpacesOk;
    hide HeldOnce;
    hide HeldAreInUse;
    hide InUseAreHeld;
  }

  /** In a reachable state a write can run, whatever rand() returns, exactly when the name has an
      entry or the inode table has room, and the file need not grow or every registered server has
      as many free blocks as the file lacks. */
  lemma WriteRuns(m: Meta, name: FileName, off: nat, len: nat)
    requires Inv(m) && Representable(off, len, GrowthOf(m, name, off, len))
    ensures var n := GrowthOf(m, name, off, len);
            (forall rolls: seq<nat> :: |rolls| == n ==> CanWrite(m, name, off, len, rolls))
            <==> && (Listed(m, name) || m.table.cur != m.table.total)
                 && (n == 0 || EveryServerHas(m, n))
  {
    CreateInv(m, name, false);
    OpenedIs(m, name, off, len);
    var n, f := GrowthOf(m, name, off, len), Opened(m, name);
    hide Inv;
    hide Opened;
    hide GrowthOf;
    hide Growth;
    hide CanGrow;
    if IsFile(f, name) {
      GrowsWhateverRand(f, InumOf(f, name), n);
      assert forall rolls: seq<nat> :: |rolls| == n ==>
               (CanWrite(m, name, off, len, rolls) <==> CanGrow(f, InumOf(f, name), rolls));
    } else {
      assert |Always(0, n)| == n && !CanWrite(m, name, off, len, Always(0, n));
    }
  }
}
