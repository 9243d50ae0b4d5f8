/** src/fs/file.cpp and include/file.hpp: directory entries, inodes, the inode table and the fd map. */
module Files {
  import opened Blocks
  import opened MinHeap
  import opened SpaceManagers

  /** A file name together with the value std::hash gives it; the directory is keyed by that value. */
  datatype FileName = FileName(text: string, hash: nat)

  datatype Dentry = Dentry(name: string, hash: nat, inum: nat)

  datatype InodeState = InodeState(
    inum: nat, isDir: bool, size: nat, children: map<nat, Dentry>, blocks: seq<BlockInfo>)

  datatype Table = Table(inodes: map<nat, InodeState>, free: multiset<nat>, cur: nat, total: nat)

  const ROOT_INUM: nat := 0

  // ----- the inode table, on values -----

  function NewInode(isDir: bool, inum: nat): InodeState {
    InodeState(inum, isDir, 0, map[], [])
  }

  function NewTable(size: nat): Table {
    Table(map[ROOT_INUM := NewInode(true, ROOT_INUM)], Iota(1, size), 1, size)
  }

  predicate CanAllocate(t: Table) {
    t.cur != t.total ==> |t.free| > 0
  }

  /** The new table and inode number; `total + 1` when no inode is left. */
  function IssueInode(t: Table, isDir: bool): (r: (Table, nat))
    requires CanAllocate(t)
  {
    if t.cur == t.total then (t, t.total + 1) else
      var inum := Top(t.free);
      (t.(inodes := t.inodes[inum := NewInode(isDir, inum)], free := Pop(t.free), cur := t.cur + 1), inum)
  }

  function EraseInode(t: Table, inum: nat): (r: (Table, bool)) {
    if inum !in t.inodes then (t, false) else
      (t.(inodes := t.inodes - {inum}, free := Push(t.free, inum), cur := Decrement(t.cur)), true)
  }

  /** Table keys and free list partition {0..total}; the root inode is in the table. */
  ghost predicate TableOk(t: Table) {
    && ROOT_INUM in t.inodes
    && (forall i: nat :: i in t.inodes ==> i <= t.total)
    && (forall i: nat :: t.free[i] == if i <= t.total && i !in t.inodes then 1 else 0)
    && t.cur == |t.inodes| <= t.total
  }

  lemma NewTableOk(size: nat)
    requires size > 0
    ensures TableOk(NewTable(size))
  {
  }

  /** The new table has the numbers 1 to `size` to give, and the root, an empty directory, under 0. */
  lemma NewTableHolds(size: nat)
    ensures var t := NewTable(size);
            && t.total == size && t.cur == 1 && t.inodes == map[0 := InodeState(0, true, 0, map[], [])]
            && forall i: nat :: t.free[i] == if 1 <= i <= size then 1 else 0
  {
    assert NewTable(size).free == Iota(1, size);
    hide Iota;
  }

  /** The heap is popped only when it holds an inode number. */
  lemma TableFree(t: Table)
    requires TableOk(t)
    ensures |t.free| + |t.inodes| == t.total + 1 && CanAllocate(t)
  {
    ComplementSize(t.free, t.inodes.Keys, t.total + 1);
  }

  /** An allocation either reports a full table or issues the least unused number, never the root's. */
  lemma IssueInodeOk(t: Table, isDir: bool)
    requires TableOk(t)
    ensures CanAllocate(t)
    ensures var (after, inum) := IssueInode(t, isDir);
            && TableOk(after) && after.total == t.total
            && (t.cur == t.total ==> after == t && inum == t.total + 1 && inum !in t.inodes)
            && (t.cur != t.total ==>
                  && inum !in t.inodes && ROOT_INUM < inum <= t.total
                  && (forall i: nat :: i < inum ==> i in t.inodes)
                  && after.inodes == t.inodes[inum := NewInode(isDir, inum)])
  {
    TableFree(t);
    if t.cur != t.total {
      var inum := Top(t.free);
      assert t.free[inum] > 0;
      forall i: nat | i < inum ensures i in t.inodes {
        assert i in t.free || i in t.inodes by { assert t.free[i] == if i !in t.inodes then 1 else 0; }
      }
      var after := IssueInode(t, isDir).0;
      assert after.inodes.Keys == t.inodes.Keys + {inum};
    }
  }

  /** Deleting keeps the table consistent exactly when the number is not the root's. */
  lemma EraseInodeOk(t: Table, inum: nat)
    requires TableOk(t)
    ensures TableOk(EraseInode(t, inum).0) <==> inum != ROOT_INUM
  {
    if inum in t.inodes {
      var after := EraseInode(t, inum).0;
      assert after.inodes.Keys == t.inodes.Keys - {inum};
    }
  }

  /** A deletion succeeds exactly when the inode exists, and then takes away just that inode. */
  lemma EraseReplies(t: Table, inum: nat)
    ensures var (after, deleted) := EraseInode(t, inum);
            && (deleted <==> inum in t.inodes)
            && (!deleted ==> after == t)
            && (deleted ==> after.inodes == t.inodes - {inum} && after.total == t.total)
            && (deleted ==> forall i: nat :: after.free[i] == t.free[i] + if i == inum then 1 else 0)
  {
    if inum in t.inodes {
      assert EraseInode(t, inum).0.free[inum] == t.free[inum] + 1;
    }
  }

  /** Deleting the inode just issued restores the table. */
  lemma IssueThenErase(t: Table, isDir: bool)
    requires TableOk(t) && t.cur != t.total
    ensures CanAllocate(t)
    ensures var (after, inum) := IssueInode(t, isDir); EraseInode(after, inum) == (t, true)
  {
    TableFree(t);
    IssueInodeOk(t, isDir);
    var (after, inum) := IssueInode(t, isDir);
    var back := EraseInode(after, inum).0;
    assert back.inodes == t.inodes;
    assert back.free == t.free;
  }

  // ----- the fd map, on values -----

  datatype Fds = Fds(free: multiset<nat>, used: set<nat>, total: nat)

  /** std::iota counts from 1 over total + 3 entries; the first three are skipped. */
  function NewFds(total: nat): Fds {
    Fds(Iota(4, total), {}, total)
  }

  function IssueFD(m: Fds): (r: (Fds, int)) {
    var top: int := if |m.free| == 0 then -1 else Top(m.free);
    if |m.free| == 0 then (m, top) else (m.(free := Pop(m.free), used := m.used + {Top(m.free)}), top)
  }

  function ReturnFD(m: Fds, fd: nat): (r: (Fds, bool)) {
    if fd !in m.used then (m, false) else (m.(free := Push(m.free, fd), used := m.used - {fd}), true)
  }

  ghost predicate FdsOk(m: Fds) {
    && (forall x: nat :: x in m.used ==> 4 <= x < m.total + 4)
    && (forall x: nat :: m.free[x] == if 4 <= x < m.total + 4 && x !in m.used then 1 else 0)
  }

  /** Free and used descriptors partition [4, total + 4) after every open and close; an open never
      issues a used descriptor, and closing it again restores the map. */
  lemma FdsStayOk(m: Fds, fd: nat)
    requires FdsOk(m)
    ensures FdsOk(NewFds(m.total)) && FdsOk(IssueFD(m).0) && FdsOk(ReturnFD(m, fd).0)
    ensures var (after, fd') := IssueFD(m);
            fd' >= 0 ==> fd' as nat !in m.used && ReturnFD(after, fd' as nat) == (m, true)
  {
    if |m.free| > 0 {
      var top := Top(m.free);
      assert m.free[top] > 0;
      var after := IssueFD(m).0;
      assert ReturnFD(after, top).0.used == m.used;
      assert ReturnFD(after, top).0.free == m.free;
    }
  }

  /** An open issues the least descriptor that is not in use, or -1 and nothing else when all are. */
  lemma OpenReplies(m: Fds)
    requires FdsOk(m)
    ensures var (after, fd) := IssueFD(m);
            && (fd == -1 <==> |m.used| == m.total)
            && (fd == -1 ==> after == m)
            && (fd != -1 ==>
                  && 4 <= fd < m.total + 4 && fd as nat !in m.used && (forall x: nat :: 4 <= x < fd ==> x in m.used)
                  && after.used == m.used + {fd as nat} && after.total == m.total)
  {
    FdsCount(m);
    if |m.free| > 0 {
      var top := Top(m.free);
      assert m.free[top] > 0;
      forall x: nat | 4 <= x < top ensures x in m.used {
        assert m.free[x] == if x < m.total + 4 && x !in m.used then 1 else 0;
        assert x in m.free ==> top <= x;
      }
    }
  }

  /** A close succeeds exactly when the descriptor is in use, and then frees just that descriptor. */
  lemma CloseReplies(m: Fds, fd: nat)
    ensures var (after, success) := ReturnFD(m, fd);
            && (success <==> fd in m.used)
            && (!success ==> after == m)
            && (success ==> after.used == m.used - {fd} && after.total == m.total)
            && (success ==> forall x: nat :: after.free[x] == m.free[x] + if x == fd then 1 else 0)
  {
    if fd in m.used {
      assert ReturnFD(m, fd).0.free[fd] == m.free[fd] + 1;
    }
  }

  datatype FdOp = Open | Close(fd: nat)

  /** The descriptor map after a sequence of opens and closes. */
  function FdsAfter(total: nat, ops: seq<FdOp>): Fds
    decreases |ops|
  {
    if ops == [] then NewFds(total) else
      var before := FdsAfter(total, ops[..|ops| - 1]);
      match ops[|ops| - 1]
      case Open => IssueFD(before).0
      case Close(fd) => ReturnFD(before, fd).0
  }

  /** In every run of opens and closes, whatever descriptors are closed, free and used ones partition
      [4, total + 4), so an open fails exactly when `total` descriptors are in use. */
  lemma {:induction false} FdsRunOk(total: nat, ops: seq<FdOp>)
    ensures FdsOk(FdsAfter(total, ops)) && FdsAfter(total, ops).total == total
    ensures IssueFD(FdsAfter(total, ops)).1 == -1 <==> |FdsAfter(total, ops).used| == total
    decreases |ops|
  {
    if ops != [] {
      FdsRunOk(total, ops[..|ops| - 1]);
      var before := FdsAfter(total, ops[..|ops| - 1]);
      FdsStayOk(before, if ops[|ops| - 1].Close? then ops[|ops| - 1].fd else 0);
    }
    FdsCount(FdsAfter(total, ops));
  }

  /** The open at position j issued the descriptor, and no close of it follows. */
  ghost predicate OpenSince(total: nat, ops: seq<FdOp>, fd: nat, j: nat) {
    && j < |ops| && ops[j] == Open && IssueFD(FdsAfter(total, ops[..j])).1 == fd
    && forall k :: j < k < |ops| ==> ops[k] != Close(fd)
  }

  lemma OpenSinceStep(total: nat, ops: seq<FdOp>, op: FdOp, fd: nat, j: nat)
    requires j < |ops|
    ensures OpenSince(total, ops + [op], fd, j) <==> OpenSince(total, ops, fd, j) && op != Close(fd)
  {
    var more := ops + [op];
    assert more[..j] == ops[..j] && more[j] == ops[j] && more[|ops|] == op;
    assert forall k :: 0 <= k < |ops| ==> more[k] == ops[k];
  }

  lemma OpenSinceLast(total: nat, ops: seq<FdOp>, op: FdOp, fd: nat)
    ensures OpenSince(total, ops + [op], fd, |ops|) <==> op == Open && IssueFD(FdsAfter(total, ops)).1 == fd
  {
    assert (ops + [op])[..|ops|] == ops && (ops + [op])[|ops|] == op;
  }

  lemma AfterOne(total: nat, ops: seq<FdOp>, op: FdOp, fd: nat)
    requires FdsOk(FdsAfter(total, ops))
    ensures var m := FdsAfter(total, ops);
            fd in FdsAfter(total, ops + [op]).used
            <==> (op == Open && IssueFD(m).1 == fd) || (fd in m.used && op != Close(fd))
  {
    assert (ops + [op])[..|ops|] == ops;
    OpenReplies(FdsAfter(total, ops));
    if op.Close? {
      CloseReplies(FdsAfter(total, ops), op.fd);
    }
  }

  /** In every run a descriptor is in use exactly when some open issued it and no close of it followed;
      so just then a close of it succeeds. */
  lemma {:induction false} CloseSucceedsIff(total: nat, ops: seq<FdOp>, fd: nat)
    ensures fd in FdsAfter(total, ops).used <==> exists j: nat :: OpenSince(total, ops, fd, j)
    ensures ReturnFD(FdsAfter(total, ops), fd).1 <==> exists j: nat :: OpenSince(total, ops, fd, j)
    decreases |ops|
  {
    CloseReplies(FdsAfter(total, ops), fd);
    if ops != [] {
      var init, last := ops[..|ops| - 1], ops[|ops| - 1];
      assert ops == init + [last];
      CloseSucceedsIff(total, init, fd);
      FdsRunOk(total, init);
      AfterOne(total, init, last, fd);
      OpenSinceLast(total, init, last, fd);
      hide *;
      forall j: nat | j < |init| ensures OpenSince(total, ops, fd, j) <==> OpenSince(total, init, fd, j) && last != Close(fd) {
        OpenSinceStep(total, init, last, fd, j);
      }
      OpenSinceBound(total, ops, fd);
      OpenSinceBound(total, init, fd);
    }
  }

  lemma OpenSinceBound(total: nat, ops: seq<FdOp>, fd: nat)
    ensures forall j: nat :: OpenSince(total, ops, fd, j) ==> j < |ops|
  {
  }

  lemma FdsCount(m: Fds)
    requires FdsOk(m)
    ensures |m.free| + |m.used| == m.total
  {
    assert m.free + multiset(m.used) == Iota(4, m.total);
    MultisetOfSetSize(m.used);
  }

  // ----- the classes -----

  class Inode {
    var inum: nat
    var isDir: bool
    var size: nat
    var children: map<nat, Dentry>
    var blockInfoList: seq<BlockInfo>

    ghost function State(): InodeState
      reads this
    {
      InodeState(inum, isDir, size, children, blockInfoList)
    }

    constructor (isDir: bool, inum: nat)
      ensures State() == NewInode(isDir, inum)
    {
      this.inum, this.isDir, size, children, blockInfoList := inum, isDir, 0, map[], [];
    }

    /** An existing entry with the same hash stays as it is. */
    method AddDentry(name: FileName, inum: nat) returns (added: bool)
      modifies this
      ensures added == (name.hash !in old(children))
      ensures State() == if added
                         then old(State()).(children := old(children)[name.hash := Dentry(name.text, name.hash, inum)])
                         else old(State())
    {
      if name.hash in children {
        return false;
      }
      children := children[name.hash := Dentry(name.text, name.hash, inum)];
      return true;
    }

    method DeleteDentry(name: FileName) returns (deleted: bool)
      modifies this
      ensures deleted == (name.hash in old(children))
      ensures State() == old(State()).(children := old(children) - {name.hash})
    {
      if name.hash !in children {
        assert children - {name.hash} == children;
        return false;
      }
      children := children - {name.hash};
      return true;
    }

    method ChangeFileBlockInfoLength(index: nat, length: nat)
      requires index < |blockInfoList|
      modifies this
      ensures State() == old(State()).(blocks := old(blockInfoList)[index := old(blockInfoList)[index].(length := length)])
    {
      blockInfoList := blockInfoList[index := blockInfoList[index].(length := length)];
    }

    method AppendFileBlockInfo(serverId: nat, startAddr: nat, length: nat, blockNr: nat)
      modifies this
      ensures State() == old(State()).(blocks := old(blockInfoList) + [BlockInfo(serverId, startAddr, length, blockNr)])
    {
      blockInfoList := blockInfoList + [BlockInfo(serverId, startAddr, length, blockNr)];
    }

    method SetSize(size: nat)
      modifies this
      ensures State() == old(State()).(size := size)
    {
      this.size := size;
    }
  }

  ghost function InodeStates(table: map<nat, Inode>): (r: map<nat, InodeState>)
    reads table.Values
    ensures r.Keys == table.Keys
  {
    map i | i in table :: table[i].State()
  }

  /** No two inode numbers share an inode object. */
  ghost predicate Separate(table: map<nat, Inode>) {
    forall i, j :: i in table && j in table && table[i] == table[j] ==> i == j
  }

  class InodeTable {
    var totalSize: nat
    var curSize: nat
    var table: map<nat, Inode>
    var freeList: multiset<nat>

    ghost function State(): Table
      reads this, table.Values
    {
      Table(InodeStates(table), freeList, curSize, totalSize)
    }

    constructor (size: nat)
      ensures State() == NewTable(size) && Separate(table)
      ensures fresh(table.Values)
    {
      var root := new Inode(true, ROOT_INUM);
      totalSize, curSize := size, 1;
      freeList := Iota(1, size);
      table := map[ROOT_INUM := root];
    }

    method AllocateFreeInode(isDir: bool) returns (inum: nat)
      requires Separate(table) && CanAllocate(State())
      modifies this
      ensures (State(), inum) == IssueInode(old(State()), isDir)
      ensures Separate(table) && freeList <= old(freeList)
      ensures if old(curSize) == old(totalSize) then table == old(table)
              else inum in old(freeList) && inum in table && fresh(table[inum]) && table == old(table)[inum := table[inum]]
    {
      if curSize == totalSize {
        return totalSize + 1;
      }
      inum := Top(freeList);
      freeList := Pop(freeList);
      curSize := curSize + 1;
      var inode := new Inode(isDir, inum);
      table := table[inum := inode];
      assert InodeStates(table) == old(InodeStates(table))[inum := NewInode(isDir, inum)];
    }

    method DeleteInode(inum: nat) returns (deleted: bool)
      requires Separate(table)
      modifies this
      ensures (State(), deleted) == EraseInode(old(State()), inum)
      ensures table == old(table) - {inum} && Separate(table)
    {
      if inum !in table {
        assert table - {inum} == table;
        return false;
      }
      table := table - {inum};
      assert InodeStates(table) == old(InodeStates(table)) - {inum};
      freeList := Push(freeList, inum);
      curSize := Decrement(curSize);
      return true;
    }
  }

  class FileMap {
    var totalSize: nat
    var fdUsedSet: set<nat>
    var fdFreeList: multiset<nat>

    ghost function State(): Fds
      reads this
    {
      Fds(fdFreeList, fdUsedSet, totalSize)
    }

    constructor (size: nat)
      ensures State() == NewFds(size)
    {
      totalSize, fdUsedSet, fdFreeList := size, {}, Iota(4, size);
    }

    method AllocateFD() returns (fd: int)
      modifies this
      ensures (State(), fd) == IssueFD(old(State()))
    {
      if |fdFreeList| == 0 {
        return -1;
      }
      fd := Top(fdFreeList);
      fdUsedSet := fdUsedSet + {Top(fdFreeList)};
      fdFreeList := Pop(fdFreeList);
    }

    method ReclaimFD(fd: nat) returns (success: bool)
      modifies this
      ensures (State(), success) == ReturnFD(old(State()), fd)
    {
      if fd !in fdUsedSet {
        return false;
      }
      fdUsedSet := fdUsedSet - {fd};
      fdFreeList := Push(fdFreeList, fd);
      return true;
    }
  }
}
