/** src/client/Client.cpp: the client's read and write, which apply an extent list to user memory. */
module Clients {
  import opened Blocks
  import opened SpaceManagers
  import opened Files
  import opened Extents
  import opened MetaServer
  import opened Ownership
  import opened Storage
  import opened Cluster
  import opened RdmaSockets

  /** No extent is long enough to be split over workers or to need a second bounce buffer. */
  ghost predicate ShortExtents(extents: seq<Extent>) {
    forall k :: 0 <= k < |extents| ==> extents[k].length <= FILE_BLOCK_SIZE
  }

  /** Every extent of a reply is transferred whole by a single worker in at most one chunk. */
  lemma ExtentsTakeOneChunk(blocks: seq<BlockInfo>, off: nat, len: nat, workers: nat)
    requires InFile(blocks, off, len) && 1 <= workers <= MAX_TASKS
    ensures ShortExtents(ExtentList(blocks, off, len))
    ensures forall e :: e in ExtentList(blocks, off, len) ==>
              e.length < SMALL_LIMIT && e.length <= POOL_SIZE && Transferred(e.length, workers) == e.length
  {
    ExtentListTranslates(blocks, off, len);
  }

  lemma RestFits(mem: Memory, extents: seq<Extent>, i: nat, buf: seq<byte>, shifted: bool)
    requires i < |extents| && AllFit(mem, extents[i..], |buf|, shifted)
    ensures Fits(mem, extents[i], |buf|, shifted)
    ensures AllFit(StoreOne(mem, extents[i], buf, shifted), extents[i + 1..], |buf|, shifted)
    ensures AllFit(mem, extents[i + 1..], |buf|, shifted)
    ensures StoreAll(mem, extents[i..], buf, shifted)
            == StoreAll(StoreOne(mem, extents[i], buf, shifted), extents[i + 1..], buf, shifted)
    ensures LoadAll(mem, extents[i..], buf, shifted)
            == LoadAll(mem, extents[i + 1..], LoadOne(mem, extents[i], buf, shifted), shifted)
  {
    var e, rest := extents[i], extents[i + 1..];
    assert extents[i..] == [e] + rest;
    assert extents[i..][0] == e;
    assert Fits(mem, e, |buf|, shifted);
    assert AllFit(mem, rest, |buf|, shifted) by {
      forall k | 0 <= k < |rest| ensures Fits(mem, rest[k], |buf|, shifted) {
        assert rest[k] == extents[i..][k + 1];
      }
    }
    FirstThenRest(mem, e, rest, buf, shifted);
  }

  lemma NoneLeft(mem: Memory, extents: seq<Extent>, buf: seq<byte>, shifted: bool)
    requires extents == []
    ensures AllFit(mem, extents, |buf|, shifted)
    ensures StoreAll(mem, extents, buf, shifted) == mem && LoadAll(mem, extents, buf, shifted) == buf
  {
  }

  /** The extents of a write fit the memory the client writes to, with and without the shift. */
  lemma WriteFits(sys: System, name: FileName, off: nat, len: nat, rolls: seq<nat>, shifted: bool)
    requires SysInv(sys) && CanWrite(sys.meta, name, off, len, rolls)
    ensures var extents := WriteEffect(sys.meta, name, off, len, rolls).1;
            AllFit(sys.mem, extents, len, shifted) && ShortExtents(extents)
  {
    var found, grown := WritePhases(sys, name, off, len, rolls);
    FirstPhases(sys, found, grown, name, off, len, rolls);
    WriteSteps(sys.meta, name, off, len, rolls);
    BlocksInMemory(grown, InumOf(grown.meta, name));
    ExtentListFits(sys.mem, InodeOf(grown.meta, name).blocks, off, len, len, shifted);
    ExtentsTakeOneChunk(InodeOf(grown.meta, name).blocks, off, len, 1);
  }

  lemma ReadFits(sys: System, name: FileName, off: nat, len: nat, room: nat, shifted: bool)
    requires SysInv(sys) && CanRead(sys.meta, name, off, len) && len <= room
    ensures var extents := ReadReply(sys.meta, name, off, len).0;
            AllFit(sys.mem, extents, room, shifted) && ShortExtents(extents)
  {
    var inode := InodeOf(sys.meta, name);
    BlocksInMemory(sys, InumOf(sys.meta, name));
    ReplyIsClipped(sys.meta, name, off, len);
    ExtentListFits(sys.mem, inode.blocks, off, Clipped(off, len, inode.size), room, shifted);
    ExtentsTakeOneChunk(inode.blocks, off, Clipped(off, len, inode.size), 1);
  }

  lemma WriteIsNext(sys: System, name: FileName, off: nat, data: seq<byte>, rolls: seq<nat>, shifted: bool, sys': System, n: nat)
    requires SysInv(sys) && CanWrite(sys.meta, name, off, |data|, rolls)
    requires var (meta, extents, k) := WriteEffect(sys.meta, name, off, |data|, rolls);
             && AllFit(sys.mem, extents, |data|, shifted) && k == n
             && sys' == System(meta, StoreAll(sys.mem, extents, data, shifted))
    ensures Next(sys, Op.Write(name, off, data, rolls), shifted, sys', Count(n))
  {
  }

  lemma ReadIsNext(sys: System, name: FileName, off: nat, len: nat, buf: seq<byte>, shifted: bool, got: seq<byte>, n: nat)
    requires SysInv(sys) && CanRead(sys.meta, name, off, len) && len <= |buf|
    requires var (extents, k) := ReadReply(sys.meta, name, off, len);
             && AllFit(sys.mem, extents, |buf|, shifted) && k == n
             && got == LoadAll(sys.mem, extents, buf, shifted)
    ensures Next(sys, Op.Read(name, off, len, buf), shifted, sys, Contents(got, n))
  {
  }

  class Client {
    const metaClient: MetadataService
    const rdmaSocket: RdmaSocket

    constructor (metaClient: MetadataService, rdmaSocket: RdmaSocket)
      ensures this.metaClient == metaClient && this.rdmaSocket == rdmaSocket
    {
      this.metaClient, this.rdmaSocket := metaClient, rdmaSocket;
    }

    ghost function Sys(): System
      reads metaClient, metaClient.inodeTable, metaClient.inodeTable.table.Values, metaClient.spaceManager.Values
      reads rdmaSocket
    {
      System(metaClient.State(), rdmaSocket.remote)
    }

    /** Send the piece of the buffer that belongs to one extent. */
    method SendExtent(block: Extent, userBuf: array<byte>, length: nat, shifted: bool)
      requires rdmaSocket.Valid() && userBuf != rdmaSocket.region && length <= userBuf.Length
      requires Fits(rdmaSocket.remote, block, length, shifted) && block.length <= FILE_BLOCK_SIZE
      modifies rdmaSocket, rdmaSocket.region
      ensures rdmaSocket.Valid()
      ensures rdmaSocket.remote == StoreOne(old(rdmaSocket.remote), block, userBuf[..length], shifted)
      ensures rdmaSocket.completions == old(rdmaSocket.completions) + if block.length == 0 then 0 else 1
    {
      var from := BufferPos(block, shifted);
      ChunkOfPrefix(userBuf[..], length, from, block.length);
      rdmaSocket.RemoteWrite(userBuf, from, block.serverId, block.memOffset, block.length);
    }

    /** Send the buffer's pieces to the extents in turn. */
    method SendExtents(extents: seq<Extent>, userBuf: array<byte>, length: nat, shifted: bool)
      requires rdmaSocket.Valid() && userBuf != rdmaSocket.region && length <= userBuf.Length
      requires AllFit(rdmaSocket.remote, extents, length, shifted) && ShortExtents(extents)
      modifies rdmaSocket, rdmaSocket.region
      ensures rdmaSocket.Valid()
      ensures rdmaSocket.remote == StoreAll(old(rdmaSocket.remote), extents, userBuf[..length], shifted)
    {
      hide StoreAll;
      hide StoreOne;
      hide LoadAll;
      hide AllFit;
      hide Fits;
      ghost var data, start := userBuf[..length], rdmaSocket.remote;
      assert extents[0..] == extents;
      for i := 0 to |extents|
        invariant rdmaSocket.Valid()
        invariant AllFit(rdmaSocket.remote, extents[i..], length, shifted)
        invariant StoreAll(rdmaSocket.remote, extents[i..], data, shifted) == StoreAll(start, extents, data, shifted)
      {
        RestFits(rdmaSocket.remote, extents, i, data, shifted);
        SendExtent(extents[i], userBuf, length, shifted);
      }
      NoneLeft(rdmaSocket.remote, extents[|extents|..], data, shifted);
    }

    /** Receive the extents into the buffer in turn. */
    method ReceiveExtents(extents: seq<Extent>, userBuf: array<byte>, shifted: bool)
      requires rdmaSocket.Valid() && userBuf != rdmaSocket.region
      requires AllFit(rdmaSocket.remote, extents, userBuf.Length, shifted) && ShortExtents(extents)
      modifies rdmaSocket`transferSignal, rdmaSocket`completions, rdmaSocket.region, userBuf
      ensures rdmaSocket.Valid()
      ensures userBuf[..] == LoadAll(rdmaSocket.remote, extents, old(userBuf[..]), shifted)
    {
      hide StoreAll;
      hide LoadAll;
      ghost var start := userBuf[..];
      assert extents[0..] == extents;
      for i := 0 to |extents|
        invariant rdmaSocket.Valid()
        invariant AllFit(rdmaSocket.remote, extents[i..], userBuf.Length, shifted)
        invariant LoadAll(rdmaSocket.remote, extents[i..], userBuf[..], shifted)
                  == LoadAll(rdmaSocket.remote, extents, start, shifted)
      {
        RestFits(rdmaSocket.remote, extents, i, userBuf[..], shifted);
        var block := extents[i];
        rdmaSocket.RemoteRead(userBuf, BufferPos(block, shifted), block.serverId, block.memOffset, block.length);
      }
      NoneLeft(rdmaSocket.remote, extents[|extents|..], userBuf[..], shifted);
    }

    /** A request to the metadata server touches neither the buffers nor the storage servers. */
    method RequestWrite(name: FileName, userBuf: array<byte>, offset: nat, length: nat, rolls: seq<nat>)
      returns (extents: seq<Extent>, bytesWrite: nat)
      requires metaClient.Valid() && rdmaSocket.Valid() && CanWrite(metaClient.State(), name, offset, length, rolls)
      modifies metaClient.Repr()
      ensures metaClient.Valid() && rdmaSocket.Valid() && rdmaSocket.remote == old(rdmaSocket.remote)
      ensures userBuf[..] == old(userBuf[..])
      ensures (metaClient.State(), extents, bytesWrite) == WriteEffect(old(metaClient.State()), name, offset, length, rolls)
    {
      assert rdmaSocket !in metaClient.Repr() && userBuf !in metaClient.Repr();
      hide *;
      extents, bytesWrite := metaClient.WriteFile(name, offset, length, rolls);
    }

    /** A transfer does not touch the metadata server. */
    method Send(extents: seq<Extent>, userBuf: array<byte>, length: nat, shifted: bool)
      requires metaClient.Valid() && rdmaSocket.Valid() && userBuf != rdmaSocket.region && length <= userBuf.Length
      requires AllFit(rdmaSocket.remote, extents, length, shifted) && ShortExtents(extents)
      modifies rdmaSocket, rdmaSocket.region
      ensures metaClient.Valid() && rdmaSocket.Valid()
      ensures Sys() == System(old(metaClient.State()), StoreAll(old(rdmaSocket.remote), extents, userBuf[..length], shifted))
    {
      hide StoreAll;
      hide AllFit;
      hide ShortExtents;
      SendExtents(extents, userBuf, length, shifted);
    }

    method Receive(extents: seq<Extent>, userBuf: array<byte>, shifted: bool)
      requires metaClient.Valid() && rdmaSocket.Valid() && userBuf != rdmaSocket.region
      requires AllFit(rdmaSocket.remote, extents, userBuf.Length, shifted) && ShortExtents(extents)
      modifies rdmaSocket`transferSignal, rdmaSocket`completions, rdmaSocket.region, userBuf
      ensures metaClient.Valid() && rdmaSocket.Valid() && Sys() == old(Sys())
      ensures userBuf[..] == LoadAll(old(rdmaSocket.remote), extents, old(userBuf[..]), shifted)
    {
      hide LoadAll;
      hide AllFit;
      hide ShortExtents;
      ReceiveExtents(extents, userBuf, shifted);
    }

    /** The repository's client is the one with `shifted == false`. */
    method Write(name: FileName, userBuf: array<byte>, offset: nat, length: nat, rolls: seq<nat>, shifted: bool)
      returns (bytesWrite: nat)
      requires metaClient.Valid() && rdmaSocket.Valid() && userBuf != rdmaSocket.region && length <= userBuf.Length
      requires SysInv(Sys()) && CanWrite(metaClient.State(), name, offset, length, rolls)
      modifies metaClient.Repr(), rdmaSocket, rdmaSocket.region
      ensures metaClient.Valid() && rdmaSocket.Valid()
      ensures Next(old(Sys()), Op.Write(name, offset, old(userBuf[..length]), rolls), shifted, Sys(), Count(bytesWrite))
    {
      hide Inv;
      hide CanWrite;
      hide WriteEffect;
      hide StoreAll;
      hide AllFit;
      hide ShortExtents;
      hide Next;
      ghost var sys, data := Sys(), userBuf[..length];
      WriteFits(sys, name, offset, length, rolls, shifted);
      var extents, n := RequestWrite(name, userBuf, offset, length, rolls);
      bytesWrite := n;
      Send(extents, userBuf, length, shifted);
      WriteIsNext(sys, name, offset, data, rolls, shifted, Sys(), n);
    }

    method Read(name: FileName, userBuf: array<byte>, offset: nat, length: nat, shifted: bool) returns (bytesRead: nat)
      requires metaClient.Valid() && rdmaSocket.Valid() && userBuf != rdmaSocket.region && length <= userBuf.Length
      requires SysInv(Sys()) && CanRead(metaClient.State(), name, offset, length)
      modifies rdmaSocket`transferSignal, rdmaSocket`completions, rdmaSocket.region, userBuf
      ensures metaClient.Valid() && rdmaSocket.Valid()
      ensures Next(old(Sys()), Op.Read(name, offset, length, old(userBuf[..])), shifted, Sys(), Contents(userBuf[..], bytesRead))
    {
      hide Inv;
      hide CanRead;
      hide ReadReply;
      hide LoadAll;
      hide AllFit;
      hide ShortExtents;
      hide Next;
      ghost var sys, buf := Sys(), userBuf[..];
      ReadFits(sys, name, offset, length, userBuf.Length, shifted);
      var extents, n := metaClient.ReadFile(name, offset, length);
      bytesRead := n;
      Receive(extents, userBuf, shifted);
      ReadIsNext(sys, name, offset, length, buf, shifted, userBuf[..], n);
    }
  }

  lemma ChunkOfPrefix(s: seq<byte>, length: nat, from: nat, n: nat)
    requires from + n <= length <= |s|
    ensures s[..length][from..from + n] == s[from..from + n]
  {
  }
}
