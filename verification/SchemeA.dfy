/** The in-process path of src/: an LBA range becomes a registered address, the
    transport turns it back into memory, and the whole is a plain block store. */
module SchemeA {
  import opened Common
  import opened RangeMap

  const MOCK_IOVA_BASE: nat := 0x1_0000_0000
  const MOCK_LKEY: nat := 0x51A7_0001

  const TARGET_IO_READ: nat := 1
  const TARGET_IO_WRITE: nat := 2

  // -------------------------------------------------------------- addresses

  /** struct rdma_local_sge. */
  datatype Sge = Sge(addr: nat, lkey: nat, length: nat)

  /** rdma_ramdisk_map_lba, the part the transport sees. */
  function MapLba(size: nat, bs: nat, iova: nat, lkey: nat, lba: nat, count: nat): (int, Sge)
    requires bs > 0
  {
    match CheckedIoRange(size, bs, lba, count)
    case Refused(rc) => (rc, Sge(0, 0, 0))
    case Range(off, len) => (0, Sge(Add64(iova, off), lkey, len))
  }

  lemma MapLbaIs(size: nat, bs: nat, iova: nat, lkey: nat, lba: nat, count: nat)
    requires bs > 0 && size < TWO64
    ensures var m := MapLba(size, bs, iova, lkey, lba, count); var r := CheckedIoRange(size, bs, lba, count);
            if r.Refused? then m.0 == r.rc != 0 else m.0 == 0 && m.1.length == r.len == count * bs
  {
    RangeIsExact(size, bs, lba, count);
  }

  datatype Place = NoPlace(rc: int) | At(off: nat)

  /** local_sge_to_ptr, as an offset into the registered memory. */
  function LocalSgeToPtr(length: nat, iova: nat, lkey: nat, sge: Sge): Place
  {
    if sge.lkey != lkey || sge.addr < iova then NoPlace(-EINVAL)
    else
      var off := sge.addr - iova;
      if off > length || sge.length > length - off then NoPlace(-ERANGE) else At(off)
  }

  /** remote_region_to_ptr. */
  function RemoteToPtr(length: nat, addr: nat, len: nat): Place
  {
    if addr > length || len > length - addr then NoPlace(-ERANGE) else At(addr)
  }

  /** The transport undoes the mapping exactly when the address did not wrap. */
  lemma TranslationUndoesMapping(size: nat, bs: nat, iova: nat, lkey: nat, lba: nat, count: nat)
    requires bs > 0 && size < TWO64 && iova < TWO64 && Inside(size, bs, lba, count)
    ensures var m := MapLba(size, bs, iova, lkey, lba, count);
            && m.0 == 0 && m.1.length == count * bs && m.1.addr == (iova + lba * bs) % TWO64 && m.1.lkey == lkey
            && (LocalSgeToPtr(size, iova, lkey, m.1) == At(lba * bs) <==> iova + lba * bs < TWO64)
            && (iova + lba * bs >= TWO64 ==> LocalSgeToPtr(size, iova, lkey, m.1) == NoPlace(-EINVAL))
  {
    RangeIsExact(size, bs, lba, count);
    var off := lba * bs;
    if iova + off >= TWO64 {
      assert Add64(iova, off) == iova + off - TWO64;
    }
  }

  // ------------------------------------------------------- what a request does

  /** struct target_io_request. */
  datatype Io = Io(dir: nat, lba: nat, count: nat, remoteAddr: nat, remoteLen: nat)

  /** The memories of disk and initiator. */
  datatype World = World(disk: seq<Byte>, remote: seq<Byte>)

  /** target_session_submit_io and mock_submit, the disk registered at `iova`. */
  function SubmitRc(w: World, bs: nat, iova: nat, session: bool, link: bool, io: Io): int
    requires bs > 0
  {
    if !session then -EINVAL
    else
      match CheckedIoRange(|w.disk|, bs, io.lba, io.count)
      case Refused(rc) => rc
      case Range(off, len) =>
        if io.remoteLen < len then -ERANGE
        else if io.dir != TARGET_IO_READ && io.dir != TARGET_IO_WRITE then -EINVAL
        else if !link then -EINVAL
        else if Add64(iova, off) < iova then -EINVAL
        else if len > |w.remote| || io.remoteAddr > |w.remote| - len then -ERANGE
        else 0
  }

  /** The copy of a request that succeeds. */
  function Transfer(w: World, bs: nat, io: Io): World
    requires io.lba * bs + io.count * bs <= |w.disk| && io.remoteAddr + io.count * bs <= |w.remote|
  {
    Moved(w, io.dir == TARGET_IO_READ, io.lba * bs, io.remoteAddr, io.count * bs)
  }

  /** A request succeeds exactly when session and link are up, its blocks are on the disk,
      its direction is one of the two, its address does not wrap, and both the region it
      names and the remote memory have room for it; else the first of these that fails
      is the answer. */
  lemma SubmitIff(w: World, bs: nat, iova: nat, session: bool, link: bool, io: Io)
    requires bs > 0 && |w.disk| < TWO64 && iova < TWO64
    ensures var rc := SubmitRc(w, bs, iova, session, link, io);
            && (rc == 0 <==>
                  && session && link && io.count > 0 && (io.lba + io.count) * bs <= |w.disk|
                  && io.remoteLen >= io.count * bs && (io.dir == TARGET_IO_READ || io.dir == TARGET_IO_WRITE)
                  && iova + io.lba * bs < TWO64 && io.remoteAddr + io.count * bs <= |w.remote|)
            && rc == if !session || io.count == 0 then -EINVAL
                     else if io.lba * bs >= TWO64 || io.count * bs >= TWO64 then -EOVERFLOW
                     else if (io.lba + io.count) * bs > |w.disk| then -ERANGE
                     else if io.remoteLen < io.count * bs then -ERANGE
                     else if io.dir != TARGET_IO_READ && io.dir != TARGET_IO_WRITE then -EINVAL
                     else if !link || iova + io.lba * bs >= TWO64 then -EINVAL
                     else if io.remoteAddr + io.count * bs > |w.remote| then -ERANGE
                     else 0
  {
    RangeIsExact(|w.disk|, bs, io.lba, io.count);
    var off, len := io.lba * bs, io.count * bs;
    assert (io.lba + io.count) * bs == off + len;
    AddressWraps(iova, off);
  }

  lemma AddressWraps(iova: nat, off: nat)
    requires iova < TWO64
    ensures off < TWO64 ==> (Add64(iova, off) < iova <==> iova + off >= TWO64)
  {
    if off < TWO64 && iova + off >= TWO64 {
      assert Add64(iova, off) == iova + off - TWO64;
    }
  }

  /** The transport succeeds exactly when it is connected, both lengths agree, the key is
      the registered one, and both address ranges lie inside their memories. */
  lemma TransportIff(local: nat, remote: nat, connected: bool, iova: nat, lkey: nat, sge: Sge, addr: nat, length: nat)
    ensures var rc := TransportRc(local, remote, connected, iova, lkey, sge, addr, length);
            && (rc == 0 <==>
                  && connected && sge.length == length && sge.lkey == lkey
                  && iova <= sge.addr && sge.addr + length <= iova + local && addr + length <= remote)
            && rc == if !connected || sge.length != length || sge.lkey != lkey || sge.addr < iova then -EINVAL
                     else if sge.addr + length > iova + local then -ERANGE
                     else if addr + length > remote then -ERANGE
                     else 0
  {
  }

  lemma AcceptedFits(w: World, bs: nat, iova: nat, session: bool, link: bool, io: Io)
    requires bs > 0 && |w.disk| < TWO64 && SubmitRc(w, bs, iova, session, link, io) == 0
    ensures Inside(|w.disk|, bs, io.lba, io.count)
    ensures io.lba * bs + io.count * bs <= |w.disk| && io.remoteAddr + io.count * bs <= |w.remote|
    ensures io.dir == TARGET_IO_READ || io.dir == TARGET_IO_WRITE
  {
    RangeIsExact(|w.disk|, bs, io.lba, io.count);
    assert (io.lba + io.count) * bs == io.lba * bs + io.count * bs;
  }

  // -------------------------------------------------------------------- the code

  method CopyBytes(dst: array<Byte>, to: nat, src: array<Byte>, from: nat, len: nat)
    requires dst != src && to + len <= dst.Length && from + len <= src.Length
    modifies dst
    ensures dst[..] == Overwrite(old(dst[..]), to, src[..][from..from + len])
  {
    var i := 0;
    while i < len
      invariant 0 <= i <= len
      invariant dst[..] == Overwrite(old(dst[..]), to, src[..][from..from + i])
    {
      dst[to + i] := src[from + i];
      i := i + 1;
    }
  }

  /** Copy between the registered memory at `off` and the remote one at `addr`. */
  function Moved(w: World, toRemote: bool, off: nat, addr: nat, length: nat): World
    requires off + length <= |w.disk| && addr + length <= |w.remote|
  {
    if toRemote then w.(remote := Overwrite(w.remote, addr, w.disk[off..off + length]))
    else w.(disk := Overwrite(w.disk, off, w.remote[addr..addr + length]))
  }

  /** The answer of mock_submit. */
  function TransportRc(
    local: nat, remote: nat, connected: bool, iova: nat, lkey: nat, sge: Sge, addr: nat, length: nat): int
  {
    if !connected || sge.length != length then -EINVAL
    else if LocalSgeToPtr(local, iova, lkey, sge).NoPlace? then LocalSgeToPtr(local, iova, lkey, sge).rc
    else if RemoteToPtr(remote, addr, length).NoPlace? then -ERANGE
    else 0
  }

  /** A request that passes the session's own checks gets the transport's answer, and
      the transport works on the blocks it names. */
  lemma SubmitIsTransport(w: World, bs: nat, iova: nat, lkey: nat, link: bool, io: Io)
    requires bs > 0 && |w.disk| < TWO64 && iova < TWO64
    requires CheckedIoRange(|w.disk|, bs, io.lba, io.count).Range? && io.remoteLen >= io.count * bs
    requires io.dir == TARGET_IO_READ || io.dir == TARGET_IO_WRITE
    ensures var sge := MapLba(|w.disk|, bs, iova, lkey, io.lba, io.count).1;
            var rc := TransportRc(|w.disk|, |w.remote|, link, iova, lkey, sge, io.remoteAddr, sge.length);
            && sge.length == io.count * bs
            && rc == SubmitRc(w, bs, iova, true, link, io)
            && (rc == 0 ==> sge.addr - iova == io.lba * bs)
  {
    RangeIsExact(|w.disk|, bs, io.lba, io.count);
    TranslationUndoesMapping(|w.disk|, bs, iova, lkey, io.lba, io.count);
  }

  /** struct mock_rdma_context: one registration, replaced by the next. */
  class MockRdma {
    const remote: array<Byte>
    var connected: bool
    var registered: array?<Byte>
    var iova: nat
    var lkey: nat
    var submits: nat

    constructor (remote: array<Byte>)
      ensures this.remote == remote && !connected && registered == null && submits == 0
    {
      this.remote := remote;
      connected, registered, iova, lkey, submits := false, null, 0, 0, 0;
    }

    method RegisterMr(addr: array<Byte>) returns (rc: int)
      modifies this
      ensures rc == if addr.Length == 0 then -EINVAL else 0
      ensures rc == 0 ==> registered == addr && iova == MOCK_IOVA_BASE && lkey == MOCK_LKEY
      ensures rc != 0 ==> registered == old(registered) && iova == old(iova) && lkey == old(lkey)
      ensures connected == old(connected) && submits == old(submits)
    {
      if addr.Length == 0 {
        return -EINVAL;
      }
      registered, iova, lkey := addr, MOCK_IOVA_BASE, MOCK_LKEY;
      rc := 0;
    }

    ghost function Memories(): World
      requires registered != null
      reads this, remote, registered
    {
      World(registered[..], remote[..])
    }

    /** mock_submit: both addresses are translated before a byte moves. */
    method Submit(toRemote: bool, sge: Sge, addr: nat, length: nat) returns (rc: int)
      requires registered != null && registered != remote
      modifies this`submits, remote, registered
      ensures rc == TransportRc(registered.Length, remote.Length, connected, iova, lkey, sge, addr, length)
      ensures rc != 0 ==> Memories() == old(Memories())
      ensures rc == 0 ==>
                && iova <= sge.addr && sge.addr - iova + length <= registered.Length && addr + length <= remote.Length
                && Memories() == Moved(old(Memories()), toRemote, sge.addr - iova, addr, length)
      ensures submits == old(submits) + if rc == 0 then 1 else 0
    {
      if !connected || sge.length != length {
        return -EINVAL;
      }
      var place := LocalSgeToPtr(registered.Length, iova, lkey, sge);
      if place.NoPlace? {
        return place.rc;
      }
      var there := RemoteToPtr(remote.Length, addr, length);
      if there.NoPlace? {
        return there.rc;
      }
      if toRemote {
        CopyBytes(remote, addr, registered, place.off, length);
      } else {
        CopyBytes(registered, place.off, remote, addr, length);
      }
      submits := submits + 1;
      rc := 0;
    }
  }

  class RdmaRamdisk {
    const base: array<Byte>
    const blockSize: nat
    const ctx: MockRdma
    var iova: nat
    var lkey: nat

    ghost predicate Valid()
      reads this, ctx
    {
      && blockSize > 0 && base.Length < TWO64
      && ctx.registered == base && ctx.remote != base && ctx.iova == iova && ctx.lkey == lkey && iova < TWO64
    }

    /** rdma_ramdisk_create, the memory being available: zeroed and registered. */
    constructor (size: nat, blockSize: nat, ctx: MockRdma)
      requires 0 < size < TWO64 && blockSize > 0 && size % blockSize == 0
      modifies ctx
      ensures Valid() && fresh(base) && base[..] == Zeros(size)
      ensures this.blockSize == blockSize && this.ctx == ctx && iova == MOCK_IOVA_BASE
      ensures ctx.connected == old(ctx.connected)
    {
      this.base := new Byte[size](_ => 0);
      this.blockSize, this.ctx, this.iova, this.lkey := blockSize, ctx, 0, 0;
      new;
      var rc := ctx.RegisterMr(base);
      iova, lkey := ctx.iova, ctx.lkey;
    }

    /** rdma_ramdisk_fill. */
    method FillBlocks(lba: nat, count: nat, value: Byte) returns (rc: int)
      requires Valid()
      modifies base
      ensures rc == 0 <==> Inside(base.Length, blockSize, lba, count)
      ensures rc == 0 ==>
                forall i :: 0 <= i < base.Length ==>
                  base[i] == if lba * blockSize <= i < (lba + count) * blockSize then value else old(base[i])
      ensures rc != 0 ==> base[..] == old(base[..])
    {
      RangeIsExact(base.Length, blockSize, lba, count);
      var m := CheckedIoRange(base.Length, blockSize, lba, count);
      if m.Refused? {
        return m.rc;
      }
      assert m.off + m.len == (lba + count) * blockSize;
      var i := 0;
      while i < m.len
        invariant 0 <= i <= m.len
        invariant forall k :: 0 <= k < base.Length ==>
                    base[k] == if m.off <= k < m.off + i then value else old(base[k])
      {
        base[m.off + i] := value;
        i := i + 1;
      }
      rc := 0;
    }

    /** rdma_ramdisk_verify: 0 exactly when every byte of the range has the value. */
    method VerifyBlocks(lba: nat, count: nat, value: Byte) returns (rc: int)
      requires Valid()
      ensures rc == 0 <==>
                && Inside(base.Length, blockSize, lba, count)
                && forall i :: lba * blockSize <= i < (lba + count) * blockSize ==> base[i] == value
      ensures Inside(base.Length, blockSize, lba, count) && rc != 0 ==> rc == -EIO
    {
      RangeIsExact(base.Length, blockSize, lba, count);
      var m := CheckedIoRange(base.Length, blockSize, lba, count);
      if m.Refused? {
        return m.rc;
      }
      assert m.off + m.len == (lba + count) * blockSize;
      var i := 0;
      while i < m.len
        invariant 0 <= i <= m.len
        invariant forall k :: m.off <= k < m.off + i ==> base[k] == value
      {
        if base[m.off + i] != value {
          return -EIO;
        }
        i := i + 1;
      }
      rc := 0;
    }
  }

  /** rdma_ramdisk_create with its argument checks. */
  method CreateDisk(size: nat, blockSize: nat, ctx: MockRdma) returns (disk: RdmaRamdisk?)
    requires size < TWO64
    modifies ctx
    ensures disk == null <==> size == 0 || blockSize == 0 || size % blockSize != 0
    ensures disk == null ==> ctx.registered == old(ctx.registered) && ctx.iova == old(ctx.iova)
    ensures disk != null ==>
              disk.Valid() && fresh(disk) && disk.base[..] == Zeros(size) && disk.blockSize == blockSize
              && disk.ctx == ctx && disk.iova == MOCK_IOVA_BASE
  {
    if size == 0 || blockSize == 0 || size % blockSize != 0 {
      return null;
    }
    disk := new RdmaRamdisk(size, blockSize, ctx);
  }

  class TargetSession {
    const disk: RdmaRamdisk
    var connected: bool

    ghost function Memories(): World
      reads this, disk.base, disk.ctx.remote
    {
      World(disk.base[..], disk.ctx.remote[..])
    }

    constructor (disk: RdmaRamdisk)
      ensures this.disk == disk && !connected
    {
      this.disk, connected := disk, false;
    }

    method Connect(endpoint: string) returns (rc: int)
      modifies this, disk.ctx`connected
      ensures rc == if endpoint == "" then -EINVAL else 0
      ensures connected == (old(connected) || rc == 0)
      ensures disk.ctx.connected == (old(disk.ctx.connected) || rc == 0)
    {
      if endpoint == "" {
        return -EINVAL;
      }
      disk.ctx.connected := true;
      connected := true;
      rc := 0;
    }

    method Disconnect()
      modifies this, disk.ctx`connected
      ensures !connected && disk.ctx.connected == (old(disk.ctx.connected) && !old(connected))
    {
      if connected {
        disk.ctx.connected := false;
        connected := false;
      }
    }

    /** target_session_submit_io: what it returns, and what it does to both memories. */
    method SubmitIo(io: Io) returns (rc: int)
      requires disk.Valid()
      modifies disk.ctx`submits, disk.ctx.remote, disk.base
      ensures disk.Valid()
      ensures rc == SubmitRc(old(Memories()), disk.blockSize, disk.iova, connected, disk.ctx.connected, io)
      ensures rc != 0 ==> Memories() == old(Memories())
      ensures rc == 0 ==>
                && io.lba * disk.blockSize + io.count * disk.blockSize <= disk.base.Length
                && io.remoteAddr + io.count * disk.blockSize <= disk.ctx.remote.Length
                && Memories() == Transfer(old(Memories()), disk.blockSize, io)
    {
      if !connected {
        return -EINVAL;
      }
      MapLbaIs(disk.base.Length, disk.blockSize, disk.iova, disk.lkey, io.lba, io.count);
      var m := MapLba(disk.base.Length, disk.blockSize, disk.iova, disk.lkey, io.lba, io.count);
      if m.0 != 0 {
        return m.0;
      }
      if io.remoteLen < m.1.length {
        return -ERANGE;
      }
      if io.dir != TARGET_IO_READ && io.dir != TARGET_IO_WRITE {
        return -EINVAL;
      }
      SubmitIsTransport(Memories(), disk.blockSize, disk.iova, disk.lkey, disk.ctx.connected, io);
      rc := disk.ctx.Submit(io.dir == TARGET_IO_READ, m.1, io.remoteAddr, m.1.length);
    }
  }
}
