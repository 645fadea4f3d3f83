/** The path of src/ refines a block store: over any sequence of requests every
    block holds what the last successful write covering it put there. */
module BlockStore {
  import opened Common
  import opened RangeMap
  import opened SchemeA

  /** A request, or the initiator changing its own memory between requests. */
  datatype Step = Request(io: Io) | Initiator(memory: seq<Byte>)

  /** Setting of a session: block size, registered address, both connection flags. */
  datatype Setup = Setup(bs: nat, iova: nat, session: bool, link: bool)

  function Rc(u: Setup, w: World, io: Io): int
    requires u.bs > 0
  {
    SubmitRc(w, u.bs, u.iova, u.session, u.link, io)
  }

  function After(u: Setup, w: World, step: Step): World
    requires u.bs > 0 && |w.disk| < TWO64
  {
    match step
    case Initiator(memory) => if |memory| == |w.remote| then w.(remote := memory) else w
    case Request(io) =>
      if Rc(u, w, io) != 0 then w
      else
        AcceptedFits(w, u.bs, u.iova, u.session, u.link, io);
        Transfer(w, u.bs, io)
  }

  function Run(u: Setup, w: World, steps: seq<Step>): (r: World)
    requires u.bs > 0 && |w.disk| < TWO64
    ensures |r.disk| == |w.disk| && |r.remote| == |w.remote|
  {
    if steps == [] then w else After(u, Run(u, w, steps[..|steps| - 1]), steps[|steps| - 1])
  }

  // ------------------------------------------------------------ the block store

  predicate HasBlock(mem: seq<Byte>, bs: nat, b: nat)
  {
    b * bs + bs <= |mem|
  }

  function Block(mem: seq<Byte>, bs: nat, b: nat): seq<Byte>
    requires HasBlock(mem, bs, b)
  {
    mem[b * bs..b * bs + bs]
  }

  predicate Covers(io: Io, b: nat)
  {
    io.lba <= b < io.lba + io.count
  }

  /** The initiator's copy of block b of the request. */
  function Piece(remote: seq<Byte>, bs: nat, io: Io, b: nat): seq<Byte>
    requires Covers(io, b) && io.remoteAddr + io.count * bs <= |remote|
  {
    var at := io.remoteAddr + PieceAt(bs, io, b);
    remote[at..at + bs]
  }

  /** Where in the request's data block b lies. */
  function PieceAt(bs: nat, io: Io, b: nat): (at: nat)
    requires Covers(io, b)
    ensures at + bs <= io.count * bs
  {
    PieceFits(bs, io, b);
    b * bs - io.lba * bs
  }

  lemma PieceFits(bs: nat, io: Io, b: nat)
    requires Covers(io, b)
    ensures io.lba * bs <= b * bs && b * bs - io.lba * bs + bs <= io.count * bs
  {
    MulMono(io.lba, b, bs);
    MulMono(b + 1, io.lba + io.count, bs);
    assert (b + 1) * bs == b * bs + bs;
    assert (io.lba + io.count) * bs == io.lba * bs + io.count * bs;
  }

  /** Block b after the steps, by looking for the last successful write that covers
      it: what the initiator's memory held then, or the original contents. */
  function LastWritten(u: Setup, w: World, steps: seq<Step>, b: nat): seq<Byte>
    requires u.bs > 0 && |w.disk| < TWO64 && HasBlock(w.disk, u.bs, b)
  {
    if steps == [] then Block(w.disk, u.bs, b)
    else
      var m := Run(u, w, steps[..|steps| - 1]);
      var last := steps[|steps| - 1];
      if last.Request? && last.io.dir == TARGET_IO_WRITE && Rc(u, m, last.io) == 0 && Covers(last.io, b) then
        AcceptedFits(m, u.bs, u.iova, u.session, u.link, last.io);
        Piece(m.remote, u.bs, last.io, b)
      else LastWritten(u, w, steps[..|steps| - 1], b)
  }

  // --------------------------------------------------------------------- proof

  lemma SameSlice(mem: seq<Byte>, from: nat, len: nat, at: nat, n: nat)
    requires from + len <= |mem| && at + n <= len
    ensures mem[from..from + len][at..at + n] == mem[from + at..from + at + n]
  {
    var a, c := mem[from..from + len][at..at + n], mem[from + at..from + at + n];
    assert forall i :: 0 <= i < n ==> a[i] == c[i];
  }

  lemma OverwriteInside(dst: seq<Byte>, off: nat, src: seq<Byte>, from: nat, len: nat, at: nat, n: nat)
    requires off + len <= |dst| && from + len <= |src| && at + n <= len
    ensures Overwrite(dst, off, src[from..from + len])[off + at..off + at + n] == src[from + at..from + at + n]
  {
    var r := Overwrite(dst, off, src[from..from + len]);
    SameSlice(r, off, len, at, n);
    SameSlice(src, from, len, at, n);
  }

  /** After a copy both sides hold the same bytes, those of the side it came from. */
  lemma MovedInside(w: World, toRemote: bool, off: nat, addr: nat, len: nat, at: nat, n: nat)
    requires off + len <= |w.disk| && addr + len <= |w.remote| && at + n <= len
    ensures var m := Moved(w, toRemote, off, addr, len);
            && |m.disk| == |w.disk| && |m.remote| == |w.remote|
            && m.disk[off + at..off + at + n] == m.remote[addr + at..addr + at + n]
            && (if toRemote then m.disk == w.disk else m.remote == w.remote)
  {
    if toRemote {
      OverwriteInside(w.remote, addr, w.disk, off, len, at, n);
    } else {
      OverwriteInside(w.disk, off, w.remote, addr, len, at, n);
    }
  }

  lemma OverwriteOutside(dst: seq<Byte>, off: nat, data: seq<Byte>, at: nat, n: nat)
    requires off + |data| <= |dst| && at + n <= |dst| && (at + n <= off || off + |data| <= at)
    ensures Overwrite(dst, off, data)[at..at + n] == dst[at..at + n]
  {
  }

  lemma NotCovered(bs: nat, io: Io, b: nat)
    requires !Covers(io, b)
    ensures b * bs + bs <= io.lba * bs || io.lba * bs + io.count * bs <= b * bs
  {
    if b < io.lba {
      MulMono(b + 1, io.lba, bs);
      assert (b + 1) * bs == b * bs + bs;
    } else {
      MulMono(io.lba + io.count, b, bs);
      assert (io.lba + io.count) * bs == io.lba * bs + io.count * bs;
    }
  }

  lemma BlockStored(w: World, bs: nat, io: Io, b: nat)
    requires HasBlock(w.disk, bs, b) && Covers(io, b)
    requires io.lba * bs + io.count * bs <= |w.disk| && io.remoteAddr + io.count * bs <= |w.remote|
    ensures Block(Moved(w, false, io.lba * bs, io.remoteAddr, io.count * bs).disk, bs, b) == Piece(w.remote, bs, io, b)
  {
    MovedInside(w, false, io.lba * bs, io.remoteAddr, io.count * bs, PieceAt(bs, io, b), bs);
  }

  lemma BlockSpared(w: World, bs: nat, io: Io, b: nat)
    requires HasBlock(w.disk, bs, b) && !Covers(io, b)
    requires io.lba * bs + io.count * bs <= |w.disk| && io.remoteAddr + io.count * bs <= |w.remote|
    ensures Block(Moved(w, false, io.lba * bs, io.remoteAddr, io.count * bs).disk, bs, b) == Block(w.disk, bs, b)
  {
    NotCovered(bs, io, b);
    OverwriteOutside(w.disk, io.lba * bs, w.remote[io.remoteAddr..io.remoteAddr + io.count * bs], b * bs, bs);
  }

  lemma BlockFetched(w: World, bs: nat, io: Io, b: nat)
    requires HasBlock(w.disk, bs, b) && Covers(io, b)
    requires io.lba * bs + io.count * bs <= |w.disk| && io.remoteAddr + io.count * bs <= |w.remote|
    ensures Piece(Moved(w, true, io.lba * bs, io.remoteAddr, io.count * bs).remote, bs, io, b) == Block(w.disk, bs, b)
  {
    MovedInside(w, true, io.lba * bs, io.remoteAddr, io.count * bs, PieceAt(bs, io, b), bs);
  }

  /** A successful request is one copy. */
  lemma AfterMoves(u: Setup, w: World, io: Io)
    requires u.bs > 0 && |w.disk| < TWO64 && Rc(u, w, io) == 0
    ensures io.lba * u.bs + io.count * u.bs <= |w.disk| && io.remoteAddr + io.count * u.bs <= |w.remote|
    ensures io.dir == TARGET_IO_READ || io.dir == TARGET_IO_WRITE
    ensures After(u, w, Request(io)) ==
            Moved(w, io.dir == TARGET_IO_READ, io.lba * u.bs, io.remoteAddr, io.count * u.bs)
  {
    AcceptedFits(w, u.bs, u.iova, u.session, u.link, io);
  }

  lemma StepBlock(u: Setup, w: World, io: Io, b: nat)
    requires u.bs > 0 && |w.disk| < TWO64 && HasBlock(w.disk, u.bs, b)
    requires Rc(u, w, io) == 0 && io.dir == TARGET_IO_WRITE
    ensures io.remoteAddr + io.count * u.bs <= |w.remote|
    ensures |After(u, w, Request(io)).disk| == |w.disk|
    ensures Block(After(u, w, Request(io)).disk, u.bs, b) ==
            if Covers(io, b) then Piece(w.remote, u.bs, io, b) else Block(w.disk, u.bs, b)
  {
    AfterMoves(u, w, io);
    if Covers(io, b) {
      BlockStored(w, u.bs, io, b);
    } else {
      BlockSpared(w, u.bs, io, b);
    }
  }

  /** Every block holds the data of the last successful write that covers it. */
  lemma {:induction false} DiskIsLastWritten(u: Setup, w: World, steps: seq<Step>, b: nat)
    requires u.bs > 0 && |w.disk| < TWO64 && HasBlock(w.disk, u.bs, b)
    ensures Block(Run(u, w, steps).disk, u.bs, b) == LastWritten(u, w, steps, b)
  {
    if steps != [] {
      var n := |steps| - 1;
      DiskIsLastWritten(u, w, steps[..n], b);
      var m := Run(u, w, steps[..n]);
      if steps[n].Request? && steps[n].io.dir == TARGET_IO_WRITE && Rc(u, m, steps[n].io) == 0 {
        StepBlock(u, m, steps[n].io, b);
      }
    }
  }

  lemma StepRead(u: Setup, w: World, io: Io, b: nat)
    requires u.bs > 0 && |w.disk| < TWO64 && HasBlock(w.disk, u.bs, b) && Covers(io, b)
    requires Rc(u, w, io) == 0 && io.dir == TARGET_IO_READ
    ensures io.remoteAddr + io.count * u.bs <= |w.remote|
    ensures |After(u, w, Request(io)).remote| == |w.remote|
    ensures Piece(After(u, w, Request(io)).remote, u.bs, io, b) == Block(w.disk, u.bs, b)
  {
    AfterMoves(u, w, io);
    BlockFetched(w, u.bs, io, b);
  }

  /** A successful read delivers exactly those blocks to the initiator's region. */
  lemma ReadDelivers(u: Setup, w: World, steps: seq<Step>, io: Io, b: nat)
    requires u.bs > 0 && |w.disk| < TWO64 && HasBlock(w.disk, u.bs, b) && Covers(io, b)
    requires Rc(u, Run(u, w, steps), io) == 0 && io.dir == TARGET_IO_READ
    ensures var r := After(u, Run(u, w, steps), Request(io)).remote;
            && io.remoteAddr + io.count * u.bs <= |r|
            && Piece(r, u.bs, io, b) == LastWritten(u, w, steps, b)
  {
    DiskIsLastWritten(u, w, steps, b);
    StepRead(u, Run(u, w, steps), io, b);
  }

  /** Nor does a successful request touch another byte of either memory. */
  lemma NothingElse(u: Setup, w: World, io: Io)
    requires u.bs > 0 && |w.disk| < TWO64 && Rc(u, w, io) == 0
    ensures var r := After(u, w, Request(io));
            var off, len := io.lba * u.bs, io.count * u.bs;
            && |r.disk| == |w.disk| && |r.remote| == |w.remote|
            && (io.dir == TARGET_IO_READ ==> r.disk == w.disk)
            && (io.dir == TARGET_IO_WRITE ==> r.remote == w.remote)
            && SameOutside(w.disk, r.disk, off, len) && SameOutside(w.remote, r.remote, io.remoteAddr, len)
  {
    AfterMoves(u, w, io);
    MovedOutside(w, io.dir == TARGET_IO_READ, io.lba * u.bs, io.remoteAddr, io.count * u.bs);
  }

  ghost predicate SameOutside(a: seq<Byte>, b: seq<Byte>, off: nat, len: nat)
  {
    |a| == |b| && forall i :: 0 <= i < |a| && !(off <= i < off + len) ==> b[i] == a[i]
  }

  lemma MovedOutside(w: World, toRemote: bool, off: nat, addr: nat, len: nat)
    requires off + len <= |w.disk| && addr + len <= |w.remote|
    ensures var r := Moved(w, toRemote, off, addr, len);
            && SameOutside(w.disk, r.disk, off, len) && SameOutside(w.remote, r.remote, addr, len)
            && (if toRemote then r.disk == w.disk else r.remote == w.remote)
  {
  }

  // ------------------------------------------------------------- failing requests

  /** The step was a request that was refused. */
  predicate Refused(u: Setup, w: World, step: Step)
    requires u.bs > 0
  {
    step.Request? && Rc(u, w, step.io) != 0
  }

  /** The steps without the requests that were refused. */
  function Successful(u: Setup, w: World, steps: seq<Step>): seq<Step>
    requires u.bs > 0 && |w.disk| < TWO64
  {
    if steps == [] then []
    else
      var n := |steps| - 1;
      var rest := Successful(u, w, steps[..n]);
      if Refused(u, Run(u, w, steps[..n]), steps[n]) then rest else rest + [steps[n]]
  }

  ghost predicate AllSucceed(u: Setup, w: World, steps: seq<Step>)
    requires u.bs > 0 && |w.disk| < TWO64
  {
    forall i :: 0 <= i < |steps| ==> !Refused(u, Run(u, w, steps[..i]), steps[i])
  }

  lemma SucceedSnoc(u: Setup, w: World, steps: seq<Step>, step: Step)
    requires u.bs > 0 && |w.disk| < TWO64
    requires AllSucceed(u, w, steps) && !Refused(u, Run(u, w, steps), step)
    ensures AllSucceed(u, w, steps + [step]) && Run(u, w, steps + [step]) == After(u, Run(u, w, steps), step)
  {
    assert (steps + [step])[..|steps|] == steps;
    forall i | 0 <= i < |steps| + 1
      ensures !Refused(u, Run(u, w, (steps + [step])[..i]), (steps + [step])[i])
    {
      if i < |steps| {
        assert (steps + [step])[..i] == steps[..i];
      }
    }
  }

  /** Refused requests might as well not have been made: without them both memories end
      the same, and every other request still succeeds. */
  lemma {:induction false} FailuresInvisible(u: Setup, w: World, steps: seq<Step>)
    requires u.bs > 0 && |w.disk| < TWO64
    ensures Run(u, w, Successful(u, w, steps)) == Run(u, w, steps)
    ensures AllSucceed(u, w, Successful(u, w, steps))
  {
    if steps != [] {
      var n := |steps| - 1;
      FailuresInvisible(u, w, steps[..n]);
      if !Refused(u, Run(u, w, steps[..n]), steps[n]) {
        SucceedSnoc(u, w, Successful(u, w, steps[..n]), steps[n]);
      }
    }
  }

  // -------------------------------------------------------------------- the code

  function Requests(ios: seq<Io>): (r: seq<Step>)
    ensures |r| == |ios| && forall i :: 0 <= i < |ios| ==> r[i] == Request(ios[i])
  {
    seq(|ios|, i requires 0 <= i < |ios| => Request(ios[i]))
  }

  /** What the calls return, one after the other, and the memories they leave. */
  function Calls(u: Setup, w: World, ios: seq<Io>): (r: (seq<int>, World))
    requires u.bs > 0 && |w.disk| < TWO64
    ensures |r.0| == |ios| && |r.1.disk| == |w.disk|
  {
    if ios == [] then ([], w)
    else
      var n := |ios| - 1;
      var r := Calls(u, w, ios[..n]);
      (r.0 + [Rc(u, r.1, ios[n])], After(u, r.1, Request(ios[n])))
  }

  /** That is the run of the block store, and each call answers by the state it finds. */
  lemma {:induction false} CallsAreRun(u: Setup, w: World, ios: seq<Io>)
    requires u.bs > 0 && |w.disk| < TWO64
    ensures Calls(u, w, ios).1 == Run(u, w, Requests(ios))
  {
    if ios != [] {
      var n := |ios| - 1;
      CallsAreRun(u, w, ios[..n]);
      assert Requests(ios)[..n] == Requests(ios[..n]);
    }
  }

  lemma {:induction false} CallAnswers(u: Setup, w: World, ios: seq<Io>, i: nat)
    requires u.bs > 0 && |w.disk| < TWO64 && i < |ios|
    ensures Calls(u, w, ios).0[i] == Rc(u, Run(u, w, Requests(ios[..i])), ios[i])
  {
    var n := |ios| - 1;
    if i < n {
      CallAnswers(u, w, ios[..n], i);
      assert ios[..n][..i] == ios[..i];
    } else {
      CallsAreRun(u, w, ios[..n]);
    }
  }

  lemma CallsSnoc(u: Setup, w: World, ios: seq<Io>, n: nat, rcs: seq<int>, m: World, rc: int, m': World)
    requires u.bs > 0 && |w.disk| < TWO64 && n < |ios|
    requires Calls(u, w, ios[..n]) == (rcs, m) && rc == Rc(u, m, ios[n]) && m' == After(u, m, Request(ios[n]))
    ensures Calls(u, w, ios[..n + 1]) == (rcs + [rc], m')
  {
    assert ios[..n + 1][..n] == ios[..n];
  }

  ghost function SetupOf(session: TargetSession): Setup
    reads session, session.disk, session.disk.ctx
  {
    Setup(session.disk.blockSize, session.disk.iova, session.connected, session.disk.ctx.connected)
  }

  method SubmitOne(session: TargetSession, io: Io) returns (rc: int)
    requires session.disk.Valid()
    modifies session.disk.ctx`submits, session.disk.ctx.remote, session.disk.base
    ensures session.disk.Valid() && SetupOf(session) == old(SetupOf(session))
    ensures rc == Rc(SetupOf(session), old(session.Memories()), io)
    ensures session.Memories() == After(SetupOf(session), old(session.Memories()), Request(io))
  {
    rc := session.SubmitIo(io);
  }

  /** Any sequence of target_session_submit_io calls is a run of the block store. */
  method SubmitAll(session: TargetSession, ios: seq<Io>) returns (rcs: seq<int>)
    requires session.disk.Valid()
    modifies session.disk.ctx`submits, session.disk.ctx.remote, session.disk.base
    ensures session.disk.Valid() && SetupOf(session) == old(SetupOf(session))
    ensures (rcs, session.Memories()) == Calls(SetupOf(session), old(session.Memories()), ios)
  {
    ghost var u, w := SetupOf(session), session.Memories();
    rcs := [];
    var n := 0;
    while n < |ios|
      invariant session.disk.Valid() && SetupOf(session) == u && n <= |ios|
      invariant Calls(u, w, ios[..n]) == (rcs, session.Memories())
    {
      ghost var m, before := session.Memories(), rcs;
      var rc := SubmitOne(session, ios[n]);
      CallsSnoc(u, w, ios, n, before, m, rc, session.Memories());
      rcs := rcs + [rc];
      n := n + 1;
    }
    assert ios[..|ios|] == ios;
  }
}
