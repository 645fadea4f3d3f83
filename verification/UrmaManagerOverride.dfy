/** Lines 693-694 of userspace-nbd/src/ramdisk_urma.c: what becomes of the data when
    the worker replaces the requested address by the start of the segment. */
module UrmaManagerOverride {
  import opened Common
  import opened UrmaManager
  import opened UrmaManagerTheorems
  import opened UrmaManagerProgress
  import P = PeerTable
  import Q = UrmaManagerQueue
  import D = UrmaManagerData

  // --------------------------------------------------------------- one transfer

  /** The override makes no difference to this transfer in this world. */
  ghost predicate HonouredIn(w: D.World, x: Xfer)
  {
    D.Effect(w, Copied(0, x), true) == D.Effect(w, Copied(0, x), false)
  }

  /** A world with a backend of `size` bytes and the peer of x at `va`, `len` long. */
  predicate WorldOf(w: D.World, x: Xfer, size: nat, va: nat, len: nat)
  {
    |w.disk| == size && x.peer in w.peers && w.peers[x.peer].va == va && |w.peers[x.peer].bytes| == len
  }

  lemma FirstByte(dst: seq<Byte>, off: nat, src: seq<Byte>, at: nat, len: nat)
    requires off + len <= |dst| && at + len <= |src| && len > 0
    ensures Overwrite(dst, off, src[at..at + len])[off] == src[at]
  {
    assert Overwrite(dst, off, src[at..at + len])[off..off + len][0] == src[at..at + len][0];
  }

  /** The override honours a request on all contents exactly when the request
      addresses the start of the segment. */
  lemma OverrideHonoursIffStart(x: Xfer, size: nat, va: nat, len: nat)
    requires x.len > 0 && (x.dir == RAMDISK_TO_HBM || x.dir == HBM_TO_RAMDISK)
    requires InRange(size, x.off, x.len) && va <= x.remote && InRange(len, x.remote - va, x.len)
    ensures (forall w :: WorldOf(w, x, size, va, len) ==> HonouredIn(w, x)) <==> x.remote == va
  {
    if x.remote == va {
      assert x.(remote := va) == x;
    } else {
      var w := D.World(seq(size, _ => 2), map[x.peer := D.RemotePeer(va, [1] + Zeros(len - 1))]);
      OverrideDiffers(w, x);
    }
  }

  lemma OverrideDiffers(w: D.World, x: Xfer)
    requires D.Serves(w, x) && x.remote != w.peers[x.peer].va
    requires forall i :: 0 <= i < |w.disk| ==> w.disk[i] == 2
    requires var b := w.peers[x.peer].bytes; b[0] == 1 && forall i :: 0 < i < |b| ==> b[i] == 0
    ensures !HonouredIn(w, x)
  {
    if x.dir == RAMDISK_TO_HBM {
      WrongPlace(w, x, w.peers[x.peer]);
    } else {
      WrongSource(w, x, w.peers[x.peer]);
    }
  }

  // ------------------------------------------------------------------ whole runs

  /** Operation i, if a transfer, addresses the start of its peer's segment. */
  ghost predicate AtStart(w0: D.World, log: seq<Op>, i: nat)
    requires i < |log|
  {
    log[i].Copied? ==>
      var w := D.Replay(w0, log[..i], false);
      log[i].x.peer in w.peers ==> log[i].x.remote == w.peers[log[i].x.peer].va
  }

  /** If all transfers address the start, both variants do the same. */
  lemma {:induction false} SameReplay(w0: D.World, log: seq<Op>)
    requires forall i :: 0 <= i < |log| ==> AtStart(w0, log, i)
    ensures D.Replay(w0, log, true) == D.Replay(w0, log, false)
  {
    if log != [] {
      var n := |log| - 1;
      forall i | 0 <= i < n ensures AtStart(w0, log[..n], i) {
        assert AtStart(w0, log, i);
        assert log[..n][..i] == log[..i];
      }
      SameReplay(w0, log[..n]);
      assert AtStart(w0, log, n);
      var w := D.Replay(w0, log[..n], false);
      assert log[n].Copied? ==> D.Aimed(w, log[n].x, true) == log[n].x;
    }
  }

  /** The code as it stands keeps its promise in the runs whose transfers all address
      the start of their segments. */
  lemma OverrideHonestRuns(cfg: Config, enabled: bool, disk: seq<Byte>, es: seq<Event>, s: State)
    requires Reaches(Calm, cfg, enabled, disk, es, s) && !s.destroyed
    requires forall i :: 0 <= i < |s.st.log| ==> AtStart(Start(disk), s.st.log, i)
    ensures D.Viewable(s.st) && D.View(s.st) == D.Replay(Start(disk), s.st.log, false)
  {
    EndToEnd(cfg, enabled, disk, es, s);
    SameReplay(Start(disk), s.st.log);
  }

  lemma ExecLogs(s: State, s': State)
    requires s.tr.worker.Executing? && s.tr.worker.slot < |s.st.table| && s.st.table[s.tr.worker.slot].Active?
    requires s.tr.worker.rid in s.tr.reqs && Next(s, Exec(s.st.mem)) == Some(s')
    ensures s'.st.log == s.st.log + [Copied(s.tr.worker.rid, s.tr.reqs[s.tr.worker.rid].x)]
  {
  }

  /** Submit one transfer to an idle manager. */
  lemma SubmitRuns(cfg: Config, disk: seq<Byte>, es: seq<Event>, c: State, x: Xfer) returns (s: State)
    requires Reaches(Calm, cfg, true, disk, es, c) && !c.destroyed && c.enabled
    requires c.tr == InitTraffic(cfg.depth) && c.cfg == cfg && Validate(cfg, true, c.st.table, x) == Good(0)
    ensures Reaches(Calm, cfg, true, disk, es + [Submit(0, x)], s) && !s.destroyed && s.enabled && s.st == c.st
    ensures s.tr.worker.Checking? && s.tr.q.ring.pending == 1 && s.tr.asked == [x] && s.tr.q.taken == []
  {
    s := c.(tr := Accept(c.tr, 0, x));
    RunSnoc(Calm, Init(cfg, true, disk), es, c, Submit(0, x));
  }

  /** Take the only request, which is valid. */
  lemma TakeRuns(cfg: Config, disk: seq<Byte>, es: seq<Event>, s: State, x: Xfer) returns (s': State)
    requires Reaches(Calm, cfg, true, disk, es, s) && !s.destroyed
    requires s.tr.worker.Checking? && s.tr.q.ring.pending > 0 && s.tr.asked == [x] && s.tr.q.taken == []
    requires s.enabled && Validate(cfg, true, s.st.table, x) == Good(0)
    ensures Reaches(Calm, cfg, true, disk, es + [Take], s') && !s'.destroyed && s'.st == s.st
    ensures s'.tr.worker == Executing(0, 0) && s'.tr.asked == [x]
  {
    RunSound(Calm, cfg, true, disk, es, s);
    Q.HeadLive(s.tr, cfg.depth);
    HeadAsked(s.tr, cfg.depth);
    s' := DoTake(s).value;
    RunSnoc(Calm, Init(cfg, true, disk), es, s, Take);
    TakenIs(s, s');
  }

  /** Execute it. */
  lemma ExecRuns(cfg: Config, disk: seq<Byte>, es: seq<Event>, s: State) returns (s': State)
    requires Reaches(Calm, cfg, true, disk, es, s) && !s.destroyed && s.tr.worker.Executing?
    requires s.tr.worker.slot < |s.st.table| && s.st.table[s.tr.worker.slot].Active?
    ensures Reaches(Calm, cfg, true, disk, es + [Exec(s.st.mem)], s') && !s'.destroyed
    ensures s.tr.worker.rid < |s.tr.asked|
    ensures s'.st.log == s.st.log + [Copied(s.tr.worker.rid, s.tr.asked[s.tr.worker.rid])]
  {
    RunSound(Calm, cfg, true, disk, es, s);
    Q.BusyWith(s.tr, cfg.depth);
    s' := ExecProgress(s);
    RunSnoc(Calm, Init(cfg, true, disk), es, s, Exec(s.st.mem));
    ExecLogs(s, s');
  }

  /** Submit, take and execute one transfer. */
  lemma TransferRuns(cfg: Config, disk: seq<Byte>, es: seq<Event>, c: State, x: Xfer) returns (fs: seq<Event>, s: State)
    requires Reaches(Calm, cfg, true, disk, es, c) && !c.destroyed && c.enabled
    requires c.tr == InitTraffic(cfg.depth) && c.cfg == cfg && Validate(cfg, true, c.st.table, x) == Good(0)
    ensures Reaches(Calm, cfg, true, disk, fs, s) && !s.destroyed && s.st.log == c.st.log + [Copied(0, x)]
  {
    var a := SubmitRuns(cfg, disk, es, c, x);
    fs := es + [Submit(0, x)];
    var b := TakeRuns(cfg, disk, fs, a, x);
    s := ExecRuns(cfg, disk, fs + [Take], b);
    fs := fs + [Take] + [Exec(b.st.mem)];
  }

  /** Write one byte into the connected peer's memory. */
  lemma PokeRuns(cfg: Config, disk: seq<Byte>, va: nat, len: nat, c: State, addr: nat, b: Byte) returns (s: State)
    requires Reaches(Calm, cfg, true, disk, ConnectOne(va, len), c) && !c.destroyed
    requires va <= addr && addr - va < len && c.st.table == OnePeer(va, len) && c.st.mem.hbm == map[0 := Zeros(len)]
    ensures Reaches(Calm, cfg, true, disk, ConnectOne(va, len) + [Poke(1, addr, [b])], s) && !s.destroyed
    ensures s.tr == c.tr && s.enabled == c.enabled && s.cfg == c.cfg && s.st.table == c.st.table
    ensures s.st.log == c.st.log + [Poked(1, addr, [b])]
  {
    OnePeerWellFormed(va, len);
    FoundAt(c.st.table, 1, 0);
    s := c.(st := DoPoke(c.st, 1, addr, [b]).value);
    RunSnoc(Calm, Init(cfg, true, disk), ConnectOne(va, len), c, Poke(1, addr, [b]));
  }

  lemma OnePeerWellFormed(va: nat, len: nat)
    requires len > 0
    ensures P.WellFormed(OnePeer(va, len)) && P.IsPeer(OnePeer(va, len), 0, 1)
  {
  }

  lemma ReplayTwo(w: D.World, first: Op, second: Op, override: bool)
    ensures D.Replay(w, [first], override) == D.Effect(w, first, override)
    ensures D.Replay(w, [first] + [second], override) == D.Effect(D.Effect(w, first, override), second, override)
  {
    ReplaySnoc(w, [], first, override);
    assert [] + [first] == [first];
    ReplaySnoc(w, [first], second, override);
  }

  /** And it breaks it for every write to another address, of any data that does not
      start with a zero: here is a run that ends with the wrong bytes at the peer. */
  lemma OverrideBreaksWrite(cfg: Config, disk: seq<Byte>, va: nat, len: nat, x: Xfer)
    returns (es: seq<Event>, s: State)
    requires 0 < cfg.depth && |disk| == cfg.size && len > 0 && cfg.override
    requires Validate(cfg, true, OnePeer(va, len), x) == Good(0)
    requires x.dir == RAMDISK_TO_HBM && x.remote != va && disk[x.off] != 0
    ensures Reaches(Calm, cfg, true, disk, es, s) && !s.destroyed && D.Viewable(s.st)
    ensures D.View(s.st) != D.Replay(Start(disk), s.st.log, false)
  {
    var c := ConnectRuns(Calm, cfg, disk, va, len);
    es, s := TransferRuns(cfg, disk, ConnectOne(va, len), c, x);
    EndToEnd(cfg, true, disk, es, s);
    var w := ConnectedWorld(disk, va, len, true);
    w := ConnectedWorld(disk, va, len, false);
    ReplaySnoc(Start(disk), c.st.log, Copied(0, x), true);
    ReplaySnoc(Start(disk), c.st.log, Copied(0, x), false);
    WrongPlace(w, x, w.peers[1]);
  }

  /** The same for every read from another address, after one byte was put there: here
      is a run that ends with the wrong bytes in the backend. */
  lemma OverrideBreaksRead(cfg: Config, disk: seq<Byte>, va: nat, len: nat, x: Xfer)
    returns (es: seq<Event>, s: State)
    requires 0 < cfg.depth && |disk| == cfg.size && len > 0 && cfg.override
    requires Validate(cfg, true, OnePeer(va, len), x) == Good(0)
    requires x.dir == HBM_TO_RAMDISK && x.remote != va
    ensures Reaches(Calm, cfg, true, disk, es, s) && !s.destroyed && D.Viewable(s.st)
    ensures D.View(s.st) != D.Replay(Start(disk), s.st.log, false)
  {
    var c := ConnectRuns(Calm, cfg, disk, va, len);
    var p := PokeRuns(cfg, disk, va, len, c, x.remote, 1);
    es, s := TransferRuns(cfg, disk, ConnectOne(va, len) + [Poke(1, x.remote, [1])], p, x);
    EndToEnd(cfg, true, disk, es, s);
    ReadsDiffer(disk, va, len, x);
  }

  lemma ReadsDiffer(disk: seq<Byte>, va: nat, len: nat, x: Xfer)
    requires x.peer == 1 && x.len > 0 && x.dir == HBM_TO_RAMDISK && InRange(|disk|, x.off, x.len)
    requires va < x.remote && InRange(len, x.remote - va, x.len)
    ensures var log := [Connected(1, va, len)] + [Poked(1, x.remote, [1])] + [Copied(0, x)];
            D.Replay(Start(disk), log, true) != D.Replay(Start(disk), log, false)
  {
    var log := [Connected(1, va, len)] + [Poked(1, x.remote, [1])];
    var w := PokedWorld(disk, va, len, x.remote, true);
    w := PokedWorld(disk, va, len, x.remote, false);
    ReplaySnoc(Start(disk), log, Copied(0, x), true);
    ReplaySnoc(Start(disk), log, Copied(0, x), false);
    FirstByte(Zeros(len), x.remote - va, [1], 0, 1);
    assert [1][0..0 + 1] == [1];
    WrongSource(w, x, w.peers[1]);
  }

  lemma ConnectedWorld(disk: seq<Byte>, va: nat, len: nat, override: bool) returns (w: D.World)
    ensures w == D.World(disk, map[1 := D.RemotePeer(va, Zeros(len))])
    ensures D.Replay(Start(disk), [Connected(1, va, len)], override) == w
  {
    w := D.World(disk, map[1 := D.RemotePeer(va, Zeros(len))]);
    ReplaySnoc(Start(disk), [], Connected(1, va, len), override);
    assert [] + [Connected(1, va, len)] == [Connected(1, va, len)];
    assert D.Replay(Start(disk), [], override) == Start(disk);
  }

  lemma PokedWorld(disk: seq<Byte>, va: nat, len: nat, addr: nat, override: bool) returns (w: D.World)
    requires va <= addr && addr - va < len
    ensures w == D.World(disk, map[1 := D.RemotePeer(va, Overwrite(Zeros(len), addr - va, [1]))])
    ensures D.Replay(Start(disk), [Connected(1, va, len)] + [Poked(1, addr, [1])], override) == w
  {
    var c := ConnectedWorld(disk, va, len, override);
    ReplaySnoc(Start(disk), [Connected(1, va, len)], Poked(1, addr, [1]), override);
    D.PokedIs(c, 1, addr, [1], c.peers[1]);
    w := D.World(disk, map[1 := D.RemotePeer(va, Overwrite(Zeros(len), addr - va, [1]))]);
  }

  lemma WrongSource(w: D.World, x: Xfer, p: D.RemotePeer)
    requires D.Serves(w, x) && w.peers[x.peer] == p && x.dir == HBM_TO_RAMDISK && x.remote != p.va
    requires p.bytes[0] != p.bytes[x.remote - p.va]
    ensures D.Effect(w, Copied(0, x), true) != D.Effect(w, Copied(0, x), false)
  {
    D.RequestedIs(w, x, p);
    D.RequestedIs(w, x.(remote := p.va), p);
    FirstByte(w.disk, x.off, p.bytes, 0, x.len);
    FirstByte(w.disk, x.off, p.bytes, x.remote - p.va, x.len);
    assert D.Requested(w, x.(remote := p.va)).disk[x.off] != D.Requested(w, x).disk[x.off];
  }

  lemma WrongPlace(w: D.World, x: Xfer, p: D.RemotePeer)
    requires D.Serves(w, x) && w.peers[x.peer] == p && x.dir == RAMDISK_TO_HBM && x.remote != p.va
    requires w.disk[x.off] != p.bytes[0]
    ensures D.Effect(w, Copied(0, x), true) != D.Effect(w, Copied(0, x), false)
  {
    D.RequestedIs(w, x, p);
    D.RequestedIs(w, x.(remote := p.va), p);
    FirstByte(p.bytes, 0, w.disk, x.off, x.len);
    var moved, honest := D.Requested(w, x.(remote := p.va)), D.Requested(w, x);
    assert moved.peers[x.peer].bytes[0] == w.disk[x.off] && honest.peers[x.peer].bytes[0] == p.bytes[0];
  }

  // ------------------------------------------------------------------ two transfers

  /** The world with other bytes in one peer. */
  function Filled(w: D.World, peer: nat, bytes: seq<Byte>): D.World
    requires peer in w.peers
  {
    w.(peers := w.peers[peer := D.RemotePeer(w.peers[peer].va, bytes)])
  }

  lemma FilledAgain(w: D.World, peer: nat, once: seq<Byte>, twice: seq<Byte>)
    requires peer in w.peers
    ensures Filled(Filled(w, peer, once), peer, twice) == Filled(w, peer, twice)
  {
  }

  function Data(w: D.World, x: Xfer): seq<Byte>
    requires InRange(|w.disk|, x.off, x.len)
  {
    w.disk[x.off..x.off + x.len]
  }

  /** Where in the peer's buffer a write goes. */
  function Place(w: D.World, x: Xfer, override: bool): nat
    requires D.Serves(w, x)
  {
    if override then 0 else x.remote - w.peers[x.peer].va
  }

  lemma WriteIs(w: D.World, x: Xfer, override: bool)
    requires D.Serves(w, x) && x.dir == RAMDISK_TO_HBM
    ensures D.Effect(w, Copied(0, x), override) ==
            Filled(w, x.peer, Overwrite(w.peers[x.peer].bytes, Place(w, x, override), Data(w, x)))
  {
    D.RequestedIs(w, D.Aimed(w, x, override), w.peers[x.peer]);
  }

  /** Both variants of two writes to one peer: the second over the first. */
  lemma WriteTwice(w: D.World, x: Xfer, y: Xfer, override: bool)
    requires D.Serves(w, x) && D.Serves(w, y) && x.peer == y.peer && x.dir == y.dir == RAMDISK_TO_HBM
    ensures var once := Overwrite(w.peers[x.peer].bytes, Place(w, x, override), Data(w, x));
            D.Replay(w, [Copied(0, x)] + [Copied(0, y)], override) ==
            Filled(w, x.peer, Overwrite(once, Place(w, y, override), Data(w, y)))
  {
    var once := Overwrite(w.peers[x.peer].bytes, Place(w, x, override), Data(w, x));
    ReplayTwo(w, Copied(0, x), Copied(0, y), override);
    WriteIs(w, x, override);
    WriteIs(Filled(w, x.peer, once), y, override);
    FilledAgain(w, x.peer, once, Overwrite(once, Place(w, y, override), Data(w, y)));
  }

  lemma Covered(dst: seq<Byte>, a: seq<Byte>, b: seq<Byte>)
    requires |a| <= |b| <= |dst|
    ensures Overwrite(Overwrite(dst, 0, a), 0, b) == Overwrite(dst, 0, b)
  {
  }

  lemma Beside(dst: seq<Byte>, i: nat, a: seq<Byte>, j: nat, b: seq<Byte>)
    requires i + |a| <= |dst| && j + |b| <= |dst| && (i + |a| <= j || j + |b| <= i)
    ensures Overwrite(Overwrite(dst, i, a), j, b)[i..i + |a|] == a
    ensures Overwrite(Overwrite(dst, i, a), j, b)[j..j + |b|] == b
  {
    var once := Overwrite(dst, i, a);
    var twice := Overwrite(once, j, b);
    assert twice[i..i + |a|] == once[i..i + |a|];
  }

  /** Two writes to disjoint places of one peer. As requested, both pieces are there in
      the end. With the override the second lies on top of the first: one at least as
      long leaves no trace of it. */
  lemma OverrideCollides(w: D.World, x: Xfer, y: Xfer)
    requires D.Serves(w, x) && D.Serves(w, y) && x.peer == y.peer && x.dir == y.dir == RAMDISK_TO_HBM
    requires x.remote + x.len <= y.remote || y.remote + y.len <= x.remote
    ensures var va := w.peers[x.peer].va; var ops := [Copied(0, x)] + [Copied(0, y)];
            var honest := D.Replay(w, ops, false); var moved := D.Replay(w, ops, true);
            && Holds(honest, x.peer, x.remote - va, Data(w, x)) && Holds(honest, x.peer, y.remote - va, Data(w, y))
            && Holds(moved, x.peer, 0, Data(w, y))
            && (x.len <= y.len ==> moved == D.Replay(w, [Copied(0, y)], true))
  {
    BothStay(w, x, y);
    LastStays(w, x, y);
  }

  lemma BesideHolds(w: D.World, peer: nat, i: nat, a: seq<Byte>, j: nat, b: seq<Byte>)
    requires peer in w.peers && i + |a| <= |w.peers[peer].bytes| && j + |b| <= |w.peers[peer].bytes|
    requires i + |a| <= j || j + |b| <= i
    ensures var filled := Filled(w, peer, Overwrite(Overwrite(w.peers[peer].bytes, i, a), j, b));
            Holds(filled, peer, i, a) && Holds(filled, peer, j, b)
  {
    Beside(w.peers[peer].bytes, i, a, j, b);
  }

  lemma BothStay(w: D.World, x: Xfer, y: Xfer)
    requires D.Serves(w, x) && D.Serves(w, y) && x.peer == y.peer && x.dir == y.dir == RAMDISK_TO_HBM
    requires x.remote + x.len <= y.remote || y.remote + y.len <= x.remote
    ensures var va := w.peers[x.peer].va; var honest := D.Replay(w, [Copied(0, x)] + [Copied(0, y)], false);
            Holds(honest, x.peer, x.remote - va, Data(w, x)) && Holds(honest, x.peer, y.remote - va, Data(w, y))
  {
    var p := w.peers[x.peer];
    var i, j := x.remote - p.va, y.remote - p.va;
    WriteTwice(w, x, y, false);
    BesideHolds(w, x.peer, i, Data(w, x), j, Data(w, y));
  }

  /** The peer's buffer holds these bytes at this place. */
  predicate Holds(w: D.World, peer: nat, at: nat, bytes: seq<Byte>)
  {
    peer in w.peers && at + |bytes| <= |w.peers[peer].bytes| && w.peers[peer].bytes[at..at + |bytes|] == bytes
  }

  lemma LastStays(w: D.World, x: Xfer, y: Xfer)
    requires D.Serves(w, x) && D.Serves(w, y) && x.peer == y.peer && x.dir == y.dir == RAMDISK_TO_HBM
    ensures var moved := D.Replay(w, [Copied(0, x)] + [Copied(0, y)], true);
            && Holds(moved, x.peer, 0, Data(w, y))
            && (x.len <= y.len ==> moved == D.Replay(w, [Copied(0, y)], true))
  {
    WriteTwice(w, x, y, true);
    if x.len <= y.len {
      Covered(w.peers[x.peer].bytes, Data(w, x), Data(w, y));
      ReplayTwo(w, Copied(0, y), Copied(0, y), true);
      WriteIs(w, y, true);
    }
  }
}
