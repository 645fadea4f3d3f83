/** Theorems about every run of the URMA manager. */
module UrmaManagerTheorems {
  import opened Common
  import opened UrmaManager
  import M = RangeMap
  import R = Ring
  import P = PeerTable
  import Q = UrmaManagerQueue
  import S = UrmaManagerStore
  import D = UrmaManagerData

  // ------------------------------------------------------------------ the log

  /** How often the log records a copy for rid. */
  function Copies(log: seq<Op>, rid: Rid): nat
  {
    if log == [] then 0
    else Copies(log[..|log| - 1], rid)
         + if log[|log| - 1].Copied? && log[|log| - 1].rid == rid then 1 else 0
  }

  lemma CopiesSnoc(log: seq<Op>, op: Op, rid: Rid)
    ensures Copies(log + [op], rid) == Copies(log, rid) + if op.Copied? && op.rid == rid then 1 else 0
  {
    assert (log + [op])[..|log|] == log;
  }

  /** The worker has moved the bytes of rid. */
  predicate Moved(tr: Traffic, rid: Rid)
  {
    (rid in tr.q.results && tr.q.results[rid] == 0) || tr.worker == Executed(rid, 0)
  }

  /** A request is copied once if it succeeds, never if it fails, and as asked. */
  ghost predicate LogInv(tr: Traffic, log: seq<Op>)
  {
    && (forall rid: Rid :: Copies(log, rid) == if Moved(tr, rid) then 1 else 0)
    && (forall i :: 0 <= i < |log| && log[i].Copied? ==> log[i].rid < |tr.asked| && log[i].x == tr.asked[log[i].rid])
    && InOrder(log)
  }

  /** Transfers are made in the order in which their calls were accepted. */
  ghost predicate InOrder(log: seq<Op>)
  {
    forall i, j :: 0 <= i < j < |log| && log[i].Copied? && log[j].Copied? ==> log[i].rid < log[j].rid
  }

  lemma {:induction false} CopiedCounts(log: seq<Op>, i: nat)
    requires i < |log| && log[i].Copied?
    ensures Copies(log, log[i].rid) > 0
  {
    if i < |log| - 1 {
      CopiedCounts(log[..|log| - 1], i);
    }
  }

  lemma LogSame(tr: Traffic, log: seq<Op>, tr': Traffic, op: Option<Op>)
    requires LogInv(tr, log) && tr.asked <= tr'.asked
    requires forall rid: Rid :: Moved(tr', rid) == Moved(tr, rid)
    requires op.Some? ==> !op.value.Copied?
    ensures LogInv(tr', if op.None? then log else log + [op.value])
  {
    if op.Some? {
      forall rid: Rid ensures Copies(log + [op.value], rid) == Copies(log, rid) {
        CopiesSnoc(log, op.value, rid);
      }
    }
  }

  lemma LogCopied(tr: Traffic, log: seq<Op>, x: Xfer)
    requires LogInv(tr, log) && tr.worker.Executing? && forall rid :: rid in tr.q.results ==> rid < tr.worker.rid
    requires tr.worker.rid < |tr.asked| && x == tr.asked[tr.worker.rid]
    ensures LogInv(tr.(worker := Executed(tr.worker.rid, 0)), log + [Copied(tr.worker.rid, x)])
  {
    var r := tr.worker.rid;
    var tr' := tr.(worker := Executed(r, 0));
    forall rid: Rid ensures Copies(log + [Copied(r, x)], rid) == if Moved(tr', rid) then 1 else 0 {
      CopiesSnoc(log, Copied(r, x), rid);
    }
    forall i | 0 <= i < |log| && log[i].Copied? ensures log[i].rid < r {
      CopiedCounts(log, i);
      assert Moved(tr, log[i].rid);
    }
  }

  /** The store events and what they log. */
  lemma StoreLogs(st: Store, enabled: bool, e: Event, st': Store) returns (op: Option<Op>)
    requires StoreEvent(e) && NextStore(st, enabled, e) == Some(st')
    ensures op.Some? ==> !op.value.Copied?
    ensures st'.log == if op.None? then st.log else st.log + [op.value]
  {
    if st'.log == st.log {
      op := None;
    } else {
      op := Some(st'.log[|st'.log| - 1]);
    }
  }

  lemma MovedByQueue(s: State, e: Event, s': State)
    requires Q.QueueEvent(e) && Next(s, e) == Some(s')
    requires s.tr.worker.Executed? ==> s.tr.worker.rid !in s.tr.q.results
    ensures s.tr.asked <= s'.tr.asked
    ensures forall rid: Rid :: Moved(s'.tr, rid) == Moved(s.tr, rid)
  {
  }

  lemma MovedByOther(s: State, e: Event, s': State)
    requires !Q.QueueEvent(e) && !e.Exec? && Next(s, e) == Some(s')
    ensures s.tr.asked <= s'.tr.asked
    ensures forall rid: Rid :: Moved(s'.tr, rid) == Moved(s.tr, rid)
  {
    Q.OtherFrame(s, e, s');
  }

  /** Outside the transfer, nobody changes what has been moved. */
  lemma MovedFrame(s: State, e: Event, s': State)
    requires Q.Inv(s.tr, s.cfg.depth) && !e.Exec? && Next(s, e) == Some(s')
    ensures s.tr.asked <= s'.tr.asked
    ensures forall rid: Rid :: Moved(s'.tr, rid) == Moved(s.tr, rid)
  {
    if Q.QueueEvent(e) {
      MovedByQueue(s, e, s');
    } else {
      MovedByOther(s, e, s');
    }
  }

  lemma LogStep(s: State, e: Event, s': State)
    requires Q.Inv(s.tr, s.cfg.depth) && LogInv(s.tr, s.st.log) && Next(s, e) == Some(s')
    ensures LogInv(s'.tr, s'.st.log)
  {
    if e.Exec? {
      Q.BusyWith(s.tr, s.cfg.depth);
      LogByExec(s, e.junk, s');
    } else {
      MovedFrame(s, e, s');
      if StoreEvent(e) {
        var op := StoreLogs(s.st, s.enabled, e, s'.st);
        LogSame(s.tr, s.st.log, s'.tr, op);
      } else {
        S.StoreFrame(s, e, s');
        LogSame(s.tr, s.st.log, s'.tr, None);
      }
    }
  }

  lemma LogByExec(s: State, junk: Memory, s': State)
    requires LogInv(s.tr, s.st.log) && DoExec(s, junk) == Some(s')
    requires var rid := s.tr.worker.rid;
             && (forall r :: r in s.tr.q.results ==> r < rid)
             && rid < |s.tr.asked| && s.tr.reqs[rid].x == s.tr.asked[rid]
    ensures LogInv(s'.tr, s'.st.log)
  {
    var rid := s.tr.worker.rid;
    if s.st.table[s.tr.worker.slot].Free? {
      LogSame(s.tr, s.st.log, s'.tr, None);
    } else {
      LogCopied(s.tr, s.st.log, s.tr.reqs[rid].x);
    }
  }

  // ------------------------------------------------------------------- refinement

  lemma ReplaySnoc(w: D.World, ops: seq<Op>, op: Op, override: bool)
    ensures D.Replay(w, ops + [op], override) == D.Effect(D.Replay(w, ops, override), op, override)
  {
    assert (ops + [op])[..|ops|] == ops;
  }

  /** Operation i finds its peer connected and both its ranges inside. */
  ghost predicate EntryServes(w0: D.World, log: seq<Op>, override: bool, i: nat)
    requires i < |log|
  {
    log[i].Copied? ==> D.Serves(D.Replay(w0, log[..i], override), log[i].x)
  }

  ghost predicate AllServe(w0: D.World, log: seq<Op>, override: bool)
  {
    forall i :: 0 <= i < |log| ==> EntryServes(w0, log, override, i)
  }

  lemma AllServeSnoc(w0: D.World, log: seq<Op>, op: Op, override: bool)
    requires AllServe(w0, log, override)
    requires op.Copied? ==> D.Serves(D.Replay(w0, log, override), op.x)
    ensures AllServe(w0, log + [op], override)
  {
    forall i | 0 <= i < |log + [op]| ensures EntryServes(w0, log + [op], override, i) {
      if i < |log| {
        assert EntryServes(w0, log, override, i);
        assert (log + [op])[..i] == log[..i];
      } else {
        assert (log + [op])[..i] == log;
      }
    }
  }

  /** The memory is what a sequential execution of the log leaves behind, and no
      transfer in it is an empty gesture. */
  ghost predicate Refines(w0: D.World, st: Store, override: bool)
  {
    D.Viewable(st) && D.View(st) == D.Replay(w0, st.log, override) && AllServe(w0, st.log, override)
  }

  lemma ExplainsRefines(w0: D.World, st: Store, st': Store, override: bool)
    requires Refines(w0, st, override) && D.Viewable(st') && D.Explains(st, st')
    ensures Refines(w0, st', override)
  {
    if st'.log != st.log {
      var op :| st'.log == st.log + [op] && !op.Copied? && D.View(st') == D.Changed(D.View(st), op);
      ReplaySnoc(w0, st.log, op, override);
      AllServeSnoc(w0, st.log, op, override);
    }
  }

  lemma StoreExplained(st: Store, size: nat, enabled: bool, e: Event, st': Store)
    requires S.Inv(st, size) && D.Viewable(st) && D.Viewable(st') && D.ZeroInv(st)
    requires StoreEvent(e) && !e.DestroyPeers? && NextStore(st, enabled, e) == Some(st')
    ensures D.Explains(st, st')
  {
    match e
    case ConnectAlloc(t, id, va, len) => D.AllocExplained(st, size, t, id, va, len, st');
    case ConnectInsert(t) => D.InsertExplained(st, size, enabled, t, st');
    case DisconnectClear(t, id) => D.DisconnectExplained(st, size, t, id, st');
    case Free(t) => D.FreeExplained(st, size, t, st');
    case DiskWrite(off, data) => D.DiskWriteExplained(st, size, off, data, st');
    case Poke(id, addr, data) => D.PokeExplained(st, size, id, addr, data, st');
  }

  ghost predicate DataInv(w0: D.World, s: State)
  {
    D.ExecInv(s) && (!s.destroyed ==> D.ZeroInv(s.st) && Refines(w0, s.st, s.cfg.override))
  }

  lemma DataByExec(w0: D.World, s: State, junk: Memory, s': State)
    requires Q.Inv(s.tr, s.cfg.depth) && S.Inv(s.st, s.cfg.size) && S.Inv(s'.st, s.cfg.size)
    requires DataInv(w0, s) && !s.destroyed && DoExec(s, junk) == Some(s')
    ensures D.ZeroInv(s'.st) && Refines(w0, s'.st, s.cfg.override)
  {
    var rid, slot := s.tr.worker.rid, s.tr.worker.slot;
    D.InvBacked(s'.st, s.cfg.size);
    D.TransferExplained(s.st, s.cfg, rid, s.tr.reqs[rid], slot, junk, s'.st);
    ReplaySnoc(w0, s.st.log, Copied(rid, s.tr.reqs[rid].x), s.cfg.override);
    AllServeSnoc(w0, s.st.log, Copied(rid, s.tr.reqs[rid].x), s.cfg.override);
    D.ZeroByTransfer(s.st, s.cfg, rid, s.tr.reqs[rid], slot, junk, s'.st);
  }

  lemma DataByStore(w0: D.World, st: Store, cfg: Config, enabled: bool, e: Event, st': Store)
    requires S.Inv(st, cfg.size) && S.Inv(st', cfg.size) && D.ZeroInv(st) && Refines(w0, st, cfg.override)
    requires StoreEvent(e) && !e.DestroyPeers? && NextStore(st, enabled, e) == Some(st')
    ensures D.ZeroInv(st') && Refines(w0, st', cfg.override)
  {
    D.InvBacked(st', cfg.size);
    StoreExplained(st, cfg.size, enabled, e, st');
    ExplainsRefines(w0, st, st', cfg.override);
    D.ZeroByStore(st, cfg.size, enabled, e, st');
  }

  /** What a store event does, seen from the whole state. */
  lemma StoreNext(s: State, e: Event, s': State)
    requires StoreEvent(e) && Next(s, e) == Some(s') && !s'.destroyed
    ensures !s.destroyed && !e.DestroyPeers? && NextStore(s.st, s.enabled, e) == Some(s'.st)
  {
  }

  lemma DataStep(w0: D.World, s: State, e: Event, s': State)
    requires Q.Inv(s.tr, s.cfg.depth) && S.Inv(s.st, s.cfg.size) && DataInv(w0, s)
    requires Allowed(Calm, s, e) && Next(s, e) == Some(s')
    ensures DataInv(w0, s')
  {
    D.ExecStep(s, e, s');
    S.InvStep(s, e, s');
    Q.InvStep(s, e, s');
    if !s'.destroyed {
      if StoreEvent(e) {
        StoreNext(s, e, s');
        DataByStore(w0, s.st, s.cfg, s.enabled, e, s'.st);
      } else if e.Exec? {
        DataByExec(w0, s, e.junk, s');
      } else {
        S.StoreFrame(s, e, s');
      }
    }
  }

  // ------------------------------------------------------------------ validation

  function Times(k: nat, bs: nat): nat
  {
    k * bs
  }

  ghost predicate Multiple(a: nat, bs: nat)
  {
    exists k: nat :: Times(k, bs) == a
  }

  lemma MultipleMod(a: nat, bs: nat)
    requires bs > 0
    ensures a % bs == 0 <==> Multiple(a, bs)
  {
    if a % bs == 0 {
      assert Times(a / bs, bs) == a;
    }
    if k: nat :| Times(k, bs) == a {
      ModOfMultiple(k, bs);
    }
  }

  lemma ModOfMultiple(k: nat, bs: nat)
    requires bs > 0
    ensures (k * bs) % bs == 0
  {
    var a := k * bs;
    M.DivBound(k, a, bs);
    M.DivBound(k + 1, a, bs);
    assert (k + 1) * bs == a + bs;
    assert a / bs == k;
  }

  /** Offset, remote address and length are whole blocks. */
  ghost predicate WholeBlocks(x: Xfer, bs: nat)
  {
    bs != 0 && Multiple(x.off, bs) && Multiple(x.remote, bs) && Multiple(x.len, bs)
  }

  lemma AlignedIsWholeBlocks(x: Xfer, bs: nat)
    ensures Aligned(bs, x) <==> WholeBlocks(x, bs)
  {
    if bs != 0 {
      MultipleMod(x.off, bs);
      MultipleMod(x.remote, bs);
      MultipleMod(x.len, bs);
    }
  }

  /** The requested bytes lie in the peer's segment. */
  ghost predicate InSegment(table: P.Table, x: Xfer)
    requires P.WellFormed(table)
  {
    && x.peer in P.Peers(table) && P.Peers(table)[x.peer].Active?
    && P.Peers(table)[x.peer].va <= x.remote
    && x.remote + x.len <= P.Peers(table)[x.peer].va + P.Peers(table)[x.peer].len
  }

  /** The validation accepts exactly the transfers that make sense: enabled, a length, a
      direction, inside the backend, whole blocks, a connected peer, inside its segment;
      and answers the first of these that fails. */
  lemma ValidateIff(cfg: Config, enabled: bool, table: P.Table, x: Xfer)
    requires P.WellFormed(table)
    ensures var v := Validate(cfg, enabled, table, x);
            var asks := x.len > 0 && (x.dir == RAMDISK_TO_HBM || x.dir == HBM_TO_RAMDISK);
            var inside := x.off + x.len <= cfg.size;
            var blocks := cfg.blockSize != 0 && Multiple(x.off, cfg.blockSize)
                          && Multiple(x.remote, cfg.blockSize) && Multiple(x.len, cfg.blockSize);
            && (v.Good? <==> enabled && asks && inside && blocks && InSegment(table, x))
            && (v.Good? ==> table[v.slot] == P.Peers(table)[x.peer])
            && (!enabled ==> v == Bad(-EOPNOTSUPP))
            && (enabled && !asks ==> v == Bad(-EINVAL))
            && (enabled && asks && !inside ==> v == Bad(-ERANGE))
            && (enabled && asks && inside && !blocks ==> v == Bad(-EINVAL))
            && (enabled && asks && inside && blocks && x.peer !in P.Peers(table) ==> v == Bad(-ENODEV))
            && (enabled && asks && inside && blocks && x.peer in P.Peers(table) && !InSegment(table, x) ==>
                  v == Bad(-ERANGE))
  {
    AlignedIsWholeBlocks(x, cfg.blockSize);
    P.FindIsLookup(table, x.peer);
  }

  /** Setting aside whether the manager is enabled, a valid transfer stays valid, in
      the same slot, under everything but the disconnect of its own peer and the end
      of the manager. */
  lemma PlaceStays(s: State, e: Event, s': State, x: Xfer)
    requires P.WellFormed(s.st.table) && P.WellFormed(s'.st.table) && Next(s, e) == Some(s')
    requires Validate(s.cfg, true, s.st.table, x).Good?
    requires !e.DestroyPeers? && (e.DisconnectClear? ==> e.id != x.peer)
    ensures s'.cfg == s.cfg
    ensures Validate(s.cfg, true, s'.st.table, x) == Validate(s.cfg, true, s.st.table, x)
  {
    var i := P.Find(s.st.table, x.peer).value;
    SettingsStay(s, e, s');
    if StoreEvent(e) {
      D.SlotStays(s.st, s.enabled, e, s'.st, i);
    } else {
      TableStays(s, e, s');
    }
    FoundAt(s'.st.table, x.peer, i);
  }

  /** A valid transfer stays valid under everything but disable, disconnecting its
      own peer, and the end of the manager. */
  lemma ValidStays(s: State, e: Event, s': State, x: Xfer)
    requires P.WellFormed(s.st.table) && P.WellFormed(s'.st.table) && Next(s, e) == Some(s')
    requires Validate(s.cfg, s.enabled, s.st.table, x).Good?
    requires !e.Disable? && !e.DestroyPeers? && (e.DisconnectClear? ==> e.id != x.peer)
    ensures Validate(s'.cfg, s'.enabled, s'.st.table, x) == Validate(s.cfg, s.enabled, s.st.table, x)
  {
    PlaceStays(s, e, s', x);
    SettingsStay(s, e, s');
  }

  lemma FoundAt(t: P.Table, id: nat, i: nat)
    requires P.WellFormed(t) && P.IsPeer(t, i, id)
    ensures P.Find(t, id) == Some(i)
  {
  }

  lemma SettingsStay(s: State, e: Event, s': State)
    requires Next(s, e) == Some(s')
    ensures s'.cfg == s.cfg && (s.enabled && !e.Disable? ==> s'.enabled)
  {
  }

  lemma TableStays(s: State, e: Event, s': State)
    requires Next(s, e) == Some(s') && !StoreEvent(e)
    ensures s'.st.table == s.st.table
  {
  }

  // ------------------------------------------------------------------------- runs

  /** The worker's slot exists; it leaves only when told to stop, and before the end. */
  ghost predicate WorkerInv(s: State)
  {
    && (s.tr.worker.Executing? ==> s.tr.worker.slot < P.MAX_PEERS)
    && (s.tr.worker.Exited? ==> s.stopping)
    && (s.destroyed ==> s.tr.worker.Exited?)
  }

  lemma WorkerStep(s: State, e: Event, s': State)
    requires |s.st.table| == P.MAX_PEERS && WorkerInv(s) && Next(s, e) == Some(s')
    ensures WorkerInv(s')
  {
    if !Q.QueueEvent(e) {
      Q.OtherFrame(s, e, s');
    }
  }

  /** What holds in every state of a run of the given kind. */
  ghost predicate Sound(k: Kind, w0: D.World, s: State)
  {
    && Q.Inv(s.tr, s.cfg.depth) && Q.SleepInv(s) && S.Inv(s.st, s.cfg.size) && LogInv(s.tr, s.st.log)
    && WorkerInv(s) && Q.Tally(s.tr.q)
    && (k.Calm? ==> DataInv(w0, s))
  }

  function Start(disk: seq<Byte>): D.World
  {
    D.World(disk, map[])
  }

  lemma QueueInit(depth: nat)
    requires 0 < depth
    ensures Q.Inv(InitTraffic(depth), depth) && LogInv(InitTraffic(depth), [])
  {
    R.EmptyValid(depth);
  }

  lemma TallyInit(depth: nat)
    ensures Q.Tally(InitTraffic(depth).q)
  {
    assert Q.Succeeded(map[]) == {} && Q.Failed(map[]) == {};
  }

  lemma StoreInit(disk: seq<Byte>)
    ensures S.Inv(InitStore(disk), |disk|) && D.ZeroInv(InitStore(disk))
  {
    P.NobodyLeft(P.NoPeers());
  }

  lemma ViewInit(disk: seq<Byte>, override: bool)
    ensures Refines(Start(disk), InitStore(disk), override)
  {
    P.NobodyLeft(P.NoPeers());
    assert D.PeerView(map[], map[]) == map[];
  }

  lemma SoundInit(k: Kind, cfg: Config, enabled: bool, disk: seq<Byte>)
    requires 0 < cfg.depth && |disk| == cfg.size
    ensures Sound(k, Start(disk), Init(cfg, enabled, disk))
  {
    QueueInit(cfg.depth);
    TallyInit(cfg.depth);
    StoreInit(disk);
    ViewInit(disk, cfg.override);
  }

  lemma SoundStep(k: Kind, w0: D.World, s: State, e: Event, s': State)
    requires Sound(k, w0, s) && Allowed(k, s, e) && Next(s, e) == Some(s')
    ensures Sound(k, w0, s') && s'.cfg == s.cfg
  {
    Q.InvStep(s, e, s');
    Q.SleepStep(s, e, s');
    S.InvStep(s, e, s');
    LogStep(s, e, s');
    WorkerStep(s, e, s');
    Q.TallyStep(s, e, s');
    if k.Calm? {
      DataStep(w0, s, e, s');
    }
  }

  lemma {:induction false} RunSound(k: Kind, cfg: Config, enabled: bool, disk: seq<Byte>, es: seq<Event>, s: State)
    requires Reaches(k, cfg, enabled, disk, es, s)
    ensures Sound(k, Start(disk), s) && s.cfg == cfg
  {
    if es == [] {
      SoundInit(k, cfg, enabled, disk);
    } else {
      var last := |es| - 1;
      var m := Run(k, Init(cfg, enabled, disk), es[..last]).value;
      RunSound(k, cfg, enabled, disk, es[..last], m);
      SoundStep(k, Start(disk), m, es[last], s);
    }
  }

  lemma {:induction false} RunCons(k: Kind, s: State, e: Event, m: State, es: seq<Event>)
    requires Allowed(k, s, e) && Next(s, e) == Some(m)
    ensures Run(k, s, [e] + es) == Run(k, m, es)
  {
    if es == [] {
      RunOne(k, s, e);
      assert [e] + es == [e];
    } else {
      var last := |es| - 1;
      RunCons(k, s, e, m, es[..last]);
      assert ([e] + es)[..|es|] == [e] + es[..last];
      SameEnd(k, s, [e] + es, m, es);
    }
  }

  lemma RunSnoc(k: Kind, s: State, es: seq<Event>, m: State, e: Event)
    requires Run(k, s, es) == Some(m) && Allowed(k, m, e)
    ensures Run(k, s, es + [e]) == Next(m, e)
  {
    assert (es + [e])[..|es|] == es;
  }

  lemma RunOne(k: Kind, s: State, e: Event)
    requires Allowed(k, s, e)
    ensures Run(k, s, [e]) == Next(s, e)
  {
    assert [e][..0] == [];
    assert Run(k, s, []) == Some(s);
  }

  /** Runs that agree up to their last event, which they share, agree. */
  lemma SameEnd(k: Kind, s: State, es: seq<Event>, m: State, fs: seq<Event>)
    requires es != [] && fs != [] && es[|es| - 1] == fs[|fs| - 1]
    requires Run(k, s, es[..|es| - 1]) == Run(k, m, fs[..|fs| - 1])
    ensures Run(k, s, es) == Run(k, m, fs)
  {
  }

  lemma RunQueue(k: Kind, cfg: Config, enabled: bool, disk: seq<Byte>, es: seq<Event>, s: State)
    requires Reaches(k, cfg, enabled, disk, es, s)
    ensures Q.Inv(s.tr, s.cfg.depth) && s.cfg == cfg
  {
    RunSound(k, cfg, enabled, disk, es, s);
  }

  // ---------------------------------------------------------------- the ring is a FIFO

  /** In every reachable state the ring holds the accepted requests that have not
      been taken, in order, in exactly the slots from the head on; requests are taken
      in acceptance order; one at most is in flight; and none is lost. */
  lemma RingIsFifo(k: Kind, cfg: Config, enabled: bool, disk: seq<Byte>, es: seq<Event>, s: State)
    requires Reaches(k, cfg, enabled, disk, es, s)
    ensures var q := s.tr.q; var r := q.ring;
            && |r.slots| == cfg.depth && r.pending <= cfg.depth && r.head < cfg.depth
            && r.tail == (r.head + r.pending) % cfg.depth
            && |q.accepted| == |q.taken| + r.pending
            && (forall i :: 0 <= i < r.pending ==> r.slots[R.At(r, i)] == Some(q.accepted[|q.taken| + i]))
            && (forall i :: r.pending <= i < cfg.depth ==> r.slots[R.At(r, i)] == None)
            && (forall i, j :: 0 <= i < j < |q.accepted| ==> q.accepted[i] != q.accepted[j])
            && q.taken <= q.accepted
            && q.inflight <= 1
            && |q.accepted| == r.pending + q.inflight + q.completed + q.failed
  {
    RunSound(k, cfg, enabled, disk, es, s);
    var r := s.tr.q.ring;
    forall i | 0 <= i < r.pending
      ensures r.slots[R.At(r, i)] == Some(s.tr.q.accepted[|s.tr.q.taken| + i])
    {
      assert r.slots[R.At(r, i)] == Some(R.Contents(r)[i]);
    }
  }

  /** In every reachable state `completed` is the number of requests published with
      status 0 and `failed` the number of those published with an error. */
  lemma CountersAreOutcomes(k: Kind, cfg: Config, enabled: bool, disk: seq<Byte>, es: seq<Event>, s: State)
    requires Reaches(k, cfg, enabled, disk, es, s)
    ensures s.tr.q.completed == |set rid | rid in s.tr.q.results && s.tr.q.results[rid] == 0|
    ensures s.tr.q.failed == |set rid | rid in s.tr.q.results && s.tr.q.results[rid] != 0|
  {
    RunSound(k, cfg, enabled, disk, es, s);
    assert Q.Succeeded(s.tr.q.results) == set rid | rid in s.tr.q.results && s.tr.q.results[rid] == 0;
    assert Q.Failed(s.tr.q.results) == set rid | rid in s.tr.q.results && s.tr.q.results[rid] != 0;
  }

  // ------------------------------------------------------------------ request lifetime

  /** A request in the ring or with the worker is still on its caller's stack, not
      done; a caller that has returned was told the published status, and nobody
      else refers to its request any more. */
  lemma StackLifetime(k: Kind, cfg: Config, enabled: bool, disk: seq<Byte>, es: seq<Event>, s: State)
    requires Reaches(k, cfg, enabled, disk, es, s)
    ensures forall rid: Rid :: |s.tr.q.taken| <= rid < |s.tr.q.accepted| ==>
              rid in s.tr.reqs && !s.tr.reqs[rid].done && Q.Awaited(s.tr.callers, rid)
    ensures Q.Busy(s.tr.worker) ==>
              s.tr.worker.rid in s.tr.reqs && !s.tr.reqs[s.tr.worker.rid].done
              && Q.Awaited(s.tr.callers, s.tr.worker.rid)
    ensures forall rid :: rid in s.tr.returned ==>
              && rid < |s.tr.q.taken| && !(Q.Busy(s.tr.worker) && s.tr.worker.rid == rid)
              && rid !in s.tr.reqs
              && rid in s.tr.q.results && s.tr.returned[rid] == s.tr.q.results[rid]
    ensures forall t :: t in s.tr.callers && s.tr.callers[t].asleep ==> s.tr.callers[t].rid !in s.tr.q.results
  {
    RunSound(k, cfg, enabled, disk, es, s);
  }

  /** When the worker leaves its loop, every accepted request is done. */
  lemma DrainedAtExit(k: Kind, cfg: Config, enabled: bool, disk: seq<Byte>, es: seq<Event>, m: State, s: State)
    requires Reaches(k, cfg, enabled, disk, es, m) && Next(m, Exit) == Some(s)
    ensures forall rid :: rid in s.tr.q.accepted ==> rid in s.tr.q.results
    ensures s.tr.q.ring.pending == 0 && s.tr.q.inflight == 0
  {
    RunSound(k, cfg, enabled, disk, es, m);
    ExitIs(m, s);
    IdleIsDone(m.tr, m.cfg.depth);
  }

  lemma ExitIs(m: State, s: State)
    requires Next(m, Exit) == Some(s)
    ensures m.tr.worker.Checking? && m.tr.q.ring.pending == 0 && s.tr.q == m.tr.q
  {
  }

  lemma IdleIsDone(tr: Traffic, depth: nat)
    requires Q.Inv(tr, depth) && tr.q.ring.pending == 0 && !Q.Busy(tr.worker)
    ensures tr.q.inflight == 0 && forall rid :: rid in tr.q.accepted ==> rid in tr.q.results
  {
    assert R.Contents(tr.q.ring) == [];
  }

  /** The worker is never asleep with work to do, and can take what is queued. */
  lemma WorkerAwake(k: Kind, cfg: Config, enabled: bool, disk: seq<Byte>, es: seq<Event>, s: State)
    requires Reaches(k, cfg, enabled, disk, es, s) && s.tr.q.ring.pending > 0
    ensures !s.tr.worker.Sleeping?
    ensures s.tr.worker.Checking? && !s.destroyed ==> Next(s, Take).Some?
  {
    RunSound(k, cfg, enabled, disk, es, s);
    AwakeIn(s);
  }

  lemma AwakeIn(s: State)
    requires Q.Inv(s.tr, s.cfg.depth) && Q.SleepInv(s) && s.tr.q.ring.pending > 0
    ensures !s.tr.worker.Sleeping?
    ensures s.tr.worker.Checking? && !s.destroyed ==> Next(s, Take).Some?
  {
    Q.HeadLive(s.tr, s.cfg.depth);
  }

  // ----------------------------------------------------------------------- end to end

  /** In every run in which no peer is disconnected under a running transfer: the
      backend and every peer's memory are what a sequential execution of the logged
      operations leaves, each transfer copying where it was asked to, or with the
      override at the start of the segment. Every logged transfer is the one its call
      asked for and finds its peer and both ranges; a call told 0 had it executed
      exactly once, any other call never; and they follow the order of acceptance. */
  lemma EndToEnd(cfg: Config, enabled: bool, disk: seq<Byte>, es: seq<Event>, s: State)
    requires Reaches(Calm, cfg, enabled, disk, es, s) && !s.destroyed
    ensures D.Viewable(s.st) && D.View(s.st) == D.Replay(Start(disk), s.st.log, cfg.override)
    ensures forall i :: 0 <= i < |s.st.log| && s.st.log[i].Copied? ==>
              && s.st.log[i].rid < |s.tr.asked| && s.st.log[i].x == s.tr.asked[s.st.log[i].rid]
              && D.Serves(D.Replay(Start(disk), s.st.log[..i], cfg.override), s.st.log[i].x)
    ensures forall rid :: rid in s.tr.returned ==>
              Copies(s.st.log, rid) == if s.tr.returned[rid] == 0 then 1 else 0
    ensures InOrder(s.st.log)
  {
    RunSound(Calm, cfg, enabled, disk, es, s);
    forall i | 0 <= i < |s.st.log| && s.st.log[i].Copied?
      ensures D.Serves(D.Replay(Start(disk), s.st.log[..i], cfg.override), s.st.log[i].x)
    {
      assert EntryServes(Start(disk), s.st.log, cfg.override, i);
    }
    CopiedAsTold(s.tr, s.cfg.depth, s.st.log);
  }

  lemma CopiedAsTold(tr: Traffic, depth: nat, log: seq<Op>)
    requires Q.Inv(tr, depth) && LogInv(tr, log)
    ensures forall rid :: rid in tr.returned ==> Copies(log, rid) == if tr.returned[rid] == 0 then 1 else 0
  {
    forall rid | rid in tr.returned
      ensures Copies(log, rid) == if tr.returned[rid] == 0 then 1 else 0
    {
      assert rid !in tr.reqs;
    }
  }

  /** What a transfer that serves leaves: its bytes in the named place, nothing else
      changed, so that a logged transfer is never an empty gesture. */
  lemma ServedMoves(w: D.World, x: Xfer)
    requires D.Serves(w, x)
    ensures var p := w.peers[x.peer]; var at := x.remote - p.va; var r := D.Requested(w, x);
            && (x.dir == RAMDISK_TO_HBM ==>
                  && r.disk == w.disk && r.peers.Keys == w.peers.Keys
                  && r.peers[x.peer].va == p.va && |r.peers[x.peer].bytes| == |p.bytes|
                  && r.peers[x.peer].bytes[at..at + x.len] == w.disk[x.off..x.off + x.len]
                  && (forall i :: 0 <= i < |p.bytes| && !(at <= i < at + x.len) ==>
                        r.peers[x.peer].bytes[i] == p.bytes[i])
                  && forall id :: id in w.peers && id != x.peer ==> r.peers[id] == w.peers[id])
            && (x.dir == HBM_TO_RAMDISK ==>
                  && r.peers == w.peers && |r.disk| == |w.disk|
                  && r.disk[x.off..x.off + x.len] == p.bytes[at..at + x.len]
                  && forall i :: 0 <= i < |w.disk| && !(x.off <= i < x.off + x.len) ==> r.disk[i] == w.disk[i])
  {
    D.RequestedIs(w, x, w.peers[x.peer]);
  }

  /** With or without the override, the memcpy stays inside both buffers. */
  lemma TransferInBounds(cfg: Config, enabled: bool, disk: seq<Byte>, es: seq<Event>, s: State)
    requires Reaches(Calm, cfg, enabled, disk, es, s) && s.tr.worker.Executing?
    ensures s.tr.worker.rid in s.tr.reqs && s.tr.worker.slot < |s.st.table| && s.st.table[s.tr.worker.slot].Active?
    ensures var req := s.tr.reqs[s.tr.worker.rid]; var p := s.st.table[s.tr.worker.slot];
            CopyFits(s.st.mem, req.x, p.hbm, req.remote - p.va)
  {
    RunSound(Calm, cfg, enabled, disk, es, s);
    D.InBounds(s.st, cfg, s.tr.worker.slot, s.tr.reqs[s.tr.worker.rid]);
  }

  // ------------------------------------------------------------------------- buffers

  ghost predicate OneOwner(st: Store, b: P.Buf)
  {
    && (exists o :: S.OwnedThere(b, o, st.table, st.admins))
    && (forall o, o' :: S.OwnedThere(b, o, st.table, st.admins) && S.OwnedThere(b, o', st.table, st.admins) ==> o == o')
  }

  /** Every allocated peer buffer belongs to one active slot or one call in progress,
      buffers of peers have the segment's length, and destroy leaves none. */
  lemma BuffersOwnedOnce(k: Kind, cfg: Config, enabled: bool, disk: seq<Byte>, es: seq<Event>, s: State)
    requires Reaches(k, cfg, enabled, disk, es, s)
    ensures forall b :: b in s.st.mem.hbm ==> OneOwner(s.st, b)
    ensures forall i :: 0 <= i < |s.st.table| && s.st.table[i].Active? ==>
              s.st.table[i].hbm in s.st.mem.hbm && |s.st.mem.hbm[s.st.table[i].hbm]| == s.st.table[i].len
    ensures P.WellFormed(s.st.table)
    ensures s.destroyed ==> s.st.mem.hbm == map[]
  {
    RunSound(k, cfg, enabled, disk, es, s);
    forall b | b in s.st.mem.hbm ensures OneOwner(s.st, b) {
      OwnerIsOne(s.st, cfg.size, b);
    }
    if s.destroyed {
      DestroyedEmpty(k, cfg, enabled, disk, es, s);
    }
  }

  lemma OwnerIsOne(st: Store, size: nat, b: P.Buf)
    requires S.Inv(st, size) && b in st.mem.hbm
    ensures OneOwner(st, b)
  {
    assert S.OwnedThere(b, st.owner[b], st.table, st.admins);
    forall o | S.OwnedThere(b, o, st.table, st.admins) ensures o == st.owner[b] {
    }
  }

  lemma DestroyedEmpty(k: Kind, cfg: Config, enabled: bool, disk: seq<Byte>, es: seq<Event>, s: State)
    requires Reaches(k, cfg, enabled, disk, es, s) && s.destroyed
    ensures s.st.mem.hbm == map[]
  {
    if es == [] {
      assert false;
    } else {
      var last := |es| - 1;
      var m := Run(k, Init(cfg, enabled, disk), es[..last]).value;
      RunSound(k, cfg, enabled, disk, es[..last], m);
      DestroyedBy(m, es[last], s);
      S.DestroyKeeps(m.st, cfg.size, s.st);
    }
  }

  lemma DestroyedBy(m: State, e: Event, s: State)
    requires Next(m, e) == Some(s) && s.destroyed
    ensures e.DestroyPeers? && DoDestroy(m.st) == Some(s.st)
  {
  }

}
