/** What the transfers of the URMA manager do to the bytes, over every run in which
    the peer of a running transfer stays connected. */
module UrmaManagerData {
  import opened Common
  import opened UrmaManager
  import P = PeerTable
  import Q = UrmaManagerQueue
  import S = UrmaManagerStore

  // ------------------------------------------------- the system, seen from outside

  datatype RemotePeer = RemotePeer(va: nat, bytes: seq<Byte>)

  /** The backend, and the memory of each connected peer. */
  datatype World = World(disk: seq<Byte>, peers: map<nat, RemotePeer>)

  /** The copy a transfer asks for: `len` bytes between the backend at `off` and the
      named peer at `remote - va`, in the requested direction. */
  function Requested(w: World, x: Xfer): World
  {
    if !(x.peer in w.peers && InRange(|w.disk|, x.off, x.len) && w.peers[x.peer].va <= x.remote
         && InRange(|w.peers[x.peer].bytes|, x.remote - w.peers[x.peer].va, x.len)) then w
    else
      var p := w.peers[x.peer];
      var at := x.remote - p.va;
      if x.dir == RAMDISK_TO_HBM then
        w.(peers := w.peers[x.peer := p.(bytes := Overwrite(p.bytes, at, w.disk[x.off..x.off + x.len]))])
      else
        w.(disk := Overwrite(w.disk, x.off, p.bytes[at..at + x.len]))
  }

  /** The transfer can do its work: a connected peer, and both ranges inside. */
  predicate Serves(w: World, x: Xfer)
  {
    && x.peer in w.peers && x.len > 0 && (x.dir == RAMDISK_TO_HBM || x.dir == HBM_TO_RAMDISK)
    && InRange(|w.disk|, x.off, x.len)
    && w.peers[x.peer].va <= x.remote && InRange(|w.peers[x.peer].bytes|, x.remote - w.peers[x.peer].va, x.len)
  }

  /** With the override every transfer is aimed at the start of the segment. */
  function Aimed(w: World, x: Xfer, override: bool): Xfer
  {
    if override && x.peer in w.peers then x.(remote := w.peers[x.peer].va) else x
  }

  /** What the operations other than transfers do. */
  function Changed(w: World, op: Op): World
    requires !op.Copied?
  {
    match op
    case Connected(id, va, len) => w.(peers := w.peers[id := RemotePeer(va, Zeros(len))])
    case Disconnected(id) => w.(peers := w.peers - {id})
    case Written(off, data) =>
      if InRange(|w.disk|, off, |data|) then w.(disk := Overwrite(w.disk, off, data)) else w
    case Poked(id, addr, data) =>
      if id in w.peers && w.peers[id].va <= addr && InRange(|w.peers[id].bytes|, addr - w.peers[id].va, |data|) then
        w.(peers := w.peers[id := w.peers[id].(bytes := Overwrite(w.peers[id].bytes, addr - w.peers[id].va, data))])
      else w
  }

  function Effect(w: World, op: Op, override: bool): World
  {
    if op.Copied? then Requested(w, Aimed(w, op.x, override)) else Changed(w, op)
  }

  /** Sequential execution of the operations, oldest first. */
  function Replay(w: World, ops: seq<Op>, override: bool): World
  {
    if ops == [] then w else Effect(Replay(w, ops[..|ops| - 1], override), ops[|ops| - 1], override)
  }

  ghost predicate Backed(peers: map<nat, P.Slot>, hbm: map<P.Buf, seq<Byte>>)
  {
    forall id :: id in peers ==> peers[id].Active? && peers[id].id == id && peers[id].hbm in hbm
  }

  ghost function PeerView(peers: map<nat, P.Slot>, hbm: map<P.Buf, seq<Byte>>): map<nat, RemotePeer>
    requires Backed(peers, hbm)
  {
    map id | id in peers :: RemotePeer(peers[id].va, hbm[peers[id].hbm])
  }

  ghost predicate Viewable(st: Store)
  {
    P.WellFormed(st.table) && Backed(P.Peers(st.table), st.mem.hbm)
  }

  lemma InvBacked(st: Store, size: nat)
    requires S.Inv(st, size)
    ensures Viewable(st)
  {
  }

  ghost function View(st: Store): World
    requires Viewable(st)
  {
    World(st.mem.disk, PeerView(P.Peers(st.table), st.mem.hbm))
  }

  /** Whatever was appended to the log is what happened to the view. */
  ghost predicate Explains(st: Store, st': Store)
    requires Viewable(st) && Viewable(st')
  {
    || (st'.log == st.log && View(st') == View(st))
    || (exists op :: st'.log == st.log + [op] && !op.Copied? && View(st') == Changed(View(st), op))
  }

  /** Buffers of peers that are not connected yet are still zero. */
  ghost predicate ZeroInv(st: Store)
  {
    forall t :: t in st.admins && st.admins[t].Connecting? && st.admins[t].p.Active? ==>
      st.admins[t].p.hbm in st.mem.hbm && st.mem.hbm[st.admins[t].p.hbm] == Zeros(st.admins[t].p.len)
  }

  // --------------------------------------------------------------- control calls

  /** The buffers of connected peers are the same bytes. */
  ghost predicate SameBytes(peers: map<nat, P.Slot>, hbm: map<P.Buf, seq<Byte>>, hbm': map<P.Buf, seq<Byte>>)
    requires Backed(peers, hbm)
  {
    forall id :: id in peers ==> peers[id].hbm in hbm' && hbm'[peers[id].hbm] == hbm[peers[id].hbm]
  }

  /** Buffer b belongs to no connected peer. */
  ghost predicate Unconnected(peers: map<nat, P.Slot>, b: P.Buf)
  {
    forall id :: id in peers && peers[id].Active? ==> peers[id].hbm != b
  }

  lemma InCallUnconnected(st: Store, size: nat, b: P.Buf)
    requires S.Inv(st, size) && (b in st.owner ==> st.owner[b].InCall?)
    ensures Unconnected(P.Peers(st.table), b)
  {
    forall id | id in P.Peers(st.table) ensures P.Peers(st.table)[id].hbm != b {
      var k :| 0 <= k < |st.table| && st.table[k].Active? && st.table[k].id == id;
      assert st.owner[st.table[k].hbm] == InSlot(k);
    }
  }

  lemma AllocExplained(st: Store, size: nat, t: Tid, id: nat, va: nat, len: nat, st': Store)
    requires S.Inv(st, size) && Viewable(st) && Viewable(st') && DoConnectAlloc(st, t, id, va, len) == Some(st')
    ensures Explains(st, st')
  {
    assert st.nextBuf !in st.owner;
    InCallUnconnected(st, size, st.nextBuf);
    SameViewUnder(P.Peers(st.table), st.mem.hbm, st'.mem.hbm);
  }

  lemma SameViewUnder(peers: map<nat, P.Slot>, hbm: map<P.Buf, seq<Byte>>, hbm': map<P.Buf, seq<Byte>>)
    requires Backed(peers, hbm) && SameBytes(peers, hbm, hbm')
    ensures Backed(peers, hbm') && PeerView(peers, hbm') == PeerView(peers, hbm)
  {
  }

  lemma FreeExplained(st: Store, size: nat, t: Tid, st': Store)
    requires S.Inv(st, size) && Viewable(st) && Viewable(st') && DoFree(st, t) == Some(st')
    ensures Explains(st, st')
  {
    var b := st.admins[t].buf;
    assert S.HeldBuf(st.admins[t]) == Some(b);
    InCallUnconnected(st, size, b);
    SameViewUnder(P.Peers(st.table), st.mem.hbm, st'.mem.hbm);
  }

  lemma ViewInsert(peers: map<nat, P.Slot>, hbm: map<P.Buf, seq<Byte>>, p: P.Slot)
    requires Backed(peers, hbm) && p.Active? && p.hbm in hbm
    ensures Backed(peers[p.id := p], hbm)
    ensures PeerView(peers[p.id := p], hbm) == PeerView(peers, hbm)[p.id := RemotePeer(p.va, hbm[p.hbm])]
  {
  }

  lemma InsertExplained(st: Store, size: nat, enabled: bool, t: Tid, st': Store)
    requires S.Inv(st, size) && Viewable(st) && Viewable(st') && DoConnectInsert(st, enabled, t) == Some(st')
    requires st.mem.hbm[st.admins[t].p.hbm] == Zeros(st.admins[t].p.len)
    ensures Explains(st, st')
  {
    var p := st.admins[t].p;
    if st'.log != st.log {
      P.FindIsLookup(st.table, p.id);
      P.InsertIsUpdate(st.table, P.FreeSlot(st.table).value, p);
      ViewInsert(P.Peers(st.table), st.mem.hbm, p);
      assert View(st') == Changed(View(st), Connected(p.id, p.va, p.len));
    }
  }

  lemma ViewRemove(peers: map<nat, P.Slot>, hbm: map<P.Buf, seq<Byte>>, id: nat)
    requires Backed(peers, hbm)
    ensures Backed(peers - {id}, hbm)
    ensures PeerView(peers - {id}, hbm) == PeerView(peers, hbm) - {id}
  {
  }

  lemma DisconnectExplained(st: Store, size: nat, t: Tid, id: nat, st': Store)
    requires S.Inv(st, size) && Viewable(st) && Viewable(st') && DoDisconnect(st, t, id) == Some(st')
    ensures Explains(st, st')
  {
    if P.Find(st.table, id).Some? {
      P.RemoveIsDelete(st.table, P.Find(st.table, id).value);
      ViewRemove(P.Peers(st.table), st.mem.hbm, id);
      assert View(st') == Changed(View(st), Disconnected(id));
    }
  }

  lemma DiskWriteExplained(st: Store, size: nat, off: nat, data: seq<Byte>, st': Store)
    requires S.Inv(st, size) && Viewable(st) && Viewable(st') && DoDiskWrite(st, off, data) == Some(st')
    ensures Explains(st, st')
  {
    assert View(st') == Changed(View(st), Written(off, data));
  }

  /** Distinct connected peers have distinct buffers. */
  ghost predicate Apart(peers: map<nat, P.Slot>, p: P.Slot)
  {
    p.Active? && p.id in peers && peers[p.id] == p
    && forall id :: id in peers && id != p.id && peers[id].Active? ==> peers[id].hbm != p.hbm
  }

  lemma SlotApart(st: Store, size: nat, i: nat)
    requires S.Inv(st, size) && i < |st.table| && st.table[i].Active?
    ensures Apart(P.Peers(st.table), st.table[i])
  {
    forall id | id in P.Peers(st.table) && id != st.table[i].id
      ensures P.Peers(st.table)[id].hbm != st.table[i].hbm
    {
      var k :| 0 <= k < |st.table| && st.table[k].Active? && st.table[k].id == id;
      assert st.owner[st.table[k].hbm] == InSlot(k) && st.owner[st.table[i].hbm] == InSlot(i);
    }
  }

  /** New bytes in one peer's buffer change that peer and nothing else. */
  lemma ViewRefill(peers: map<nat, P.Slot>, hbm: map<P.Buf, seq<Byte>>, p: P.Slot, bytes: seq<Byte>)
    requires Backed(peers, hbm) && Apart(peers, p)
    ensures Backed(peers, hbm[p.hbm := bytes])
    ensures PeerView(peers, hbm)[p.id] == RemotePeer(p.va, hbm[p.hbm])
    ensures PeerView(peers, hbm[p.hbm := bytes]) == PeerView(peers, hbm)[p.id := RemotePeer(p.va, bytes)]
  {
  }

  /** A connected peer as the view shows it. */
  lemma PeerSeen(st: Store, p: P.Slot)
    requires Viewable(st) && Apart(P.Peers(st.table), p)
    ensures p.hbm in st.mem.hbm && p.id in View(st).peers
    ensures View(st).peers[p.id] == RemotePeer(p.va, st.mem.hbm[p.hbm])
  {
  }

  lemma Refilled(st: Store, p: P.Slot, bytes: seq<Byte>, st': Store)
    requires Viewable(st) && Viewable(st') && Apart(P.Peers(st.table), p)
    requires st'.table == st.table && st'.mem == st.mem.(hbm := st.mem.hbm[p.hbm := bytes])
    ensures View(st') == View(st).(peers := View(st).peers[p.id := RemotePeer(p.va, bytes)])
  {
    ViewRefill(P.Peers(st.table), st.mem.hbm, p, bytes);
  }

  lemma PokedIs(w: World, id: nat, addr: nat, data: seq<Byte>, p: RemotePeer)
    requires id in w.peers && w.peers[id] == p && p.va <= addr && InRange(|p.bytes|, addr - p.va, |data|)
    ensures Changed(w, Poked(id, addr, data)) ==
            w.(peers := w.peers[id := RemotePeer(p.va, Overwrite(p.bytes, addr - p.va, data))])
  {
  }

  lemma PokeExplained(st: Store, size: nat, id: nat, addr: nat, data: seq<Byte>, st': Store)
    requires S.Inv(st, size) && Viewable(st) && Viewable(st') && DoPoke(st, id, addr, data) == Some(st')
    ensures Explains(st, st')
  {
    if st'.log != st.log {
      var i := P.Find(st.table, id).value;
      SlotApart(st, size, i);
      PokeView(st, st.table[i], addr, data, st');
    }
  }

  lemma PokeView(st: Store, p: P.Slot, addr: nat, data: seq<Byte>, st': Store)
    requires Viewable(st) && Viewable(st') && Apart(P.Peers(st.table), p)
    requires p.va <= addr && p.hbm in st.mem.hbm && addr - p.va + |data| <= |st.mem.hbm[p.hbm]|
    requires st'.table == st.table
    requires st'.mem == st.mem.(hbm := st.mem.hbm[p.hbm := Overwrite(st.mem.hbm[p.hbm], addr - p.va, data)])
    ensures View(st') == Changed(View(st), Poked(p.id, addr, data))
  {
    PeerSeen(st, p);
    var bytes := st.mem.hbm[p.hbm];
    Refilled(st, p, Overwrite(bytes, addr - p.va, data), st');
    PokedIn(View(st), View(st'), p, bytes, addr, data);
  }

  lemma PokedIn(w: World, w': World, p: P.Slot, bytes: seq<Byte>, addr: nat, data: seq<Byte>)
    requires p.Active? && p.id in w.peers && w.peers[p.id] == RemotePeer(p.va, bytes)
    requires p.va <= addr && addr - p.va + |data| <= |bytes|
    requires w' == w.(peers := w.peers[p.id := RemotePeer(p.va, Overwrite(bytes, addr - p.va, data))])
    ensures w' == Changed(w, Poked(p.id, addr, data))
  {
    PokedIs(w, p.id, addr, data, w.peers[p.id]);
  }

  // -------------------------------------------------------------------- transfer

  /** A transfer that runs is the one its verdict was about. */
  ghost predicate Fits(cfg: Config, table: P.Table, slot: nat, req: Request)
  {
    var x := req.x;
    && P.IsPeer(table, slot, x.peer) && x.len > 0
    && table[slot].va <= x.remote
    && InRange(table[slot].len, x.remote - table[slot].va, x.len)
    && InRange(cfg.size, x.off, x.len)
    && (x.dir == RAMDISK_TO_HBM || x.dir == HBM_TO_RAMDISK)
    && req.remote == if cfg.override then table[slot].va else x.remote
  }

  /** Both variants stay inside the peer's buffer and the backend. */
  lemma InBounds(st: Store, cfg: Config, slot: nat, req: Request)
    requires S.Inv(st, cfg.size) && Fits(cfg, st.table, slot, req)
    ensures CopyFits(st.mem, req.x, st.table[slot].hbm, req.remote - st.table[slot].va)
  {
  }

  lemma RequestedIs(w: World, x: Xfer, p: RemotePeer)
    requires x.peer in w.peers && w.peers[x.peer] == p && p.va <= x.remote
    requires InRange(|w.disk|, x.off, x.len) && InRange(|p.bytes|, x.remote - p.va, x.len)
    ensures x.dir == RAMDISK_TO_HBM ==>
              Requested(w, x) == w.(peers := w.peers[x.peer := RemotePeer(p.va,
                Overwrite(p.bytes, x.remote - p.va, w.disk[x.off..x.off + x.len]))])
    ensures x.dir == HBM_TO_RAMDISK ==>
              Requested(w, x) == w.(disk :=
                Overwrite(w.disk, x.off, p.bytes[x.remote - p.va..x.remote - p.va + x.len]))
  {
  }

  lemma TransferIsCopy(st: Store, cfg: Config, rid: Rid, req: Request, slot: nat, junk: Memory, st': Store)
    requires S.Inv(st, cfg.size)
    requires Fits(cfg, st.table, slot, req) && Transfer(st, rid, req, slot, junk) == Some(st')
    ensures st'.log == st.log + [Copied(rid, req.x)] && st'.table == st.table
    ensures CopyFits(st.mem, req.x, st.table[slot].hbm, req.remote - st.table[slot].va)
    ensures st'.mem == Copy(st.mem, req.x, st.table[slot].hbm, req.remote - st.table[slot].va)
  {
    InBounds(st, cfg, slot, req);
  }

  lemma CopyView(st: Store, x: Xfer, p: P.Slot, st': Store)
    requires Viewable(st) && Viewable(st') && Apart(P.Peers(st.table), p) && p.id == x.peer
    requires x.dir == RAMDISK_TO_HBM || x.dir == HBM_TO_RAMDISK
    requires CopyFits(st.mem, x, p.hbm, x.remote - p.va)
    requires st'.table == st.table && st'.mem == Copy(st.mem, x, p.hbm, x.remote - p.va)
    ensures View(st') == Requested(View(st), x)
  {
    PeerSeen(st, p);
    var bytes := st.mem.hbm[p.hbm];
    RequestedIs(View(st), x, RemotePeer(p.va, bytes));
    if x.dir == RAMDISK_TO_HBM {
      Refilled(st, p, Overwrite(bytes, x.remote - p.va, st.mem.disk[x.off..x.off + x.len]), st');
    }
  }

  /** The copy does not look at the address it was asked for. */
  lemma SameCopy(mem: Memory, x: Xfer, hbm: P.Buf, at: nat, remote: nat)
    requires CopyFits(mem, x, hbm, at)
    ensures CopyFits(mem, x.(remote := remote), hbm, at)
    ensures Copy(mem, x.(remote := remote), hbm, at) == Copy(mem, x, hbm, at)
  {
  }

  /** Seen from outside, a fitting transfer serves and is aimed at its address. */
  lemma FitsServes(st: Store, cfg: Config, slot: nat, req: Request)
    requires S.Inv(st, cfg.size) && Viewable(st) && Fits(cfg, st.table, slot, req)
    ensures Serves(View(st), req.x)
    ensures Aimed(View(st), req.x, cfg.override) == req.x.(remote := req.remote)
  {
    SlotApart(st, cfg.size, slot);
    PeerSeen(st, st.table[slot]);
  }

  /** A transfer is exactly the copy that was asked for, or with the override the one
      at the start of the segment; and what was asked for was in range. */
  lemma TransferExplained(st: Store, cfg: Config, rid: Rid, req: Request, slot: nat, junk: Memory, st': Store)
    requires S.Inv(st, cfg.size) && Viewable(st) && Viewable(st')
    requires Fits(cfg, st.table, slot, req) && Transfer(st, rid, req, slot, junk) == Some(st')
    ensures st'.log == st.log + [Copied(rid, req.x)] && Serves(View(st), req.x)
    ensures View(st') == Requested(View(st), Aimed(View(st), req.x, cfg.override))
  {
    var p := st.table[slot];
    TransferIsCopy(st, cfg, rid, req, slot, junk, st');
    FitsServes(st, cfg, slot, req);
    SlotApart(st, cfg.size, slot);
    SameCopy(st.mem, req.x, p.hbm, req.remote - p.va, req.remote);
    CopyView(st, req.x.(remote := req.remote), p, st');
  }

  // ------------------------------------------------------------ the running transfer

  ghost predicate ExecInv(s: State)
  {
    s.tr.worker.Executing? ==>
      s.tr.worker.rid in s.tr.reqs && Fits(s.cfg, s.st.table, s.tr.worker.slot, s.tr.reqs[s.tr.worker.rid])
  }

  lemma ValidateFits(cfg: Config, enabled: bool, table: P.Table, req: Request)
    requires req.remote == req.x.remote
    ensures var v := Validate(cfg, enabled, table, req.x.(remote := req.remote));
            v.Good? ==> Fits(cfg, table, v.slot, req.(remote := if cfg.override then table[v.slot].va else req.remote))
  {
    assert req.x.(remote := req.remote) == req.x;
  }

  lemma ExecByTake(s: State, s': State)
    requires Q.Inv(s.tr, s.cfg.depth) && DoTake(s) == Some(s')
    ensures ExecInv(s')
  {
    var rid := HeadRid(s.tr);
    Q.TakeKeeps(s.tr, s.cfg.depth, Bad(0), 0);
    ValidateFits(s.cfg, s.enabled, s.st.table, s.tr.reqs[rid]);
  }

  /** A connected slot is left alone by every control call but its own disconnect. */
  lemma SlotStays(st: Store, enabled: bool, e: Event, st': Store, i: nat)
    requires StoreEvent(e) && !e.DestroyPeers? && NextStore(st, enabled, e) == Some(st')
    requires i < |st.table| && st.table[i].Active?
    requires e.DisconnectClear? ==> !P.IsPeer(st.table, i, e.id)
    ensures i < |st'.table| && st'.table[i] == st.table[i]
  {
  }

  lemma ExecFrame(s: State, e: Event, s': State)
    requires !StoreEvent(e) && !e.Take? && !e.Wake? && Next(s, e) == Some(s')
    requires s.tr.worker.Executing? ==> s.tr.worker.rid < |s.tr.asked|
    ensures s'.tr.worker.Executing? ==>
              && s'.tr.worker == s.tr.worker && s'.cfg == s.cfg && s'.st == s.st
              && (s.tr.worker.rid in s.tr.reqs ==>
                    s.tr.worker.rid in s'.tr.reqs && s'.tr.reqs[s.tr.worker.rid] == s.tr.reqs[s.tr.worker.rid])
  {
  }

  /** A caller leaves with a finished request, not with the running one. */
  lemma ExecByWake(s: State, e: Event, s': State)
    requires Q.Inv(s.tr, s.cfg.depth) && ExecInv(s) && e.Wake? && Next(s, e) == Some(s')
    ensures ExecInv(s')
  {
  }

  lemma ExecStep(s: State, e: Event, s': State)
    requires Q.Inv(s.tr, s.cfg.depth) && ExecInv(s) && Allowed(Calm, s, e) && Next(s, e) == Some(s')
    ensures ExecInv(s')
  {
    if e.Take? {
      ExecByTake(s, s');
    } else if StoreEvent(e) {
      if s.tr.worker.Executing? {
        SlotStays(s.st, s.enabled, e, s'.st, s.tr.worker.slot);
      }
    } else if e.Wake? {
      ExecByWake(s, e, s');
    } else {
      ExecFrame(s, e, s');
    }
  }

  // ------------------------------------------------------------------ zero buffers

  lemma ZeroByStore(st: Store, size: nat, enabled: bool, e: Event, st': Store)
    requires S.Inv(st, size) && ZeroInv(st) && StoreEvent(e) && NextStore(st, enabled, e) == Some(st')
    ensures ZeroInv(st')
  {
    forall u | u in st.admins && st.admins[u].Connecting?
      ensures st.owner[st.admins[u].p.hbm] == InCall(u)
    {
      assert S.HeldBuf(st.admins[u]) == Some(st.admins[u].p.hbm);
    }
    forall i | 0 <= i < |st.table| && st.table[i].Active? ensures st.owner[st.table[i].hbm] == InSlot(i) {
    }
  }

  lemma ZeroByTransfer(st: Store, cfg: Config, rid: Rid, req: Request, slot: nat, junk: Memory, st': Store)
    requires S.Inv(st, cfg.size) && ZeroInv(st)
    requires Fits(cfg, st.table, slot, req) && Transfer(st, rid, req, slot, junk) == Some(st')
    ensures ZeroInv(st')
  {
    TransferIsCopy(st, cfg, rid, req, slot, junk, st');
    forall u | u in st.admins && st.admins[u].Connecting?
      ensures st.admins[u].p.hbm != st.table[slot].hbm
    {
      assert S.HeldBuf(st.admins[u]) == Some(st.admins[u].p.hbm);
      assert st.owner[st.table[slot].hbm] == InSlot(slot);
    }
  }
}
