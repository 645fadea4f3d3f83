/** The URMA manager of userspace-nbd/src/ramdisk_urma.c as a transition system:
    callers of transfer_sync, one worker, control calls and teardown. An event is
    one critical section of `mgr->lock`, or the transfer the worker makes under the
    backend lock, or a call into malloc/free made without a lock. */
module UrmaManager {
  import opened Common
  import R = Ring
  import P = PeerTable

  type Tid = nat
  type Rid = nat

  const RAMDISK_TO_HBM: nat := 1
  const HBM_TO_RAMDISK: nat := 2

  /** struct ramdisk_ctrl_urma_transfer. */
  datatype Xfer = Xfer(peer: nat, request: nat, off: nat, remote: nat, len: nat, dir: nat)

  /** Constants of one manager: queue depth, backend geometry, and whether lines
      693-694 (the remote address replaced by the start of the segment) are in. */
  datatype Config = Config(depth: nat, size: nat, blockSize: nat, override: bool)

  // ------------------------------------------------------------------ traffic

  /** The request on the stack of its submitter. `remote` is what the worker uses. */
  datatype Request = Request(x: Xfer, remote: nat, done: bool, status: int)

  datatype WorkerPc =
    | Checking
    | Sleeping
    | Executing(rid: Rid, slot: nat)
    | Executed(rid: Rid, rc: int)
    | Exited

  /** A caller inside the wait loop of transfer_sync. */
  datatype Waiting = Waiting(rid: Rid, asleep: bool)

  /** Ring and counters, with the history of acceptance, dequeue and outcome. */
  datatype Queue = Queue(
    ring: R.Ring, inflight: nat, completed: nat, failed: nat,
    accepted: seq<Rid>, taken: seq<Rid>, results: map<Rid, int>)

  /** Everything about requests. `asked` and `returned` are history: what each
      accepted call asked for and what it was told. */
  datatype Traffic = Traffic(
    q: Queue,
    worker: WorkerPc,
    reqs: map<Rid, Request>,
    callers: map<Tid, Waiting>,
    asked: seq<Xfer>,
    returned: map<Rid, int>)

  // -------------------------------------------------------------------- memory

  /** A connect that has its buffer but not the lock, or a buffer on its way to free. */
  datatype AdminPc = Connecting(p: P.Slot) | Freeing(buf: P.Buf)

  datatype Owner = InSlot(i: nat) | InCall(t: Tid)

  /** What has happened to the memory, in order. */
  datatype Op =
    | Copied(rid: Rid, x: Xfer)
    | Connected(id: nat, va: nat, len: nat)
    | Disconnected(id: nat)
    | Written(off: nat, data: seq<Byte>)
    | Poked(id: nat, addr: nat, data: seq<Byte>)

  /** Peers, their buffers and the backend; `owner` and `log` are history. */
  datatype Store = Store(
    table: P.Table,
    admins: map<Tid, AdminPc>,
    mem: Memory,
    owner: map<P.Buf, Owner>,
    nextBuf: P.Buf,
    log: seq<Op>)

  datatype State = State(cfg: Config, enabled: bool, stopping: bool, destroyed: bool, tr: Traffic, st: Store)

  datatype Event =
    | Submit(t: Tid, x: Xfer)
    | Wake(t: Tid)
    | Sleep
    | Nudge
    | Take
    | Exit
    | Exec(junk: Memory)
    | Publish
    | Enable
    | Disable
    | Stop
    | ConnectAlloc(t: Tid, id: nat, va: nat, len: nat)
    | ConnectInsert(t: Tid)
    | DisconnectClear(t: Tid, id: nat)
    | Free(t: Tid)
    | DestroyPeers
    | DiskWrite(wOff: nat, data: seq<Byte>)
    | Poke(id: nat, addr: nat, data: seq<Byte>)

  function InitTraffic(depth: nat): Traffic
  {
    Traffic(Queue(R.Empty(depth), 0, 0, 0, [], [], map[]), Checking, map[], map[], [], map[])
  }

  function InitStore(disk: seq<Byte>): Store
  {
    Store(P.NoPeers(), map[], Memory(disk, map[]), map[], 0, [])
  }

  function Init(cfg: Config, enabled: bool, disk: seq<Byte>): State
  {
    State(cfg, enabled, false, false, InitTraffic(cfg.depth), InitStore(disk))
  }

  // -------------------------------------------------------------- validation

  /** ramdisk_backend_validate_range on an initialized backend. */
  predicate InRange(size: nat, off: nat, len: nat)
  {
    off <= size && len <= size - off
  }

  predicate Aligned(bs: nat, x: Xfer)
  {
    bs != 0 && x.off % bs == 0 && x.remote % bs == 0 && x.len % bs == 0
  }

  /** validate_xfer_locked: the error, or the slot of the peer. */
  datatype Verdict = Bad(rc: int) | Good(slot: nat)

  function Validate(cfg: Config, enabled: bool, table: P.Table, x: Xfer): (v: Verdict)
    ensures v.Bad? ==> v.rc != 0
    ensures v.Good? ==> v.slot < |table| && P.IsPeer(table, v.slot, x.peer)
  {
    if !enabled then Bad(-EOPNOTSUPP)
    else if x.len == 0 then Bad(-EINVAL)
    else if x.dir != RAMDISK_TO_HBM && x.dir != HBM_TO_RAMDISK then Bad(-EINVAL)
    else if !InRange(cfg.size, x.off, x.len) then Bad(-ERANGE)
    else if !Aligned(cfg.blockSize, x) then Bad(-EINVAL)
    else
      match P.Find(table, x.peer)
      case None => Bad(-ENODEV)
      case Some(i) =>
        if x.remote < table[i].va then Bad(-ERANGE)
        else if !InRange(table[i].len, x.remote - table[i].va, x.len) then Bad(-ERANGE)
        else Good(i)
  }

  // ------------------------------------------------------------------ callers

  /** The enqueue of transfer_sync and the start of its wait. */
  function Accept(tr: Traffic, t: Tid, x: Xfer): Traffic
    requires tr.q.ring.tail < |tr.q.ring.slots|
  {
    var rid := |tr.asked|;
    Traffic(tr.q.(ring := R.Put(tr.q.ring, rid), accepted := tr.q.accepted + [rid]),
            Woken(tr.worker),
            tr.reqs[rid := Request(x, x.remote, false, 0)],
            tr.callers[t := Waiting(rid, true)],
            tr.asked + [x],
            tr.returned)
  }

  /** not_empty is signalled. */
  function Woken(w: WorkerPc): WorkerPc
  {
    if w.Sleeping? then Checking else w
  }

  /** A waiter gets the lock back: it returns if its request is done, else waits again. */
  function DoWake(tr: Traffic, t: Tid): Option<Traffic>
  {
    if !(t in tr.callers && tr.callers[t].rid in tr.reqs) then None
    else
      var rid := tr.callers[t].rid;
      if tr.reqs[rid].done then
        Some(tr.(callers := tr.callers - {t}, reqs := tr.reqs - {rid},
                 returned := tr.returned[rid := tr.reqs[rid].status]))
      else Some(tr.(callers := tr.callers[t := Waiting(rid, true)]))
  }

  /** A rejected call returns its error and changes nothing. */
  function DoSubmit(s: State, t: Tid, x: Xfer): Option<State>
  {
    if t in s.tr.callers then None
    else if Validate(s.cfg, s.enabled, s.st.table, x).Bad? || s.tr.q.ring.pending >= s.cfg.depth then Some(s)
    else if s.tr.q.ring.tail >= |s.tr.q.ring.slots| then None
    else Some(s.(tr := Accept(s.tr, t, x)))
  }

  // ------------------------------------------------------------------- worker

  predicate CanTake(tr: Traffic)
  {
    && tr.worker.Checking? && tr.q.ring.pending > 0 && tr.q.ring.head < |tr.q.ring.slots|
    && tr.q.ring.slots[tr.q.ring.head].Some? && tr.q.ring.slots[tr.q.ring.head].value in tr.reqs
  }

  function HeadRid(tr: Traffic): Rid
    requires CanTake(tr)
  {
    tr.q.ring.slots[tr.q.ring.head].value
  }

  /** Dequeue; the verdict decides whether the transfer runs, and at which address. */
  function Taken(tr: Traffic, v: Verdict, remote: nat): Traffic
    requires CanTake(tr)
  {
    var rid := HeadRid(tr);
    tr.(q := tr.q.(ring := R.Take(tr.q.ring), inflight := tr.q.inflight + 1, taken := tr.q.taken + [rid]),
        worker := if v.Bad? then Executed(rid, v.rc) else Executing(rid, v.slot),
        reqs := tr.reqs[rid := tr.reqs[rid].(remote := remote)])
  }

  /** Lines 671-695, the override guarded by the validation it depends on. */
  function DoTake(s: State): Option<State>
  {
    if !CanTake(s.tr) then None
    else
      var req := s.tr.reqs[HeadRid(s.tr)];
      var v := Validate(s.cfg, s.enabled, s.st.table, req.x.(remote := req.remote));
      var remote := if v.Good? && s.cfg.override then s.st.table[v.slot].va else req.remote;
      Some(s.(tr := Taken(s.tr, v, remote)))
  }

  /** done_cond of the request is signalled. */
  function Roused(callers: map<Tid, Waiting>, rid: Rid): map<Tid, Waiting>
  {
    map t | t in callers :: if callers[t].rid == rid then Waiting(rid, false) else callers[t]
  }

  /** One request fewer in flight, one more completed or failed. */
  function Counted(q: Queue, rid: Rid, rc: int): Queue
    requires q.inflight > 0
  {
    q.(inflight := q.inflight - 1,
       completed := q.completed + (if rc == 0 then 1 else 0),
       failed := q.failed + (if rc == 0 then 0 else 1),
       results := q.results[rid := rc])
  }

  /** Lines 702-711. */
  function DoPublish(tr: Traffic): Option<Traffic>
  {
    if !(tr.worker.Executed? && tr.worker.rid in tr.reqs && tr.q.inflight > 0) then None
    else
      var rid := tr.worker.rid;
      var rc := tr.worker.rc;
      Some(tr.(q := Counted(tr.q, rid, rc),
               reqs := tr.reqs[rid := tr.reqs[rid].(done := true, status := rc)],
               callers := Roused(tr.callers, rid),
               worker := Checking))
  }

  // ----------------------------------------------------------------- transfer

  /** The bytes a transfer moves, if the addresses make sense. */
  predicate CopyFits(m: Memory, x: Xfer, buf: P.Buf, off: int)
  {
    0 <= off && buf in m.hbm && off + x.len <= |m.hbm[buf]| && x.off + x.len <= |m.disk|
  }

  /** execute_mock_xfer: one memcpy between the backend and the peer's buffer. */
  function Copy(m: Memory, x: Xfer, buf: P.Buf, off: nat): Memory
    requires CopyFits(m, x, buf, off)
  {
    if x.dir == RAMDISK_TO_HBM then
      m.(hbm := m.hbm[buf := Overwrite(m.hbm[buf], off, m.disk[x.off..x.off + x.len])])
    else
      m.(disk := Overwrite(m.disk, x.off, m.hbm[buf][off..off + x.len]))
  }

  /** The peer is read when the transfer runs. A copy outside the buffer, possible
      only after the peer was disconnected meanwhile, leaves the memory arbitrary. */
  ghost function Transfer(st: Store, rid: Rid, req: Request, slot: nat, junk: Memory): Option<Store>
    requires slot < |st.table| && st.table[slot].Active?
  {
    var p := st.table[slot];
    var log := st.log + [Copied(rid, req.x)];
    if CopyFits(st.mem, req.x, p.hbm, req.remote - p.va) then
      Some(st.(mem := Copy(st.mem, req.x, p.hbm, req.remote - p.va), log := log))
    else if SameShape(st.mem, junk) then Some(st.(mem := junk, log := log))
    else None
  }

  ghost function DoExec(s: State, junk: Memory): Option<State>
  {
    if !(s.tr.worker.Executing? && s.tr.worker.rid in s.tr.reqs && s.tr.worker.slot < |s.st.table|) then None
    else
      var rid := s.tr.worker.rid;
      if s.st.table[s.tr.worker.slot].Free? then Some(s.(tr := s.tr.(worker := Executed(rid, -ENODEV))))
      else
        match Transfer(s.st, rid, s.tr.reqs[rid], s.tr.worker.slot, junk)
        case None => None
        case Some(st) => Some(s.(tr := s.tr.(worker := Executed(rid, 0)), st := st))
  }

  // ------------------------------------------------------------ control calls

  /** Allocate the peer's buffer, before the lock is taken. */
  function DoConnectAlloc(st: Store, t: Tid, id: nat, va: nat, len: nat): Option<Store>
  {
    if t in st.admins || id == 0 || len == 0 then None
    else Some(st.(admins := st.admins[t := Connecting(P.Active(id, va, len, st.nextBuf))],
                  mem := st.mem.(hbm := st.mem.hbm[st.nextBuf := Zeros(len)]),
                  owner := st.owner[st.nextBuf := InCall(t)], nextBuf := st.nextBuf + 1))
  }

  function DoConnectInsert(st: Store, enabled: bool, t: Tid): Option<Store>
  {
    if !(t in st.admins && st.admins[t].Connecting? && st.admins[t].p.Active?) then None
    else
      var p := st.admins[t].p;
      if !enabled || P.Find(st.table, p.id).Some? || P.FreeSlot(st.table).None? then
        Some(st.(admins := st.admins[t := Freeing(p.hbm)]))
      else
        var i := P.FreeSlot(st.table).value;
        Some(st.(admins := st.admins - {t}, table := st.table[i := p], owner := st.owner[p.hbm := InSlot(i)],
                 log := st.log + [Connected(p.id, p.va, p.len)]))
  }

  function DoDisconnect(st: Store, t: Tid, id: nat): Option<Store>
  {
    if t in st.admins || id == 0 then None
    else
      match P.Find(st.table, id)
      case None => Some(st)
      case Some(i) =>
        var buf := st.table[i].hbm;
        Some(st.(table := st.table[i := P.Free], admins := st.admins[t := Freeing(buf)],
                 owner := st.owner[buf := InCall(t)], log := st.log + [Disconnected(id)]))
  }

  function DoFree(st: Store, t: Tid): Option<Store>
  {
    if !(t in st.admins && st.admins[t].Freeing?) then None
    else Some(st.(admins := st.admins - {t}, mem := st.mem.(hbm := st.mem.hbm - {st.admins[t].buf}),
                  owner := st.owner - {st.admins[t].buf}))
  }

  function Buffers(table: P.Table): set<P.Buf>
  {
    set i | 0 <= i < |table| && table[i].Active? :: table[i].hbm
  }

  function DoDestroy(st: Store): Option<Store>
  {
    if st.admins != map[] then None
    else Some(st.(table := P.NoPeers(), mem := st.mem.(hbm := st.mem.hbm - Buffers(st.table)),
                  owner := st.owner - Buffers(st.table)))
  }

  /** A write or zeroing of the backend through the NBD path. */
  function DoDiskWrite(st: Store, off: nat, data: seq<Byte>): Option<Store>
  {
    if off + |data| > |st.mem.disk| then None
    else Some(st.(mem := st.mem.(disk := Overwrite(st.mem.disk, off, data)), log := st.log + [Written(off, data)]))
  }

  /** ramdisk_urma_mock_write_peer. */
  function DoPoke(st: Store, id: nat, addr: nat, data: seq<Byte>): Option<Store>
  {
    match P.Find(st.table, id)
    case None => Some(st)
    case Some(i) =>
      var p := st.table[i];
      if !(p.va <= addr && p.hbm in st.mem.hbm && addr - p.va + |data| <= |st.mem.hbm[p.hbm]|) then Some(st)
      else Some(st.(mem := st.mem.(hbm := st.mem.hbm[p.hbm := Overwrite(st.mem.hbm[p.hbm], addr - p.va, data)]),
                    log := st.log + [Poked(id, addr, data)]))
  }

  predicate StoreEvent(e: Event)
  {
    e.ConnectAlloc? || e.ConnectInsert? || e.DisconnectClear? || e.Free? || e.DestroyPeers? || e.DiskWrite?
    || e.Poke?
  }

  function NextStore(st: Store, enabled: bool, e: Event): Option<Store>
    requires StoreEvent(e)
  {
    match e
    case ConnectAlloc(t, id, va, len) => DoConnectAlloc(st, t, id, va, len)
    case ConnectInsert(t) => DoConnectInsert(st, enabled, t)
    case DisconnectClear(t, id) => DoDisconnect(st, t, id)
    case Free(t) => DoFree(st, t)
    case DestroyPeers => DoDestroy(st)
    case DiskWrite(off, data) => DoDiskWrite(st, off, data)
    case Poke(id, addr, data) => DoPoke(st, id, addr, data)
  }

  // --------------------------------------------------------------------- runs

  function WithTraffic(s: State, tr: Option<Traffic>): Option<State>
  {
    match tr
    case None => None
    case Some(v) => Some(s.(tr := v))
  }

  function WithWorker(s: State, guard: bool, w: WorkerPc): Option<State>
  {
    if guard then Some(s.(tr := s.tr.(worker := w))) else None
  }

  /** The daemon stops every caller before it destroys the manager. */
  predicate MayDestroy(s: State, e: Event)
  {
    e.DestroyPeers? ==> s.tr.worker.Exited? && s.tr.callers == map[]
  }

  ghost function Next(s: State, e: Event): Option<State>
  {
    if s.destroyed then None
    else if StoreEvent(e) then
      var st := NextStore(s.st, s.enabled, e);
      if st.None? || !MayDestroy(s, e) then None
      else Some(s.(st := st.value, destroyed := e.DestroyPeers?))
    else
      var idle := s.tr.q.ring.pending == 0;
      match e
      case Submit(t, x) => DoSubmit(s, t, x)
      case Wake(t) => WithTraffic(s, DoWake(s.tr, t))
      case Sleep => WithWorker(s, s.tr.worker.Checking? && !s.stopping && idle, Sleeping)
      case Nudge => WithWorker(s, s.tr.worker.Sleeping?, Checking)
      case Exit => WithWorker(s, s.tr.worker.Checking? && s.stopping && idle, Exited)
      case Take => DoTake(s)
      case Exec(junk) => DoExec(s, junk)
      case Publish => WithTraffic(s, DoPublish(s.tr))
      case Enable => Some(s.(enabled := true))
      case Disable => Some(s.(enabled := false))
      case Stop => Some(s.(stopping := true, tr := s.tr.(worker := Woken(s.tr.worker))))
  }

  /** Restrictions on runs: none, or the peer of a running transfer is not
      disconnected. */
  datatype Kind = Any | Calm

  predicate Allowed(k: Kind, s: State, e: Event)
  {
    match k
    case Any => true
    case Calm => !(e.DisconnectClear? && s.tr.worker.Executing? && P.IsPeer(s.st.table, s.tr.worker.slot, e.id))
  }

  ghost function Run(k: Kind, s: State, es: seq<Event>): Option<State>
  {
    if es == [] then Some(s)
    else
      match Run(k, s, es[..|es| - 1])
      case None => None
      case Some(m) => if Allowed(k, m, es[|es| - 1]) then Next(m, es[|es| - 1]) else None
  }

  /** init: a ring of positive depth and a backend of the configured size. */
  ghost predicate Reaches(k: Kind, cfg: Config, enabled: bool, disk: seq<Byte>, es: seq<Event>, s: State)
  {
    0 < cfg.depth && |disk| == cfg.size && Run(k, Init(cfg, enabled, disk), es) == Some(s)
  }
}
