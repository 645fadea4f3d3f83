/** The critical sections of userspace-nbd/src/ramdisk_urma.c as code, each proved to
    be one step of the transition system. */
module UrmaManagerCode {
  import opened Common
  import opened UrmaManager
  import R = Ring
  import P = PeerTable

  /** The manager's part of struct ramdisk_ctrl_status. */
  datatype Reported = Reported(
    enabled: bool, peers: nat, depth: nat, inflight: nat, pending: nat, completed: nat, failed: nat)

  const DEFAULT_DEPTH: nat := 32
  const MAX_DEPTH: nat := 1024

  /** struct ramdisk_urma_mgr. A request lives on the stack of its caller and is
      known to the ring by its address, here its number. */
  class UrmaMgr {
    const cfg: Config
    const ring: R.RequestRing
    const table: P.PeerArray
    var enabled: bool
    var stopping: bool
    var inflight: nat
    var completed: nat
    var failed: nat
    var reqs: map<Rid, Request>
    var nextRid: Rid

    ghost predicate Counters(q: Queue)
      reads this
    {
      q.inflight == inflight && q.completed == completed && q.failed == failed
    }

    /** The fields are those of state s. */
    ghost predicate Matches(s: State)
      reads this, ring, ring.queue, table.peers
    {
      && R.Valid(ring.View()) && ring.queue.Length == cfg.depth && table.Valid()
      && s.cfg == cfg && s.enabled == enabled && s.stopping == stopping && !s.destroyed
      && s.tr.q.ring == ring.View() && Counters(s.tr.q)
      && s.tr.reqs == reqs && |s.tr.asked| == nextRid
      && s.st.table == table.peers[..]
    }

    /** The fields of a new manager: the initial state of the machine. */
    constructor (cfg: Config, enabled: bool, ghost disk: seq<Byte>)
      requires cfg.depth > 0
      ensures this.cfg == cfg && Matches(Init(cfg, enabled, disk))
    {
      this.cfg, this.enabled, this.stopping := cfg, enabled, false;
      this.ring := new R.RequestRing(cfg.depth);
      this.table := new P.PeerArray();
      this.inflight, this.completed, this.failed := 0, 0, 0;
      this.reqs, this.nextRid := map[], 0;
    }

    /** validate_xfer_locked. */
    method ValidateXfer(x: Xfer) returns (v: Verdict)
      requires table.Valid()
      ensures v == Validate(cfg, enabled, table.peers[..], x)
    {
      if !enabled {
        return Bad(-EOPNOTSUPP);
      }
      if x.len == 0 {
        return Bad(-EINVAL);
      }
      if x.dir != RAMDISK_TO_HBM && x.dir != HBM_TO_RAMDISK {
        return Bad(-EINVAL);
      }
      if !InRange(cfg.size, x.off, x.len) {
        return Bad(-ERANGE);
      }
      if !Aligned(cfg.blockSize, x) {
        return Bad(-EINVAL);
      }
      var peer := table.FindPeer(x.peer);
      if peer.None? {
        return Bad(-ENODEV);
      }
      var p := table.peers[peer.value];
      if x.remote < p.va {
        return Bad(-ERANGE);
      }
      var off := x.remote - p.va;
      if off > p.len || x.len > p.len - off {
        return Bad(-ERANGE);
      }
      v := Good(peer.value);
    }

    /** transfer_sync up to its wait: refused without a trace, or accepted. */
    method EnqueueXfer(x: Xfer, ghost t: Tid, ghost s: State) returns (rc: int, ghost s': State)
      requires Matches(s) && t !in s.tr.callers
      modifies this`reqs, this`nextRid, ring, ring.queue
      ensures Next(s, Submit(t, x)) == Some(s') && Matches(s')
      ensures rc == (var v := Validate(cfg, enabled, table.peers[..], x);
                     if v.Bad? then v.rc else if s.tr.q.ring.pending == cfg.depth then -EBUSY else 0)
      ensures rc == 0 <==> s'.tr.q.accepted == s.tr.q.accepted + [old(nextRid)]
    {
      s' := s;
      var v := ValidateXfer(x);
      if v.Bad? {
        return v.rc, s';
      }
      rc := ring.Enqueue(nextRid);
      if rc != 0 {
        return;
      }
      reqs := reqs[nextRid := Request(x, x.remote, false, 0)];
      nextRid := nextRid + 1;
      s' := s.(tr := Accept(s.tr, t, x));
    }

    /** urma_worker_main from the dequeue to the unlock. */
    method TakeHead(ghost s: State) returns (rid: Rid, v: Verdict, ghost s': State)
      requires Matches(s) && CanTake(s.tr)
      modifies this`inflight, this`reqs, ring, ring.queue
      ensures Next(s, Take) == Some(s') && Matches(s')
      ensures s'.tr.worker == if v.Bad? then Executed(rid, v.rc) else Executing(rid, v.slot)
    {
      rid := ring.Dequeue();
      inflight := inflight + 1;
      var req := reqs[rid];
      v := ValidateXfer(req.x.(remote := req.remote));
      var remote := req.remote;
      if v.Good? && cfg.override {
        remote := table.peers[v.slot].va;
      }
      reqs := reqs[rid := req.(remote := remote)];
      s' := s.(tr := Taken(s.tr, v, remote));
    }

    /** urma_worker_main after the transfer. */
    method Publish(rid: Rid, rc: int, ghost s: State) returns (ghost s': State)
      requires Matches(s) && s.tr.worker == Executed(rid, rc) && rid in reqs && inflight > 0
      modifies this`inflight, this`completed, this`failed, this`reqs
      ensures Next(s, UrmaManager.Publish) == Some(s') && Matches(s')
    {
      inflight := inflight - 1;
      if rc == 0 {
        completed := completed + 1;
      } else {
        failed := failed + 1;
      }
      reqs := reqs[rid := reqs[rid].(done := true, status := rc)];
      s' := s.(tr := DoPublish(s.tr).value);
    }

    /** The critical section of ramdisk_urma_peer_connect; the buffer is allocated. */
    method InsertPeer(p: P.Slot, ghost t: Tid, ghost s: State) returns (rc: int, ghost s': State)
      requires Matches(s) && p.Active? && p.id != 0 && p.len != 0
      requires t in s.st.admins && s.st.admins[t] == Connecting(p)
      modifies table.peers
      ensures Next(s, ConnectInsert(t)) == Some(s') && Matches(s')
      ensures rc == if !enabled then -EOPNOTSUPP
                    else if p.id in P.Peers(s.st.table) then -EEXIST
                    else if |P.Peers(s.st.table)| == 32 then -ENOSPC
                    else 0
      ensures rc != 0 ==> s'.st.table == s.st.table && s'.st.admins == s.st.admins[t := Freeing(p.hbm)]
    {
      rc := table.Connect(enabled, p);
      s' := s.(st := DoConnectInsert(s.st, s.enabled, t).value);
    }

    /** The critical section of ramdisk_urma_peer_disconnect. */
    method ClearPeer(id: nat, ghost t: Tid, ghost s: State) returns (rc: int, gone: P.Slot, ghost s': State)
      requires Matches(s) && id != 0 && t !in s.st.admins
      modifies table.peers
      ensures Next(s, DisconnectClear(t, id)) == Some(s') && Matches(s')
      ensures rc == if id in P.Peers(s.st.table) then 0 else -ENOENT
      ensures rc == 0 ==> gone.Active? && s'.st.admins == s.st.admins[t := Freeing(gone.hbm)]
    {
      P.FindIsLookup(table.peers[..], id);
      rc, gone := table.Disconnect(id);
      s' := s.(st := DoDisconnect(s.st, t, id).value);
    }

    /** ramdisk_urma_fill_status: what a status query reports. */
    method FillStatus(ghost s: State) returns (r: Reported)
      requires Matches(s)
      ensures r == Reported(s.enabled, |P.Peers(s.st.table)|, s.cfg.depth, s.tr.q.inflight, s.tr.q.ring.pending,
                            s.tr.q.completed, s.tr.q.failed)
    {
      var peers := table.Count();
      r := Reported(enabled, peers, ring.queue.Length, inflight, ring.pending, completed, failed);
    }

    /** transfer_sync with the lock back: return the status, or wait again. */
    method CheckDone(rid: Rid, ghost t: Tid, ghost s: State) returns (done: bool, status: int, ghost s': State)
      requires Matches(s) && t in s.tr.callers && s.tr.callers[t].rid == rid && rid in reqs
      modifies this`reqs
      ensures Next(s, Wake(t)) == Some(s') && Matches(s')
      ensures done ==> s'.tr.returned == s.tr.returned[rid := status] && t !in s'.tr.callers
      ensures !done ==> s'.tr.returned == s.tr.returned && t in s'.tr.callers
    {
      s' := s.(tr := DoWake(s.tr, t).value);
      done, status := reqs[rid].done, reqs[rid].status;
      if done {
        reqs := reqs - {rid};
      }
    }
  }

  /** ramdisk_urma_mgr_init, memory and threads being available: a depth of zero means
      the default, one beyond the maximum is refused. */
  method InitMgr(config: Config, enabled: bool, ghost disk: seq<Byte>) returns (rc: int, mgr: UrmaMgr?)
    ensures rc == if config.depth > MAX_DEPTH then -EINVAL else 0
    ensures rc != 0 <==> mgr == null
    ensures mgr != null ==>
              var cfg := config.(depth := if config.depth == 0 then DEFAULT_DEPTH else config.depth);
              0 < cfg.depth <= MAX_DEPTH && mgr.Matches(Init(cfg, enabled, disk))
  {
    var depth := if config.depth != 0 then config.depth else DEFAULT_DEPTH;
    if depth > MAX_DEPTH {
      return -EINVAL, null;
    }
    mgr := new UrmaMgr(config.(depth := depth), enabled, disk);
    rc := 0;
  }
}
