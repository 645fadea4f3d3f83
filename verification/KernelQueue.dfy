/** The direct-IO queue of kernel-urma/urma_blkdev.c as a transition system.

  Any number of submitters, one non-reentrant work item and one teardown
  interleave. Every event is one access to shared state: a section of the
  pending lock, or one atomic operation outside it. The outcomes of xa_store,
  kzalloc and the jetty post are chosen by the event.
  */
module KernelQueue {
  import opened Common

  type Req = nat
  type Tid = nat

  /** The fields of struct urma_blkdev_device that the queue uses, and the
      completion callbacks made so far (`calls[r]`: the statuses handed to r). */
  datatype Dev = Dev(
    depth: nat,
    pendingList: seq<Req>,
    pending: int,
    inflightReqs: map<nat, Req>,
    inflight: int,
    nextWrId: nat,
    stopping: bool,
    calls: map<Req, seq<int>>)

  /** Progress of one call of urma_blkdev_submit_nvmet_io. */
  datatype SubmitPc =
    | Got              // module reference taken
    | Holding(r: Req)  // request allocated
    | Locked(r: Req)   // inside pending_lock, device not stopping
    | Room(r: Req)     // inside pending_lock, depth check passed
    | WillQueue        // request accepted, queue_work not yet called

  /** Progress of the work item. */
  datatype WorkerPc =
    | Idle
    | Head
    | Running                           // stopping read as false
    | PopNow                            // inflight read below the depth
    | Popped(r: Req)
    | Numbered(r: Req, id: nat)
    | Stored(r: Req, id: nat)
    | Counted(r: Req, id: nat)
    | PostFailed(r: Req, id: nat, rc: int)
    | Erased(r: Req, id: nat, rc: int)
    | Failing(r: Req, rc: int)          // about to call done

  /** Progress of urma_blkdev_cleanup_io_queue. */
  datatype TeardownPc =
    | Up
    | Stopping
    | Flushed
    | Draining(index: nat, victims: seq<Req>)
    | Completing(victims: seq<Req>)
    | Down

  /** `accepted` and `numbered` are history: requests in the order they entered
      the pending list, and in the order they were given a wr_id. `fused` selects
      the variant in which the pop also counts the request as in flight. */
  datatype State = State(
    dev: Dev,
    subs: map<Tid, SubmitPc>,
    lock: Option<Tid>,
    worker: WorkerPc,
    teardown: TeardownPc,
    workQueued: bool,
    nextReq: Req,
    live: set<Req>,
    refs: int,
    accepted: seq<Req>,
    numbered: seq<Req>,
    fused: bool)

  datatype Event =
    | Get(t: Tid)
    | Alloc(t: Tid, ok: bool)
    | Lock(t: Tid)
    | CheckDepth(t: Tid)
    | Add(t: Tid)
    | QueueWork(t: Tid)
    | StartWork
    | ReadStopping
    | ReadInflight
    | Pop
    | Number
    | Store(rc: int)
    | Count
    | Post(rc: int)
    | Erase
    | Uncount
    | Done
    | SetStopping
    | Flush
    | Splice
    | Drain(k: nat)
    | DrainEnd
    | CompleteOne
    | Finish

  predicate SubmitEvent(e: Event)
  {
    e.Get? || e.Alloc? || e.Lock? || e.CheckDepth? || e.Add? || e.QueueWork?
  }

  predicate LoopEvent(e: Event)
  {
    e.StartWork? || e.ReadStopping? || e.ReadInflight? || e.Pop?
  }

  predicate TrackEvent(e: Event)
  {
    e.Number? || e.Store? || e.Count?
  }

  predicate PostEvent(e: Event)
  {
    e.Post? || e.Erase? || e.Uncount? || e.Done?
  }

  predicate WorkerEvent(e: Event)
  {
    LoopEvent(e) || TrackEvent(e) || PostEvent(e)
  }

  function InitDev(depth: nat): Dev
  {
    Dev(depth, [], 0, map[], 0, 0, false, map[])
  }

  function Init(depth: nat, fused: bool): State
  {
    State(InitDev(depth), map[], None, Idle, Up, false, 0, {}, 0, [], [], fused)
  }

  // ---------------------------------------------------------------- device

  function Calls(d: Dev, r: Req): seq<int>
  {
    if r in d.calls then d.calls[r] else []
  }

  function PushPending(d: Dev, r: Req): Dev
  {
    d.(pendingList := d.pendingList + [r], pending := d.pending + 1)
  }

  function PopPending(d: Dev): Dev
    requires d.pendingList != []
  {
    d.(pendingList := d.pendingList[1..], pending := d.pending - 1)
  }

  function CallDone(d: Dev, r: Req, status: int): Dev
  {
    d.(calls := d.calls[r := Calls(d, r) + [status]])
  }

  /** urma_blkdev_done_req: the callback, then the last reference goes away. */
  function DoneReq(s: State, r: Req, status: int): State
  {
    s.(dev := CallDone(s.dev, r, status), live := s.live - {r}, refs := s.refs - 1)
  }

  // ------------------------------------------------------------- submitters

  function NextSubmit(s: State, e: Event): Option<State>
    requires SubmitEvent(e)
  {
    match e
    case Get(t) =>
      if t in s.subs then None
      else Some(s.(subs := s.subs[t := Got], refs := s.refs + 1))
    case Alloc(t, ok) =>
      if !(t in s.subs && s.subs[t].Got?) then None
      else if ok then Some(s.(subs := s.subs[t := Holding(s.nextReq)], nextReq := s.nextReq + 1,
                              live := s.live + {s.nextReq}))
      else Some(s.(subs := s.subs - {t}, refs := s.refs - 1))
    case Lock(t) =>
      if !(t in s.subs && s.subs[t].Holding? && s.lock.None?) then None
      else if s.dev.stopping then Some(Reject(s, t, s.subs[t].r))
      else Some(s.(subs := s.subs[t := Locked(s.subs[t].r)], lock := Some(t)))
    case CheckDepth(t) =>
      if !(t in s.subs && s.subs[t].Locked?) then None
      else if s.dev.pending + s.dev.inflight >= s.dev.depth then Some(Reject(s, t, s.subs[t].r))
      else Some(s.(subs := s.subs[t := Room(s.subs[t].r)]))
    case Add(t) =>
      if !(t in s.subs && s.subs[t].Room?) then None
      else Some(s.(dev := PushPending(s.dev, s.subs[t].r), subs := s.subs[t := WillQueue], lock := None,
                   accepted := s.accepted + [s.subs[t].r]))
    case QueueWork(t) =>
      if !(t in s.subs && s.subs[t].WillQueue?) then None
      else Some(s.(subs := s.subs - {t}, workQueued := true))
  }

  /** The error exits after the allocation: unlock and put the request. */
  function Reject(s: State, t: Tid, r: Req): State
  {
    s.(subs := s.subs - {t}, lock := None, live := s.live - {r}, refs := s.refs - 1)
  }

  // --------------------------------------------------------------- work item

  /** The loop condition and urma_blkdev_pop_pending. */
  function NextLoop(s: State, e: Event): Option<State>
    requires LoopEvent(e)
  {
    match e
    case StartWork =>
      if s.worker.Idle? && s.workQueued then Some(s.(worker := Head, workQueued := false)) else None
    case ReadStopping =>
      if !s.worker.Head? then None
      else Some(s.(worker := if s.dev.stopping then Idle else Running))
    case ReadInflight =>
      if !s.worker.Running? then None
      else Some(s.(worker := if s.dev.inflight < s.dev.depth then PopNow else Idle))
    case Pop =>
      if !(s.worker.PopNow? && s.lock.None?) then None
      else if s.dev.pendingList == [] then Some(s.(worker := Idle))
      else
        var d := PopPending(s.dev);
        Some(s.(dev := if s.fused then d.(inflight := d.inflight + 1) else d,
                worker := Popped(s.dev.pendingList[0])))
  }

  /** Number the request, track it, count it. */
  function NextTrack(s: State, e: Event): Option<State>
    requires TrackEvent(e)
  {
    match e
    case Number =>
      if !s.worker.Popped? then None
      else
        var id := (s.dev.nextWrId + 1) % TWO64;
        Some(s.(dev := s.dev.(nextWrId := id), worker := Numbered(s.worker.r, id),
                numbered := s.numbered + [s.worker.r]))
    case Store(rc) =>
      if !s.worker.Numbered? then None
      else if rc != 0 then
        Some(s.(dev := if s.fused then s.dev.(inflight := s.dev.inflight - 1) else s.dev,
                worker := Failing(s.worker.r, rc)))
      else
        Some(s.(dev := s.dev.(inflightReqs := s.dev.inflightReqs[s.worker.id := s.worker.r]),
                worker := Stored(s.worker.r, s.worker.id)))
    case Count =>
      if !s.worker.Stored? then None
      else Some(s.(dev := if s.fused then s.dev else s.dev.(inflight := s.dev.inflight + 1),
                   worker := Counted(s.worker.r, s.worker.id)))
  }

  /** Post the request, and undo the tracking when that fails. */
  function NextPost(s: State, e: Event): Option<State>
    requires PostEvent(e)
  {
    match e
    case Post(rc) =>
      if !s.worker.Counted? then None
      else Some(s.(worker := if rc == 0 then Head else PostFailed(s.worker.r, s.worker.id, rc)))
    case Erase =>
      if !s.worker.PostFailed? then None
      else Some(s.(dev := s.dev.(inflightReqs := s.dev.inflightReqs - {s.worker.id}),
                   worker := Erased(s.worker.r, s.worker.id, s.worker.rc)))
    case Uncount =>
      if !s.worker.Erased? then None
      else Some(s.(dev := s.dev.(inflight := s.dev.inflight - 1), worker := Failing(s.worker.r, s.worker.rc)))
    case Done =>
      if !s.worker.Failing? then None
      else Some(DoneReq(s, s.worker.r, s.worker.rc).(worker := Head))
  }

  // ---------------------------------------------------------------- teardown

  /** What xa_find(…, &index, …) returns: the smallest key not below index. */
  predicate FirstKey(m: map<nat, Req>, index: nat, k: nat)
  {
    k in m && index <= k && forall j :: j in m && index <= j ==> k <= j
  }

  function NextTeardown(s: State, e: Event): Option<State>
    requires !SubmitEvent(e) && !WorkerEvent(e)
  {
    match e
    case SetStopping =>
      if !s.teardown.Up? then None
      else Some(s.(dev := s.dev.(stopping := true), teardown := Stopping))
    case Flush =>
      // Returns once every instance that began before the flush is over: what
      // may still run has not read `stopping` yet.
      if !(s.teardown.Stopping? && (s.worker.Idle? || s.worker.Head?)) then None
      else Some(s.(teardown := Flushed))
    case Splice =>
      if !(s.teardown.Flushed? && s.lock.None?) then None
      else Some(s.(dev := s.dev.(pendingList := [], pending := 0),
                   teardown := Draining(0, s.dev.pendingList)))
    case Drain(k) =>
      if !(s.teardown.Draining? && FirstKey(s.dev.inflightReqs, s.teardown.index, k)) then None
      else Some(s.(dev := s.dev.(inflightReqs := s.dev.inflightReqs - {k}, inflight := s.dev.inflight - 1),
                   teardown := Draining(k + 1, s.teardown.victims + [s.dev.inflightReqs[k]])))
    case DrainEnd =>
      if !(s.teardown.Draining? && forall j :: j in s.dev.inflightReqs ==> j < s.teardown.index) then None
      else Some(s.(teardown := Completing(s.teardown.victims)))
    case CompleteOne =>
      if !(s.teardown.Completing? && s.teardown.victims != []) then None
      else Some(DoneReq(s, s.teardown.victims[0], -ESHUTDOWN)
                .(teardown := Completing(s.teardown.victims[1..])))
    case Finish =>
      if s.teardown == Completing([]) then Some(s.(teardown := Down)) else None
  }

  // --------------------------------------------------------------------- runs

  function Next(s: State, e: Event): Option<State>
  {
    if SubmitEvent(e) then NextSubmit(s, e)
    else if LoopEvent(e) then NextLoop(s, e)
    else if TrackEvent(e) then NextTrack(s, e)
    else if PostEvent(e) then NextPost(s, e)
    else NextTeardown(s, e)
  }

  /** The state after the events, or None when one of them was not possible. */
  function Run(s: State, es: seq<Event>): Option<State>
  {
    if es == [] then Some(s)
    else
      match Run(s, es[..|es| - 1])
      case None => None
      case Some(m) => Next(m, es[|es| - 1])
  }

  /** s is a state some interleaving reaches, with fewer than 2^64 wr_ids used. */
  ghost predicate Reaches(depth: nat, fused: bool, es: seq<Event>, s: State)
  {
    Run(Init(depth, fused), es) == Some(s) && |s.numbered| < TWO64
  }

  /** 1 when the request the worker holds is in neither counter. */
  function Uncounted(s: State): nat
  {
    match s.worker
    case Popped(_) => if s.fused then 0 else 1
    case Numbered(_, _) => if s.fused then 0 else 1
    case Stored(_, _) => if s.fused then 0 else 1
    case Failing(_, _) => 1
    case _ => 0
  }
}
