/** What every event of the direct-IO queue keeps, piece by piece. */
module KernelQueueInvariants {
  import opened Common
  import opened KernelQueue

  // ------------------------------------------------------------- definitions

  predicate InSection(pc: SubmitPc)
  {
    pc.Locked? || pc.Room?
  }

  /** pending_lock has exactly the owner whose call is inside the section. */
  ghost predicate LockInv(s: State)
  {
    && (s.lock.Some? ==> s.lock.value in s.subs && InSection(s.subs[s.lock.value]))
    && forall t :: t in s.subs && InSection(s.subs[t]) ==> s.lock == Some(t)
  }

  predicate Spliced(s: State)
  {
    s.teardown.Draining? || s.teardown.Completing? || s.teardown.Down?
  }

  /** Who may be where in which phase of the teardown. */
  ghost predicate PhaseInv(s: State)
  {
    && (s.dev.stopping <==> !s.teardown.Up?)
    && (s.teardown.Flushed? || Spliced(s) ==> s.worker.Idle? || s.worker.Head?)
    && (Spliced(s) ==> s.dev.pendingList == [] && s.lock.None?)
    && (s.teardown.Draining? ==> forall k :: k in s.dev.inflightReqs ==> s.teardown.index <= k)
    && (s.teardown.Completing? || s.teardown.Down? ==> s.dev.inflightReqs == map[])
  }

  /** How far the inflight counter is ahead of the tracked set. */
  function Window(s: State): int
  {
    match s.worker
    case Popped(_) => if s.fused then 1 else 0
    case Numbered(_, _) => if s.fused then 1 else 0
    case Stored(_, _) => if s.fused then 0 else -1
    case Erased(_, _, _) => 1
    case _ => 0
  }

  ghost predicate RoomHeld(s: State)
  {
    s.lock.Some? && s.lock.value in s.subs && s.subs[s.lock.value].Room?
  }

  ghost predicate CountInv(s: State)
  {
    && s.dev.depth >= 1
    && s.dev.pending == |s.dev.pendingList|
    && s.dev.inflight == |s.dev.inflightReqs| + Window(s)
    && s.dev.inflight <= s.dev.depth
    && (s.worker.PopNow? ==> s.dev.inflight < s.dev.depth)
    && (!s.fused && (s.worker.Popped? || s.worker.Numbered? || s.worker.Stored?) ==> s.dev.inflight < s.dev.depth)
  }

  /** The sharp bound for either variant. */
  ghost predicate DepthInv(s: State)
  {
    if s.fused then
      && s.dev.pending + s.dev.inflight <= s.dev.depth
      && (RoomHeld(s) ==> s.dev.pending + s.dev.inflight < s.dev.depth)
    else
      && s.dev.pending + s.dev.inflight + Uncounted(s) <= s.dev.depth + 1
      && (RoomHeld(s) ==> s.dev.pending + s.dev.inflight + Uncounted(s) <= s.dev.depth)
  }

  function PoppedOnly(w: WorkerPc): seq<Req>
  {
    if w.Popped? then [w.r] else []
  }

  predicate Tracked(w: WorkerPc)
  {
    w.Stored? || w.Counted? || w.PostFailed?
  }

  /** The queue is first-in first-out: numbers are given in acceptance order. */
  ghost predicate OrderInv(s: State)
  {
    && (if Spliced(s) then s.numbered <= s.accepted
        else s.accepted == s.numbered + PoppedOnly(s.worker) + s.dev.pendingList)
    && s.dev.nextWrId == |s.numbered|
  }

  /** The xarray maps each wr_id back to the request that was given it. */
  ghost predicate MapInv(s: State)
  {
    && (forall k :: k in s.dev.inflightReqs ==>
          1 <= k <= |s.numbered| && s.dev.inflightReqs[k] == s.numbered[k - 1])
    && (s.worker.Numbered? ==>
          0 < s.worker.id == |s.numbered| && s.numbered[s.worker.id - 1] == s.worker.r
          && s.worker.id !in s.dev.inflightReqs)
    && (Tracked(s.worker) ==>
          s.worker.id in s.dev.inflightReqs && s.dev.inflightReqs[s.worker.id] == s.worker.r)
  }

  predicate HasReq(pc: SubmitPc)
  {
    pc.Holding? || pc.Locked? || pc.Room?
  }

  /** A request still owned by its submitter is new to the queue and owned once. */
  ghost predicate FreshInv(s: State)
  {
    && (forall r :: r in s.accepted ==> r < s.nextReq)
    && (forall t :: t in s.subs && HasReq(s.subs[t]) ==> s.subs[t].r < s.nextReq && s.subs[t].r !in s.accepted)
    && (forall t, u | t in s.subs && u in s.subs && HasReq(s.subs[t]) && HasReq(s.subs[u]) ::
          s.subs[t].r == s.subs[u].r ==> t == u)
  }

  ghost predicate Inv(s: State)
  {
    LockInv(s) && PhaseInv(s) && CountInv(s) && DepthInv(s) && OrderInv(s) && MapInv(s) && FreshInv(s)
  }

  // -------------------------------------------------------------- preservation

  lemma LockPhaseBySubmit(s: State, e: Event, s': State)
    requires LockInv(s) && PhaseInv(s)
    requires SubmitEvent(e) && NextSubmit(s, e) == Some(s')
    ensures LockInv(s') && PhaseInv(s')
  {
  }

  lemma LockPhaseByLoop(s: State, e: Event, s': State)
    requires LockInv(s) && PhaseInv(s)
    requires LoopEvent(e) && NextLoop(s, e) == Some(s')
    ensures LockInv(s') && PhaseInv(s')
  {
  }

  lemma LockPhaseByTrack(s: State, e: Event, s': State)
    requires LockInv(s) && PhaseInv(s)
    requires TrackEvent(e) && NextTrack(s, e) == Some(s')
    ensures LockInv(s') && PhaseInv(s')
  {
  }

  lemma LockPhaseByPost(s: State, e: Event, s': State)
    requires LockInv(s) && PhaseInv(s)
    requires PostEvent(e) && NextPost(s, e) == Some(s')
    ensures LockInv(s') && PhaseInv(s')
  {
  }

  lemma LockPhaseByTeardown(s: State, e: Event, s': State)
    requires LockInv(s) && PhaseInv(s)
    requires !SubmitEvent(e) && !WorkerEvent(e) && NextTeardown(s, e) == Some(s')
    ensures LockInv(s') && PhaseInv(s')
  {
    if e.DrainEnd? {
      assert forall k :: k in s.dev.inflightReqs ==> false;
    }
  }

  lemma CountBySubmit(s: State, e: Event, s': State)
    requires PhaseInv(s) && CountInv(s)
    requires SubmitEvent(e) && NextSubmit(s, e) == Some(s')
    ensures CountInv(s')
  {
  }

  lemma CountByLoop(s: State, e: Event, s': State)
    requires PhaseInv(s) && CountInv(s)
    requires LoopEvent(e) && NextLoop(s, e) == Some(s')
    ensures CountInv(s')
  {
  }

  lemma CountByTrack(s: State, e: Event, s': State)
    requires PhaseInv(s) && CountInv(s)
    requires s.worker.Numbered? ==> s.worker.id !in s.dev.inflightReqs
    requires TrackEvent(e) && NextTrack(s, e) == Some(s')
    ensures CountInv(s')
  {
  }

  lemma CountByPost(s: State, e: Event, s': State)
    requires PhaseInv(s) && CountInv(s)
    requires Tracked(s.worker) ==> s.worker.id in s.dev.inflightReqs
    requires PostEvent(e) && NextPost(s, e) == Some(s')
    ensures CountInv(s')
  {
    if e.Erase? {
      Shrink(s.dev.inflightReqs, s.worker.id);
    }
  }

  lemma CountByTeardown(s: State, e: Event, s': State)
    requires PhaseInv(s) && CountInv(s)
    requires !SubmitEvent(e) && !WorkerEvent(e) && NextTeardown(s, e) == Some(s')
    ensures CountInv(s')
  {
    if e.Drain? {
      Shrink(s.dev.inflightReqs, e.k);
    }
  }

  lemma DepthBySubmit(s: State, e: Event, s': State)
    requires LockInv(s) && PhaseInv(s) && CountInv(s) && DepthInv(s)
    requires SubmitEvent(e) && NextSubmit(s, e) == Some(s')
    ensures DepthInv(s')
  {
  }

  lemma DepthByLoop(s: State, e: Event, s': State)
    requires LockInv(s) && PhaseInv(s) && CountInv(s) && DepthInv(s)
    requires LoopEvent(e) && NextLoop(s, e) == Some(s')
    ensures DepthInv(s')
  {
  }

  lemma DepthByTrack(s: State, e: Event, s': State)
    requires LockInv(s) && PhaseInv(s) && CountInv(s) && DepthInv(s)
    requires TrackEvent(e) && NextTrack(s, e) == Some(s')
    ensures DepthInv(s')
  {
  }

  lemma DepthByPost(s: State, e: Event, s': State)
    requires LockInv(s) && PhaseInv(s) && CountInv(s) && DepthInv(s)
    requires PostEvent(e) && NextPost(s, e) == Some(s')
    ensures DepthInv(s')
  {
  }

  lemma DepthByTeardown(s: State, e: Event, s': State)
    requires LockInv(s) && PhaseInv(s) && CountInv(s) && DepthInv(s)
    requires !SubmitEvent(e) && !WorkerEvent(e) && NextTeardown(s, e) == Some(s')
    ensures DepthInv(s')
  {
  }

  lemma OrderBySubmit(s: State, e: Event, s': State)
    requires PhaseInv(s) && OrderInv(s)
    requires SubmitEvent(e) && NextSubmit(s, e) == Some(s')
    ensures OrderInv(s')
  {
  }

  lemma OrderByLoop(s: State, e: Event, s': State)
    requires PhaseInv(s) && OrderInv(s)
    requires LoopEvent(e) && NextLoop(s, e) == Some(s')
    ensures OrderInv(s')
  {
  }

  lemma OrderByTrack(s: State, e: Event, s': State)
    requires PhaseInv(s) && OrderInv(s)
    requires TrackEvent(e) && NextTrack(s, e) == Some(s') && |s'.numbered| < TWO64
    ensures OrderInv(s')
  {
  }

  lemma OrderByPost(s: State, e: Event, s': State)
    requires PhaseInv(s) && OrderInv(s)
    requires PostEvent(e) && NextPost(s, e) == Some(s')
    ensures OrderInv(s')
  {
  }

  lemma OrderByTeardown(s: State, e: Event, s': State)
    requires PhaseInv(s) && OrderInv(s)
    requires !SubmitEvent(e) && !WorkerEvent(e) && NextTeardown(s, e) == Some(s')
    ensures OrderInv(s')
  {
  }

  lemma SubmitFrame(s: State, e: Event, s': State)
    requires SubmitEvent(e) && NextSubmit(s, e) == Some(s')
    ensures s'.worker == s.worker && s'.numbered == s.numbered
    ensures s'.dev.inflightReqs == s.dev.inflightReqs
  {
  }

  lemma MapFrame(s: State, s': State)
    requires MapInv(s) && s'.worker == s.worker && s'.numbered == s.numbered
    requires s'.dev.inflightReqs == s.dev.inflightReqs
    ensures MapInv(s')
  {
  }

  lemma MapByLoop(s: State, e: Event, s': State)
    requires PhaseInv(s) && OrderInv(s) && MapInv(s)
    requires LoopEvent(e) && NextLoop(s, e) == Some(s')
    ensures MapInv(s')
  {
  }

  lemma MapByTrack(s: State, e: Event, s': State)
    requires PhaseInv(s) && OrderInv(s) && MapInv(s)
    requires TrackEvent(e) && NextTrack(s, e) == Some(s') && |s'.numbered| < TWO64
    ensures MapInv(s')
  {
  }

  lemma MapByPost(s: State, e: Event, s': State)
    requires PhaseInv(s) && OrderInv(s) && MapInv(s)
    requires PostEvent(e) && NextPost(s, e) == Some(s')
    ensures MapInv(s')
  {
  }

  lemma MapByTeardown(s: State, e: Event, s': State)
    requires PhaseInv(s) && OrderInv(s) && MapInv(s)
    requires !SubmitEvent(e) && !WorkerEvent(e) && NextTeardown(s, e) == Some(s')
    ensures MapInv(s')
  {
  }

  lemma FreshByOwner(s: State, e: Event, s': State)
    requires FreshInv(s)
    requires (e.Alloc? || e.Add?) && NextSubmit(s, e) == Some(s')
    ensures FreshInv(s')
  {
  }

  lemma FreshBySubmit(s: State, e: Event, s': State)
    requires FreshInv(s)
    requires SubmitEvent(e) && !e.Alloc? && !e.Add? && NextSubmit(s, e) == Some(s')
    ensures FreshInv(s')
  {
  }

  lemma FreshByLoop(s: State, e: Event, s': State)
    requires FreshInv(s)
    requires LoopEvent(e) && NextLoop(s, e) == Some(s')
    ensures FreshInv(s')
  {
  }

  lemma FreshByTrack(s: State, e: Event, s': State)
    requires FreshInv(s)
    requires TrackEvent(e) && NextTrack(s, e) == Some(s')
    ensures FreshInv(s')
  {
  }

  lemma FreshByPost(s: State, e: Event, s': State)
    requires FreshInv(s)
    requires PostEvent(e) && NextPost(s, e) == Some(s')
    ensures FreshInv(s')
  {
  }

  lemma FreshByTeardown(s: State, e: Event, s': State)
    requires FreshInv(s)
    requires !SubmitEvent(e) && !WorkerEvent(e) && NextTeardown(s, e) == Some(s')
    ensures FreshInv(s')
  {
  }

  lemma Shrink(m: map<nat, Req>, k: nat)
    requires k in m
    ensures |m - {k}| == |m| - 1
  {
    assert (m - {k}).Keys == m.Keys - {k};
  }

  /** Every event keeps the invariant. */
  lemma InvStep(s: State, e: Event, s': State)
    requires Inv(s) && Next(s, e) == Some(s') && |s'.numbered| < TWO64
    ensures Inv(s')
  {
    if SubmitEvent(e) {
      LockPhaseBySubmit(s, e, s');
      CountBySubmit(s, e, s');
      DepthBySubmit(s, e, s');
      OrderBySubmit(s, e, s');
      SubmitFrame(s, e, s');
      MapFrame(s, s');
      if e.Alloc? || e.Add? {
        FreshByOwner(s, e, s');
      } else {
        FreshBySubmit(s, e, s');
      }
    } else if LoopEvent(e) {
      LockPhaseByLoop(s, e, s');
      CountByLoop(s, e, s');
      DepthByLoop(s, e, s');
      OrderByLoop(s, e, s');
      MapByLoop(s, e, s');
      FreshByLoop(s, e, s');
    } else if TrackEvent(e) {
      LockPhaseByTrack(s, e, s');
      CountByTrack(s, e, s');
      DepthByTrack(s, e, s');
      OrderByTrack(s, e, s');
      MapByTrack(s, e, s');
      FreshByTrack(s, e, s');
    } else if PostEvent(e) {
      LockPhaseByPost(s, e, s');
      CountByPost(s, e, s');
      DepthByPost(s, e, s');
      OrderByPost(s, e, s');
      MapByPost(s, e, s');
      FreshByPost(s, e, s');
    } else {
      LockPhaseByTeardown(s, e, s');
      CountByTeardown(s, e, s');
      DepthByTeardown(s, e, s');
      OrderByTeardown(s, e, s');
      MapByTeardown(s, e, s');
      FreshByTeardown(s, e, s');
    }
  }
}
