/** Module references, callback statuses and wakeups of the direct-IO queue. */
module KernelQueueReferences {
  import opened Common
  import opened KernelQueue
  import opened KernelQueueInvariants
  import opened KernelQueueConservation

  // ------------------------------------------------------------- references

  /** Calls between try_module_get and kzalloc. */
  function Getters(subs: map<Tid, SubmitPc>): set<Tid>
  {
    set t | t in subs && subs[t].Got?
  }

  /** Each live request and each such call holds one module reference. */
  ghost predicate RefInv(s: State)
  {
    s.refs == |s.live| + |Getters(s.subs)|
  }

  ghost predicate OwnedIn(subs: map<Tid, SubmitPc>, r: Req)
  {
    exists t :: t in subs && HasReq(subs[t]) && subs[t].r == r
  }

  ghost predicate Owned(s: State, r: Req)
  {
    OwnedIn(s.subs, r)
  }

  lemma OwnedSplit(subs: map<Tid, SubmitPc>, t: Tid, r: Req)
    requires t in subs
    ensures OwnedIn(subs, r) <==> OwnedIn(subs - {t}, r) || (HasReq(subs[t]) && subs[t].r == r)
  {
    if u :| u in subs && HasReq(subs[u]) && subs[u].r == r && u != t {
      assert u in subs - {t} && (subs - {t})[u] == subs[u];
    }
    if u :| u in subs - {t} && HasReq((subs - {t})[u]) && (subs - {t})[u].r == r {
      assert u in subs && subs[u] == (subs - {t})[u];
    }
  }

  /** Nobody else owns the request of t. */
  lemma OwnedAlone(s: State, t: Tid)
    requires FreshInv(s) && t in s.subs && HasReq(s.subs[t])
    ensures !OwnedIn(s.subs - {t}, s.subs[t].r)
  {
  }

  /** A request is live while its submitter owns it, or accepted and not called back. */
  ghost predicate LiveInv(s: State, r: Req)
  {
    r in s.live <==> Owned(s, r) || (r in s.accepted && Calls(s.dev, r) == [])
  }

  ghost predicate Settled(s: State)
  {
    && (forall r: Req :: Places(s, r) == Accepted(s, r))
    && (forall r: Req :: LiveInv(s, r))
    && RefInv(s)
  }

  predicate Getting(subs: map<Tid, SubmitPc>, t: Tid)
  {
    t in subs && subs[t].Got?
  }

  lemma GettersSet(subs: map<Tid, SubmitPc>, t: Tid, pc: SubmitPc)
    ensures |Getters(subs[t := pc])| - |Getters(subs)| ==
            (if pc.Got? then 1 else 0) - (if Getting(subs, t) then 1 else 0)
  {
    var rest := Getters(subs) - {t};
    assert Getters(subs) == if Getting(subs, t) then rest + {t} else rest;
    assert Getters(subs[t := pc]) == if pc.Got? then rest + {t} else rest;
  }

  lemma GettersDrop(subs: map<Tid, SubmitPc>, t: Tid)
    ensures |Getters(subs - {t})| - |Getters(subs)| == -(if Getting(subs, t) then 1 else 0)
  {
    var rest := Getters(subs) - {t};
    assert Getters(subs) == if Getting(subs, t) then rest + {t} else rest;
    assert Getters(subs - {t}) == rest;
  }

  /** What a submitter's event does to the references. */
  lemma SubmitRefs(s: State, e: Event, s': State)
    requires SubmitEvent(e) && NextSubmit(s, e) == Some(s')
    ensures s'.subs == if e.t in s'.subs then s.subs[e.t := s'.subs[e.t]] else s.subs - {e.t}
    ensures s'.refs - s.refs == if e.Get? then 1 else if e.t !in s'.subs && !e.QueueWork? then -1 else 0
    ensures e.Get? ==> s'.live == s.live && !Getting(s.subs, e.t) && Getting(s'.subs, e.t)
    ensures e.Alloc? ==> Getting(s.subs, e.t) && !Getting(s'.subs, e.t)
                         && s'.live == if e.t in s'.subs then s.live + {s.nextReq} else s.live
    ensures !e.Get? && !e.Alloc? ==> !Getting(s.subs, e.t) && !Getting(s'.subs, e.t)
    ensures e.Add? || e.QueueWork? ==> s'.live == s.live
    ensures e.Lock? || e.CheckDepth? ==>
              e.t in s.subs && HasReq(s.subs[e.t])
              && s'.live == if e.t in s'.subs then s.live else s.live - {s.subs[e.t].r}
  {
  }

  lemma RefBySubmit(s: State, e: Event, s': State)
    requires FreshInv(s) && Settled(s)
    requires SubmitEvent(e) && NextSubmit(s, e) == Some(s')
    ensures RefInv(s')
  {
    SubmitRefs(s, e, s');
    if e.t in s'.subs {
      GettersSet(s.subs, e.t, s'.subs[e.t]);
    } else {
      GettersDrop(s.subs, e.t);
    }
    assert LiveInv(s, s.nextReq);
    if e.Lock? || e.CheckDepth? {
      assert LiveInv(s, s.subs[e.t].r);
    }
  }

  lemma LiveBySubmit(s: State, e: Event, s': State, r: Req)
    requires FreshInv(s) && LiveInv(s, r)
    requires SubmitEvent(e) && NextSubmit(s, e) == Some(s')
    requires Accepted(s, r) == 0 ==> Calls(s.dev, r) == []
    ensures LiveInv(s', r)
  {
    SubmitRefs(s, e, s');
    OwnedBySubmit(s, e, s', r);
  }

  /** Ownership moves only at the allocation, the acceptance and the rejection. */
  lemma OwnedBySubmit(s: State, e: Event, s': State, r: Req)
    requires FreshInv(s)
    requires SubmitEvent(e) && NextSubmit(s, e) == Some(s')
    ensures s'.dev.calls == s.dev.calls
    ensures s'.accepted == if e.Add? then s.accepted + [s.subs[e.t].r] else s.accepted
    ensures e.Get? || e.QueueWork? ==> (Owned(s', r) <==> Owned(s, r))
    ensures e.Alloc? ==> (Owned(s', r) <==> Owned(s, r) || (e.ok && r == s.nextReq))
    ensures e.Lock? || e.CheckDepth? ==>
              (Owned(s', r) <==> Owned(s, r) && (e.t in s'.subs || r != s.subs[e.t].r))
    ensures e.Add? ==> Owned(s, s.subs[e.t].r) && (Owned(s', r) <==> Owned(s, r) && r != s.subs[e.t].r)
  {
    SubmitRefs(s, e, s');
    var t := e.t;
    if t in s.subs {
      OwnedSplit(s.subs, t, r);
      if HasReq(s.subs[t]) {
        OwnedAlone(s, t);
        OwnedSplit(s.subs, t, s.subs[t].r);
      }
    } else {
      assert s.subs - {t} == s.subs;
    }
    if t in s'.subs {
      assert s'.subs - {t} == s.subs - {t};
      OwnedSplit(s'.subs, t, r);
    }
  }

  /** The request an event calls back, if it does. */
  function CalledBack(s: State, e: Event): Option<Req>
  {
    if e.Done? && s.worker.Failing? then Some(s.worker.r)
    else if e.CompleteOne? && s.teardown.Completing? && s.teardown.victims != [] then Some(s.teardown.victims[0])
    else None
  }

  lemma OtherRefs(s: State, e: Event, s': State)
    requires !SubmitEvent(e) && Next(s, e) == Some(s')
    ensures s'.subs == s.subs && s'.accepted == s.accepted && s'.nextReq == s.nextReq
    ensures match CalledBack(s, e)
            case None => s'.live == s.live && s'.refs == s.refs && s'.dev.calls == s.dev.calls
            case Some(r) =>
              && s'.live == s.live - {r} && s'.refs == s.refs - 1
              && exists status :: s'.dev.calls == s.dev.calls[r := Calls(s.dev, r) + [status]]
  {
    match e
    case Done =>
      assert s'.dev.calls == s.dev.calls[s.worker.r := Calls(s.dev, s.worker.r) + [s.worker.rc]];
    case CompleteOne =>
      var r := s.teardown.victims[0];
      assert s'.dev.calls == s.dev.calls[r := Calls(s.dev, r) + [-ESHUTDOWN]];
    case _ =>
  }

  /** A request about to be called back is accepted, live, and has not been called back. */
  lemma CalledBackOnce(s: State, e: Event)
    requires Settled(s) && CalledBack(s, e).Some?
    ensures var r := CalledBack(s, e).value; r in s.accepted && Calls(s.dev, r) == [] && r in s.live
  {
    var r := CalledBack(s, e).value;
    assert Places(s, r) == Accepted(s, r);
    assert LiveInv(s, r);
  }

  lemma LiveByOther(s: State, e: Event, s': State, r: Req)
    requires FreshInv(s) && Settled(s)
    requires !SubmitEvent(e) && Next(s, e) == Some(s')
    ensures LiveInv(s', r)
  {
    OtherRefs(s, e, s');
    assert LiveInv(s, r);
    OwnedFrame(s, s', r);
    if CalledBack(s, e).Some? {
      CalledBackOnce(s, e);
    }
  }

  lemma OwnedFrame(s: State, s': State, r: Req)
    requires s'.subs == s.subs
    ensures Owned(s', r) <==> Owned(s, r)
  {
  }

  lemma RefByOther(s: State, e: Event, s': State)
    requires FreshInv(s) && Settled(s)
    requires !SubmitEvent(e) && Next(s, e) == Some(s')
    ensures RefInv(s')
  {
    OtherRefs(s, e, s');
    if CalledBack(s, e).Some? {
      CalledBackOnce(s, e);
    }
  }

  lemma SettledStep(s: State, e: Event, s': State)
    requires Inv(s) && Settled(s) && Next(s, e) == Some(s')
    ensures Settled(s')
  {
    forall r: Req ensures Places(s', r) == Accepted(s', r) {
      PlacesStep(s, e, s', r);
    }
    forall r: Req ensures LiveInv(s', r) {
      if SubmitEvent(e) {
        assert Places(s, r) == Accepted(s, r);
        LiveBySubmit(s, e, s', r);
      } else {
        LiveByOther(s, e, s', r);
      }
    }
    if SubmitEvent(e) {
      RefBySubmit(s, e, s');
    } else {
      RefByOther(s, e, s');
    }
  }

  // ----------------------------------------------------------------- wakeups

  /** Somebody will still look at a non-empty pending list. */
  ghost predicate WakeInv(s: State)
  {
    s.dev.pendingList != [] && !s.dev.stopping ==>
      || s.workQueued
      || !s.worker.Idle?
      || (exists t :: t in s.subs && s.subs[t].WillQueue?)
      || s.dev.inflight >= s.dev.depth
  }

  lemma WakeBySubmit(s: State, e: Event, s': State)
    requires WakeInv(s) && SubmitEvent(e) && NextSubmit(s, e) == Some(s')
    ensures WakeInv(s')
  {
    if e.Add? {
      assert s'.subs[e.t].WillQueue?;
    } else if t :| t in s.subs && s.subs[t].WillQueue? {
      assert t in s'.subs ==> s'.subs[t].WillQueue?;
    }
  }

  lemma WakeByOther(s: State, e: Event, s': State)
    requires WakeInv(s) && PhaseInv(s) && !SubmitEvent(e) && Next(s, e) == Some(s')
    ensures WakeInv(s')
  {
    OtherRefs(s, e, s');
  }

  // ---------------------------------------------------------------- statuses

  /** No callback has reported success: nothing in the module completes a posted request. */
  ghost predicate StatusInv(s: State)
  {
    && (forall r :: r in s.dev.calls ==> forall i :: 0 <= i < |s.dev.calls[r]| ==> s.dev.calls[r][i] != 0)
    && (s.worker.PostFailed? || s.worker.Erased? || s.worker.Failing? ==> s.worker.rc != 0)
  }

  lemma StatusBySubmit(s: State, e: Event, s': State)
    requires StatusInv(s) && SubmitEvent(e) && NextSubmit(s, e) == Some(s')
    ensures StatusInv(s')
  {
  }

  lemma StatusByLoop(s: State, e: Event, s': State)
    requires StatusInv(s) && (LoopEvent(e) || TrackEvent(e)) && Next(s, e) == Some(s')
    ensures StatusInv(s')
  {
  }

  lemma StatusByPost(s: State, e: Event, s': State)
    requires StatusInv(s) && PostEvent(e) && NextPost(s, e) == Some(s')
    ensures StatusInv(s')
  {
  }

  lemma StatusByTeardown(s: State, e: Event, s': State)
    requires StatusInv(s) && !SubmitEvent(e) && !WorkerEvent(e) && NextTeardown(s, e) == Some(s')
    ensures StatusInv(s')
  {
  }

  lemma StatusByOther(s: State, e: Event, s': State)
    requires StatusInv(s) && !SubmitEvent(e) && Next(s, e) == Some(s')
    ensures StatusInv(s')
  {
    if LoopEvent(e) || TrackEvent(e) {
      StatusByLoop(s, e, s');
    } else if PostEvent(e) {
      StatusByPost(s, e, s');
    } else {
      StatusByTeardown(s, e, s');
    }
  }
}
