/** When the direct-IO queue keeps the documented limit, pending + inflight within
    queue_depth, and when a full queue moves again. */
module KernelQueueDepth {
  import opened Common
  import opened KernelQueue
  import opened KernelQueueInvariants
  import opened KernelQueueTheorems

  /** 1 when the worker holds a request that it may still count as in flight. */
  function Held(s: State): nat
  {
    if s.worker.Popped? || s.worker.Numbered? || s.worker.Stored? then 1 else 0
  }

  /** The limit of the documentation. */
  predicate WithinLimit(s: State)
  {
    s.dev.pending + s.dev.inflight <= s.dev.depth
  }

  /** An acceptance that forgets the request in the worker's hand. */
  predicate OverAdmits(s: State, e: Event)
  {
    e.Add? && s.dev.pending + s.dev.inflight + Held(s) >= s.dev.depth
  }

  /** Event i of the run is one. */
  ghost predicate OverAdmission(depth: nat, es: seq<Event>, i: nat)
  {
    i < |es| && var o := Run(Init(depth, false), es[..i]); o.Some? && OverAdmits(o.value, es[i])
  }

  // -------------------------------------------------- without over-admission

  /** The limit, the request in the worker's hand included. */
  predicate HeldWithin(s: State)
  {
    s.dev.pending + s.dev.inflight + Held(s) <= s.dev.depth
  }

  lemma HeldBySubmit(s: State, e: Event, s': State)
    requires HeldWithin(s) && !OverAdmits(s, e) && SubmitEvent(e) && NextSubmit(s, e) == Some(s')
    ensures HeldWithin(s')
  {
  }

  lemma HeldByLoop(s: State, e: Event, s': State)
    requires HeldWithin(s) && !s.fused && LoopEvent(e) && NextLoop(s, e) == Some(s')
    ensures HeldWithin(s')
  {
  }

  lemma HeldByTrack(s: State, e: Event, s': State)
    requires HeldWithin(s) && !s.fused && TrackEvent(e) && NextTrack(s, e) == Some(s')
    ensures HeldWithin(s')
  {
  }

  lemma HeldByPost(s: State, e: Event, s': State)
    requires HeldWithin(s) && PostEvent(e) && NextPost(s, e) == Some(s')
    ensures HeldWithin(s')
  {
  }

  lemma HeldByTeardown(s: State, e: Event, s': State)
    requires HeldWithin(s) && s.dev.pending >= 0
    requires !SubmitEvent(e) && !WorkerEvent(e) && NextTeardown(s, e) == Some(s')
    ensures HeldWithin(s')
  {
  }

  lemma HeldStep(s: State, e: Event, s': State)
    requires HeldWithin(s) && !s.fused && s.dev.pending >= 0 && !OverAdmits(s, e) && Next(s, e) == Some(s')
    ensures HeldWithin(s')
  {
    if SubmitEvent(e) {
      HeldBySubmit(s, e, s');
    } else if LoopEvent(e) {
      HeldByLoop(s, e, s');
    } else if TrackEvent(e) {
      HeldByTrack(s, e, s');
    } else if PostEvent(e) {
      HeldByPost(s, e, s');
    } else {
      HeldByTeardown(s, e, s');
    }
  }

  /** In every run without an over-admission the documented limit holds throughout, even
      with the request in the worker's hand counted. */
  lemma {:induction false} NoOverAdmissionKeepsLimit(depth: nat, es: seq<Event>, s: State)
    requires depth >= 1 && Reaches(depth, false, es, s)
    requires forall i :: 0 <= i < |es| ==> !OverAdmission(depth, es, i)
    ensures HeldWithin(s) && WithinLimit(s)
  {
    if es != [] {
      var last := |es| - 1;
      var m := Run(Init(depth, false), es[..last]).value;
      NumberedGrows(m, es[last], s);
      forall i | 0 <= i < last ensures !OverAdmission(depth, es[..last], i) {
        assert !OverAdmission(depth, es, i);
        assert es[..last][..i] == es[..i];
      }
      NoOverAdmissionKeepsLimit(depth, es[..last], m);
      RunGood(depth, false, es[..last], m);
      assert !OverAdmission(depth, es, last);
      HeldStep(m, es[last], s);
    }
  }

  // ------------------------------------------------------ after an over-admission

  ghost predicate OnlyTracking(es: seq<Event>)
  {
    forall i :: 0 <= i < |es| ==> TrackEvent(es[i])
  }

  /** The worker needs only go on tracking what it holds to go over the limit. */
  ghost predicate AboutToExceed(s: State)
  {
    exists fs, s' :: OnlyTracking(fs) && Run(s, fs) == Some(s') && !WithinLimit(s')
  }

  /** The worker counts what it holds. */
  lemma TrackHeld(s: State) returns (fs: seq<Event>, s': State)
    requires !s.fused
    ensures OnlyTracking(fs) && Run(s, fs) == Some(s')
    ensures s'.dev.pending == s.dev.pending && s'.dev.inflight == s.dev.inflight + Held(s)
    ensures s'.dev.depth == s.dev.depth && |s'.numbered| <= |s.numbered| + 1
  {
    assert Run(s, []) == Some(s);
    if s.worker.Popped? {
      var a := Next(s, Number).value;
      var b := Next(a, Store(0)).value;
      s' := Next(b, Count).value;
      RunThree(s, Number, a, Store(0), b, Count);
      fs := [Number, Store(0), Count];
    } else if s.worker.Numbered? {
      var a := Next(s, Store(0)).value;
      s' := Next(a, Count).value;
      ExtendRun(s, [], s, Store(0));
      ExtendRun(s, [] + [Store(0)], a, Count);
      fs := [] + [Store(0)] + [Count];
    } else if s.worker.Stored? {
      s' := Next(s, Count).value;
      ExtendRun(s, [], s, Count);
      fs := [] + [Count];
    } else {
      fs, s' := [], s;
    }
  }

  lemma AddIs(s: State, t: Tid, s': State)
    requires Next(s, Add(t)) == Some(s')
    ensures s'.dev == PushPending(s.dev, s.subs[t].r) && s'.worker == s.worker && s'.fused == s.fused
    ensures s'.numbered == s.numbered && t in s.subs && s.subs[t].Room?
  {
  }

  /** Every over-admission is one too many: tracking what the worker holds, and nothing
      else, takes the queue to depth + 1. */
  lemma OverAdmissionExceeds(depth: nat, es: seq<Event>, s: State, t: Tid, s': State)
    returns (fs: seq<Event>, f: State)
    requires depth >= 1 && Reaches(depth, false, es, s) && |s.numbered| + 1 < TWO64
    requires Next(s, Add(t)) == Some(s') && OverAdmits(s, Add(t))
    ensures OnlyTracking(fs) && Run(s', fs) == Some(f)
    ensures f.dev.pending + f.dev.inflight == depth + 1 && f.dev.depth == depth
    ensures Reaches(depth, false, es + [Add(t)] + fs, f)
  {
    RunGood(depth, false, es, s);
    AddIs(s, t, s');
    fs, f := TrackHeld(s');
    ExtendRun(Init(depth, false), es, s, Add(t));
    RunCat(Init(depth, false), es + [Add(t)], s', fs);
    AtMostOneOver(depth, es, s, t);
  }

  lemma AtMostOneOver(depth: nat, es: seq<Event>, s: State, t: Tid)
    requires depth >= 1 && Reaches(depth, false, es, s) && t in s.subs && s.subs[t].Room?
    ensures s.dev.depth == depth && s.dev.pending + s.dev.inflight + Held(s) <= depth
  {
    RunGood(depth, false, es, s);
    assert s.lock == Some(t);
  }

  // -------------------------------------------------------------------- the iff

  lemma {:induction false} RunPrefix(s: State, es: seq<Event>, i: nat)
    requires i <= |es| && Run(s, es).Some?
    ensures Run(s, es[..i]).Some? && |Run(s, es[..i]).value.numbered| <= |Run(s, es).value.numbered|
    decreases |es|
  {
    if i == |es| {
      assert es[..i] == es;
    } else {
      var last := |es| - 1;
      var m := Run(s, es[..last]).value;
      NumberedGrows(m, es[last], Run(s, es).value);
      RunPrefix(s, es[..last], i);
      assert es[..last][..i] == es[..i];
    }
  }

  /** The state before event i. */
  ghost function At(depth: nat, es: seq<Event>, i: nat): (s: State)
    requires i <= |es| && Run(Init(depth, false), es).Some?
    ensures Run(Init(depth, false), es[..i]) == Some(s)
  {
    RunPrefix(Init(depth, false), es, i);
    Run(Init(depth, false), es[..i]).value
  }

  lemma StepAt(depth: nat, es: seq<Event>, i: nat)
    requires i < |es| && Run(Init(depth, false), es).Some?
    ensures Next(At(depth, es, i), es[i]) == Some(At(depth, es, i + 1))
    ensures |At(depth, es, i).numbered| <= |Run(Init(depth, false), es).value.numbered|
  {
    RunPrefix(Init(depth, false), es, i);
    RunPrefix(Init(depth, false), es, i + 1);
    assert es[..i + 1][..i] == es[..i];
  }

  lemma {:induction false} TrackingKeeps(s: State, fs: seq<Event>, s': State)
    requires HeldWithin(s) && !s.fused && OnlyTracking(fs) && Run(s, fs) == Some(s')
    ensures HeldWithin(s') && !s'.fused
  {
    if fs != [] {
      var last := |fs| - 1;
      var m := Run(s, fs[..last]).value;
      TrackingKeeps(s, fs[..last], m);
      assert TrackEvent(fs[last]);
      HeldByTrack(m, fs[last], s');
      NumberedGrows(m, fs[last], s');
    }
  }

  lemma SafeWithoutOverAdmission(depth: nat, es: seq<Event>, s: State)
    requires depth >= 1 && Reaches(depth, false, es, s)
    requires forall i :: 0 <= i < |es| ==> !OverAdmission(depth, es, i)
    ensures !AboutToExceed(s)
  {
    NoOverAdmissionKeepsLimit(depth, es, s);
    RunGood(depth, false, es, s);
    forall fs, s' | OnlyTracking(fs) && Run(s, fs) == Some(s') ensures WithinLimit(s') {
      TrackingKeeps(s, fs, s');
    }
  }

  lemma OverAdmissionShows(depth: nat, es: seq<Event>, s: State, i: nat)
    requires depth >= 1 && Reaches(depth, false, es, s) && |s.numbered| + 1 < TWO64 && OverAdmission(depth, es, i)
    ensures i < |es| && AboutToExceed(At(depth, es, i + 1))
  {
    StepAt(depth, es, i);
    OverAdmissionLeads(depth, es[..i], At(depth, es, i), es[i], At(depth, es, i + 1));
  }

  lemma OverAdmissionLeads(depth: nat, es: seq<Event>, s: State, e: Event, s': State)
    requires depth >= 1 && Reaches(depth, false, es, s) && |s.numbered| + 1 < TWO64
    requires Next(s, e) == Some(s') && OverAdmits(s, e)
    ensures AboutToExceed(s')
  {
    var fs, f := OverAdmissionExceeds(depth, es, s, e.t, s');
    assert !WithinLimit(f);
  }

  /** The documented limit, exactly. A run holds it in all its states, and would hold it
      were the worker to go on tracking in any of them, if and only if no request in it
      was accepted over the one in the worker's hand. */
  lemma LimitIffNoOverAdmission(depth: nat, es: seq<Event>, s: State)
    requires depth >= 1 && Reaches(depth, false, es, s) && |s.numbered| + 1 < TWO64
    ensures (forall i :: 0 <= i <= |es| ==> !AboutToExceed(At(depth, es, i))) <==>
            (forall i :: 0 <= i < |es| ==> !OverAdmission(depth, es, i))
  {
    if i :| 0 <= i < |es| && OverAdmission(depth, es, i) {
      OverAdmissionShows(depth, es, s, i);
    } else {
      forall i | 0 <= i <= |es| ensures !AboutToExceed(At(depth, es, i)) {
        RunPrefix(Init(depth, false), es, i);
        forall j | 0 <= j < i ensures !OverAdmission(depth, es[..i], j) {
          assert !OverAdmission(depth, es, j);
          assert es[..i][..j] == es[..j];
        }
        SafeWithoutOverAdmission(depth, es[..i], At(depth, es, i));
      }
    }
  }

  // ------------------------------------------------- what a submitter can check

  /** The depth check of event i finds room for exactly one more, so that it may pass
      over a request in the worker's hand. */
  ghost predicate LastPlaceGiven(depth: nat, es: seq<Event>, i: nat)
  {
    && i < |es| && es[i].CheckDepth?
    && var o := Run(Init(depth, false), es[..i]);
       o.Some? && o.value.dev.pending + o.value.dev.inflight + 1 == depth
  }

  /** Inside the lock after a stricter check there is room for the worker's request too. */
  ghost predicate RoomForHeld(s: State)
  {
    RoomHeld(s) ==> s.dev.pending + s.dev.inflight + Held(s) < s.dev.depth
  }

  lemma RoomBySubmit(s: State, e: Event, s': State)
    requires LockInv(s) && RoomForHeld(s) && SubmitEvent(e) && NextSubmit(s, e) == Some(s')
    requires e.CheckDepth? ==> s.dev.pending + s.dev.inflight + 1 != s.dev.depth
    ensures RoomForHeld(s')
  {
  }

  lemma RoomByOther(s: State, e: Event, s': State)
    requires LockInv(s) && PhaseInv(s) && RoomForHeld(s) && !s.fused && !SubmitEvent(e) && Next(s, e) == Some(s')
    ensures RoomForHeld(s')
  {
    if LoopEvent(e) {
      assert e.Pop? ==> s.lock.None?;
    } else if TrackEvent(e) {
      assert s'.lock == s.lock && s'.subs == s.subs;
    }
  }

  lemma {:induction false} StrictRoom(depth: nat, es: seq<Event>, s: State)
    requires depth >= 1 && Reaches(depth, false, es, s)
    requires forall i :: 0 <= i < |es| ==> !LastPlaceGiven(depth, es, i)
    ensures RoomForHeld(s)
  {
    if es != [] {
      var last := |es| - 1;
      var m := Run(Init(depth, false), es[..last]).value;
      NumberedGrows(m, es[last], s);
      forall i | 0 <= i < last ensures !LastPlaceGiven(depth, es[..last], i) {
        assert !LastPlaceGiven(depth, es, i);
        assert es[..last][..i] == es[..i];
      }
      StrictRoom(depth, es[..last], m);
      RunGood(depth, false, es[..last], m);
      assert !LastPlaceGiven(depth, es, last);
      if SubmitEvent(es[last]) {
        RoomBySubmit(m, es[last], s);
      } else {
        RoomByOther(m, es[last], s);
      }
    }
  }

  /** A submitter that passes the check under pending_lock only while pending + inflight
      + 1 is below the depth keeps the documented limit, whatever the worker holds. */
  lemma StrictCheckKeepsLimit(depth: nat, es: seq<Event>, s: State)
    requires depth >= 1 && Reaches(depth, false, es, s)
    requires forall i :: 0 <= i < |es| ==> !LastPlaceGiven(depth, es, i)
    ensures WithinLimit(s)
  {
    forall i | 0 <= i < |es| ensures !OverAdmission(depth, es, i) {
      StepAt(depth, es, i);
      forall j | 0 <= j < i ensures !LastPlaceGiven(depth, es[..i], j) {
        assert !LastPlaceGiven(depth, es, j);
        assert es[..i][..j] == es[..j];
      }
      StrictAdd(depth, es[..i], At(depth, es, i), es[i]);
    }
    NoOverAdmissionKeepsLimit(depth, es, s);
  }

  lemma StrictAdd(depth: nat, es: seq<Event>, s: State, e: Event)
    requires depth >= 1 && Reaches(depth, false, es, s) && Next(s, e).Some?
    requires forall i :: 0 <= i < |es| ==> !LastPlaceGiven(depth, es, i)
    ensures !OverAdmits(s, e)
  {
    if e.Add? {
      StrictRoom(depth, es, s);
      RunGood(depth, false, es, s);
      AddIs(s, e.t, Next(s, e).value);
      assert s.lock == Some(e.t);
    }
  }

  // ------------------------------------------------------------ a full queue

  /** The post stub: no post succeeds. */
  ghost predicate NoPostSucceeds(es: seq<Event>)
  {
    forall i :: 0 <= i < |es| ==> es[i] != Post(0)
  }

  /** In flight is at most what the worker is about to give up. */
  predicate OnlyOwn(s: State)
  {
    s.dev.inflight == if s.worker.Counted? || s.worker.PostFailed? || s.worker.Erased? then 1 else 0
  }

  lemma OwnByWorker(s: State, e: Event, s': State)
    requires OnlyOwn(s) && !s.fused && WorkerEvent(e) && e != Post(0) && Next(s, e) == Some(s')
    ensures OnlyOwn(s')
  {
  }

  lemma OwnByOther(s: State, e: Event, s': State)
    requires OnlyOwn(s) && CountInv(s) && PhaseInv(s) && !WorkerEvent(e) && Next(s, e) == Some(s')
    ensures OnlyOwn(s')
  {
  }

  lemma {:induction false} StubKeepsOwn(depth: nat, es: seq<Event>, s: State)
    requires depth >= 1 && Reaches(depth, false, es, s) && NoPostSucceeds(es)
    ensures OnlyOwn(s)
  {
    if es != [] {
      var last := |es| - 1;
      var m := Run(Init(depth, false), es[..last]).value;
      NumberedGrows(m, es[last], s);
      StubKeepsOwn(depth, es[..last], m);
      RunGood(depth, false, es[..last], m);
      if WorkerEvent(es[last]) {
        assert es[last] != Post(0);
        OwnByWorker(m, es[last], s);
      } else {
        OwnByOther(m, es[last], s);
      }
    }
  }

  /** With the post stub of today a queued request always has somebody who will look:
      the queue is never full of requests in flight. */
  lemma StubNeverStalls(depth: nat, es: seq<Event>, s: State)
    requires depth >= 1 && Reaches(depth, false, es, s) && NoPostSucceeds(es)
    requires s.dev.pendingList != [] && !s.dev.stopping
    ensures s.workQueued || !s.worker.Idle? || exists t :: t in s.subs && s.subs[t].WillQueue?
    ensures s.dev.inflight <= 1
  {
    StubKeepsOwn(depth, es, s);
    NoLostWakeup(depth, es, s);
  }

  /** All of the depth is in flight, and the worker is not giving any of it up. */
  predicate Full(s: State)
  {
    s.dev.inflight == s.dev.depth && (s.worker.Idle? || s.worker.Head? || s.worker.Running? || s.worker.Failing?)
  }

  lemma FullStep(s: State, e: Event, s': State)
    requires Full(s) && !Spliced(s) && !e.Splice? && Next(s, e) == Some(s')
    ensures Full(s') && !Spliced(s') && s.dev.pendingList <= s'.dev.pendingList
  {
    if SubmitEvent(e) {
      FullBySubmit(s, e, s');
    } else {
      FullByOther(s, e, s');
    }
  }

  lemma FullBySubmit(s: State, e: Event, s': State)
    requires Full(s) && !Spliced(s) && SubmitEvent(e) && NextSubmit(s, e) == Some(s')
    ensures Full(s') && !Spliced(s') && s.dev.pendingList <= s'.dev.pendingList
  {
  }

  lemma FullByOther(s: State, e: Event, s': State)
    requires Full(s) && !Spliced(s) && !e.Splice? && !SubmitEvent(e) && Next(s, e) == Some(s')
    ensures Full(s') && !Spliced(s') && s.dev.pendingList == s'.dev.pendingList
  {
  }

  lemma {:induction false} FullStays(s: State, fs: seq<Event>, s': State)
    requires Full(s) && !Spliced(s) && Run(s, fs) == Some(s')
    requires forall i :: 0 <= i < |fs| ==> !fs[i].Splice?
    ensures Full(s') && !Spliced(s') && s.dev.pendingList <= s'.dev.pendingList
  {
    if fs != [] {
      var last := |fs| - 1;
      var m := Run(s, fs[..last]).value;
      FullStays(s, fs[..last], m);
      assert !fs[last].Splice?;
      FullStep(m, fs[last], s');
    }
  }

  /** Once posts have succeeded up to the depth, nothing in the module but the splice of
      the teardown moves the list: in every continuation without it what is queued stays
      queued, in order and without its callback. */
  lemma FullQueueWaitsForTeardown(depth: nat, es: seq<Event>, s: State, fs: seq<Event>, s': State)
    requires depth >= 1 && Reaches(depth, false, es, s) && Full(s) && !Spliced(s)
    requires Run(s, fs) == Some(s') && |s'.numbered| < TWO64 && forall i :: 0 <= i < |fs| ==> !fs[i].Splice?
    ensures s.dev.pendingList <= s'.dev.pendingList && s'.dev.inflight == depth
    ensures forall r :: r in s.dev.pendingList ==> Calls(s'.dev, r) == []
  {
    FullStays(s, fs, s');
    RunCat(Init(depth, false), es, s, fs);
    RunGood(depth, false, es + fs, s');
    forall r | r in s.dev.pendingList ensures Calls(s'.dev, r) == [] {
      assert r in s'.dev.pendingList;
      QueuedUncalled(depth, es + fs, s', r);
    }
  }

  lemma QueuedUncalled(depth: nat, es: seq<Event>, s: State, r: Req)
    requires depth >= 1 && Reaches(depth, false, es, s) && r in s.dev.pendingList
    ensures Calls(s.dev, r) == []
  {
    AtMostOnce(depth, es, s, r);
  }
}
