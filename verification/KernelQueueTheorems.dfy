/** Theorems about every run of the direct-IO queue. */
module KernelQueueTheorems {
  import opened Common
  import opened KernelQueue
  import opened KernelQueueInvariants
  import opened KernelQueueConservation
  import opened KernelQueueReferences

  // -------------------------------------------------------------------- runs

  lemma RunSnoc(s: State, es: seq<Event>, e: Event)
    ensures Run(s, es + [e]) == match Run(s, es) case None => None case Some(m) => Next(m, e)
  {
    assert (es + [e])[..|es|] == es;
  }

  lemma {:induction false} RunCat(s: State, es: seq<Event>, m: State, fs: seq<Event>)
    requires Run(s, es) == Some(m)
    ensures Run(s, es + fs) == Run(m, fs)
  {
    if fs == [] {
      assert es + fs == es;
    } else {
      var last := |fs| - 1;
      RunCat(s, es, m, fs[..last]);
      assert (es + fs)[..|es| + last] == es + fs[..last];
      SameEnd(s, es + fs, m, fs);
    }
  }

  /** Runs that agree up to their last event, which they share, agree. */
  lemma SameEnd(s: State, es: seq<Event>, m: State, fs: seq<Event>)
    requires es != [] && fs != [] && es[|es| - 1] == fs[|fs| - 1]
    requires Run(s, es[..|es| - 1]) == Run(m, fs[..|fs| - 1])
    ensures Run(s, es) == Run(m, fs)
  {
  }

  lemma NumberedBySubmit(s: State, e: Event, s': State)
    requires SubmitEvent(e) && Next(s, e) == Some(s')
    ensures s.numbered == s'.numbered && s'.fused == s.fused && s'.dev.depth == s.dev.depth
  {
  }

  lemma NumberedByOther(s: State, e: Event, s': State)
    requires !SubmitEvent(e) && Next(s, e) == Some(s')
    ensures |s.numbered| <= |s'.numbered| && s'.fused == s.fused && s'.dev.depth == s.dev.depth
  {
  }

  lemma NumberedGrows(s: State, e: Event, s': State)
    requires Next(s, e) == Some(s')
    ensures |s.numbered| <= |s'.numbered| && s'.fused == s.fused && s'.dev.depth == s.dev.depth
  {
    if SubmitEvent(e) {
      NumberedBySubmit(s, e, s');
    } else {
      NumberedByOther(s, e, s');
    }
  }

  ghost predicate Good(s: State)
  {
    Inv(s) && Settled(s) && WakeInv(s) && StatusInv(s) && DistinctInv(s)
  }

  ghost predicate DistinctInv(s: State)
  {
    forall i, j :: 0 <= i < j < |s.accepted| ==> s.accepted[i] != s.accepted[j]
  }

  lemma DistinctStep(s: State, e: Event, s': State)
    requires DistinctInv(s) && FreshInv(s) && Next(s, e) == Some(s')
    ensures DistinctInv(s')
  {
    if SubmitEvent(e) {
      OwnedBySubmit(s, e, s', 0);
      if e.Add? {
        assert s.subs[e.t].r !in s.accepted;
      }
    } else {
      OtherRefs(s, e, s');
    }
  }

  lemma GoodStep(s: State, e: Event, s': State)
    requires Good(s) && Next(s, e) == Some(s') && |s'.numbered| < TWO64
    ensures Good(s')
  {
    InvStep(s, e, s');
    SettledStep(s, e, s');
    DistinctStep(s, e, s');
    if SubmitEvent(e) {
      WakeBySubmit(s, e, s');
      StatusBySubmit(s, e, s');
    } else {
      WakeByOther(s, e, s');
      StatusByOther(s, e, s');
    }
  }

  lemma GoodInit(depth: nat, fused: bool)
    requires depth >= 1
    ensures Good(Init(depth, fused))
  {
    var s := Init(depth, fused);
    forall r: Req ensures Places(s, r) == Accepted(s, r) && LiveInv(s, r) {
      assert KeysOf(s.dev.inflightReqs, r) == {};
    }
    assert Getters(s.subs) == {};
  }

  lemma {:induction false} RunGood(depth: nat, fused: bool, es: seq<Event>, s: State)
    requires depth >= 1 && Reaches(depth, fused, es, s)
    ensures Good(s) && s.fused == fused && s.dev.depth == depth
  {
    if es == [] {
      GoodInit(depth, fused);
    } else {
      var last := |es| - 1;
      var m := Run(Init(depth, fused), es[..last]).value;
      NumberedGrows(m, es[last], s);
      RunGood(depth, fused, es[..last], m);
      GoodStep(m, es[last], s);
    }
  }

  // ------------------------------------------------------- exactly-once completion

  /** Once the teardown is over, every accepted request has been called back
      exactly once, no other ever was, and nothing is left behind. */
  lemma ExactlyOnce(depth: nat, es: seq<Event>, s: State)
    requires depth >= 1 && Reaches(depth, false, es, s) && s.teardown.Down?
    ensures forall r :: r in s.accepted ==> |Calls(s.dev, r)| == 1
    ensures forall r: Req :: r !in s.accepted ==> Calls(s.dev, r) == []
    ensures s.dev.pendingList == [] && s.dev.inflightReqs == map[]
    ensures s.dev.pending == 0 && s.dev.inflight == 0
  {
    RunGood(depth, false, es, s);
    forall r: Req
      ensures |Calls(s.dev, r)| == Accepted(s, r)
    {
      assert Places(s, r) == Accepted(s, r);
      assert KeysOf(s.dev.inflightReqs, r) == {};
    }
  }

  /** At any time: an accepted request is in exactly one place, a rejected one in none. */
  lemma AtMostOnce(depth: nat, es: seq<Event>, s: State, r: Req)
    requires depth >= 1 && Reaches(depth, false, es, s)
    ensures Places(s, r) == if r in s.accepted then 1 else 0
    ensures |Calls(s.dev, r)| <= 1
    ensures forall i :: 0 <= i < |Calls(s.dev, r)| ==> Calls(s.dev, r)[i] != 0
  {
    RunGood(depth, false, es, s);
    assert Places(s, r) == Accepted(s, r);
  }

  // ------------------------------------------------------------------ depth bound

  /** In flight never exceeds the depth; queued, in flight and in the worker's
      hand together exceed it by one at most. */
  lemma DepthBound(depth: nat, es: seq<Event>, s: State)
    requires depth >= 1 && Reaches(depth, false, es, s)
    ensures 0 <= s.dev.inflight <= depth && 0 <= s.dev.pending
    ensures s.dev.pending + s.dev.inflight + Uncounted(s) <= depth + 1
  {
    RunGood(depth, false, es, s);
    WindowNonNegative(s);
  }

  lemma WindowNonNegative(s: State)
    requires CountInv(s) && MapInv(s)
    ensures s.dev.inflight >= 0
  {
    if s.worker.Stored? {
      assert s.worker.id in s.dev.inflightReqs;
    }
  }

  /** Were the pop and the count one step, the documented limit would hold. */
  lemma FusedDepthBound(depth: nat, es: seq<Event>, s: State)
    requires depth >= 1 && Reaches(depth, true, es, s)
    ensures s.dev.pending + s.dev.inflight <= depth
  {
    RunGood(depth, true, es, s);
  }

  function SubmitOne(t: Tid): seq<Event>
  {
    [Get(t), Alloc(t, true), Lock(t), CheckDepth(t), Add(t), QueueWork(t)]
  }

  /** A state in which a new submission goes straight through. */
  predicate Quiet(s: State)
  {
    s.subs == map[] && s.lock.None? && !s.dev.stopping && s.dev.pending + s.dev.inflight < s.dev.depth
  }

  lemma RunThree(s: State, a: Event, s1: State, b: Event, s2: State, c: Event)
    requires Next(s, a) == Some(s1) && Next(s1, b) == Some(s2)
    ensures Run(s, [a, b, c]) == Next(s2, c)
  {
    assert Run(s, []) == Some(s);
    ExtendRun(s, [], s, a);
    ExtendRun(s, [a], s1, b);
    ExtendRun(s, [a, b], s2, c);
    assert [] + [a] == [a] && [a] + [b] == [a, b] && [a, b] + [c] == [a, b, c];
  }

  lemma SubmitOneRuns(s: State, t: Tid) returns (s': State)
    requires Quiet(s)
    ensures Run(s, SubmitOne(t)) == Some(s')
    ensures s'.dev == PushPending(s.dev, s.nextReq)
    ensures s'.subs == map[] && s'.lock.None? && s'.worker == s.worker && s'.numbered == s.numbered
    ensures s'.workQueued && s'.fused == s.fused
  {
    var es := SubmitOne(t);
    var s1 := Next(s, es[0]).value;
    var s2 := Next(s1, es[1]).value;
    var s3 := Next(s2, es[2]).value;
    var s4 := Next(s3, es[3]).value;
    var s5 := Next(s4, es[4]).value;
    s' := Next(s5, es[5]).value;
    assert s'.subs == map[];
    RunThree(s, es[0], s1, es[1], s2, es[2]);
    RunThree(s3, es[3], s4, es[4], s5, es[5]);
    RunCat(s, [es[0], es[1], es[2]], s3, [es[3], es[4], es[5]]);
    assert [es[0], es[1], es[2]] + [es[3], es[4], es[5]] == es;
  }

  /** k more submissions, as long as there is room. */
  lemma {:induction false} Fill(s: State, k: nat) returns (es: seq<Event>, s': State)
    requires s.subs == map[] && s.lock.None? && !s.dev.stopping
    requires s.dev.pending + s.dev.inflight + k <= s.dev.depth
    ensures Run(s, es) == Some(s')
    ensures s'.dev.pending == s.dev.pending + k && s'.dev.inflight == s.dev.inflight
    ensures s'.dev.depth == s.dev.depth && s'.dev.nextWrId == s.dev.nextWrId
    ensures s'.worker == s.worker && s'.numbered == s.numbered && s'.fused == s.fused
    ensures s'.dev.inflightReqs == s.dev.inflightReqs
    decreases k
  {
    if k == 0 {
      es, s' := [], s;
    } else {
      var m := SubmitOneRuns(s, 0);
      var rest;
      rest, s' := Fill(m, k - 1);
      RunCat(s, SubmitOne(0), m, rest);
      es := SubmitOne(0) + rest;
    }
  }

  lemma ExtendRun(s: State, es: seq<Event>, m: State, e: Event)
    requires Run(s, es) == Some(m)
    ensures Run(s, es + [e]) == Next(m, e)
  {
    RunSnoc(s, es, e);
  }

  /** The documented limit is missed: for every depth some run has depth + 1
      requests queued and in flight. */
  lemma DepthBoundIsTight(depth: nat) returns (es: seq<Event>, s: State)
    requires depth >= 1
    ensures Reaches(depth, false, es, s)
    ensures s.dev.pending + s.dev.inflight == depth + 1
  {
    var s0 := Init(depth, false);
    var a := SubmitOneRuns(s0, 0);
    es := SubmitOne(0);
    var b := Next(a, StartWork).value;
    ExtendRun(s0, es, a, StartWork);
    var c := Next(b, ReadStopping).value;
    ExtendRun(s0, es + [StartWork], b, ReadStopping);
    var d := Next(c, ReadInflight).value;
    ExtendRun(s0, es + [StartWork] + [ReadStopping], c, ReadInflight);
    var p := Next(d, Pop).value;
    ExtendRun(s0, es + [StartWork] + [ReadStopping] + [ReadInflight], d, Pop);
    es := es + [StartWork] + [ReadStopping] + [ReadInflight] + [Pop];
    var more, f := Fill(p, depth);
    RunCat(s0, es, p, more);
    es := es + more;
    s := CountHeld(f);
    RunCat(s0, es, f, [Number, Store(0), Count]);
    es := es + [Number, Store(0), Count];
  }

  lemma CountHeld(f: State) returns (s: State)
    requires f.worker.Popped? && !f.fused && |f.numbered| == 0
    ensures Run(f, [Number, Store(0), Count]) == Some(s)
    ensures s.dev.pending == f.dev.pending && s.dev.inflight == f.dev.inflight + 1 && |s.numbered| == 1
  {
    var a := Next(f, Number).value;
    var b := Next(a, Store(0)).value;
    s := Next(b, Count).value;
    RunThree(f, Number, a, Store(0), b, Count);
  }

  // ---------------------------------------------------------------- no lost wakeup

  lemma NoLostWakeup(depth: nat, es: seq<Event>, s: State)
    requires depth >= 1 && Reaches(depth, false, es, s)
    requires s.dev.pendingList != [] && !s.dev.stopping
    ensures s.workQueued || !s.worker.Idle? || (exists t :: t in s.subs && s.subs[t].WillQueue?)
            || s.dev.inflight == depth
  {
    RunGood(depth, false, es, s);
  }

  // ------------------------------------------------------------- references and ids

  lemma References(depth: nat, es: seq<Event>, s: State)
    requires depth >= 1 && Reaches(depth, false, es, s)
    ensures s.refs == |s.live| + |Getters(s.subs)|
    ensures forall r: Req :: r in s.live <==> Owned(s, r) || (r in s.accepted && Calls(s.dev, r) == [])
    ensures s.teardown.Down? && s.subs == map[] ==> s.refs == 0
  {
    RunGood(depth, false, es, s);
    forall r: Req
      ensures r in s.live <==> Owned(s, r) || (r in s.accepted && Calls(s.dev, r) == [])
    {
      assert LiveInv(s, r);
    }
    if s.teardown.Down? && s.subs == map[] {
      ExactlyOnce(depth, es, s);
      assert s.live == {};
      assert Getters(s.subs) == {};
    }
  }

  /** wr_ids are the positions in acceptance order, each used once, and the
      xarray agrees with the counter outside the two windows of the worker. */
  lemma WrIds(depth: nat, es: seq<Event>, s: State)
    requires depth >= 1 && Reaches(depth, false, es, s)
    ensures s.numbered <= s.accepted
    ensures forall i, j :: 0 <= i < j < |s.accepted| ==> s.accepted[i] != s.accepted[j]
    ensures forall k :: k in s.dev.inflightReqs ==>
              1 <= k <= |s.numbered| && s.dev.inflightReqs[k] == s.accepted[k - 1]
    ensures s.worker.Numbered? ==> s.worker.id !in s.dev.inflightReqs
    ensures !Spliced(s) ==> s.accepted == s.numbered + PoppedOnly(s.worker) + s.dev.pendingList
    ensures |s.dev.inflightReqs| ==
            s.dev.inflight + if s.worker.Stored? then 1 else if s.worker.Erased? then -1 else 0
  {
    RunGood(depth, false, es, s);
  }

  // ------------------------------------------------------------ teardown can finish

  function Phase(t: TeardownPc): nat
  {
    match t
    case Up => 5
    case Stopping => 4
    case Flushed => 3
    case Draining(_, _) => 2
    case Completing(_) => 1
    case Down => 0
  }

  function Left(s: State): nat
  {
    if s.teardown.Draining? then |s.dev.inflightReqs|
    else if s.teardown.Completing? then |s.teardown.victims| else 0
  }

  function LockLeft(s: State): nat
  {
    if s.lock.None? || s.lock.value !in s.subs then 0
    else if s.subs[s.lock.value].Locked? then 2 else 1
  }

  function WorkerLeft(w: WorkerPc): nat
  {
    match w
    case Idle => 0
    case Head => 1
    case Failing(_, _) => 2
    case Erased(_, _, _) => 3
    case PostFailed(_, _, _) => 4
    case Counted(_, _) => 5
    case Stored(_, _) => 6
    case Numbered(_, _) => 7
    case Popped(_) => 8
    case PopNow => 9
    case Running => 10
  }

  /** s' is nearer to the end of the teardown than s. */
  predicate Closer(s': State, s: State)
  {
    || Phase(s'.teardown) < Phase(s.teardown)
    || (Phase(s'.teardown) == Phase(s.teardown)
        && (|| Left(s') < Left(s)
            || (Left(s') == Left(s)
                && (|| LockLeft(s') < LockLeft(s)
                    || (LockLeft(s') == LockLeft(s) && WorkerLeft(s'.worker) < WorkerLeft(s.worker))))))
  }

  /** wr_ids used, counting the one the running iteration may still take. */
  function Budget(s: State): nat
  {
    |s.numbered| + if WorkerLeft(s.worker) >= 8 then 1 else 0
  }

  lemma LeastKey(m: map<nat, Req>) returns (k: nat)
    requires m != map[]
    ensures FirstKey(m, 0, k)
    decreases |m|
  {
    k :| k in m;
    var rest := m - {k};
    if rest != map[] {
      Shrink(m, k);
      var j := LeastKey(rest);
      assert forall i :: i in m ==> i == k || i in rest;
      if j < k {
        k := j;
      }
    }
  }

  function WorkerMove(w: WorkerPc): Event
  {
    match w
    case Idle => StartWork
    case Head => ReadStopping
    case Running => ReadInflight
    case PopNow => Pop
    case Popped(_) => Number
    case Numbered(_, _) => Store(0)
    case Stored(_, _) => Count
    case Counted(_, _) => Post(0)
    case PostFailed(_, _, _) => Erase
    case Erased(_, _, _) => Uncount
    case Failing(_, _) => Done
  }

  lemma WorkerProgress(s: State) returns (s': State)
    requires s.dev.stopping && s.lock.None? && !s.worker.Idle?
    ensures Next(s, WorkerMove(s.worker)) == Some(s')
    ensures s'.teardown == s.teardown && s'.lock.None? && WorkerLeft(s'.worker) < WorkerLeft(s.worker)
    ensures Budget(s') <= Budget(s)
  {
    if WorkerLeft(s.worker) < 6 && !s.worker.Head? {
      s' := PostProgress(s);
    } else {
      s' := TrackProgress(s);
    }
  }

  lemma TrackProgress(s: State) returns (s': State)
    requires s.dev.stopping && s.lock.None? && (s.worker.Head? || WorkerLeft(s.worker) >= 6)
    ensures Next(s, WorkerMove(s.worker)) == Some(s')
    ensures s'.teardown == s.teardown && s'.lock.None? && WorkerLeft(s'.worker) < WorkerLeft(s.worker)
    ensures Budget(s') <= Budget(s)
  {
    s' := Next(s, WorkerMove(s.worker)).value;
  }

  lemma PostProgress(s: State) returns (s': State)
    requires s.lock.None? && 1 < WorkerLeft(s.worker) < 6
    ensures Next(s, WorkerMove(s.worker)) == Some(s')
    ensures s'.teardown == s.teardown && s'.lock.None? && WorkerLeft(s'.worker) < WorkerLeft(s.worker)
    ensures Budget(s') <= Budget(s)
  {
    s' := NextPost(s, WorkerMove(s.worker)).value;
  }

  /** Steps of the teardown, of the work item once begun, and of whoever is inside the
      pending lock: no new submission, no new start of the work. */
  predicate ClosingEvent(e: Event)
  {
    if SubmitEvent(e) then e.CheckDepth? || e.Add? else !e.StartWork?
  }

  lemma LockProgress(s: State) returns (e: Event, s': State)
    requires LockInv(s) && s.lock.Some?
    ensures ClosingEvent(e) && Next(s, e) == Some(s')
    ensures s'.teardown == s.teardown && s'.worker == s.worker && LockLeft(s') < LockLeft(s)
    ensures s'.dev.inflightReqs == s.dev.inflightReqs && Budget(s') == Budget(s)
  {
    var t := s.lock.value;
    e := if s.subs[t].Locked? then CheckDepth(t) else Add(t);
    s' := Next(s, e).value;
  }

  lemma DrainOne(s: State) returns (e: Event, s': State)
    requires s.teardown.Draining? && s.dev.inflightReqs != map[]
    requires forall k :: k in s.dev.inflightReqs ==> s.teardown.index <= k
    ensures ClosingEvent(e) && Next(s, e) == Some(s') && Closer(s', s) && Budget(s') == Budget(s)
  {
    var m := s.dev.inflightReqs;
    var k := LeastKey(m);
    assert FirstKey(m, s.teardown.index, k);
    Shrink(m, k);
    e := Drain(k);
    s' := NextTeardown(s, e).value;
  }

  lemma DrainProgress(s: State) returns (e: Event, s': State)
    requires PhaseInv(s) && s.teardown.Draining?
    ensures ClosingEvent(e) && Next(s, e) == Some(s') && Closer(s', s) && Budget(s') == Budget(s)
  {
    if s.dev.inflightReqs == map[] {
      e := DrainEnd;
      s' := NextTeardown(s, e).value;
    } else {
      e, s' := DrainOne(s);
    }
  }

  lemma Progress(s: State) returns (e: Event, s': State)
    requires LockInv(s) && PhaseInv(s) && !s.teardown.Down?
    ensures ClosingEvent(e) && Next(s, e) == Some(s') && Closer(s', s) && Budget(s') <= Budget(s)
  {
    if s.teardown.Draining? {
      e, s' := DrainProgress(s);
    } else if s.lock.Some? && !s.teardown.Up? {
      e, s' := LockProgress(s);
    } else if s.teardown.Stopping? && !s.worker.Idle? && !s.worker.Head? {
      e := WorkerMove(s.worker);
      s' := WorkerProgress(s);
    } else {
      e := if s.teardown.Up? then SetStopping
           else if s.teardown.Stopping? then Flush
           else if s.teardown.Flushed? then Splice
           else if s.teardown.victims != [] then CompleteOne
           else Finish;
      s' := Next(s, e).value;
    }
  }

  /** No interleaving can wedge the queue: the teardown, the running work item and the
      lock holder complete the teardown by themselves, and so every accepted request. */
  lemma {:induction false} TeardownCanFinish(s: State) returns (es: seq<Event>, s': State)
    requires Good(s) && Budget(s) < TWO64
    ensures Run(s, es) == Some(s') && s'.teardown.Down? && Good(s') && |s'.numbered| < TWO64
    ensures forall i :: 0 <= i < |es| ==> ClosingEvent(es[i])
    decreases Phase(s.teardown), Left(s), LockLeft(s), WorkerLeft(s.worker)
  {
    if s.teardown.Down? {
      es, s' := [], s;
    } else {
      var e, m := Progress(s);
      GoodStep(s, e, m);
      var rest;
      rest, s' := TeardownCanFinish(m);
      assert Run(s, []) == Some(s);
      ExtendRun(s, [], s, e);
      assert [] + [e] == [e];
      RunCat(s, [e], m, rest);
      es := [e] + rest;
    }
  }

  lemma AcceptedStep(s: State, e: Event, s': State)
    requires Next(s, e) == Some(s')
    ensures s.accepted <= s'.accepted
  {
    if !SubmitEvent(e) {
      AcceptedFrame(s, e, s');
    }
  }

  lemma {:induction false} AcceptedGrows(s: State, es: seq<Event>, s': State)
    requires Run(s, es) == Some(s')
    ensures s.accepted <= s'.accepted
  {
    if es != [] {
      var m := Run(s, es[..|es| - 1]).value;
      AcceptedGrows(s, es[..|es| - 1], m);
      AcceptedStep(m, es[|es| - 1], s');
    }
  }

  /** From every reachable state; and what was accepted by then is called back once. */
  lemma TeardownAlwaysPossible(depth: nat, es: seq<Event>, s: State) returns (more: seq<Event>, s': State)
    requires depth >= 1 && Reaches(depth, false, es, s) && |s.numbered| + 1 < TWO64
    ensures Reaches(depth, false, es + more, s') && s'.teardown.Down?
    ensures forall i :: 0 <= i < |more| ==> ClosingEvent(more[i])
    ensures forall r :: r in s.accepted ==> |Calls(s'.dev, r)| == 1
  {
    RunGood(depth, false, es, s);
    more, s' := TeardownCanFinish(s);
    RunCat(Init(depth, false), es, s, more);
    AcceptedGrows(s, more, s');
    ExactlyOnce(depth, es + more, s');
  }
}
