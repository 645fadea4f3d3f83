/** What the callbacks of the direct-IO queue report: every status is traced back to
    the event of the run that caused it. */
module KernelQueueStatus {
  import opened Common
  import opened KernelQueue
  import opened KernelQueueTheorems

  // ---------------------------------------------------------- causes in the run

  /** Event i is the completion of r by the teardown. */
  ghost predicate CompletedAt(depth: nat, es: seq<Event>, i: nat, r: Req)
  {
    && i < |es| && es[i].CompleteOne?
    && var o := Run(Init(depth, false), es[..i]);
       o.Some? && o.value.teardown.Completing? && o.value.teardown.victims != []
       && o.value.teardown.victims[0] == r
  }

  ghost predicate CompletedByTeardown(depth: nat, es: seq<Event>, r: Req)
  {
    exists i: nat :: CompletedAt(depth, es, i, r)
  }

  /** Event j is the failure of the xa_store or the post of r, with this code. */
  ghost predicate FailsAt(depth: nat, es: seq<Event>, j: nat, r: Req, rc: int)
  {
    && j < |es| && rc != 0
    && var o := Run(Init(depth, false), es[..j]);
       && o.Some?
       && (|| (es[j] == Store(rc) && o.value.worker.Numbered? && o.value.worker.r == r)
           || (es[j] == Post(rc) && o.value.worker.Counted? && o.value.worker.r == r))
  }

  ghost predicate FailedWith(depth: nat, es: seq<Event>, r: Req, rc: int)
  {
    exists j: nat :: FailsAt(depth, es, j, r, rc)
  }

  lemma CauseStays(depth: nat, es: seq<Event>, e: Event, r: Req)
    ensures CompletedByTeardown(depth, es, r) ==> CompletedByTeardown(depth, es + [e], r)
    ensures forall rc :: FailedWith(depth, es, r, rc) ==> FailedWith(depth, es + [e], r, rc)
  {
    if i: nat :| CompletedAt(depth, es, i, r) {
      assert (es + [e])[..i] == es[..i];
      assert CompletedAt(depth, es + [e], i, r);
    }
    forall rc | FailedWith(depth, es, r, rc) ensures FailedWith(depth, es + [e], r, rc) {
      var j: nat :| FailsAt(depth, es, j, r, rc);
      assert (es + [e])[..j] == es[..j];
      assert FailsAt(depth, es + [e], j, r, rc);
    }
  }

  // ----------------------------------------------------------------- one event

  /** The statuses an event hands to r. */
  function Handed(s: State, e: Event, r: Req): seq<int>
  {
    if e.Done? && s.worker.Failing? && s.worker.r == r then [s.worker.rc]
    else if e.CompleteOne? && s.teardown.Completing? && s.teardown.victims != [] && s.teardown.victims[0] == r
    then [-ESHUTDOWN]
    else []
  }

  function History(d: Dev, r: Req): seq<int>
  {
    if r in d.calls then d.calls[r] else []
  }

  lemma HandedBySubmit(s: State, e: Event, s': State, r: Req)
    requires SubmitEvent(e) && NextSubmit(s, e) == Some(s')
    ensures History(s'.dev, r) == History(s.dev, r) + Handed(s, e, r)
  {
  }

  lemma HandedByLoop(s: State, e: Event, s': State, r: Req)
    requires LoopEvent(e) && NextLoop(s, e) == Some(s')
    ensures History(s'.dev, r) == History(s.dev, r) + Handed(s, e, r)
  {
  }

  lemma HandedByTrack(s: State, e: Event, s': State, r: Req)
    requires TrackEvent(e) && NextTrack(s, e) == Some(s')
    ensures History(s'.dev, r) == History(s.dev, r) + Handed(s, e, r)
  {
  }

  lemma HandedByPost(s: State, e: Event, s': State, r: Req)
    requires PostEvent(e) && NextPost(s, e) == Some(s')
    ensures History(s'.dev, r) == History(s.dev, r) + Handed(s, e, r)
  {
  }

  lemma HandedByTeardown(s: State, e: Event, s': State, r: Req)
    requires !SubmitEvent(e) && !WorkerEvent(e) && NextTeardown(s, e) == Some(s')
    ensures History(s'.dev, r) == History(s.dev, r) + Handed(s, e, r)
  {
  }

  lemma HandedStep(s: State, e: Event, s': State, r: Req)
    requires Next(s, e) == Some(s')
    ensures History(s'.dev, r) == History(s.dev, r) + Handed(s, e, r)
  {
    if SubmitEvent(e) {
      HandedBySubmit(s, e, s', r);
    } else if LoopEvent(e) {
      HandedByLoop(s, e, s', r);
    } else if TrackEvent(e) {
      HandedByTrack(s, e, s', r);
    } else if PostEvent(e) {
      HandedByPost(s, e, s', r);
    } else {
      HandedByTeardown(s, e, s', r);
    }
  }

  // ------------------------------------------------------------------ whole runs

  /** The request the worker is giving up, and why. */
  function GivingUp(w: WorkerPc): Option<(Req, int)>
  {
    match w
    case PostFailed(r, _, rc) => Some((r, rc))
    case Erased(r, _, rc) => Some((r, rc))
    case Failing(r, rc) => Some((r, rc))
    case _ => None
  }

  /** Event e makes the worker give up r with this code. */
  predicate GivesUp(s: State, e: Event, r: Req, rc: int)
  {
    && rc != 0
    && (|| (e == Store(rc) && s.worker.Numbered? && s.worker.r == r)
        || (e == Post(rc) && s.worker.Counted? && s.worker.r == r))
  }

  ghost predicate GivenUpOrBefore(s: State, e: Event, s': State)
  {
    var g := GivingUp(s'.worker);
    g.Some? ==> g == GivingUp(s.worker) || GivesUp(s, e, g.value.0, g.value.1)
  }

  lemma GivingUpByLoop(s: State, e: Event, s': State)
    requires LoopEvent(e) && NextLoop(s, e) == Some(s')
    ensures GivenUpOrBefore(s, e, s')
  {
  }

  lemma GivingUpByTrack(s: State, e: Event, s': State)
    requires TrackEvent(e) && NextTrack(s, e) == Some(s')
    ensures GivenUpOrBefore(s, e, s')
  {
  }

  lemma GivingUpByPost(s: State, e: Event, s': State)
    requires PostEvent(e) && NextPost(s, e) == Some(s')
    ensures GivenUpOrBefore(s, e, s')
  {
  }

  lemma WorkerAlone(s: State, e: Event, s': State)
    requires !WorkerEvent(e) && Next(s, e) == Some(s')
    ensures s'.worker == s.worker
  {
  }

  lemma GivingUpStep(s: State, e: Event, s': State)
    requires Next(s, e) == Some(s')
    ensures GivenUpOrBefore(s, e, s')
  {
    if LoopEvent(e) {
      GivingUpByLoop(s, e, s');
    } else if TrackEvent(e) {
      GivingUpByTrack(s, e, s');
    } else if PostEvent(e) {
      GivingUpByPost(s, e, s');
    } else {
      WorkerAlone(s, e, s');
    }
  }

  lemma {:induction false} GivingUpHasCause(depth: nat, es: seq<Event>, s: State)
    requires Run(Init(depth, false), es) == Some(s) && GivingUp(s.worker).Some?
    ensures FailedWith(depth, es, GivingUp(s.worker).value.0, GivingUp(s.worker).value.1)
  {
    if es != [] {
      var last := |es| - 1;
      var m := Run(Init(depth, false), es[..last]).value;
      var r, rc := GivingUp(s.worker).value.0, GivingUp(s.worker).value.1;
      GivingUpStep(m, es[last], s);
      if GivingUp(s.worker) == GivingUp(m.worker) {
        GivingUpHasCause(depth, es[..last], m);
        CauseStays(depth, es[..last], es[last], r);
        assert es == es[..last] + [es[last]];
      } else {
        assert FailsAt(depth, es, last, r, rc);
      }
    }
  }

  /** A status that has been handed to r, with its cause in the run. */
  ghost predicate Caused(depth: nat, es: seq<Event>, r: Req, status: int)
  {
    || (status == -ESHUTDOWN && CompletedByTeardown(depth, es, r))
    || FailedWith(depth, es, r, status)
  }

  lemma HandedIsCaused(depth: nat, es: seq<Event>, m: State, e: Event, r: Req)
    requires Run(Init(depth, false), es) == Some(m) && Handed(m, e, r) != []
    ensures Caused(depth, es + [e], r, Handed(m, e, r)[0])
  {
    assert (es + [e])[..|es|] == es;
    if e.CompleteOne? {
      assert CompletedAt(depth, es + [e], |es|, r);
    } else {
      GivingUpHasCause(depth, es, m);
      CauseStays(depth, es, e, r);
    }
  }

  /** Every status handed to r in a run has its cause in the run, and a completion by
      the teardown has handed -ESHUTDOWN. */
  lemma {:induction false} EveryStatusCaused(depth: nat, es: seq<Event>, s: State, r: Req)
    requires Run(Init(depth, false), es) == Some(s)
    ensures forall k :: 0 <= k < |History(s.dev, r)| ==> Caused(depth, es, r, History(s.dev, r)[k])
    ensures CompletedByTeardown(depth, es, r) ==> -ESHUTDOWN in History(s.dev, r)
  {
    if es != [] {
      var last := |es| - 1;
      var before, e := es[..last], es[last];
      var m := Run(Init(depth, false), before).value;
      assert es == before + [e];
      EveryStatusCaused(depth, before, m, r);
      HandedStep(m, e, s, r);
      CauseStays(depth, before, e, r);
      forall k | 0 <= k < |History(s.dev, r)| ensures Caused(depth, es, r, History(s.dev, r)[k]) {
        if k < |History(m.dev, r)| {
          assert Caused(depth, before, r, History(m.dev, r)[k]);
        } else {
          HandedIsCaused(depth, before, m, e, r);
        }
      }
      TeardownHands(depth, before, m, e, r);
    }
  }

  /** Where a completion by the teardown was made: before, or just now. */
  lemma TeardownHands(depth: nat, es: seq<Event>, m: State, e: Event, r: Req)
    requires Run(Init(depth, false), es) == Some(m)
    ensures CompletedByTeardown(depth, es + [e], r) ==>
              CompletedByTeardown(depth, es, r) || Handed(m, e, r) == [-ESHUTDOWN]
  {
    if i: nat :| CompletedAt(depth, es + [e], i, r) {
      assert (es + [e])[..i] == if i < |es| then es[..i] else es;
      if i < |es| {
        assert CompletedAt(depth, es, i, r);
      }
    }
  }

  /** Over all runs: once the teardown is over, the one status each accepted request got
      is -ESHUTDOWN if the teardown completed it, and otherwise the code with which its
      own xa_store or post failed. */
  lemma CallbackStatus(depth: nat, es: seq<Event>, s: State, r: Req)
    requires depth >= 1 && Reaches(depth, false, es, s) && s.teardown.Down? && r in s.accepted
    ensures r in s.dev.calls && |s.dev.calls[r]| == 1
    ensures if CompletedByTeardown(depth, es, r) then s.dev.calls[r] == [-ESHUTDOWN]
            else FailedWith(depth, es, r, s.dev.calls[r][0])
  {
    OneStatus(depth, es, s, r);
    EveryStatusCaused(depth, es, s, r);
    assert Caused(depth, es, r, History(s.dev, r)[0]);
  }

  lemma OneStatus(depth: nat, es: seq<Event>, s: State, r: Req)
    requires depth >= 1 && Reaches(depth, false, es, s) && s.teardown.Down? && r in s.accepted
    ensures r in s.dev.calls && |s.dev.calls[r]| == 1 && History(s.dev, r) == s.dev.calls[r]
  {
    ExactlyOnce(depth, es, s);
    assert |Calls(s.dev, r)| == 1;
  }

  /** With the post stub of today: no store fails, every post gives -EOPNOTSUPP. */
  ghost predicate StubOnly(es: seq<Event>)
  {
    forall i :: 0 <= i < |es| ==>
      (es[i].Store? ==> es[i].rc == 0) && (es[i].Post? ==> es[i].rc == -EOPNOTSUPP)
  }

  /** Then a request is told -ESHUTDOWN by the teardown or -EOPNOTSUPP by the worker. */
  lemma StubStatus(depth: nat, es: seq<Event>, s: State, r: Req)
    requires depth >= 1 && Reaches(depth, false, es, s) && s.teardown.Down? && r in s.accepted && StubOnly(es)
    ensures r in s.dev.calls
    ensures s.dev.calls[r] == if CompletedByTeardown(depth, es, r) then [-ESHUTDOWN] else [-EOPNOTSUPP]
  {
    CallbackStatus(depth, es, s, r);
    if !CompletedByTeardown(depth, es, r) {
      var j: nat :| FailsAt(depth, es, j, r, s.dev.calls[r][0]);
    }
  }
}
