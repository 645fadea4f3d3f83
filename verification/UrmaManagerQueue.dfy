/** Queue, counters and request lifetimes of the URMA manager, over every run. */
module UrmaManagerQueue {
  import opened Common
  import opened UrmaManager
  import R = Ring

  // ------------------------------------------------------------- definitions

  predicate Busy(w: WorkerPc)
  {
    w.Executing? || w.Executed?
  }

  /** Requests are numbered by acceptance; those below are finished. */
  function Finished(q: Queue): int
  {
    |q.taken| - q.inflight
  }

  ghost predicate QueueInv(q: Queue, w: WorkerPc, depth: nat)
  {
    && R.Valid(q.ring) && |q.ring.slots| == depth
    && (forall i :: 0 <= i < |q.accepted| ==> q.accepted[i] == i)
    && q.accepted == q.taken + R.Contents(q.ring)
    && q.inflight == (if Busy(w) then 1 else 0)
    && |q.taken| == q.inflight + q.completed + q.failed
    && (Busy(w) ==> w.rid == |q.taken| - 1)
    && (forall rid :: rid in q.results <==> 0 <= rid < Finished(q))
  }

  ghost function Succeeded(results: map<Rid, int>): set<Rid>
  {
    set rid | rid in results && results[rid] == 0
  }

  ghost function Failed(results: map<Rid, int>): set<Rid>
  {
    set rid | rid in results && results[rid] != 0
  }

  /** The counters are the numbers of published successes and failures. */
  ghost predicate Tally(q: Queue)
  {
    q.completed == |Succeeded(q.results)| && q.failed == |Failed(q.results)|
  }

  /** A live request tells the truth; an unfinished one is live. */
  ghost predicate ReqInv(reqs: map<Rid, Request>, asked: seq<Xfer>, results: map<Rid, int>, finished: int, taken: int)
  {
    && (forall rid :: rid in reqs ==>
          && rid < |asked| && reqs[rid].x == asked[rid]
          && (reqs[rid].done <==> rid in results)
          && (reqs[rid].done ==> reqs[rid].status == results[rid]))
    && (forall rid: Rid :: finished <= rid < |asked| ==> rid in reqs)
    && (forall rid :: taken <= rid && rid in reqs ==> reqs[rid].remote == reqs[rid].x.remote)
  }

  /** Each live request belongs to one caller, who is not asleep once it is done. */
  ghost predicate CallerInv(callers: map<Tid, Waiting>, reqs: map<Rid, Request>)
  {
    && (forall t :: t in callers ==>
          callers[t].rid in reqs && (callers[t].asleep ==> !reqs[callers[t].rid].done))
    && (forall t, u | t in callers && u in callers :: callers[t].rid == callers[u].rid ==> t == u)
    && (forall rid :: rid in reqs ==> Awaited(callers, rid))
  }

  ghost predicate Awaited(callers: map<Tid, Waiting>, rid: Rid)
  {
    exists t :: t in callers && callers[t].rid == rid
  }

  /** What a caller was told is what the worker published. */
  ghost predicate ReturnInv(returned: map<Rid, int>, reqs: map<Rid, Request>, results: map<Rid, int>)
  {
    && (forall rid :: rid in returned ==> rid !in reqs && rid in results && returned[rid] == results[rid])
    && (forall rid :: rid in results ==> rid in reqs || rid in returned)
  }

  ghost predicate Inv(tr: Traffic, depth: nat)
  {
    && QueueInv(tr.q, tr.worker, depth)
    && |tr.asked| == |tr.q.accepted|
    && ReqInv(tr.reqs, tr.asked, tr.q.results, Finished(tr.q), |tr.q.taken|)
    && CallerInv(tr.callers, tr.reqs)
    && ReturnInv(tr.returned, tr.reqs, tr.q.results)
  }

  /** The worker sleeps only when there is nothing to do. */
  predicate SleepInv(s: State)
  {
    s.tr.worker.Sleeping? ==> s.tr.q.ring.pending == 0 && !s.stopping
  }

  // ---------------------------------------------------------------- submission

  lemma QueueAccept(q: Queue, w: WorkerPc, depth: nat)
    requires QueueInv(q, w, depth) && q.ring.pending < depth
    ensures var rid := |q.accepted|;
            QueueInv(q.(ring := R.Put(q.ring, rid), accepted := q.accepted + [rid]), Woken(w), depth)
  {
    R.PutContents(q.ring, |q.accepted|);
  }

  lemma ReqAccept(reqs: map<Rid, Request>, asked: seq<Xfer>, results: map<Rid, int>, finished: int, taken: int, x: Xfer)
    requires ReqInv(reqs, asked, results, finished, taken) && |asked| !in results
    ensures ReqInv(reqs[|asked| := Request(x, x.remote, false, 0)], asked + [x], results, finished, taken)
  {
  }

  lemma CallerAccept(callers: map<Tid, Waiting>, reqs: map<Rid, Request>, t: Tid, rid: Rid, req: Request)
    requires CallerInv(callers, reqs) && t !in callers && rid !in reqs && !req.done
    ensures CallerInv(callers[t := Waiting(rid, true)], reqs[rid := req])
  {
    var c := callers[t := Waiting(rid, true)];
    assert c[t].rid == rid;
    forall r | r in reqs[rid := req] ensures Awaited(c, r) {
      if r != rid {
        var u :| u in callers && callers[u].rid == r;
        assert c[u].rid == r;
      }
    }
  }

  lemma AcceptKeeps(tr: Traffic, depth: nat, t: Tid, x: Xfer)
    requires Inv(tr, depth) && t !in tr.callers && tr.q.ring.pending < depth
    ensures tr.q.ring.tail < |tr.q.ring.slots| && Inv(Accept(tr, t, x), depth)
  {
    QueueAccept(tr.q, tr.worker, depth);
    ReqAccept(tr.reqs, tr.asked, tr.q.results, Finished(tr.q), |tr.q.taken|, x);
    CallerAccept(tr.callers, tr.reqs, t, |tr.asked|, Request(x, x.remote, false, 0));
  }

  // -------------------------------------------------------------------- return

  lemma CallerReturn(callers: map<Tid, Waiting>, reqs: map<Rid, Request>, t: Tid)
    requires CallerInv(callers, reqs) && t in callers
    ensures CallerInv(callers - {t}, reqs - {callers[t].rid})
  {
    var c := callers - {t};
    forall r | r in reqs - {callers[t].rid} ensures Awaited(c, r) {
      var u :| u in callers && callers[u].rid == r;
      assert c[u].rid == r;
    }
  }

  lemma CallerSleep(callers: map<Tid, Waiting>, reqs: map<Rid, Request>, t: Tid)
    requires CallerInv(callers, reqs) && t in callers && !reqs[callers[t].rid].done
    ensures CallerInv(callers[t := Waiting(callers[t].rid, true)], reqs)
  {
    var c := callers[t := Waiting(callers[t].rid, true)];
    forall r | r in reqs ensures Awaited(c, r) {
      var u :| u in callers && callers[u].rid == r;
      assert c[u].rid == r;
    }
  }

  lemma ReqReturn(reqs: map<Rid, Request>, asked: seq<Xfer>, results: map<Rid, int>,
                  finished: int, taken: int, rid: Rid)
    requires ReqInv(reqs, asked, results, finished, taken) && rid < finished
    ensures ReqInv(reqs - {rid}, asked, results, finished, taken)
  {
  }

  lemma ReturnTold(returned: map<Rid, int>, reqs: map<Rid, Request>, results: map<Rid, int>, rid: Rid)
    requires ReturnInv(returned, reqs, results)
    requires rid in reqs && rid in results && reqs[rid].status == results[rid]
    ensures ReturnInv(returned[rid := reqs[rid].status], reqs - {rid}, results)
  {
  }

  /** What the worker is busy with is live and unpublished. */
  lemma BusyWith(tr: Traffic, depth: nat)
    requires Inv(tr, depth) && Busy(tr.worker)
    ensures var rid := tr.worker.rid;
            && rid !in tr.q.results && (forall r :: r in tr.q.results ==> r < rid)
            && rid in tr.reqs && rid < |tr.asked| && tr.reqs[rid].x == tr.asked[rid]
  {
  }

  lemma WakeKeeps(tr: Traffic, depth: nat, t: Tid, tr': Traffic)
    requires Inv(tr, depth) && DoWake(tr, t) == Some(tr')
    ensures Inv(tr', depth) && tr'.q == tr.q && tr'.worker == tr.worker
  {
    var rid := tr.callers[t].rid;
    if tr.reqs[rid].done {
      CallerReturn(tr.callers, tr.reqs, t);
      ReqReturn(tr.reqs, tr.asked, tr.q.results, Finished(tr.q), |tr.q.taken|, rid);
      ReturnTold(tr.returned, tr.reqs, tr.q.results, rid);
    } else {
      CallerSleep(tr.callers, tr.reqs, t);
    }
  }

  // -------------------------------------------------------------------- worker

  lemma QueueTake(q: Queue, w: WorkerPc, depth: nat, rid: Rid, w': WorkerPc)
    requires QueueInv(q, w, depth) && !Busy(w) && q.ring.pending > 0
    requires q.ring.slots[q.ring.head] == Some(rid) && Busy(w') && w'.rid == rid
    ensures rid == |q.taken| < |q.accepted|
    ensures QueueInv(q.(ring := R.Take(q.ring), inflight := q.inflight + 1, taken := q.taken + [rid]), w', depth)
  {
    R.TakeContents(q.ring);
    var c := R.Contents(q.ring);
    assert q.accepted[|q.taken|] == c[0];
    assert q.taken + c == (q.taken + [rid]) + c[1..];
  }

  lemma CallerSame(callers: map<Tid, Waiting>, reqs: map<Rid, Request>, rid: Rid, req: Request)
    requires CallerInv(callers, reqs) && rid in reqs && req.done == reqs[rid].done
    ensures CallerInv(callers, reqs[rid := req])
  {
  }

  /** The head of a non-empty ring is a live request. */
  lemma HeadIsNext(q: Queue, w: WorkerPc, depth: nat)
    requires QueueInv(q, w, depth) && q.ring.pending > 0
    ensures q.ring.slots[q.ring.head] == Some(|q.taken|) && |q.taken| < |q.accepted|
  {
    R.TakeContents(q.ring);
    assert q.accepted[|q.taken|] == R.Contents(q.ring)[0];
  }

  lemma HeadLive(tr: Traffic, depth: nat)
    requires Inv(tr, depth) && tr.q.ring.pending > 0
    ensures tr.worker.Checking? ==> CanTake(tr)
  {
    HeadIsNext(tr.q, tr.worker, depth);
  }

  lemma TakeKeeps(tr: Traffic, depth: nat, v: Verdict, remote: nat)
    requires Inv(tr, depth) && CanTake(tr)
    ensures HeadRid(tr) == |tr.q.taken| && Inv(Taken(tr, v, remote), depth)
  {
    var rid := HeadRid(tr);
    var t := Taken(tr, v, remote);
    QueueTake(tr.q, tr.worker, depth, rid, t.worker);
    CallerSame(tr.callers, tr.reqs, rid, t.reqs[rid]);
  }

  lemma CallerRouse(callers: map<Tid, Waiting>, reqs: map<Rid, Request>, rid: Rid, req: Request)
    requires CallerInv(callers, reqs) && rid in reqs
    ensures CallerInv(Roused(callers, rid), reqs[rid := req])
  {
    var c := Roused(callers, rid);
    forall r | r in reqs[rid := req] ensures Awaited(c, r) {
      var u :| u in callers && callers[u].rid == r;
      assert c[u].rid == r;
    }
  }

  lemma QueuePublish(q: Queue, w: WorkerPc, depth: nat)
    requires QueueInv(q, w, depth) && w.Executed?
    ensures QueueInv(Counted(q, w.rid, w.rc), Checking, depth)
    ensures Finished(q) == w.rid && |q.taken| == w.rid + 1 && Finished(Counted(q, w.rid, w.rc)) == w.rid + 1
  {
  }

  lemma ReqPublish(reqs: map<Rid, Request>, asked: seq<Xfer>, results: map<Rid, int>, rid: Rid, rc: int)
    requires ReqInv(reqs, asked, results, rid, rid + 1) && rid in reqs
    ensures ReqInv(reqs[rid := reqs[rid].(done := true, status := rc)], asked, results[rid := rc], rid + 1, rid + 1)
  {
  }

  lemma ReturnPublish(returned: map<Rid, int>, reqs: map<Rid, Request>, results: map<Rid, int>,
                      rid: Rid, rc: int, req: Request)
    requires ReturnInv(returned, reqs, results) && rid in reqs
    ensures ReturnInv(returned, reqs[rid := req], results[rid := rc])
  {
  }

  lemma PublishKeeps(tr: Traffic, depth: nat, tr': Traffic)
    requires Inv(tr, depth) && DoPublish(tr) == Some(tr')
    ensures Inv(tr', depth)
  {
    var rid, rc := tr.worker.rid, tr.worker.rc;
    QueuePublish(tr.q, tr.worker, depth);
    ReqPublish(tr.reqs, tr.asked, tr.q.results, rid, rc);
    CallerRouse(tr.callers, tr.reqs, rid, tr'.reqs[rid]);
    ReturnPublish(tr.returned, tr.reqs, tr.q.results, rid, rc, tr'.reqs[rid]);
  }

  lemma WorkerMoves(tr: Traffic, depth: nat, w: WorkerPc)
    requires Inv(tr, depth) && Busy(w) == Busy(tr.worker) && (Busy(w) ==> w.rid == tr.worker.rid)
    ensures Inv(tr.(worker := w), depth)
  {
  }

  /** The events that change the queue. */
  predicate QueueEvent(e: Event)
  {
    e.Submit? || e.Take? || e.Publish? || e.Wake?
  }

  lemma TakeStep(s: State, s': State)
    requires Inv(s.tr, s.cfg.depth) && DoTake(s) == Some(s')
    ensures Inv(s'.tr, s.cfg.depth)
  {
    var req := s.tr.reqs[HeadRid(s.tr)];
    var v := Validate(s.cfg, s.enabled, s.st.table, req.x.(remote := req.remote));
    var remote := if v.Good? && s.cfg.override then s.st.table[v.slot].va else req.remote;
    TakeKeeps(s.tr, s.cfg.depth, v, remote);
  }

  lemma QueueStep(s: State, e: Event, s': State)
    requires Inv(s.tr, s.cfg.depth) && QueueEvent(e) && Next(s, e) == Some(s')
    ensures Inv(s'.tr, s.cfg.depth) && s'.cfg == s.cfg
  {
    match e
    case Submit(t, x) =>
      if s' != s {
        AcceptKeeps(s.tr, s.cfg.depth, t, x);
      }
    case Wake(t) => WakeKeeps(s.tr, s.cfg.depth, t, s'.tr);
    case Take => TakeStep(s, s');
    case Publish => PublishKeeps(s.tr, s.cfg.depth, s'.tr);
  }

  /** Every other event at most moves the worker. */
  lemma OtherFrame(s: State, e: Event, s': State)
    requires !QueueEvent(e) && Next(s, e) == Some(s')
    ensures s'.cfg == s.cfg && s'.tr == s.tr.(worker := s'.tr.worker)
    ensures Busy(s'.tr.worker) == Busy(s.tr.worker)
    ensures Busy(s.tr.worker) ==> s'.tr.worker.rid == s.tr.worker.rid
  {
  }

  lemma InvStep(s: State, e: Event, s': State)
    requires Inv(s.tr, s.cfg.depth) && Next(s, e) == Some(s')
    ensures Inv(s'.tr, s.cfg.depth) && s'.cfg == s.cfg
  {
    if QueueEvent(e) {
      QueueStep(s, e, s');
    } else {
      OtherFrame(s, e, s');
      WorkerMoves(s.tr, s.cfg.depth, s'.tr.worker);
    }
  }

  lemma TallyPublish(q: Queue, rid: Rid, rc: int)
    requires Tally(q) && rid !in q.results && q.inflight > 0
    ensures Tally(Counted(q, rid, rc))
  {
    SucceededPublish(q.results, rid, rc);
    FailedPublish(q.results, rid, rc);
  }

  lemma SucceededPublish(results: map<Rid, int>, rid: Rid, rc: int)
    requires rid !in results
    ensures |Succeeded(results[rid := rc])| == |Succeeded(results)| + if rc == 0 then 1 else 0
  {
    assert Succeeded(results[rid := rc]) == Succeeded(results) + if rc == 0 then {rid} else {};
  }

  lemma FailedPublish(results: map<Rid, int>, rid: Rid, rc: int)
    requires rid !in results
    ensures |Failed(results[rid := rc])| == |Failed(results)| + if rc == 0 then 0 else 1
  {
    assert Failed(results[rid := rc]) == Failed(results) + if rc == 0 then {} else {rid};
  }

  /** Only the publication of a status touches counters and outcomes. */
  lemma CountersStay(s: State, e: Event, s': State)
    requires !e.Publish? && Next(s, e) == Some(s')
    ensures s'.tr.q.completed == s.tr.q.completed && s'.tr.q.failed == s.tr.q.failed
    ensures s'.tr.q.results == s.tr.q.results
  {
  }

  lemma TallyStep(s: State, e: Event, s': State)
    requires Inv(s.tr, s.cfg.depth) && Tally(s.tr.q) && Next(s, e) == Some(s')
    ensures Tally(s'.tr.q)
  {
    if e.Publish? {
      BusyWith(s.tr, s.cfg.depth);
      TallyPublish(s.tr.q, s.tr.worker.rid, s.tr.worker.rc);
    } else {
      CountersStay(s, e, s');
    }
  }

  lemma SleepStep(s: State, e: Event, s': State)
    requires SleepInv(s) && Next(s, e) == Some(s')
    ensures SleepInv(s')
  {
  }
}
