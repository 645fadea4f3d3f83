/** The queue code of kernel-urma/urma_blkdev.c as it is written: loops over the
    device's own fields, specified by functions on Dev. Each function is proved to
    be what its actor's own steps do to the device, left alone. That is the link to
    the transition system, in which the same steps interleave with everybody else's. */
module KernelIoQueue {
  import opened Common
  import opened KernelQueue
  import opened KernelQueueInvariants
  import opened KernelQueueTheorems

  // ------------------------------------------------------------ specifications

  /** One pass of the work loop from xa_store on: a request whose tracking or
      posting fails is called back and leaves no trace in the tracked set. */
  function TrackPost(d: Dev, r: Req, id: nat, storeRc: int, postRc: int): Dev
  {
    if storeRc != 0 then CallDone(d, r, storeRc)
    else if postRc == 0 then d.(inflightReqs := d.inflightReqs[id := r], inflight := d.inflight + 1)
    else CallDone(d.(inflightReqs := d.inflightReqs[id := r] - {id}), r, postRc)
  }

  predicate WorkOver(d: Dev)
  {
    d.stopping || d.inflight >= d.depth || d.pendingList == []
  }

  function TakeNext(d: Dev): Dev
    requires d.pendingList != []
  {
    PopPending(d).(nextWrId := (d.nextWrId + 1) % TWO64)
  }

  /** The whole work function; the outcomes are functions of the wr_id. */
  function Workfn(d: Dev, storeRc: nat -> int, postRc: nat -> int): Dev
    decreases |d.pendingList|
  {
    if WorkOver(d) then d
    else
      var m := TakeNext(d);
      Workfn(TrackPost(m, d.pendingList[0], m.nextWrId, storeRc(m.nextWrId), postRc(m.nextWrId)), storeRc, postRc)
  }

  ghost function Least(m: map<nat, Req>): (k: nat)
    requires m != map[]
    ensures FirstKey(m, 0, k)
  {
    LeastExists(m);
    var k :| FirstKey(m, 0, k);
    k
  }

  lemma LeastExists(m: map<nat, Req>)
    requires m != map[]
    ensures exists k :: FirstKey(m, 0, k)
  {
    var k := LeastKey(m);
  }

  /** The tracked requests in the order xa_find meets them. */
  ghost function ByWrId(m: map<nat, Req>): seq<Req>
    decreases |m|
  {
    if m == map[] then []
    else
      Shrink(m, Least(m));
      [m[Least(m)]] + ByWrId(m - {Least(m)})
  }

  function CompleteAll(d: Dev, q: seq<Req>): Dev
    decreases |q|
  {
    if q == [] then d else CompleteAll(CallDone(d, q[0], -ESHUTDOWN), q[1..])
  }

  /** The statuses handed to r so far. */
  function Told(d: Dev, r: Req): seq<int>
  {
    if r in d.calls then d.calls[r] else []
  }

  lemma {:induction false} ShutdownTold(d: Dev, q: seq<Req>, r: Req)
    ensures Told(d, r) <= Told(CompleteAll(d, q), r)
    ensures r !in q ==> Told(CompleteAll(d, q), r) == Told(d, r)
    ensures r in q ==> var h := Told(CompleteAll(d, q), r); h != [] && h[|h| - 1] == -ESHUTDOWN
    decreases |q|
  {
    if q != [] {
      var m := CallDone(d, q[0], -ESHUTDOWN);
      assert Told(m, r) == Told(d, r) + if r == q[0] then [-ESHUTDOWN] else [];
      ShutdownTold(m, q[1..], r);
    }
  }

  /** Every queued or tracked request was told -ESHUTDOWN after all it was told before,
      and nobody else was told anything. */
  ghost predicate AllTold(before: map<Req, seq<int>>, after: map<Req, seq<int>>, list: seq<Req>, tracked: map<nat, Req>)
  {
    && (forall r :: r in list || r in tracked.Values ==>
          && r in after && after[r] != [] && after[r][|after[r]| - 1] == -ESHUTDOWN
          && (r in before ==> before[r] <= after[r]))
    && (forall r :: r !in list && r !in tracked.Values ==>
          (r in after <==> r in before) && (r in before ==> after[r] == before[r]))
  }

  lemma {:induction false} CalledKeys(d: Dev, q: seq<Req>, r: Req)
    ensures r in CompleteAll(d, q).calls <==> r in d.calls || r in q
    decreases |q|
  {
    if q != [] {
      CalledKeys(CallDone(d, q[0], -ESHUTDOWN), q[1..], r);
    }
  }

  lemma AllToldBy(d: Dev, list: seq<Req>, tracked: map<nat, Req>)
    ensures AllTold(d.calls, CompleteAll(d, list + ByWrId(tracked)).calls, list, tracked)
  {
    var q := list + ByWrId(tracked);
    var after := CompleteAll(d, q).calls;
    ByWrIdMembers(tracked);
    forall r
      ensures r in list || r in tracked.Values ==>
                && r in after && after[r] != [] && after[r][|after[r]| - 1] == -ESHUTDOWN
                && (r in d.calls ==> d.calls[r] <= after[r])
      ensures r !in list && r !in tracked.Values ==>
                (r in after <==> r in d.calls) && (r in d.calls ==> after[r] == d.calls[r])
    {
      ShutdownTold(d, q, r);
      CalledKeys(d, q, r);
      assert r in q <==> r in list || r in tracked.Values;
    }
  }

  lemma {:induction false} ByWrIdMembers(m: map<nat, Req>)
    ensures forall r :: r in ByWrId(m) <==> r in m.Values
    decreases |m|
  {
    if m != map[] {
      var k := Least(m);
      Shrink(m, k);
      ByWrIdMembers(m - {k});
      forall r ensures r in ByWrId(m) <==> r in m.Values {
        assert ByWrId(m) == [m[k]] + ByWrId(m - {k});
        if r in m.Values && r != m[k] {
          var j :| j in m && m[j] == r;
          assert j in m - {k};
        }
      }
    }
  }

  // ------------------------------------------------- statuses of the work function

  /** What the pass for wr_id `id` tells its request: the code of the failed store, or of
      the failed post, or nothing yet. */
  function Verdict(id: nat, storeRc: nat -> int, postRc: nat -> int): seq<int>
  {
    if storeRc(id) != 0 then [storeRc(id)] else if postRc(id) != 0 then [postRc(id)] else []
  }

  /** The statuses r gets when these requests are taken, wr_ids going on from `id`. */
  function Verdicts(taken: seq<Req>, id: nat, storeRc: nat -> int, postRc: nat -> int, r: Req): seq<int>
  {
    if taken == [] then []
    else
      var next := (id + 1) % TWO64;
      (if taken[0] == r then Verdict(next, storeRc, postRc) else [])
      + Verdicts(taken[1..], next, storeRc, postRc, r)
  }

  /** The work function takes requests from the front, and tells each of them the code of
      its own failure and nobody else anything. */
  lemma {:induction false} WorkfnTells(d: Dev, storeRc: nat -> int, postRc: nat -> int, r: Req) returns (n: nat)
    ensures Tells(d, Workfn(d, storeRc, postRc), storeRc, postRc, r, n)
    decreases |d.pendingList|
  {
    if WorkOver(d) {
      n := 0;
      assert d.pendingList[..0] == [];
    } else {
      var m := PassDev(d, storeRc, postRc);
      PassTells(d, storeRc, postRc, r);
      WorkfnStep(d, storeRc, postRc);
      n := WorkfnTells(m, storeRc, postRc, r);
      TellsOn(d, m, Workfn(m, storeRc, postRc), storeRc, postRc, r, n);
      n := n + 1;
    }
  }

  /** From d to f the first n queued requests were taken, and r was told its verdicts. */
  ghost predicate Tells(d: Dev, f: Dev, storeRc: nat -> int, postRc: nat -> int, r: Req, n: nat)
  {
    && n <= |d.pendingList| && f.pendingList == d.pendingList[n..]
    && Told(f, r) == Told(d, r) + Verdicts(d.pendingList[..n], d.nextWrId, storeRc, postRc, r)
  }

  lemma TellsOn(d: Dev, m: Dev, f: Dev, storeRc: nat -> int, postRc: nat -> int, r: Req, n: nat)
    requires d.pendingList != [] && Tells(m, f, storeRc, postRc, r, n)
    requires m.pendingList == d.pendingList[1..] && m.nextWrId == (d.nextWrId + 1) % TWO64
    requires Told(m, r) == Told(d, r) + if d.pendingList[0] == r then Verdict(m.nextWrId, storeRc, postRc) else []
    ensures Tells(d, f, storeRc, postRc, r, n + 1)
  {
    VerdictsCons(d.pendingList, n, d.nextWrId, storeRc, postRc, r);
  }

  lemma VerdictsCons(list: seq<Req>, n: nat, id: nat, storeRc: nat -> int, postRc: nat -> int, r: Req)
    requires n < |list|
    ensures Verdicts(list[..n + 1], id, storeRc, postRc, r) ==
            (if list[0] == r then Verdict((id + 1) % TWO64, storeRc, postRc) else [])
            + Verdicts(list[1..][..n], (id + 1) % TWO64, storeRc, postRc, r)
  {
    assert list[..n + 1][1..] == list[1..][..n];
  }

  function PassDev(d: Dev, storeRc: nat -> int, postRc: nat -> int): Dev
    requires d.pendingList != []
  {
    var m := TakeNext(d);
    TrackPost(m, d.pendingList[0], m.nextWrId, storeRc(m.nextWrId), postRc(m.nextWrId))
  }

  lemma PassTells(d: Dev, storeRc: nat -> int, postRc: nat -> int, r: Req)
    requires d.pendingList != []
    ensures var m := PassDev(d, storeRc, postRc); var id := (d.nextWrId + 1) % TWO64;
            && m.pendingList == d.pendingList[1..] && m.nextWrId == id
            && Told(m, r) == Told(d, r) + if d.pendingList[0] == r then Verdict(id, storeRc, postRc) else []
  {
  }

  function Emptied(d: Dev): Dev
  {
    d.(pendingList := [], pending := 0, inflightReqs := map[], inflight := d.inflight - |d.inflightReqs|)
  }

  // -------------------------------------------------------------------- the code

  /** xa_find: the first tracked wr_id not below the index. */
  method FindFrom(m: map<nat, Req>, index: nat) returns (found: Option<nat>)
    ensures found.Some? ==> FirstKey(m, index, found.value)
    ensures found.None? ==> forall k :: k in m ==> k < index
  {
    var above := map k | k in m && index <= k :: m[k];
    assert forall k :: k in m && index <= k ==> k in above;
    if above == map[] {
      return None;
    }
    LeastExists(above);
    var k :| k in above.Keys && forall j :: j in above.Keys ==> k <= j;
    found := Some(k);
  }

  lemma WorkfnStep(d: Dev, storeRc: nat -> int, postRc: nat -> int)
    requires !WorkOver(d)
    ensures var m := TakeNext(d);
            Workfn(d, storeRc, postRc) ==
            Workfn(TrackPost(m, d.pendingList[0], m.nextWrId, storeRc(m.nextWrId), postRc(m.nextWrId)), storeRc, postRc)
  {
  }

  class IoQueue {
    const depth: nat
    var pendingList: seq<Req>
    var pending: int
    var inflightReqs: map<nat, Req>
    var inflight: int
    var nextWrId: nat
    var stopping: bool
    var calls: map<Req, seq<int>>

    ghost function View(): Dev
      reads this
    {
      Dev(depth, pendingList, pending, inflightReqs, inflight, nextWrId, stopping, calls)
    }

    /** urma_blkdev_init_io_queue: a depth of zero means one. */
    constructor (queueDepth: nat)
      ensures View() == InitDev(if queueDepth == 0 then 1 else queueDepth)
    {
      depth := if queueDepth == 0 then 1 else queueDepth;
      pendingList, pending := [], 0;
      inflightReqs, inflight := map[], 0;
      nextWrId, stopping, calls := 0, false, map[];
    }

    /** The section under pending_lock of urma_blkdev_submit_nvmet_io. */
    method EnqueueLocked(r: Req) returns (rc: int)
      modifies this
      ensures rc == if old(stopping) then -ESHUTDOWN
                    else if old(pending + inflight) >= depth then -EBUSY else 0
      ensures View() == if rc == 0 then PushPending(old(View()), r) else old(View())
    {
      if stopping {
        return -ESHUTDOWN;
      }
      if pending + inflight >= depth {
        return -EBUSY;
      }
      pendingList := pendingList + [r];
      pending := pending + 1;
      rc := 0;
    }

    /** urma_blkdev_pop_pending. */
    method PopFirst() returns (req: Option<Req>)
      modifies this
      ensures req == if old(pendingList) == [] then None else Some(old(pendingList)[0])
      ensures View() == if req.None? then old(View()) else PopPending(old(View()))
    {
      if pendingList == [] {
        return None;
      }
      req := Some(pendingList[0]);
      pendingList := pendingList[1..];
      pending := pending - 1;
    }

    /** urma_blkdev_done_req. */
    method CompleteReq(r: Req, status: int)
      modifies this`calls
      ensures calls == old(calls)[r := (if r in old(calls) then old(calls)[r] else []) + [status]]
      ensures View() == CallDone(old(View()), r, status)
    {
      var before := if r in calls then calls[r] else [];
      calls := calls[r := before + [status]];
    }

    /** urma_blkdev_submit_workfn. */
    method SubmitWorkfn(storeRc: nat -> int, postRc: nat -> int)
      modifies this
      ensures View() == Workfn(old(View()), storeRc, postRc)
    {
      ghost var goal := Workfn(View(), storeRc, postRc);
      while !stopping && inflight < depth
        invariant Workfn(View(), storeRc, postRc) == goal
        decreases |pendingList|
      {
        ghost var d := View();
        var req := PopFirst();
        if req.None? {
          break;
        }
        nextWrId := (nextWrId + 1) % TWO64;
        assert View() == TakeNext(d);
        TrackAndPost(req.value, nextWrId, storeRc(nextWrId), postRc(nextWrId));
        WorkfnStep(d, storeRc, postRc);
      }
      assert WorkOver(View());
    }

    method TrackAndPost(r: Req, id: nat, storeRc: int, postRc: int)
      modifies this`inflightReqs, this`inflight, this`calls
      ensures View() == TrackPost(old(View()), r, id, storeRc, postRc)
      ensures storeRc != 0 ==> calls == old(calls)[r := (if r in old(calls) then old(calls)[r] else []) + [storeRc]]
      ensures storeRc == 0 && postRc != 0 ==>
                calls == old(calls)[r := (if r in old(calls) then old(calls)[r] else []) + [postRc]]
      ensures storeRc == 0 && postRc == 0 ==> calls == old(calls)
    {
      if storeRc != 0 {
        CompleteReq(r, storeRc);
        return;
      }
      inflightReqs := inflightReqs[id := r];
      inflight := inflight + 1;
      if postRc != 0 {
        inflightReqs := inflightReqs - {id};
        inflight := inflight - 1;
        CompleteReq(r, postRc);
      }
    }

    /** urma_blkdev_fail_queued with -ESHUTDOWN: splice, drain, complete. */
    method FailQueued()
      modifies this
      ensures View() == CompleteAll(Emptied(old(View())), old(pendingList) + ByWrId(old(inflightReqs)))
      ensures AllTold(old(calls), calls, old(pendingList), old(inflightReqs))
    {
      ghost var d := Emptied(View());
      var toComplete := pendingList;
      pendingList, pending := [], 0;
      toComplete := DrainTracked(toComplete);
      while toComplete != []
        invariant CompleteAll(View(), toComplete) ==
                  CompleteAll(Emptied(old(View())), old(pendingList) + ByWrId(old(inflightReqs)))
        decreases |toComplete|
      {
        CompleteReq(toComplete[0], -ESHUTDOWN);
        toComplete := toComplete[1..];
      }
      AllToldBy(d, old(pendingList), old(inflightReqs));
    }

    /** The drain loop: smallest wr_id first, each erased as it is moved. */
    method DrainTracked(list: seq<Req>) returns (victims: seq<Req>)
      modifies this`inflightReqs, this`inflight
      ensures victims == list + ByWrId(old(inflightReqs))
      ensures inflightReqs == map[] && inflight == old(inflight) - |old(inflightReqs)|
    {
      victims := list;
      var index := 0;
      while true
        invariant forall k :: k in inflightReqs ==> index <= k
        invariant victims + ByWrId(inflightReqs) == list + ByWrId(old(inflightReqs))
        invariant inflight - |inflightReqs| == old(inflight) - |old(inflightReqs)|
        decreases |inflightReqs|
      {
        var found := FindFrom(inflightReqs, index);
        if found.None? {
          assert forall k :: k in inflightReqs ==> false;
          break;
        }
        var k := found.value;
        assert k == Least(inflightReqs);
        Shrink(inflightReqs, k);
        victims := victims + [inflightReqs[k]];
        inflightReqs := inflightReqs - {k};
        inflight := inflight - 1;
        index := k + 1;
      }
    }

    /** urma_blkdev_cleanup_io_queue, the work item being over. */
    method CleanupIoQueue()
      modifies this
      ensures View() == CompleteAll(Emptied(old(View()).(stopping := true)),
                                    old(pendingList) + ByWrId(old(inflightReqs)))
      ensures AllTold(old(calls), calls, old(pendingList), old(inflightReqs))
    {
      stopping := true;
      FailQueued();
    }
  }

  // ------------------------------------------------------- the code is a run

  /** Whose steps a run consists of. */
  datatype Actor = Submitter(t: Tid) | Worker | Teardown

  predicate By(who: Actor, e: Event)
  {
    match who
    case Submitter(t) => SubmitEvent(e) && e.t == t
    case Worker => WorkerEvent(e)
    case Teardown => !SubmitEvent(e) && !WorkerEvent(e)
  }

  predicate AllBy(who: Actor, es: seq<Event>)
  {
    es == [] || (AllBy(who, es[..|es| - 1]) && By(who, es[|es| - 1]))
  }

  lemma {:induction false} AllByCat(who: Actor, es: seq<Event>, fs: seq<Event>)
    requires AllBy(who, es) && AllBy(who, fs)
    ensures AllBy(who, es + fs)
  {
    if fs == [] {
      assert es + fs == es;
    } else {
      var last := |fs| - 1;
      AllByCat(who, es, fs[..last]);
      assert (es + fs)[..|es| + last] == es + fs[..last];
    }
  }

  /** Steps of this actor alone take s to t. */
  ghost predicate Leads(who: Actor, s: State, t: State)
  {
    exists es :: AllBy(who, es) && Run(s, es) == Some(t)
  }

  lemma LeadsSelf(who: Actor, s: State)
    ensures Leads(who, s, s)
  {
    assert AllBy(who, []) && Run(s, []) == Some(s);
  }

  lemma LeadsOn(who: Actor, s: State, m: State, t: State)
    requires Leads(who, s, m) && Leads(who, m, t)
    ensures Leads(who, s, t)
  {
    var es :| AllBy(who, es) && Run(s, es) == Some(m);
    var fs :| AllBy(who, fs) && Run(m, fs) == Some(t);
    RunCat(s, es, m, fs);
    AllByCat(who, es, fs);
  }

  /** One more event. */
  lemma Then(who: Actor, s: State, m: State, e: Event) returns (t: State)
    requires Leads(who, s, m) && By(who, e) && Next(m, e).Some?
    ensures Some(t) == Next(m, e) && Leads(who, s, t)
  {
    var es :| AllBy(who, es) && Run(s, es) == Some(m);
    ExtendRun(s, es, m, e);
    t := Next(m, e).value;
    assert (es + [e])[..|es|] == es;
  }

  /** s and t differ in the device, the worker and the bookkeeping of requests only. */
  predicate SameElse(s: State, t: State)
  {
    t.lock == s.lock && t.teardown == s.teardown && t.subs == s.subs && t.fused == s.fused
    && t.accepted == s.accepted
  }

  lemma StoreFails(s: State, rc: int) returns (t: State)
    requires s.worker.Numbered? && !s.fused && rc != 0
    ensures Leads(Worker, s, t) && t.worker.Head? && SameElse(s, t)
    ensures t.dev == TrackPost(s.dev, s.worker.r, s.worker.id, rc, 0)
  {
    LeadsSelf(Worker, s);
    t := Then(Worker, s, s, Store(rc));
    t := Then(Worker, s, t, Done);
  }

  lemma Counts(s: State) returns (t: State)
    requires s.worker.Numbered? && !s.fused
    ensures Leads(Worker, s, t) && t.worker == Counted(s.worker.r, s.worker.id) && SameElse(s, t)
    ensures t.dev == TrackPost(s.dev, s.worker.r, s.worker.id, 0, 0)
  {
    LeadsSelf(Worker, s);
    t := Then(Worker, s, s, Store(0));
    t := Then(Worker, s, t, Count);
  }

  lemma PostFails(s: State, rc: int) returns (t: State)
    requires s.worker.Counted? && rc != 0
    ensures Leads(Worker, s, t) && t.worker.Head? && SameElse(s, t)
    ensures t.dev == CallDone(s.dev.(inflightReqs := s.dev.inflightReqs - {s.worker.id},
                                     inflight := s.dev.inflight - 1), s.worker.r, rc)
  {
    var m := EraseRuns(s, rc);
    t := GiveUpRuns(m);
    LeadsOn(Worker, s, m, t);
  }

  lemma EraseRuns(s: State, rc: int) returns (t: State)
    requires s.worker.Counted? && rc != 0
    ensures Leads(Worker, s, t) && t.worker == Erased(s.worker.r, s.worker.id, rc) && SameElse(s, t)
    ensures t.dev == s.dev.(inflightReqs := s.dev.inflightReqs - {s.worker.id})
  {
    LeadsSelf(Worker, s);
    t := Then(Worker, s, s, Post(rc));
    t := Then(Worker, s, t, Erase);
  }

  lemma GiveUpRuns(s: State) returns (t: State)
    requires s.worker.Erased?
    ensures Leads(Worker, s, t) && t.worker.Head? && SameElse(s, t)
    ensures t.dev == CallDone(s.dev.(inflight := s.dev.inflight - 1), s.worker.r, s.worker.rc)
  {
    LeadsSelf(Worker, s);
    t := Then(Worker, s, s, Uncount);
    t := Then(Worker, s, t, Done);
  }

  lemma TrackPostRuns(s: State, storeRc: int, postRc: int) returns (t: State)
    requires s.worker.Numbered? && !s.fused
    ensures Leads(Worker, s, t) && t.worker.Head? && SameElse(s, t)
    ensures t.dev == TrackPost(s.dev, s.worker.r, s.worker.id, storeRc, postRc)
  {
    if storeRc != 0 {
      t := StoreFails(s, storeRc);
    } else {
      var c := Counts(s);
      if postRc == 0 {
        t := Then(Worker, s, c, Post(0));
      } else {
        t := PostFails(c, postRc);
        LeadsOn(Worker, s, c, t);
      }
    }
  }

  lemma TakeNextRuns(s: State) returns (t: State)
    requires s.worker.Head? && s.lock.None? && !s.fused && !WorkOver(s.dev)
    ensures Leads(Worker, s, t) && t.worker == Numbered(s.dev.pendingList[0], t.dev.nextWrId) && SameElse(s, t)
    ensures t.dev == TakeNext(s.dev)
  {
    var m := LooksRuns(s);
    t := PopRuns(m);
    LeadsOn(Worker, s, m, t);
  }

  lemma LooksRuns(s: State) returns (t: State)
    requires s.worker.Head? && !WorkOver(s.dev)
    ensures Leads(Worker, s, t) && t.worker.PopNow? && SameElse(s, t) && t.dev == s.dev
  {
    LeadsSelf(Worker, s);
    t := Then(Worker, s, s, ReadStopping);
    t := Then(Worker, s, t, ReadInflight);
  }

  lemma PopRuns(s: State) returns (t: State)
    requires s.worker.PopNow? && s.lock.None? && !s.fused && s.dev.pendingList != []
    ensures Leads(Worker, s, t) && t.worker == Numbered(s.dev.pendingList[0], t.dev.nextWrId) && SameElse(s, t)
    ensures t.dev == TakeNext(s.dev)
  {
    LeadsSelf(Worker, s);
    var m := Then(Worker, s, s, Pop);
    PopIs(s, m);
    NumberIs(m);
    t := Then(Worker, s, m, Number);
  }

  lemma NumberIs(s: State)
    requires s.worker.Popped?
    ensures Next(s, Number).Some?
    ensures var t := Next(s, Number).value; var id := (s.dev.nextWrId + 1) % TWO64;
            t.worker == Numbered(s.worker.r, id) && t.dev == s.dev.(nextWrId := id) && SameElse(s, t)
  {
  }

  lemma PopIs(s: State, t: State)
    requires s.worker.PopNow? && !s.fused && s.dev.pendingList != [] && Next(s, Pop) == Some(t)
    ensures t.worker == Popped(s.dev.pendingList[0]) && t.dev == PopPending(s.dev) && SameElse(s, t)
  {
  }

  lemma WorkOverRuns(s: State) returns (t: State)
    requires s.worker.Head? && s.lock.None? && WorkOver(s.dev)
    ensures Leads(Worker, s, t) && t.worker.Idle? && SameElse(s, t) && t.dev == s.dev
  {
    LeadsSelf(Worker, s);
    t := Then(Worker, s, s, ReadStopping);
    if t.worker.Running? {
      t := Then(Worker, s, t, ReadInflight);
      if t.worker.PopNow? {
        t := Then(Worker, s, t, Pop);
      }
    }
  }

  /** Left alone, the work function does to the device what a run of the worker does. */
  lemma {:induction false} WorkfnRuns(s: State, storeRc: nat -> int, postRc: nat -> int) returns (t: State)
    requires s.worker.Head? && s.lock.None? && !s.fused
    ensures Leads(Worker, s, t) && t.worker.Idle? && SameElse(s, t)
    ensures t.dev == Workfn(s.dev, storeRc, postRc)
    decreases |s.dev.pendingList|
  {
    if WorkOver(s.dev) {
      t := WorkOverRuns(s);
    } else {
      var m := TakeNextRuns(s);
      var id := m.dev.nextWrId;
      var n := TrackPostRuns(m, storeRc(id), postRc(id));
      WorkfnStep(s.dev, storeRc, postRc);
      t := WorkfnRuns(n, storeRc, postRc);
      LeadsOn(Worker, s, m, n);
      LeadsOn(Worker, s, n, t);
    }
  }

  /** The section under pending_lock is a run of the submitter: refused, the call is
      over and the request gone; accepted, the request is the newest and the call is
      about to queue the work. */
  lemma EnqueueRuns(s: State, t: Tid) returns (u: State)
    requires t in s.subs && s.subs[t].Holding? && s.lock.None?
    ensures Leads(Submitter(t), s, u) && u.lock.None? && u.worker == s.worker && u.teardown == s.teardown
    ensures var r := s.subs[t].r;
            if !s.dev.stopping && s.dev.pending + s.dev.inflight < s.dev.depth then
              && u.dev == PushPending(s.dev, r) && u.accepted == s.accepted + [r]
              && u.subs == s.subs[t := WillQueue] && u.live == s.live && u.refs == s.refs
            else
              && u.dev == s.dev && u.accepted == s.accepted
              && u.subs == s.subs - {t} && u.live == s.live - {r} && u.refs == s.refs - 1
  {
    LeadsSelf(Submitter(t), s);
    u := Then(Submitter(t), s, s, Lock(t));
    if !s.dev.stopping {
      u := Then(Submitter(t), s, u, CheckDepth(t));
      if s.dev.pending + s.dev.inflight < s.dev.depth {
        u := Then(Submitter(t), s, u, Add(t));
      }
    }
  }

  lemma DrainOneRuns(s: State) returns (t: State)
    requires s.teardown.Draining? && s.dev.inflightReqs != map[]
    requires forall k :: k in s.dev.inflightReqs ==> s.teardown.index <= k
    ensures var k := Least(s.dev.inflightReqs);
            && Leads(Teardown, s, t)
            && t.teardown == Draining(k + 1, s.teardown.victims + [s.dev.inflightReqs[k]])
            && t.dev == s.dev.(inflightReqs := s.dev.inflightReqs - {k}, inflight := s.dev.inflight - 1)
  {
    LeadsSelf(Teardown, s);
    var k := Least(s.dev.inflightReqs);
    assert FirstKey(s.dev.inflightReqs, s.teardown.index, k);
    t := Then(Teardown, s, s, Drain(k));
  }

  lemma DrainEndRuns(s: State) returns (t: State)
    requires s.teardown.Draining? && s.dev.inflightReqs == map[]
    ensures Leads(Teardown, s, t) && t.teardown == Completing(s.teardown.victims) && t.dev == s.dev
  {
    LeadsSelf(Teardown, s);
    t := Then(Teardown, s, s, DrainEnd);
  }

  /** Moving the smallest wr_id to the list leaves the order of the whole. */
  lemma ByWrIdStep(m: map<nat, Req>, list: seq<Req>)
    requires m != map[]
    ensures var k := Least(m);
            && |m - {k}| == |m| - 1 && (forall j :: j in m - {k} ==> k + 1 <= j)
            && list + ByWrId(m) == list + [m[k]] + ByWrId(m - {k})
  {
    LeastGone(m, Least(m));
    ByWrIdUnfold(m);
    Regroup(list, [m[Least(m)]], ByWrId(m - {Least(m)}));
  }

  lemma ByWrIdUnfold(m: map<nat, Req>)
    requires m != map[]
    ensures ByWrId(m) == [m[Least(m)]] + ByWrId(m - {Least(m)})
  {
  }

  lemma LeastGone(m: map<nat, Req>, k: nat)
    requires FirstKey(m, 0, k)
    ensures |m - {k}| == |m| - 1 && forall j :: j in m - {k} ==> k + 1 <= j
  {
    Shrink(m, k);
  }

  lemma Regroup(a: seq<Req>, b: seq<Req>, c: seq<Req>)
    ensures a + (b + c) == a + b + c
  {
  }

  lemma {:induction false} DrainRuns(s: State) returns (t: State)
    requires s.teardown.Draining?
    requires forall k :: k in s.dev.inflightReqs ==> s.teardown.index <= k
    ensures Leads(Teardown, s, t)
    ensures t.teardown == Completing(s.teardown.victims + ByWrId(s.dev.inflightReqs))
    ensures t.dev == s.dev.(inflightReqs := map[], inflight := s.dev.inflight - |s.dev.inflightReqs|)
    decreases |s.dev.inflightReqs|
  {
    if s.dev.inflightReqs == map[] {
      t := DrainEndRuns(s);
    } else {
      var m := DrainOneRuns(s);
      ByWrIdStep(s.dev.inflightReqs, s.teardown.victims);
      t := DrainRuns(m);
      LeadsOn(Teardown, s, m, t);
    }
  }

  lemma {:induction false} CompleteRuns(s: State) returns (t: State)
    requires s.teardown.Completing?
    ensures Leads(Teardown, s, t) && t.teardown.Down? && t.dev == CompleteAll(s.dev, s.teardown.victims)
    decreases |s.teardown.victims|
  {
    LeadsSelf(Teardown, s);
    if s.teardown.victims == [] {
      t := Then(Teardown, s, s, Finish);
    } else {
      var m := Then(Teardown, s, s, CompleteOne);
      t := CompleteRuns(m);
      LeadsOn(Teardown, s, m, t);
    }
  }

  lemma StopRuns(s: State) returns (t: State)
    requires s.teardown.Up? && s.worker.Idle? && s.lock.None?
    ensures Leads(Teardown, s, t) && t.teardown == Draining(0, s.dev.pendingList)
    ensures t.dev == s.dev.(stopping := true, pendingList := [], pending := 0)
  {
    LeadsSelf(Teardown, s);
    t := Then(Teardown, s, s, SetStopping);
    t := Then(Teardown, s, t, Flush);
    t := Then(Teardown, s, t, Splice);
  }

  /** Left alone, the cleanup does to the device what a run of the teardown does. */
  lemma CleanupRuns(s: State) returns (t: State)
    requires s.teardown.Up? && s.worker.Idle? && s.lock.None?
    ensures Leads(Teardown, s, t) && t.teardown.Down?
    ensures t.dev == CompleteAll(Emptied(s.dev.(stopping := true)), s.dev.pendingList + ByWrId(s.dev.inflightReqs))
  {
    var m := StopRuns(s);
    var d := DrainRuns(m);
    assert d.dev == Emptied(s.dev.(stopping := true));
    LeadsOn(Teardown, s, m, d);
    t := CompleteRuns(d);
    LeadsOn(Teardown, s, d, t);
  }
}
