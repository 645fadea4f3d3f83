/** Does an accepted request get its answer? Progress of the URMA manager's queue, and
    what becomes of a request between its two validations. */
module UrmaManagerProgress {
  import opened Common
  import opened UrmaManager
  import opened UrmaManagerTheorems
  import R = Ring
  import P = PeerTable
  import Q = UrmaManagerQueue
  import D = UrmaManagerData

  /** The steps of urma_worker_main that move a request. */
  predicate WorkerEvent(e: Event)
  {
    e.Take? || e.Exec? || e.Publish?
  }

  ghost predicate OnlyWorker(es: seq<Event>)
  {
    forall i :: 0 <= i < |es| ==> WorkerEvent(es[i])
  }

  /** Steps until the request in the worker's hand is published. */
  function InHand(w: WorkerPc): nat
  {
    match w
    case Executing(_, _) => 2
    case Executed(_, _) => 1
    case _ => 0
  }

  // -------------------------------------------------------- the worker can finish

  function StepsLeft(tr: Traffic): nat
  {
    3 * tr.q.ring.pending + InHand(tr.worker)
  }

  lemma TakeProgress(s: State) returns (s': State)
    requires !s.destroyed && CanTake(s.tr)
    ensures Next(s, Take) == Some(s') && StepsLeft(s'.tr) < StepsLeft(s.tr)
    ensures s'.tr.worker != Exited && s'.tr.q.accepted == s.tr.q.accepted && !s'.destroyed
  {
    s' := DoTake(s).value;
  }

  lemma ExecProgress(s: State) returns (s': State)
    requires !s.destroyed && s.tr.worker.Executing? && s.tr.worker.rid in s.tr.reqs
    requires s.tr.worker.slot < |s.st.table|
    ensures Next(s, Exec(s.st.mem)) == Some(s') && StepsLeft(s'.tr) < StepsLeft(s.tr)
    ensures s'.tr.worker != Exited && s'.tr.q == s.tr.q && !s'.destroyed
  {
    s' := DoExec(s, s.st.mem).value;
  }

  lemma PublishProgress(s: State) returns (s': State)
    requires !s.destroyed && s.tr.worker.Executed? && s.tr.worker.rid in s.tr.reqs && s.tr.q.inflight > 0
    ensures Next(s, Publish) == Some(s') && StepsLeft(s'.tr) < StepsLeft(s.tr)
    ensures s'.tr.worker != Exited && s'.tr.q.accepted == s.tr.q.accepted && !s'.destroyed
  {
    s' := s.(tr := DoPublish(s.tr).value);
  }

  /** The worker's next step, which brings the end nearer. */
  lemma Advance(k: Kind, w0: D.World, s: State) returns (e: Event, m: State)
    requires Sound(k, w0, s) && !s.tr.worker.Exited? && StepsLeft(s.tr) > 0
    ensures WorkerEvent(e) && Allowed(k, s, e) && Next(s, e) == Some(m) && StepsLeft(m.tr) < StepsLeft(s.tr)
    ensures !m.tr.worker.Exited? && m.tr.q.accepted == s.tr.q.accepted
  {
    if Q.Busy(s.tr.worker) {
      Q.BusyWith(s.tr, s.cfg.depth);
      if s.tr.worker.Executing? {
        e := Exec(s.st.mem);
        m := ExecProgress(s);
      } else {
        e := Publish;
        m := PublishProgress(s);
      }
    } else {
      e := Take;
      Q.HeadLive(s.tr, s.cfg.depth);
      m := TakeProgress(s);
    }
  }

  lemma NothingPending(tr: Traffic, depth: nat)
    requires Q.Inv(tr, depth) && StepsLeft(tr) == 0
    ensures forall rid :: rid in tr.q.accepted ==> rid in tr.q.results
  {
    assert R.Contents(tr.q.ring) == [];
  }

  /** As long as the worker has not left, its own steps finish every accepted request,
      and no more of them than the queue asks for. */
  lemma {:induction false} WorkerCanDrain(k: Kind, w0: D.World, s: State) returns (es: seq<Event>, s': State)
    requires Sound(k, w0, s) && !s.tr.worker.Exited?
    ensures Run(k, s, es) == Some(s') && s'.tr.q.accepted == s.tr.q.accepted
    ensures OnlyWorker(es) && |es| <= StepsLeft(s.tr)
    ensures forall rid :: rid in s'.tr.q.accepted ==> rid in s'.tr.q.results
    decreases StepsLeft(s.tr)
  {
    if StepsLeft(s.tr) == 0 {
      es, s' := [], s;
      NothingPending(s.tr, s.cfg.depth);
    } else {
      var e, m := Advance(k, w0, s);
      SoundStep(k, w0, s, e, m);
      var rest;
      rest, s' := WorkerCanDrain(k, w0, m);
      es := OneMore(k, s, e, m, rest);
    }
  }

  lemma OneMore(k: Kind, s: State, e: Event, m: State, rest: seq<Event>) returns (es: seq<Event>)
    requires WorkerEvent(e) && Allowed(k, s, e) && Next(s, e) == Some(m) && OnlyWorker(rest)
    ensures Run(k, s, es) == Run(k, m, rest) && OnlyWorker(es) && |es| == |rest| + 1
  {
    RunCons(k, s, e, m, rest);
    es := [e] + rest;
  }

  /** In every run: as long as the worker is there, at most 3 * depth + 2 steps of the
      worker and of nobody else bring every accepted request to its end. */
  lemma AcceptedCanFinish(k: Kind, cfg: Config, enabled: bool, disk: seq<Byte>, es: seq<Event>, s: State)
    returns (more: seq<Event>, s': State)
    requires Reaches(k, cfg, enabled, disk, es, s) && !s.tr.worker.Exited?
    ensures Run(k, s, more) == Some(s') && s'.tr.q.accepted == s.tr.q.accepted
    ensures OnlyWorker(more) && |more| <= 3 * cfg.depth + 2
    ensures forall rid :: rid in s.tr.q.accepted ==> rid in s'.tr.q.results
  {
    RunSound(k, cfg, enabled, disk, es, s);
    more, s' := WorkerCanDrain(k, Start(disk), s);
  }

  // --------------------------------------------------------- every run finishes it

  /** Worker steps until rid is published, whatever else happens. */
  function WorkFor(tr: Traffic, rid: Rid): nat
  {
    if rid >= |tr.q.taken| then 3 * (rid + 1 - |tr.q.taken|) + InHand(tr.worker)
    else if Q.Busy(tr.worker) && rid == tr.worker.rid then InHand(tr.worker)
    else 0
  }

  lemma WorkDone(tr: Traffic, depth: nat, rid: Rid)
    requires Q.Inv(tr, depth) && rid in tr.q.accepted
    ensures WorkFor(tr, rid) == 0 <==> rid in tr.q.results
    ensures WorkFor(tr, rid) <= 3 * depth + 2
  {
  }

  lemma WorkByTake(s: State, s': State, rid: Rid)
    requires Q.Inv(s.tr, s.cfg.depth) && DoTake(s) == Some(s')
    ensures WorkFor(s'.tr, rid) <= if WorkFor(s.tr, rid) > 0 then WorkFor(s.tr, rid) - 1 else 0
  {
    Q.HeadIsNext(s.tr.q, s.tr.worker, s.cfg.depth);
  }

  lemma WorkByPublish(tr: Traffic, depth: nat, tr': Traffic, rid: Rid)
    requires Q.Inv(tr, depth) && DoPublish(tr) == Some(tr')
    ensures WorkFor(tr', rid) <= if WorkFor(tr, rid) > 0 then WorkFor(tr, rid) - 1 else 0
  {
  }

  lemma WorkByExec(s: State, junk: Memory, s': State, rid: Rid)
    requires DoExec(s, junk) == Some(s')
    ensures WorkFor(s'.tr, rid) <= if WorkFor(s.tr, rid) > 0 then WorkFor(s.tr, rid) - 1 else 0
  {
  }

  /** Nobody but the worker touches what is taken or in its hand. */
  lemma WorkByOthers(s: State, e: Event, s': State)
    requires !WorkerEvent(e) && Next(s, e) == Some(s')
    ensures s'.tr.q.taken == s.tr.q.taken && InHand(s'.tr.worker) == InHand(s.tr.worker)
    ensures Q.Busy(s'.tr.worker) == Q.Busy(s.tr.worker)
    ensures Q.Busy(s.tr.worker) ==> s'.tr.worker.rid == s.tr.worker.rid
  {
  }

  /** A worker step brings rid nearer to its end, and no step takes it away. */
  lemma WorkStep(s: State, e: Event, s': State, rid: Rid)
    requires Q.Inv(s.tr, s.cfg.depth) && Next(s, e) == Some(s')
    ensures WorkFor(s'.tr, rid) <=
            if WorkerEvent(e) && WorkFor(s.tr, rid) > 0 then WorkFor(s.tr, rid) - 1 else WorkFor(s.tr, rid)
  {
    match e
    case Take => WorkByTake(s, s', rid);
    case Publish => WorkByPublish(s.tr, s.cfg.depth, s'.tr, rid);
    case Exec(junk) => WorkByExec(s, junk, s', rid);
    case _ => WorkByOthers(s, e, s');
  }

  function WorkerSteps(es: seq<Event>): nat
  {
    if es == [] then 0
    else WorkerSteps(es[..|es| - 1]) + if WorkerEvent(es[|es| - 1]) then 1 else 0
  }

  /** What is accepted, asked or published stays so. */
  lemma HistoryGrows(s: State, e: Event, s': State)
    requires Next(s, e) == Some(s')
    ensures s.tr.q.accepted <= s'.tr.q.accepted && s.tr.asked <= s'.tr.asked
    ensures forall rid :: rid in s.tr.q.results ==> rid in s'.tr.q.results
  {
  }

  lemma {:induction false} WorkShrinks(k: Kind, w0: D.World, b: State, fs: seq<Event>, s: State, rid: Rid)
    requires Sound(k, w0, b) && Run(k, b, fs) == Some(s)
    ensures Sound(k, w0, s) && s.cfg == b.cfg && b.tr.q.accepted <= s.tr.q.accepted && b.tr.asked <= s.tr.asked
    ensures WorkFor(s.tr, rid) <=
            if WorkerSteps(fs) < WorkFor(b.tr, rid) then WorkFor(b.tr, rid) - WorkerSteps(fs) else 0
  {
    if fs != [] {
      var last := |fs| - 1;
      var m := Run(k, b, fs[..last]).value;
      WorkShrinks(k, w0, b, fs[..last], m, rid);
      SoundStep(k, w0, m, fs[last], s);
      HistoryGrows(m, fs[last], s);
      WorkStep(m, fs[last], s, rid);
    }
  }

  /** Whatever else interleaves, in EVERY continuation an accepted request is published
      after WorkFor steps of the worker, and that is at most 3 * depth + 2. */
  lemma EveryRunAnswers(k: Kind, cfg: Config, enabled: bool, disk: seq<Byte>, es: seq<Event>, b: State,
                        fs: seq<Event>, s: State, rid: Rid)
    requires Reaches(k, cfg, enabled, disk, es, b) && rid in b.tr.q.accepted && Run(k, b, fs) == Some(s)
    ensures WorkFor(b.tr, rid) <= 3 * cfg.depth + 2
    ensures WorkerSteps(fs) >= WorkFor(b.tr, rid) ==> rid in s.tr.q.results
  {
    RunSound(k, cfg, enabled, disk, es, b);
    WorkDone(b.tr, cfg.depth, rid);
    WorkShrinks(k, Start(disk), b, fs, s, rid);
    WorkDone(s.tr, cfg.depth, rid);
  }

  // ------------------------------------------------------- after the worker has left

  /** Some continuation publishes rid. */
  ghost predicate CanBeAnswered(k: Kind, s: State, rid: Rid)
  {
    exists more, s' :: Run(k, s, more) == Some(s') && rid in s'.tr.q.results
  }

  /** The call that takes a to b was accepted, as number |a.tr.asked|. */
  ghost predicate Accepted(k: Kind, a: State, t: Tid, x: Xfer, b: State)
  {
    Allowed(k, a, Submit(t, x)) && Next(a, Submit(t, x)) == Some(b) && b != a
  }

  lemma AcceptedIs(k: Kind, a: State, t: Tid, x: Xfer, b: State)
    requires Accepted(k, a, t, x, b) && |a.tr.asked| == |a.tr.q.accepted|
    ensures b.tr.q.accepted == a.tr.q.accepted + [|a.tr.asked|] && b.tr.asked == a.tr.asked + [x]
    ensures b.tr.worker.Exited? == a.tr.worker.Exited? && b.tr.q.results == a.tr.q.results
    ensures b.cfg == a.cfg && b.enabled == a.enabled && b.st == a.st
    ensures Validate(a.cfg, a.enabled, a.st.table, x).Good?
  {
  }

  lemma ExitedStays(s: State, e: Event, s': State)
    requires s.tr.worker.Exited? && Next(s, e) == Some(s')
    ensures s'.tr.worker.Exited? && s'.tr.q.results == s.tr.q.results
  {
  }

  /** The worker does not come back: nothing is published any more. */
  lemma {:induction false} NothingPublished(k: Kind, s: State, es: seq<Event>, s': State)
    requires s.tr.worker.Exited? && Run(k, s, es) == Some(s')
    ensures s'.tr.worker.Exited? && s'.tr.q.results == s.tr.q.results
  {
    if es != [] {
      var last := |es| - 1;
      var m := Run(k, s, es[..last]).value;
      NothingPublished(k, s, es[..last], m);
      ExitedStays(m, es[last], s');
    }
  }

  /** The step in which the worker leaves. */
  lemma LeavesIdle(s: State, e: Event, s': State)
    requires !s.tr.worker.Exited? && s'.tr.worker.Exited? && Next(s, e) == Some(s')
    ensures StepsLeft(s.tr) == 0 && s'.tr.q == s.tr.q
  {
  }

  /** What was accepted with the worker there is published before the worker leaves. */
  lemma {:induction false} PublishedBeforeExit(k: Kind, w0: D.World, b: State, fs: seq<Event>, s: State, rid: Rid)
    requires Sound(k, w0, b) && !b.tr.worker.Exited? && rid in b.tr.q.accepted && Run(k, b, fs) == Some(s)
    ensures Sound(k, w0, s) && rid in s.tr.q.accepted
    ensures s.tr.worker.Exited? ==> rid in s.tr.q.results
  {
    if fs != [] {
      var last := |fs| - 1;
      var m := Run(k, b, fs[..last]).value;
      PublishedBeforeExit(k, w0, b, fs[..last], m, rid);
      SoundStep(k, w0, m, fs[last], s);
      ExitStep(m, fs[last], s, rid);
    }
  }

  lemma ExitStep(s: State, e: Event, s': State, rid: Rid)
    requires Q.Inv(s.tr, s.cfg.depth) && Next(s, e) == Some(s')
    requires rid in s.tr.q.accepted && (s.tr.worker.Exited? ==> rid in s.tr.q.results)
    ensures rid in s'.tr.q.accepted && (s'.tr.worker.Exited? ==> rid in s'.tr.q.results)
  {
    HistoryGrows(s, e, s');
    if !s.tr.worker.Exited? && s'.tr.worker.Exited? {
      LeavesIdle(s, e, s');
      NothingPending(s.tr, s.cfg.depth);
    }
  }

  lemma StillAnswerable(k: Kind, w0: D.World, b: State, fs: seq<Event>, s: State, rid: Rid)
    requires Sound(k, w0, b) && !b.tr.worker.Exited? && rid in b.tr.q.accepted && Run(k, b, fs) == Some(s)
    ensures CanBeAnswered(k, s, rid)
  {
    PublishedBeforeExit(k, w0, b, fs, s, rid);
    if s.tr.worker.Exited? {
      assert Run(k, s, []) == Some(s);
    } else {
      var more, s' := WorkerCanDrain(k, w0, s);
    }
  }

  lemma StillWaiting(tr: Traffic, depth: nat, rid: Rid)
    requires Q.Inv(tr, depth) && rid < |tr.asked| && rid !in tr.q.results
    ensures Q.Awaited(tr.callers, rid)
  {
  }

  /** An accepted request can be answered exactly when the worker had not left at its
      acceptance. Then it can be answered from every later state as well; otherwise its
      caller waits in every later state. A caller that finds the manager not stopping,
      under the lock it submits with, is on the safe side. */
  lemma AnswerableIffWorker(k: Kind, cfg: Config, enabled: bool, disk: seq<Byte>, es: seq<Event>, a: State,
                            t: Tid, x: Xfer, b: State)
    requires Reaches(k, cfg, enabled, disk, es, a) && Accepted(k, a, t, x, b)
    ensures CanBeAnswered(k, b, |a.tr.asked|) <==> !a.tr.worker.Exited?
    ensures !a.tr.worker.Exited? ==>
              forall fs, s :: Run(k, b, fs) == Some(s) ==> CanBeAnswered(k, s, |a.tr.asked|)
    ensures a.tr.worker.Exited? ==>
              forall fs, s :: Run(k, b, fs) == Some(s) ==> Q.Awaited(s.tr.callers, |a.tr.asked|)
    ensures !a.stopping ==> !a.tr.worker.Exited?
  {
    var rid := |a.tr.asked|;
    RunSound(k, cfg, enabled, disk, es, a);
    SoundStep(k, Start(disk), a, Submit(t, x), b);
    AcceptedIs(k, a, t, x, b);
    if a.tr.worker.Exited? {
      assert rid !in b.tr.q.results;
      forall more, s' | Run(k, b, more) == Some(s')
        ensures rid !in s'.tr.q.results && Q.Awaited(s'.tr.callers, rid)
      {
        NothingPublished(k, b, more, s');
        WorkShrinks(k, Start(disk), b, more, s', rid);
        StillWaiting(s'.tr, cfg.depth, rid);
      }
    } else {
      forall fs, s | Run(k, b, fs) == Some(s) ensures CanBeAnswered(k, s, rid) {
        StillAnswerable(k, Start(disk), b, fs, s, rid);
      }
      assert Run(k, b, []) == Some(b);
    }
  }

  /** The table with one peer connected. */
  function OnePeer(va: nat, len: nat): P.Table
  {
    P.NoPeers()[0 := P.Active(1, va, len, 0)]
  }

  function ConnectOne(va: nat, len: nat): seq<Event>
  {
    [ConnectAlloc(0, 1, va, len), ConnectInsert(0)]
  }

  lemma FirstFree()
    ensures P.Find(P.NoPeers(), 1) == None && P.FreeSlot(P.NoPeers()) == Some(0)
  {
  }

  /** A run that connects one peer. */
  lemma ConnectRuns(k: Kind, cfg: Config, disk: seq<Byte>, va: nat, len: nat) returns (s: State)
    requires 0 < cfg.depth && |disk| == cfg.size && len > 0
    ensures Run(k, Init(cfg, true, disk), ConnectOne(va, len)) == Some(s)
    ensures s.cfg == cfg && s.enabled && !s.stopping && !s.destroyed && s.tr == InitTraffic(cfg.depth)
    ensures s.st.table == OnePeer(va, len) && s.st.log == [Connected(1, va, len)]
    ensures s.st.mem == Memory(disk, map[0 := Zeros(len)])
  {
    var s0 := Init(cfg, true, disk);
    var es := ConnectOne(va, len);
    var s1 := s0.(st := DoConnectAlloc(s0.st, 0, 1, va, len).value);
    FirstFree();
    s := s1.(st := DoConnectInsert(s1.st, true, 0).value);
    assert es[..1] == [es[0]];
    RunOne(k, s0, es[0]);
    RunSnoc(k, s0, [es[0]], s1, es[1]);
    assert [es[0]] + [es[1]] == es;
  }

  /** A call made between the worker's exit and the destroy is accepted, and waits for
      ever: such a run exists for every manager. */
  lemma LateSubmitHangs(k: Kind, cfg: Config, disk: seq<Byte>) returns (es: seq<Event>, a: State, x: Xfer, b: State)
    requires 0 < cfg.depth && |disk| == cfg.size && 0 < cfg.blockSize <= cfg.size
    ensures Reaches(k, cfg, true, disk, es, a) && Accepted(k, a, 0, x, b)
    ensures Reaches(k, cfg, true, disk, es + [Submit(0, x)], b) && 0 in b.tr.q.accepted
    ensures forall fs, s :: Run(k, b, fs) == Some(s) ==> 0 !in s.tr.q.results && Q.Awaited(s.tr.callers, 0)
  {
    var s0 := Init(cfg, true, disk);
    var m := ConnectRuns(k, cfg, disk, 0, cfg.blockSize);
    var n := m.(stopping := true);
    a := n.(tr := n.tr.(worker := Exited));
    es := ConnectOne(0, cfg.blockSize);
    RunSnoc(k, s0, es, m, Stop);
    RunSnoc(k, s0, es + [Stop], n, Exit);
    es := es + [Stop] + [Exit];
    x := Xfer(1, 0, 0, 0, cfg.blockSize, RAMDISK_TO_HBM);
    WholeBlockValid(cfg, x);
    b := a.(tr := Accept(a.tr, 0, x));
    RunSnoc(k, s0, es, a, Submit(0, x));
    AnswerableIffWorker(k, cfg, true, disk, es, a, 0, x, b);
    assert !CanBeAnswered(k, b, 0);
  }

  lemma WholeBlockValid(cfg: Config, x: Xfer)
    requires 0 < cfg.blockSize <= cfg.size && x == Xfer(1, 0, 0, 0, cfg.blockSize, RAMDISK_TO_HBM)
    ensures Validate(cfg, true, OnePeer(0, cfg.blockSize), x) == Good(0)
  {
    FoundAt(OnePeer(0, cfg.blockSize), 1, 0);
  }

  // --------------------------------------------------------------- stable validation

  ghost predicate NoDisconnectOf(fs: seq<Event>, peer: nat)
  {
    forall i :: 0 <= i < |fs| ==> !(fs[i].DisconnectClear? && fs[i].id == peer)
  }

  ghost predicate NoDisable(fs: seq<Event>)
  {
    forall i :: 0 <= i < |fs| ==> !fs[i].Disable?
  }

  lemma Undestroyed(s: State, e: Event, s': State)
    requires Next(s, e) == Some(s') && !s'.destroyed
    ensures !e.DestroyPeers?
  {
  }

  /** Along a run without a disconnect of its own peer, a transfer keeps its verdict but
      for the enabled flag, and that one too without a disable. */
  lemma {:induction false} ValidThroughout(k: Kind, w0: D.World, b: State, fs: seq<Event>, s: State, x: Xfer)
    requires Sound(k, w0, b) && Run(k, b, fs) == Some(s) && !s.destroyed
    requires Validate(b.cfg, true, b.st.table, x).Good? && NoDisconnectOf(fs, x.peer)
    ensures Sound(k, w0, s) && s.cfg == b.cfg
    ensures Validate(b.cfg, true, s.st.table, x) == Validate(b.cfg, true, b.st.table, x)
    ensures b.enabled && NoDisable(fs) ==> s.enabled
  {
    if fs != [] {
      var last := |fs| - 1;
      var m := Run(k, b, fs[..last]).value;
      assert fs[last] in fs;
      ValidThroughout(k, w0, b, fs[..last], m, x);
      SoundStep(k, w0, m, fs[last], s);
      Undestroyed(m, fs[last], s);
      PlaceStays(m, fs[last], s, x);
      SettingsStay(m, fs[last], s);
    }
  }

  lemma HeadAsked(tr: Traffic, depth: nat)
    requires Q.Inv(tr, depth) && CanTake(tr)
    ensures var rid := HeadRid(tr);
            && |tr.q.taken| == rid < |tr.asked|
            && tr.reqs[rid].x.(remote := tr.reqs[rid].remote) == tr.asked[rid]
  {
    Q.HeadIsNext(tr.q, tr.worker, depth);
  }

  lemma TakenIs(s: State, s': State)
    requires Q.Inv(s.tr, s.cfg.depth) && Next(s, Take) == Some(s')
    ensures !s.destroyed && Q.Busy(s'.tr.worker) && s'.tr.worker.rid < |s.tr.asked|
    ensures var v := Validate(s.cfg, s.enabled, s.st.table, s.tr.asked[s'.tr.worker.rid]);
            s'.tr.worker == if v.Bad? then Executed(s'.tr.worker.rid, v.rc) else Executing(s'.tr.worker.rid, v.slot)
  {
    HeadAsked(s.tr, s.cfg.depth);
  }

  /** From its acceptance to its dequeue, whatever happens to other peers and other
      requests: as long as its own peer is not disconnected, the second validation
      succeeds exactly when the manager is enabled at the dequeue, so always when it was
      not disabled in between, and it finds the request's peer. */
  lemma RevalidationSucceeds(k: Kind, cfg: Config, enabled: bool, disk: seq<Byte>, es: seq<Event>, a: State,
                             t: Tid, x: Xfer, b: State, fs: seq<Event>, s: State, s': State)
    requires Reaches(k, cfg, enabled, disk, es, a) && Accepted(k, a, t, x, b)
    requires Run(k, b, fs) == Some(s) && NoDisconnectOf(fs, x.peer)
    requires Next(s, Take) == Some(s') && Q.Busy(s'.tr.worker) && s'.tr.worker.rid == |a.tr.asked|
    ensures s'.tr.worker.Executing? <==> s.enabled
    ensures NoDisable(fs) ==> s'.tr.worker.Executing?
    ensures s'.tr.worker.Executing? ==> P.IsPeer(s.st.table, s'.tr.worker.slot, x.peer)
    ensures !s'.tr.worker.Executing? ==> s'.tr.worker == Executed(|a.tr.asked|, -EOPNOTSUPP)
  {
    var w0 := Start(disk);
    RunSound(k, cfg, enabled, disk, es, a);
    SoundStep(k, w0, a, Submit(t, x), b);
    AcceptedIs(k, a, t, x, b);
    WorkShrinks(k, w0, b, fs, s, 0);
    TakenIs(s, s');
    ValidThroughout(k, w0, b, fs, s, x);
    assert s.tr.asked[|a.tr.asked|] == x;
  }
}
