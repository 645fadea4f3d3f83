/** What a call of the URMA manager is told, traced back to the event of the run that
    decided it. */
module UrmaManagerOutcome {
  import opened Common
  import opened UrmaManager
  import opened UrmaManagerTheorems
  import opened UrmaManagerProgress
  import P = PeerTable
  import Q = UrmaManagerQueue
  import D = UrmaManagerData

  /** Event i takes request rid from the ring, and the second validation of x says v. */
  ghost predicate JudgedAt(k: Kind, s0: State, es: seq<Event>, i: nat, rid: Rid, x: Xfer, v: Verdict)
  {
    && i < |es| && es[i].Take?
    && var o := Run(k, s0, es[..i]);
       && o.Some? && CanTake(o.value.tr) && HeadRid(o.value.tr) == rid
       && v == Validate(o.value.cfg, o.value.enabled, o.value.st.table, x)
  }

  ghost predicate Judged(k: Kind, s0: State, es: seq<Event>, rid: Rid, x: Xfer, v: Verdict)
  {
    exists i: nat :: JudgedAt(k, s0, es, i, rid, x, v)
  }

  /** Event j finds the slot of the running transfer empty. */
  ghost predicate GoneAt(k: Kind, s0: State, es: seq<Event>, j: nat, rid: Rid, slot: nat)
  {
    && j < |es| && es[j].Exec?
    && var o := Run(k, s0, es[..j]);
       && o.Some? && o.value.tr.worker == Executing(rid, slot)
       && slot < |o.value.st.table| && o.value.st.table[slot].Free?
  }

  ghost predicate Gone(k: Kind, s0: State, es: seq<Event>, rid: Rid, slot: nat)
  {
    exists j: nat :: GoneAt(k, s0, es, j, rid, slot)
  }

  ghost predicate Follows(k: Kind, s0: State, es: seq<Event>, rid: Rid, v: Verdict, status: int)
  {
    if v.Bad? then status == v.rc else status == 0 || (status == -ENODEV && Gone(k, s0, es, rid, v.slot))
  }

  /** The status is what the events of the run make it: the error of the second
      validation, -ENODEV if the peer had left its slot by then, or 0. */
  ghost predicate Decided(k: Kind, s0: State, es: seq<Event>, rid: Rid, x: Xfer, status: int)
  {
    exists v :: Judged(k, s0, es, rid, x, v) && Follows(k, s0, es, rid, v, status)
  }

  lemma JudgedStays(k: Kind, s0: State, es: seq<Event>, e: Event, rid: Rid, x: Xfer, v: Verdict)
    requires Judged(k, s0, es, rid, x, v)
    ensures Judged(k, s0, es + [e], rid, x, v)
  {
    var i: nat :| JudgedAt(k, s0, es, i, rid, x, v);
    assert (es + [e])[..i] == es[..i];
    assert JudgedAt(k, s0, es + [e], i, rid, x, v);
  }

  lemma DecidedStays(k: Kind, s0: State, es: seq<Event>, e: Event, rid: Rid, x: Xfer, status: int)
    requires Decided(k, s0, es, rid, x, status)
    ensures Decided(k, s0, es + [e], rid, x, status)
  {
    var v :| Judged(k, s0, es, rid, x, v) && Follows(k, s0, es, rid, v, status);
    JudgedStays(k, s0, es, e, rid, x, v);
    FollowsStays(k, s0, es, e, rid, v, status);
  }

  lemma FollowsStays(k: Kind, s0: State, es: seq<Event>, e: Event, rid: Rid, v: Verdict, status: int)
    requires Follows(k, s0, es, rid, v, status)
    ensures Follows(k, s0, es + [e], rid, v, status)
  {
    if v.Good? && status != 0 {
      var j: nat :| GoneAt(k, s0, es, j, rid, v.slot);
      assert (es + [e])[..j] == es[..j];
      assert GoneAt(k, s0, es + [e], j, rid, v.slot);
    }
  }

  /** Every published or decided request has its reason in the run. */
  ghost predicate AllDecided(k: Kind, s0: State, es: seq<Event>, tr: Traffic)
  {
    && (forall rid :: rid in tr.q.results && rid < |tr.asked| ==>
          Decided(k, s0, es, rid, tr.asked[rid], tr.q.results[rid]))
    && (tr.worker.Executed? && tr.worker.rid < |tr.asked| ==>
          Decided(k, s0, es, tr.worker.rid, tr.asked[tr.worker.rid], tr.worker.rc))
    && (tr.worker.Executing? && tr.worker.rid < |tr.asked| ==>
          Judged(k, s0, es, tr.worker.rid, tr.asked[tr.worker.rid], Good(tr.worker.slot)))
  }

  lemma DecidedByTake(k: Kind, s0: State, es: seq<Event>, s: State, s': State)
    requires Run(k, s0, es) == Some(s) && Q.Inv(s.tr, s.cfg.depth)
    requires AllDecided(k, s0, es, s.tr) && Next(s, Take) == Some(s')
    ensures AllDecided(k, s0, es + [Take], s'.tr)
  {
    TakenIs(s, s');
    TakeFrame(s, s');
    var rid := s'.tr.worker.rid;
    var v := Validate(s.cfg, s.enabled, s.st.table, s.tr.asked[rid]);
    assert (es + [Take])[..|es|] == es;
    assert JudgedAt(k, s0, es + [Take], |es|, rid, s.tr.asked[rid], v);
    assert Judged(k, s0, es + [Take], rid, s.tr.asked[rid], v);
    OldDecided(k, s0, es, Take, s.tr);
  }

  lemma TakeFrame(s: State, s': State)
    requires Q.Inv(s.tr, s.cfg.depth) && Next(s, Take) == Some(s')
    ensures CanTake(s.tr) && HeadRid(s.tr) == s'.tr.worker.rid
    ensures s'.tr.asked == s.tr.asked && s'.tr.q.results == s.tr.q.results
  {
  }

  /** What is published stays decided. */
  lemma OldDecided(k: Kind, s0: State, es: seq<Event>, e: Event, tr: Traffic)
    requires AllDecided(k, s0, es, tr)
    ensures forall rid :: rid in tr.q.results && rid < |tr.asked| ==>
              Decided(k, s0, es + [e], rid, tr.asked[rid], tr.q.results[rid])
  {
    forall rid | rid in tr.q.results && rid < |tr.asked|
      ensures Decided(k, s0, es + [e], rid, tr.asked[rid], tr.q.results[rid])
    {
      DecidedStays(k, s0, es, e, rid, tr.asked[rid], tr.q.results[rid]);
    }
  }

  lemma ExecFrame(s: State, junk: Memory, s': State)
    requires Next(s, Exec(junk)) == Some(s')
    ensures s.tr.worker.Executing? && s.tr.worker.slot < |s.st.table|
    ensures s'.tr == s.tr.(worker := s'.tr.worker)
    ensures s'.tr.worker ==
            Executed(s.tr.worker.rid, if s.st.table[s.tr.worker.slot].Free? then -ENODEV else 0)
  {
  }

  lemma DecidedByExec(k: Kind, s0: State, es: seq<Event>, s: State, junk: Memory, s': State)
    requires Run(k, s0, es) == Some(s)
    requires AllDecided(k, s0, es, s.tr) && Next(s, Exec(junk)) == Some(s')
    ensures AllDecided(k, s0, es + [Exec(junk)], s'.tr)
  {
    ExecFrame(s, junk, s');
    OldDecided(k, s0, es, Exec(junk), s.tr);
    var rid, slot := s.tr.worker.rid, s.tr.worker.slot;
    if rid < |s.tr.asked| {
      JudgedStays(k, s0, es, Exec(junk), rid, s.tr.asked[rid], Good(slot));
      assert (es + [Exec(junk)])[..|es|] == es;
      if s.st.table[slot].Free? {
        assert GoneAt(k, s0, es + [Exec(junk)], |es|, rid, slot);
      }
    }
  }

  lemma PublishFrame(s: State, s': State)
    requires Next(s, Publish) == Some(s')
    ensures s.tr.worker.Executed? && s'.tr.worker.Checking? && s'.tr.asked == s.tr.asked
    ensures s'.tr.q.results == s.tr.q.results[s.tr.worker.rid := s.tr.worker.rc]
  {
  }

  lemma DecidedByPublish(k: Kind, s0: State, es: seq<Event>, s: State, s': State)
    requires AllDecided(k, s0, es, s.tr) && Next(s, Publish) == Some(s')
    ensures AllDecided(k, s0, es + [Publish], s'.tr)
  {
    PublishFrame(s, s');
    OldDecided(k, s0, es, Publish, s.tr);
    if s.tr.worker.rid < |s.tr.asked| {
      DecidedStays(k, s0, es, Publish, s.tr.worker.rid, s.tr.asked[s.tr.worker.rid], s.tr.worker.rc);
    }
  }

  /** Everybody else leaves outcomes and the worker's business alone. */
  lemma OutcomeFrame(s: State, e: Event, s': State)
    requires !WorkerEvent(e) && Next(s, e) == Some(s')
    ensures s.tr.asked <= s'.tr.asked && s'.tr.q.results == s.tr.q.results
    ensures Q.Busy(s'.tr.worker) || Q.Busy(s.tr.worker) ==> s'.tr.worker == s.tr.worker
  {
  }

  lemma DecidedByOther(k: Kind, s0: State, es: seq<Event>, s: State, e: Event, s': State)
    requires Q.Inv(s.tr, s.cfg.depth) && AllDecided(k, s0, es, s.tr) && !WorkerEvent(e) && Next(s, e) == Some(s')
    ensures AllDecided(k, s0, es + [e], s'.tr)
  {
    OutcomeFrame(s, e, s');
    OldDecided(k, s0, es, e, s.tr);
    forall rid | rid in s'.tr.q.results && rid < |s'.tr.asked|
      ensures Decided(k, s0, es + [e], rid, s'.tr.asked[rid], s'.tr.q.results[rid])
    {
      PublishedAsked(s.tr, s.cfg.depth, rid);
    }
    if Q.Busy(s.tr.worker) {
      Q.BusyWith(s.tr, s.cfg.depth);
      var rid := s.tr.worker.rid;
      if s.tr.worker.Executed? {
        DecidedStays(k, s0, es, e, rid, s.tr.asked[rid], s.tr.worker.rc);
      } else {
        JudgedStays(k, s0, es, e, rid, s.tr.asked[rid], Good(s.tr.worker.slot));
      }
    }
  }

  lemma PublishedAsked(tr: Traffic, depth: nat, rid: Rid)
    requires Q.Inv(tr, depth) && rid in tr.q.results
    ensures rid < |tr.asked|
  {
  }

  lemma DecidedStep(k: Kind, s0: State, es: seq<Event>, s: State, e: Event, s': State)
    requires Run(k, s0, es) == Some(s) && Q.Inv(s.tr, s.cfg.depth)
    requires AllDecided(k, s0, es, s.tr) && Next(s, e) == Some(s')
    ensures AllDecided(k, s0, es + [e], s'.tr)
  {
    if e.Take? {
      DecidedByTake(k, s0, es, s, s');
    } else if e.Exec? {
      DecidedByExec(k, s0, es, s, e.junk, s');
    } else if e.Publish? {
      DecidedByPublish(k, s0, es, s, s');
    } else {
      DecidedByOther(k, s0, es, s, e, s');
    }
  }

  lemma {:induction false} RunDecided(k: Kind, cfg: Config, enabled: bool, disk: seq<Byte>, es: seq<Event>, s: State)
    requires Reaches(k, cfg, enabled, disk, es, s)
    ensures AllDecided(k, Init(cfg, enabled, disk), es, s.tr)
  {
    if es == [] {
      NothingDecided(k, Init(cfg, enabled, disk), cfg.depth);
    } else {
      var last := |es| - 1;
      var before, e := es[..last], es[last];
      var m := Run(k, Init(cfg, enabled, disk), before).value;
      RunDecided(k, cfg, enabled, disk, before, m);
      RunQueue(k, cfg, enabled, disk, before, m);
      assert es == before + [e];
      DecidedStep(k, Init(cfg, enabled, disk), before, m, e, s);
    }
  }

  lemma NothingDecided(k: Kind, s0: State, depth: nat)
    ensures AllDecided(k, s0, [], InitTraffic(depth))
  {
  }

  /** Over all runs: what a call was told is the error of the second validation at its
      dequeue, or -ENODEV if its peer had left the slot when the transfer ran, or 0; and
      the last but one never in a run without a disconnect under a running transfer. */
  lemma ToldIsDecided(k: Kind, cfg: Config, enabled: bool, disk: seq<Byte>, es: seq<Event>, s: State, rid: Rid)
    requires Reaches(k, cfg, enabled, disk, es, s) && rid in s.tr.returned
    ensures rid < |s.tr.asked|
    ensures Decided(k, Init(cfg, enabled, disk), es, rid, s.tr.asked[rid], s.tr.returned[rid])
    ensures k.Calm? ==> exists v :: && Judged(k, Init(cfg, enabled, disk), es, rid, s.tr.asked[rid], v)
                                    && s.tr.returned[rid] == if v.Bad? then v.rc else 0
  {
    var s0 := Init(cfg, enabled, disk);
    RunQueue(k, cfg, enabled, disk, es, s);
    ReturnedPublished(s.tr, s.cfg.depth, rid);
    RunDecided(k, cfg, enabled, disk, es, s);
    if k.Calm? {
      var v :| Judged(k, s0, es, rid, s.tr.asked[rid], v) && Follows(k, s0, es, rid, v, s.tr.returned[rid]);
      if v.Good? && s.tr.returned[rid] != 0 {
        var j: nat :| GoneAt(k, s0, es, j, rid, v.slot);
        NeverGone(cfg, enabled, disk, es, s, j, rid, v.slot);
      }
    }
  }

  lemma ReturnedPublished(tr: Traffic, depth: nat, rid: Rid)
    requires Q.Inv(tr, depth) && rid in tr.returned
    ensures rid in tr.q.results && tr.returned[rid] == tr.q.results[rid] && rid < |tr.asked|
  {
  }

  /** The peer of a running transfer is there. */
  lemma NeverGone(cfg: Config, enabled: bool, disk: seq<Byte>, es: seq<Event>, s: State, j: nat, rid: Rid, slot: nat)
    requires Reaches(Calm, cfg, enabled, disk, es, s)
    ensures !GoneAt(Calm, Init(cfg, enabled, disk), es, j, rid, slot)
  {
    if GoneAt(Calm, Init(cfg, enabled, disk), es, j, rid, slot) {
      var m := Run(Calm, Init(cfg, enabled, disk), es[..j]).value;
      RunSound(Calm, cfg, enabled, disk, es[..j], m);
      assert false;
    }
  }
}
