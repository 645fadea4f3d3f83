/** Where a request of the direct-IO queue can be: in one place, once. */
module KernelQueueConservation {
  import opened Common
  import opened KernelQueue
  import opened KernelQueueInvariants

  function KeysOf(m: map<nat, Req>, r: Req): set<nat>
  {
    set k | k in m && m[k] == r
  }

  /** Entries of the xarray that point at r. */
  function Copies(m: map<nat, Req>, r: Req): nat
  {
    |KeysOf(m, r)|
  }

  /** 1 when the worker holds r and the xarray does not. */
  function InHand(w: WorkerPc, r: Req): nat
  {
    if (w.Popped? || w.Numbered? || w.Erased? || w.Failing?) && w.r == r then 1 else 0
  }

  function Victims(t: TeardownPc): seq<Req>
  {
    if t.Draining? || t.Completing? then t.victims else []
  }

  function Times(q: seq<Req>, r: Req): nat
  {
    multiset(q)[r]
  }

  /** How many times r occurs: pending list, xarray, worker, teardown list, callbacks made. */
  function Places(s: State, r: Req): nat
  {
    Times(s.dev.pendingList, r) + Copies(s.dev.inflightReqs, r) + InHand(s.worker, r)
    + Times(Victims(s.teardown), r) + |Calls(s.dev, r)|
  }

  function Accepted(s: State, r: Req): nat
  {
    if r in s.accepted then 1 else 0
  }

  lemma CopiesStore(m: map<nat, Req>, k: nat, v: Req, r: Req)
    requires k !in m
    ensures Copies(m[k := v], r) == Copies(m, r) + if v == r then 1 else 0
  {
    assert KeysOf(m[k := v], r) == if v == r then KeysOf(m, r) + {k} else KeysOf(m, r);
  }

  lemma CopiesErase(m: map<nat, Req>, k: nat, r: Req)
    requires k in m
    ensures Copies(m, r) == Copies(m - {k}, r) + if m[k] == r then 1 else 0
  {
    assert KeysOf(m, r) == if m[k] == r then KeysOf(m - {k}, r) + {k} else KeysOf(m - {k}, r);
  }

  lemma TimesFirst(q: seq<Req>, r: Req)
    requires q != []
    ensures Times(q, r) == Times(q[1..], r) + if q[0] == r then 1 else 0
  {
    assert q == [q[0]] + q[1..];
  }

  /** Only the acceptance of r changes the number of its places. */
  lemma PlacesBySubmit(s: State, e: Event, s': State, r: Req)
    requires FreshInv(s) && Places(s, r) == Accepted(s, r)
    requires SubmitEvent(e) && NextSubmit(s, e) == Some(s')
    ensures Places(s', r) == Accepted(s', r)
  {
  }

  lemma PlacesByLoop(s: State, e: Event, s': State, r: Req)
    requires LoopEvent(e) && NextLoop(s, e) == Some(s')
    ensures Places(s', r) == Places(s, r)
  {
    if e.Pop? && s.dev.pendingList != [] {
      TimesFirst(s.dev.pendingList, r);
    }
  }

  lemma PlacesByTrack(s: State, e: Event, s': State, r: Req)
    requires s.worker.Numbered? ==> s.worker.id !in s.dev.inflightReqs
    requires TrackEvent(e) && NextTrack(s, e) == Some(s')
    ensures Places(s', r) == Places(s, r)
  {
    if e.Store? && e.rc == 0 {
      CopiesStore(s.dev.inflightReqs, s.worker.id, s.worker.r, r);
    }
  }

  lemma PlacesByPost(s: State, e: Event, s': State, r: Req)
    requires Tracked(s.worker) ==>
               s.worker.id in s.dev.inflightReqs && s.dev.inflightReqs[s.worker.id] == s.worker.r
    requires PostEvent(e) && NextPost(s, e) == Some(s')
    ensures Places(s', r) == Places(s, r)
  {
    if e.Erase? {
      CopiesErase(s.dev.inflightReqs, s.worker.id, r);
    }
  }

  lemma PlacesByTeardown(s: State, e: Event, s': State, r: Req)
    requires !SubmitEvent(e) && !WorkerEvent(e) && NextTeardown(s, e) == Some(s')
    ensures Places(s', r) == Places(s, r)
  {
    if e.Drain? {
      CopiesErase(s.dev.inflightReqs, e.k, r);
    } else if e.CompleteOne? {
      TimesFirst(s.teardown.victims, r);
    }
  }

  lemma PlacesStep(s: State, e: Event, s': State, r: Req)
    requires Inv(s) && Next(s, e) == Some(s') && Places(s, r) == Accepted(s, r)
    ensures Places(s', r) == Accepted(s', r)
  {
    if SubmitEvent(e) {
      PlacesBySubmit(s, e, s', r);
    } else if LoopEvent(e) {
      PlacesByLoop(s, e, s', r);
    } else if TrackEvent(e) {
      PlacesByTrack(s, e, s', r);
    } else if PostEvent(e) {
      PlacesByPost(s, e, s', r);
    } else {
      PlacesByTeardown(s, e, s', r);
    }
    if !SubmitEvent(e) {
      AcceptedFrame(s, e, s');
    }
  }

  lemma AcceptedFrame(s: State, e: Event, s': State)
    requires Next(s, e) == Some(s') && !SubmitEvent(e)
    ensures s'.accepted == s.accepted
  {
  }
}
