/** real_poll_completion of userspace-nbd/src/ramdisk_urma.c: the worker waits on a
    completion queue that may still hold answers to requests it gave up on. */
module Completion {
  import opened Common

  /** What one call of urma_poll_jfc gives. */
  datatype Poll = Broken | Nothing | Cr(ctx: nat, ok: bool)

  const POLL_LIMIT: nat := 30000

  /** A poll that ends the wait of request `id`. */
  predicate Decides(id: nat, p: Poll)
  {
    p.Broken? || (p.Cr? && p.ctx == id)
  }

  /** What a wait of at most `budget` polls returns, and the polls it consumes. A
      queue that has run out of entries keeps saying Nothing. */
  function Wait(id: nat, polls: seq<Poll>, budget: nat): (int, nat)
    decreases budget
  {
    if budget == 0 then (-ETIMEDOUT, 0)
    else if polls == [] then Wait(id, polls, budget - 1)
    else if Decides(id, polls[0]) then (if polls[0].Cr? && polls[0].ok then 0 else -EIO, 1)
    else
      var w := Wait(id, polls[1..], budget - 1);
      (w.0, w.1 + 1)
  }

  class Jfc {
    var polls: seq<Poll>

    constructor (polls: seq<Poll>)
      ensures this.polls == polls
    {
      this.polls := polls;
    }

    method PollJfc() returns (p: Poll)
      modifies this
      ensures old(polls) == [] ==> p == Nothing && polls == []
      ensures old(polls) != [] ==> p == old(polls)[0] && polls == old(polls)[1..]
    {
      if polls == [] {
        return Nothing;
      }
      p := polls[0];
      polls := polls[1..];
    }

    /** real_poll_completion. */
    method RealPollCompletion(id: nat) returns (rc: int)
      modifies this
      ensures var w := Wait(id, old(polls), POLL_LIMIT);
              w.1 <= |old(polls)| && rc == w.0 && polls == old(polls)[w.1..]
    {
      ghost var start := polls;
      ghost var used := 0;
      for loops := 0 to POLL_LIMIT
        invariant used <= |start| && polls == start[used..]
        invariant Wait(id, start, POLL_LIMIT) == (Wait(id, polls, POLL_LIMIT - loops).0,
                                                  Wait(id, polls, POLL_LIMIT - loops).1 + used)
      {
        var before := polls;
        var p := PollJfc();
        if before != [] {
          used := used + 1;
          assert polls == start[used..];
        }
        if p.Broken? {
          return -EIO;
        }
        if p.Nothing? || p.ctx != id {
          continue;
        }
        if !p.ok {
          return -EIO;
        }
        return 0;
      }
      rc := -ETIMEDOUT;
    }
  }

  /** `at` is the first decisive poll, or the end of the queue or of the budget. */
  predicate EndsAt(id: nat, polls: seq<Poll>, budget: nat, at: nat)
  {
    && at <= budget && at <= |polls|
    && (forall i :: 0 <= i < at ==> polls[i].Nothing? || (polls[i].Cr? && polls[i].ctx != id))
    && (at < budget && at < |polls| ==> polls[at].Broken? || (polls[at].Cr? && polls[at].ctx == id))
  }

  /** The wait has one end, and answers what is found there: success on a successful
      completion with its own id, a timeout only when nothing decisive came in time. */
  lemma {:induction false} WaitMeans(id: nat, polls: seq<Poll>, budget: nat) returns (at: nat)
    ensures EndsAt(id, polls, budget, at)
    ensures Wait(id, polls, budget).0 ==
            if at >= budget || at >= |polls| then -ETIMEDOUT else if polls[at] == Cr(id, true) then 0 else -EIO
    ensures forall at' :: EndsAt(id, polls, budget, at') ==> at' == at
    ensures Wait(id, polls, budget).1 == if at < budget && at < |polls| then at + 1 else at
  {
    if budget == 0 {
      at := 0;
    } else if polls == [] {
      at := WaitMeans(id, polls, budget - 1);
    } else if Decides(id, polls[0]) {
      at := 0;
    } else {
      at := WaitMeans(id, polls[1..], budget - 1);
      at := at + 1;
      assert forall i :: 1 <= i < at ==> polls[i] == polls[1..][i - 1];
    }
  }

  // --------------------------------------------------- whose completion was it

  /** What really came out of the queue: a completion of the request posted as
      number `origin`. The code sees only the id that request carried. */
  datatype Reply = Failure | Silence | From(origin: nat, ok: bool)

  /** The life of a worker: the ids in posting order, and for every request that was
      posted what its polls find. A post that fails is answered at once. */
  datatype History = History(ids: seq<nat>, tapes: seq<Option<seq<Reply>>>)

  predicate Posted(h: History, k: nat)
  {
    k < |h.tapes| && h.tapes[k].Some?
  }

  /** Poll i of request k finds a completion. */
  predicate Finds(h: History, k: nat, i: nat)
  {
    Posted(h, k) && i < |h.tapes[k].value| && h.tapes[k].value[i].From?
  }

  /** Completions come only from requests posted no later than the poll. */
  ghost predicate Physical(h: History)
  {
    && |h.ids| == |h.tapes|
    && forall k: nat, i: nat :: Finds(h, k, i) ==>
         h.tapes[k].value[i].origin <= k && Posted(h, h.tapes[k].value[i].origin)
  }

  /** The hardware completes a request once. */
  ghost predicate CompletesOnce(h: History)
  {
    forall k: nat, i: nat, k': nat, i': nat ::
      Finds(h, k, i) && Finds(h, k', i') && h.tapes[k].value[i].origin == h.tapes[k'].value[i'].origin ==>
        k == k' && i == i'
  }

  function Seen(ids: seq<nat>, r: Reply): Poll
  {
    match r
    case Failure => Broken
    case Silence => Nothing
    case From(origin, ok) => if origin < |ids| then Cr(ids[origin], ok) else Nothing
  }

  function SeenAll(ids: seq<nat>, tape: seq<Reply>): (p: seq<Poll>)
    ensures |p| == |tape|
    ensures forall i :: 0 <= i < |tape| ==> p[i] == Seen(ids, tape[i])
  {
    seq(|tape|, i requires 0 <= i < |tape| => Seen(ids, tape[i]))
  }

  /** What request k returns. */
  function Rc(h: History, k: nat): int
    requires k < |h.ids| == |h.tapes|
  {
    if h.tapes[k].None? then -EIO else Wait(h.ids[k], SeenAll(h.ids, h.tapes[k].value), POLL_LIMIT).0
  }

  /** The request's own completion reached it, successful and within the limit. */
  ghost predicate OwnCompletion(h: History, k: nat)
  {
    && Posted(h, k)
    && exists at :: 0 <= at < POLL_LIMIT && at < |h.tapes[k].value| && h.tapes[k].value[at] == From(k, true)
  }

  predicate Unique(ids: seq<nat>)
  {
    forall i, j :: 0 <= i < j < |ids| ==> ids[i] != ids[j]
  }

  /** With unique ids a success is the request's own, whatever late completions are
      lying in the queue. */
  lemma OwnSuccess(h: History, k: nat)
    requires Physical(h) && Unique(h.ids) && k < |h.ids| && Rc(h, k) == 0
    ensures OwnCompletion(h, k)
  {
    var tape := h.tapes[k].value;
    var at := WaitMeans(h.ids[k], SeenAll(h.ids, tape), POLL_LIMIT);
    assert Seen(h.ids, tape[at]) == Cr(h.ids[k], true);
    assert tape[at] == From(k, true);
  }

  /** Two requests with one id: the second can succeed on the late completion of the
      first, without ever completing itself. */
  lemma Misattributed(ids: seq<nat>, i: nat, j: nat) returns (h: History)
    requires i < j < |ids| && ids[i] == ids[j]
    ensures h.ids == ids && Physical(h) && CompletesOnce(h)
    ensures Rc(h, j) == 0 && !OwnCompletion(h, j)
  {
    h := History(ids, seq(|ids|, k => if k == j then Some([From(i, true)]) else Some([])));
    assert forall k: nat, p: nat :: Finds(h, k, p) ==> k == j && p == 0;
    var tape := [From(i, true)];
    assert h.tapes[j] == Some(tape);
    assert SeenAll(ids, tape)[0] == Cr(ids[j], true);
  }

  ghost predicate NeverMisattributed(ids: seq<nat>)
  {
    forall h: History, k: nat :: h.ids == ids && Physical(h) && CompletesOnce(h) && k < |ids| && Rc(h, k) == 0 ==>
                                   OwnCompletion(h, k)
  }

  /** Success always means one's own completion exactly when the ids are unique. */
  lemma AttributionIffUnique(ids: seq<nat>)
    ensures NeverMisattributed(ids) <==> Unique(ids)
  {
    if Unique(ids) {
      forall h: History, k: nat | h.ids == ids && Physical(h) && CompletesOnce(h) && k < |ids| && Rc(h, k) == 0
        ensures OwnCompletion(h, k)
      {
        OwnSuccess(h, k);
      }
    } else {
      var i, j :| 0 <= i < j < |ids| && ids[i] == ids[j];
      var h := Misattributed(ids, i, j);
    }
  }
}
