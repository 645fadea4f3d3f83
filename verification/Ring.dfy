/** The bounded ring of request pointers in userspace-nbd/src/ramdisk_urma.c. */
module Ring {
  import opened Common

  /** queue, head, tail and pending of struct ramdisk_urma_mgr. */
  datatype Ring = Ring(slots: seq<Option<nat>>, head: nat, tail: nat, pending: nat)

  function Empty(depth: nat): Ring
  {
    Ring(seq(depth, _ => None), 0, 0, 0)
  }

  /** The slot `i` places after the head. */
  function At(r: Ring, i: nat): nat
    requires |r.slots| > 0
  {
    (r.head + i) % |r.slots|
  }

  /** Exactly the `pending` slots from the head on are occupied. */
  ghost predicate Valid(r: Ring)
  {
    && 0 < |r.slots|
    && r.head < |r.slots|
    && r.pending <= |r.slots|
    && r.tail == (r.head + r.pending) % |r.slots|
    && (forall i :: 0 <= i < r.pending ==> r.slots[At(r, i)].Some?)
    && (forall i :: r.pending <= i < |r.slots| ==> r.slots[At(r, i)].None?)
  }

  /** The queued requests, oldest first. */
  function Contents(r: Ring): (c: seq<nat>)
    requires Valid(r)
    ensures |c| == r.pending
  {
    seq(r.pending, i requires 0 <= i < r.pending => r.slots[At(r, i)].value)
  }

  /** Lines 990-992: store at the tail. */
  function Put(r: Ring, x: nat): Ring
    requires r.tail < |r.slots|
  {
    Ring(r.slots[r.tail := Some(x)], r.head, (r.tail + 1) % |r.slots|, r.pending + 1)
  }

  /** Lines 679-682: clear the head slot. */
  function Take(r: Ring): Ring
    requires r.head < |r.slots| && r.pending > 0
  {
    Ring(r.slots[r.head := None], (r.head + 1) % |r.slots|, r.tail, r.pending - 1)
  }

  lemma Wrap(a: nat, n: nat)
    requires 0 < n && a < 2 * n
    ensures a % n == if a < n then a else a - n
  {
    if a >= n {
      assert a == n + (a - n);
    }
  }

  /** Different places are different slots, and every slot is some place. */
  lemma AtUnfold(r: Ring, i: nat)
    requires r.head < |r.slots| && i <= |r.slots|
    ensures At(r, i) == if r.head + i < |r.slots| then r.head + i else r.head + i - |r.slots|
  {
    Wrap(r.head + i, |r.slots|);
  }

  lemma PutContents(r: Ring, x: nat)
    requires Valid(r) && r.pending < |r.slots|
    ensures Valid(Put(r, x)) && Contents(Put(r, x)) == Contents(r) + [x]
  {
    var n := |r.slots|;
    var p := Put(r, x);
    AtUnfold(r, r.pending);
    AtUnfold(r, r.pending + 1);
    Wrap(r.tail + 1, n);
    forall i | 0 <= i < n
      ensures At(p, i) == At(r, i) && (At(r, i) == r.tail <==> i == r.pending)
    {
      AtUnfold(r, i);
    }
  }

  lemma TakeContents(r: Ring)
    requires Valid(r) && r.pending > 0
    ensures r.slots[r.head].Some? && r.slots[r.head].value == Contents(r)[0]
    ensures Valid(Take(r)) && Contents(Take(r)) == Contents(r)[1..]
  {
    var n := |r.slots|;
    var t := Take(r);
    AtUnfold(r, 0);
    AtUnfold(r, 1);
    AtUnfold(r, r.pending);
    AtUnfold(t, t.pending);
    AtUnfold(t, n - 1);
    forall i | 0 <= i < n - 1
      ensures At(t, i) == At(r, i + 1) && At(r, i + 1) != r.head
    {
      AtUnfold(r, i + 1);
      AtUnfold(t, i);
    }
    assert At(t, n - 1) == r.head;
  }

  lemma EmptyValid(depth: nat)
    requires depth > 0
    ensures Valid(Empty(depth)) && Contents(Empty(depth)) == []
  {
    forall i | 0 <= i < depth ensures At(Empty(depth), i) == i {
      AtUnfold(Empty(depth), i);
    }
  }

  /** The ring as the manager keeps it: an array of slots and three counters. */
  class RequestRing {
    const queue: array<Option<nat>>
    var head: nat
    var tail: nat
    var pending: nat

    ghost function View(): Ring
      reads this, queue
    {
      Ring(queue[..], head, tail, pending)
    }

    constructor (depth: nat)
      requires depth > 0
      ensures Valid(View()) && Contents(View()) == [] && View() == Empty(depth)
      ensures fresh(queue) && queue.Length == depth
    {
      queue := new Option<nat>[depth](_ => None);
      head, tail, pending := 0, 0, 0;
      new;
      EmptyValid(depth);
      assert queue[..] == Empty(depth).slots;
    }

    /** The enqueue of ramdisk_urma_transfer_sync: a full ring refuses. */
    method Enqueue(x: nat) returns (rc: int)
      requires Valid(View())
      modifies this, queue
      ensures Valid(View())
      ensures rc == if |Contents(old(View()))| == queue.Length then -EBUSY else 0
      ensures Contents(View()) == if rc == 0 then Contents(old(View())) + [x] else Contents(old(View()))
      ensures View() == if rc == 0 then Put(old(View()), x) else old(View())
    {
      if pending >= queue.Length {
        return -EBUSY;
      }
      ghost var before := View();
      PutContents(before, x);
      queue[tail] := Some(x);
      tail := (tail + 1) % queue.Length;
      pending := pending + 1;
      assert View() == Put(before, x);
      rc := 0;
    }

    /** The dequeue of urma_worker_main. */
    method Dequeue() returns (x: nat)
      requires Valid(View()) && pending > 0
      modifies this, queue
      ensures Valid(View())
      ensures [x] + Contents(View()) == Contents(old(View()))
      ensures View() == Take(old(View())) && old(queue[head]) == Some(x)
    {
      ghost var before := View();
      TakeContents(before);
      x := queue[head].value;
      queue[head] := None;
      head := (head + 1) % queue.Length;
      pending := pending - 1;
      assert View() == Take(before);
    }
  }
}
