/** The table of connected peers in userspace-nbd/src/ramdisk_urma.c: 32 slots that
    behave as a finite map from peer id to peer. */
module PeerTable {
  import opened Common

  const MAX_PEERS: nat := 32

  /** A buffer identity, the value of `mock_hbm`. */
  type Buf = nat

  datatype Slot = Free | Active(id: nat, va: nat, len: nat, hbm: Buf)

  type Table = seq<Slot>

  /** Active slots have distinct non-zero ids and non-empty segments. */
  ghost predicate WellFormed(t: Table)
  {
    && |t| == MAX_PEERS
    && (forall i :: 0 <= i < |t| && t[i].Active? ==> t[i].id != 0 && t[i].len != 0)
    && (forall i, j :: 0 <= i < j < |t| && t[i].Active? && t[j].Active? ==> t[i].id != t[j].id)
  }

  /** The map the table stands for. */
  ghost function Peers(t: Table): map<nat, Slot>
    requires WellFormed(t)
  {
    map i | 0 <= i < |t| && t[i].Active? :: t[i].id := t[i]
  }

  predicate IsPeer(t: Table, i: nat, id: nat)
  {
    i < |t| && t[i].Active? && t[i].id == id
  }

  /** find_peer_locked from slot `i` on. */
  function FindFrom(t: Table, id: nat, i: nat): (k: Option<nat>)
    requires i <= |t|
    ensures k.Some? ==> i <= k.value < |t| && IsPeer(t, k.value, id)
    ensures k.None? ==> forall j :: i <= j < |t| ==> !IsPeer(t, j, id)
    decreases |t| - i
  {
    if i == |t| then None else if IsPeer(t, i, id) then Some(i) else FindFrom(t, id, i + 1)
  }

  function Find(t: Table, id: nat): Option<nat>
  {
    FindFrom(t, id, 0)
  }

  /** The first free slot from `i` on. */
  function FreeFrom(t: Table, i: nat): (k: Option<nat>)
    requires i <= |t|
    ensures k.Some? ==> i <= k.value < |t| && t[k.value].Free?
    ensures k.None? ==> forall j :: i <= j < |t| ==> !t[j].Free?
    decreases |t| - i
  {
    if i == |t| then None else if t[i].Free? then Some(i) else FreeFrom(t, i + 1)
  }

  function FreeSlot(t: Table): Option<nat>
  {
    FreeFrom(t, 0)
  }

  function CountFrom(t: Table, i: nat): nat
    requires i <= |t|
    decreases |t| - i
  {
    if i == |t| then 0 else (if t[i].Active? then 1 else 0) + CountFrom(t, i + 1)
  }

  function NoPeers(): Table
  {
    seq(MAX_PEERS, _ => Free)
  }

  lemma FindIsLookup(t: Table, id: nat)
    requires WellFormed(t)
    ensures Find(t, id).Some? <==> id in Peers(t)
    ensures Find(t, id).Some? ==> t[Find(t, id).value] == Peers(t)[id]
  {
    if id in Peers(t) {
      var i :| 0 <= i < |t| && t[i].Active? && t[i].id == id;
      assert IsPeer(t, i, id);
    }
  }

  lemma InsertIsUpdate(t: Table, i: nat, p: Slot)
    requires WellFormed(t) && i < |t| && t[i].Free?
    requires p.Active? && p.id != 0 && p.len != 0 && p.id !in Peers(t)
    ensures WellFormed(t[i := p]) && Peers(t[i := p]) == Peers(t)[p.id := p]
  {
    var u := t[i := p];
    forall k | 0 <= k < |t| && t[k].Active? ensures t[k].id != p.id {
      assert t[k].id in Peers(t);
    }
    assert WellFormed(u);
    forall id ensures id in Peers(u) <==> id in Peers(t)[p.id := p] {
      if id in Peers(t) {
        var k :| 0 <= k < |t| && t[k].Active? && t[k].id == id;
        assert u[k] == t[k];
      }
      assert u[i] == p;
    }
  }

  lemma RemoveIsDelete(t: Table, i: nat)
    requires WellFormed(t) && i < |t| && t[i].Active?
    ensures WellFormed(t[i := Free]) && Peers(t[i := Free]) == Peers(t) - {t[i].id}
  {
    var u := t[i := Free];
    assert WellFormed(u);
    forall id ensures id in Peers(u) <==> id in Peers(t) - {t[i].id} {
      if id in Peers(t) && id != t[i].id {
        var k :| 0 <= k < |t| && t[k].Active? && t[k].id == id;
        assert u[k] == t[k];
      }
    }
  }

  // --------------------------------------------------------------------- size

  ghost function IdsFrom(t: Table, i: nat): set<nat>
    requires i <= |t|
  {
    set k | i <= k < |t| && t[k].Active? :: t[k].id
  }

  lemma {:induction false} CountIds(t: Table, i: nat)
    requires WellFormed(t) && i <= |t|
    ensures CountFrom(t, i) == |IdsFrom(t, i)| && CountFrom(t, i) <= |t| - i
    ensures CountFrom(t, i) == |t| - i <==> forall k :: i <= k < |t| ==> t[k].Active?
    decreases |t| - i
  {
    if i < |t| {
      CountIds(t, i + 1);
      IdsStep(t, i);
    }
  }

  lemma IdsStep(t: Table, i: nat)
    requires WellFormed(t) && i < |t|
    ensures |IdsFrom(t, i)| == |IdsFrom(t, i + 1)| + if t[i].Active? then 1 else 0
  {
    if t[i].Active? {
      IdsMore(t, i);
    } else {
      IdsSame(t, i);
    }
  }

  lemma IdsMore(t: Table, i: nat)
    requires WellFormed(t) && i < |t| && t[i].Active?
    ensures t[i].id !in IdsFrom(t, i + 1) && IdsFrom(t, i) == IdsFrom(t, i + 1) + {t[i].id}
  {
    forall id ensures id in IdsFrom(t, i) <==> id in IdsFrom(t, i + 1) + {t[i].id} {
      if id in IdsFrom(t, i) {
        var k :| i <= k < |t| && t[k].Active? && t[k].id == id;
      }
    }
  }

  lemma IdsSame(t: Table, i: nat)
    requires i < |t| && t[i].Free?
    ensures IdsFrom(t, i) == IdsFrom(t, i + 1)
  {
    forall id ensures id in IdsFrom(t, i) <==> id in IdsFrom(t, i + 1) {
      if id in IdsFrom(t, i) {
        var k :| i <= k < |t| && t[k].Active? && t[k].id == id;
      }
    }
  }

  /** The number of active slots is the size of the map. */
  lemma CountIsSize(t: Table)
    requires WellFormed(t)
    ensures CountFrom(t, 0) == |Peers(t)| <= MAX_PEERS
    ensures FreeSlot(t).None? <==> |Peers(t)| == MAX_PEERS
  {
    CountIds(t, 0);
    forall id ensures id in IdsFrom(t, 0) <==> id in Peers(t) {
    }
    assert IdsFrom(t, 0) == Peers(t).Keys;
  }

  // ----------------------------------------------------------------- the code

  class PeerArray {
    const peers: array<Slot>

    ghost predicate Valid()
      reads peers
    {
      WellFormed(peers[..])
    }

    constructor ()
      ensures Valid() && fresh(peers) && Peers(peers[..]) == map[] && peers[..] == NoPeers()
    {
      peers := new Slot[MAX_PEERS](_ => Free);
    }

    /** find_peer_locked. */
    method FindPeer(id: nat) returns (k: Option<nat>)
      requires Valid()
      ensures k == Find(peers[..], id)
    {
      var i := 0;
      while i < peers.Length
        invariant 0 <= i <= peers.Length
        invariant Find(peers[..], id) == FindFrom(peers[..], id, i)
      {
        if peers[i].Active? && peers[i].id == id {
          return Some(i);
        }
        i := i + 1;
      }
      k := None;
    }

    method FindFree() returns (k: Option<nat>)
      requires Valid()
      ensures k == FreeSlot(peers[..])
    {
      var i := 0;
      while i < peers.Length
        invariant 0 <= i <= peers.Length
        invariant FreeSlot(peers[..]) == FreeFrom(peers[..], i)
      {
        if peers[i].Free? {
          return Some(i);
        }
        i := i + 1;
      }
      k := None;
    }

    /** The critical section of ramdisk_urma_peer_connect. */
    method Connect(enabled: bool, p: Slot) returns (rc: int)
      requires Valid() && p.Active? && p.id != 0 && p.len != 0
      modifies peers
      ensures Valid()
      ensures rc == if !enabled then -EOPNOTSUPP
                    else if p.id in old(Peers(peers[..])) then -EEXIST
                    else if |old(Peers(peers[..]))| == 32 then -ENOSPC
                    else 0
      ensures Peers(peers[..]) == if rc == 0 then old(Peers(peers[..]))[p.id := p] else old(Peers(peers[..]))
      ensures rc == 0 <==> enabled && Find(old(peers[..]), p.id).None? && FreeSlot(old(peers[..])).Some?
      ensures peers[..] == if rc == 0 then old(peers[..])[FreeSlot(old(peers[..])).value := p] else old(peers[..])
    {
      if !enabled {
        return -EOPNOTSUPP;
      }
      FindIsLookup(peers[..], p.id);
      var dup := FindPeer(p.id);
      if dup.Some? {
        return -EEXIST;
      }
      CountIsSize(peers[..]);
      var slot := FindFree();
      if slot.None? {
        return -ENOSPC;
      }
      InsertIsUpdate(peers[..], slot.value, p);
      ghost var after := peers[..][slot.value := p];
      peers[slot.value] := p;
      assert peers[..] == after;
      rc := 0;
    }

    /** The critical section of ramdisk_urma_peer_disconnect; `old` is what it frees. */
    method Disconnect(id: nat) returns (rc: int, gone: Slot)
      requires Valid()
      modifies peers
      ensures Valid()
      ensures rc == if id in old(Peers(peers[..])) then 0 else -ENOENT
      ensures rc == 0 ==> gone == old(Peers(peers[..]))[id]
      ensures rc != 0 ==> gone == Free
      ensures Peers(peers[..]) == old(Peers(peers[..])) - {id}
      ensures var k := Find(old(peers[..]), id);
              peers[..] == if k.Some? then old(peers[..])[k.value := Free] else old(peers[..])
    {
      FindIsLookup(peers[..], id);
      var k := FindPeer(id);
      if k.None? {
        return -ENOENT, Free;
      }
      RemoveIsDelete(peers[..], k.value);
      ghost var after := peers[..][k.value := Free];
      rc, gone := 0, peers[k.value];
      peers[k.value] := Free;
      assert peers[..] == after;
    }

    /** The peer count of ramdisk_urma_fill_status. */
    method Count() returns (n: nat)
      requires Valid()
      ensures n == |Peers(peers[..])|
    {
      CountIsSize(peers[..]);
      n := 0;
      var i := 0;
      while i < peers.Length
        invariant 0 <= i <= peers.Length
        invariant n + CountFrom(peers[..], i) == CountFrom(peers[..], 0)
      {
        if peers[i].Active? {
          n := n + 1;
        }
        i := i + 1;
      }
    }

    /** The loop of ramdisk_urma_mgr_destroy: every buffer of an active slot is freed once. */
    method DestroyAll() returns (freed: seq<Buf>)
      requires Valid()
      modifies peers
      ensures Valid() && Peers(peers[..]) == map[]
      ensures freed == Buffers(old(peers[..]), 0)
      ensures forall b :: multiset(freed)[b] == |Holders(old(peers[..]), 0, b)|
    {
      freed := [];
      ghost var t := peers[..];
      var i := 0;
      while i < peers.Length
        invariant 0 <= i <= peers.Length == |t|
        invariant forall k :: 0 <= k < i ==> peers[k].Free?
        invariant forall k :: i <= k < peers.Length ==> peers[k] == t[k]
        invariant freed + Buffers(t, i) == Buffers(t, 0)
      {
        FreeOne(t, i, freed);
        if peers[i].Active? {
          freed := freed + [peers[i].hbm];
          peers[i] := Free;
        }
        i := i + 1;
      }
      NobodyLeft(peers[..]);
      forall b ensures multiset(freed)[b] == |Holders(t, 0, b)| {
        BuffersOnce(t, 0, b);
      }
    }
  }

  /** The active slots from `i` on that hold buffer b. */
  ghost function Holders(t: Table, i: nat, b: Buf): set<nat>
    requires i <= |t|
  {
    set k | i <= k < |t| && t[k].Active? && t[k].hbm == b
  }

  /** How many slots from `i` on hold b. */
  ghost function HoldCount(t: Table, i: nat, b: Buf): nat
    requires i <= |t|
    decreases |t| - i
  {
    if i == |t| then 0 else (if t[i].Active? && t[i].hbm == b then 1 else 0) + HoldCount(t, i + 1, b)
  }

  lemma {:induction false} ListedCount(t: Table, i: nat, b: Buf)
    requires i <= |t|
    ensures multiset(Buffers(t, i))[b] == HoldCount(t, i, b)
    decreases |t| - i
  {
    if i < |t| {
      ListedCount(t, i + 1, b);
      if t[i].Active? {
        OneMore(t[i].hbm, Buffers(t, i + 1), b);
      }
    }
  }

  lemma OneMore(first: Buf, rest: seq<Buf>, b: Buf)
    ensures multiset([first] + rest)[b] == multiset(rest)[b] + if first == b then 1 else 0
  {
  }

  lemma {:induction false} HoldersCount(t: Table, i: nat, b: Buf)
    requires i <= |t|
    ensures |Holders(t, i, b)| == HoldCount(t, i, b)
    decreases |t| - i
  {
    if i < |t| {
      HoldersCount(t, i + 1, b);
      HoldersStep(t, i, b);
    }
  }

  /** A buffer is listed as often as slots hold it: once for its slot, else never. */
  lemma BuffersOnce(t: Table, i: nat, b: Buf)
    requires i <= |t|
    ensures multiset(Buffers(t, i))[b] == |Holders(t, i, b)|
  {
    ListedCount(t, i, b);
    HoldersCount(t, i, b);
  }

  lemma HoldersStep(t: Table, i: nat, b: Buf)
    requires i < |t|
    ensures |Holders(t, i, b)| == |Holders(t, i + 1, b)| + if t[i].Active? && t[i].hbm == b then 1 else 0
  {
    if t[i].Active? && t[i].hbm == b {
      assert Holders(t, i, b) == Holders(t, i + 1, b) + {i};
    } else {
      assert Holders(t, i, b) == Holders(t, i + 1, b);
    }
  }

  lemma FreeOne(t: Table, i: nat, freed: seq<Buf>)
    requires i < |t|
    ensures freed + Buffers(t, i) == (if t[i].Active? then freed + [t[i].hbm] else freed) + Buffers(t, i + 1)
  {
  }

  lemma NobodyLeft(t: Table)
    requires |t| == MAX_PEERS && forall k :: 0 <= k < |t| ==> t[k].Free?
    ensures WellFormed(t) && Peers(t) == map[]
  {
  }

  /** The buffers of the active slots from `i` on. */
  ghost function Buffers(t: Table, i: nat): seq<Buf>
    requires i <= |t|
    decreases |t| - i
  {
    if i == |t| then []
    else if t[i].Active? then [t[i].hbm] + Buffers(t, i + 1)
    else Buffers(t, i + 1)
  }
}
