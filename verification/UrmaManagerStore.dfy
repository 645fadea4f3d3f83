/** Peer table and buffer ownership of the URMA manager, over every run. */
module UrmaManagerStore {
  import opened Common
  import opened UrmaManager
  import P = PeerTable

  /** The buffer a control call has in its hands. */
  function HeldBuf(a: AdminPc): Option<P.Buf>
  {
    match a
    case Connecting(p) => if p.Active? then Some(p.hbm) else None
    case Freeing(b) => Some(b)
  }

  ghost predicate SlotsOwn(table: P.Table, owner: map<P.Buf, Owner>)
  {
    forall i :: 0 <= i < |table| && table[i].Active? ==> table[i].hbm in owner && owner[table[i].hbm] == InSlot(i)
  }

  ghost predicate CallsOwn(admins: map<Tid, AdminPc>, owner: map<P.Buf, Owner>)
  {
    forall t :: t in admins && HeldBuf(admins[t]).Some? ==>
      HeldBuf(admins[t]).value in owner && owner[HeldBuf(admins[t]).value] == InCall(t)
  }

  /** b belongs to exactly the place `owner` names. */
  ghost predicate OwnedThere(b: P.Buf, o: Owner, table: P.Table, admins: map<Tid, AdminPc>)
  {
    match o
    case InSlot(i) => i < |table| && table[i].Active? && table[i].hbm == b
    case InCall(t) => t in admins && HeldBuf(admins[t]) == Some(b)
  }

  ghost predicate NoLeak(st: Store)
  {
    forall b :: b in st.owner ==> b < st.nextBuf && OwnedThere(b, st.owner[b], st.table, st.admins)
  }

  /** Buffers of peers, connected or being connected, have the segment's length. */
  ghost predicate Sized(table: P.Table, admins: map<Tid, AdminPc>, hbm: map<P.Buf, seq<Byte>>)
  {
    && (forall i :: 0 <= i < |table| && table[i].Active? ==>
          table[i].hbm in hbm && |hbm[table[i].hbm]| == table[i].len)
    && (forall t :: t in admins && admins[t].Connecting? ==>
          && admins[t].p.Active? && admins[t].p.id != 0 && admins[t].p.len != 0
          && admins[t].p.hbm in hbm && |hbm[admins[t].p.hbm]| == admins[t].p.len)
  }

  ghost predicate Inv(st: Store, size: nat)
  {
    && P.WellFormed(st.table)
    && |st.mem.disk| == size
    && st.owner.Keys == st.mem.hbm.Keys
    && SlotsOwn(st.table, st.owner) && CallsOwn(st.admins, st.owner) && NoLeak(st)
    && Sized(st.table, st.admins, st.mem.hbm)
  }

  lemma AllocKeeps(st: Store, size: nat, t: Tid, id: nat, va: nat, len: nat, st': Store)
    requires Inv(st, size) && DoConnectAlloc(st, t, id, va, len) == Some(st')
    ensures Inv(st', size)
  {
    assert st.nextBuf !in st.owner;
  }

  /** A buffer moves from the call of t into slot i. */
  lemma InstallOwns(st: Store, size: nat, t: Tid, i: nat)
    requires Inv(st, size) && t in st.admins && st.admins[t].Connecting?
    requires i < |st.table| && st.table[i].Free?
    ensures var p := st.admins[t].p; var owner := st.owner[p.hbm := InSlot(i)];
            SlotsOwn(st.table[i := p], owner) && CallsOwn(st.admins - {t}, owner)
  {
    assert HeldBuf(st.admins[t]) == Some(st.admins[t].p.hbm);
  }

  lemma InstallNoLeak(st: Store, size: nat, t: Tid, i: nat, log: seq<Op>)
    requires Inv(st, size) && t in st.admins && st.admins[t].Connecting?
    requires i < |st.table| && st.table[i].Free?
    ensures var p := st.admins[t].p;
            NoLeak(st.(admins := st.admins - {t}, table := st.table[i := p], owner := st.owner[p.hbm := InSlot(i)],
                       log := log))
  {
    assert HeldBuf(st.admins[t]) == Some(st.admins[t].p.hbm);
  }

  lemma InsertKeeps(st: Store, size: nat, enabled: bool, t: Tid, st': Store)
    requires Inv(st, size) && DoConnectInsert(st, enabled, t) == Some(st')
    ensures Inv(st', size)
  {
    var p := st.admins[t].p;
    P.FindIsLookup(st.table, p.id);
    if !enabled || P.Find(st.table, p.id).Some? || P.FreeSlot(st.table).None? {
      GiveUp(st, size, t);
    } else {
      var i := P.FreeSlot(st.table).value;
      P.InsertIsUpdate(st.table, i, p);
      InstallOwns(st, size, t, i);
      InstallNoLeak(st, size, t, i, st'.log);
    }
  }

  lemma GiveUp(st: Store, size: nat, t: Tid)
    requires Inv(st, size) && t in st.admins && st.admins[t].Connecting?
    ensures Inv(st.(admins := st.admins[t := Freeing(st.admins[t].p.hbm)]), size)
  {
    assert HeldBuf(st.admins[t]) == Some(st.admins[t].p.hbm);
  }

  /** A buffer moves from slot i into the call of t. */
  lemma RemoveOwns(st: Store, size: nat, t: Tid, i: nat)
    requires Inv(st, size) && t !in st.admins && i < |st.table| && st.table[i].Active?
    ensures var b := st.table[i].hbm; var owner := st.owner[b := InCall(t)];
            SlotsOwn(st.table[i := P.Free], owner) && CallsOwn(st.admins[t := Freeing(b)], owner)
  {
  }

  lemma RemoveNoLeak(st: Store, size: nat, t: Tid, i: nat, log: seq<Op>)
    requires Inv(st, size) && t !in st.admins && i < |st.table| && st.table[i].Active?
    ensures var b := st.table[i].hbm;
            NoLeak(st.(table := st.table[i := P.Free], admins := st.admins[t := Freeing(b)],
                       owner := st.owner[b := InCall(t)], log := log))
  {
  }

  lemma DisconnectKeeps(st: Store, size: nat, t: Tid, id: nat, st': Store)
    requires Inv(st, size) && DoDisconnect(st, t, id) == Some(st')
    ensures Inv(st', size)
  {
    if P.Find(st.table, id).Some? {
      var i := P.Find(st.table, id).value;
      P.RemoveIsDelete(st.table, i);
      RemoveOwns(st, size, t, i);
      RemoveNoLeak(st, size, t, i, st'.log);
    }
  }

  lemma FreeKeeps(st: Store, size: nat, t: Tid, st': Store)
    requires Inv(st, size) && DoFree(st, t) == Some(st')
    ensures Inv(st', size)
  {
  }

  lemma DestroyKeeps(st: Store, size: nat, st': Store)
    requires Inv(st, size) && DoDestroy(st) == Some(st')
    ensures Inv(st', size) && st'.mem.hbm == map[]
  {
    forall b | b in st.owner ensures b in Buffers(st.table) {
      assert OwnedThere(b, st.owner[b], st.table, st.admins);
    }
  }

  lemma DiskWriteKeeps(st: Store, size: nat, off: nat, data: seq<Byte>, st': Store)
    requires Inv(st, size) && DoDiskWrite(st, off, data) == Some(st')
    ensures Inv(st', size)
  {
  }

  lemma PokeKeeps(st: Store, size: nat, id: nat, addr: nat, data: seq<Byte>, st': Store)
    requires Inv(st, size) && DoPoke(st, id, addr, data) == Some(st')
    ensures Inv(st', size)
  {
  }

  lemma ReshapeKeeps(st: Store, size: nat, m: Memory, log: seq<Op>)
    requires Inv(st, size) && SameShape(st.mem, m)
    ensures Inv(st.(mem := m, log := log), size)
  {
  }

  lemma TransferKeeps(st: Store, size: nat, rid: Rid, req: Request, slot: nat, junk: Memory, st': Store)
    requires slot < |st.table| && st.table[slot].Active?
    requires Inv(st, size) && Transfer(st, rid, req, slot, junk) == Some(st')
    ensures Inv(st', size) && st'.table == st.table && SameShape(st.mem, st'.mem)
  {
    ReshapeKeeps(st, size, st'.mem, st'.log);
  }

  lemma StoreStep(st: Store, size: nat, enabled: bool, e: Event, st': Store)
    requires Inv(st, size) && StoreEvent(e) && NextStore(st, enabled, e) == Some(st')
    ensures Inv(st', size)
  {
    match e
    case ConnectAlloc(t, id, va, len) => AllocKeeps(st, size, t, id, va, len, st');
    case ConnectInsert(t) => InsertKeeps(st, size, enabled, t, st');
    case DisconnectClear(t, id) => DisconnectKeeps(st, size, t, id, st');
    case Free(t) => FreeKeeps(st, size, t, st');
    case DestroyPeers => DestroyKeeps(st, size, st');
    case DiskWrite(off, data) => DiskWriteKeeps(st, size, off, data, st');
    case Poke(id, addr, data) => PokeKeeps(st, size, id, addr, data, st');
  }

  /** Only the transfer and the control calls touch the store. */
  lemma StoreFrame(s: State, e: Event, s': State)
    requires !StoreEvent(e) && !e.Exec? && Next(s, e) == Some(s')
    ensures s'.st == s.st
  {
  }

  lemma InvStep(s: State, e: Event, s': State)
    requires Inv(s.st, s.cfg.size) && Next(s, e) == Some(s')
    ensures Inv(s'.st, s.cfg.size)
  {
    if StoreEvent(e) {
      StoreStep(s.st, s.cfg.size, s.enabled, e, s'.st);
    } else if e.Exec? {
      if s'.st != s.st {
        TransferKeeps(s.st, s.cfg.size, s.tr.worker.rid, s.tr.reqs[s.tr.worker.rid], s.tr.worker.slot, e.junk, s'.st);
      }
    } else {
      StoreFrame(s, e, s');
    }
  }
}
