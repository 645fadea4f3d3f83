/** userspace-nbd/src/ramdisk_backend.c: the shared block of memory and its lock. */
module Backend {
  import opened Common

  // ---------------------------------------------------------------- block sizes

  /** is_power_of_two and the bounds of validate_block_size, on 32-bit values. */
  predicate BlockSizeOk(v: bv32)
  {
    v != 0 && v & (v - 1) == 0 && 512 <= v <= 0x10_0000
  }

  /** Exactly the powers of two from 512 to a megabyte pass. */
  lemma BlockSizes(v: bv32)
    ensures BlockSizeOk(v) <==>
            v == 0x200 || v == 0x400 || v == 0x800 || v == 0x1000 || v == 0x2000 || v == 0x4000
            || v == 0x8000 || v == 0x1_0000 || v == 0x2_0000 || v == 0x4_0000 || v == 0x8_0000 || v == 0x10_0000
  {
  }

  // ------------------------------------------------------------------- the code

  /** ramdisk_backend_validate_range. */
  function RangeRc(size: nat, off: nat, len: nat): (rc: int)
    ensures rc == if off + len <= size then 0 else -ERANGE
  {
    if off > size then -ERANGE else if len > size - off then -ERANGE else 0
  }

  class RamdiskBackend {
    const base: array<Byte>

    constructor (size: nat)
      ensures fresh(base) && base[..] == Zeros(size)
    {
      base := new Byte[size](_ => 0);
    }

    method Read(off: nat, len: nat) returns (rc: int, data: seq<Byte>)
      ensures rc == RangeRc(base.Length, off, len)
      ensures data == if rc == 0 then base[off..off + len] else []
    {
      rc, data := RangeRc(base.Length, off, len), [];
      if rc != 0 {
        return;
      }
      var i := 0;
      while i < len
        invariant 0 <= i <= len && data == base[off..off + i]
      {
        data := data + [base[off + i]];
        i := i + 1;
      }
    }

    method Write(off: nat, data: seq<Byte>) returns (rc: int)
      modifies base
      ensures rc == RangeRc(base.Length, off, |data|)
      ensures base[..] == if rc == 0 then Overwrite(old(base[..]), off, data) else old(base[..])
    {
      rc := RangeRc(base.Length, off, |data|);
      if rc != 0 {
        return;
      }
      var i := 0;
      while i < |data|
        invariant 0 <= i <= |data|
        invariant base[..] == Overwrite(old(base[..]), off, data[..i])
      {
        base[off + i] := data[i];
        i := i + 1;
      }
      assert data[..|data|] == data;
    }

    method Zero(off: nat, len: nat) returns (rc: int)
      modifies base
      ensures rc == RangeRc(base.Length, off, len)
      ensures base[..] == if rc == 0 then Overwrite(old(base[..]), off, Zeros(len)) else old(base[..])
    {
      rc := RangeRc(base.Length, off, len);
      if rc != 0 {
        return;
      }
      var i := 0;
      while i < len
        invariant 0 <= i <= len
        invariant base[..] == Overwrite(old(base[..]), off, Zeros(i))
      {
        base[off + i] := 0;
        i := i + 1;
      }
    }
  }
}

/** The NBD path and the URMA worker share the backend. Each operation copies byte
    by byte under the backend lock; threads interleave freely. */
module BackendAtomicity {
  import opened Common

  type Tid = nat

  /** NBD read, write and zero, and the two directions of execute_mock_xfer. */
  datatype Op =
    | Read(off: nat, len: nat)
    | Write(off: nat, data: seq<Byte>)
    | Zero(off: nat, len: nat)
    | ToHbm(buf: nat, at: nat, off: nat, len: nat)
    | FromHbm(buf: nat, at: nat, off: nat, len: nat)

  /** `done` bytes copied so far; `got` is what a read has delivered. */
  datatype Holder = Holder(t: Tid, op: Op, done: nat, got: seq<Byte>)

  datatype Entry = Entry(t: Tid, op: Op, got: seq<Byte>)

  /** `waiting`: threads that have validated their range and want the lock. */
  datatype State = State(mem: Memory, waiting: map<Tid, Op>, lock: Option<Holder>, log: seq<Entry>)

  datatype Event = Arrive(t: Tid, op: Op) | Acquire(t: Tid) | CopyByte | Release

  function Size(op: Op): nat
  {
    match op
    case Write(_, data) => |data|
    case _ => op.len
  }

  /** The range checks made before the lock is taken. */
  predicate Fits(m: Memory, op: Op)
  {
    && op.off + Size(op) <= |m.disk|
    && (op.ToHbm? || op.FromHbm? ==> op.buf in m.hbm && op.at + op.len <= |m.hbm[op.buf]|)
  }

  /** The i-th byte to copy. */
  function Source(m: Memory, op: Op, i: nat): Byte
    requires Fits(m, op) && i < Size(op)
  {
    match op
    case Read(off, _) => m.disk[off + i]
    case Write(_, data) => data[i]
    case Zero(_, _) => 0
    case ToHbm(_, _, off, _) => m.disk[off + i]
    case FromHbm(buf, at, _, _) => m.hbm[buf][at + i]
  }

  function PutByte(m: Memory, op: Op, i: nat, b: Byte): Memory
    requires Fits(m, op) && i < Size(op)
  {
    match op
    case Read(_, _) => m
    case ToHbm(buf, at, _, _) =>
      var bytes: seq<Byte> := m.hbm[buf][at + i := b];
      m.(hbm := m.hbm[buf := bytes])
    case _ => m.(disk := m.disk[op.off + i := b])
  }

  function Next(s: State, e: Event): Option<State>
  {
    match e
    case Arrive(t, op) =>
      if t in s.waiting || !Fits(s.mem, op) then None else Some(s.(waiting := s.waiting[t := op]))
    case Acquire(t) =>
      if t !in s.waiting || s.lock.Some? then None
      else Some(s.(waiting := s.waiting - {t}, lock := Some(Holder(t, s.waiting[t], 0, []))))
    case CopyByte =>
      if s.lock.None? || !Fits(s.mem, s.lock.value.op) || s.lock.value.done >= Size(s.lock.value.op) then None
      else
        var h := s.lock.value;
        var b := Source(s.mem, h.op, h.done);
        Some(s.(mem := PutByte(s.mem, h.op, h.done, b),
                lock := Some(h.(done := h.done + 1, got := if h.op.Read? then h.got + [b] else []))))
    case Release =>
      if s.lock.None? || s.lock.value.done != Size(s.lock.value.op) then None
      else
        var h := s.lock.value;
        Some(s.(lock := None, log := s.log + [Entry(h.t, h.op, h.got)]))
  }

  function Run(s: State, es: seq<Event>): Option<State>
  {
    if es == [] then Some(s)
    else
      match Run(s, es[..|es| - 1])
      case None => None
      case Some(m) => Next(m, es[|es| - 1])
  }

  // --------------------------------------------------------- sequential meaning

  /** The whole operation at once. */
  function Do(m: Memory, op: Op): Memory
    requires Fits(m, op)
  {
    match op
    case Read(_, _) => m
    case Write(off, data) => m.(disk := Overwrite(m.disk, off, data))
    case Zero(off, len) => m.(disk := Overwrite(m.disk, off, Zeros(len)))
    case ToHbm(buf, at, off, len) =>
      m.(hbm := m.hbm[buf := Overwrite(m.hbm[buf], at, m.disk[off..off + len])])
    case FromHbm(buf, at, off, len) => m.(disk := Overwrite(m.disk, off, m.hbm[buf][at..at + len]))
  }

  function Answer(m: Memory, op: Op): seq<Byte>
    requires Fits(m, op)
  {
    if op.Read? then m.disk[op.off..op.off + op.len] else []
  }

  /** The operations of the log one after the other. */
  ghost function Replay(m: Memory, log: seq<Entry>): Memory
  {
    if log == [] then m
    else
      var before := Replay(m, log[..|log| - 1]);
      if Fits(before, log[|log| - 1].op) then Do(before, log[|log| - 1].op) else before
  }

  // -------------------------------------------------------------------- proof

  /** The first i bytes of an operation. */
  function Prefix(op: Op, i: nat): Op
    requires i <= Size(op)
  {
    match op
    case Read(off, _) => Read(off, i)
    case Write(off, data) => Write(off, data[..i])
    case Zero(off, _) => Zero(off, i)
    case ToHbm(buf, at, off, _) => ToHbm(buf, at, off, i)
    case FromHbm(buf, at, off, _) => FromHbm(buf, at, off, i)
  }

  lemma DoShape(m: Memory, op: Op)
    requires Fits(m, op)
    ensures SameShape(m, Do(m, op))
  {
  }

  lemma FitsShape(m: Memory, n: Memory, op: Op)
    requires SameShape(m, n) && Fits(m, op)
    ensures Fits(n, op)
  {
  }

  lemma OverwriteByte(dst: seq<Byte>, off: nat, data: seq<Byte>, i: nat)
    requires off + |data| <= |dst| && i < |data|
    ensures Overwrite(dst, off, data[..i])[off + i := data[i]] == Overwrite(dst, off, data[..i + 1])
  {
  }

  lemma OneMoreByte(dst: seq<Byte>, to: nat, src: seq<Byte>, from: nat, len: nat, i: nat)
    requires to + len <= |dst| && from + len <= |src| && i < len
    ensures Overwrite(dst, to, src[from..from + i])[to + i := src[from + i]] ==
            Overwrite(dst, to, src[from..from + (i + 1)])
  {
    var data := src[from..from + len];
    OverwriteByte(dst, to, data, i);
    assert data[..i] == src[from..from + i] && data[..i + 1] == src[from..from + (i + 1)];
  }

  lemma Again(hbm: map<nat, seq<Byte>>, buf: nat, bytes: seq<Byte>, more: seq<Byte>)
    requires buf in hbm
    ensures hbm[buf := bytes][buf] == bytes && hbm[buf := bytes].Keys == hbm.Keys
    ensures hbm[buf := bytes][buf := more] == hbm[buf := more]
  {
  }

  /** Copying byte i extends what i bytes did to what i + 1 bytes do. */
  ghost predicate Extends(m: Memory, op: Op, i: nat)
    requires Fits(m, op) && i < Size(op)
  {
    var p := Do(m, Prefix(op, i));
    && Fits(p, op)
    && Source(p, op, i) == Source(m, op, i)
    && PutByte(p, op, i, Source(m, op, i)) == Do(m, Prefix(op, i + 1))
  }

  lemma ByteWritten(m: Memory, op: Op, i: nat)
    requires Fits(m, op) && i < Size(op) && (op.Write? || op.Zero?)
    ensures Extends(m, op, i)
  {
    var data := if op.Write? then op.data else Zeros(op.len);
    OverwriteByte(m.disk, op.off, data, i);
    assert op.Zero? ==> data[..i] == Zeros(i) && data[..i + 1] == Zeros(i + 1);
  }

  lemma ByteToHbm(m: Memory, op: Op, i: nat)
    requires Fits(m, op) && i < Size(op) && op.ToHbm?
    ensures Extends(m, op, i)
  {
    OneMoreByte(m.hbm[op.buf], op.at, m.disk, op.off, op.len, i);
    Again(m.hbm, op.buf, Overwrite(m.hbm[op.buf], op.at, m.disk[op.off..op.off + i]),
          Overwrite(m.hbm[op.buf], op.at, m.disk[op.off..op.off + (i + 1)]));
  }

  lemma ByteFromHbm(m: Memory, op: Op, i: nat)
    requires Fits(m, op) && i < Size(op) && op.FromHbm?
    ensures Extends(m, op, i)
  {
    var bytes := m.hbm[op.buf];
    OneMoreByte(m.disk, op.off, bytes, op.at, op.len, i);
    var p := m.(disk := Overwrite(m.disk, op.off, bytes[op.at..op.at + i]));
    assert Do(m, Prefix(op, i)) == p && Source(p, op, i) == bytes[op.at + i];
  }

  lemma ByteStep(m: Memory, op: Op, i: nat)
    requires Fits(m, op) && i < Size(op)
    ensures Extends(m, op, i)
  {
    match op
    case Read(_, _) =>
    case ToHbm(_, _, _, _) => ByteToHbm(m, op, i);
    case FromHbm(_, _, _, _) => ByteFromHbm(m, op, i);
    case _ => ByteWritten(m, op, i);
  }

  /** Every finished operation could be executed where the log has it, and a read
      delivered what it delivers there. */
  ghost predicate LogOk(m0: Memory, log: seq<Entry>)
  {
    forall i :: 0 <= i < |log| ==> EntryOk(Replay(m0, log[..i]), log[i])
  }

  predicate EntryOk(m: Memory, e: Entry)
  {
    Fits(m, e.op) && e.got == Answer(m, e.op)
  }

  /** With the lock free the memory is m; else m and a part of one operation. */
  ghost predicate LockOk(m: Memory, mem: Memory, lock: Option<Holder>)
  {
    match lock
    case None => mem == m
    case Some(h) =>
      && h.done <= Size(h.op) && Fits(m, h.op)
      && mem == Do(m, Prefix(h.op, h.done)) && h.got == Answer(m, Prefix(h.op, h.done))
  }

  /** Every finished operation did, in lock order, what it does alone. */
  ghost predicate Atomic(m0: Memory, s: State)
  {
    && SameShape(m0, Replay(m0, s.log))
    && (forall t <- s.waiting.Keys :: Fits(m0, s.waiting[t]))
    && LogOk(m0, s.log)
    && LockOk(Replay(m0, s.log), s.mem, s.lock)
  }

  lemma CopyLock(m: Memory, mem: Memory, h: Holder)
    requires LockOk(m, mem, Some(h)) && h.done < Size(h.op)
    ensures Fits(mem, h.op)
    ensures var b := Source(mem, h.op, h.done);
            LockOk(m, PutByte(mem, h.op, h.done, b),
                   Some(h.(done := h.done + 1, got := if h.op.Read? then h.got + [b] else [])))
  {
    ByteStep(m, h.op, h.done);
  }

  lemma CopyStep(m0: Memory, s: State, s': State)
    requires Atomic(m0, s) && Next(s, CopyByte) == Some(s')
    ensures Atomic(m0, s')
  {
    CopyLock(Replay(m0, s.log), s.mem, s.lock.value);
  }

  lemma ReleaseStep(m0: Memory, s: State, s': State)
    requires Atomic(m0, s) && Next(s, Release) == Some(s')
    ensures Atomic(m0, s')
  {
    var m := Replay(m0, s.log);
    var h := s.lock.value;
    assert Prefix(h.op, Size(h.op)) == h.op;
    DoShape(m, h.op);
    LogGrows(m0, s.log, Entry(h.t, h.op, h.got));
  }

  lemma LogGrows(m0: Memory, log: seq<Entry>, e: Entry)
    requires LogOk(m0, log) && EntryOk(Replay(m0, log), e)
    ensures LogOk(m0, log + [e]) && Replay(m0, log + [e]) == Do(Replay(m0, log), e.op)
  {
    var more := log + [e];
    assert more[..|log|] == log;
    forall i | 0 <= i < |log| ensures more[..i] == log[..i] {
    }
  }

  lemma AcquireStep(m0: Memory, s: State, t: Tid, s': State)
    requires Atomic(m0, s) && Next(s, Acquire(t)) == Some(s')
    ensures Atomic(m0, s')
  {
    var m := Replay(m0, s.log);
    var op := s.waiting[t];
    FitsShape(m0, m, op);
    NothingYet(m, op);
  }

  lemma NothingYet(m: Memory, op: Op)
    requires Fits(m, op)
    ensures Do(m, Prefix(op, 0)) == m && Answer(m, Prefix(op, 0)) == []
  {
    var p := Do(m, Prefix(op, 0));
    assert p.disk == m.disk;
    if op.ToHbm? {
      assert p.hbm[op.buf] == m.hbm[op.buf];
    }
  }

  lemma ArriveStep(m0: Memory, s: State, t: Tid, op: Op, s': State)
    requires Atomic(m0, s) && Next(s, Arrive(t, op)) == Some(s')
    ensures Atomic(m0, s')
  {
    var m := Replay(m0, s.log);
    if s.lock.Some? {
      DoShape(m, Prefix(s.lock.value.op, s.lock.value.done));
    }
    FitsShape(s.mem, m0, op);
  }

  /** In every interleaving, the memory with the lock free is that of a sequential
      execution in lock order, and so is every read result. */
  lemma {:induction false} LockOrder(m0: Memory, es: seq<Event>, s: State)
    requires Run(State(m0, map[], None, []), es) == Some(s)
    ensures Atomic(m0, s)
    ensures s.lock.None? ==> s.mem == Replay(m0, s.log)
    ensures forall i :: 0 <= i < |s.log| ==> EntryOk(Replay(m0, s.log[..i]), s.log[i])
  {
    if es != [] {
      var last := |es| - 1;
      var m := Run(State(m0, map[], None, []), es[..last]).value;
      LockOrder(m0, es[..last], m);
      match es[last]
      case Arrive(t, op) => ArriveStep(m0, m, t, op, s);
      case Acquire(t) => AcquireStep(m0, m, t, s);
      case CopyByte => CopyStep(m0, m, s);
      case Release => ReleaseStep(m0, m, s);
    }
  }
}
