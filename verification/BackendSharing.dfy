/** Why the steps of the URMA manager's transition system that touch the backend may
    be single steps: byte by byte under the backend lock, they come out the same. */
module BackendSharing {
  import opened Common
  import U = UrmaManager
  import A = BackendAtomicity
  import B = Backend

  function AsXfer(op: A.Op, dir: nat): U.Xfer
    requires op.ToHbm? || op.FromHbm?
  {
    U.Xfer(0, 0, op.off, 0, op.len, dir)
  }

  /** The operation as one step of the manager: its transfer, or its NBD write. */
  function Step(m: Memory, op: A.Op): Memory
    requires A.Fits(m, op)
  {
    match op
    case Read(_, _) => m
    case Write(off, data) => U.DoDiskWrite(U.InitStore([]).(mem := m), off, data).value.mem
    case Zero(off, len) => U.DoDiskWrite(U.InitStore([]).(mem := m), off, Zeros(len)).value.mem
    case ToHbm(buf, at, _, _) => U.Copy(m, AsXfer(op, U.RAMDISK_TO_HBM), buf, at)
    case FromHbm(buf, at, _, _) => U.Copy(m, AsXfer(op, U.HBM_TO_RAMDISK), buf, at)
  }

  lemma StepIsDo(m: Memory, op: A.Op)
    requires A.Fits(m, op)
    ensures Step(m, op) == A.Do(m, op)
  {
  }

  /** The steps of the log one after the other. */
  ghost function Steps(m: Memory, log: seq<A.Entry>): Memory
  {
    if log == [] then m
    else
      var before := Steps(m, log[..|log| - 1]);
      if A.Fits(before, log[|log| - 1].op) then Step(before, log[|log| - 1].op) else before
  }

  lemma {:induction false} StepsReplay(m: Memory, log: seq<A.Entry>)
    ensures Steps(m, log) == A.Replay(m, log)
  {
    if log != [] {
      var before, op := log[..|log| - 1], log[|log| - 1].op;
      StepsReplay(m, before);
      if A.Fits(Steps(m, before), op) {
        StepIsDo(Steps(m, before), op);
      }
    }
  }

  /** Every byte-wise interleaving of NBD calls and transfers leaves, whenever nobody
      holds the lock, what the manager's atomic steps leave in lock order. */
  lemma BytewiseIsAtomic(m0: Memory, es: seq<A.Event>, s: A.State)
    requires A.Run(A.State(m0, map[], None, []), es) == Some(s) && s.lock.None?
    ensures s.mem == Steps(m0, s.log)
    ensures forall i :: 0 <= i < |s.log| ==> A.Fits(Steps(m0, s.log[..i]), s.log[i].op)
  {
    A.LockOrder(m0, es, s);
    StepsReplay(m0, s.log);
    forall i | 0 <= i < |s.log| ensures A.Fits(Steps(m0, s.log[..i]), s.log[i].op) {
      assert A.EntryOk(A.Replay(m0, s.log[..i]), s.log[i]);
      StepsReplay(m0, s.log[..i]);
    }
  }

  /** The range checks made before the lock are those of the backend, and those of the
      transfer: nothing that passes them is kept from the lock. */
  lemma FitsIsChecked(m: Memory, op: A.Op)
    ensures op.Read? || op.Zero? ==> (A.Fits(m, op) <==> B.RangeRc(|m.disk|, op.off, op.len) == 0)
    ensures op.Write? ==> (A.Fits(m, op) <==> B.RangeRc(|m.disk|, op.off, |op.data|) == 0)
    ensures op.ToHbm? || op.FromHbm? ==>
              (A.Fits(m, op) <==> U.CopyFits(m, AsXfer(op, U.RAMDISK_TO_HBM), op.buf, op.at))
  {
  }
}
