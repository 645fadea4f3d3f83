/** Shared vocabulary: optional values, bytes, errno numbers and machine widths. */
module Common {
  datatype Option<+T> = None | Some(value: T)

  type Byte = x: int | 0 <= x < 256

  const TWO32: nat := 0x1_0000_0000
  const TWO64: nat := 0x1_0000_0000_0000_0000

  const ENOENT: int := 2
  const EIO: int := 5
  const EBUSY: int := 16
  const EEXIST: int := 17
  const ENODEV: int := 19
  const EINVAL: int := 22
  const ENOSPC: int := 28
  const EPIPE: int := 32
  const ERANGE: int := 34
  const EPROTO: int := 71
  const EOVERFLOW: int := 75
  const EOPNOTSUPP: int := 95
  const ESHUTDOWN: int := 108
  const ETIMEDOUT: int := 110

  /** `len` bytes of zero, what calloc and memset(…, 0, …) leave behind. */
  function Zeros(len: nat): (z: seq<Byte>)
    ensures |z| == len
    ensures forall i :: 0 <= i < len ==> z[i] == 0
  {
    seq(len, _ => 0)
  }

  /** What memcpy(dst + off, data, |data|) leaves in dst. */
  function Overwrite(dst: seq<Byte>, off: nat, data: seq<Byte>): (r: seq<Byte>)
    requires off + |data| <= |dst|
    ensures |r| == |dst|
    ensures r[off..off + |data|] == data
    ensures forall i :: 0 <= i < |dst| && !(off <= i < off + |data|) ==> r[i] == dst[i]
  {
    dst[..off] + data + dst[off + |data|..]
  }

  /** The backend, and the buffers that stand for the peers' memories. */
  datatype Memory = Memory(disk: seq<Byte>, hbm: map<nat, seq<Byte>>)

  /** Same allocations with the same sizes. */
  ghost predicate SameShape(m: Memory, n: Memory)
  {
    |m.disk| == |n.disk| && m.hbm.Keys == n.hbm.Keys && forall b :: b in m.hbm ==> |m.hbm[b]| == |n.hbm[b]|
  }
}
