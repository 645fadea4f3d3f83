/** LBA ranges to byte ranges in 64-bit arithmetic: checked_io_range of
    src/rdma_ramdisk.c and urma_blkdev_map_io of kernel-urma/urma_blkdev.c. */
module RangeMap {
  import opened Common

  datatype Mapped = Refused(rc: int) | Range(off: nat, len: nat)

  const U64_MAX: nat := TWO64 - 1

  /** 64-bit unsigned multiplication and addition, wrapping. */
  function Mul64(a: nat, b: nat): nat
  {
    a * b % TWO64
  }

  function Add64(a: nat, b: nat): nat
  {
    (a + b) % TWO64
  }

  /** checked_io_range; size_t is 64 bits wide. */
  function CheckedIoRange(size: nat, bs: nat, lba: nat, count: nat): Mapped
    requires bs > 0
  {
    if count == 0 then Refused(-EINVAL)
    else if lba > U64_MAX / bs then Refused(-EOVERFLOW)
    else if count > U64_MAX / bs then Refused(-EOVERFLOW)
    else
      var off := Mul64(lba, bs);
      var len := Mul64(count, bs);
      if off > size || len > size - off then Refused(-ERANGE) else Range(off, len)
  }

  /** The unbounded meaning: a non-empty range of blocks inside the disk. */
  predicate Inside(size: nat, bs: nat, lba: nat, count: nat)
  {
    count > 0 && (lba + count) * bs <= size
  }

  lemma DivBound(a: nat, m: nat, b: nat)
    requires b > 0
    ensures a <= m / b <==> a * b <= m
  {
    var q := m / b;
    assert q * b <= m < (q + 1) * b;
    if a <= q {
      MulMono(a, q, b);
    } else {
      MulMono(q + 1, a, b);
    }
  }

  lemma MulMono(a: nat, c: nat, b: nat)
    requires a <= c
    ensures a * b <= c * b
  {
    assert c * b == a * b + (c - a) * b;
  }

  /** The fixed-width checks accept exactly the ranges inside the disk, without any
      wrap, and say why otherwise. */
  lemma RangeIsExact(size: nat, bs: nat, lba: nat, count: nat)
    requires bs > 0 && size < TWO64
    ensures var r := CheckedIoRange(size, bs, lba, count);
            && (r.Range? <==> count > 0 && (lba + count) * bs <= size)
            && (r.Range? ==> r.off == lba * bs && r.len == count * bs && r.off + r.len <= size)
            && (r.Refused? ==> r.rc == if count == 0 then -EINVAL
                                       else if lba * bs > U64_MAX || count * bs > U64_MAX then -EOVERFLOW
                                       else -ERANGE)
  {
    NoWrap(lba, bs);
    NoWrap(count, bs);
    var off, len := lba * bs, count * bs;
    assert (lba + count) * bs == off + len;
  }

  /** The division guards exactly the products that do not wrap. */
  lemma NoWrap(a: nat, b: nat)
    requires b > 0
    ensures a > U64_MAX / b <==> a * b > U64_MAX
    ensures a <= U64_MAX / b ==> Mul64(a, b) == a * b
  {
    DivBound(a, U64_MAX, b);
    if a * b <= U64_MAX {
      SmallMod(a * b, TWO64);
    }
  }

  lemma SmallMod(a: nat, m: nat)
    requires a < m
    ensures a % m == a
  {
  }

  /** Disjoint block ranges are disjoint byte ranges. */
  lemma DisjointRanges(size: nat, bs: nat, lba: nat, count: nat, lba': nat, count': nat)
    requires bs > 0 && size < TWO64 && lba + count <= lba'
    requires CheckedIoRange(size, bs, lba, count).Range? && CheckedIoRange(size, bs, lba', count').Range?
    ensures CheckedIoRange(size, bs, lba, count).off + CheckedIoRange(size, bs, lba, count).len
            <= CheckedIoRange(size, bs, lba', count').off
  {
    RangeIsExact(size, bs, lba, count);
    RangeIsExact(size, bs, lba', count');
    MulMono(lba + count, lba', bs);
    assert (lba + count) * bs == lba * bs + count * bs;
  }

  datatype KernelMapped = KRefused(rc: int) | KRange(off: nat, len: nat, ubva: nat)

  /** urma_blkdev_map_io: a zero block size is refused, and so is a wrapping UBVA. */
  function MapIo(size: nat, bs: nat, ubva: nat, lba: nat, count: nat): KernelMapped
  {
    if bs == 0 || count == 0 then KRefused(-EINVAL)
    else if lba > U64_MAX / bs then KRefused(-EOVERFLOW)
    else if count > U64_MAX / bs then KRefused(-EOVERFLOW)
    else
      var off := Mul64(lba, bs);
      var len := Mul64(count, bs);
      if off > size || len > size - off then KRefused(-ERANGE)
      else if ubva > U64_MAX - off then KRefused(-EOVERFLOW)
      else KRange(off, len, Add64(ubva, off))
  }

  lemma MapIoIsExact(size: nat, bs: nat, ubva: nat, lba: nat, count: nat)
    requires size < TWO64 && ubva < TWO64
    ensures var r := MapIo(size, bs, ubva, lba, count);
            && (r.KRange? <==> bs > 0 && count > 0 && (lba + count) * bs <= size && ubva + lba * bs <= U64_MAX)
            && (r.KRange? ==> r.off == lba * bs && r.len == count * bs && r.ubva == ubva + lba * bs)
            && (r.KRefused? ==> r.rc == if bs == 0 || count == 0 then -EINVAL
                                        else if lba * bs > U64_MAX || count * bs > U64_MAX then -EOVERFLOW
                                        else if (lba + count) * bs > size then -ERANGE
                                        else -EOVERFLOW)
  {
    if bs > 0 {
      RangeIsExact(size, bs, lba, count);
      DivBound(lba, U64_MAX, bs);
    }
  }
}
