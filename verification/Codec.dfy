/** Integers on the wire: big-endian for NBD, host order for the control socket. */
module Codec {
  import opened Common

  function Pow256(n: nat): (p: nat)
    ensures p > 0
  {
    if n == 0 then 1 else 256 * Pow256(n - 1)
  }

  /** The n low-order bytes of v, least significant first. */
  function ToLe(v: nat, n: nat): (b: seq<Byte>)
    ensures |b| == n
  {
    if n == 0 then [] else [v % 256] + ToLe(v / 256, n - 1)
  }

  function FromLe(b: seq<Byte>): nat
  {
    if b == [] then 0 else b[0] + 256 * FromLe(b[1..])
  }

  function Reversed(b: seq<Byte>): (r: seq<Byte>)
    ensures |r| == |b|
  {
    if b == [] then [] else Reversed(b[1..]) + [b[0]]
  }

  function ToBe(v: nat, n: nat): (b: seq<Byte>)
    ensures |b| == n
  {
    Reversed(ToLe(v, n))
  }

  function FromBe(b: seq<Byte>): nat
  {
    FromLe(Reversed(b))
  }

  lemma {:induction false} ReversedTwice(b: seq<Byte>)
    ensures Reversed(Reversed(b)) == b
  {
    if b != [] {
      ReversedTwice(b[1..]);
      ReversedSnoc(Reversed(b[1..]), b[0]);
    }
  }

  lemma {:induction false} ReversedSnoc(b: seq<Byte>, x: Byte)
    ensures Reversed(b + [x]) == [x] + Reversed(b)
  {
    if b != [] {
      assert (b + [x])[1..] == b[1..] + [x];
      ReversedSnoc(b[1..], x);
    }
  }

  /** Decoding undoes encoding for every value of the width. */
  lemma {:induction false} LeRoundTrip(v: nat, n: nat)
    requires v < Pow256(n)
    ensures FromLe(ToLe(v, n)) == v
  {
    if n > 0 {
      LeRoundTrip(v / 256, n - 1);
      assert ToLe(v, n)[1..] == ToLe(v / 256, n - 1);
    }
  }

  lemma BeRoundTrip(v: nat, n: nat)
    requires v < Pow256(n)
    ensures FromBe(ToBe(v, n)) == v
  {
    ReversedTwice(ToLe(v, n));
    LeRoundTrip(v, n);
  }

  /** Every byte string of the width is the encoding of its value. */
  lemma {:induction false} LeBytes(b: seq<Byte>)
    ensures FromLe(b) < Pow256(|b|) && ToLe(FromLe(b), |b|) == b
  {
    if b != [] {
      LeBytes(b[1..]);
      assert FromLe(b) / 256 == FromLe(b[1..]) && FromLe(b) % 256 == b[0];
    }
  }

  lemma {:induction false} LeCat(a: seq<Byte>, b: seq<Byte>)
    ensures FromLe(a + b) == FromLe(a) + Pow256(|a|) * FromLe(b)
  {
    if a == [] {
      assert a + b == b;
    } else {
      LeCat(a[1..], b);
      assert (a + b)[1..] == a[1..] + b;
      assert 256 * (Pow256(|a| - 1) * FromLe(b)) == Pow256(|a|) * FromLe(b);
    }
  }

  lemma Widths()
    ensures Pow256(2) == 0x1_0000 && Pow256(4) == TWO32 && Pow256(8) == TWO64
  {
    assert Pow256(2) == 256 * Pow256(1);
    assert Pow256(4) == 256 * Pow256(3) && Pow256(3) == 256 * Pow256(2);
    assert Pow256(8) == 256 * Pow256(7) && Pow256(7) == 256 * Pow256(6);
    assert Pow256(6) == 256 * Pow256(5) && Pow256(5) == 256 * Pow256(4);
  }

  // -------------------------------------------------- byte order of the host

  datatype Host = Little | Big

  /** How the host reads a packed integer field. */
  function Load(h: Host, b: seq<Byte>): nat
  {
    if h.Little? then FromLe(b) else FromBe(b)
  }

  /** ntohl, which is also htonl. */
  function Ntohl(h: Host, v: nat): nat
  {
    if h.Little? then FromBe(ToLe(v, 4)) else v
  }

  /** ntohll_u64 and htonll_u64: swap within the halves and swap the halves. */
  function Ntohll(h: Host, v: nat): nat
  {
    Ntohl(h, v % TWO32) * TWO32 + Ntohl(h, v / TWO32)
  }

  lemma HalvesOf(b: seq<Byte>)
    requires |b| == 8
    ensures FromLe(b) % TWO32 == FromLe(b[..4]) && FromLe(b) / TWO32 == FromLe(b[4..])
  {
    assert b == b[..4] + b[4..];
    LeCat(b[..4], b[4..]);
    Widths();
    LeBytes(b[..4]);
    DivMod(FromLe(b[..4]), FromLe(b[4..]));
  }

  lemma DivMod(lo: nat, hi: nat)
    requires lo < TWO32
    ensures (lo + TWO32 * hi) % TWO32 == lo && (lo + TWO32 * hi) / TWO32 == hi
  {
  }

  lemma ReversedCat(a: seq<Byte>, b: seq<Byte>)
    ensures Reversed(a + b) == Reversed(b) + Reversed(a)
  {
    if a == [] {
      assert a + b == b;
    } else {
      assert (a + b)[1..] == a[1..] + b;
      ReversedCat(a[1..], b);
    }
  }

  /** Network order: the first byte counts most. */
  lemma BeOfFour(b: seq<Byte>)
    requires |b| == 4
    ensures FromBe(b) == 0x100_0000 * (b[0] as int) + 0x1_0000 * (b[1] as int) + 0x100 * (b[2] as int) + b[3]
  {
    var r := Reversed(b);
    ReversedSnoc(b[..3], b[3]);
    ReversedSnoc(b[..2], b[2]);
    ReversedSnoc(b[..1], b[1]);
    assert b[..3] + [b[3]] == b && b[..2] + [b[2]] == b[..3] && b[..1] + [b[1]] == b[..2];
    assert Reversed(b[..1]) == [b[0]];
    assert r == [b[3], b[2], b[1], b[0]];
    LeOfFour(r);
  }

  /** Host order on a little-endian machine: the first byte counts least. */
  lemma LeOfFour(b: seq<Byte>)
    requires |b| == 4
    ensures FromLe(b) == b[0] + 0x100 * (b[1] as int) + 0x1_0000 * (b[2] as int) + 0x100_0000 * (b[3] as int)
  {
    assert b[1..][1..] == b[2..] && b[2..][1..] == b[3..] && b[3..][1..] == [];
    assert FromLe(b[3..]) == b[3];
    assert FromLe(b[2..]) == b[2] + 0x100 * FromLe(b[3..]);
    assert FromLe(b[1..]) == b[1] + 0x100 * FromLe(b[2..]);
  }

  /** A big-endian field is its low half and its high half. */
  lemma BeHalves(b: seq<Byte>)
    requires |b| == 8
    ensures FromBe(b) == FromBe(b[4..]) + TWO32 * FromBe(b[..4])
    ensures FromBe(b[4..]) < TWO32 && FromBe(b[..4]) < TWO32
  {
    assert b == b[..4] + b[4..];
    ReversedCat(b[..4], b[4..]);
    LeCat(Reversed(b[4..]), Reversed(b[..4]));
    LeBytes(Reversed(b[4..]));
    LeBytes(Reversed(b[..4]));
    Widths();
  }

  lemma NtohlLittle(b: seq<Byte>)
    requires |b| == 4
    ensures Ntohl(Little, Load(Little, b)) == FromBe(b)
  {
    LeBytes(b);
  }

  /** On a little-endian host the field is read as the protocol means it. */
  lemma NtohllLittle(b: seq<Byte>)
    requires |b| == 8
    ensures Ntohll(Little, Load(Little, b)) == FromBe(b)
  {
    HalvesOf(b);
    NtohlLittle(b[..4]);
    NtohlLittle(b[4..]);
    BeHalves(b);
  }

  lemma BeInjective(a: seq<Byte>, b: seq<Byte>)
    requires |a| == |b| && FromBe(a) == FromBe(b)
    ensures a == b
  {
    LeBytes(Reversed(a));
    LeBytes(Reversed(b));
    ReversedTwice(a);
    ReversedTwice(b);
  }

  lemma SwapIsSame(lo: nat, hi: nat)
    requires lo < TWO32 && hi < TWO32
    ensures lo * TWO32 + hi == lo + TWO32 * hi <==> lo == hi
  {
  }

  /** On a big-endian host it is read correctly exactly when its halves are equal. */
  lemma NtohllBig(b: seq<Byte>)
    requires |b| == 8
    ensures Ntohll(Big, Load(Big, b)) == FromBe(b) <==> b[..4] == b[4..]
  {
    var lo, hi := FromBe(b[4..]), FromBe(b[..4]);
    BeHalves(b);
    DivMod(lo, hi);
    SwapIsSame(lo, hi);
    if lo == hi {
      BeInjective(b[4..], b[..4]);
    }
  }

  /** htonll_u64 and ntohll_u64 undo each other, on either host. */
  lemma NtohllTwice(h: Host, v: nat)
    requires v < TWO64
    ensures Ntohll(h, Ntohll(h, v)) == v
  {
    if h.Big? {
      var lo, hi := v % TWO32, v / TWO32;
      DivMod(hi, lo);
    } else {
      NtohllTwiceLittle(v);
    }
  }

  lemma NtohllTwiceLittle(v: nat)
    requires v < TWO64
    ensures Ntohll(Little, Ntohll(Little, v)) == v
  {
    Widths();
    LeRoundTrip(v, 8);
    NtohllLittle(ToLe(v, 8));
    NtohllLittle(Reversed(ToLe(v, 8)));
    ReversedTwice(ToLe(v, 8));
  }
}
