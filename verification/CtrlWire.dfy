/** Messages of the control socket (userspace-nbd/include/ramdisk_ctrl.h): structures
    of fixed length sent as they lie in memory. */
module CtrlWire {
  import opened Common
  import opened Codec

  // ---------------------------------------------------------------- structures

  function Size(layout: seq<nat>): nat
  {
    if layout == [] then 0 else layout[0] + Size(layout[1..])
  }

  /** One value a field, each within the width of its field. */
  predicate Fits(layout: seq<nat>, values: seq<nat>)
  {
    |values| == |layout| && forall i :: 0 <= i < |layout| ==> values[i] < Pow256(layout[i])
  }

  function Pack(layout: seq<nat>, values: seq<nat>): (b: seq<Byte>)
    requires |values| == |layout|
    ensures |b| == Size(layout)
  {
    if layout == [] then [] else ToLe(values[0], layout[0]) + Pack(layout[1..], values[1..])
  }

  function Unpack(layout: seq<nat>, b: seq<Byte>): (values: seq<nat>)
    requires |b| == Size(layout)
    ensures |values| == |layout|
  {
    if layout == [] then [] else [FromLe(b[..layout[0]])] + Unpack(layout[1..], b[layout[0]..])
  }

  /** Reading a structure back gives its fields. */
  lemma {:induction false} UnpackPack(layout: seq<nat>, values: seq<nat>)
    requires Fits(layout, values)
    ensures Unpack(layout, Pack(layout, values)) == values
  {
    if layout != [] {
      assert values[0] < Pow256(layout[0]);
      forall i | 0 <= i < |layout| - 1
        ensures values[1..][i] < Pow256(layout[1..][i])
      {
        assert values[i + 1] < Pow256(layout[i + 1]);
      }
      UnpackPack(layout[1..], values[1..]);
      LeRoundTrip(values[0], layout[0]);
      var b := Pack(layout, values);
      assert b[..layout[0]] == ToLe(values[0], layout[0]);
      assert b[layout[0]..] == Pack(layout[1..], values[1..]);
    }
  }

  predicate IsI32(rc: int)
  {
    -0x8000_0000 <= rc < 0x8000_0000
  }

  /** int32_t, two's complement. */
  function ToI32(rc: int): nat
  {
    rc % TWO32
  }

  function FromI32(v: nat): int
  {
    if v < TWO32 / 2 then v else v - TWO32
  }

  lemma I32RoundTrip(rc: int)
    requires IsI32(rc)
    ensures ToI32(rc) < TWO32 && FromI32(ToI32(rc)) == rc
  {
    if rc < 0 {
      assert ToI32(rc) == rc + TWO32;
    }
  }

  // ------------------------------------------------------------------ messages

  const MAGIC: nat := 0x5244_4354
  const VERSION: nat := 1
  const MAX_PAYLOAD: nat := 4096

  const HEADER: nat := 24
  const RESPONSE: nat := 32

  /** struct ramdisk_ctrl_hdr. */
  datatype Header = Header(magic: nat, version: nat, opcode: nat, payloadLen: nat, flags: nat, id: nat)

  function HeaderLayout(): seq<nat>
  {
    [4, 2, 2, 4, 4, 8]
  }

  lemma HeaderSize()
    ensures Size(HeaderLayout()) == HEADER
  {
    assert HeaderLayout()[1..] == [2, 2, 4, 4, 8];
    assert [2, 2, 4, 4, 8][1..] == [2, 4, 4, 8];
    assert [2, 4, 4, 8][1..] == [4, 4, 8];
    assert [4, 4, 8][1..] == [4, 8];
    assert [4, 8][1..] == [8];
    assert Size([8]) == 8;
    assert Size([4, 4, 8]) == 16;
  }

  function EncodeHeader(h: Header): (b: seq<Byte>)
    ensures |b| == HEADER
  {
    HeaderSize();
    Pack(HeaderLayout(), [h.magic, h.version, h.opcode, h.payloadLen, h.flags, h.id])
  }

  function DecodeHeader(b: seq<Byte>): Header
    requires |b| == HEADER
  {
    HeaderSize();
    var f := Unpack(HeaderLayout(), b);
    Header(f[0], f[1], f[2], f[3], f[4], f[5])
  }

  predicate HeaderFits(h: Header)
  {
    && h.magic < TWO32 && h.version < 0x1_0000 && h.opcode < 0x1_0000
    && h.payloadLen < TWO32 && h.flags < TWO32 && h.id < TWO64
  }

  lemma HeaderRoundTrip(h: Header)
    requires HeaderFits(h)
    ensures DecodeHeader(EncodeHeader(h)) == h
  {
    HeaderSize();
    Widths();
    UnpackPack(HeaderLayout(), [h.magic, h.version, h.opcode, h.payloadLen, h.flags, h.id]);
  }

  /** What follows the header in struct ramdisk_ctrl_resp. */
  function EncodeStatus(rc: int, payloadLen: nat): (b: seq<Byte>)
    ensures |b| == RESPONSE - HEADER
  {
    ToLe(ToI32(rc), 4) + ToLe(payloadLen, 4)
  }

  lemma StatusRoundTrip(rc: int, payloadLen: nat)
    requires IsI32(rc) && payloadLen < TWO32
    ensures FromI32(FromLe(EncodeStatus(rc, payloadLen)[..4])) == rc
    ensures FromLe(EncodeStatus(rc, payloadLen)[4..]) == payloadLen
  {
    Widths();
    I32RoundTrip(rc);
    LeRoundTrip(ToI32(rc), 4);
    LeRoundTrip(payloadLen, 4);
    var b := EncodeStatus(rc, payloadLen);
    assert b[..4] == ToLe(ToI32(rc), 4) && b[4..] == ToLe(payloadLen, 4);
  }

  /** send_response: the request's opcode and id, the status, then the payload. */
  function Response(opcode: nat, id: nat, rc: int, payload: seq<Byte>): (b: seq<Byte>)
    ensures |b| == RESPONSE + |payload|
  {
    EncodeHeader(Header(MAGIC, VERSION, opcode, RESPONSE - HEADER + |payload|, 0, id))
    + EncodeStatus(rc, |payload|) + payload
  }

  /** What a reader of a response finds. */
  lemma ResponseReads(opcode: nat, id: nat, rc: int, payload: seq<Byte>)
    requires opcode < 0x1_0000 && id < TWO64 && IsI32(rc) && |payload| < TWO32 - 8
    ensures var b := Response(opcode, id, rc, payload);
            && DecodeHeader(b[..HEADER]) == Header(MAGIC, VERSION, opcode, RESPONSE - HEADER + |payload|, 0, id)
            && FromI32(FromLe(b[HEADER..HEADER + 4])) == rc && FromLe(b[HEADER + 4..RESPONSE]) == |payload|
            && b[RESPONSE..] == payload
  {
    var h := Header(MAGIC, VERSION, opcode, RESPONSE - HEADER + |payload|, 0, id);
    var b := Response(opcode, id, rc, payload);
    var st := EncodeStatus(rc, |payload|);
    HeaderRoundTrip(h);
    StatusRoundTrip(rc, |payload|);
    assert b[..HEADER] == EncodeHeader(h);
    assert b[HEADER..HEADER + 4] == st[..4] && b[HEADER + 4..RESPONSE] == st[4..];
  }

  // ------------------------------------------------------------------ payloads

  const CONNECT_SIZE: nat := 56
  const DISCONNECT_SIZE: nat := 8
  const TRANSFER_SIZE: nat := 40
  const STATUS_SIZE: nat := 48

  /** struct ramdisk_ctrl_peer_connect_info, the EID as one number. */
  datatype PeerInfo = PeerInfo(
    peerId: nat, eid: nat, uasid: nat, reserved: nat, segVa: nat, segLen: nat, token: nat, jetty: nat)

  /** struct ramdisk_ctrl_urma_transfer. */
  datatype Xfer = Xfer(peerId: nat, requestId: nat, offset: nat, remoteAddr: nat, length: nat, direction: nat)

  /** struct ramdisk_ctrl_status. */
  datatype Status = Status(
    size: nat, blockSize: nat, enabled: nat, peers: nat, depth: nat,
    inflight: nat, pending: nat, completed: nat, failed: nat)

  function PeerLayout(): seq<nat>
  {
    [8, 16, 4, 4, 8, 8, 4, 4]
  }

  function XferLayout(): seq<nat>
  {
    [8, 8, 8, 8, 4, 4]
  }

  function StatusLayout(): seq<nat>
  {
    [8, 4, 4, 4, 4, 4, 4, 8, 8]
  }

  lemma {:induction false} SizeCat(a: seq<nat>, b: seq<nat>)
    ensures Size(a + b) == Size(a) + Size(b)
  {
    if a == [] {
      assert a + b == b;
    } else {
      assert (a + b)[1..] == a[1..] + b;
      SizeCat(a[1..], b);
    }
  }

  lemma SizeOfTwo(a: nat, b: nat)
    ensures Size([a, b]) == a + b
  {
    assert [a, b][1..] == [b];
    assert [b][1..] == [];
    assert Size([b]) == b;
  }

  lemma SizeOfFour(a: nat, b: nat, c: nat, d: nat)
    ensures Size([a, b, c, d]) == a + b + c + d
  {
    SizeOfTwo(a, b);
    SizeOfTwo(c, d);
    SizeCat([a, b], [c, d]);
    assert [a, b] + [c, d] == [a, b, c, d];
  }

  lemma PayloadSizes()
    ensures Size(PeerLayout()) == CONNECT_SIZE && Size(XferLayout()) == TRANSFER_SIZE
    ensures Size(StatusLayout()) == STATUS_SIZE
  {
    SizeOfEight(8, 16, 4, 4, 8, 8, 4, 4);
    SizeOfFour(8, 8, 8, 8);
    SizeOfTwo(4, 4);
    SizeCat([8, 8, 8, 8], [4, 4]);
    assert XferLayout() == [8, 8, 8, 8] + [4, 4];
    StatusSize();
  }

  lemma SizeOfEight(a: nat, b: nat, c: nat, d: nat, e: nat, f: nat, g: nat, h: nat)
    ensures Size([a, b, c, d, e, f, g, h]) == a + b + c + d + e + f + g + h
  {
    SizeOfFour(a, b, c, d);
    SizeOfFour(e, f, g, h);
    SizeCat([a, b, c, d], [e, f, g, h]);
    assert [a, b, c, d] + [e, f, g, h] == [a, b, c, d, e, f, g, h];
  }

  lemma StatusSize()
    ensures Size(StatusLayout()) == STATUS_SIZE
  {
    SizeOfEight(4, 4, 4, 4, 4, 4, 8, 8);
    assert StatusLayout()[1..] == [4, 4, 4, 4, 4, 4, 8, 8];
  }

  function PeerFields(p: PeerInfo): seq<nat>
  {
    [p.peerId, p.eid, p.uasid, p.reserved, p.segVa, p.segLen, p.token, p.jetty]
  }

  function XferFields(x: Xfer): seq<nat>
  {
    [x.peerId, x.requestId, x.offset, x.remoteAddr, x.length, x.direction]
  }

  function StatusFields(s: Status): seq<nat>
  {
    [s.size, s.blockSize, s.enabled, s.peers, s.depth, s.inflight, s.pending, s.completed, s.failed]
  }

  function EncodePeer(p: PeerInfo): (b: seq<Byte>)
    ensures |b| == CONNECT_SIZE
  {
    PayloadSizes();
    Pack(PeerLayout(), PeerFields(p))
  }

  function DecodePeer(b: seq<Byte>): PeerInfo
    requires |b| == CONNECT_SIZE
  {
    PayloadSizes();
    var f := Unpack(PeerLayout(), b);
    PeerInfo(f[0], f[1], f[2], f[3], f[4], f[5], f[6], f[7])
  }

  function EncodeXfer(x: Xfer): (b: seq<Byte>)
    ensures |b| == TRANSFER_SIZE
  {
    PayloadSizes();
    Pack(XferLayout(), XferFields(x))
  }

  function DecodeXfer(b: seq<Byte>): Xfer
    requires |b| == TRANSFER_SIZE
  {
    PayloadSizes();
    var f := Unpack(XferLayout(), b);
    Xfer(f[0], f[1], f[2], f[3], f[4], f[5])
  }

  function EncodeState(s: Status): (b: seq<Byte>)
    ensures |b| == STATUS_SIZE
  {
    PayloadSizes();
    Pack(StatusLayout(), StatusFields(s))
  }

  function DecodeState(b: seq<Byte>): Status
    requires |b| == STATUS_SIZE
  {
    PayloadSizes();
    var f := Unpack(StatusLayout(), b);
    Status(f[0], f[1], f[2], f[3], f[4], f[5], f[6], f[7], f[8])
  }

  /** Each structure survives the trip when its fields are within their widths. */
  lemma PeerRoundTrip(p: PeerInfo)
    requires Fits(PeerLayout(), PeerFields(p))
    ensures DecodePeer(EncodePeer(p)) == p
  {
    PayloadSizes();
    UnpackPack(PeerLayout(), PeerFields(p));
  }

  lemma XferRoundTrip(x: Xfer)
    requires Fits(XferLayout(), XferFields(x))
    ensures DecodeXfer(EncodeXfer(x)) == x
  {
    PayloadSizes();
    UnpackPack(XferLayout(), XferFields(x));
  }

  lemma StateRoundTrip(s: Status)
    requires Fits(StatusLayout(), StatusFields(s))
    ensures DecodeState(EncodeState(s)) == s
  {
    PayloadSizes();
    UnpackPack(StatusLayout(), StatusFields(s));
  }

  // ---------------------------------------------------- the header, byte by byte

  /** The field of `width` bytes at `at`. */
  function Field(b: seq<Byte>, at: nat, width: nat): nat
    requires at + width <= |b|
  {
    FromLe(b[at..at + width])
  }

  /** Where field i begins. */
  function Offset(layout: seq<nat>, i: nat): nat
    requires i <= |layout|
    decreases i
  {
    if i == 0 then 0 else layout[0] + Offset(layout[1..], i - 1)
  }

  lemma {:induction false} OffsetNext(layout: seq<nat>, i: nat)
    requires i < |layout|
    ensures Offset(layout, i + 1) == Offset(layout, i) + layout[i]
    decreases i
  {
    if i > 0 {
      OffsetNext(layout[1..], i - 1);
    }
  }

  /** Field i is read from its place. */
  lemma {:induction false} UnpackAt(layout: seq<nat>, b: seq<Byte>, i: nat)
    requires |b| == Size(layout) && i < |layout|
    ensures Offset(layout, i) + layout[i] <= |b|
    ensures Unpack(layout, b)[i] == Field(b, Offset(layout, i), layout[i])
    decreases i
  {
    if i > 0 {
      var w, rest := layout[0], layout[1..];
      UnpackAt(rest, b[w..], i - 1);
      FieldShift(b, w, Offset(rest, i - 1), rest[i - 1]);
      UnpackTail(layout, b, i);
    }
  }

  lemma UnpackTail(layout: seq<nat>, b: seq<Byte>, i: nat)
    requires |b| == Size(layout) && 0 < i < |layout|
    ensures Unpack(layout, b)[i] == Unpack(layout[1..], b[layout[0]..])[i - 1]
  {
  }

  lemma FieldShift(b: seq<Byte>, w: nat, at: nat, n: nat)
    requires w + at + n <= |b|
    ensures Field(b[w..], at, n) == Field(b, w + at, n)
  {
    assert b[w..][at..at + n] == b[w + at..w + at + n];
  }

  /** Fields i, i + 1 and i + 2, the first of them at `at`. */
  lemma ThreeFields(layout: seq<nat>, b: seq<Byte>, i: nat, at: nat)
    requires i + 3 <= |layout| && |b| == Size(layout) && Offset(layout, i) == at
    ensures at + layout[i] + layout[i + 1] + layout[i + 2] == Offset(layout, i + 3) <= |b|
    ensures Unpack(layout, b)[i] == Field(b, at, layout[i])
    ensures Unpack(layout, b)[i + 1] == Field(b, at + layout[i], layout[i + 1])
    ensures Unpack(layout, b)[i + 2] == Field(b, at + layout[i] + layout[i + 1], layout[i + 2])
  {
    OffsetNext(layout, i);
    OffsetNext(layout, i + 1);
    OffsetNext(layout, i + 2);
    UnpackAt(layout, b, i);
    UnpackAt(layout, b, i + 1);
    UnpackAt(layout, b, i + 2);
  }

  /** Where the fields of struct ramdisk_ctrl_hdr lie. */
  lemma HeaderIs(b: seq<Byte>)
    requires |b| == 24
    ensures DecodeHeader(b) ==
            Header(Field(b, 0, 4), Field(b, 4, 2), Field(b, 6, 2), Field(b, 8, 4), Field(b, 12, 4), Field(b, 16, 8))
  {
    HeaderSize();
    ThreeFields(HeaderLayout(), b, 0, 0);
    ThreeFields(HeaderLayout(), b, 3, 8);
  }
}
