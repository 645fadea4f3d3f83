/** What the control protocol promises: one response a request, in step with the
    stream, and a remote call that is a local call. */
module CtrlSession {
  import opened Common
  import opened Codec
  import opened CtrlWire
  import opened Ctrl

  /** A request as a peer may send it: any opcode, any flags, any payload. */
  datatype Ask = Ask(opcode: nat, flags: nat, id: nat, payload: seq<Byte>)

  predicate Sendable(a: Ask)
  {
    a.opcode < 0x1_0000 && a.flags < TWO32 && a.id < TWO64 && |a.payload| < TWO32
  }

  predicate Framed(a: Ask)
  {
    Sendable(a) && |a.payload| <= MAX_PAYLOAD
  }

  function HeaderOf(a: Ask): Header
  {
    Header(MAGIC, VERSION, a.opcode, |a.payload|, a.flags, a.id)
  }

  function Encode(a: Ask): (b: seq<Byte>)
    ensures |b| == HEADER + |a.payload|
  {
    EncodeHeader(HeaderOf(a)) + a.payload
  }

  function EncodeAll(asks: seq<Ask>): seq<Byte>
  {
    if asks == [] then [] else Encode(asks[0]) + EncodeAll(asks[1..])
  }

  // -------------------------------------------------------------- one response

  function Next<M>(ops: Manager<M>, m: M, a: Ask): M
  {
    Handle(ops, m, a.opcode, a.payload).m
  }

  function Reply<M>(ops: Manager<M>, m: M, a: Ask): seq<Byte>
  {
    Answered(ops, m, a.opcode, a.id, a.payload)
  }

  lemma HeadOf(a: Ask, rest: seq<Byte>)
    requires Sendable(a)
    ensures |Encode(a) + rest| >= HEADER
    ensures DecodeHeader((Encode(a) + rest)[..HEADER]) == HeaderOf(a)
    ensures (Encode(a) + rest)[HEADER..] == a.payload + rest
  {
    HeaderRoundTrip(HeaderOf(a));
    assert (Encode(a) + rest)[..HEADER] == EncodeHeader(HeaderOf(a));
  }

  /** A whole request gets its response and leaves the stream at the next header. */
  lemma PassIsAsk<M>(ops: Manager<M>, m: M, a: Ask, rest: seq<Byte>, junk: nat -> Byte)
    requires Framed(a)
    ensures Pass(ops, Encode(a) + rest, m, junk) == Outcome(Reply(ops, m, a), Next(ops, m, a), rest, true)
  {
    HeadOf(a, rest);
    var after := a.payload + rest;
    assert after[..|a.payload|] == a.payload && after[|a.payload|..] == rest;
  }

  function Replies<M>(ops: Manager<M>, m: M, asks: seq<Ask>): seq<Byte>
  {
    if asks == [] then [] else Reply(ops, m, asks[0]) + Replies(ops, Next(ops, m, asks[0]), asks[1..])
  }

  function After<M>(ops: Manager<M>, m: M, asks: seq<Ask>): M
  {
    if asks == [] then m else After(ops, Next(ops, m, asks[0]), asks[1..])
  }

  lemma ServeStep<M>(ops: Manager<M>, m: M, a: Ask, rest: seq<Byte>, junk: nat -> Byte)
    requires Framed(a)
    ensures var t := Serve(ops, rest, Next(ops, m, a), junk);
            Serve(ops, Encode(a) + rest, m, junk) == (Reply(ops, m, a) + t.0, t.1)
  {
    PassIsAsk(ops, m, a, rest, junk);
  }

  /** Any number of requests, right or wrong in size and opcode: exactly one response
      each, in order, and whatever follows them is read from its own beginning. */
  lemma {:induction false} SessionServed<M>(ops: Manager<M>, m: M, asks: seq<Ask>, tail: seq<Byte>, junk: nat -> Byte)
    requires forall i :: 0 <= i < |asks| ==> Framed(asks[i])
    ensures var t := Serve(ops, tail, After(ops, m, asks), junk);
            Serve(ops, EncodeAll(asks) + tail, m, junk) == (Replies(ops, m, asks) + t.0, t.1)
  {
    if asks == [] {
      assert EncodeAll(asks) + tail == tail;
      var t := Serve(ops, tail, m, junk);
      assert Replies(ops, m, asks) + t.0 == t.0;
    } else {
      var n := Next(ops, m, asks[0]);
      Assoc(Encode(asks[0]), EncodeAll(asks[1..]), tail);
      SessionServed(ops, n, asks[1..], tail, junk);
      ServeStep(ops, m, asks[0], EncodeAll(asks[1..]) + tail, junk);
      Assoc(Reply(ops, m, asks[0]), Replies(ops, n, asks[1..]), Serve(ops, tail, After(ops, m, asks), junk).0);
    }
  }

  lemma Assoc(a: seq<Byte>, b: seq<Byte>, c: seq<Byte>)
    ensures (a + b) + c == a + (b + c)
  {
  }

  /** Request by request: one more request adds its own response at the end. */
  lemma {:induction false} RepliesSnoc<M>(ops: Manager<M>, m: M, asks: seq<Ask>, a: Ask)
    ensures Replies(ops, m, asks + [a]) == Replies(ops, m, asks) + Reply(ops, After(ops, m, asks), a)
    ensures After(ops, m, asks + [a]) == Next(ops, After(ops, m, asks), a)
  {
    if asks == [] {
      assert asks + [a] == [a] && [a][1..] == [];
      assert Replies(ops, Next(ops, m, a), []) == [];
    } else {
      assert (asks + [a])[1..] == asks[1..] + [a];
      var n := Next(ops, m, asks[0]);
      RepliesSnoc(ops, n, asks[1..], a);
      Assoc(Reply(ops, m, asks[0]), Replies(ops, n, asks[1..]), Reply(ops, After(ops, m, asks), a));
    }
  }

  /** A response carries its request's opcode and id, and its own length. */
  lemma ReplyEchoes<M>(ops: Manager<M>, m: M, a: Ask)
    requires Framed(a)
    ensures |Reply(ops, m, a)| >= RESPONSE
    ensures var h := DecodeHeader(Reply(ops, m, a)[..HEADER]);
            && h.magic == MAGIC && h.version == VERSION && h.opcode == a.opcode && h.id == a.id
            && |Reply(ops, m, a)| == HEADER + h.payloadLen
  {
    var r := Handle(ops, m, a.opcode, a.payload);
    var h := Header(MAGIC, VERSION, a.opcode, RESPONSE - HEADER + |r.payload|, 0, a.id);
    HeaderRoundTrip(h);
    assert Reply(ops, m, a)[..HEADER] == EncodeHeader(h);
  }

  /** After any number of requests, a header that is not acceptable gets one response,
      -EINVAL, and ends the connection: the manager is as the requests left it, and
      nothing of what follows is looked at. */
  lemma BadHeaderEnds<M>(ops: Manager<M>, m: M, asks: seq<Ask>, tail: seq<Byte>, junk: nat -> Byte)
    requires forall i :: 0 <= i < |asks| ==> Framed(asks[i])
    requires |tail| >= HEADER
    requires var h := DecodeHeader(tail[..HEADER]);
             h.magic != 0x5244_4354 || h.version != 1 || h.payloadLen > 4096
    ensures var h := DecodeHeader(tail[..HEADER]);
            Serve(ops, EncodeAll(asks) + tail, m, junk) ==
            (Replies(ops, m, asks) + Response(h.opcode, h.id, -EINVAL, []), After(ops, m, asks))
  {
    SessionServed(ops, m, asks, tail, junk);
    BadHeader(ops, After(ops, m, asks), tail, junk);
  }

  lemma BadHeader<M>(ops: Manager<M>, m: M, input: seq<Byte>, junk: nat -> Byte)
    requires |input| >= HEADER && !Acceptable(DecodeHeader(input[..HEADER]))
    ensures var h := DecodeHeader(input[..HEADER]);
            Serve(ops, input, m, junk) == (Response(h.opcode, h.id, -EINVAL, []), m)
  {
  }

  // ------------------------------------------------------------------ cut short

  /** A request cut short is dropped without a trace, unless the cut is right after
      its header: then it is carried out on an unread buffer. */
  lemma CutShort<M>(ops: Manager<M>, m: M, a: Ask, cut: nat, junk: nat -> Byte)
    requires Framed(a) && cut < |Encode(a)|
    ensures Serve(ops, Encode(a)[..cut], m, junk) == ([], m) <==> cut != HEADER
    ensures cut == HEADER ==>
              var read := a.(payload := Junk(junk, |a.payload|));
              Serve(ops, Encode(a)[..cut], m, junk) == (Reply(ops, m, read), Next(ops, m, read))
  {
    if cut == HEADER {
      CutAtHeader(ops, m, a, junk);
      assert |Reply(ops, m, a.(payload := Junk(junk, |a.payload|)))| >= RESPONSE;
    } else if cut > HEADER {
      HeaderRoundTrip(HeaderOf(a));
      assert Encode(a)[..cut][..HEADER] == EncodeHeader(HeaderOf(a));
    }
  }

  lemma CutAtHeader<M>(ops: Manager<M>, m: M, a: Ask, junk: nat -> Byte)
    requires Framed(a) && a.payload != []
    ensures var read := a.(payload := Junk(junk, |a.payload|));
            Serve(ops, Encode(a)[..HEADER], m, junk) == (Reply(ops, m, read), Next(ops, m, read))
  {
    PassAtHeader(ops, m, a, junk);
    LastPass(ops, Encode(a)[..HEADER], m, junk);
  }

  lemma LastPass<M>(ops: Manager<M>, input: seq<Byte>, m: M, junk: nat -> Byte)
    requires Pass(ops, input, m, junk).rest == []
    ensures var o := Pass(ops, input, m, junk);
            Serve(ops, input, m, junk) == (o.out, o.m)
  {
    var o := Pass(ops, input, m, junk);
    NothingLeft(ops, o.m, junk);
    assert o.out + [] == o.out;
  }

  lemma PassAtHeader<M>(ops: Manager<M>, m: M, a: Ask, junk: nat -> Byte)
    requires Framed(a) && a.payload != []
    ensures var read := a.(payload := Junk(junk, |a.payload|));
            Pass(ops, Encode(a)[..HEADER], m, junk) == Outcome(Reply(ops, m, read), Next(ops, m, read), [], true)
  {
    var input := Encode(a)[..HEADER];
    HeaderRoundTrip(HeaderOf(a));
    assert input == EncodeHeader(HeaderOf(a)) && input[..HEADER] == input;
  }

  lemma NothingLeft<M>(ops: Manager<M>, m: M, junk: nat -> Byte)
    ensures Serve(ops, [], m, junk) == ([], m)
  {
  }

  // --------------------------------------------------------------- remote calls

  /** How the client library sends each call: opcode, payload and request id. */
  function AskFor(call: Call): Ask
  {
    match call
    case Enable => Ask(URMA_ENABLE, 0, 1, [])
    case Disable => Ask(URMA_DISABLE, 0, 1, [])
    case Connect(info) => Ask(PEER_CONNECT, 0, 1, EncodePeer(info))
    case Disconnect(peerId) => Ask(PEER_DISCONNECT, 0, 1, ToLe(peerId, DISCONNECT_SIZE))
    case Transfer(xfer) => Ask(URMA_TRANSFER, 0, xfer.requestId, EncodeXfer(xfer))
  }

  /** The fields of the call are within the widths of the C structures. */
  predicate Representable(call: Call)
  {
    match call
    case Enable => true
    case Disable => true
    case Connect(info) => Fits(PeerLayout(), PeerFields(info))
    case Disconnect(peerId) => peerId < TWO64
    case Transfer(xfer) => Fits(XferLayout(), XferFields(xfer)) && xfer.requestId < TWO64
  }

  /** The ask is the one the server decodes into this call. */
  ghost predicate Asks(a: Ask, call: Call)
  {
    Framed(a) && a.opcode != QUERY_STATUS && DecodeCall(a.opcode, a.payload) == Good(call)
  }

  lemma ConnectAsks(info: PeerInfo)
    requires Fits(PeerLayout(), PeerFields(info))
    ensures Asks(AskFor(Connect(info)), Connect(info))
  {
    PeerRoundTrip(info);
  }

  lemma DisconnectAsks(peerId: nat)
    requires peerId < TWO64
    ensures Asks(AskFor(Disconnect(peerId)), Disconnect(peerId))
  {
    Widths();
    LeRoundTrip(peerId, 8);
  }

  lemma TransferAsks(xfer: Xfer)
    requires Fits(XferLayout(), XferFields(xfer)) && xfer.requestId < TWO64
    ensures Asks(AskFor(Transfer(xfer)), Transfer(xfer))
  {
    XferRoundTrip(xfer);
  }

  lemma AskDecodes(call: Call)
    requires Representable(call)
    ensures Asks(AskFor(call), call)
  {
    match call
    case Enable =>
    case Disable =>
    case Connect(info) => ConnectAsks(info);
    case Disconnect(peerId) => DisconnectAsks(peerId);
    case Transfer(xfer) => TransferAsks(xfer);
  }

  /** One request on a fresh connection. */
  lemma ServeOneAsk<M>(ops: Manager<M>, m: M, a: Ask, junk: nat -> Byte)
    requires Framed(a)
    ensures Serve(ops, Encode(a), m, junk) == (Reply(ops, m, a), Next(ops, m, a))
  {
    assert Encode(a) + [] == Encode(a);
    ServeStep(ops, m, a, [], junk);
    NothingLeft(ops, Next(ops, m, a), junk);
    assert Reply(ops, m, a) + [] == Reply(ops, m, a);
  }

  lemma ReceiveResponse(opcode: nat, id: nat, rc: int, payload: seq<Byte>, capacity: nat)
    requires opcode < 0x1_0000 && id < TWO64 && IsI32(rc) && |payload| < TWO32 - 8
    ensures Received(Response(opcode, id, rc, payload), capacity) ==
            if |payload| != 0 && capacity < |payload| then (-ENOSPC, []) else (rc, payload)
  {
    ResponseReads(opcode, id, rc, payload);
    assert payload[..|payload|] == payload;
  }

  /** Client and server composed: the manager sees exactly the call that was made,
      and its answer is what the client returns. */
  lemma RemoteCallIsCall<M>(ops: Manager<M>, m: M, call: Call, junk: nat -> Byte)
    requires Representable(call) && IsI32(ops.answer(m, call))
    ensures var a := AskFor(call);
            var r := Serve(ops, Request(a.opcode, a.id, a.payload), m, junk);
            r.1 == ops.perform(m, call) && Received(r.0, 0) == (ops.answer(m, call), [])
  {
    var a := AskFor(call);
    AskDecodes(call);
    assert Request(a.opcode, a.id, a.payload) == Encode(a);
    ServeOneAsk(ops, m, a, junk);
    ReceiveResponse(a.opcode, a.id, ops.answer(m, call), [], 0);
  }

  /** ramdisk_ctrl_query_status gives the manager's own status. */
  lemma RemoteStatusIsStatus<M>(ops: Manager<M>, m: M, junk: nat -> Byte)
    requires Fits(StatusLayout(), StatusFields(ops.status(m)))
    ensures var r := Serve(ops, Request(QUERY_STATUS, 1, []), m, junk);
            var got := Received(r.0, STATUS_SIZE);
            r.1 == m && got.0 == 0 && |got.1| == STATUS_SIZE && DecodeState(got.1) == ops.status(m)
  {
    var a := Ask(QUERY_STATUS, 0, 1, []);
    assert Request(a.opcode, a.id, a.payload) == Encode(a);
    ServeOneAsk(ops, m, a, junk);
    ReceiveResponse(a.opcode, a.id, 0, EncodeState(ops.status(m)), STATUS_SIZE);
    StateRoundTrip(ops.status(m));
  }

  /** Size each opcode insists on; the others take any payload. */
  function SizeFor(opcode: nat): Option<nat>
  {
    if opcode == PEER_CONNECT then Some(CONNECT_SIZE)
    else if opcode == PEER_DISCONNECT then Some(DISCONNECT_SIZE)
    else if opcode == URMA_TRANSFER then Some(TRANSFER_SIZE)
    else None
  }

  /** A wrong size, an unknown opcode or a payload beyond the limit never reaches the
      manager, and the client is told which it was. */
  lemma RefusedRemotely<M>(ops: Manager<M>, m: M, a: Ask, junk: nat -> Byte)
    requires Sendable(a)
    requires || |a.payload| > MAX_PAYLOAD
             || (SizeFor(a.opcode).Some? && SizeFor(a.opcode).value != |a.payload|)
             || !(QUERY_STATUS <= a.opcode <= URMA_TRANSFER)
    ensures var r := Serve(ops, Encode(a), m, junk);
            && r.1 == m
            && Received(r.0, 0) ==
               (if |a.payload| > MAX_PAYLOAD || SizeFor(a.opcode).Some? then -EINVAL else -EOPNOTSUPP, [])
  {
    if |a.payload| > MAX_PAYLOAD {
      HeadOf(a, []);
      assert Encode(a) + [] == Encode(a);
      BadHeader(ops, m, Encode(a), junk);
      ReceiveResponse(a.opcode, a.id, -EINVAL, [], 0);
    } else {
      ServeOneAsk(ops, m, a, junk);
      ReceiveResponse(a.opcode, a.id, if SizeFor(a.opcode).Some? then -EINVAL else -EOPNOTSUPP, [], 0);
    }
  }

  // ---------------------------------------------------------- what the client accepts

  /** What a client makes of any stream: EPIPE if it ends before the response or before its
      payload, EPROTO on a foreign magic number or version, ENOSPC if the payload has no
      room, and otherwise the status and the payload. */
  lemma ReceivedIs(input: seq<Byte>, capacity: nat)
    ensures |input| < 32 ==> Received(input, capacity) == (-EPIPE, [])
    ensures |input| >= 32 ==>
              var magic, version := Field(input, 0, 4), Field(input, 4, 2);
              var status, len := Field(input, 24, 4), Field(input, 28, 4);
              Received(input, capacity) ==
              if magic != 0x5244_4354 || version != 1 then (-EPROTO, [])
              else if len > capacity then (-ENOSPC, [])
              else if |input| < 32 + len then (-EPIPE, [])
              else (if status < 0x8000_0000 then status else status - 0x1_0000_0000, input[32..32 + len])
  {
    if |input| >= 32 {
      HeaderIs(input[..24]);
      assert input[..24][0..4] == input[0..4] && input[..24][4..6] == input[4..6];
      assert input[24..24 + 4] == input[HEADER..HEADER + 4] && input[28..28 + 4] == input[HEADER + 4..RESPONSE];
      var len := Field(input, 28, 4);
      if |input| >= 32 + len {
        assert input[32..][..len] == input[32..32 + len];
      }
    }
  }

  // ------------------------------------------------------------ what a request does

  /** A status query, an enable or a disable does its work whatever payload comes with it. */
  lemma PayloadIgnored<M>(ops: Manager<M>, m: M, a: Ask)
    ensures a.opcode == 1 ==> Next(ops, m, a) == m && Handle(ops, m, a.opcode, a.payload).rc == 0
    ensures a.opcode == 2 ==>
              Next(ops, m, a) == ops.perform(m, Enable)
              && Handle(ops, m, a.opcode, a.payload).rc == ops.answer(m, Enable)
    ensures a.opcode == 3 ==>
              Next(ops, m, a) == ops.perform(m, Disable)
              && Handle(ops, m, a.opcode, a.payload).rc == ops.answer(m, Disable)
  {
  }
}
