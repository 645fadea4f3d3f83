/** The control server of userspace-nbd/src/ramdisk_ctrl_server.c, and the client call
    of ramdisk_ctrl_client.c that talks to it. */
module Ctrl {
  import opened Common
  import opened Codec
  import opened CtrlWire
  import opened Socket

  const QUERY_STATUS: nat := 1
  const URMA_ENABLE: nat := 2
  const URMA_DISABLE: nat := 3
  const PEER_CONNECT: nat := 4
  const PEER_DISCONNECT: nat := 5
  const URMA_TRANSFER: nat := 6

  /** The calls the server makes into the manager. */
  datatype Call = Enable | Disable | Connect(info: PeerInfo) | Disconnect(peerId: nat) | Transfer(xfer: Xfer)

  /** The manager and backend behind the server, in any state and of any behaviour. */
  datatype Manager<!M> = Manager(perform: (M, Call) -> M, answer: (M, Call) -> int, status: M -> Status)

  // ------------------------------------------------------- one request's meaning

  datatype Decoded = Bad(rc: int) | Good(call: Call)

  /** The call a request asks for; sizes that do not match are refused unread. */
  function DecodeCall(opcode: nat, payload: seq<Byte>): Decoded
  {
    if opcode == URMA_ENABLE then Good(Enable)
    else if opcode == URMA_DISABLE then Good(Disable)
    else if opcode == PEER_CONNECT then
      if |payload| != CONNECT_SIZE then Bad(-EINVAL) else Good(Connect(DecodePeer(payload)))
    else if opcode == PEER_DISCONNECT then
      if |payload| != DISCONNECT_SIZE then Bad(-EINVAL) else Good(Disconnect(FromLe(payload)))
    else if opcode == URMA_TRANSFER then
      if |payload| != TRANSFER_SIZE then Bad(-EINVAL) else Good(Transfer(DecodeXfer(payload)))
    else Bad(-EOPNOTSUPP)
  }

  /** New manager state, status and response payload. */
  datatype Handled<M> = Handled(m: M, rc: int, payload: seq<Byte>)

  function Handle<M>(ops: Manager<M>, m: M, opcode: nat, payload: seq<Byte>): Handled<M>
  {
    if opcode == QUERY_STATUS then Handled(m, 0, EncodeState(ops.status(m)))
    else
      match DecodeCall(opcode, payload)
      case Bad(rc) => Handled(m, rc, [])
      case Good(call) => Handled(ops.perform(m, call), ops.answer(m, call), [])
  }

  function Answered<M>(ops: Manager<M>, m: M, opcode: nat, id: nat, payload: seq<Byte>): seq<Byte>
  {
    var h := Handle(ops, m, opcode, payload);
    Response(opcode, id, h.rc, h.payload)
  }

  // ---------------------------------------------------- meaning of a byte stream

  predicate Acceptable(h: Header)
  {
    h.magic == MAGIC && h.version == VERSION && h.payloadLen <= MAX_PAYLOAD
  }

  /** The part of the uninitialised buffer a request without its payload would use. */
  function Junk(junk: nat -> Byte, len: nat): (r: seq<Byte>)
    ensures |r| == len
  {
    seq(len, i requires 0 <= i < len => junk(i))
  }

  datatype Outcome<M> = Outcome(out: seq<Byte>, m: M, rest: seq<Byte>, more: bool)

  /** One pass of serve_client. */
  function Pass<M>(ops: Manager<M>, input: seq<Byte>, m: M, junk: nat -> Byte): (o: Outcome<M>)
    ensures o.more ==> |o.rest| < |input|
  {
    if |input| < HEADER then Outcome([], m, [], false)
    else
      var h := DecodeHeader(input[..HEADER]);
      var rest := input[HEADER..];
      if !Acceptable(h) then Outcome(Response(h.opcode, h.id, -EINVAL, []), m, [], false)
      else if 0 < |rest| < h.payloadLen then Outcome([], m, [], false)
      else
        var n := if |rest| >= h.payloadLen then h.payloadLen else 0;
        var payload := if |rest| >= h.payloadLen then rest[..n] else Junk(junk, h.payloadLen);
        Outcome(Answered(ops, m, h.opcode, h.id, payload), Handle(ops, m, h.opcode, payload).m, rest[n..], true)
  }

  /** All the server sends on a connection, and the manager afterwards. */
  function Serve<M>(ops: Manager<M>, input: seq<Byte>, m: M, junk: nat -> Byte): (seq<Byte>, M)
    decreases |input|
  {
    var o := Pass(ops, input, m, junk);
    if !o.more then (o.out, o.m)
    else
      var t := Serve(ops, o.rest, o.m, junk);
      (o.out + t.0, t.1)
  }

  // ----------------------------------------------------------------- the server

  class Server<M(0)> {
    const ops: Manager<M>
    var state: M

    constructor (ops: Manager<M>, state: M)
      ensures this.ops == ops && this.state == state
    {
      this.ops, this.state := ops, state;
    }

    method SendResponse(sock: Stream, opcode: nat, id: nat, rc: int, payload: seq<Byte>) returns (n: int)
      modifies sock`output, sock`turns
      ensures Healthy(old(sock.turns)) ==>
                Healthy(sock.turns) && n >= 0 && sock.output == old(sock.output) + Response(opcode, id, rc, payload)
    {
      var head := EncodeHeader(Header(MAGIC, VERSION, opcode, RESPONSE - HEADER + |payload|, 0, id))
                  + EncodeStatus(rc, |payload|);
      n := sock.WriteFull(head);
      if n < 0 {
        return;
      }
      if |payload| != 0 {
        n := sock.WriteFull(payload);
      }
    }

    /** handle_request. */
    method HandleRequest(sock: Stream, hdr: Header, payload: seq<Byte>) returns (n: int)
      modifies sock`output, sock`turns, this
      ensures Healthy(old(sock.turns)) ==>
                && Healthy(sock.turns) && n >= 0
                && sock.output == old(sock.output) + Answered(ops, old(state), hdr.opcode, hdr.id, payload)
                && state == Handle(ops, old(state), hdr.opcode, payload).m
    {
      if hdr.opcode == QUERY_STATUS {
        n := SendResponse(sock, hdr.opcode, hdr.id, 0, EncodeState(ops.status(state)));
        return;
      }
      var rc;
      match DecodeCall(hdr.opcode, payload) {
        case Bad(e) =>
          rc := e;
        case Good(call) =>
          rc := ops.answer(state, call);
          state := ops.perform(state, call);
      }
      n := SendResponse(sock, hdr.opcode, hdr.id, rc, []);
    }

    /** One pass of the loop. Only an error of read_full ends it: a stream that ends
        right after the header goes on with whatever the buffer holds. */
    method ServeOne(sock: Stream, junk: nat -> Byte) returns (more: bool)
      modifies sock, this
      ensures more ==> |sock.input| < |old(sock.input)|
      ensures Healthy(old(sock.turns)) ==>
                var o := Pass(ops, old(sock.input), old(state), junk);
                && Healthy(sock.turns) && more == o.more
                && sock.output == old(sock.output) + o.out && state == o.m
                && (more ==> sock.input == o.rest)
    {
      var n, head := sock.ReadFull(HEADER);
      if n <= 0 || |head| != HEADER {
        return false;
      }
      var h := DecodeHeader(head);
      if !Acceptable(h) {
        n := SendResponse(sock, h.opcode, h.id, -EINVAL, []);
        return false;
      }
      var payload := [];
      if h.payloadLen != 0 {
        n, payload := sock.ReadFull(h.payloadLen);
        if n < 0 {
          return false;
        }
        if |payload| != h.payloadLen {
          payload := Junk(junk, h.payloadLen);
        }
      }
      n := HandleRequest(sock, h, payload);
      more := n >= 0;
    }

    /** serve_client: for every input, however the socket chunks or interrupts it. */
    method ServeClient(sock: Stream, junk: nat -> Byte)
      modifies sock, this
      ensures Healthy(old(sock.turns)) ==>
                var r := Serve(ops, old(sock.input), old(state), junk);
                sock.output == old(sock.output) + r.0 && state == r.1
    {
      ghost var goal := Serve(ops, sock.input, state, junk);
      var more := true;
      while more
        invariant Healthy(old(sock.turns)) ==> Healthy(sock.turns)
        invariant Healthy(old(sock.turns)) ==>
                    var r := ToGo(ops, more, sock.input, state, junk);
                    old(sock.output) + goal.0 == sock.output + r.0 && goal.1 == r.1
        decreases more, |sock.input|
      {
        ghost var input, m, sent := sock.input, state, sock.output;
        more := ServeOne(sock, junk);
        if Healthy(old(sock.turns)) {
          GoOn(ops, input, m, junk, old(sock.output) + goal.0, sent);
        }
      }
    }
  }

  /** What is still to be sent, and the manager at the end. */
  ghost function ToGo<M>(ops: Manager<M>, more: bool, input: seq<Byte>, m: M, junk: nat -> Byte): (seq<Byte>, M)
  {
    if more then Serve(ops, input, m, junk) else ([], m)
  }

  /** After one pass the server is to send what the pass did not. */
  lemma GoOn<M>(ops: Manager<M>, input: seq<Byte>, m: M, junk: nat -> Byte, goal: seq<Byte>, sent: seq<Byte>)
    requires goal == sent + Serve(ops, input, m, junk).0
    ensures var o := Pass(ops, input, m, junk);
            && goal == sent + o.out + ToGo(ops, o.more, o.rest, o.m, junk).0
            && Serve(ops, input, m, junk).1 == ToGo(ops, o.more, o.rest, o.m, junk).1
  {
  }

  // ----------------------------------------------------------------- the client

  /** What transact returns for what comes back: its status, or why there is none. */
  function Received(input: seq<Byte>, capacity: nat): (int, seq<Byte>)
  {
    if |input| < RESPONSE then (-EPIPE, [])
    else
      var h := DecodeHeader(input[..HEADER]);
      var rc := FromI32(FromLe(input[HEADER..HEADER + 4]));
      var len := FromLe(input[HEADER + 4..RESPONSE]);
      var rest := input[RESPONSE..];
      if h.magic != MAGIC || h.version != VERSION then (-EPROTO, [])
      else if len != 0 && capacity < len then (-ENOSPC, [])
      else if |rest| < len then (-EPIPE, [])
      else (rc, rest[..len])
  }

  function Request(opcode: nat, id: nat, payload: seq<Byte>): seq<Byte>
  {
    EncodeHeader(Header(MAGIC, VERSION, opcode, |payload|, 0, id)) + payload
  }

  /** The client's read_full, for which any end of the stream is an error. */
  method ReadAll(sock: Stream, len: nat) returns (n: int, data: seq<Byte>)
    modifies sock`input, sock`turns
    ensures Healthy(old(sock.turns)) ==> Healthy(sock.turns)
    ensures Healthy(old(sock.turns)) && |old(sock.input)| >= len ==>
              n == len && data == old(sock.input)[..len] && sock.input == old(sock.input)[len..]
    ensures Healthy(old(sock.turns)) && |old(sock.input)| < len ==> n == -EPIPE
    ensures n >= 0 ==> |data| == len
  {
    n, data := sock.ReadFull(len);
    if n == 0 && len > 0 {
      n := -EPIPE;
    }
  }

  /** ramdisk_ctrl_transact on a connected socket; no buffer is capacity 0. */
  method Transact(sock: Stream, opcode: nat, payload: seq<Byte>, capacity: nat, id: nat)
    returns (rc: int, data: seq<Byte>)
    modifies sock
    ensures Healthy(old(sock.turns)) ==>
              && sock.output == old(sock.output) + Request(opcode, id, payload)
              && (rc, data) == Received(old(sock.input), capacity)
  {
    data := [];
    rc := sock.WriteFull(EncodeHeader(Header(MAGIC, VERSION, opcode, |payload|, 0, id)));
    if rc < 0 {
      return;
    }
    if |payload| != 0 {
      rc := sock.WriteFull(payload);
      if rc < 0 {
        return;
      }
    }
    ghost var input := sock.input;
    var resp;
    rc, resp := ReadAll(sock, RESPONSE);
    if rc < 0 {
      return;
    }
    assert Healthy(old(sock.turns)) ==>
             && resp[..HEADER] == input[..HEADER] && resp[HEADER..HEADER + 4] == input[HEADER..HEADER + 4]
             && resp[HEADER + 4..RESPONSE] == input[HEADER + 4..RESPONSE];
    var h := DecodeHeader(resp[..HEADER]);
    if h.magic != MAGIC || h.version != VERSION {
      return -EPROTO, [];
    }
    var len := FromLe(resp[HEADER + 4..RESPONSE]);
    if len != 0 {
      if capacity < len {
        return -ENOSPC, [];
      }
      rc, data := ReadAll(sock, len);
      if rc < 0 {
        return rc, [];
      }
    }
    rc := FromI32(FromLe(resp[HEADER..HEADER + 4]));
  }
}
