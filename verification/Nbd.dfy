/** The NBD request loop of userspace-nbd/src/nbd_ramdisk.c over the backend. Messages
    are those of the NBD protocol (doc/proto.md of the NetworkBlockDevice project,
    sections "Request message" and "Simple reply message"). */
module Nbd {
  import opened Common
  import opened Codec
  import opened Socket
  import opened Backend

  const REQUEST_MAGIC: nat := 0x2560_9513
  const REPLY_MAGIC: nat := 0x6744_6698

  const READ: nat := 0
  const WRITE: nat := 1
  const DISC: nat := 2
  const FLUSH: nat := 3
  const TRIM: nat := 4

  const HEADER: nat := 28

  /** The daemon runs on little-endian hosts. */
  const HOST: Host := Little

  /** struct ramdisk_nbd_request after the byte-order conversions. */
  datatype Request = Request(magic: nat, kind: nat, handle: seq<Byte>, from: nat, len: nat)

  function Parse(b: seq<Byte>): Request
    requires |b| == HEADER
  {
    Request(Ntohl(HOST, Load(HOST, b[0..4])), Ntohl(HOST, Load(HOST, b[4..8])), b[8..16],
            Ntohll(HOST, Load(HOST, b[16..24])), Ntohl(HOST, Load(HOST, b[24..28])))
  }

  function Abs(rc: int): nat
  {
    if rc < 0 then -rc else rc
  }

  /** send_reply: magic, error and the request's handle. */
  function Reply(handle: seq<Byte>, rc: int): seq<Byte>
  {
    ToBe(REPLY_MAGIC, 4) + ToBe(Abs(rc), 4) + handle
  }

  // --------------------------------------------------- meaning of a byte stream

  /** The server between two requests: the disk and the reused buffer, which is
      NULL exactly while it is empty. */
  datatype Server = Server(disk: seq<Byte>, buf: seq<Byte>)

  /** realloc when the request needs more; the new bytes are whatever was there, and
      something else at every growth. */
  function Grown(buf: seq<Byte>, len: nat, junk: (nat, nat) -> Byte): (r: seq<Byte>)
    ensures |r| == if len > |buf| then len else |buf|
    ensures buf <= r && forall i :: |buf| <= i < |r| ==> r[i] == junk(len, i - |buf|)
  {
    if len > |buf| then buf + seq(len - |buf|, i requires 0 <= i < len - |buf| => junk(len, i)) else buf
  }

  /** ramdisk_backend_read and _write refuse a NULL buffer before all else. */
  function IoRc(s: Server, from: nat, len: nat): int
  {
    if s.buf == [] then -EINVAL else RangeRc(|s.disk|, from, len)
  }

  function Fill(buf: seq<Byte>, data: seq<Byte>): seq<Byte>
    requires |data| <= |buf|
  {
    data + buf[|data|..]
  }

  /** One request: what is sent, the new server, and whether the loop goes on. */
  datatype Outcome = Outcome(out: seq<Byte>, s: Server, more: bool)

  function DoRead(s: Server, r: Request): Outcome
    requires r.len <= |s.buf|
  {
    var rc := IoRc(s, r.from, r.len);
    if rc != 0 then Outcome(Reply(r.handle, rc), s, true)
    else
      var data := s.disk[r.from..r.from + r.len];
      Outcome(Reply(r.handle, 0) + data, s.(buf := Fill(s.buf, data)), true)
  }

  /** The payload is in the buffer. */
  function DoWrite(s: Server, r: Request): Outcome
    requires r.len <= |s.buf|
  {
    var rc := IoRc(s, r.from, r.len);
    Outcome(Reply(r.handle, rc),
            if rc == 0 then s.(disk := Overwrite(s.disk, r.from, s.buf[..r.len])) else s, true)
  }

  function DoTrim(s: Server, r: Request): Outcome
  {
    var rc := RangeRc(|s.disk|, r.from, r.len);
    Outcome(Reply(r.handle, rc),
            if rc == 0 then s.(disk := Overwrite(s.disk, r.from, Zeros(r.len))) else s, true)
  }

  function DoOther(s: Server, r: Request): Outcome
    requires r.kind != READ && r.kind != WRITE
  {
    if r.kind == FLUSH then Outcome(Reply(r.handle, 0), s, true)
    else if r.kind == TRIM then DoTrim(s, r)
    else if r.kind == DISC then Outcome(Reply(r.handle, 0), s, false)
    else Outcome(Reply(r.handle, -EIO), s, true)
  }

  /** One pass of the loop: the outcome and the input that remains. */
  function Pass(input: seq<Byte>, s: Server, junk: (nat, nat) -> Byte): (p: (Outcome, seq<Byte>))
    ensures p.0.more ==> |p.1| < |input|
  {
    if |input| < HEADER || Parse(input[..HEADER]).magic != REQUEST_MAGIC then (Outcome([], s, false), [])
    else
      var r := Parse(input[..HEADER]);
      var rest := input[HEADER..];
      var g := s.(buf := Grown(s.buf, r.len, junk));
      if r.kind == READ then (DoRead(g, r), rest)
      else if r.kind != WRITE then (DoOther(g, r), rest)
      else if |rest| >= r.len then (DoWrite(g.(buf := Fill(g.buf, rest[..r.len])), r), rest[r.len..])
      else if rest == [] then (DoWrite(g, r), [])
      else (Outcome([], s, false), [])
  }

  /** What serve_nbd sends and leaves on the disk, for any input whatever. */
  function Serve(input: seq<Byte>, s: Server, junk: (nat, nat) -> Byte): (seq<Byte>, seq<Byte>)
    decreases |input|
  {
    var p := Pass(input, s, junk);
    if !p.0.more then (p.0.out, p.0.s.disk)
    else
      var t := Serve(p.1, p.0.s, junk);
      (p.0.out + t.0, t.1)
  }

  // -------------------------------------------------------------------- the code

  method SendReply(sock: Stream, handle: seq<Byte>, rc: int) returns (n: int)
    modifies sock`output, sock`turns
    ensures Healthy(old(sock.turns)) ==>
              Healthy(sock.turns) && n >= 0 && sock.output == old(sock.output) + Reply(handle, rc)
  {
    n := sock.WriteFull(Reply(handle, rc));
  }

  /** serve_nbd. For every input, however the socket chunks or interrupts it. */
  method ServeNbd(sock: Stream, disk: RamdiskBackend, junk: (nat, nat) -> Byte)
    modifies sock, disk.base
    ensures Healthy(old(sock.turns)) ==>
              var r := Serve(old(sock.input), Server(old(disk.base[..]), []), junk);
              sock.output == old(sock.output) + r.0 && disk.base[..] == r.1
  {
    ghost var goal := ToGo(true, sock.input, Server(disk.base[..], []), junk);
    var buf: seq<Byte> := [];
    var more := true;
    while more
      invariant Healthy(old(sock.turns)) ==> Healthy(sock.turns)
      invariant Healthy(old(sock.turns)) ==>
                  var r := ToGo(more, sock.input, Server(disk.base[..], buf), junk);
                  old(sock.output) + goal.0 == sock.output + r.0 && goal.1 == r.1
      decreases more, |sock.input|
    {
      more, buf := ServeAndGoOn(sock, disk, buf, junk);
    }
  }

  /** What is still to be sent, and the disk at the end. */
  ghost function ToGo(more: bool, input: seq<Byte>, s: Server, junk: (nat, nat) -> Byte): (seq<Byte>, seq<Byte>)
  {
    if more then Serve(input, s, junk) else ([], s.disk)
  }

  method ServeAndGoOn(sock: Stream, disk: RamdiskBackend, buf: seq<Byte>, junk: (nat, nat) -> Byte)
    returns (more: bool, buf': seq<Byte>)
    modifies sock, disk.base
    ensures more ==> |sock.input| < |old(sock.input)|
    ensures Healthy(old(sock.turns)) ==>
              var before := ToGo(true, old(sock.input), Server(old(disk.base[..]), buf), junk);
              var after := ToGo(more, sock.input, Server(disk.base[..], buf'), junk);
              && Healthy(sock.turns)
              && old(sock.output) + before.0 == sock.output + after.0 && before.1 == after.1
  {
    ghost var input, s, sent := sock.input, Server(disk.base[..], buf), sock.output;
    more, buf' := ServeOne(sock, disk, buf, junk);
    GoOn(input, s, junk, sent);
  }

  /** After one pass the server is to send what the pass did not. */
  lemma GoOn(input: seq<Byte>, s: Server, junk: (nat, nat) -> Byte, sent: seq<Byte>)
    ensures var p := Pass(input, s, junk);
            && sent + ToGo(true, input, s, junk).0 == sent + p.0.out + ToGo(p.0.more, p.1, p.0.s, junk).0
            && ToGo(true, input, s, junk).1 == ToGo(p.0.more, p.1, p.0.s, junk).1
  {
    var p := Pass(input, s, junk);
    var t := ToGo(p.0.more, p.1, p.0.s, junk);
    ServeUnfold(input, s, junk);
    Regroup(sent, p.0.out, t.0);
  }

  lemma ServeUnfold(input: seq<Byte>, s: Server, junk: (nat, nat) -> Byte)
    ensures var p := Pass(input, s, junk); var t := ToGo(p.0.more, p.1, p.0.s, junk);
            Serve(input, s, junk) == (p.0.out + t.0, t.1)
  {
    var p := Pass(input, s, junk);
    assert p.0.out + [] == p.0.out;
  }

  lemma Regroup(a: seq<Byte>, b: seq<Byte>, c: seq<Byte>)
    ensures (a + b) + c == a + (b + c)
  {
  }

  method ServeOne(sock: Stream, disk: RamdiskBackend, buf: seq<Byte>, junk: (nat, nat) -> Byte)
    returns (more: bool, buf': seq<Byte>)
    modifies sock, disk.base
    ensures more ==> |sock.input| < |old(sock.input)|
    ensures Healthy(old(sock.turns)) ==>
              var p := Pass(old(sock.input), Server(old(disk.base[..]), buf), junk);
              && Healthy(sock.turns) && more == p.0.more
              && sock.output == old(sock.output) + p.0.out && disk.base[..] == p.0.s.disk
              && (more ==> sock.input == p.1 && buf' == p.0.s.buf)
  {
    var n, head := sock.ReadFull(HEADER);
    if n <= 0 || |head| != HEADER {
      return false, buf;
    }
    var r := Parse(head);
    if r.magic != REQUEST_MAGIC {
      return false, buf;
    }
    buf' := Grown(buf, r.len, junk);
    if r.kind == READ {
      more, buf' := HandleRead(sock, disk, buf', r);
    } else if r.kind == WRITE {
      more, buf' := HandleWrite(sock, disk, buf', r);
    } else {
      more := HandleOther(sock, disk, buf', r);
    }
  }

  method HandleRead(sock: Stream, disk: RamdiskBackend, buf: seq<Byte>, r: Request)
    returns (ok: bool, buf': seq<Byte>)
    requires r.len <= |buf|
    modifies sock`output, sock`turns
    ensures Healthy(old(sock.turns)) ==>
              var o := DoRead(Server(disk.base[..], buf), r);
              Healthy(sock.turns) && ok && sock.output == old(sock.output) + o.out && buf' == o.s.buf
  {
    buf' := buf;
    var rc, data := -EINVAL, [];
    if buf != [] {
      rc, data := disk.Read(r.from, r.len);
    }
    var n := SendReply(sock, r.handle, rc);
    if n < 0 {
      return false, buf';
    }
    if rc == 0 {
      buf' := Fill(buf, data);
      n := sock.WriteFull(buf'[..r.len]);
      if n < 0 {
        return false, buf';
      }
    }
    ok := true;
  }

  /** Line 183 gives up only when read_full returns an error: at the end of the stream
      it returns 0 and the stale buffer is written. */
  method HandleWrite(sock: Stream, disk: RamdiskBackend, buf: seq<Byte>, r: Request)
    returns (ok: bool, buf': seq<Byte>)
    requires r.len <= |buf|
    modifies sock, disk.base
    ensures |sock.input| <= |old(sock.input)|
    ensures Healthy(old(sock.turns)) ==> Healthy(sock.turns)
    ensures Healthy(old(sock.turns)) && 0 < |old(sock.input)| < r.len ==>
              !ok && sock.output == old(sock.output) && disk.base[..] == old(disk.base[..])
    ensures Healthy(old(sock.turns)) && !(0 < |old(sock.input)| < r.len) ==>
              var got := if |old(sock.input)| >= r.len then r.len else 0;
              var full := if |old(sock.input)| >= r.len then Fill(buf, old(sock.input)[..r.len]) else buf;
              var o := DoWrite(Server(old(disk.base[..]), full), r);
              && ok && sock.input == old(sock.input)[got..] && buf' == full
              && sock.output == old(sock.output) + o.out && disk.base[..] == o.s.disk
  {
    buf' := buf;
    var n, data := sock.ReadFull(r.len);
    if n < 0 {
      return false, buf';
    }
    if n == r.len && |data| == r.len {
      buf' := Fill(buf, data);
    }
    var rc := -EINVAL;
    if buf' != [] {
      rc := disk.Write(r.from, buf'[..r.len]);
    }
    n := SendReply(sock, r.handle, rc);
    ok := n >= 0;
  }

  method HandleOther(sock: Stream, disk: RamdiskBackend, buf: seq<Byte>, r: Request) returns (more: bool)
    requires r.kind != READ && r.kind != WRITE
    modifies sock`output, sock`turns, disk.base
    ensures Healthy(old(sock.turns)) ==>
              var o := DoOther(Server(old(disk.base[..]), buf), r);
              && Healthy(sock.turns) && more == o.more
              && sock.output == old(sock.output) + o.out && disk.base[..] == o.s.disk && buf == o.s.buf
  {
    var rc := 0;
    if r.kind == TRIM {
      rc := disk.Zero(r.from, r.len);
    } else if r.kind != FLUSH && r.kind != DISC {
      rc := -EIO;
    }
    var n := SendReply(sock, r.handle, rc);
    more := n >= 0 && r.kind != DISC;
  }
}
