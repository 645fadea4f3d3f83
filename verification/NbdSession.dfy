/** What a client of the NBD loop gets: the meaning of a list of commands. */
module NbdSession {
  import opened Common
  import opened Codec
  import opened Backend
  import opened Nbd

  /** A command as the client means it; only writes carry data. */
  datatype Command = Command(kind: nat, handle: seq<Byte>, from: nat, len: nat, data: seq<Byte>)

  predicate WellFormed(c: Command)
  {
    c.kind < TWO32 && |c.handle| == 8 && c.from < TWO64 && c.len < TWO32
    && |c.data| == if c.kind == WRITE then c.len else 0
  }

  predicate AllWellFormed(cs: seq<Command>)
  {
    cs == [] || (WellFormed(cs[0]) && AllWellFormed(cs[1..]))
  }

  function Encode(c: Command): seq<Byte>
  {
    ToBe(REQUEST_MAGIC, 4) + ToBe(c.kind, 4) + c.handle + ToBe(c.from, 8) + ToBe(c.len, 4) + c.data
  }

  function EncodeAll(cs: seq<Command>): seq<Byte>
  {
    if cs == [] then [] else Encode(cs[0]) + EncodeAll(cs[1..])
  }

  // ------------------------------------------------------------------- meaning

  /** The status of a command. `unused`: no command so far had a length, so the
      server has no buffer yet and refuses a read or write of length zero. */
  function Status(c: Command, disk: seq<Byte>, unused: bool): int
  {
    if c.kind == READ || c.kind == WRITE then
      if unused && c.len == 0 then -EINVAL else RangeRc(|disk|, c.from, c.len)
    else if c.kind == TRIM then RangeRc(|disk|, c.from, c.len)
    else if c.kind == FLUSH || c.kind == DISC then 0
    else -EIO
  }

  /** Status with the command's own handle, then the data a read asked for. */
  function Answer(c: Command, disk: seq<Byte>, unused: bool): seq<Byte>
  {
    var rc := Status(c, disk, unused);
    Reply(c.handle, rc) + if c.kind == READ && rc == 0 then disk[c.from..c.from + c.len] else []
  }

  function Effect(c: Command, disk: seq<Byte>, unused: bool): seq<Byte>
    requires WellFormed(c)
  {
    if Status(c, disk, unused) != 0 then disk
    else if c.kind == WRITE then Overwrite(disk, c.from, c.data)
    else if c.kind == TRIM then Overwrite(disk, c.from, Zeros(c.len))
    else disk
  }

  /** The answers in order and the final disk; a disconnect ends the session. */
  function Session(cs: seq<Command>, disk: seq<Byte>, unused: bool): (seq<Byte>, seq<Byte>)
    requires AllWellFormed(cs)
    decreases |cs|
  {
    if cs == [] then ([], disk)
    else
      var c := cs[0];
      var out := Answer(c, disk, unused);
      if c.kind == DISC then (out, disk)
      else
        var rest := Session(cs[1..], Effect(c, disk, unused), unused && c.len == 0);
        (out + rest.0, rest.1)
  }

  // --------------------------------------------------------------------- proof

  /** The fields of a packed message are its parts. */
  lemma Fields(a: seq<Byte>, b: seq<Byte>, c: seq<Byte>, d: seq<Byte>, e: seq<Byte>, rest: seq<Byte>)
    requires |a| == 4 && |b| == 4 && |c| == 8 && |d| == 8 && |e| == 4
    ensures var m := a + b + c + d + e + rest;
            && m[..28][0..4] == a && m[..28][4..8] == b && m[..28][8..16] == c && m[..28][16..24] == d
            && m[..28][24..28] == e && m[28..] == rest
  {
  }

  lemma ParseEncode(c: Command, rest: seq<Byte>)
    requires WellFormed(c)
    ensures |Encode(c)| == HEADER + |c.data|
    ensures (Encode(c) + rest)[HEADER..] == c.data + rest
    ensures Parse((Encode(c) + rest)[..HEADER]) == Request(REQUEST_MAGIC, c.kind, c.handle, c.from, c.len)
  {
    var magic, kind, from, len := ToBe(REQUEST_MAGIC, 4), ToBe(c.kind, 4), ToBe(c.from, 8), ToBe(c.len, 4);
    var m := magic + kind + c.handle + from + len + (c.data + rest);
    Fields(magic, kind, c.handle, from, len, c.data + rest);
    Regroup(magic + kind + c.handle + from + len, c.data, rest);
    ParseFields(c, m);
  }

  lemma ParseFields(c: Command, m: seq<Byte>)
    requires WellFormed(c) && |m| >= HEADER
    requires m[..HEADER][0..4] == ToBe(REQUEST_MAGIC, 4) && m[..HEADER][4..8] == ToBe(c.kind, 4)
    requires m[..HEADER][8..16] == c.handle && m[..HEADER][16..24] == ToBe(c.from, 8)
    requires m[..HEADER][24..28] == ToBe(c.len, 4)
    ensures Parse(m[..HEADER]) == Request(REQUEST_MAGIC, c.kind, c.handle, c.from, c.len)
  {
    Widths();
    FieldRead(REQUEST_MAGIC);
    FieldRead(c.kind);
    FieldRead(c.len);
    BeRoundTrip(c.from, 8);
    NtohllLittle(ToBe(c.from, 8));
  }

  lemma FieldRead(v: nat)
    requires v < TWO32
    ensures Ntohl(HOST, Load(HOST, ToBe(v, 4))) == v
  {
    Widths();
    BeRoundTrip(v, 4);
    NtohlLittle(ToBe(v, 4));
  }

  function Header(c: Command): Request
  {
    Request(REQUEST_MAGIC, c.kind, c.handle, c.from, c.len)
  }

  /** What a pass does with a well-formed message. */
  lemma PassParsed(c: Command, rest: seq<Byte>, s: Server, junk: (nat, nat) -> Byte)
    requires WellFormed(c)
    ensures var p := Pass(Encode(c) + rest, s, junk);
            var g := s.(buf := Grown(s.buf, c.len, junk));
            && p.1 == rest
            && p.0 == if c.kind == READ then DoRead(g, Header(c))
                      else if c.kind == WRITE then DoWrite(g.(buf := Fill(g.buf, c.data)), Header(c))
                      else DoOther(g, Header(c))
  {
    ParseEncode(c, rest);
    if c.kind == WRITE {
      assert (c.data + rest)[..c.len] == c.data && (c.data + rest)[c.len..] == rest;
    } else {
      assert c.data + rest == rest;
    }
  }

  /** One pass of the loop is one command. */
  lemma PassIsCommand(c: Command, rest: seq<Byte>, s: Server, junk: (nat, nat) -> Byte)
    requires WellFormed(c)
    ensures var p := Pass(Encode(c) + rest, s, junk); var unused := s.buf == [];
            && p.0.out == Answer(c, s.disk, unused)
            && p.0.s.disk == Effect(c, s.disk, unused)
            && (p.0.s.buf == [] <==> unused && c.len == 0)
            && p.0.more == (c.kind != DISC) && p.1 == rest
  {
    PassParsed(c, rest, s, junk);
    var g := s.(buf := Grown(s.buf, c.len, junk));
    OutcomeIsCommand(c, s, g);
  }

  lemma OutcomeIsCommand(c: Command, s: Server, g: Server)
    requires WellFormed(c) && g.disk == s.disk
    requires |g.buf| == if c.len > |s.buf| then c.len else |s.buf|
    ensures var unused := s.buf == [];
            var o := if c.kind == READ then DoRead(g, Header(c))
                     else if c.kind == WRITE then DoWrite(g.(buf := Fill(g.buf, c.data)), Header(c))
                     else DoOther(g, Header(c));
            && o.out == Answer(c, s.disk, unused)
            && o.s.disk == Effect(c, s.disk, unused)
            && (o.s.buf == [] <==> unused && c.len == 0)
            && o.more == (c.kind != DISC)
  {
    if c.kind == WRITE {
      assert Fill(g.buf, c.data)[..c.len] == c.data;
    }
  }

  /** One of the commands ends the session. */
  predicate Disconnects(cs: seq<Command>)
  {
    cs != [] && (cs[0].kind == DISC || Disconnects(cs[1..]))
  }

  /** For every list of commands, the server's output is the answers in order, each
      with its handle and data, and the disk is the fold of the commands. What follows
      is then read from its own beginning, unless a disconnect came before. */
  lemma {:induction false} SessionServed(cs: seq<Command>, tail: seq<Byte>, s: Server, junk: (nat, nat) -> Byte)
    returns (s': Server)
    requires AllWellFormed(cs)
    ensures var r := Session(cs, s.disk, s.buf == []);
            && s'.disk == r.1
            && Serve(EncodeAll(cs) + tail, s, junk) ==
               if Disconnects(cs) then r else (r.0 + Serve(tail, s', junk).0, Serve(tail, s', junk).1)
    decreases |cs|
  {
    if cs == [] {
      s' := s;
      assert EncodeAll(cs) + tail == tail;
      assert [] + Serve(tail, s, junk).0 == Serve(tail, s, junk).0;
    } else {
      var rest := EncodeAll(cs[1..]) + tail;
      Regroup(Encode(cs[0]), EncodeAll(cs[1..]), tail);
      PassIsCommand(cs[0], rest, s, junk);
      var p := Pass(Encode(cs[0]) + rest, s, junk);
      if cs[0].kind == DISC {
        s' := p.0.s;
      } else {
        s' := SessionServed(cs[1..], tail, p.0.s, junk);
        Regroup(p.0.out, Session(cs[1..], p.0.s.disk, p.0.s.buf == []).0, Serve(tail, s', junk).0);
      }
    }
  }

  /** The whole stream being commands. */
  lemma SessionAlone(cs: seq<Command>, s: Server, junk: (nat, nat) -> Byte)
    requires AllWellFormed(cs)
    ensures Serve(EncodeAll(cs), s, junk) == Session(cs, s.disk, s.buf == [])
  {
    var s' := SessionServed(cs, [], s, junk);
    var r := Session(cs, s.disk, s.buf == []);
    assert EncodeAll(cs) + [] == EncodeAll(cs) && r.0 + [] == r.0;
    assert Serve([], s', junk) == ([], s'.disk);
  }

  /** A write cut short is dropped without a trace unless the cut is right before its
      payload: then it is acknowledged, and an unread buffer goes to the disk. */
  lemma TruncatedWrite(c: Command, cut: nat, s: Server, junk: (nat, nat) -> Byte)
    requires WellFormed(c) && c.kind == WRITE && cut < c.len
    ensures Serve(Encode(c)[..HEADER + cut], s, junk) == ([], s.disk) <==> cut != 0
    ensures cut == 0 ==>
              var rc := RangeRc(|s.disk|, c.from, c.len);
              var stale := Grown(s.buf, c.len, junk)[..c.len];
              Serve(Encode(c)[..HEADER], s, junk) ==
              (Reply(c.handle, rc), if rc == 0 then Overwrite(s.disk, c.from, stale) else s.disk)
  {
    ParseEncode(c, []);
    var input := Encode(c)[..HEADER + cut];
    assert Encode(c) + [] == Encode(c);
    assert input[..HEADER] == Encode(c)[..HEADER];
    assert |input[HEADER..]| == cut;
    if cut == 0 {
      assert input == Encode(c)[..HEADER];
      LastPass(input, s, junk);
    }
  }

  lemma LastPass(input: seq<Byte>, s: Server, junk: (nat, nat) -> Byte)
    requires Pass(input, s, junk).1 == []
    ensures var p := Pass(input, s, junk);
            Serve(input, s, junk) == (p.0.out, p.0.s.disk)
  {
    var p := Pass(input, s, junk);
    assert Serve([], p.0.s, junk) == ([], p.0.s.disk);
    assert p.0.out + [] == p.0.out;
  }

  // ------------------------------------------------------------ what a client reads

  /** The request header, byte by byte as the protocol lays it out. */
  lemma ParseIs(b: seq<Byte>)
    requires |b| == 28
    ensures Parse(b) == Request(FromBe(b[0..4]), FromBe(b[4..8]), b[8..16], FromBe(b[16..24]), FromBe(b[24..28]))
  {
    NtohlLittle(b[0..4]);
    NtohlLittle(b[4..8]);
    NtohllLittle(b[16..24]);
    NtohlLittle(b[24..28]);
  }

  /** A reply is sixteen bytes: the magic number, the error, the handle. */
  lemma ReplyReads(handle: seq<Byte>, rc: int)
    requires |handle| == 8 && -0x8000_0000 < rc < 0x8000_0000
    ensures var out := Reply(handle, rc);
            && |out| == 16 && FromBe(out[..4]) == 0x6744_6698 && out[8..16] == handle
            && FromBe(out[4..8]) == if rc < 0 then -rc else rc
  {
    var out := Reply(handle, rc);
    var code := if rc < 0 then -rc else rc;
    Widths();
    BeRoundTrip(0x6744_6698, 4);
    BeRoundTrip(code, 4);
    assert out[..4] == ToBe(0x6744_6698, 4) && out[4..8] == ToBe(code, 4);
  }

  /** The error number a client is to find: 0 if the command was carried out, EINVAL for
      an empty read or write before the server has a buffer, ERANGE outside the disk, EIO
      for a command the server does not know. */
  function ErrorOf(c: Command, size: nat, unused: bool): nat
  {
    if (c.kind == READ || c.kind == WRITE) && c.len == 0 && unused then 22
    else if (c.kind == READ || c.kind == WRITE || c.kind == TRIM) && c.from + c.len > size then 34
    else if c.kind == READ || c.kind == WRITE || c.kind == TRIM || c.kind == FLUSH || c.kind == DISC then 0
    else 5
  }

  /** What a client reads after one command: the reply with its own handle, the error, and
      the data of a read that was carried out. */
  lemma ClientReads(c: Command, s: Server, junk: (nat, nat) -> Byte)
    requires WellFormed(c)
    ensures var out := Serve(Encode(c), s, junk).0; var error := ErrorOf(c, |s.disk|, s.buf == []);
            && |out| >= 16 && FromBe(out[..4]) == 0x6744_6698 && out[8..16] == c.handle
            && FromBe(out[4..8]) == error
            && (c.kind == READ && error == 0 ==>
                  c.from + c.len <= |s.disk| && out[16..] == s.disk[c.from..c.from + c.len])
            && (c.kind != READ || error != 0 ==> |out| == 16)
  {
    OneCommand(c, s, junk);
    AnswerReads(c, s.disk, s.buf == []);
  }

  lemma StatusIsError(c: Command, disk: seq<Byte>, unused: bool)
    ensures Status(c, disk, unused) + ErrorOf(c, |disk|, unused) == 0
  {
  }

  lemma AnswerReads(c: Command, disk: seq<Byte>, unused: bool)
    requires WellFormed(c)
    ensures var out := Answer(c, disk, unused); var error := ErrorOf(c, |disk|, unused);
            && |out| >= 16 && FromBe(out[..4]) == 0x6744_6698 && out[8..16] == c.handle
            && FromBe(out[4..8]) == error
            && (c.kind == READ && error == 0 ==>
                  c.from + c.len <= |disk| && out[16..] == disk[c.from..c.from + c.len])
            && (c.kind != READ || error != 0 ==> |out| == 16)
  {
    StatusIsError(c, disk, unused);
    ReplyReads(c.handle, Status(c, disk, unused));
    var out, reply := Answer(c, disk, unused), Reply(c.handle, Status(c, disk, unused));
    assert out[..4] == reply[..4] && out[4..8] == reply[4..8] && out[8..16] == reply[8..16];
  }

  /** What one command leaves on the disk: the data of a write, zeros for a trim, in the
      named range and only if it was carried out; nothing else changes. */
  lemma DiskAfter(c: Command, s: Server, junk: (nat, nat) -> Byte)
    requires WellFormed(c)
    ensures var disk := Serve(Encode(c), s, junk).1; var error := ErrorOf(c, |s.disk|, s.buf == []);
            && |disk| == |s.disk|
            && ((c.kind != WRITE && c.kind != TRIM) || error != 0 ==> disk == s.disk)
            && ((c.kind == WRITE || c.kind == TRIM) && error == 0 ==>
                  && c.from + c.len <= |s.disk|
                  && (c.kind == WRITE ==> disk[c.from..c.from + c.len] == c.data)
                  && (c.kind == TRIM ==> forall i :: c.from <= i < c.from + c.len ==> disk[i] == 0)
                  && forall i :: 0 <= i < |disk| && !(c.from <= i < c.from + c.len) ==> disk[i] == s.disk[i])
  {
    OneCommand(c, s, junk);
    EffectIs(c, s.disk, s.buf == []);
  }

  lemma EffectIs(c: Command, before: seq<Byte>, unused: bool)
    requires WellFormed(c)
    ensures var disk := Effect(c, before, unused); var error := ErrorOf(c, |before|, unused);
            && |disk| == |before|
            && ((c.kind != WRITE && c.kind != TRIM) || error != 0 ==> disk == before)
            && ((c.kind == WRITE || c.kind == TRIM) && error == 0 ==>
                  && c.from + c.len <= |before|
                  && (c.kind == WRITE ==> disk[c.from..c.from + c.len] == c.data)
                  && (c.kind == TRIM ==> forall i :: c.from <= i < c.from + c.len ==> disk[i] == 0)
                  && forall i :: 0 <= i < |disk| && !(c.from <= i < c.from + c.len) ==> disk[i] == before[i])
  {
    StatusIsError(c, before, unused);
    if c.kind == TRIM && c.from + c.len <= |before| {
      TrimIsZero(before, c.from, c.len);
    }
  }

  lemma TrimIsZero(before: seq<Byte>, from: nat, len: nat)
    requires from + len <= |before|
    ensures forall i :: from <= i < from + len ==> Overwrite(before, from, Zeros(len))[i] == 0
  {
    var disk := Overwrite(before, from, Zeros(len));
    forall i | from <= i < from + len ensures disk[i] == 0 {
      assert disk[from..from + len][i - from] == 0;
    }
  }

  lemma OneCommand(c: Command, s: Server, junk: (nat, nat) -> Byte)
    requires WellFormed(c)
    ensures Serve(Encode(c), s, junk) == (Answer(c, s.disk, s.buf == []), Effect(c, s.disk, s.buf == []))
  {
    PassIsCommand(c, [], s, junk);
    assert Encode(c) + [] == Encode(c);
    LastPass(Encode(c), s, junk);
  }

  /** A header cut short, or without the protocol's magic number, ends the service without
      a reply and without a trace, whatever follows it. */
  lemma BadMagicEnds(cs: seq<Command>, tail: seq<Byte>, s: Server, junk: (nat, nat) -> Byte)
    requires AllWellFormed(cs)
    requires |tail| < 28 || FromBe(tail[0..4]) != 0x2560_9513
    ensures Serve(EncodeAll(cs) + tail, s, junk) == Session(cs, s.disk, s.buf == [])
  {
    var s' := SessionServed(cs, tail, s, junk);
    BadTail(tail, s', junk);
    var out := Session(cs, s.disk, s.buf == []).0;
    assert out + [] == out;
  }

  lemma BadTail(tail: seq<Byte>, s: Server, junk: (nat, nat) -> Byte)
    requires |tail| < 28 || FromBe(tail[0..4]) != 0x2560_9513
    ensures Serve(tail, s, junk) == ([], s.disk)
  {
    if |tail| >= 28 {
      ParseIs(tail[..28]);
      assert tail[..28][0..4] == tail[0..4];
    }
  }

  /** A disconnect gets its sixteen bytes and is the last command served: whatever follows
      is not looked at, and the disk stays. */
  lemma DisconnectEnds(c: Command, rest: seq<Byte>, s: Server, junk: (nat, nat) -> Byte)
    requires WellFormed(c) && c.kind == DISC
    ensures var r := Serve(Encode(c) + rest, s, junk);
            && |r.0| == 16 && r.0[8..16] == c.handle && FromBe(r.0[4..8]) == 0 && r.1 == s.disk
  {
    PassIsCommand(c, rest, s, junk);
    AnswerReads(c, s.disk, s.buf == []);
  }
}
