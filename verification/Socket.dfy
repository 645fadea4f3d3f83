/** A connected stream socket whose read and write calls move as much as the kernel
    likes, and the read_full/write_full loops that hide it
    (userspace-nbd/src/nbd_ramdisk.c, ramdisk_ctrl_server.c). */
module Socket {
  import opened Common

  const EINTR: int := 4

  /** What the next call of read or write does: move at most n bytes (at least one),
      be interrupted, or fail. Without an entry it moves everything. */
  datatype Turn = Chunk(n: nat) | Interrupt | Fail(errno: nat)

  predicate Healthy(turns: seq<Turn>)
  {
    forall i :: 0 <= i < |turns| ==> !turns[i].Fail?
  }

  function AtMost(turn: Turn, len: nat): nat
    requires len > 0
  {
    if turn.Chunk? && 0 < turn.n < len then turn.n else len
  }

  class Stream {
    var input: seq<Byte>
    var output: seq<Byte>
    var turns: seq<Turn>

    constructor (input: seq<Byte>, turns: seq<Turn>)
      ensures this.input == input && this.turns == turns && output == []
    {
      this.input, this.turns, this.output := input, turns, [];
    }

    method NextTurn() returns (turn: Turn)
      modifies this`turns
      ensures old(turns) == [] ==> turn == Chunk(0) && turns == []
      ensures old(turns) != [] ==> turn == old(turns)[0] && turns == old(turns)[1..]
    {
      if turns == [] {
        return Chunk(0);
      }
      turn := turns[0];
      turns := turns[1..];
    }

    /** read(2): the bytes delivered, none at the end of the stream, or -errno. */
    method Read(max: nat) returns (n: int, data: seq<Byte>)
      requires max > 0
      modifies this`input, this`turns
      ensures n >= 0 ==> |data| == n <= max && old(input) == data + input
      ensures n == 0 ==> old(input) == []
      ensures n < 0 ==> data == [] && input == old(input)
      ensures Healthy(old(turns)) ==> Healthy(turns) && (n < 0 ==> n == -EINTR)
      ensures |turns| < |old(turns)| || (turns == old(turns) == [] && n >= 0)
    {
      var turn := NextTurn();
      match turn {
        case Interrupt =>
          return -EINTR, [];
        case Fail(errno) =>
          return -(errno + 1), [];
        case Chunk(_) =>
          n := AtMost(turn, max);
          if n > |input| {
            n := |input|;
          }
          data := input[..n];
          input := input[n..];
      }
    }

    /** write(2). */
    method Write(data: seq<Byte>) returns (n: int)
      requires data != []
      modifies this`output, this`turns
      ensures n >= 0 ==> 0 < n <= |data| && output == old(output) + data[..n]
      ensures n < 0 ==> output == old(output)
      ensures Healthy(old(turns)) ==> Healthy(turns) && (n < 0 ==> n == -EINTR)
      ensures |turns| < |old(turns)| || (turns == old(turns) == [] && n >= 0)
    {
      var turn := NextTurn();
      match turn {
        case Interrupt =>
          return -EINTR;
        case Fail(errno) =>
          return -(errno + 1);
        case Chunk(_) =>
          n := AtMost(turn, |data|);
          output := output + data[..n];
      }
    }

    /** read_full: all of the bytes, 0 at the end of the stream, or an error. However
        the calls chunk or interrupt, the answer depends on the stream alone. */
    method ReadFull(len: nat) returns (n: int, data: seq<Byte>)
      modifies this`input, this`turns
      ensures Healthy(old(turns)) ==> Healthy(turns)
      ensures Healthy(old(turns)) && |old(input)| >= len ==>
                n == len && data == old(input)[..len] && input == old(input)[len..]
      ensures Healthy(old(turns)) && |old(input)| < len ==>
                n == (if old(input) == [] then 0 else -EPIPE) && input == []
      ensures |data| <= len && (n >= 0 ==> (n == len && |data| == len) || n == 0)
      ensures old(input) == data + input
    {
      data := [];
      while |data| < len
        invariant |data| <= len && old(input) == data + input
        invariant Healthy(old(turns)) ==> Healthy(turns)
        decreases |turns|, len - |data|
      {
        var k, more := Read(len - |data|);
        if k == 0 {
          assert input == [];
          return if data == [] then 0 else -EPIPE, data;
        }
        if k < 0 {
          if k == -EINTR {
            continue;
          }
          return k, data;
        }
        data := data + more;
      }
      n := |data|;
    }

    /** write_full: everything goes out in order. */
    method WriteFull(data: seq<Byte>) returns (n: int)
      modifies this`output, this`turns
      ensures Healthy(old(turns)) ==> Healthy(turns) && n == |data| && output == old(output) + data
    {
      var done := 0;
      while done < |data|
        invariant 0 <= done <= |data|
        invariant Healthy(old(turns)) ==> Healthy(turns)
        invariant output == old(output) + data[..done]
        decreases |turns|, |data| - done
      {
        var k := Write(data[done..]);
        if k < 0 {
          if k == -EINTR {
            continue;
          }
          return k;
        }
        assert data[..done] + data[done..][..k] == data[..done + k];
        done := done + k;
      }
      assert data[..done] == data;
      n := done;
    }
  }
}
