/**
  HTTP body reassembly over a stream of short reads: the stream, and the Content-Length reader that client
  and server share.
 */
module HttpBody {
  import opened Common
  import opened Blocks

  // ---------------------------------------------------------------------------
  // Streams
  // ---------------------------------------------------------------------------

  /** A connection: what the peer sends, how much of it each read delivers, and where each read ended. */
  class Stream {
    const data: seq<byte>
    const deliver: (nat, nat) -> nat  // how much a read at a position, of at most so many bytes, brings; 0 is an error
    var pos: nat
    var failed: bool
    ghost var ends: set<nat>  // the number of bytes that lay ahead when a read ended

    ghost predicate Valid()
      reads this
    {
      pos <= |data| && |data| - pos in ends
    }

    ghost function Ahead(): seq<byte>
      requires pos <= |data|
      reads this
    {
      data[pos..]
    }

    constructor (data: seq<byte>, deliver: (nat, nat) -> nat, pos: nat)
      requires pos <= |data|
      ensures Valid() && this.data == data && this.deliver == deliver && this.pos == pos && !failed
          && ends == {|data| - pos}
    {
      this.data, this.deliver, this.pos, this.failed := data, deliver, pos, false;
      ends := {|data| - pos};
    }

    /** read(): at least one and at most max of the bytes ahead, or an error, as at the end of the stream. */
    method Read(max: nat) returns (d: seq<byte>)
      requires Valid() && max > 0
      modifies this`pos, this`failed, this`ends
      ensures Valid() && |d| <= max && old(Ahead()) == d + Ahead()
      ensures failed == (old(failed) || d == [])
      ensures ends == old(ends) + {|data| - pos}
    {
      var n := Min(deliver(pos, max), Min(max, |data| - pos));
      d := data[pos..pos + n];
      pos := pos + n;
      if n == 0 {
        failed := true;
      }
      ends := ends + {|data| - pos};
    }

    /**
      readFixSize(): exactly the next length bytes, never a byte more, unless a read fails. Its int
      result says so only for lengths whose cast to int is positive.
     */
    method ReadFixSize(length: nat) returns (d: seq<byte>, rt: int)
      requires Valid() && !failed
      modifies this`pos, this`failed, this`ends
      ensures Valid() && old(Ahead()) == d + Ahead() && old(ends) <= ends
      ensures failed ==> rt == 0 && |d| < length
      ensures !failed ==> |d| == length && rt == ToInt(length)
    {
      d := [];
      while |d| < length
        invariant Valid() && !failed && |d| <= length && old(Ahead()) == d + Ahead() && old(ends) <= ends
        decreases length - |d|
      {
        var more := Read(length - |d|);
        if more == [] {
          return d, 0;
        }
        Regroup(d, more, Ahead());
        d := d + more;
      }
      rt := ToInt(length);
    }
  }

  lemma Regroup(a: seq<byte>, b: seq<byte>, c: seq<byte>)
    ensures a + (b + c) == (a + b) + c
  {
  }

  // ---------------------------------------------------------------------------
  // Content-Length bodies
  // ---------------------------------------------------------------------------

  /**
    The body of recvRequest and of a response that is not chunked, with buffered the bytes already read
    past the header: exactly the first length bytes after the header, however they are spread over the
    buffer and the reads to come, if and only if no read fails and what was left to read fits an int.
   */
  method FixedBody(s: Stream, buffered: seq<byte>, length: int) returns (r: Option<seq<byte>>)
    requires s.Valid() && !s.failed
    modifies s`pos, s`failed, s`ends
    ensures s.Valid()
    ensures r.Some? <==> length <= |buffered| || (!s.failed && ToInt(length - |buffered|) > 0)
    ensures r.Some? && length <= 0 ==> r.value == []
    ensures r.Some? && length > 0 ==> |r.value| == length && r.value <= old(buffered + s.Ahead())
    ensures length <= |buffered| ==> s.pos == old(s.pos)
    ensures length > |buffered| ==> s.pos <= old(s.pos) + length - |buffered|
    ensures length > |buffered| && !s.failed ==> s.pos == old(s.pos) + length - |buffered|
    ensures length > |buffered| && length < 0x8000_0000 && !s.failed ==> r.Some?
  {
    if length <= 0 {
      return Some([]);
    }
    var body := if length >= |buffered| then buffered else buffered[..length];
    var left := length - |buffered|;
    if left > 0 {
      var d, rt := s.ReadFixSize(left);
      if rt <= 0 {
        return None;
      }
      body := body + d;
    }
    return Some(body);
  }
}
