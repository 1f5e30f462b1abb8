/**
  The client's chunked decoder: the Chunked_Header machine, which execute() starts afresh on every
  call, and the loop that reassembles the body from whatever the reads deliver.
 */
module Chunked {
  import opened Common
  import opened Blocks
  import opened HttpBody

  // ---------------------------------------------------------------------------
  // The Chunked_Header machine
  // ---------------------------------------------------------------------------

  const CR: byte := 13
  const LF: byte := 10
  const SEMICOLON: byte := 59
  const EQUALS: byte := 61
  const CAPITAL_H: byte := 72

  predicate HexDigit(c: byte) { 48 <= c <= 57 || 65 <= c <= 70 || 97 <= c <= 102 }

  function Digit(c: byte): (d: nat)
    requires HexDigit(c)
    ensures d < 16
  {
    if c <= 57 then c - 48 else if c <= 70 then c - 55 else c - 87
  }

  /** token: ASCII without controls and without ()<>@,;:\"/[]?={} and space. */
  predicate Token(c: byte) {
    32 < c < 127 && c !in {40, 41, 60, 62, 64, 44, 59, 58, 92, 34, 47, 91, 93, 63, 61, 123, 125}
  }

  datatype State = Start | Size | NameStart | Name | ValueStart | Value | Cr

  /**
    What execute() makes of the buffer: a size line of used bytes, or all of it taken and no line end seen, or
    an error; H starts a status line.
   */
  datatype Parsed = Finished(size: nat, used: nat) | Pending | Error | StatusLine

  /** The state after c; None is the error state. */
  function Next(st: State, c: byte): Option<State> {
    match st
    case Start => if HexDigit(c) then Some(Size) else None
    case Size => if HexDigit(c) then Some(Size) else Leave(c)
    case NameStart => if Token(c) then Some(Name) else None
    case Name => if Token(c) then Some(Name) else if c == EQUALS then Some(ValueStart) else Leave(c)
    case ValueStart => if Token(c) then Some(Value) else None
    case Value => if Token(c) then Some(Value) else Leave(c)
    case Cr => None
  }

  function Leave(c: byte): Option<State> {
    if c == SEMICOLON then Some(NameStart) else if c == CR then Some(Cr) else None
  }

  /** A line feed ends the line from here. */
  predicate MayEnd(st: State) { st in {Size, Name, Value, Cr} }

  /** The machine from state st on, with size the value of the digits so far, which is what strtol gives for them. */
  function Scan(st: State, size: nat, s: seq<byte>): Parsed
    decreases |s|
  {
    if s == [] then Pending
    else if s[0] == LF && MayEnd(st) then Finished(size, 1)
    else if st == Start && s[0] == CAPITAL_H then StatusLine
    else
      match Next(st, s[0])
      case None => Error
      case Some(st') =>
        match Scan(st', if st' == Size then 16 * size + Digit(s[0]) else size, s[1..])
        case Finished(n, used) => Finished(n, used + 1)
        case other => other
  }

  /** execute() in chunk mode: a fresh machine on the buffer. */
  function Execute(s: seq<byte>): Parsed { Scan(Start, 0, s) }

  // ---------------------------------------------------------------------------
  // Chunked bodies
  // ---------------------------------------------------------------------------

  datatype Ext = Ext(name: seq<byte>, value: Option<seq<byte>>)

  /** A size line; bare ends in LF alone. */
  datatype Line = Line(digits: seq<byte>, exts: seq<Ext>, bare: bool)

  /** A chunk, the last one having no data. */
  datatype Chunk = Chunk(line: Line, data: seq<byte>)

  function HexValue(digits: seq<byte>): nat
    requires forall i | 0 <= i < |digits| :: HexDigit(digits[i])
  {
    if digits == [] then 0 else 16 * HexValue(digits[..|digits| - 1]) + Digit(digits[|digits| - 1])
  }

  predicate IsToken(s: seq<byte>) { s != [] && forall i | 0 <= i < |s| :: Token(s[i]) }

  predicate GoodExt(e: Ext) { IsToken(e.name) && (e.value.Some? ==> IsToken(e.value.value)) }

  predicate GoodLine(l: Line) {
    && l.digits != [] && (forall i | 0 <= i < |l.digits| :: HexDigit(l.digits[i]))
    && forall i | 0 <= i < |l.exts| :: GoodExt(l.exts[i])
  }

  function ExtBytes(e: Ext): seq<byte> {
    [SEMICOLON] + e.name + if e.value.Some? then [EQUALS] + e.value.value else []
  }

  function ExtsBytes(es: seq<Ext>): seq<byte> { if es == [] then [] else ExtBytes(es[0]) + ExtsBytes(es[1..]) }

  function LineEnd(bare: bool): seq<byte> { if bare then [LF] else [CR, LF] }

  function LineBytes(l: Line): seq<byte> { l.digits + (ExtsBytes(l.exts) + LineEnd(l.bare)) }

  function Shift(r: Parsed, k: nat): Parsed { if r.Finished? then Finished(r.size, r.used + k) else r }

  lemma {:induction false} ScanDigits(digits: seq<byte>, size: nat, st: State, s: seq<byte>)
    requires forall i | 0 <= i < |digits| :: HexDigit(digits[i])
    requires st == Start || st == Size
    requires digits != [] || st == Size
    ensures Scan(st, size, digits + s) == Shift(Scan(Size, HexFrom(size, digits), s), |digits|)
  {
    if digits == [] {
      assert digits + s == s;
    } else {
      assert (digits + s)[1..] == digits[1..] + s;
      ScanDigits(digits[1..], 16 * size + Digit(digits[0]), Size, s);
    }
  }

  /** The value of the digits read after a prefix of value size. */
  function HexFrom(size: nat, digits: seq<byte>): nat
    requires forall i | 0 <= i < |digits| :: HexDigit(digits[i])
    decreases |digits|
  {
    if digits == [] then size else HexFrom(16 * size + Digit(digits[0]), digits[1..])
  }

  lemma {:induction false} HexFromSnoc(size: nat, digits: seq<byte>)
    requires digits != [] && forall i | 0 <= i < |digits| :: HexDigit(digits[i])
    ensures HexFrom(size, digits) == 16 * HexFrom(size, digits[..|digits| - 1]) + Digit(digits[|digits| - 1])
    decreases |digits|
  {
    if |digits| > 1 {
      HexFromSnoc(16 * size + Digit(digits[0]), digits[1..]);
      assert digits[1..][..|digits| - 2] == digits[..|digits| - 1][1..];
    }
  }

  lemma {:induction false} HexFromZero(digits: seq<byte>)
    requires forall i | 0 <= i < |digits| :: HexDigit(digits[i])
    ensures HexFrom(0, digits) == HexValue(digits)
  {
    if digits != [] {
      HexFromSnoc(0, digits);
      HexFromZero(digits[..|digits| - 1]);
    }
  }

  lemma {:induction false} ScanToken(t: seq<byte>, st: State, size: nat, s: seq<byte>)
    requires st in {NameStart, Name, ValueStart, Value} && (forall i | 0 <= i < |t| :: Token(t[i])) && (t == [] ==>
        st in {Name, Value})
    ensures Scan(st, size, t + s) == Shift(Scan(if st in {NameStart, Name} then Name else Value, size, s), |t|)
  {
    if t == [] {
      assert t + s == s;
    } else {
      assert (t + s)[1..] == t[1..] + s;
      ScanToken(t[1..], if st in {NameStart, Name} then Name else Value, size, s);
    }
  }

  /** One extension. */
  lemma ScanExt(e: Ext, st: State, size: nat, s: seq<byte>)
    requires GoodExt(e) && st in {Size, Name, Value}
    ensures exists st' | st' in {Name, Value} ::
              Scan(st, size, ExtBytes(e) + s) == Shift(Scan(st', size, s), |ExtBytes(e)|)
  {
    var v := (if e.value.Some? then [EQUALS] + e.value.value else []) + s;
    assert ExtBytes(e) + s == [SEMICOLON] + (e.name + v);
    ScanToken(e.name, NameStart, size, v);
    if e.value.Some? {
      assert v == [EQUALS] + (e.value.value + s);
      ScanToken(e.value.value, ValueStart, size, s);
      assert Scan(st, size, ExtBytes(e) + s) == Shift(Scan(Value, size, s), |ExtBytes(e)|);
    } else {
      assert v == s;
      assert Scan(st, size, ExtBytes(e) + s) == Shift(Scan(Name, size, s), |ExtBytes(e)|);
    }
  }

  lemma ScanEnd(bare: bool, st: State, size: nat, s: seq<byte>)
    requires st in {Size, Name, Value}
    ensures Scan(st, size, LineEnd(bare) + s) == Finished(size, |LineEnd(bare)|)
  {
    var t := LineEnd(bare) + s;
    if !bare {
      assert t[1..] == [LF] + s;
      assert Scan(Cr, size, t[1..]) == Finished(size, 1);
    }
  }

  lemma {:induction false} ScanExts(es: seq<Ext>, bare: bool, st: State, size: nat, s: seq<byte>)
    requires (forall i | 0 <= i < |es| :: GoodExt(es[i])) && st in {Size, Name, Value}
    ensures Scan(st, size, ExtsBytes(es) + LineEnd(bare) + s) == Finished(size, |ExtsBytes(es) + LineEnd(bare)|)
    decreases |es|
  {
    if es == [] {
      assert ExtsBytes(es) + LineEnd(bare) + s == LineEnd(bare) + s;
      ScanEnd(bare, st, size, s);
    } else {
      var t := ExtsBytes(es[1..]) + LineEnd(bare) + s;
      assert ExtsBytes(es) + LineEnd(bare) + s == ExtBytes(es[0]) + t;
      ScanExt(es[0], st, size, t);
      var st' :| st' in {Name, Value}
                 && Scan(st, size, ExtBytes(es[0]) + t) == Shift(Scan(st', size, t), |ExtBytes(es[0])|);
      ScanExts(es[1..], bare, st', size, s);
    }
  }

  /** The machine takes exactly a whole size line, and its size is the value of the digits. */
  lemma LineParses(l: Line, s: seq<byte>)
    requires GoodLine(l)
    ensures Execute(LineBytes(l) + s) == Finished(HexValue(l.digits), |LineBytes(l)|)
  {
    var t := ExtsBytes(l.exts) + LineEnd(l.bare) + s;
    assert LineBytes(l) + s == l.digits + t;
    ScanDigits(l.digits, 0, Start, t);
    HexFromZero(l.digits);
    ScanExts(l.exts, l.bare, Size, HexValue(l.digits), s);
  }

  // ---------------------------------------------------------------------------
  // Bodies and reads
  // ---------------------------------------------------------------------------

  /** Sizes whose sum with the line end fits an int. */
  const LIMIT: nat := 0x7fff_fffe

  predicate GoodChunk(c: Chunk) { GoodLine(c.line) && HexValue(c.line.digits) == |c.data| < LIMIT }

  /** A trailer-free chunked body: chunks with data, then one without. */
  predicate WellFormed(cs: seq<Chunk>) {
    && cs != [] && (forall i | 0 <= i < |cs| :: GoodChunk(cs[i]))
    && (forall i | 0 <= i < |cs| :: cs[i].data == [] <==> i == |cs| - 1)
  }

  function ChunkBytes(c: Chunk): seq<byte> { LineBytes(c.line) + (c.data + [CR, LF]) }

  function Encode(cs: seq<Chunk>): seq<byte> { if cs == [] then [] else ChunkBytes(cs[0]) + Encode(cs[1..]) }

  /** The body proper. */
  function Content(cs: seq<Chunk>): seq<byte> { if cs == [] then [] else cs[0].data + Content(cs[1..]) }

  /** With t bytes ahead, of which rest come after the body, one is strictly inside a size line. */
  predicate Inside(cs: seq<Chunk>, rest: nat, t: nat) {
    cs != [] && (var n := |Encode(cs)| + rest; n - |LineBytes(cs[0].line)| < t < n || Inside(cs[1..], rest, t))
  }

  /** No read ended strictly inside a size line. */
  ghost predicate Clean(ends: set<nat>, cs: seq<Chunk>, rest: nat) { forall t | t in ends :: !Inside(cs, rest, t) }

  // ---------------------------------------------------------------------------
  // The decoder
  // ---------------------------------------------------------------------------

  /** What lies ahead is the size line l, then tail; and no read ended strictly inside l. */
  ghost predicate AtLine(ahead: seq<byte>, l: Line, tail: seq<byte>, ends: set<nat>) {
    && GoodLine(l) && ahead == LineBytes(l) + tail
    && forall t | t in ends :: !(|tail| < t < |LineBytes(l) + tail|)
  }

  /** A buffer that is not empty and does not end inside the line holds all of it. */
  lemma WholeLine(buf: seq<byte>, ahead: seq<byte>, l: Line, tail: seq<byte>, ends: set<nat>)
    requires AtLine(buf + ahead, l, tail, ends) && |ahead| in ends && buf != []
    ensures Execute(buf) == Finished(HexValue(l.digits), |LineBytes(l)|)
    ensures |LineBytes(l)| <= |buf| && buf[|LineBytes(l)|..] + ahead == tail
  {
    var n := |LineBytes(l)|;
    assert |ahead| <= |tail|;
    var s := buf[n..];
    assert buf == LineBytes(l) + s by {
      assert (buf + ahead)[..n] == buf[..n];
    }
    assert s + ahead == (buf + ahead)[n..] == tail;
    LineParses(l, s);
  }

  lemma {:induction false} ScanUses(st: State, size: nat, s: seq<byte>)
    ensures Scan(st, size, s).Finished? ==> 0 < Scan(st, size, s).used <= |s|
    decreases |s|
  {
    if s != [] && Next(st, s[0]).Some? {
      var st' := Next(st, s[0]).value;
      ScanUses(st', if st' == Size then 16 * size + Digit(s[0]) else size, s[1..]);
    }
  }

  /** What the decoder sees of buffer and bytes ahead: all of them, or not the buffer if it finds no line end there. */
  ghost predicate Sees(buf: seq<byte>, ahead: seq<byte>, seen: seq<byte>) {
    seen == buf + ahead || (buf != [] && Execute(buf) == Pending && seen == ahead)
  }

  /** The buffers on which the machine was run: all but the last were taken whole, without a result. */
  ghost predicate AllPending(pieces: seq<seq<byte>>) { forall i | 0 <= i < |pieces| :: Execute(pieces[i]) == Pending }

  /**
    The inner loop: read when the buffer is empty or the last call took all of it without finding the
    end of a line, and run the machine afresh. Its result is that of the machine on the last piece that the
    reads deliver; all before it are lost. So the line seen is found if no read ends strictly inside it.
   */
  method ReadLine(s: Stream, buf0: seq<byte>, buffSize: nat, ghost seen: seq<byte>, ghost l: Line,
                  ghost tail: seq<byte>)
    returns (r: Parsed, buf: seq<byte>, ghost lost: seq<seq<byte>>, ghost last: seq<byte>)
    requires s.Valid() && !s.failed && 0 < buffSize && |buf0| <= buffSize
    modifies s`pos, s`failed, s`ends
    ensures s.Valid() && old(s.ends) <= s.ends && |buf| <= buffSize && !r.Pending?
    ensures s.failed ==> r == Error
    ensures r.Finished? ==> |buf + s.Ahead()| < old(|buf0 + s.Ahead()|)
    ensures !s.failed ==> AllPending(lost) && r == Execute(last)
    ensures !s.failed ==> old(buf0 + s.Ahead()) == Flatten(lost) + last + s.Ahead()
    ensures !s.failed && r.Finished? ==> r.used <= |last| && buf == last[r.used..]
    ensures Sees(buf0, old(s.Ahead()), seen) && !s.failed && AtLine(seen, l, tail, s.ends) ==>
              r.Finished? && r.size == HexValue(l.digits) && buf + s.Ahead() == tail
  {
    buf, lost, last := buf0, [], [];
    var begin := true;
    while true
      invariant s.Valid() && !s.failed && old(s.ends) <= s.ends && |buf| <= buffSize
      invariant begin ==> buf == buf0 && s.Ahead() == old(s.Ahead())
      invariant !begin ==> buf == [] && |s.Ahead()| < old(|buf0 + s.Ahead()|)
      invariant AllPending(lost) && old(buf0 + s.Ahead()) == Flatten(lost) + (buf + s.Ahead())
      invariant Sees(buf0, old(s.Ahead()), seen) && AtLine(seen, l, tail, s.ends) ==> Sees(buf, s.Ahead(), seen)
      decreases begin, |s.Ahead()|
    {
      buf := Fetch(s, buf, begin, buffSize);
      if s.failed {
        return Error, buf, lost, last;
      }
      var p := Execute(buf);
      OnPiece(buf, s.Ahead(), l, tail, s.ends);
      if !p.Pending? {
        Regroup3(Flatten(lost), buf, s.Ahead());
        return p, if p.Finished? then buf[p.used..] else buf, lost, buf;
      }
      LosePiece(lost, buf, s.Ahead());
      lost := lost + [buf];
      buf, begin := [], false;
    }
  }

  /** The machine on a piece that ends where a read ended. */
  lemma OnPiece(buf: seq<byte>, ahead: seq<byte>, l: Line, tail: seq<byte>, ends: set<nat>)
    requires |ahead| in ends && buf != []
    ensures Execute(buf).Finished? ==> 0 < Execute(buf).used <= |buf|
    ensures AtLine(buf + ahead, l, tail, ends) ==>
              && Execute(buf).Finished? && Execute(buf).size == HexValue(l.digits)
              && buf[Execute(buf).used..] + ahead == tail
  {
    ScanUses(Start, 0, buf);
    if AtLine(buf + ahead, l, tail, ends) {
      WholeLine(buf, ahead, l, tail, ends);
    }
  }

  /** The read in front of the machine: when the buffer is empty, as it is after a call without a result. */
  method Fetch(s: Stream, buf0: seq<byte>, begin: bool, buffSize: nat) returns (buf: seq<byte>)
    requires s.Valid() && !s.failed && 0 < buffSize && |buf0| <= buffSize && (!begin ==> buf0 == [])
    modifies s`pos, s`failed, s`ends
    ensures s.Valid() && old(s.ends) <= s.ends && |buf| <= buffSize && buf + s.Ahead() == old(buf0 + s.Ahead())
    ensures s.failed <==> buf == []
    ensures buf0 != [] ==> buf == buf0 && s.Ahead() == old(s.Ahead()) && s.ends == old(s.ends)
  {
    buf := buf0;
    if !begin || buf == [] {
      var d := s.Read(buffSize - |buf|);
      buf := buf + d;
    }
  }

  lemma Regroup3(a: seq<byte>, b: seq<byte>, c: seq<byte>)
    ensures a + (b + c) == a + b + c
  {
  }

  lemma LosePiece(lost: seq<seq<byte>>, buf: seq<byte>, ahead: seq<byte>)
    ensures Flatten(lost) + (buf + ahead) == Flatten(lost + [buf]) + ([] + ahead)
  {
    FlattenAppend(lost, [buf]);
    assert Flatten([buf]) == buf + Flatten([]) == buf;
    Regroup3(Flatten(lost), buf, ahead);
    assert [] + ahead == ahead;
  }

  /** The rest of a chunk that the buffer does not hold: read it up to its line end, and drop that. */
  method ReadRest(s: Stream, buf0: seq<byte>, buffSize: nat, len: nat) returns (data: seq<byte>)
    requires s.Valid() && !s.failed && 0 < buffSize && |buf0| < len + 2
    modifies s`pos, s`failed, s`ends
    ensures s.Valid() && old(s.ends) <= s.ends
    ensures !s.failed ==> |data| == len && exists end | |end| == 2 :: old(buf0 + s.Ahead()) == data + end + s.Ahead()
  {
    data := buf0;
    var left := len - |buf0| + 2;
    while left > 0
      invariant s.Valid() && !s.failed && old(s.ends) <= s.ends && left >= 0 && |data| + left == len + 2
      invariant old(buf0 + s.Ahead()) == data + s.Ahead()
      decreases left
    {
      var d := s.Read(Min(left, buffSize));
      if d == [] {
        return;
      }
      data := data + d;
      left := left - |d|;
    }
    assert data == data[..len] + data[len..];
    data := data[..len];
  }

  /** A chunk's data and the two bytes after it, from the buffer or from further reads. */
  method ReadChunk(s: Stream, buf0: seq<byte>, buffSize: nat, len: nat) returns (data: seq<byte>, buf: seq<byte>)
    requires s.Valid() && !s.failed && 0 < buffSize && |buf0| <= buffSize
    modifies s`pos, s`failed, s`ends
    ensures s.Valid() && old(s.ends) <= s.ends && |buf| <= buffSize
    ensures !s.failed ==> |data| == len
    ensures !s.failed ==> exists end | |end| == 2 :: old(buf0 + s.Ahead()) == data + end + (buf + s.Ahead())
  {
    if len + 2 <= |buf0| {
      data, buf := buf0[..len], buf0[len + 2..];
      ghost var end := buf0[len..len + 2];
      assert buf0 == data + end + buf;
    } else {
      data := ReadRest(s, buf0, buffSize, len);
      buf := [];
      assert buf + s.Ahead() == s.Ahead();
    }
  }

  lemma SameParts(a: seq<byte>, b: seq<byte>, c: seq<byte>, a': seq<byte>, b': seq<byte>, c': seq<byte>)
    requires a + b + c == a' + b' + c' && |a| == |a'| && |b| == |b'|
    ensures a == a' && c == c'
  {
    var s := a + b + c;
    assert a == s[..|a|] == a' && c == s[|a| + |b|..] == c';
  }

  /** The data d of a chunk, when that is what lies ahead. */
  method TakeChunk(s: Stream, buf0: seq<byte>, buffSize: nat, len: nat, ghost d: seq<byte>, ghost tail: seq<byte>)
    returns (data: seq<byte>, buf: seq<byte>)
    requires s.Valid() && !s.failed && 0 < buffSize && |buf0| <= buffSize
    modifies s`pos, s`failed, s`ends
    ensures s.Valid() && old(s.ends) <= s.ends && |buf| <= buffSize
    ensures !s.failed ==> |buf + s.Ahead()| < old(|buf0 + s.Ahead()|)
    ensures !s.failed && old(buf0 + s.Ahead()) == d + [CR, LF] + tail && len == |d| ==>
              data == d && buf + s.Ahead() == tail
  {
    ghost var ahead := buf0 + s.Ahead();
    data, buf := ReadChunk(s, buf0, buffSize, len);
    if !s.failed {
      ghost var end :| |end| == 2 && ahead == data + end + (buf + s.Ahead());
      if ahead == d + [CR, LF] + tail && len == |d| {
        SameParts(data, end, buf + s.Ahead(), d, [CR, LF], tail);
      }
    }
  }

  /** The int that strtol and the assignment to content_len make of a size. */
  function ContentLen(size: nat): int { ToInt(Min(size, 0x7fff_ffff_ffff_ffff)) }

  /**
    The body; or the connection closed; or arithmetic or a length out of range, or a status line, of which the
    model says nothing.
   */
  datatype Reply = Body(bytes: seq<byte>) | Closed | Undefined

  /** One turn of the outer loop. */
  method Turn(s: Stream, buf0: seq<byte>, buffSize: nat, ghost seen: seq<byte>, ghost c: Chunk, ghost tail: seq<byte>)
    returns (r: Reply, buf: seq<byte>, done: bool)
    requires s.Valid() && !s.failed && 0 < buffSize && |buf0| <= buffSize
    modifies s`pos, s`failed, s`ends
    ensures s.Valid() && old(s.ends) <= s.ends && |buf| <= buffSize
    ensures s.failed ==> r == Closed
    ensures r.Body? ==> |buf + s.Ahead()| < old(|buf0 + s.Ahead()|)
    ensures Sees(buf0, old(s.Ahead()), seen) && GoodChunk(c) && !s.failed
            && AtLine(seen, c.line, c.data + [CR, LF] + tail, s.ends) ==>
              r == Body(c.data) && buf + s.Ahead() == tail && done == (c.data == [])
  {
    var p;
    ghost var lost, last;
    p, buf, lost, last := ReadLine(s, buf0, buffSize, seen, c.line, c.data + [CR, LF] + tail);
    if !p.Finished? {
      return if p.StatusLine? then Undefined else Closed, buf, false;
    }
    var len := ContentLen(p.size);
    done := len <= 0;
    if !(0 <= len < LIMIT) {
      return Undefined, buf, done;
    }
    var data;
    data, buf := TakeChunk(s, buf, buffSize, len, c.data, tail);
    r := if s.failed then Closed else Body(data);
  }

  /**
    How the reads so far have gone: the bytes ahead are the chunks todo and then rest, and what was decoded
    makes up the body with theirs.
   */
  ghost predicate OnTrack(cs: seq<Chunk>, todo: seq<Chunk>, body: seq<byte>, ahead: seq<byte>, rest: seq<byte>) {
    && WellFormed(todo) && body + Content(todo) == Content(cs) && ahead == Encode(todo) + rest
    && forall t | Inside(todo, |rest|, t) :: Inside(cs, |rest|, t)
  }

  lemma Regroup(a: seq<byte>, b: seq<byte>, c: seq<byte>, d: seq<byte>)
    ensures (a + b) + c + d == a + (b + (c + d))
  {
  }

  lemma FirstUncut(c: Chunk, todo: seq<Chunk>, rest: nat, n: nat, ends: set<nat>)
    requires todo != [] && todo[0] == c && (forall t | t in ends :: !Inside(todo, rest, t))
    requires n + |LineBytes(c.line)| == |Encode(todo)| + rest
    ensures forall t | t in ends :: !(n < t < n + |LineBytes(c.line)|)
  {
  }

  /** The first chunk of those to come is at the front, and its size line is uncut. */
  lemma FirstLine(cs: seq<Chunk>, todo: seq<Chunk>, body: seq<byte>, ahead: seq<byte>, rest: seq<byte>, ends: set<nat>)
    requires OnTrack(cs, todo, body, ahead, rest) && Clean(ends, cs, |rest|)
    ensures GoodChunk(todo[0])
    ensures AtLine(ahead, todo[0].line, todo[0].data + [CR, LF] + (Encode(todo[1..]) + rest), ends)
  {
    var c := todo[0];
    var tail := c.data + [CR, LF] + (Encode(todo[1..]) + rest);
    Regroup(LineBytes(c.line), c.data + [CR, LF], Encode(todo[1..]), rest);
    FirstUncut(c, todo, |rest|, |tail|, ends);
  }

  lemma NextOnTrack(cs: seq<Chunk>, todo: seq<Chunk>, body: seq<byte>, ahead: seq<byte>, rest: seq<byte>)
    requires OnTrack(cs, todo, body, ahead, rest)
    ensures todo[0].data != [] ==> OnTrack(cs, todo[1..], body + todo[0].data, Encode(todo[1..]) + rest, rest)
    ensures todo[0].data == [] ==> body == Content(cs) && Encode(todo[1..]) + rest == rest
  {
    assert body + Content(todo) == body + todo[0].data + Content(todo[1..]);
    if todo[0].data == [] {
      assert todo[1..] == [];
    } else {
      assert WellFormed(todo[1..]);
    }
  }

  /** A turn of the outer loop, with the chunks still to come. */
  method Advance(s: Stream, buf0: seq<byte>, buffSize: nat, ghost seen: seq<byte>, ghost cs: seq<Chunk>,
                 ghost todo: seq<Chunk>, ghost body: seq<byte>, ghost rest: seq<byte>)
    returns (r: Reply, buf: seq<byte>, done: bool)
    requires s.Valid() && !s.failed && 0 < buffSize && |buf0| <= buffSize
    modifies s`pos, s`failed, s`ends
    ensures s.Valid() && old(s.ends) <= s.ends && |buf| <= buffSize
    ensures s.failed ==> r == Closed
    ensures r.Body? ==> |buf + s.Ahead()| < old(|buf0 + s.Ahead()|)
    ensures Sees(buf0, old(s.Ahead()), seen) && OnTrack(cs, todo, body, seen, rest)
            && Clean(s.ends, cs, |rest|) && !s.failed ==>
              && r.Body?
              && (done ==> body + r.bytes == Content(cs) && buf + s.Ahead() == rest)
              && (!done ==> OnTrack(cs, todo[1..], body + r.bytes, buf + s.Ahead(), rest))
  {
    ghost var c, tail := Chunk(Line([], [], true), []), [];
    if OnTrack(cs, todo, body, seen, rest) {
      c, tail := todo[0], Encode(todo[1..]) + rest;
    }
    r, buf, done := Turn(s, buf0, buffSize, seen, c, tail);
    if OnTrack(cs, todo, body, seen, rest) && Clean(s.ends, cs, |rest|) {
      FirstLine(cs, todo, body, seen, rest, s.ends);
      NextOnTrack(cs, todo, body, seen, rest);
    }
  }

  /**
    Chunked decoding does not depend on where the reads end. Whatever the reads deliver, if none fails and
    none ends strictly inside a size line, the body comes out as the chunks' data, and what is left in the
    buffer and on the stream is what follows the body. Data and its line end may be cut anywhere. This is so
    of what the decoder sees: a piece of a size line already in the buffer is lost.
   */
  method Receive(s: Stream, buffered: seq<byte>, buffSize: nat, ghost cs: seq<Chunk>, ghost rest: seq<byte>)
    returns (r: Reply, buf: seq<byte>)
    requires s.Valid() && !s.failed && 0 < buffSize && |buffered| <= buffSize
    modifies s`pos, s`failed, s`ends
    ensures s.Valid() && old(s.ends) <= s.ends
    ensures s.failed ==> r == Closed
    ensures WellFormed(cs) && Sees(buffered, old(s.Ahead()), Encode(cs) + rest)
            && !s.failed && Clean(s.ends, cs, |rest|) ==>
              r == Body(Content(cs)) && buf + s.Ahead() == rest
  {
    buf := buffered;
    var body := [];
    ghost var todo, seen := cs, Encode(cs) + rest;
    ghost var sound := WellFormed(cs) && Sees(buffered, s.Ahead(), seen);
    while true
      invariant s.Valid() && !s.failed && old(s.ends) <= s.ends && |buf| <= buffSize
      invariant sound && Clean(s.ends, cs, |rest|) ==> Sees(buf, s.Ahead(), seen) && OnTrack(cs, todo, body, seen, rest)
      decreases |buf + s.Ahead()|
    {
      var piece, done;
      piece, buf, done := Advance(s, buf, buffSize, seen, cs, todo, body, rest);
      if !piece.Body? {
        return piece, buf;
      }
      body := body + piece.bytes;
      if done {
        return Body(body), buf;
      }
      todo, seen := if todo == [] then [] else todo[1..], buf + s.Ahead();
    }
  }

  // ---------------------------------------------------------------------------
  // Cut size lines
  // ---------------------------------------------------------------------------

  /** Anything short of a whole line is taken without a result: it is lost when the machine starts afresh. */
  lemma {:induction false} PrefixPending(st: State, size: nat, s: seq<byte>, k: nat)
    requires Scan(st, size, s).Finished? && k < Scan(st, size, s).used
    ensures k <= |s| && Scan(st, size, s[..k]) == Pending
    decreases k
  {
    ScanUses(st, size, s);
    if k > 0 {
      var st' := Next(st, s[0]).value;
      PrefixPending(st', if st' == Size then 16 * size + Digit(s[0]) else size, s[1..], k - 1);
      assert s[..k][1..] == s[1..][..k - 1];
    }
  }

  function Pow16(n: nat): (r: nat)
    ensures r > 0
  {
    if n == 0 then 1 else 16 * Pow16(n - 1)
  }

  lemma {:induction false} HexFromLinear(size: nat, digits: seq<byte>)
    requires forall i | 0 <= i < |digits| :: HexDigit(digits[i])
    ensures HexFrom(size, digits) == size * Pow16(|digits|) + HexFrom(0, digits)
    decreases |digits|
  {
    if digits != [] {
      var d, p := Digit(digits[0]), Pow16(|digits| - 1);
      HexFromLinear(16 * size + d, digits[1..]);
      HexFromLinear(d, digits[1..]);
      assert HexFrom(0, digits) == HexFrom(d, digits[1..]);
      Expand(size, d, p);
    }
  }

  lemma Expand(x: nat, d: nat, p: nat)
    ensures (16 * x + d) * p == x * (16 * p) + d * p
  {
  }

  lemma {:induction false} HexFromAppend(size: nat, a: seq<byte>, b: seq<byte>)
    requires (forall i | 0 <= i < |a| :: HexDigit(a[i])) && (forall i | 0 <= i < |b| :: HexDigit(b[i]))
    ensures HexFrom(size, a + b) == HexFrom(HexFrom(size, a), b)
    decreases |a|
  {
    if a == [] {
      assert a + b == b;
    } else {
      assert (a + b)[1..] == a[1..] + b;
      HexFromAppend(16 * size + Digit(a[0]), a[1..], b);
    }
  }

  /** Losing the leading digits keeps the value exactly if they are worth nothing. */
  lemma DropDigits(a: seq<byte>, b: seq<byte>)
    requires (forall i | 0 <= i < |a| :: HexDigit(a[i])) && (forall i | 0 <= i < |b| :: HexDigit(b[i]))
    ensures HexValue(a + b) == HexValue(b) <==> HexValue(a) == 0
  {
    HexFromAppend(0, a, b);
    HexFromLinear(HexFrom(0, a), b);
    HexFromZero(a);
    HexFromZero(b);
    HexFromZero(a + b);
    var x, p := HexValue(a), Pow16(|b|);
    if x > 0 {
      ProductGap(x, p);
    }
  }

  /** The second part of a size line cut among its digits is taken for a line of its own. */
  lemma CutDigits(l: Line, k: nat, s: seq<byte>)
    requires GoodLine(l) && k < |l.digits|
    ensures Execute(LineBytes(l)[k..] + s) == Finished(HexValue(l.digits[k..]), |LineBytes(l)| - k)
  {
    var m := l.(digits := l.digits[k..]);
    assert LineBytes(m) == LineBytes(l)[k..];
    LineParses(m, s);
  }

  /** The number of hexadecimal digits at the front of s. */
  function HexRun(s: seq<byte>): (h: nat)
    ensures h <= |s| && (forall i | 0 <= i < h :: HexDigit(s[i])) && (h < |s| ==> !HexDigit(s[h]))
  {
    if s == [] || !HexDigit(s[0]) then 0 else 1 + HexRun(s[1..])
  }

  /** Past the digits, whether and where a line ends does not depend on its size. */
  lemma {:induction false} SizeKept(st: State, n: nat, m: nat, s: seq<byte>)
    requires st != Start && st != Size && Scan(st, n, s).Finished?
    ensures Scan(st, n, s).size == n && Scan(st, m, s) == Finished(m, Scan(st, n, s).used)
    decreases |s|
  {
    if !(s[0] == LF && MayEnd(st)) {
      SizeKept(Next(st, s[0]).value, n, m, s[1..]);
    }
  }

  /** A separator takes every state in which the line goes on to the state it takes Size to. */
  lemma SeparatorMeets(st: State, n: nat, m: nat, s: seq<byte>)
    requires Scan(st, n, s).Finished? && s[0] in {SEMICOLON, CR, LF}
    ensures Scan(Size, m, s) == Finished(m, Scan(st, n, s).used)
  {
    if s[0] != LF {
      SizeKept(Leave(s[0]).value, n, m, s[1..]);
    }
  }

  /** Every part of a line up to its end is finished from some state of the machine. */
  lemma {:induction false} SuffixFinishes(st: State, size: nat, s: seq<byte>, k: nat) returns (st': State, size': nat)
    requires Scan(st, size, s).Finished? && k < Scan(st, size, s).used <= |s|
    ensures Scan(st', size', s[k..]) == Finished(Scan(st, size, s).size, Scan(st, size, s).used - k)
    decreases k
  {
    if k == 0 {
      st', size' := st, size;
      assert s[0..] == s;
    } else {
      var st1 := Next(st, s[0]).value;
      var size1 := if st1 == Size then 16 * size + Digit(s[0]) else size;
      ScanUses(st1, size1, s[1..]);
      st', size' := SuffixFinishes(st1, size1, s[1..], k - 1);
      assert s[1..][k - 1..] == s[k..];
    }
  }

  /** A finished line ends in a line feed, so its digits end before it does. */
  lemma {:induction false} EndsInLF(st: State, size: nat, s: seq<byte>)
    requires Scan(st, size, s).Finished? && Scan(st, size, s).used <= |s|
    ensures 0 < Scan(st, size, s).used && s[Scan(st, size, s).used - 1] == LF
    decreases |s|
  {
    if !(s[0] == LF && MayEnd(st)) {
      var st1 := Next(st, s[0]).value;
      var size1 := if st1 == Size then 16 * size + Digit(s[0]) else size;
      ScanUses(st1, size1, s[1..]);
      EndsInLF(st1, size1, s[1..]);
    }
  }

  /** The fresh machine on t, of which the machine in state st would finish a line. */
  lemma Restarted(st: State, size: nat, t: seq<byte>)
    requires Scan(st, size, t).Finished? && Scan(st, size, t).used <= |t|
    ensures var h := HexRun(t); var r := Execute(t);
            && h < |t|
            && (h > 0 && t[h] in {SEMICOLON, CR, LF} ==> r == Finished(HexFrom(0, t[..h]), Scan(st, size, t).used))
            && (!(h > 0 && t[h] in {SEMICOLON, CR, LF}) ==> r == if t[0] == CAPITAL_H then StatusLine else Error)
  {
    var h := HexRun(t);
    EndsInLF(st, size, t);
    assert h < Scan(st, size, t).used;
    if h > 0 {
      assert t == t[..h] + t[h..];
      ScanDigits(t[..h], 0, Start, t[h..]);
      if t[h] in {SEMICOLON, CR, LF} {
        var st1, size1 := SuffixFinishes(st, size, t, h);
        SeparatorMeets(st1, size1, HexFrom(0, t[..h]), t[h..]);
      }
    }
  }

  /**
    A size line, with or without extensions, cut after k bytes by the end of a read. The first part is lost,
    and what follows is taken for a line of its own exactly if it starts with hexadecimal digits and a
    separator or line end right behind them; its size is then the value of those digits. Otherwise it is
    an error, or taken for a status line.
   */
  lemma CutLineIff(l: Line, k: nat, s: seq<byte>)
    requires GoodLine(l) && 0 < k < |LineBytes(l)|
    ensures Execute(LineBytes(l)[..k]) == Pending
    ensures var t := LineBytes(l)[k..] + s; var h := HexRun(t); var r := Execute(t);
            && h < |t|
            && (r.Finished? <==> h > 0 && t[h] in {SEMICOLON, CR, LF})
            && (r.Finished? ==> r == Finished(HexFrom(0, t[..h]), |LineBytes(l)| - k))
            && (!r.Finished? ==> r == if t[0] == CAPITAL_H then StatusLine else Error)
  {
    var line := LineBytes(l);
    LineParses(l, []);
    assert line + [] == line;
    PrefixPending(Start, 0, line, k);
    LineParses(l, s);
    var st, size := SuffixFinishes(Start, 0, line + s, k);
    assert (line + s)[k..] == line[k..] + s;
    Restarted(st, size, line[k..] + s);
  }

  /**
    Without extensions: the size survives if and only if the cut falls among the digits and the lost ones
    are all zeros. Otherwise the decoder gets a wrong size, or an error when no digit is left.
   */
  lemma CutPlainIff(l: Line, k: nat, s: seq<byte>)
    requires GoodLine(l) && l.exts == [] && 0 < k < |LineBytes(l)|
    ensures var r := Execute(LineBytes(l)[k..] + s);
            && (r.Finished? <==> k < |l.digits|) && (r == Error <==> k >= |l.digits|)
            && ((r.Finished? && r.size == HexValue(l.digits)) <==> k < |l.digits| && HexValue(l.digits[..k]) == 0)
  {
    CutLineIff(l, k, s);
    if k < |l.digits| {
      CutDigits(l, k, s);
      assert l.digits == l.digits[..k] + l.digits[k..];
      DropDigits(l.digits[..k], l.digits[k..]);
    } else {
      var t := LineBytes(l)[k..] + s;
      assert t[0] in {CR, LF};
    }
  }

  /** A line of the digits given, with no extensions. */
  function Plain(digits: seq<byte>): Line { Line(digits, [], false) }

  /** The seventeen bytes "A CRLF 0 CRLF CRLF BBBBBBBBB", in one chunk of size "11". */
  const DATA: seq<byte> := [65, CR, LF] + ([48, CR, LF] + ([CR, LF] + FILL))

  const FILL: seq<byte> := [66, 66, 66, 66, 66, 66, 66, 66, 66]

  const END := Chunk(Plain([48]), [])

  const SENT := [Chunk(Plain([49, 49]), DATA), END]

  /** What is left of it without the first digit: a chunk "A" of size "1", and the end. */
  const SEEN := [Chunk(Plain([49]), [65]), END]

  /** What the decoder then takes to follow the body. */
  const AFTER: seq<byte> := FILL + ([CR, LF] + ChunkBytes(END))

  lemma EncodeTwo(c: Chunk, d: Chunk)
    ensures Encode([c, d]) == ChunkBytes(c) + ChunkBytes(d) && Content([c, d]) == c.data + d.data
  {
    assert [c, d][1..] == [d] && [d][1..] == [];
    assert Encode([d]) == ChunkBytes(d) + Encode([]) == ChunkBytes(d);
    assert Content([d]) == d.data + Content([]) == d.data;
  }

  lemma PlainBytes(digits: seq<byte>)
    ensures LineBytes(Plain(digits)) == digits + [CR, LF]
  {
  }

  lemma OneTwo()
    ensures HexValue([48]) == 0 && HexValue([49]) == 1 && HexValue([49, 49]) == 17
  {
    assert [48][..0] == [] && [49][..0] == [] && [49, 49][..1] == [49];
  }

  /** Both are well formed, and the second is the first behind its first digit. */
  lemma SentAndSeen()
    ensures WellFormed(SENT) && WellFormed(SEEN) && Content(SENT) == DATA && Content(SEEN) == [65] && |DATA| == 17
    ensures Encode(SENT) == [49] + (Encode(SEEN) + AFTER)
  {
    OneTwo();
    EncodeTwo(SENT[0], END);
    EncodeTwo(SEEN[0], END);
    PlainBytes([48]);
    PlainBytes([49]);
    PlainBytes([49, 49]);
    assert [49, 49] + [CR, LF] == [49] + ([49] + [CR, LF]);
    assert Encode(SENT) == [49] + (Encode(SEEN) + AFTER);
  }

  /**
    A wrong body: the read that ended the header also brought the first digit of "11", and the rest comes by
    reads that cut no more size lines. The decoder replies with the body "A", as if nothing were amiss.
   */
  method CutBody(s: Stream, buffSize: nat) returns (r: Reply, buf: seq<byte>)
    requires s.Valid() && !s.failed && 0 < buffSize && [49] + s.Ahead() == Encode(SENT)
    modifies s`pos, s`failed, s`ends
    ensures WellFormed(SENT) && |Content(SENT)| == 17
    ensures !s.failed && Clean(s.ends, SEEN, |AFTER|) ==> r == Body([65])
  {
    SentAndSeen();
    assert s.Ahead() == ([49] + s.Ahead())[1..] == Encode(SEEN) + AFTER;
    assert Execute([49]) == Pending by {
      assert [49][1..] == [] && Scan(Size, 1, []) == Pending;
    }
    r, buf := Receive(s, [49], buffSize, SEEN, AFTER);
  }

  // ---------------------------------------------------------------------------
  // Size lines of RFC 9112 that the machine does not take
  // ---------------------------------------------------------------------------

  /** Nothing but a digit, a semicolon or a line end may follow the digits: white space there is an error. */
  lemma NoSpaceAfterSize(digits: seq<byte>, c: byte, s: seq<byte>)
    requires digits != [] && (forall i | 0 <= i < |digits| :: HexDigit(digits[i]))
    requires !HexDigit(c) && c !in {SEMICOLON, CR, LF}
    ensures Execute(digits + ([c] + s)) == Error
  {
    ScanDigits(digits, 0, Start, [c] + s);
  }

  /** An extension value must start with a token character: a quoted string is an error, whatever comes before it. */
  lemma NoQuotedValue(digits: seq<byte>, name: seq<byte>, c: byte, s: seq<byte>)
    requires digits != [] && (forall i | 0 <= i < |digits| :: HexDigit(digits[i]))
    requires IsToken(name) && !Token(c)
    ensures Execute(digits + ([SEMICOLON] + (name + ([EQUALS] + ([c] + s))))) == Error
  {
    var v := [EQUALS] + ([c] + s);
    var u := [SEMICOLON] + (name + v);
    ScanDigits(digits, 0, Start, u);
    assert u[1..] == name + v;
    ScanToken(name, NameStart, HexFrom(0, digits), v);
    assert v[1..] == [c] + s;
  }
}
