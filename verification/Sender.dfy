/**
  The sender's side of chunked coding, written with literal digits: what any writer of size lines and bodies
  sends is what the machine and the decoder take, and the machine takes nothing else.
 */
module ChunkSender {
  import opened Common
  import opened Blocks
  import opened HttpBody
  import opened Chunked

  const LOWER: string := "0123456789abcdef"
  const UPPER: string := "0123456789ABCDEF"

  /** c is the hexadecimal digit of value d, in either case. */
  predicate IsDigit(c: byte, d: nat)
    requires d < 16
  {
    c == LOWER[d] as int || c == UPPER[d] as int
  }

  /** digits is a hexadecimal numeral of n, with any leading zeros and any mixture of cases. */
  predicate Numeral(digits: seq<byte>, n: nat) {
    if digits == [] then n == 0
    else IsDigit(digits[|digits| - 1], n % 16) && Numeral(digits[..|digits| - 1], n / 16)
  }

  /** The digits the machine takes are the sixteen, and each has its position for value. */
  lemma DigitIs(c: byte, d: nat)
    requires d < 16
    ensures IsDigit(c, d) <==> HexDigit(c) && Digit(c) == d
  {
    assert LOWER[d] as int == if d < 10 then 48 + d else 87 + d;
    assert UPPER[d] as int == if d < 10 then 48 + d else 55 + d;
  }

  const SPECIALS: string := "()<>@,;:\\\"/[]?={} "

  /** A token is made of printing ASCII characters without the specials. */
  lemma TokenIs(c: byte)
    ensures Token(c) <==> '!' as int <= c <= '~' as int && forall i | 0 <= i < |SPECIALS| :: SPECIALS[i] as int != c
  {
    assert SPECIALS[0] as int == 40 && SPECIALS[1] as int == 41 && SPECIALS[2] as int == 60 && SPECIALS[3] as int == 62;
    assert SPECIALS[4] as int == 64 && SPECIALS[5] as int == 44 && SPECIALS[6] as int == 59 && SPECIALS[7] as int == 58;
    assert SPECIALS[8] as int == 92 && SPECIALS[9] as int == 34 && SPECIALS[10] as int == 47;
    assert SPECIALS[11] as int == 91 && SPECIALS[12] as int == 93 && SPECIALS[13] as int == 63;
    assert SPECIALS[14] as int == 61 && SPECIALS[15] as int == 123 && SPECIALS[16] as int == 125;
    assert SPECIALS[17] as int == 32;
  }

  predicate AllHex(digits: seq<byte>) { forall i | 0 <= i < |digits| :: HexDigit(digits[i]) }

  /** The value of a size line is the number that its digits are a numeral of. */
  lemma {:induction false} NumeralIff(digits: seq<byte>, n: nat)
    ensures Numeral(digits, n) <==> AllHex(digits) && HexValue(digits) == n
  {
    if digits != [] {
      var k := |digits| - 1;
      var front, c := digits[..k], digits[k];
      DigitIs(c, n % 16);
      NumeralIff(front, n / 16);
      assert AllHex(digits) <==> AllHex(front) && HexDigit(c);
      if AllHex(digits) {
        assert HexValue(digits) == 16 * HexValue(front) + Digit(c);
      }
    }
  }

  /** The shortest numeral of n, in lower or upper case. */
  function ToHex(n: nat, upper: bool): (digits: seq<byte>)
    ensures Numeral(digits, n) && digits != []
  {
    var c := [(if upper then UPPER else LOWER)[n % 16] as int];
    if n < 16 then c else ToHex(n / 16, upper) + c
  }

  // ---------------------------------------------------------------------------
  // What the machine takes is a size line
  // ---------------------------------------------------------------------------

  /** What is left of a line in some state: digits, the rest of an extension, further extensions, the end. */
  datatype Left = Left(d: seq<byte>, e: Ext, es: seq<Ext>, bare: bool)

  function Tail(l: Left): seq<byte> { ExtsBytes(l.es) + LineEnd(l.bare) }

  function ValueBytes(value: Option<seq<byte>>): seq<byte> { if value.Some? then [EQUALS] + value.value else [] }

  function Spell(st: State, l: Left): seq<byte> {
    match st
    case Start => l.d + Tail(l)
    case Size => l.d + Tail(l)
    case NameStart => l.e.name + (ValueBytes(l.e.value) + Tail(l))
    case Name => l.e.name + (ValueBytes(l.e.value) + Tail(l))
    case ValueStart => l.e.name + Tail(l)
    case Value => l.e.name + Tail(l)
    case Cr => [LF]
  }

  predicate AllTokens(s: seq<byte>) { forall i | 0 <= i < |s| :: Token(s[i]) }

  /** The parts are as the grammar has them; those begun before may end here. */
  predicate Proper(st: State, l: Left) {
    && AllHex(l.d) && (forall i | 0 <= i < |l.es| :: GoodExt(l.es[i]))
    && AllTokens(l.e.name) && (l.e.value.Some? ==> IsToken(l.e.value.value))
    && (st == Start ==> l.d != []) && (st in {NameStart, ValueStart} ==> l.e.name != [])
  }

  const NOTHING := Ext([], None)

  /** The parts with the byte in front that led from st to st'. */
  function Before(st': State, c: byte, l: Left): Left {
    match st'
    case Start => l
    case Size => Left([c] + l.d, NOTHING, l.es, l.bare)
    case NameStart => Left([], NOTHING, [l.e] + l.es, l.bare)
    case Name => l.(e := l.e.(name := [c] + l.e.name))
    case ValueStart => l.(e := Ext([], Some(l.e.name)))
    case Value => l.(e := l.e.(name := [c] + l.e.name))
    case Cr => Left([], NOTHING, [], false)
  }

  lemma Assoc(a: seq<byte>, b: seq<byte>, c: seq<byte>)
    ensures a + b + c == a + (b + c)
  {
  }

  lemma BeforeProper(st: State, c: byte, l: Left)
    requires Next(st, c).Some? && Proper(Next(st, c).value, l)
    ensures Proper(st, Before(Next(st, c).value, c, l))
  {
  }

  /** Behind a part that has ended come the extensions and the end. */
  lemma NextExt(e: Ext, l: Left)
    ensures Tail(Left([], NOTHING, [e] + l.es, l.bare)) == [SEMICOLON] + (e.name + (ValueBytes(e.value) + Tail(l)))
  {
    var es := [e] + l.es;
    assert es[0] == e && es[1..] == l.es;
    assert ExtsBytes(es) == ExtBytes(e) + ExtsBytes(l.es);
    assert ExtBytes(e) == [SEMICOLON] + e.name + ValueBytes(e.value);
    assert ExtBytes(e) + ExtsBytes(l.es) + LineEnd(l.bare) == [SEMICOLON] + (e.name + (ValueBytes(e.value) + Tail(l)));
  }

  /** Before the tail a part may end, with nothing left of it. */
  lemma Ended(st: State, l: Left)
    requires st in {Size, Name, Value} && l.d == [] && l.e == NOTHING
    ensures Spell(st, l) == Tail(l)
  {
    assert [] + Tail(l) == Tail(l);
  }

  lemma BeforeSpells(st: State, c: byte, l: Left)
    requires Next(st, c).Some?
    ensures Spell(st, Before(Next(st, c).value, c, l)) == [c] + Spell(Next(st, c).value, l)
  {
    var st' := Next(st, c).value;
    var m := Before(st', c, l);
    match st'
    case Size => Assoc([c], l.d, Tail(l));
    case NameStart =>
      Ended(st, m);
      NextExt(l.e, l);
    case Name => Assoc([c], l.e.name, ValueBytes(l.e.value) + Tail(l));
    case ValueStart => ValueFollows(l);
    case Value => Assoc([c], l.e.name, Tail(l));
    case Cr =>
      Ended(st, m);
      assert Tail(m) == [CR] + [LF];
  }

  lemma ValueFollows(l: Left)
    ensures [] + (ValueBytes(Some(l.e.name)) + Tail(l)) == [EQUALS] + (l.e.name + Tail(l))
  {
  }

  lemma BeforeSize(st: State, size: nat, c: byte, l: Left)
    requires Next(st, c).Some? && Proper(Next(st, c).value, l)
    ensures var st' := Next(st, c).value;
            var m := Before(st', c, l);
            AllHex(m.d) && (if st in {Start, Size} then HexFrom(size, m.d) else size)
                           == if st' == Size then HexFrom(16 * size + Digit(c), l.d) else size
  {
    if Next(st, c) == Some(Size) {
      assert ([c] + l.d)[1..] == l.d;
    }
  }

  /** The machine finishes a line on s, and what it has used is l. */
  ghost predicate Reads(st: State, size: nat, s: seq<byte>, l: Left) {
    var r := Scan(st, size, s);
    && r.Finished? && r.used <= |s| && Proper(st, l) && s[..r.used] == Spell(st, l)
    && r.size == if st in {Start, Size} then HexFrom(size, l.d) else size
  }

  /** The byte c takes the machine from state st to st' and from size to size'. */
  predicate Steps(st: State, size: nat, c: byte, st': State, size': nat) {
    && Next(st, c) == Some(st') && !(c == LF && MayEnd(st)) && !(st == Start && c == CAPITAL_H)
    && size' == if st' == Size then 16 * size + Digit(c) else size
  }

  lemma ScanSteps(st: State, size: nat, s: seq<byte>, st': State, size': nat)
    requires s != [] && Steps(st, size, s[0], st', size')
    ensures Scan(st, size, s) == Shift(Scan(st', size', s[1..]), 1)
  {
  }

  lemma ReadsMore(st: State, size: nat, s: seq<byte>, st': State, size': nat, l: Left)
    requires s != [] && Steps(st, size, s[0], st', size') && Reads(st', size', s[1..], l)
    ensures Reads(st, size, s, Before(st', s[0], l))
  {
    var c, used := s[0], Scan(st', size', s[1..]).used;
    ScanSteps(st, size, s, st', size');
    BeforeProper(st, c, l);
    BeforeSpells(st, c, l);
    BeforeSize(st, size, c, l);
    assert s[..used + 1] == [c] + s[1..][..used];
  }

  /** Where the machine finishes a line, it has read one of the grammar, from any state. */
  lemma {:induction false} Grammar(st: State, size: nat, s: seq<byte>) returns (l: Left)
    requires Scan(st, size, s).Finished?
    ensures Reads(st, size, s, l)
    decreases |s|
  {
    if s[0] == LF && MayEnd(st) {
      l := Left([], NOTHING, [], true);
      assert s[..1] == [LF];
      assert Reads(st, size, s, l);
    } else {
      var st' := Next(st, s[0]).value;
      var size' := if st' == Size then 16 * size + Digit(s[0]) else size;
      var m := Grammar(st', size', s[1..]);
      ReadsMore(st, size, s, st', size', m);
      l := Before(st', s[0], m);
    }
  }

  /** A line stands at the front of s. */
  ghost predicate LineAt(s: seq<byte>, l: Line) { GoodLine(l) && LineBytes(l) <= s }

  /**
    The machine finishes exactly on the lines of the grammar: with size n and used bytes if and only if these
    bytes are a line whose digits are a numeral of n.
   */
  lemma FinishedIff(s: seq<byte>, n: nat, used: nat)
    ensures Execute(s) == Finished(n, used) <==>
            exists l: Line :: LineAt(s, l) && Numeral(l.digits, n) && |LineBytes(l)| == used
  {
    if Execute(s) == Finished(n, used) {
      var p := Grammar(Start, 0, s);
      var l := Line(p.d, p.es, p.bare);
      HexFromZero(p.d);
      NumeralIff(p.d, n);
      assert LineAt(s, l) && Numeral(l.digits, n) && |LineBytes(l)| == used;
    }
    forall l: Line | LineAt(s, l) && Numeral(l.digits, n) && |LineBytes(l)| == used
      ensures Execute(s) == Finished(n, used)
    {
      LineFinishes(s, l, n);
    }
  }

  lemma LineFinishes(s: seq<byte>, l: Line, n: nat)
    requires LineAt(s, l) && Numeral(l.digits, n)
    ensures Execute(s) == Finished(n, |LineBytes(l)|)
  {
    NumeralIff(l.digits, n);
    assert s == LineBytes(l) + s[|LineBytes(l)|..];
    LineParses(l, s[|LineBytes(l)|..]);
  }

  /** From every state a line can be completed. */
  function Completion(st: State): (t: seq<byte>)
    ensures t != []
  {
    if st == Start then [48, LF] else if st in {NameStart, ValueStart} then [97, LF] else [LF]
  }

  /** The machine takes all of t for a line. */
  predicate Whole(st: State, size: nat, t: seq<byte>) {
    Scan(st, size, t).Finished? && Scan(st, size, t).used == |t|
  }

  lemma {:induction false} Completes(st: State, size: nat, s: seq<byte>) returns (st': State)
    requires Scan(st, size, s) == Pending
    ensures Whole(st, size, s + Completion(st'))
    decreases |s|
  {
    if s == [] {
      st' := st;
      var t := Completion(st);
      assert s + t == t;
      assert |t| == 2 ==> t[1..] == [LF];
    } else {
      var st1 := Next(st, s[0]).value;
      var size1 := if st1 == Size then 16 * size + Digit(s[0]) else size;
      ScanSteps(st, size, s, st1, size1);
      st' := Completes(st1, size1, s[1..]);
      var t := s + Completion(st');
      assert t[1..] == s[1..] + Completion(st');
      ScanSteps(st, size, t, st1, size1);
    }
  }

  /** It takes a piece whole without a result if and only if the piece is a proper prefix of a line. */
  lemma PendingIff(s: seq<byte>)
    ensures Execute(s) == Pending <==> exists l: Line :: GoodLine(l) && s < LineBytes(l)
  {
    if Execute(s) == Pending {
      var st := Completes(Start, 0, s);
      var t := s + Completion(st);
      FinishedIff(t, Execute(t).size, |t|);
      var l: Line :| LineAt(t, l) && |LineBytes(l)| == |t|;
      assert LineBytes(l) == t && s < t;
    }
    forall l: Line | GoodLine(l) && s < LineBytes(l)
      ensures Execute(s) == Pending
    {
      LineParses(l, []);
      assert LineBytes(l) + [] == LineBytes(l) && LineBytes(l)[..|s|] == s;
      PrefixPending(Start, 0, LineBytes(l), |s|);
    }
  }

  // ---------------------------------------------------------------------------
  // What a sender writes comes back
  // ---------------------------------------------------------------------------

  const CRLF: seq<byte> := ['\r' as int, '\n' as int]

  /** The size line that a sender writes for n: a numeral, and line end. */
  function SizeLine(n: nat, upper: bool): seq<byte> { ToHex(n, upper) + CRLF }

  /** It is read as n, whatever follows. */
  lemma SizeLineRead(n: nat, upper: bool, s: seq<byte>)
    ensures Execute(SizeLine(n, upper) + s) == Finished(n, |SizeLine(n, upper)|)
  {
    var l := Plain(ToHex(n, upper));
    PlainBytes(l.digits);
    NumeralIff(l.digits, n);
    LineParses(l, s);
  }

  /** The body in pieces, as a sender chunks it: each with its size line and a line end, then the empty one. */
  function Wire(pieces: seq<seq<byte>>, upper: bool): seq<byte> {
    if pieces == [] then ['0' as int] + CRLF + CRLF
    else SizeLine(|pieces[0]|, upper) + (pieces[0] + CRLF) + Wire(pieces[1..], upper)
  }

  /** Pieces that can be sent: none is empty or too long for the receiver's int. */
  predicate Sendable(pieces: seq<seq<byte>>) { forall i | 0 <= i < |pieces| :: 0 < |pieces[i]| < LIMIT }

  function Chunks(pieces: seq<seq<byte>>, upper: bool): seq<Chunk> {
    if pieces == [] then [END]
    else [Chunk(Plain(ToHex(|pieces[0]|, upper)), pieces[0])] + Chunks(pieces[1..], upper)
  }

  /** A piece is a chunk of its length. */
  lemma PieceChunk(piece: seq<byte>, upper: bool)
    requires |piece| < LIMIT
    ensures var c := Chunk(Plain(ToHex(|piece|, upper)), piece);
            GoodChunk(c) && ChunkBytes(c) == SizeLine(|piece|, upper) + (piece + CRLF)
  {
    var digits := ToHex(|piece|, upper);
    NumeralIff(digits, |piece|);
    PlainBytes(digits);
  }

  lemma EndIs()
    ensures WellFormed([END]) && Content([END]) == [] && Encode([END]) == ['0' as int] + CRLF + CRLF
  {
    OneTwo();
    PlainBytes([48]);
    assert [END][1..] == [];
    assert [48] + [CR, LF] == [48, CR, LF];
    assert ChunkBytes(END) == [48, CR, LF] + ([] + [CR, LF]);
    assert Encode([END]) == ChunkBytes(END) + [];
  }

  lemma WellFormedMore(c: Chunk, cs: seq<Chunk>)
    requires GoodChunk(c) && c.data != [] && WellFormed(cs)
    ensures WellFormed([c] + cs) && Content([c] + cs) == c.data + Content(cs)
    ensures Encode([c] + cs) == ChunkBytes(c) + Encode(cs)
  {
    var ds := [c] + cs;
    assert ds[1..] == cs;
    assert forall i | 0 < i < |ds| :: ds[i] == cs[i - 1];
  }

  lemma {:induction false} WireIs(pieces: seq<seq<byte>>, upper: bool)
    requires Sendable(pieces)
    ensures WellFormed(Chunks(pieces, upper)) && Content(Chunks(pieces, upper)) == Flatten(pieces)
    ensures Encode(Chunks(pieces, upper)) == Wire(pieces, upper)
  {
    if pieces == [] {
      EndIs();
    } else {
      WireIs(pieces[1..], upper);
      PieceChunk(pieces[0], upper);
      WellFormedMore(Chunk(Plain(ToHex(|pieces[0]|, upper)), pieces[0]), Chunks(pieces[1..], upper));
    }
  }

  /**
    From sender to receiver: whatever pieces the body is sent in and whatever the reads deliver, the decoder
    returns the body, if no read fails and none ends strictly inside a size line.
   */
  method ReceiveSent(s: Stream, buffered: seq<byte>, buffSize: nat, ghost pieces: seq<seq<byte>>, ghost upper: bool,
                     ghost rest: seq<byte>)
    returns (r: Reply, buf: seq<byte>)
    requires s.Valid() && !s.failed && 0 < buffSize && |buffered| <= buffSize
    requires Sendable(pieces) && buffered + s.Ahead() == Wire(pieces, upper) + rest
    modifies s`pos, s`failed, s`ends
    ensures s.Valid() && (s.failed ==> r == Closed)
    ensures !s.failed && Clean(s.ends, Chunks(pieces, upper), |rest|) ==>
              r == Body(Flatten(pieces)) && buf + s.Ahead() == rest
  {
    WireIs(pieces, upper);
    r, buf := Receive(s, buffered, buffSize, Chunks(pieces, upper), rest);
  }
}
