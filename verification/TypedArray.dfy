/**
  The typed writers and readers of ByteArray, as methods on the node chain, and the round trip of whole
  messages through it.
 */
module TypedArray {
  import opened Common
  import opened Blocks
  import opened Codec
  import opened Message
  import opened ByteArrayModel

  // ---------------------------------------------------------------------------
  // Appending
  // ---------------------------------------------------------------------------

  /** Nothing lies ahead of the position, and at most the rest of one node is free. */
  ghost predicate Appending(a: ByteArray)
    reads a, a.nodes, a.bufs
  {
    && a.Usable() && a.position == a.size
    && if a.position == 0 then a.capacity == a.baseSize else a.capacity < a.position + a.baseSize
  }

  /** Where a list of write() calls that starts at position p leaves the position. */
  function EndOf(cs: seq<seq<byte>>, p: nat, b: nat, adv: Advance): nat
    requires b > 0
  {
    if cs == [] then p
    else EndOf(cs[1..], if cs[0] == [] then p else Landing(p + |cs[0]|, b, adv), b, adv)
  }

  /** Every write of something, the first of them at position p, ends on a node boundary. */
  predicate ExactFill(cs: seq<seq<byte>>, p: nat, b: nat)
    requires b > 0
  {
    cs == [] || ((cs[0] == [] || (p + |cs[0]|) % b == 0) && ExactFill(cs[1..], p + |cs[0]|, b))
  }

  predicate Exact(cs: seq<seq<byte>>, p: nat, b: nat, adv: Advance)
    requires b > 0
  {
    adv == BySize || ExactFill(cs, p, b)
  }

  lemma LandingExact(end: nat, b: nat, adv: Advance)
    requires b > 0
    ensures Landing(end, b, adv) >= end
    ensures Landing(end, b, adv) == end <==> adv == BySize || end % b == 0
  {
    PositionArithmetic(end, b);
  }

  /** The position ends up exactly past the bytes written if and only if every write lands exactly. */
  lemma {:induction false} EndOfExact(cs: seq<seq<byte>>, p: nat, b: nat, adv: Advance)
    requires b > 0
    ensures EndOf(cs, p, b, adv) >= p + |Flatten(cs)|
    ensures EndOf(cs, p, b, adv) == p + |Flatten(cs)| <==> Exact(cs, p, b, adv)
  {
    if cs != [] {
      var end := p + |cs[0]|;
      LandingExact(end, b, adv);
      EndOfExact(cs[1..], if cs[0] == [] then p else Landing(end, b, adv), b, adv);
      if cs[0] != [] && Landing(end, b, adv) == end {
        EndOfExact(cs[1..], end, b, adv);
      }
    }
  }

  lemma {:induction false} EndOfAppend(cs: seq<seq<byte>>, ds: seq<seq<byte>>, p: nat, b: nat, adv: Advance)
    requires b > 0
    ensures EndOf(cs + ds, p, b, adv) == EndOf(ds, EndOf(cs, p, b, adv), b, adv)
  {
    if cs == [] {
      assert cs + ds == ds;
    } else {
      assert (cs + ds)[1..] == cs[1..] + ds;
      EndOfAppend(cs[1..], ds, if cs[0] == [] then p else Landing(p + |cs[0]|, b, adv), b, adv);
    }
  }

  /** With at most a node's rest free, a write in steps of whole nodes lands at the end of the chain. */
  lemma LandsAtCapacity(p: nat, end: nat, have: nat, b: nat)
    requires b > 0 && p <= end && p <= Span(have, b) <= p + b
    ensures p < end <= Span(have, b) ==> RoundUp(end, b) == Span(have, b)
  {
    if end < Span(have, b) {
      PositionIs(end, b);
      Placed(end, have, b);
      var k := NodeOf(end, b);
      if k + 1 < have {
        SpanMono(k + 1, have, b);
      }
    } else if end == Span(have, b) {
      Placed(end, have, b);
    }
  }

  lemma {:induction false} ExactAppend(cs: seq<seq<byte>>, ds: seq<seq<byte>>, p: nat, b: nat)
    requires b > 0
    ensures ExactFill(cs + ds, p, b) <==> ExactFill(cs, p, b) && ExactFill(ds, p + |Flatten(cs)|, b)
  {
    if cs == [] {
      assert cs + ds == ds;
    } else {
      assert (cs + ds)[1..] == cs[1..] + ds;
      ExactAppend(cs[1..], ds, p + |cs[0]|, b);
    }
  }

  /** With nodes of one byte, every write lands exactly. */
  lemma {:induction false} ExactByByte(cs: seq<seq<byte>>, p: nat)
    ensures ExactFill(cs, p, 1)
  {
    if cs != [] {
      ExactByByte(cs[1..], p + |cs[0]|);
    }
  }

  /** now is was with the bytes of the writes cs appended, in place if they all land exactly. */
  ghost predicate Appended(was: seq<byte>, now: seq<byte>, cs: seq<seq<byte>>, b: nat, adv: Advance)
    requires b > 0
  {
    && |now| == EndOf(cs, |was|, b, adv)
    && was <= now
    && (Exact(cs, |was|, b, adv) ==> now == was + Flatten(cs))
  }

  lemma AppendedTwice(was: seq<byte>, mid: seq<byte>, now: seq<byte>, cs: seq<seq<byte>>, ds: seq<seq<byte>>,
      b: nat, adv: Advance)
    requires b > 0 && Appended(was, mid, cs, b, adv) && Appended(mid, now, ds, b, adv)
    ensures Appended(was, now, cs + ds, b, adv)
  {
    EndOfAppend(cs, ds, |was|, b, adv);
    ExactAppend(cs, ds, |was|, b);
    FlattenAppend(cs, ds);
    assert was + Flatten(cs) + Flatten(ds) == was + (Flatten(cs) + Flatten(ds));
  }

  lemma AppendedOne(was: seq<byte>, now: seq<byte>, buf: seq<byte>, b: nat, adv: Advance)
    requires b > 0 && was + buf <= now
    requires |now| == if buf == [] then |was| else Landing(|was + buf|, b, adv)
    ensures Appended(was, now, [buf], b, adv)
  {
    FlattenOne(buf);
    LandingExact(|was + buf|, b, adv);
    assert [buf][1..] == [];
    assert EndOf([], |now|, b, adv) == |now|;
  }

  /** One write() at the end of the array. */
  method AppendBytes(a: ByteArray, buf: seq<byte>, adv: Advance)
    requires Appending(a)
    modifies a`position, a`size, a`capacity, a`cur, a`nodes, a`blocks, a`bufs, a.Tail()`next, a.bufs
    ensures Appending(a)
    ensures fresh(a.bufs - old(a.bufs)) && (a.Tail() == old(a.Tail()) || fresh(a.Tail()))
    ensures a.size == if buf == [] then old(a.size) else Landing(old(a.size) + |buf|, a.baseSize, adv)
    ensures Written(old(a.Flat()), a.Flat(), old(a.size), buf)
  {
    ghost var end := a.position + |buf|;
    LandsAtCapacity(a.position, end, |a.nodes|, a.baseSize);
    a.Write(buf, adv);
    if buf != [] {
      a.Landed(end, adv);
      LandingExact(end, a.baseSize, adv);
    }
  }

  lemma WrittenAtEnd(was: seq<byte>, now: seq<byte>, p: nat, buf: seq<byte>, q: nat)
    requires p <= |was| && Written(was, now, p, buf) && p + |buf| <= q <= |now|
    ensures was[..p] + buf <= now[..q]
  {
  }

  method Append(a: ByteArray, buf: seq<byte>, ghost cs: seq<seq<byte>>, adv: Advance)
    requires Appending(a) && cs == [buf]
    modifies a`position, a`size, a`capacity, a`cur, a`nodes, a`blocks, a`bufs, a.Tail()`next, a.bufs
    ensures Appending(a)
    ensures fresh(a.bufs - old(a.bufs)) && (a.Tail() == old(a.Tail()) || fresh(a.Tail()))
    ensures Appended(old(a.Contents()), a.Contents(), cs, a.baseSize, adv)
  {
    ghost var was, flat, p := a.Contents(), a.Flat(), a.size;
    AppendBytes(a, buf, adv);
    LandingExact(p + |buf|, a.baseSize, adv);
    WrittenAtEnd(flat, a.Flat(), p, buf, a.size);
    AppendedOne(was, a.Contents(), buf, a.baseSize, adv);
  }

  // ---------------------------------------------------------------------------
  // Writers
  // ---------------------------------------------------------------------------

  /** The digit loop of writeUint32 (w == 32, tmp[5]) and writeUint64 (w == 64, tmp[10]): tmp never overflows. */
  method EncodeVarint(value: nat, w: nat) returns (s: seq<byte>)
    requires w > 0 && value < Pow2(w)
    ensures s == VarintBytes(value) && |s| <= MaxBytes(w)
  {
    var tmp := new byte[MaxBytes(w)];
    var v, i := value, 0;
    assert Pow2(0) == 1;
    VarintFits(value, w, 0);
    while v >= 0x80
      invariant 0 <= i && i + |VarintBytes(v)| <= tmp.Length
      invariant tmp[..i] + VarintBytes(v) == VarintBytes(value)
      decreases v
    {
      ghost var was := tmp[..i];
      tmp[i] := v % 0x80 + 0x80;
      assert was + VarintBytes(v) == (was + [v % 0x80 + 0x80]) + VarintBytes(v / 0x80);
      v, i := v / 0x80, i + 1;
      assert tmp[..i] == was + [tmp[i - 1]];
    }
    tmp[i] := v;
    s := tmp[..i + 1];
  }

  /** The bytes a writer of numbers prepares for its one write(). */
  method Encode(x: Item) returns (s: seq<byte>)
    requires Writable(x) && !x.ty.StringT?
    ensures Writes(x) == [s]
  {
    match x.ty {
      case FixedT(w, _) => s := StoreFixed(Unsign(x.payload.n, 8 * w), w, x.swap);
      case VarintT(w) => s := EncodeVarint(x.payload.n, w);
      case ZigzagT(w) =>
        ZigzagSpec(x.payload.n, w);
        s := EncodeVarint(EncodeZigzag(x.payload.n, w), w);
    }
  }

  method EncodeLength(x: Item) returns (len: seq<byte>)
    requires Writable(x) && x.ty.StringT?
    ensures Writes(x) == [len] + [x.payload.s]
  {
    len := Encode(LengthItem(x));
  }

  /** The writers of strings: the length, then the bytes. */
  method WriteString(a: ByteArray, x: Item, adv: Advance)
    requires Appending(a) && Writable(x) && x.ty.StringT?
    modifies a`position, a`size, a`capacity, a`cur, a`nodes, a`blocks, a`bufs, a.Tail()`next, a.bufs
    ensures Appending(a)
    ensures fresh(a.bufs - old(a.bufs)) && (a.Tail() == old(a.Tail()) || fresh(a.Tail()))
    ensures Appended(old(a.Contents()), a.Contents(), Writes(x), a.baseSize, adv)
  {
    ghost var was := a.Contents();
    var len := EncodeLength(x);
    Append(a, len, [len], adv);
    ghost var mid := a.Contents();
    Append(a, x.payload.s, [x.payload.s], adv);
    AppendedTwice(was, mid, a.Contents(), [len], [x.payload.s], a.baseSize, adv);
  }

  /** The writers of numbers: one write(). */
  method WriteNumber(a: ByteArray, x: Item, adv: Advance)
    requires Appending(a) && Writable(x) && !x.ty.StringT?
    modifies a`position, a`size, a`capacity, a`cur, a`nodes, a`blocks, a`bufs, a.Tail()`next, a.bufs
    ensures Appending(a)
    ensures fresh(a.bufs - old(a.bufs)) && (a.Tail() == old(a.Tail()) || fresh(a.Tail()))
    ensures Appended(old(a.Contents()), a.Contents(), Writes(x), a.baseSize, adv)
  {
    var s := Encode(x);
    Append(a, s, Writes(x), adv);
  }

  method WriteItem(a: ByteArray, x: Item, adv: Advance)
    requires Appending(a) && Writable(x)
    modifies a`position, a`size, a`capacity, a`cur, a`nodes, a`blocks, a`bufs, a.Tail()`next, a.bufs
    ensures Appending(a)
    ensures fresh(a.bufs - old(a.bufs)) && (a.Tail() == old(a.Tail()) || fresh(a.Tail()))
    ensures Appended(old(a.Contents()), a.Contents(), Writes(x), a.baseSize, adv)
    ensures Exact(Writes(x), old(a.size), a.baseSize, adv) ==>
              exists bs :: Spelled(x, bs) && a.Contents() == old(a.Contents()) + bs
  {
    BytesSpelled(x);
    if x.ty.StringT? {
      WriteString(a, x, adv);
    } else {
      WriteNumber(a, x, adv);
    }
  }

  /** The write() calls of a whole message. */
  function AllWrites(xs: seq<Item>): seq<seq<byte>>
    requires forall x | x in xs :: Writable(x)
  {
    if xs == [] then [] else Writes(xs[0]) + AllWrites(xs[1..])
  }

  /** Writing a message: its bytes, one after the other, wherever the writes land exactly. */
  method WriteAll(a: ByteArray, xs: seq<Item>, adv: Advance)
    requires Appending(a) && forall x | x in xs :: Writable(x)
    modifies a`position, a`size, a`capacity, a`cur, a`nodes, a`blocks, a`bufs, a.Tail()`next, a.bufs
    ensures Appending(a)
    ensures fresh(a.bufs - old(a.bufs)) && (a.Tail() == old(a.Tail()) || fresh(a.Tail()))
    ensures Appended(old(a.Contents()), a.Contents(), AllWrites(xs), a.baseSize, adv)
    decreases |xs|
  {
    if xs != [] {
      ghost var was := a.Contents();
      WriteItem(a, xs[0], adv);
      ghost var mid := a.Contents();
      WriteAll(a, xs[1..], adv);
      AppendedTwice(was, mid, a.Contents(), Writes(xs[0]), AllWrites(xs[1..]), a.baseSize, adv);
    }
  }

  // ---------------------------------------------------------------------------
  // Readers
  // ---------------------------------------------------------------------------

  /** A reader returns a value, throws out_of_range, or dereferences the null cursor. */
  datatype Outcome = Value(payload: Payload) | Throws | Faults

  /** The bytes still to be read. */
  ghost function Ahead(a: ByteArray): seq<byte>
    requires a.Usable()
    reads a, a.nodes, a.bufs
  {
    a.Contents()[a.position..]
  }

  /** read() of at least one byte: it cannot reach a null cursor. */
  method Take(a: ByteArray, n: nat) returns (r: Option<seq<byte>>)
    requires a.Valid() && n > 0
    modifies a`position, a`cur
    ensures a.Valid() && a.Contents() == old(a.Contents())
    ensures r == if n > |old(Ahead(a))| then None else Some(old(Ahead(a))[..n])
    ensures a.position == old(a.position) + if r.Some? then n else 0
    ensures Ahead(a) == if r.Some? then old(Ahead(a))[n..] else old(Ahead(a))
  {
    ghost var was, p := a.Contents(), a.position;
    var d := a.Read(n);
    assert p + n <= |was| ==> was[p..][..n] == was[p..p + n] && was[p..][n..] == was[p + n..];
    r := if d.Data? then Some(d.bytes) else None;
  }

  /** readFuintN. */
  method ReadFixed(a: ByteArray, w: nat, swap: bool) returns (r: Option<nat>)
    requires a.Valid() && w > 0
    modifies a`position, a`cur
    ensures a.Valid() && a.Contents() == old(a.Contents())
    ensures r == ParseFixed(w, old(Ahead(a)), swap)
    ensures r.Some? ==> a.position == old(a.position) + w
  {
    var s := Take(a, w);
    r := if s.Some? then Some(LoadFixed(s.value, swap)) else None;
  }

  /** One turn of the decoding loop. */
  lemma VarintTurn(s: seq<byte>, w: nat, j: nat, acc: nat, acc': nat)
    requires j < MaxBytes(w)
    requires s != [] ==> acc' == BitOr(acc, (s[0] % 0x80) * Pow2(7 * j) % Pow2(w))
    ensures s == [] ==> ReadVarint(s, w, j, acc) == None
    ensures s != [] && s[0] < 0x80 ==> ReadVarint(s, w, j, acc) == Some((acc', 1))
    ensures s != [] && s[0] >= 0x80 ==> ReadVarint(s, w, j, acc) == After(ReadVarint(s[1..], w, j + 1, acc'), 1)
  {
  }

  /** readFuint8, and its digit or-ed into a varint's value. */
  method ReadDigit(a: ByteArray, w: nat, j: nat, acc: nat) returns (more: bool, r: Option<nat>)
    requires a.Valid() && j < MaxBytes(w)
    modifies a`position, a`cur
    ensures a.Valid() && a.Contents() == old(a.Contents())
    ensures r.Some? ==> a.position == old(a.position) + 1
    ensures var v := ReadVarint(old(Ahead(a)), w, j, acc);
            if r == None then v == None
            else if more then v == After(ReadVarint(Ahead(a), w, j + 1, r.value), 1)
            else v == Some((r.value, 1))
  {
    ghost var s := Ahead(a);
    var b := Take(a, 1);
    if b == None {
      VarintTurn(s, w, j, acc, 0);
      return false, None;
    }
    var acc' := BitOr(acc, (b.value[0] % 0x80) * Pow2(7 * j) % Pow2(w));
    VarintTurn(s, w, j, acc, acc');
    more, r := b.value[0] >= 0x80, Some(acc');
  }

  /** How far the decoding loop has come after j bytes. */
  ghost predicate Decoding(v: Option<(nat, nat)>, s: seq<byte>, w: nat, j: nat, acc: nat, more: bool) {
    v == if more then After(ReadVarint(s, w, j, acc), j) else Some((acc, j))
  }

  lemma DecodingStep(v: Option<(nat, nat)>, s: seq<byte>, s': seq<byte>, w: nat, j: nat, acc: nat, acc': nat,
      more: bool)
    requires Decoding(v, s, w, j, acc, true)
    requires ReadVarint(s, w, j, acc) == if more then After(ReadVarint(s', w, j + 1, acc'), 1) else Some((acc', 1))
    ensures Decoding(v, s', w, j + 1, acc', more)
  {
  }

  /** readUint32 and readUint64: byte by byte. */
  method ReadVar(a: ByteArray, w: nat) returns (r: Option<nat>)
    requires a.Valid()
    modifies a`position, a`cur
    ensures a.Valid() && a.Contents() == old(a.Contents())
    ensures var v := ReadVarint(old(Ahead(a)), w, 0, 0);
            r.Some? == v.Some? && (r.Some? ==> v.value == (r.value, a.position - old(a.position)))
  {
    var j, more := 0, true;
    r := Some(0);
    ghost var v := ReadVarint(Ahead(a), w, 0, 0);
    while j < MaxBytes(w) && more
      invariant 0 <= j <= MaxBytes(w) && r.Some? && a.Valid()
      invariant a.Contents() == old(a.Contents()) && a.position == old(a.position) + j
      invariant Decoding(v, Ahead(a), w, j, r.value, more)
      decreases MaxBytes(w) - j
    {
      ghost var s, acc := Ahead(a), r.value;
      more, r := ReadDigit(a, w, j, r.value);
      if r == None {
        return;
      }
      DecodingStep(v, s, Ahead(a), w, j, acc, r.value, more);
      j := j + 1;
    }
  }

  /** The readers of numbers. */
  method ReadNumber(a: ByteArray, ty: Type, swap: bool) returns (r: Option<int>)
    requires a.Valid() && Readable(ty) && !ty.StringT?
    modifies a`position, a`cur
    ensures a.Valid() && a.Contents() == old(a.Contents())
    ensures var v := ParseNumber(ty, swap, old(Ahead(a)));
            if r == None then v == Short
            else v.Got? && v.payload == Number(r.value) && a.position == old(a.position) + v.used
  {
    var u: Option<nat>;
    match ty {
      case FixedT(w, signed) =>
        u := ReadFixed(a, w, swap);
        r := if u == None then None else Some(if signed then Sign(u.value, 8 * w) else u.value);
      case VarintT(w) =>
        u := ReadVar(a, w);
        r := if u == None then None else Some(u.value);
      case ZigzagT(w) =>
        u := ReadVar(a, w);
        r := if u == None then None else Some(DecodeZigzag(u.value, w));
    }
  }

  /** The body of a string: read() of len bytes, which may be none. */
  method ReadBody(a: ByteArray, len: nat) returns (r: Outcome)
    requires a.Valid()
    modifies a`position, a`cur
    ensures a.Valid() && a.Contents() == old(a.Contents())
    ensures r == if len > |old(Ahead(a))| then Throws
                 else if old(a.position) == a.capacity then Faults
                 else Value(Text(old(Ahead(a))[..len]))
    ensures r.Value? ==> a.position == old(a.position) + len
  {
    ghost var was, p := a.Contents(), a.position;
    var d := a.Read(len);
    assert p + len <= |was| ==> was[p..][..len] == was[p..p + len];
    r := match d case Data(t) => Value(Text(t)) case OutOfRange => Throws case NullCursor => Faults;
  }

  /** What a reader makes of the bytes ahead: an empty string whose length ends the chain faults. */
  ghost predicate Reads(v: Parsed, at: nat, now: nat, capacity: nat, r: Outcome) {
    match v
    case Short => r == Throws
    case Got(x, k) => if x == Text([]) && at + k == capacity then r == Faults else r == Value(x) && now == at + k
  }

  /** A string is its length followed by that many bytes. */
  lemma StringReads(v: Parsed, s: seq<byte>, at: nat, len: nat, now: nat, capacity: nat, r: Outcome)
    requires v.Got? && v.used <= |s| && v.payload == Number(len) && at + |s| <= capacity
    requires r == if len > |s[v.used..]| then Throws else if at + v.used == capacity then Faults
        else Value(Text(s[v.used..][..len]))
    requires r.Value? ==> now == at + v.used + len
    ensures Reads(ParseBody(v, s), at, now, capacity, r)
  {
    var k := v.used;
    assert k + len <= |s| ==> s[k..][..len] == s[k..k + len];
  }

  method ReadString(a: ByteArray, p: Prefix, swap: bool) returns (r: Outcome)
    requires a.Valid()
    modifies a`position, a`cur
    ensures a.Valid() && a.Contents() == old(a.Contents())
    ensures Reads(ParseBody(ParseNumber(LengthType(p), swap, old(Ahead(a))), old(Ahead(a))),
                  old(a.position), a.position, a.capacity, r)
  {
    ghost var s, at := Ahead(a), a.position;
    ghost var v := ParseNumber(LengthType(p), swap, s);
    var len := ReadNumber(a, LengthType(p), swap);
    if len == None || len.value < 0 {
      return Throws;
    }
    assert Ahead(a) == s[v.used..];
    r := ReadBody(a, len.value);
    StringReads(v, s, at, len.value, a.position, a.capacity, r);
  }

  method ReadItem(a: ByteArray, ty: Type, swap: bool) returns (r: Outcome)
    requires a.Valid() && Readable(ty)
    modifies a`position, a`cur
    ensures a.Valid() && a.Contents() == old(a.Contents())
    ensures Reads(Parse(ty, swap, old(Ahead(a))), old(a.position), a.position, a.capacity, r)
  {
    if ty.StringT? {
      r := ReadString(a, ty.prefix, swap);
    } else {
      var n := ReadNumber(a, ty, swap);
      r := if n == None then Throws else Value(Number(n.value));
    }
  }

  function Payloads(xs: seq<Item>): seq<Payload> { if xs == [] then [] else [xs[0].payload] + Payloads(xs[1..]) }

  function Kinds(xs: seq<Item>): seq<(Type, bool)> {
    if xs == [] then [] else [(xs[0].ty, xs[0].swap)] + Kinds(xs[1..])
  }

  /** The message ends in a string of length zero. */
  predicate EndsEmpty(xs: seq<Item>) { xs != [] && xs[|xs| - 1].payload == Text([]) }

  /** The first item's bytes come first, and only an empty message has none. */
  lemma MessageBytes(xs: seq<Item>)
    requires xs != [] && forall x | x in xs :: Writable(x)
    ensures Flatten(AllWrites(xs)) == Bytes(xs[0]) + Flatten(AllWrites(xs[1..]))
    ensures Bytes(xs[0]) != []
  {
    FlattenAppend(Writes(xs[0]), AllWrites(xs[1..]));
    var cs := Writes(xs[0]);
    assert Flatten(cs) == cs[0] + Flatten(cs[1..]);
  }

  /** The end of the chain comes after the last item only. */
  lemma LastAtCapacity(xs: seq<Item>, at: nat, size: nat, capacity: nat)
    requires xs != [] && forall x | x in xs :: Writable(x)
    requires at + |Flatten(AllWrites(xs))| == size <= capacity
    ensures at + |Bytes(xs[0])| == capacity <==> xs[1..] == [] && size == capacity
  {
    MessageBytes(xs);
    if xs[1..] != [] {
      MessageBytes(xs[1..]);
    }
  }

  /** What reading the first item of a message leaves. */
  lemma FirstRead(xs: seq<Item>, s: seq<byte>, at: nat, now: nat, capacity: nat, r: Outcome)
    requires xs != [] && forall x | x in xs :: Writable(x)
    requires s == Flatten(AllWrites(xs)) && at + |s| <= capacity
    requires Readable(xs[0].ty) && Reads(Parse(xs[0].ty, xs[0].swap, s), at, now, capacity, r)
    ensures r.Value? <==> !(|xs| == 1 && EndsEmpty(xs) && at + |s| == capacity)
    ensures r.Value? ==> r == Value(xs[0].payload)
    ensures r.Value? ==> at <= now <= at + |s| && s[now - at..] == Flatten(AllWrites(xs[1..]))
  {
    MessageBytes(xs);
    LastAtCapacity(xs, at, at + |s|, capacity);
    ItemRoundTrip(xs[0], Flatten(AllWrites(xs[1..])));
  }

  lemma WritableIsReadable(x: Item)
    requires Writable(x)
    ensures Readable(x.ty)
  {
  }

  /** Reading the first item of what may be the message xs. */
  method ReadFirst(a: ByteArray, ty: Type, swap: bool, ghost xs: seq<Item>) returns (r: Outcome)
    requires a.Valid() && xs != [] && ty == xs[0].ty && swap == xs[0].swap && forall x | x in xs :: Writable(x)
    modifies a`position, a`cur
    ensures a.Valid() && a.Contents() == old(a.Contents())
    ensures old(Ahead(a)) == Flatten(AllWrites(xs)) ==>
              && (r.Value? <==> !(|xs| == 1 && EndsEmpty(xs) && a.size == a.capacity))
              && (r.Value? ==> r == Value(xs[0].payload) && Ahead(a) == Flatten(AllWrites(xs[1..])))
  {
    ghost var s, at := Ahead(a), a.position;
    WritableIsReadable(xs[0]);
    r := ReadItem(a, ty, swap);
    if s == Flatten(AllWrites(xs)) {
      FirstRead(xs, s, at, a.position, a.capacity, r);
      assert r.Value? ==> Ahead(a) == s[a.position - at..];
    }
  }

  /**
    Reading a list of types; None when a reader throws or faults. If the bytes of xs are ahead, their
    values come back and nothing is left, unless the last read is of zero bytes at the end of the chain.
   */
  method ReadAll(a: ByteArray, kinds: seq<(Type, bool)>, ghost xs: seq<Item>) returns (r: Option<seq<Payload>>)
    requires a.Valid() && kinds == Kinds(xs) && forall x | x in xs :: Writable(x)
    modifies a`position, a`cur
    ensures a.Valid() && a.Contents() == old(a.Contents())
    ensures old(Ahead(a)) == Flatten(AllWrites(xs)) ==>
              && r == (if EndsEmpty(xs) && a.size == a.capacity then None else Some(Payloads(xs)))
              && (r.Some? ==> a.position == a.size)
    decreases |kinds|
  {
    if kinds == [] {
      return Some([]);
    }
    var v := ReadFirst(a, kinds[0].0, kinds[0].1, xs);
    if !v.Value? {
      return None;
    }
    var vs := ReadAll(a, kinds[1..], xs[1..]);
    r := if vs == None then None else Some([v.payload] + vs.value);
  }

  lemma FullNodes(size: nat, n: nat, b: nat)
    requires b > 0 && size <= Span(n, b) && (if size == 0 then Span(n, b) == b else Span(n, b) < size + b)
    ensures size == Span(n, b) <==> size > 0 && size % b == 0
  {
    PositionArithmetic(size, b);
    PositionIs(size, b);
    Placed(size, n, b);
    if size < Span(n, b) {
      SpanMono(NodeOf(size, b), n, b);
    }
  }

  lemma FreshMessage(cs: seq<seq<byte>>, now: seq<byte>, b: nat, adv: Advance)
    requires b > 0 && Appended([], now, cs, b, adv)
    ensures |now| >= |Flatten(cs)| && (|now| == |Flatten(cs)| <==> Exact(cs, 0, b, adv))
    ensures Exact(cs, 0, b, adv) ==> now == Flatten(cs)
  {
    EndOfExact(cs, 0, b, adv);
    assert [] + Flatten(cs) == Flatten(cs);
  }

  /**
    The typed message round trip: write a message to a new array, set the position to zero, and read the
    same types. size is what the array then holds, used what was read. The message comes back, byte for
    byte and with nothing left, if and only if every write lands exactly and the last read is not one of
    zero bytes at the end of the chain.
   */
  method RoundTrip(base: nat, xs: seq<Item>, adv: Advance) returns (r: Option<seq<Payload>>, size: nat, used: nat)
    requires base > 0 && forall x | x in xs :: Writable(x)
    ensures size >= |Flatten(AllWrites(xs))|
    ensures size == |Flatten(AllWrites(xs))| <==> Exact(AllWrites(xs), 0, base, adv)
    ensures (r == Some(Payloads(xs)) && used == size == |Flatten(AllWrites(xs))|) <==>
            Exact(AllWrites(xs), 0, base, adv) && !(EndsEmpty(xs) && |Flatten(AllWrites(xs))| % base == 0)
    ensures Exact(AllWrites(xs), 0, base, adv) && EndsEmpty(xs) && |Flatten(AllWrites(xs))| % base == 0 ==> r == None
  {
    var a := new ByteArray(base);
    assert a.Contents() == [];
    WriteAll(a, xs, adv);
    FreshMessage(AllWrites(xs), a.Contents(), base, adv);
    FullNodes(a.size, |a.nodes|, base);
    if xs != [] {
      MessageBytes(xs);
    }
    var ok := a.SetPosition(0);
    assert Ahead(a) == a.Contents();
    r := ReadAll(a, Kinds(xs), xs);
    size, used := a.size, a.position;
  }

  // ---------------------------------------------------------------------------
  // After a write that does not land exactly
  // ---------------------------------------------------------------------------

  /** The digit d at place m, the last that a w-bit varint is read at, is shifted out of the w bits. */
  predicate ShiftedOut(d: nat, m: nat, w: nat) {
    0 < d < 128 && MaxBytes(w) == m + 1 && d * Pow2(7 * m) == Pow2(w)
  }

  /**
    n digits d with more to come and a last one; the number they stand for; the decoding loop's value after j
    of them.
   */
  function Repeated(d: nat, n: nat): seq<byte>
    requires d < 128
  {
    if n == 0 then [d] else [d + 128] + Repeated(d, n - 1)
  }

  function RepeatedSum(d: nat, j: nat): nat {
    if j == 0 then 0 else RepeatedSum(d, j - 1) + d * Pow2(7 * (j - 1))
  }

  lemma {:induction false} RepeatedSumBound(d: nat, j: nat)
    requires d < 128
    ensures RepeatedSum(d, j) < Pow2(7 * j)
  {
    if j > 0 {
      RepeatedSumBound(d, j - 1);
      AccGrows(RepeatedSum(d, j - 1), d, j - 1);
    }
  }

  /** The sum, taken from its other end. */
  lemma {:induction false} RepeatedSumFront(d: nat, j: nat)
    ensures RepeatedSum(d, j + 1) == d + 128 * RepeatedSum(d, j)
  {
    assert Pow2(7 * 0) == 1;
    if j > 0 {
      RepeatedSumFront(d, j - 1);
      Pow2Add(7, 7 * (j - 1));
      assert Pow2(7) == 128;
      Regroup(d, Pow2(7 * (j - 1)));
    }
  }

  lemma Regroup(d: nat, p: nat)
    ensures d * (128 * p) == 128 * (d * p)
  {
  }

  lemma {:induction false} RepeatedBytes(d: nat, n: nat)
    requires 0 < d < 128
    ensures VarintBytes(RepeatedSum(d, n + 1)) == Repeated(d, n) && |Repeated(d, n)| == n + 1
    ensures RepeatedSum(d, n + 1) > 0
  {
    RepeatedSumFront(d, n);
    if n > 0 {
      RepeatedBytes(d, n - 1);
      FrontDigit(d, RepeatedSum(d, n));
    }
  }

  lemma FrontDigit(d: nat, v: nat)
    requires d < 128 && v > 0
    ensures VarintBytes(d + 128 * v) == [d + 128] + VarintBytes(v)
  {
    assert (d + 128 * v) % 128 == d && (d + 128 * v) / 128 == v;
  }

  /** One more digit is read at each place but the last. */
  lemma RepeatedTurn(d: nat, m: nat, w: nat, j: nat, acc: nat, s: seq<byte>)
    requires ShiftedOut(d, m, w) && j < m && acc < Pow2(7 * j)
    ensures ReadVarint([d + 128] + s, w, j, acc) == After(ReadVarint(s, w, j + 1, acc + d * Pow2(7 * j)), 1)
  {
    Pow2Add(7 * (m - j), 7 * j);
    Pow2Mono(7, 7 * (m - j));
    assert Pow2(7) == 128;
    Larger(d, Pow2(7 * j), Pow2(7 * (m - j)));
    DigitIn(acc, d, w, j);
    MoreTurn([d + 128] + s, d, w, j, acc);
    assert ([d + 128] + s)[1..] == s;
  }

  lemma Larger(d: nat, p: nat, q: nat)
    requires d > 0 && p > 0 && q > 1
    ensures d * p < d * (q * p)
  {
    ShiftDown(q, 2, p);
    assert d * (2 * p) == d * p + d * p && d * p > 0;
    ShiftDown(q * p, 2 * p, d);
  }

  lemma RepeatedLast(d: nat, m: nat, w: nat, acc: nat)
    requires ShiftedOut(d, m, w) && acc < Pow2(7 * m)
    ensures ReadVarint([d], w, m, acc) == Some((acc, 1))
  {
    LastTurn([d], w, m, acc);
    SelfMod(Pow2(w));
    OrNothing(acc, 7 * m);
  }

  lemma SelfMod(m: nat)
    requires m > 0
    ensures m % m == 0
  {
  }

  lemma OrNothing(x: nat, i: nat)
    requires x < Pow2(i)
    ensures BitOr(x, 0) == x
  {
    OrDisjoint(x, 0, i);
  }

  /** With m + 1 such digits, the value is that of m: the last is shifted out. */
  lemma {:induction false} RepeatedRead(d: nat, m: nat, w: nat, n: nat, j: nat)
    requires ShiftedOut(d, m, w) && n + j == m
    ensures ReadVarint(Repeated(d, n), w, j, RepeatedSum(d, j)) == Some((RepeatedSum(d, m), n + 1))
    decreases n
  {
    RepeatedSumBound(d, j);
    if n == 0 {
      RepeatedLast(d, m, w, RepeatedSum(d, j));
    } else {
      RepeatedRead(d, m, w, n - 1, j + 1);
      RepeatedTurn(d, m, w, j, RepeatedSum(d, j), Repeated(d, n - 1));
    }
  }

  /**
    A byte x, and then the varint of 32 bits (w) whose four digits are all 16, on nodes of two bytes and with
    the advance by room: the first write does not land exactly, and leaves a pad byte. If its uninitialised
    content is 0x90, the varint read from there on has five digits and the same value, for the fifth is
    shifted out; and nothing is left. So both values come back, and the equivalence of RoundTrip cannot do
    without counting the bytes.
   */
  lemma PadCanDecode(x: byte, w: nat, four: nat)
    requires w == 32 && four == 4
    ensures var n := RepeatedSum(16, four); var v := VarintBytes(n);
            && n < Pow2(w) && v == Repeated(16, four - 1)
            && !Exact([[x], v], 0, 2, ByRoom) && EndOf([[x], v], 0, 2, ByRoom) == |[x, 0x90] + v|
            && ReadVarint([0x90] + v, w, 0, 0) == Some((n, |[0x90] + v|))
  {
    SixteensShiftOut(w);
    RepeatedBytes(16, four - 1);
    RepeatedRead(16, four, w, four, 0);
    assert Repeated(16, four) == [0x90] + Repeated(16, four - 1);
    RepeatedSumBound(16, four);
    Pow2Mono(7 * four, w);
    PadWrites(x, VarintBytes(RepeatedSum(16, four)));
  }

  lemma PadWrites(x: byte, t: seq<byte>)
    requires t != [] && |t| % 2 == 0
    ensures !Exact([[x], t], 0, 2, ByRoom) && EndOf([[x], t], 0, 2, ByRoom) == 2 + |t|
  {
    var cs := [[x], t];
    assert cs[1..] == [t] && [t][1..] == [];
    assert Landing(1, 2, ByRoom) == 2;
    LandingExact(2 + |t|, 2, ByRoom);
    assert EndOf([t], 2, 2, ByRoom) == EndOf([], Landing(2 + |t|, 2, ByRoom), 2, ByRoom);
    assert EndOf(cs, 0, 2, ByRoom) == EndOf([t], Landing(0 + |cs[0]|, 2, ByRoom), 2, ByRoom);
  }

  /** Such a varint: the four digits 16 of 32 bits. */
  lemma SixteensShiftOut(w: nat)
    requires w == 32
    ensures ShiftedOut(16, 4, w)
  {
    Pow2Add(4, 28);
    assert Pow2(4) == 16;
  }
}
