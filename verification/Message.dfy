/**
  Typed messages: the list of write() calls that each typed writer of ByteArray makes, and the typed
  readers as functions of the bytes still to be read.
 */
module Message {
  import opened Common
  import opened Blocks
  import opened Codec

  // ---------------------------------------------------------------------------
  // Fixed-width integers
  // ---------------------------------------------------------------------------

  /** n as w bytes in memory, least significant first. */
  function ToBytes(n: nat, w: nat): (s: seq<byte>)
    ensures |s| == w
  {
    if w == 0 then [] else [n % 256] + ToBytes(n / 256, w - 1)
  }

  function FromBytes(s: seq<byte>): nat { if s == [] then 0 else s[0] + 256 * FromBytes(s[1..]) }

  function Reverse(s: seq<byte>): (r: seq<byte>)
    ensures |r| == |s|
  {
    if s == [] then [] else Reverse(s[1..]) + [s[0]]
  }

  /** bswap_16, bswap_32 and bswap_64. */
  function ByteSwap(n: nat, w: nat): nat { FromBytes(Reverse(ToBytes(n, w))) }

  lemma {:induction false} FromToBytes(n: nat, w: nat)
    requires n < Pow2(8 * w)
    ensures FromBytes(ToBytes(n, w)) == n
  {
    if w > 0 {
      Pow2Add(8, 8 * (w - 1));
      assert Pow2(8) == 256;
      FromToBytes(n / 256, w - 1);
      assert ToBytes(n, w)[1..] == ToBytes(n / 256, w - 1);
    }
  }

  lemma {:induction false} ToFromBytes(s: seq<byte>)
    ensures ToBytes(FromBytes(s), |s|) == s && FromBytes(s) < Pow2(8 * |s|)
  {
    if s != [] {
      Pow2Add(8, 8 * (|s| - 1));
      assert Pow2(8) == 256;
      ToFromBytes(s[1..]);
      FirstByte(s[0], FromBytes(s[1..]));
    }
  }

  lemma FirstByte(x: byte, n: nat)
    ensures (x + 256 * n) % 256 == x && (x + 256 * n) / 256 == n
  {
  }

  lemma {:induction false} ReverseSnoc(s: seq<byte>, x: byte)
    ensures Reverse(s + [x]) == [x] + Reverse(s)
  {
    if s == [] {
      assert s + [x] == [x];
    } else {
      assert (s + [x])[1..] == s[1..] + [x];
      ReverseSnoc(s[1..], x);
    }
  }

  lemma {:induction false} ReverseTwice(s: seq<byte>)
    ensures Reverse(Reverse(s)) == s
  {
    if s != [] {
      ReverseSnoc(Reverse(s[1..]), s[0]);
      ReverseTwice(s[1..]);
    }
  }

  /** A swapped integer is stored most significant byte first, and swapping twice is the identity. */
  lemma ByteSwapReverses(n: nat, w: nat)
    requires n < Pow2(8 * w)
    ensures ToBytes(ByteSwap(n, w), w) == Reverse(ToBytes(n, w))
    ensures ByteSwap(n, w) < Pow2(8 * w) && ByteSwap(ByteSwap(n, w), w) == n
  {
    ToFromBytes(Reverse(ToBytes(n, w)));
    ReverseTwice(ToBytes(n, w));
    FromToBytes(n, w);
  }

  /** writeFuintN: swapped first if m_endian is not SYLAR_BYTE_ORDER. */
  function StoreFixed(n: nat, w: nat, swap: bool): (s: seq<byte>)
    ensures |s| == w
  {
    ToBytes(if swap then ByteSwap(n, w) else n, w)
  }

  /** readFuintN. */
  function LoadFixed(s: seq<byte>, swap: bool): nat {
    if swap then ByteSwap(FromBytes(s), |s|) else FromBytes(s)
  }

  lemma FixedRoundTrip(n: nat, w: nat, swap: bool)
    requires n < Pow2(8 * w)
    ensures LoadFixed(StoreFixed(n, w, swap), swap) == n
  {
    FromToBytes(n, w);
    if swap {
      ByteSwapReverses(n, w);
      FromToBytes(ByteSwap(n, w), w);
    }
  }

  // ---------------------------------------------------------------------------
  // Typed values
  // ---------------------------------------------------------------------------

  datatype Prefix = F16 | F32 | F64 | Vint

  datatype Type = FixedT(width: nat, signed: bool) | VarintT(bits: nat) | ZigzagT(bits: nat) | StringT(prefix: Prefix)

  datatype Payload = Number(n: int) | Text(s: seq<byte>)

  /** A typed value, and whether m_endian differs from SYLAR_BYTE_ORDER when it is written and read. */
  datatype Item = Item(ty: Type, swap: bool, payload: Payload)

  function PrefixWidth(p: Prefix): nat { match p case F16 => 2 case F32 => 4 case F64 => 8 case Vint => 0 }

  /** The writers that exist, and the values their parameter types hold; strings fit their prefix. */
  predicate Writable(x: Item) {
    match x.ty
    case FixedT(w, signed) =>
      && w in {1, 2, 4, 8} && x.payload.Number?
      && if signed then Signed(x.payload.n, 8 * w) else 0 <= x.payload.n < Pow2(8 * w)
    case VarintT(w) => w in {32, 64} && x.payload.Number? && 0 <= x.payload.n < Pow2(w)
    case ZigzagT(w) => w in {32, 64} && x.payload.Number? && Signed(x.payload.n, w)
    case StringT(p) => x.payload.Text? && |x.payload.s| < if p == Vint then Pow2(64) else Pow2(8 * PrefixWidth(p))
  }

  /** The write() calls of the writer of x. */
  function Writes(x: Item): seq<seq<byte>>
    requires Writable(x)
  {
    match x.ty
    case FixedT(w, signed) => [StoreFixed(Unsign(x.payload.n, 8 * w), w, x.swap)]
    case VarintT(_) => [VarintBytes(x.payload.n)]
    case ZigzagT(w) => [VarintBytes(EncodeZigzag(x.payload.n, w))]
    case StringT(p) =>
      [if p == Vint then VarintBytes(|x.payload.s|) else StoreFixed(|x.payload.s|, PrefixWidth(p), x.swap), x.payload.s]
  }

  function Bytes(x: Item): seq<byte>
    requires Writable(x)
  {
    Flatten(Writes(x))
  }

  /** What a reader makes of the bytes ahead: the value and the bytes used, or not enough of them. */
  datatype Parsed = Got(payload: Payload, used: nat) | Short

  function ParseFixed(w: nat, s: seq<byte>, swap: bool): Option<nat> {
    if |s| < w then None else Some(LoadFixed(s[..w], swap))
  }

  function ParseNumber(ty: Type, swap: bool, s: seq<byte>): Parsed
    requires !ty.StringT? && (ty.FixedT? ==> ty.width > 0) && (!ty.FixedT? ==> ty.bits > 0)
  {
    match ty
    case FixedT(w, signed) =>
      (match ParseFixed(w, s, swap)
       case None => Short
       case Some(u) => Got(Number(if signed then Sign(u, 8 * w) else u), w))
    case VarintT(w) =>
      (match ReadVarint(s, w, 0, 0) case None => Short case Some((v, n)) => Got(Number(v), n))
    case ZigzagT(w) =>
      (match ReadVarint(s, w, 0, 0) case None => Short case Some((v, n)) => Got(Number(DecodeZigzag(v, w)), n))
  }

  function LengthType(p: Prefix): Type { if p == Vint then VarintT(64) else FixedT(PrefixWidth(p), false) }

  predicate Readable(ty: Type) {
    match ty
    case FixedT(w, _) => w > 0
    case VarintT(w) => w > 0
    case ZigzagT(w) => w > 0
    case StringT(_) => true
  }

  /** A string's body, after its length. */
  function ParseBody(len: Parsed, s: seq<byte>): Parsed {
    match len
    case Got(Number(n), k) => if n >= 0 && k + n <= |s| then Got(Text(s[k..k + n]), k + n) else Short
    case _ => Short
  }

  function Parse(ty: Type, swap: bool, s: seq<byte>): Parsed
    requires Readable(ty)
  {
    if ty.StringT? then ParseBody(ParseNumber(LengthType(ty.prefix), swap, s), s) else ParseNumber(ty, swap, s)
  }

  /** The remainder of a small negative number. */
  lemma NegativeMod(n: int, m: nat)
    requires 0 < m && 0 - m <= n < 0
    ensures n % m == n + m
  {
    Products(m, n / m);
  }

  lemma Products(m: nat, q: int)
    ensures q >= 0 ==> m * q >= 0
    ensures q <= -2 ==> m * q <= -2 * m
  {
    if q <= -2 {
      ShiftDown(-q, 2, m);
    }
  }

  /** A signed integer survives the trip through its unsigned image. */
  lemma SignUnsign(n: int, w: nat)
    requires w > 0 && Signed(n, w)
    ensures Unsign(n, w) < Pow2(w) && Sign(Unsign(n, w), w) == n
  {
    var m := Pow2(w);
    assert m == 2 * Pow2(w - 1);
    if n >= 0 {
      SmallMod(n, m);
    } else {
      NegativeMod(n, m);
    }
  }

  lemma FixedItem(x: Item, rest: seq<byte>)
    requires Writable(x) && x.ty.FixedT?
    ensures ParseNumber(x.ty, x.swap, Bytes(x) + rest) == Got(x.payload, |Bytes(x)|)
  {
    var w := x.ty.width;
    var u := Unsign(x.payload.n, 8 * w);
    if x.ty.signed { SignUnsign(x.payload.n, 8 * w); } else { SmallMod(x.payload.n, Pow2(8 * w)); }
    FixedRoundTrip(u, w, x.swap);
    var s := StoreFixed(u, w, x.swap);
    FlattenOne(s);
    assert (s + rest)[..w] == s;
  }

  /** A varint read from the first turn on. */
  lemma VarintWhole(v: nat, w: nat, rest: seq<byte>)
    requires v < Pow2(w) && w > 0
    ensures ReadVarint(VarintBytes(v) + rest, w, 0, 0) == Some((v, |VarintBytes(v)|))
  {
    assert Pow2(0) == 1;
    VarintRoundTrip(v, w, 0, 0, rest);
  }

  lemma FlattenOne(s: seq<byte>)
    ensures Flatten([s]) == s
  {
    assert Flatten([]) == [];
  }

  lemma FlattenTwo(s: seq<byte>, t: seq<byte>)
    ensures Flatten([s, t]) == s + t
  {
    assert [s, t][1..] == [t];
    FlattenOne(t);
  }

  lemma VarintItem(x: Item, rest: seq<byte>)
    requires Writable(x) && (x.ty.VarintT? || x.ty.ZigzagT?)
    ensures ParseNumber(x.ty, x.swap, Bytes(x) + rest) == Got(x.payload, |Bytes(x)|)
  {
    FlattenOne(Writes(x)[0]);
    if x.ty.VarintT? {
      VarintWhole(x.payload.n, x.ty.bits, rest);
    } else {
      ZigzagSpec(x.payload.n, x.ty.bits);
      ZigzagRoundTrip(x.payload.n, x.ty.bits);
      VarintWhole(EncodeZigzag(x.payload.n, x.ty.bits), x.ty.bits, rest);
    }
  }

  /** The length of a string, as the item that its writer writes first. */
  function LengthItem(x: Item): (y: Item)
    requires Writable(x) && x.ty.StringT?
    ensures Writable(y) && y.ty == LengthType(x.ty.prefix) && y.swap == x.swap && y.payload == Number(|x.payload.s|)
    ensures Writes(x) == Writes(y) + [x.payload.s]
  {
    var y := Item(LengthType(x.ty.prefix), x.swap, Number(|x.payload.s|));
    if y.ty.FixedT? then SmallMod(|x.payload.s|, Pow2(8 * PrefixWidth(x.ty.prefix))); y else y
  }

  lemma Middle(a: seq<byte>, b: seq<byte>, c: seq<byte>)
    ensures a + b + c == a + (b + c) && (a + b + c)[|a|..|a| + |b|] == b
  {
  }

  /** The body of a string follows its length. */
  lemma StringBody(p: Prefix, swap: bool, len: seq<byte>, t: seq<byte>, rest: seq<byte>)
    requires ParseNumber(LengthType(p), swap, len + (t + rest)) == Got(Number(|t|), |len|)
    ensures Parse(StringT(p), swap, len + t + rest) == Got(Text(t), |len + t|)
  {
    Middle(len, t, rest);
  }

  lemma StringItem(x: Item, rest: seq<byte>)
    requires Writable(x) && x.ty.StringT?
    ensures Parse(x.ty, x.swap, Bytes(x) + rest) == Got(x.payload, |Bytes(x)|)
  {
    var y, t := LengthItem(x), x.payload.s;
    FlattenTwo(Writes(y)[0], t);
    FlattenOne(Writes(y)[0]);
    if y.ty.FixedT? { FixedItem(y, t + rest); } else { VarintItem(y, t + rest); }
    StringBody(x.ty.prefix, x.swap, Bytes(y), t, rest);
  }

  /** A reader gives back the value its writer wrote, and uses up exactly its bytes. */
  lemma ItemRoundTrip(x: Item, rest: seq<byte>)
    requires Writable(x)
    ensures Readable(x.ty) && Parse(x.ty, x.swap, Bytes(x) + rest) == Got(x.payload, |Bytes(x)|)
  {
    match x.ty
    case FixedT(_, _) => FixedItem(x, rest);
    case StringT(_) => StringItem(x, rest);
    case _ => VarintItem(x, rest);
  }

  // ---------------------------------------------------------------------------
  // The bytes, one by one
  // ---------------------------------------------------------------------------

  lemma DivDiv(n: nat, a: nat, b: nat)
    requires a > 0 && b > 0
    ensures a * b > 0 && n / (a * b) == n / a / b
  {
    var q, r := n / a, n % a;
    var q2, r2 := q / b, q % b;
    Nested(n, a, b, q, r, q2, r2);
    QuotientUnique(n, a * b, q2, a * r2 + r);
  }

  lemma Nested(n: nat, a: nat, b: nat, q: nat, r: nat, q2: nat, r2: nat)
    requires n == a * q + r && r < a && q == b * q2 + r2 && r2 < b
    ensures n == q2 * (a * b) + (a * r2 + r) && a * r2 + r < a * b
  {
    Distribute2(a, b * q2, r2);
    Associate(a, b, q2);
    Distribute2(a, r2, b - r2);
    assert r2 + (b - r2) == b;
    ProductGap(b - r2, a);
  }

  lemma Distribute2(a: nat, x: nat, y: nat)
    ensures a * (x + y) == a * x + a * y
  {
  }

  lemma Associate(a: nat, b: nat, c: nat)
    ensures a * (b * c) == c * (a * b)
  {
  }

  /** Digit i of n, to the base 2^k. */
  function DigitAt(n: nat, k: nat, i: nat): nat { n / Pow2(k * i) % Pow2(k) }

  lemma DigitShift(n: nat, k: nat, i: nat, m: nat)
    requires i > 0 && m == n / Pow2(k)
    ensures DigitAt(m, k, i - 1) == DigitAt(n, k, i)
  {
    ShiftIndex(k, i, k * (i - 1));
    DigitOver(n, m, k, k * (i - 1), k * i);
  }

  lemma ShiftIndex(k: nat, i: nat, e: nat)
    requires i > 0 && e == k * (i - 1)
    ensures k + e == k * i
  {
  }

  lemma DigitOver(n: nat, m: nat, k: nat, e: nat, f: nat)
    requires m == n / Pow2(k) && f == k + e
    ensures m / Pow2(e) == n / Pow2(f)
  {
    Pow2Add(k, e);
    DivDiv(n, Pow2(k), Pow2(e));
  }

  lemma {:induction false} ToBytesAt(n: nat, w: nat, i: nat)
    requires i < w
    ensures ToBytes(n, w)[i] == DigitAt(n, 8, i)
  {
    assert Pow2(8) == 256;
    if i == 0 {
      assert Pow2(8 * 0) == 1;
    } else {
      ToBytesAt(n / 256, w - 1, i - 1);
      DigitShift(n, 8, i, n / 256);
    }
  }

  lemma {:induction false} ReverseAt(s: seq<byte>, i: nat)
    requires i < |s|
    ensures Reverse(s)[i] == s[|s| - 1 - i]
  {
    if i < |s| - 1 {
      ReverseAt(s[1..], i);
    }
  }

  /**
    A fixed-width integer of w bytes in memory: least significant byte first, or last if the array's byte order
    is not the machine's, which is little-endian.
   */
  predicate FixedSpelled(n: nat, w: nat, swap: bool, bs: seq<byte>) {
    |bs| == w && forall i | 0 <= i < w :: bs[i] == DigitAt(n, 8, if swap then w - 1 - i else i)
  }

  lemma StoredAt(n: nat, w: nat, swap: bool)
    requires n < Pow2(8 * w)
    ensures FixedSpelled(n, w, swap, StoreFixed(n, w, swap))
  {
    if swap {
      ByteSwapReverses(n, w);
    }
    forall i | 0 <= i < w ensures StoreFixed(n, w, swap)[i] == DigitAt(n, 8, if swap then w - 1 - i else i) {
      if swap {
        ReverseAt(ToBytes(n, w), i);
        ToBytesAt(n, w, w - 1 - i);
      } else {
        ToBytesAt(n, w, i);
      }
    }
  }

  /** A varint: the digits to the base 128, least significant first, no more than needed, all but the last marked. */
  predicate VarintSpelled(v: nat, bs: seq<byte>) {
    && bs != [] && v < Pow2(7 * |bs|) && (|bs| > 1 ==> Pow2(7 * (|bs| - 1)) <= v)
    && forall i | 0 <= i < |bs| :: bs[i] == DigitAt(v, 7, i) + if i + 1 < |bs| then 128 else 0
  }

  lemma {:induction false} VarintAt(v: nat)
    ensures VarintSpelled(v, VarintBytes(v))
  {
    assert Pow2(7) == 128 && Pow2(7 * 0) == 1;
    if v >= 128 {
      VarintAt(v / 128);
      VarintCons(v, VarintBytes(v / 128));
    }
  }

  lemma VarintCons(v: nat, bs: seq<byte>)
    requires v >= 128 && VarintSpelled(v / 128, bs)
    ensures VarintSpelled(v, [v % 128 + 128] + bs)
  {
    var cs: seq<byte> := [v % 128 + 128] + bs;
    assert Pow2(7) == 128 && Pow2(7 * 0) == 1;
    Pow2Add(7, 7 * |bs|);
    if |bs| > 1 {
      Pow2Add(7, 7 * (|bs| - 1));
    }
    forall i | 0 <= i < |cs| ensures cs[i] == DigitAt(v, 7, i) + if i + 1 < |cs| then 128 else 0 {
      if i > 0 {
        DigitShift(v, 7, i, v / 128);
        assert cs[i] == bs[i - 1];
      }
    }
  }

  /** What the writer of x puts into the array, byte by byte. */
  predicate Spelled(x: Item, bs: seq<byte>)
    requires Writable(x)
  {
    match x.ty
    case FixedT(w, _) => FixedSpelled(x.payload.n % Pow2(8 * w), w, x.swap, bs)
    case VarintT(_) => VarintSpelled(x.payload.n, bs)
    case ZigzagT(_) => VarintSpelled(ProtoZigzag(x.payload.n), bs)
    case StringT(p) =>
      var t := x.payload.s;
      match p
      case F16 => |bs| == 2 + |t| && FixedSpelled(|t|, 2, x.swap, bs[..2]) && bs[2..] == t
      case F32 => |bs| == 4 + |t| && FixedSpelled(|t|, 4, x.swap, bs[..4]) && bs[4..] == t
      case F64 => |bs| == 8 + |t| && FixedSpelled(|t|, 8, x.swap, bs[..8]) && bs[8..] == t
      case Vint => |bs| > |t| && VarintSpelled(|t|, bs[..|bs| - |t|]) && bs[|bs| - |t|..] == t
  }

  lemma BytesSpelled(x: Item)
    requires Writable(x)
    ensures Spelled(x, Bytes(x))
  {
    match x.ty
    case FixedT(w, _) =>
      FlattenOne(Writes(x)[0]);
      UnsignBound(x.payload.n, 8 * w);
      StoredAt(Unsign(x.payload.n, 8 * w), w, x.swap);
    case VarintT(_) =>
      FlattenOne(Writes(x)[0]);
      VarintAt(x.payload.n);
    case ZigzagT(w) =>
      FlattenOne(Writes(x)[0]);
      ZigzagSpec(x.payload.n, w);
      VarintAt(ProtoZigzag(x.payload.n));
    case StringT(p) => StringSpelled(x);
  }

  lemma UnsignBound(n: int, w: nat)
    ensures 0 <= n % Pow2(w) < Pow2(w)
  {
  }

  lemma StringSpelled(x: Item)
    requires Writable(x) && x.ty.StringT?
    ensures Spelled(x, Bytes(x))
  {
    var len, t, w := Writes(x)[0], x.payload.s, PrefixWidth(x.ty.prefix);
    FlattenTwo(len, t);
    assert Bytes(x) == len + t;
    assert (len + t)[..|len|] == len && (len + t)[|len|..] == t;
    if x.ty.prefix == Vint { VarintAt(|t|); } else { StoredAt(|t|, w, x.swap); }
  }
}
