/**
  The codecs on top of ByteArray: fixed-width integers with an optional byte swap, base-128 varints,
  zigzag, and length-prefixed strings. Unsigned machine arithmetic is written out modulo 2^w, and the
  bit operators are defined on naturals bit by bit.
 */
module Codec {
  import opened Common
  import opened Blocks

  function Pow2(n: nat): (r: nat)
    ensures r > 0
  {
    if n == 0 then 1 else 2 * Pow2(n - 1)
  }

  lemma {:induction false} Pow2Add(m: nat, n: nat)
    ensures Pow2(m + n) == Pow2(m) * Pow2(n)
  {
    if m > 0 {
      Pow2Add(m - 1, n);
      assert Pow2(m + n) == 2 * Pow2(m - 1 + n);
    }
  }

  // ---------------------------------------------------------------------------
  // Bit operators
  // ---------------------------------------------------------------------------

  function BitOr(x: nat, y: nat): nat {
    if x == 0 && y == 0 then 0 else (if x % 2 == 1 || y % 2 == 1 then 1 else 0) + 2 * BitOr(x / 2, y / 2)
  }

  function BitXor(x: nat, y: nat): nat {
    if x == 0 && y == 0 then 0 else (if x % 2 != y % 2 then 1 else 0) + 2 * BitXor(x / 2, y / 2)
  }

  /** Or-ing numbers without common bits is adding them. */
  lemma {:induction false} OrDisjoint(x: nat, y: nat, i: nat)
    requires x < Pow2(i)
    ensures BitOr(x, y * Pow2(i)) == x + y * Pow2(i)
  {
    if i == 0 {
      OrZero(y);
    } else {
      var z := y * Pow2(i - 1);
      assert y * Pow2(i) == 2 * z;
      OrDisjoint(x / 2, y, i - 1);
    }
  }

  lemma {:induction false} OrZero(y: nat)
    ensures BitOr(0, y) == y
  {
    if y > 0 {
      OrZero(y / 2);
    }
  }

  lemma {:induction false} XorZero(x: nat)
    ensures BitXor(x, 0) == x
  {
    if x > 0 {
      XorZero(x / 2);
    }
  }

  /** Xor-ing with all ones is complementing. */
  lemma {:induction false} XorOnes(x: nat, w: nat)
    requires x < Pow2(w)
    ensures BitXor(x, Pow2(w) - 1) == Pow2(w) - 1 - x
  {
    if w > 0 {
      XorOnes(x / 2, w - 1);
      assert (Pow2(w) - 1) / 2 == Pow2(w - 1) - 1 && (Pow2(w) - 1) % 2 == 1;
    }
  }

  // ---------------------------------------------------------------------------
  // Zigzag
  // ---------------------------------------------------------------------------

  /** The w-bit signed integers. */
  predicate Signed(n: int, w: nat)
    requires w > 0
  {
    0 - Pow2(w - 1) <= n < Pow2(w - 1)
  }

  /** Conversion of a w-bit signed integer to unsigned, and back. */
  function Unsign(n: int, w: nat): nat { n % Pow2(w) }

  function Sign(u: nat, w: nat): int
    requires w > 0
  {
    if u >= Pow2(w - 1) then u - Pow2(w) else u
  }

  /** EncodeZigzag32 and EncodeZigzag64: the negation and the doublings wrap around. */
  function EncodeZigzag(v: int, w: nat): nat { ZigzagMod(v, Pow2(w)) }

  function ZigzagMod(v: int, m: nat): nat
    requires m > 0
  {
    if v < 0 then ((-v) % m * 2 - 1) % m else (v * 2) % m
  }

  /** DecodeZigzag32 and DecodeZigzag64: (v >> 1) ^ -(v & 1), read as signed. */
  function DecodeZigzag(v: nat, w: nat): int
    requires w > 0
  {
    Sign(BitXor(v / 2, if v % 2 == 1 then Pow2(w) - 1 else 0), w)
  }

  lemma SmallMod(x: nat, m: nat)
    requires x < m
    ensures x % m == x
  {
  }

  /** Zigzag as the Protocol Buffers encoding defines it: 0, -1, 1, -2, ... become 0, 1, 2, 3, ... */
  function ProtoZigzag(v: int): nat { if v >= 0 then 2 * v else -2 * v - 1 }

  /** The code computes it, also for the most negative value, whose negation wraps. */
  lemma ZigzagSpec(v: int, w: nat)
    requires w > 0 && Signed(v, w)
    ensures EncodeZigzag(v, w) == ProtoZigzag(v) < Pow2(w)
  {
    ZigzagModIs(v, Pow2(w));
  }

  lemma ZigzagModIs(v: int, m: nat)
    requires 0 < m && 0 - m <= 2 * v < m
    ensures ZigzagMod(v, m) == ProtoZigzag(v) < m
  {
    if v < 0 { NegateMod(-v, m); } else { DoubleMod(v, m); }
  }

  lemma DoubleMod(n: nat, m: nat)
    requires 2 * n < m
    ensures (n * 2) % m == 2 * n
  {
    SmallMod(2 * n, m);
  }

  lemma NegateMod(n: nat, m: nat)
    requires 0 < n && 2 * n <= m
    ensures (n % m * 2 - 1) % m == 2 * n - 1
  {
    SmallMod(n, m);
    SmallMod(2 * n - 1, m);
  }

  lemma DecodeEven(h: nat, w: nat)
    requires w > 0 && h < Pow2(w - 1)
    ensures DecodeZigzag(2 * h, w) == h
  {
    XorZero(h);
  }

  lemma DecodeOdd(h: nat, w: nat)
    requires w > 0 && h < Pow2(w - 1)
    ensures DecodeZigzag(2 * h + 1, w) == -1 - h
  {
    XorOnes(h, w);
    assert (2 * h + 1) / 2 == h;
  }

  lemma DecodeProto(v: int, w: nat)
    requires w > 0 && Signed(v, w)
    ensures DecodeZigzag(ProtoZigzag(v), w) == v
  {
    if v >= 0 { DecodeEven(v, w); } else { DecodeOdd(-v - 1, w); }
  }

  /** Decoding undoes encoding. */
  lemma ZigzagRoundTrip(v: int, w: nat)
    requires w > 0 && Signed(v, w)
    ensures DecodeZigzag(EncodeZigzag(v, w), w) == v
  {
    ZigzagSpec(v, w);
    DecodeProto(v, w);
  }

  lemma ProtoOnto(u: nat, w: nat)
    requires w > 0 && u < Pow2(w)
    ensures Signed(DecodeZigzag(u, w), w) && ProtoZigzag(DecodeZigzag(u, w)) == u
  {
    var h := Half(u, Pow2(w - 1));
    if u == 2 * h { ProtoOntoEven(h, w); } else { ProtoOntoOdd(h, w); }
  }

  lemma Half(u: nat, m: nat) returns (h: nat)
    requires u < 2 * m
    ensures h < m && (u == 2 * h || u == 2 * h + 1)
  {
    h := u / 2;
  }

  lemma ProtoOntoEven(h: nat, w: nat)
    requires w > 0 && h < Pow2(w - 1)
    ensures Signed(DecodeZigzag(2 * h, w), w) && ProtoZigzag(DecodeZigzag(2 * h, w)) == 2 * h
  {
    DecodeEven(h, w);
  }

  lemma ProtoOntoOdd(h: nat, w: nat)
    requires w > 0 && h < Pow2(w - 1)
    ensures Signed(DecodeZigzag(2 * h + 1, w), w) && ProtoZigzag(DecodeZigzag(2 * h + 1, w)) == 2 * h + 1
  {
    DecodeOdd(h, w);
  }

  /** Encoding undoes decoding, so zigzag is a bijection of the w-bit numbers. */
  lemma ZigzagOnto(u: nat, w: nat)
    requires w > 0 && u < Pow2(w)
    ensures Signed(DecodeZigzag(u, w), w) && EncodeZigzag(DecodeZigzag(u, w), w) == u
  {
    ProtoOnto(u, w);
    ZigzagSpec(DecodeZigzag(u, w), w);
  }

  // ---------------------------------------------------------------------------
  // Varints
  // ---------------------------------------------------------------------------

  /** Base-128 digits, least significant first, all but the last with the high bit set. */
  function VarintBytes(v: nat): (s: seq<byte>)
    ensures |s| > 0
  {
    if v < 128 then [v] else [v % 128 + 128] + VarintBytes(v / 128)
  }

  /** The number of bytes readUint32 (w == 32) and readUint64 (w == 64) take at most. */
  function MaxBytes(w: nat): nat { (w + 6) / 7 }

  /**
    The decoding loop from its j-th turn on: digit j is shifted left by 7 * j and or-ed in, in w-bit
    arithmetic. None when the bytes run out; otherwise the value and the number of bytes used.
   */
  function ReadVarint(s: seq<byte>, w: nat, j: nat, acc: nat): Option<(nat, nat)>
    decreases MaxBytes(w) - j
  {
    if j >= MaxBytes(w) then Some((acc, 0))
    else if s == [] then None
    else
      var acc' := BitOr(acc, (s[0] % 128) * Pow2(7 * j) % Pow2(w));
      if s[0] < 128 then Some((acc', 1))
      else match ReadVarint(s[1..], w, j + 1, acc')
           case None => None
           case Some((v, n)) => Some((v, n + 1))
  }

  /** tmp[5] and tmp[10] are long enough. */
  lemma {:induction false} VarintFits(v: nat, w: nat, j: nat)
    requires v * Pow2(7 * j) < Pow2(w) && j < MaxBytes(w)
    ensures j + |VarintBytes(v)| <= MaxBytes(w)
    decreases v
  {
    if v >= 128 {
      SplitDigit(v, v / 128, v % 128, j, w);
      MoreDigits(v / 128, w, j);
      VarintFits(v / 128, w, j + 1);
    }
  }

  /** A digit left to write means that a byte is left to write it to. */
  lemma MoreDigits(d: nat, w: nat, j: nat)
    requires d > 0 && d * Pow2(7 * (j + 1)) < Pow2(w)
    ensures j + 1 < MaxBytes(w)
  {
    ProductGap(d, Pow2(7 * (j + 1)));
    if w <= 7 * (j + 1) {
      Pow2Mono(w, 7 * (j + 1));
    }
  }

  lemma ShiftDown(v: nat, d: nat, p: nat)
    requires d <= v
    ensures d * p <= v * p
  {
  }

  lemma {:induction false} Pow2Mono(m: nat, n: nat)
    requires m <= n
    ensures Pow2(m) <= Pow2(n)
  {
    if m < n {
      Pow2Mono(m, n - 1);
    }
  }

  /** One turn of the decoding loop, on a digit that lies wholly below 2^w. */
  lemma DigitIn(acc: nat, d: nat, w: nat, j: nat)
    requires acc < Pow2(7 * j) && d * Pow2(7 * j) < Pow2(w)
    ensures BitOr(acc, d * Pow2(7 * j) % Pow2(w)) == acc + d * Pow2(7 * j)
  {
    SmallMod(d * Pow2(7 * j), Pow2(w));
    OrDisjoint(acc, d, 7 * j);
  }

  /** Decoding undoes encoding, wherever in the loop it starts and whatever bytes follow. */
  lemma {:induction false} VarintRoundTrip(v: nat, w: nat, j: nat, acc: nat, rest: seq<byte>)
    requires acc < Pow2(7 * j) && v * Pow2(7 * j) < Pow2(w) && j < MaxBytes(w)
    ensures ReadVarint(VarintBytes(v) + rest, w, j, acc) == Some((acc + v * Pow2(7 * j), |VarintBytes(v)|))
    decreases v
  {
    if v < 128 {
      VarintLast(v, w, j, acc, rest);
    } else {
      var d, r := v / 128, v % 128;
      SplitDigit(v, d, r, j, w);
      AccGrows(acc, r, j);
      VarintFits(v, w, j);
      VarintRoundTrip(d, w, j + 1, acc + r * Pow2(7 * j), rest);
      VarintMore(v, d, r, w, j, acc, rest);
    }
  }

  lemma VarintLast(v: nat, w: nat, j: nat, acc: nat, rest: seq<byte>)
    requires v < 128 && acc < Pow2(7 * j) && v * Pow2(7 * j) < Pow2(w) && j < MaxBytes(w)
    ensures ReadVarint(VarintBytes(v) + rest, w, j, acc) == Some((acc + v * Pow2(7 * j), |VarintBytes(v)|))
  {
    LastTurn(VarintBytes(v) + rest, w, j, acc);
    DigitIn(acc, v, w, j);
  }

  lemma VarintMore(v: nat, d: nat, r: nat, w: nat, j: nat, acc: nat, rest: seq<byte>)
    requires v >= 128 && d == v / 128 && r == v % 128 && acc < Pow2(7 * j) && r * Pow2(7 * j) < Pow2(w)
        && j < MaxBytes(w)
    requires d * Pow2(7 * (j + 1)) + r * Pow2(7 * j) == v * Pow2(7 * j)
    requires ReadVarint(VarintBytes(d) + rest, w, j + 1, acc + r * Pow2(7 * j))
          == Some((acc + r * Pow2(7 * j) + d * Pow2(7 * (j + 1)), |VarintBytes(d)|))
    ensures ReadVarint(VarintBytes(v) + rest, w, j, acc) == Some((acc + v * Pow2(7 * j), |VarintBytes(v)|))
  {
    var s := VarintBytes(v) + rest;
    assert s[0] == r + 128 && s[1..] == VarintBytes(d) + rest;
    MoreTurn(s, r, w, j, acc);
    DigitIn(acc, r, w, j);
  }

  /** A decoding result reached after k more bytes. */
  function After(r: Option<(nat, nat)>, k: nat): Option<(nat, nat)> {
    if r.Some? then Some((r.value.0, r.value.1 + k)) else None
  }

  /** One turn of the decoding loop, on a last digit and on one with more to come. */
  lemma LastTurn(s: seq<byte>, w: nat, j: nat, acc: nat)
    requires j < MaxBytes(w) && s != [] && s[0] < 128
    ensures ReadVarint(s, w, j, acc) == Some((BitOr(acc, s[0] * Pow2(7 * j) % Pow2(w)), 1))
  {
    SmallMod(s[0], 128);
  }

  lemma MoreTurn(s: seq<byte>, r: nat, w: nat, j: nat, acc: nat)
    requires j < MaxBytes(w) && s != [] && s[0] == r + 128
    ensures ReadVarint(s, w, j, acc) == After(ReadVarint(s[1..], w, j + 1, BitOr(acc, r * Pow2(7 * j) % Pow2(w))), 1)
  {
    assert s[0] % 128 == r;
  }

  lemma SplitDigit(v: nat, d: nat, r: nat, j: nat, w: nat)
    requires v == 128 * d + r && v * Pow2(7 * j) < Pow2(w)
    ensures Pow2(7 * (j + 1)) == 128 * Pow2(7 * j)
    ensures d * Pow2(7 * (j + 1)) + r * Pow2(7 * j) == v * Pow2(7 * j)
    ensures r * Pow2(7 * j) < Pow2(w) && d * Pow2(7 * (j + 1)) < Pow2(w)
  {
    Pow2Add(7, 7 * j);
    assert Pow2(7) == 128;
    Distribute(d, r, Pow2(7 * j));
  }

  lemma Distribute(d: nat, r: nat, p: nat)
    ensures (128 * d + r) * p == d * (128 * p) + r * p
    ensures d * (128 * p) >= 0 && r * p >= 0
  {
  }

  lemma AccGrows(acc: nat, r: nat, j: nat)
    requires acc < Pow2(7 * j) && r < 128
    ensures acc + r * Pow2(7 * j) < Pow2(7 * (j + 1))
  {
    Pow2Add(7, 7 * j);
    assert Pow2(7) == 128;
    var p := Pow2(7 * j);
    ShiftDown(127, r, p);
  }

  // ---------------------------------------------------------------------------
  // Varints that no writer made
  // ---------------------------------------------------------------------------

  /** The number that the low seven bits of the bytes stand for. */
  function Digits7(s: seq<byte>): nat { if s == [] then 0 else s[0] % 128 + 128 * Digits7(s[1..]) }

  /** The loop stops behind the first n bytes: at one without the high bit, or because it takes no more. */
  predicate StopsAt(s: seq<byte>, n: nat, most: nat) {
    && 0 < n <= |s| && n <= most
    && AllMarked(s[..n - 1])
    && (n == most || s[n - 1] < 128)
  }

  predicate AllMarked(s: seq<byte>) { forall i | 0 <= i < |s| :: s[i] >= 128 }

  /** What the loop gives from its j-th turn on, with acc read before. */
  predicate ReadFits(s: seq<byte>, w: nat, j: nat, acc: nat, r: Option<(nat, nat)>)
    requires j <= MaxBytes(w)
  {
    if r == None then |s| < MaxBytes(w) - j && AllMarked(s)
    else
      && StopsAt(s, r.value.1, MaxBytes(w) - j)
      && r.value.0 == (acc + Digits7(s[..r.value.1]) * Pow2(7 * j)) % Pow2(w)
  }

  /**
    readUint32 and readUint64 on any bytes. They take bytes up to the first without the high bit, but no more
    than five or ten, run out only if there are fewer, and give the number of the low seven bits modulo 2^w.
   */
  lemma ReadVarintValue(s: seq<byte>, w: nat)
    requires w > 0
    ensures ReadFits(s, w, 0, 0, ReadVarint(s, w, 0, 0))
    ensures var r := ReadVarint(s, w, 0, 0); r.Some? ==> r.value.0 == Digits7(s[..r.value.1]) % Pow2(w)
  {
    assert Pow2(7 * 0) == 1;
    ReadFrom(s, w, 0, 0);
  }

  lemma FiveAndTen()
    ensures MaxBytes(32) == 5 && MaxBytes(64) == 10
  {
  }

  lemma {:induction false} ReadFrom(s: seq<byte>, w: nat, j: nat, acc: nat)
    requires w > 0 && j < MaxBytes(w) && acc < Pow2(7 * j)
    ensures ReadFits(s, w, j, acc, ReadVarint(s, w, j, acc))
    decreases |s|
  {
    if s != [] {
      var d := s[0] % 128;
      var acc' := BitOr(acc, d * Pow2(7 * j) % Pow2(w));
      AnyDigit(acc, d, w, j);
      if s[0] < 128 || j + 1 == MaxBytes(w) {
        LastRead(s, w, j, acc);
      } else {
        InnerDigit(acc, d, w, j);
        ReadFrom(s[1..], w, j + 1, acc');
        FitsMore(s, w, j, acc, acc', ReadVarint(s[1..], w, j + 1, acc'));
      }
    }
  }

  /** The loop stops at its first byte. */
  lemma LastRead(s: seq<byte>, w: nat, j: nat, acc: nat)
    requires w > 0 && j < MaxBytes(w) && s != [] && (s[0] < 128 || j + 1 == MaxBytes(w))
    ensures ReadFits(s, w, j, acc, Some(((acc + s[0] % 128 * Pow2(7 * j)) % Pow2(w), 1)))
  {
    assert s[..1] == [s[0]] && [s[0]][1..] == [];
    assert Digits7(s[..1]) == s[0] % 128;
  }

  /** It goes on, with acc' in hand. */
  lemma FitsMore(s: seq<byte>, w: nat, j: nat, acc: nat, acc': nat, r: Option<(nat, nat)>)
    requires j + 1 < MaxBytes(w) && s != [] && s[0] >= 128 && acc' == acc + s[0] % 128 * Pow2(7 * j)
    requires ReadFits(s[1..], w, j + 1, acc', r)
    ensures ReadFits(s, w, j, acc, After(r, 1))
  {
    if r.Some? {
      var n := r.value.1;
      MoreRead(s, w, j, acc, acc', n);
      assert s[..n] == [s[0]] + s[1..][..n - 1];
    } else {
      assert s == [s[0]] + s[1..];
    }
  }

  /** One digit, whether or not it fits. */
  lemma AnyDigit(acc: nat, d: nat, w: nat, j: nat)
    requires w > 0 && j < MaxBytes(w) && acc < Pow2(7 * j)
    ensures BitOr(acc, d * Pow2(7 * j) % Pow2(w)) == (acc + d * Pow2(7 * j)) % Pow2(w)
  {
    var e := w - 7 * j;
    Pow2Add(e, 7 * j);
    CutDigit(acc, d, Pow2(7 * j), Pow2(e), Pow2(w));
    OrDisjoint(acc, d % Pow2(e), 7 * j);
  }

  lemma CutDigit(acc: nat, d: nat, p: nat, q: nat, m: nat)
    requires p > 0 && q > 0 && m == q * p && acc < p
    ensures d * p % m == d % q * p && (acc + d * p) % m == acc + d % q * p
  {
    var k, r := d / q, d % q;
    CutProduct(k, r, d, p, q, m);
    ShiftDown(q - 1, r, p);
    QuotientUnique(d * p, m, k, r * p);
    QuotientUnique(acc + d * p, m, k, acc + r * p);
  }

  lemma CutProduct(k: nat, r: nat, d: nat, p: nat, q: nat, m: nat)
    requires d == k * q + r && m == q * p
    ensures d * p == k * m + r * p && (q - 1) * p == m - p
  {
    assert (k * q + r) * p == k * (q * p) + r * p;
  }

  /** A digit that is not at the last place fits. */
  lemma InnerDigit(acc: nat, d: nat, w: nat, j: nat)
    requires w > 0 && j + 1 < MaxBytes(w) && acc < Pow2(7 * j) && d < 128
    ensures acc + d * Pow2(7 * j) < Pow2(7 * (j + 1)) <= Pow2(w)
    ensures (acc + d * Pow2(7 * j)) % Pow2(w) == acc + d * Pow2(7 * j)
  {
    AccGrows(acc, d, j);
    Pow2Mono(7 * (j + 1), w);
    SmallMod(acc + d * Pow2(7 * j), Pow2(w));
  }

  lemma MoreRead(s: seq<byte>, w: nat, j: nat, acc: nat, acc': nat, n: nat)
    requires s != [] && n <= |s[1..]| && acc' == acc + s[0] % 128 * Pow2(7 * j)
    ensures acc' + Digits7(s[1..][..n]) * Pow2(7 * (j + 1)) == acc + Digits7(s[..n + 1]) * Pow2(7 * j)
  {
    MoreDigits7(s, n);
    MoreSum(acc, s[0] % 128, Digits7(s[1..][..n]), Digits7(s[..n + 1]), j);
  }

  lemma MoreDigits7(s: seq<byte>, n: nat)
    requires s != [] && n <= |s[1..]|
    ensures Digits7(s[..n + 1]) == s[0] % 128 + 128 * Digits7(s[1..][..n])
  {
    assert s[..n + 1][1..] == s[1..][..n];
  }

  lemma MoreSum(acc: nat, d: nat, x: nat, y: nat, j: nat)
    requires y == d + 128 * x
    ensures acc + d * Pow2(7 * j) + x * Pow2(7 * (j + 1)) == acc + y * Pow2(7 * j)
  {
    Pow2Add(7, 7 * j);
    assert Pow2(7) == 128;
    Distribute(x, d, Pow2(7 * j));
  }
}
