/**
  IPv6Address: prefix arithmetic on the sixteen address bytes, and the text form with its compressed run
  of zero groups.
 */
module IPv6 {
  import opened Common

  // ---------------------------------------------------------------------------
  // Prefix masks
  // ---------------------------------------------------------------------------

  /** An address or a mask, in network byte order. */
  type Addr = a: seq<bv8> | |a| == 16 witness seq(16, _ => 0)

  /** CreateMask<uint8_t>: (1 << (8 - bits)) - 1, cut to eight bits. */
  function CreateMask(bits: nat): bv8
    requires bits < 8
  {
    (((1 as bv16) << (8 - bits)) - 1) as bv8
  }

  /** Bit k of a byte, counted from the most significant. */
  function Bit(b: bv8, k: nat): bool
    requires k < 8
  {
    match k
    case 0 => b & 0x80 != 0
    case 1 => b & 0x40 != 0
    case 2 => b & 0x20 != 0
    case 3 => b & 0x10 != 0
    case 4 => b & 0x08 != 0
    case 5 => b & 0x04 != 0
    case 6 => b & 0x02 != 0
    case 7 => b & 0x01 != 0
  }

  lemma MaskBits(bits: nat, k: nat, b: bv8)
    requires bits < 8 && k < 8
    ensures Bit(!CreateMask(bits), k) == (k < bits)
    ensures Bit(b | CreateMask(bits), k) == (Bit(b, k) || k >= bits)
    ensures Bit(b & CreateMask(bits), k) == (Bit(b, k) && k >= bits)
  {
  }

  lemma ByteZero(b: bv8)
    requires forall k | 0 <= k < 8 :: !Bit(b, k)
    ensures b == 0
  {
    assert !Bit(b, 0) && !Bit(b, 1) && !Bit(b, 2) && !Bit(b, 3) && !Bit(b, 4) && !Bit(b, 5) && !Bit(b, 6) && !Bit(b, 7);
  }

  function One(b: bool): nat { if b then 1 else 0 }

  function PopCount(b: bv8): nat {
    One(Bit(b, 0)) + One(Bit(b, 1)) + One(Bit(b, 2)) + One(Bit(b, 3))
    + One(Bit(b, 4)) + One(Bit(b, 5)) + One(Bit(b, 6)) + One(Bit(b, 7))
  }

  lemma DropLowest(b: bv8)
    requires b != 0
    ensures PopCount(b & (b - 1)) + 1 == PopCount(b)
  {
  }

  /** Bit j of an address, 0 the first of the prefix. */
  predicate AddrBit(a: Addr, j: nat)
    requires j < 128
  {
    Bit(a[j / 8], j % 8)
  }

  /** subnetMask: exactly the first prefix bits are set. */
  method SubnetMask(prefix: nat) returns (m: Addr)
    requires prefix < 128
    ensures m == MaskOf(prefix)
    ensures forall j | 0 <= j < 128 :: AddrBit(m, j) == (j < prefix)
  {
    var k := prefix / 8;
    var b: seq<bv8> := seq(16, _ => 0);
    b := b[k := !CreateMask(prefix % 8)];
    var i := 0;
    while i < k
      invariant 0 <= i <= k && |b| == 16
      invariant forall n | 0 <= n < 16 :: b[n] == if n < i then 0xff else if n == k then !CreateMask(prefix % 8) else 0
    {
      b := b[i := 0xff];
      i := i + 1;
    }
    m := b;
    assert m == MaskOf(prefix);
    MaskOfBits(prefix);
  }

  function MaskOf(prefix: nat): Addr
    requires prefix <= 128
  {
    seq(16, n => if n < prefix / 8 then 0xff else if n == prefix / 8 then !CreateMask(prefix % 8) else 0)
  }

  lemma MaskOfBits(prefix: nat)
    requires prefix <= 128
    ensures forall j | 0 <= j < 128 :: AddrBit(MaskOf(prefix), j) == (j < prefix)
  {
    forall j | 0 <= j < 128
      ensures AddrBit(MaskOf(prefix), j) == (j < prefix)
    {
      MaskBits(prefix % 8, j % 8, 0);
      Ends(j % 8);
    }
  }

  lemma Ends(k: nat)
    requires k < 8
    ensures Bit(0xff, k) && !Bit(0, k)
  {
  }

  /** broadcastAddress: the address on the bits of the prefix, all ones behind it. */
  method BroadcastAddress(a: Addr, prefix: nat) returns (r: Addr)
    requires prefix < 128
    ensures forall j | 0 <= j < 128 :: AddrBit(r, j) == (AddrBit(a, j) || j >= prefix)
  {
    var k := prefix / 8;
    var b: seq<bv8> := a[k := a[k] | CreateMask(prefix % 8)];
    var i := k + 1;
    while i < 16
      invariant k < i <= 16 && |b| == 16
      invariant forall n | 0 <= n < 16 :: b[n] == if n < k then a[n]
          else if n == k then a[k] | CreateMask(prefix % 8) else if n < i then 0xff else a[n]
    {
      b := b[i := 0xff];
      i := i + 1;
    }
    r := b;
    BroadcastBits(a, prefix, r);
  }

  lemma BroadcastBits(a: Addr, prefix: nat, r: Addr)
    requires prefix < 128
    requires forall n | 0 <= n < 16 ::
               r[n] == if n < prefix / 8 then a[n] else if n == prefix / 8 then a[n] | CreateMask(prefix % 8) else 0xff
    ensures forall j | 0 <= j < 128 :: AddrBit(r, j) == (AddrBit(a, j) || j >= prefix)
  {
    forall j | 0 <= j < 128
      ensures AddrBit(r, j) == (AddrBit(a, j) || j >= prefix)
    {
      BroadcastBit(a[j / 8], r[j / 8], j / 8, j % 8, prefix / 8, prefix % 8);
    }
  }

  /** Bit k of byte n, when the prefix ends with bit bits of byte m. */
  lemma BroadcastBit(a: bv8, r: bv8, n: nat, k: nat, m: nat, bits: nat)
    requires k < 8 && bits < 8 && r == if n < m then a else if n == m then a | CreateMask(bits) else 0xff
    ensures Bit(r, k) == (Bit(a, k) || n > m || (n == m && k >= bits))
  {
    MaskBits(bits, k, a);
    Ends(k);
  }

  /**
    networdAddress masks the byte with the host bits: it keeps the address on the prefix and clears the
    rest, as a network address does, if and only if the byte that holds the end of the prefix is zero.
   */
  method NetworkAddress(a: Addr, prefix: nat) returns (r: Addr)
    requires prefix < 128
    ensures forall j | 0 <= j < 128 ::
              AddrBit(r, j) == (AddrBit(a, j) && (if j / 8 == prefix / 8 then j >= prefix else j < prefix))
    ensures (forall j | 0 <= j < 128 :: AddrBit(r, j) == (AddrBit(a, j) && j < prefix)) <==> a[prefix / 8] == 0
  {
    var k, bits := prefix / 8, prefix % 8;
    var b: seq<bv8> := a[k := a[k] & CreateMask(bits)];
    var i := k + 1;
    while i < 16
      invariant k < i <= 16 && |b| == 16
      invariant forall n | 0 <= n < 16 :: b[n] == if n < k then a[n]
          else if n == k then a[k] & CreateMask(bits) else if n < i then 0 else a[n]
    {
      b := b[i := 0];
      i := i + 1;
    }
    r := b;
    NetworkByte(a, prefix, r);
  }

  lemma NetworkByte(a: Addr, prefix: nat, r: Addr)
    requires prefix < 128
    requires forall n | 0 <= n < 16 :: r[n] == if n < prefix / 8 then a[n]
        else if n == prefix / 8 then a[n] & CreateMask(prefix % 8) else 0
    ensures forall j | 0 <= j < 128 ::
              AddrBit(r, j) == (AddrBit(a, j) && (if j / 8 == prefix / 8 then j >= prefix else j < prefix))
    ensures (forall j | 0 <= j < 128 :: AddrBit(r, j) == (AddrBit(a, j) && j < prefix)) <==> a[prefix / 8] == 0
  {
    var k, bits := prefix / 8, prefix % 8;
    forall j | 0 <= j < 128
      ensures AddrBit(r, j) == (AddrBit(a, j) && (if j / 8 == k then j >= prefix else j < prefix))
      ensures a[k] == 0 && j / 8 == k ==> !AddrBit(a, j)
    {
      MaskBits(bits, j % 8, a[k]);
      Ends(j % 8);
    }
    if forall j | 0 <= j < 128 :: AddrBit(r, j) == (AddrBit(a, j) && j < prefix) {
      forall n | 0 <= n < 8
        ensures !Bit(a[k], n)
      {
        var j := 8 * k + n;
        assert j / 8 == k && j % 8 == n && !AddrBit(a, j);
      }
      ByteZero(a[k]);
    }
  }

  /** CountBytes: each turn clears the lowest set bit, so it counts the set bits. */
  method CountBytes(value: bv8) returns (result: nat)
    ensures result == PopCount(value)
  {
    var v := value;
    result := 0;
    while v != 0
      invariant result + PopCount(v) == PopCount(value)
      decreases PopCount(v)
    {
      DropLowest(v);
      v := v & (v - 1);
      result := result + 1;
    }
  }

  function TotalBits(m: seq<bv8>): nat { if m == [] then 0 else PopCount(m[0]) + TotalBits(m[1..]) }

  /** The prefix length GetInterfaceAddresses computes from a netmask. */
  method PrefixLength(m: Addr) returns (n: nat)
    ensures n == TotalBits(m)
    ensures forall p | 0 <= p <= 128 && m == MaskOf(p) :: n == p
  {
    n := 0;
    var i := 0;
    while i < 16
      invariant 0 <= i <= 16 && n + TotalBits(m[i..]) == TotalBits(m)
    {
      var c := CountBytes(m[i]);
      n := n + c;
      i := i + 1;
    }
    forall p | 0 <= p <= 128 && m == MaskOf(p)
      ensures n == p
    {
      MaskTotal(p, 0);
      assert m[0..] == m;
    }
  }

  /** The bits of a prefix mask from byte i on. */
  lemma {:induction false} MaskTotal(prefix: nat, i: nat)
    requires prefix <= 128 && i <= 16
    ensures TotalBits(MaskOf(prefix)[i..]) == if 8 * i <= prefix then prefix - 8 * i else 0
    decreases 16 - i
  {
    if i < 16 {
      MaskTotal(prefix, i + 1);
      var m := MaskOf(prefix);
      assert m[i..][1..] == m[i + 1..];
      PopMask(prefix % 8);
    }
  }

  lemma PopMask(bits: nat)
    requires bits < 8
    ensures PopCount(!CreateMask(bits)) == bits && PopCount(0xff) == 8 && PopCount(0) == 0
  {
    var m := !CreateMask(bits);
    MaskBits(bits, 0, 0); MaskBits(bits, 1, 0); MaskBits(bits, 2, 0); MaskBits(bits, 3, 0);
    MaskBits(bits, 4, 0); MaskBits(bits, 5, 0); MaskBits(bits, 6, 0); MaskBits(bits, 7, 0);
  }

  // ---------------------------------------------------------------------------
  // Numerals
  // ---------------------------------------------------------------------------

  predicate IsDigit(c: char) { '0' <= c <= '9' || 'a' <= c <= 'f' }

  function DigitChar(d: nat): (c: char)
    requires d < 16
    ensures IsDigit(c)
  {
    if d < 10 then '0' + d as char else 'a' + (d - 10) as char
  }

  function CharDigit(c: char): nat
    requires IsDigit(c)
  {
    if c <= '9' then (c - '0') as nat else (c - 'a') as nat + 10
  }

  predicate Digits(s: string) { forall i | 0 <= i < |s| :: IsDigit(s[i]) }

  /** A number as the stream prints it in hexadecimal, without leading zeros. */
  function Hex(n: nat): (s: string)
    ensures s != [] && Digits(s)
  {
    if n < 16 then [DigitChar(n)] else Hex(n / 16) + [DigitChar(n % 16)]
  }

  function Number(s: string): nat
    requires Digits(s)
  {
    if s == [] then 0 else 16 * Number(s[..|s| - 1]) + CharDigit(s[|s| - 1])
  }

  const DIGITS: string := "0123456789abcdef"

  /** The digits are the sixteen in lower case, each worth its position. */
  lemma DigitIs(d: nat)
    requires d < 16
    ensures DigitChar(d) == DIGITS[d] && IsDigit(DIGITS[d]) && CharDigit(DIGITS[d]) == d
  {
    assert DIGITS[d] == if d < 10 then '0' + d as char else 'a' + (d - 10) as char;
  }

  lemma DigitRoundTrip(d: nat)
    requires d < 16
    ensures CharDigit(DigitChar(d)) == d
  {
  }

  lemma {:induction false} HexRoundTrip(n: nat)
    ensures Number(Hex(n)) == n
  {
    var s := Hex(n);
    if n < 16 {
      DigitRoundTrip(n);
      assert s[..0] == [];
    } else {
      HexRoundTrip(n / 16);
      DigitRoundTrip(n % 16);
      assert s[..|s| - 1] == Hex(n / 16);
    }
  }

  // ---------------------------------------------------------------------------
  // The text form
  // ---------------------------------------------------------------------------

  /** Groups in hexadecimal, with colons between them. */
  function Join(g: seq<nat>): string {
    if g == [] then "" else if |g| == 1 then Hex(g[0]) else Hex(g[0]) + ":" + Join(g[1..])
  }

  /** Where the first colon is, |s| if there is none. */
  function Colon(s: string): (i: nat)
    ensures i <= |s| && (i < |s| ==> s[i] == ':') && forall k | 0 <= k < i :: s[k] != ':'
  {
    if s == [] || s[0] == ':' then 0 else 1 + Colon(s[1..])
  }

  /** Where the first double colon is, |s| if there is none. */
  function DoubleColon(s: string): (i: nat)
    ensures i <= |s|
  {
    if |s| < 2 then |s| else if s[0] == ':' && s[1] == ':' then 0 else 1 + DoubleColon(s[1..])
  }

  /** Reading groups between colons; None if a piece is not a hexadecimal number. */
  function ParseGroups(s: string): Option<seq<nat>>
    decreases |s|
  {
    var i := Colon(s);
    if i == 0 || !Digits(s[..i]) then None
    else if i == |s| then Some([Number(s)])
    else
      match ParseGroups(s[i + 1..])
      case None => None
      case Some(g) => Some([Number(s[..i])] + g)
  }

  function ParseSide(s: string): Option<seq<nat>> { if s == [] then Some([]) else ParseGroups(s) }

  function Zeros(n: nat): seq<nat> { seq(n, _ => 0) }

  /**
    The address a text stands for, after section 2.2 of RFC 4291: "::" is the zero groups that are missing, at
    least one.
   */
  function Expand(s: string): Option<seq<nat>> {
    var i := DoubleColon(s);
    if i + 2 > |s| then ParseGroups(s)
    else
      Fill(ParseSide(s[..i]), ParseSide(s[i + 2..]))
  }

  function Fill(l: Option<seq<nat>>, r: Option<seq<nat>>): Option<seq<nat>> {
    if l.Some? && r.Some? && |l.value| + |r.value| < 8
    then Some(l.value + Zeros(8 - |l.value| - |r.value|) + r.value)
    else None
  }

  lemma ColonAfter(t: string, s: string)
    requires Digits(t)
    ensures Colon(t + ":" + s) == |t| && Colon(t) == |t|
  {
    var u := t + ":" + s;
    assert u[|t|] == ':';
  }

  lemma ParseFirst(t: string, s: string)
    requires t != [] && Digits(t)
    ensures ParseGroups(t) == Some([Number(t)])
    ensures ParseGroups(t + ":" + s) == match ParseGroups(s) case None => None case Some(g) => Some([Number(t)] + g)
  {
    ColonAfter(t, s);
    var u := t + ":" + s;
    assert t[..|t|] == t && u[..|t|] == t && u[|t| + 1..] == s;
  }

  /** Reading undoes joining. */
  lemma {:induction false} ParseJoin(g: seq<nat>)
    requires g != []
    ensures ParseGroups(Join(g)) == Some(g)
  {
    HexRoundTrip(g[0]);
    assert g == [g[0]] + g[1..];
    ParseFirst(Hex(g[0]), Join(g[1..]));
    if |g| > 1 {
      ParseJoin(g[1..]);
    } else {
      assert g == [g[0]];
    }
  }

  lemma ParseSideJoin(g: seq<nat>)
    ensures ParseSide(Join(g)) == Some(g)
  {
    if g != [] {
      ParseJoin(g);
      JoinStarts(g);
    }
  }

  lemma {:induction false} DigitsFirst(t: string, s: string)
    requires Digits(t) && t != []
    ensures DoubleColon(t + s) == if |s| == 0 then |t| else |t| + DoubleColon(s)
  {
    assert (t + s)[1..] == t[1..] + s;
    if |t| > 1 {
      DigitsFirst(t[1..], s);
    } else {
      assert t[1..] + s == s;
    }
  }

  lemma {:induction false} JoinStarts(g: seq<nat>)
    requires g != []
    ensures Join(g) != [] && Join(g)[0] != ':'
  {
  }

  lemma AfterColon(t: string, v: string)
    requires Digits(t) && t != [] && v != [] && v[0] != ':'
    ensures DoubleColon(t + (":" + v)) == |t| + 1 + DoubleColon(v)
  {
    DigitsFirst(t, ":" + v);
    assert (":" + v)[1..] == v;
  }

  /** No double colon in joined groups. */
  lemma {:induction false} NoDoubleColon(g: seq<nat>)
    requires g != []
    ensures DoubleColon(Join(g)) == |Join(g)|
  {
    var t := Hex(g[0]);
    if |g| == 1 {
      DigitsFirst(t, "");
      assert t + [] == t;
    } else {
      var u := Join(g[1..]);
      JoinStarts(g[1..]);
      NoDoubleColon(g[1..]);
      AfterColon(t, u);
      assert Join(g) == t + (":" + u);
    }
  }

  lemma Regroup(t: string, u: string, s: string)
    ensures t + ":" + u + "::" + s == t + (":" + (u + "::" + s))
    ensures t + (u + ":" + s) == t + u + ":" + s
  {
  }

  /** The first double colon is the one put behind joined groups. */
  lemma {:induction false} DoubleColonJoin(g: seq<nat>, s: string)
    requires g != []
    ensures DoubleColon(Join(g) + "::" + s) == |Join(g)|
  {
    var t := Hex(g[0]);
    if |g| == 1 {
      DigitsFirst(t, "::" + s);
      assert t + "::" + s == t + ("::" + s);
    } else {
      var u := Join(g[1..]);
      JoinStarts(g[1..]);
      DoubleColonJoin(g[1..], s);
      AfterColon(t, u + "::" + s);
      Regroup(t, u, s);
    }
  }

  /** Where the first run of zero groups starts, and how long it is. */
  function FirstZero(g: seq<nat>): (a: nat)
    ensures a <= |g| && (a < |g| ==> g[a] == 0) && forall i | 0 <= i < a :: g[i] != 0
  {
    if g == [] || g[0] == 0 then 0 else 1 + FirstZero(g[1..])
  }

  function RunLength(g: seq<nat>): (n: nat)
    ensures n <= |g| && (n < |g| ==> g[n] != 0) && forall i | 0 <= i < n :: g[i] == 0
  {
    if g == [] || g[0] != 0 then 0 else 1 + RunLength(g[1..])
  }

  function RunEnd(g: seq<nat>): (b: nat)
    ensures FirstZero(g) <= b <= |g| && forall i | FirstZero(g) <= i < b :: g[i] == 0
    ensures b < |g| ==> g[b] != 0
    ensures FirstZero(g) < |g| ==> FirstZero(g) < b
  {
    FirstZero(g) + RunLength(g[FirstZero(g)..])
  }

  /** The text with the first run of zeros compressed. */
  function Text(g: seq<nat>): string {
    if FirstZero(g) == |g| then Join(g) else Join(g[..FirstZero(g)]) + "::" + Join(g[RunEnd(g)..])
  }

  lemma DoubleColonBetween(l: seq<nat>, s: string)
    ensures DoubleColon(Join(l) + "::" + s) == |Join(l)|
  {
    if l == [] {
      assert Join(l) + "::" + s == "::" + s;
    } else {
      DoubleColonJoin(l, s);
    }
  }

  lemma FillSome(l: seq<nat>, r: seq<nat>)
    requires |l| + |r| < 8
    ensures Fill(Some(l), Some(r)) == Some(l + Zeros(8 - |l| - |r|) + r)
  {
  }

  lemma ExpandIs(s: string)
    requires DoubleColon(s) + 2 <= |s|
    ensures Expand(s) == Fill(ParseSide(s[..DoubleColon(s)]), ParseSide(s[DoubleColon(s) + 2..]))
  {
  }

  lemma SidesOf(t: string, u: string)
    ensures (t + "::" + u)[..|t|] == t && (t + "::" + u)[|t| + 2..] == u
  {
  }

  /** Two sides around a double colon. */
  lemma ExpandSides(l: seq<nat>, r: seq<nat>)
    requires |l| + |r| < 8
    ensures Expand(Join(l) + "::" + Join(r)) == Some(l + Zeros(8 - |l| - |r|) + r)
  {
    DoubleColonBetween(l, Join(r));
    SidesOf(Join(l), Join(r));
    ParseSideJoin(l);
    ParseSideJoin(r);
    ExpandIs(Join(l) + "::" + Join(r));
    FillSome(l, r);
  }

  /** Expanding the text recovers all eight groups. */
  lemma TextExpands(g: seq<nat>)
    requires |g| == 8
    ensures Expand(Text(g)) == Some(g)
  {
    var a, b := FirstZero(g), RunEnd(g);
    if a == 8 {
      WholeExpands(g);
    } else {
      RunExpands(g, a, b);
    }
  }

  lemma WholeExpands(g: seq<nat>)
    requires g != []
    ensures Expand(Join(g)) == Some(g)
  {
    NoDoubleColon(g);
    ParseJoin(g);
  }

  lemma RunExpands(g: seq<nat>, a: nat, b: nat)
    requires |g| == 8 && a < b <= 8 && forall i | a <= i < b :: g[i] == 0
    ensures Expand(Join(g[..a]) + "::" + Join(g[b..])) == Some(g)
  {
    ExpandSides(g[..a], g[b..]);
    ZeroRun(g, a, b);
  }

  lemma ZeroRun(g: seq<nat>, a: nat, b: nat)
    requires a <= b <= |g| && forall i | a <= i < b :: g[i] == 0
    ensures g[..a] + Zeros(b - a) + g[b..] == g
  {
  }

  lemma {:induction false} JoinSnoc(g: seq<nat>, x: nat)
    ensures Join(g + [x]) == if g == [] then Hex(x) else Join(g) + ":" + Hex(x)
  {
    if g == [] {
      assert g + [x] == [x];
    } else {
      assert (g + [x])[1..] == g[1..] + [x];
      JoinSnoc(g[1..], x);
      if |g| > 1 {
        assert Hex(g[0]) + ":" + (Join(g[1..]) + ":" + Hex(x)) == Hex(g[0]) + ":" + Join(g[1..]) + ":" + Hex(x);
      }
    }
  }

  /** What insert has printed before group i, when the first run of zeros is from a up to b. */
  function Printed(g: seq<nat>, a: nat, b: nat, i: nat): string
    requires a <= b && i <= |g|
  {
    if i <= a then Join(g[..i]) else if i <= b then Join(g[..a]) else Join(g[..a]) + "::" + Join(g[b..i])
  }

  lemma JoinTo(g: seq<nat>, b: nat, i: nat)
    requires b <= i < |g|
    ensures Join(g[b..i + 1]) == if b == i then Hex(g[i]) else Join(g[b..i]) + ":" + Hex(g[i])
  {
    JoinSnoc(g[b..i], g[i]);
    assert g[b..i] + [g[i]] == g[b..i + 1];
  }

  lemma PrintedNext(g: seq<nat>, a: nat, b: nat, i: nat)
    requires a <= b && i < |g| && (a < |g| ==> a < b)
    ensures Printed(g, a, b, i + 1) ==
              if a <= i < b then Printed(g, a, b, i)
              else Printed(g, a, b, i) + (if i == b then "::" else if i == 0 then "" else ":") + Hex(g[i])
  {
    if i < a {
      JoinTo(g, 0, i);
    } else if i >= b {
      JoinTo(g, b, i);
      Regroup(Join(g[..a]) + "::", Join(g[b..i]), Hex(g[i]));
    }
  }

  // ---------------------------------------------------------------------------
  // From the sixteen bytes to the text
  // ---------------------------------------------------------------------------

  /** A byte as a number. */
  function Byte(b: bv8): (n: nat)
    ensures n < 256
  {
    16 * High(b) + Low(b)
  }

  function High(b: bv8): nat { Nibble(Bit(b, 0), Bit(b, 1), Bit(b, 2), Bit(b, 3)) }

  function Low(b: bv8): nat { Nibble(Bit(b, 4), Bit(b, 5), Bit(b, 6), Bit(b, 7)) }

  function Nibble(b3: bool, b2: bool, b1: bool, b0: bool): (n: nat)
    ensures n < 16
  {
    8 * One(b3) + 4 * One(b2) + 2 * One(b1) + One(b0)
  }

  /** The eight groups of an address: two bytes each, the first the more significant. */
  function Groups(a: Addr): (g: seq<nat>)
    ensures |g| == 8
  {
    seq(8, i requires 0 <= i < 8 => 256 * Byte(a[2 * i]) + Byte(a[2 * i + 1]))
  }

  /** A byte is worth its number, and a group that of its two bytes. */
  lemma GroupIs(a: Addr, i: nat)
    requires i < 8
    ensures Groups(a)[i] == 256 * (a[2 * i] as nat) + a[2 * i + 1] as nat
  {
    ByteIs(a[2 * i]);
    ByteIs(a[2 * i + 1]);
  }

  lemma ByteIs(b: bv8)
    ensures Byte(b) == b as nat
  {
  }

  /** The i-th uint16_t of the address as a little-endian machine loads it. */
  function Load16(a: Addr, i: nat): nat
    requires i < 8
  {
    Byte(a[2 * i]) + 256 * Byte(a[2 * i + 1])
  }

  /** bswap_16. */
  function Swap16(n: nat): nat { 256 * (n % 256) + n / 256 % 256 }

  lemma SwapBytes(lo: nat, hi: nat)
    requires lo < 256 && hi < 256
    ensures Swap16(lo + 256 * hi) == 256 * lo + hi && (lo + 256 * hi == 0 <==> 256 * lo + hi == 0)
  {
  }

  /** Loading and swapping gives the group, and the load is zero exactly if the group is. */
  lemma LoadedGroup(a: Addr, i: nat)
    requires i < 8
    ensures Swap16(Load16(a, i)) == Groups(a)[i] && (Load16(a, i) == 0 <==> Groups(a)[i] == 0)
  {
    SwapBytes(Byte(a[2 * i]), Byte(a[2 * i + 1]));
  }

  /** The groups determine the address. */
  lemma GroupsInjective(a: Addr, b: Addr)
    requires Groups(a) == Groups(b)
    ensures a == b
  {
    forall k | 0 <= k < 16
      ensures a[k] == b[k]
    {
      SameAt(a, b, k / 2);
      assert k == 2 * (k / 2) || k == 2 * (k / 2) + 1;
    }
  }

  lemma SameAt(a: Addr, b: Addr, i: nat)
    requires i < 8 && Groups(a) == Groups(b)
    ensures a[2 * i] == b[2 * i] && a[2 * i + 1] == b[2 * i + 1]
  {
    assert Groups(a)[i] == Groups(b)[i];
    SameByte(a[2 * i], a[2 * i + 1], b[2 * i], b[2 * i + 1]);
  }

  lemma SameByte(hi: bv8, lo: bv8, hi': bv8, lo': bv8)
    requires 256 * Byte(hi) + Byte(lo) == 256 * Byte(hi') + Byte(lo')
    ensures hi == hi' && lo == lo'
  {
    SameParts(Byte(hi), Byte(lo), Byte(hi'), Byte(lo'), 256);
    ByteInjective(hi, hi');
    ByteInjective(lo, lo');
  }

  lemma SameParts(h: nat, l: nat, h': nat, l': nat, m: nat)
    requires (m == 256 || m == 16) && m * h + l == m * h' + l' && l < m && l' < m
    ensures h == h' && l == l'
  {
  }

  lemma ByteInjective(b: bv8, c: bv8)
    requires Byte(b) == Byte(c)
    ensures b == c
  {
    SameParts(High(b), Low(b), High(c), Low(c), 16);
  }

  /** The uint16_t words raw hold the groups g, byte-swapped. */
  predicate Holds(raw: seq<nat>, g: seq<nat>) {
    && |raw| == |g| == 8
    && (forall i | 0 <= i < 8 :: Swap16(raw[i]) == g[i])
    && (forall i | 0 <= i < 8 :: raw[i] == 0 <==> g[i] == 0)
  }

  /** Group i, seen from the first run of zeros, which is from a up to b. */
  predicate Spot(g: seq<nat>, a: nat, b: nat, i: nat)
    requires i < |g|
  {
    i <= b ==> (g[i] == 0 <==> a <= i < b) && (i > 0 ==> (g[i - 1] == 0 <==> a < i))
  }

  lemma Spots(g: seq<nat>, i: nat)
    requires i < |g|
    ensures Spot(g, FirstZero(g), RunEnd(g), i)
  {
    var a, b := FirstZero(g), RunEnd(g);
    assert g[i] == 0 <== a <= i < b;
    assert g[i] != 0 <== i < a || i == b;
    if 0 < i <= b {
      assert g[i - 1] == 0 <==> a <= i - 1;
    }
  }

  lemma TwoColons(s: string)
    ensures s + ":" + ":" == s + "::"
  {
  }

  /** One turn of the loop of insert. */
  method PrintGroup(raw: seq<nat>, i: nat, os0: string, used0: bool, ghost g: seq<nat>, ghost a: nat, ghost b: nat)
    returns (os: string, used: bool)
    requires Holds(raw, g) && i < 8 && Spot(g, a, b, i) && a <= b && (a < 8 ==> a < b)
    requires (used0 <==> i > b) && os0 == Printed(g, a, b, i)
    ensures (used <==> i + 1 > b) && os == Printed(g, a, b, i + 1)
  {
    PrintedNext(g, a, b, i);
    os, used := os0, used0;
    if raw[i] == 0 && !used {
      return;
    }
    TwoColons(os);
    if i > 0 && raw[i - 1] == 0 && !used {
      os := os + ":";
      used := true;
    }
    if i > 0 {
      os := os + ":";
    }
    os := os + Hex(Swap16(raw[i]));
  }

  /** The loop of insert, between the brackets. */
  method Print(raw: seq<nat>, ghost g: seq<nat>, ghost a: nat, ghost b: nat) returns (os: string)
    requires Holds(raw, g) && a <= b <= 8 && (a < 8 ==> a < b) && forall i | 0 <= i < 8 :: Spot(g, a, b, i)
    ensures os == if a == 8 then Join(g) else Join(g[..a]) + "::" + Join(g[b..])
  {
    os := "";
    var used := false;
    for i := 0 to 8
      invariant (used <==> i > b) && os == Printed(g, a, b, i)
    {
      os, used := PrintGroup(raw, i, os, used, g, a, b);
    }
    assert Spot(g, a, b, 7) && g[..8] == g && g[8..] == [];
    if !used && raw[7] == 0 {
      os := os + "::";
    }
  }

  /** insert, between the brackets: every text it prints expands to the address's groups. */
  method Insert(a: Addr) returns (os: string)
    ensures os == Text(Groups(a)) && Expand(os) == Some(Groups(a))
  {
    var raw := seq(8, i requires 0 <= i < 8 => Load16(a, i));
    forall i | 0 <= i < 8
      ensures Swap16(raw[i]) == Groups(a)[i] && (raw[i] == 0 <==> Groups(a)[i] == 0)
    {
      LoadedGroup(a, i);
    }
    forall i | 0 <= i < 8
      ensures Spot(Groups(a), FirstZero(Groups(a)), RunEnd(Groups(a)), i)
    {
      Spots(Groups(a), i);
    }
    TextExpands(Groups(a));
    os := Print(raw, Groups(a), FirstZero(Groups(a)), RunEnd(Groups(a)));
  }

  /** So no two addresses print the same text. */
  lemma TextInjective(a: Addr, b: Addr)
    requires Text(Groups(a)) == Text(Groups(b))
    ensures a == b
  {
    TextExpands(Groups(a));
    TextExpands(Groups(b));
    GroupsInjective(a, b);
  }
}
