/**
  A list of equally long blocks read as one flat byte sequence, and the arithmetic of positions in it.
  Span, NodeOf and OffsetIn are k * b, p / b and p % b, defined by recursion so that proofs about
  blocks follow the list; PositionArithmetic ties them to the operators.
 */
module Blocks {

  type byte = x: int | 0 <= x < 256

  /** The length of k blocks of length b. */
  function Span(k: nat, b: nat): nat { if k == 0 then 0 else Span(k - 1, b) + b }

  /** The block that holds position p. */
  function NodeOf(p: nat, b: nat): nat
    requires b > 0
  {
    if p < b then 0 else 1 + NodeOf(p - b, b)
  }

  /** The offset of position p in its block. */
  function OffsetIn(p: nat, b: nat): (r: nat)
    requires b > 0
    ensures r < b
  {
    if p < b then p else OffsetIn(p - b, b)
  }

  lemma {:induction false} SpanIsProduct(k: nat, b: nat)
    ensures Span(k, b) == k * b
  {
    if k > 0 {
      SpanIsProduct(k - 1, b);
      assert k * b == (k - 1) * b + b;
    }
  }

  lemma {:induction false} SpanMono(k: nat, n: nat, b: nat)
    requires k <= n
    ensures Span(k, b) <= Span(n, b)
    ensures k < n ==> Span(k, b) + b <= Span(n, b)
  {
    if k < n {
      SpanMono(k, n - 1, b);
    }
  }

  lemma {:induction false} SpanAdd(k: nat, n: nat, b: nat)
    ensures Span(k + n, b) == Span(k, b) + Span(n, b)
  {
    if n > 0 {
      SpanAdd(k, n - 1, b);
    }
  }

  /** A position is its block's start plus its offset. */
  lemma {:induction false} PositionIs(p: nat, b: nat)
    requires b > 0
    ensures p == Span(NodeOf(p, b), b) + OffsetIn(p, b) && OffsetIn(p, b) < b
  {
    if p >= b {
      PositionIs(p - b, b);
    }
  }

  lemma {:induction false} PositionUnique(k: nat, off: nat, b: nat)
    requires off < b
    ensures NodeOf(Span(k, b) + off, b) == k && OffsetIn(Span(k, b) + off, b) == off
  {
    if k > 0 {
      PositionUnique(k - 1, off, b);
    }
  }

  lemma {:induction false} PositionArithmetic(p: nat, b: nat)
    requires b > 0
    ensures NodeOf(p, b) == p / b && OffsetIn(p, b) == p % b
  {
    PositionIs(p, b);
    SpanIsProduct(NodeOf(p, b), b);
    QuotientUnique(p, b, NodeOf(p, b), OffsetIn(p, b));
  }

  lemma QuotientUnique(p: nat, b: nat, k: nat, off: nat)
    requires b > 0 && off < b && p == k * b + off
    ensures p / b == k && p % b == off
  {
    var q, r := p / b, p % b;
    assert q * b + r == k * b + off;
    if q != k {
      assert (q - k) * b == off - r;
      if q > k { ProductGap(q - k, b); } else { ProductGap(k - q, b); }
    }
  }

  lemma ProductGap(d: nat, b: nat)
    requires d > 0
    ensures d * b >= b
  {
  }

  /** Where position p lies relative to the first n blocks. */
  lemma Placed(p: nat, n: nat, b: nat)
    requires b > 0 && p <= Span(n, b)
    ensures p == Span(n, b) ==> NodeOf(p, b) == n && OffsetIn(p, b) == 0
    ensures p < Span(n, b) ==> NodeOf(p, b) < n
  {
    if p == Span(n, b) {
      PositionUnique(n, 0, b);
    } else {
      PositionIs(p, b);
      if n <= NodeOf(p, b) {
        SpanMono(n, NodeOf(p, b), b);
      }
    }
  }

  /** The next multiple of b at or after p. */
  function RoundUp(p: nat, b: nat): (r: nat)
    requires b > 0
    ensures p <= r < p + b
  {
    PositionIs(p, b);
    if OffsetIn(p, b) == 0 then p else p - OffsetIn(p, b) + b
  }

  /** All blocks have length b. */
  predicate Uniform(bs: seq<seq<byte>>, b: nat) { forall i | 0 <= i < |bs| :: |bs[i]| == b }

  function Flatten(bs: seq<seq<byte>>): seq<byte> {
    if bs == [] then [] else bs[0] + Flatten(bs[1..])
  }

  /** s with d written over it at position p. */
  function Splice(s: seq<byte>, p: nat, d: seq<byte>): (r: seq<byte>)
    requires p + |d| <= |s|
    ensures |r| == |s|
  {
    s[..p] + d + s[p + |d|..]
  }

  lemma SpliceTwice(s: seq<byte>, p: nat, c: seq<byte>, d: seq<byte>)
    requires p + |c| + |d| <= |s|
    ensures Splice(Splice(s, p, c), p + |c|, d) == Splice(s, p, c + d)
  {
  }

  lemma SpliceTail(h: seq<byte>, s: seq<byte>, p: nat, d: seq<byte>)
    requires p + |d| <= |s|
    ensures h + Splice(s, p, d) == Splice(h + s, |h| + p, d)
  {
  }

  lemma {:induction false} FlattenLength(bs: seq<seq<byte>>, b: nat)
    requires Uniform(bs, b)
    ensures |Flatten(bs)| == Span(|bs|, b)
  {
    if bs != [] {
      FlattenLength(bs[1..], b);
    }
  }

  lemma {:induction false} FlattenAppend(bs: seq<seq<byte>>, cs: seq<seq<byte>>)
    ensures Flatten(bs + cs) == Flatten(bs) + Flatten(cs)
  {
    if bs == [] {
      assert bs + cs == cs;
    } else {
      assert (bs + cs)[1..] == bs[1..] + cs;
      FlattenAppend(bs[1..], cs);
    }
  }

  /** Growing the list keeps the flat sequence as a prefix. */
  lemma FlattenPrefix(bs: seq<seq<byte>>, cs: seq<seq<byte>>)
    requires bs <= cs
    ensures Flatten(bs) <= Flatten(cs)
  {
    assert cs == bs + cs[|bs|..];
    FlattenAppend(bs, cs[|bs|..]);
  }

  /** Part of block k is the corresponding part of the flat sequence. */
  lemma {:induction false} FlattenPart(bs: seq<seq<byte>>, b: nat, k: nat, off: nat, n: nat)
    requires Uniform(bs, b) && k < |bs| && off + n <= b
    ensures Span(k, b) + off + n <= |Flatten(bs)|
    ensures bs[k][off..off + n] == Flatten(bs)[Span(k, b) + off..Span(k, b) + off + n]
  {
    FlattenLength(bs, b);
    SpanMono(k, |bs|, b);
    if k > 0 {
      FlattenPart(bs[1..], b, k - 1, off, n);
      var p := Span(k - 1, b) + off;
      assert Flatten(bs)[b + p..b + p + n] == Flatten(bs[1..])[p..p + n];
    }
  }

  /** Writing inside block k is writing at the corresponding flat position. */
  lemma {:induction false} FlattenSplice(bs: seq<seq<byte>>, b: nat, k: nat, off: nat, d: seq<byte>)
    requires Uniform(bs, b) && k < |bs| && off + |d| <= b
    ensures Span(k, b) + off + |d| <= |Flatten(bs)|
    ensures Flatten(bs[k := Splice(bs[k], off, d)]) == Splice(Flatten(bs), Span(k, b) + off, d)
  {
    FlattenPart(bs, b, k, off, |d|);
    var bs' := bs[k := Splice(bs[k], off, d)];
    if k == 0 {
      assert bs'[1..] == bs[1..];
    } else {
      assert bs'[1..] == bs[1..][k - 1 := Splice(bs[k], off, d)];
      FlattenSplice(bs[1..], b, k - 1, off, d);
      SpliceTail(bs[0], Flatten(bs[1..]), Span(k - 1, b) + off, d);
    }
  }

  // ---------------------------------------------------------------------------
  // Scatter and gather
  // ---------------------------------------------------------------------------

  /** A stretch of one block: len bytes at offset off of block node. */
  datatype Slice = Slice(node: nat, off: nat, len: nat)

  /** The stretches that make up len bytes from offset off of block k on. */
  function Slices(k: nat, off: nat, len: nat, b: nat): seq<Slice>
    requires off < b
    decreases len
  {
    if len == 0 then []
    else if len <= b - off then [Slice(k, off, len)]
    else [Slice(k, off, b - off)] + Slices(k + 1, 0, len - (b - off), b)
  }

  /** Stretches of different blocks, from k on, not empty and inside them: so they are disjoint. */
  predicate Disjoint(r: seq<Slice>, k: nat, b: nat) {
    forall i | 0 <= i < |r| :: r[i].node == k + i && r[i].len > 0 && r[i].off + r[i].len <= b
  }

  lemma {:induction false} SlicesDisjoint(k: nat, off: nat, len: nat, b: nat)
    requires off < b
    ensures Disjoint(Slices(k, off, len, b), k, b)
    decreases len
  {
    if len > b - off {
      var rest := Slices(k + 1, 0, len - (b - off), b);
      SlicesDisjoint(k + 1, 0, len - (b - off), b);
      DisjointCons(Slice(k, off, b - off), rest, b);
    }
  }

  lemma DisjointCons(s: Slice, rest: seq<Slice>, b: nat)
    requires s.len > 0 && s.off + s.len <= b && Disjoint(rest, s.node + 1, b)
    ensures Disjoint([s] + rest, s.node, b)
  {
    var r := [s] + rest;
    assert forall i | 0 < i < |r| :: r[i] == rest[i - 1];
  }

  /** The stretches of the flat range [p, p + len). */
  function RangeSlices(p: nat, len: nat, b: nat): seq<Slice>
    requires b > 0
  {
    Slices(NodeOf(p, b), OffsetIn(p, b), len, b)
  }

  predicate Inside(vs: seq<Slice>, n: nat, b: nat) {
    forall i | 0 <= i < |vs| :: vs[i].node < n && vs[i].off + vs[i].len <= b
  }

  /** The bytes the stretches hold, one after the other. */
  function Gather(bs: seq<seq<byte>>, b: nat, vs: seq<Slice>): seq<byte>
    requires Uniform(bs, b) && Inside(vs, |bs|, b)
  {
    if vs == [] then [] else bs[vs[0].node][vs[0].off..vs[0].off + vs[0].len] + Gather(bs, b, vs[1..])
  }

  /** The stretches lie in the chain when their flat range does. */
  lemma {:induction false} SlicesInside(k: nat, off: nat, len: nat, b: nat, n: nat)
    requires off < b && Span(k, b) + off + len <= Span(n, b)
    ensures Inside(Slices(k, off, len, b), n, b)
    ensures len > 0 ==> k < n
    decreases len
  {
    if len > 0 {
      if n <= k {
        SpanMono(n, k, b);
      }
      if len > b - off {
        SlicesInside(k + 1, 0, len - (b - off), b, n);
      }
    }
  }

  lemma Joined(s: seq<byte>, p: nat, q: nat, r: nat)
    requires p <= q <= r <= |s|
    ensures s[p..q] + s[q..r] == s[p..r]
  {
  }

  /** Gathering the stretches gives exactly their flat range. */
  lemma {:induction false} GatherExact(bs: seq<seq<byte>>, b: nat, k: nat, off: nat, len: nat)
    requires Uniform(bs, b) && off < b && Inside(Slices(k, off, len, b), |bs|, b)
    requires Span(k, b) + off + len <= |Flatten(bs)|
    ensures Gather(bs, b, Slices(k, off, len, b)) == Flatten(bs)[Span(k, b) + off..Span(k, b) + off + len]
    decreases len
  {
    if 0 < len <= b - off {
      GatherLast(bs, b, k, off, len);
    } else if len > 0 {
      GatherMore(bs, b, k, off, len);
      GatherExact(bs, b, k + 1, 0, len - (b - off));
      GatherJoin(Flatten(bs), Gather(bs, b, Slices(k + 1, 0, len - (b - off), b)), Span(k, b) + off, b - off, len);
    }
  }

  lemma GatherLast(bs: seq<seq<byte>>, b: nat, k: nat, off: nat, len: nat)
    requires Uniform(bs, b) && 0 < len <= b - off && Inside(Slices(k, off, len, b), |bs|, b)
    requires Span(k, b) + off + len <= |Flatten(bs)|
    ensures Gather(bs, b, Slices(k, off, len, b)) == Flatten(bs)[Span(k, b) + off..Span(k, b) + off + len]
  {
    assert Slices(k, off, len, b)[0].node == k;
    GatherStep(bs, b, k, off, len);
  }

  lemma GatherMore(bs: seq<seq<byte>>, b: nat, k: nat, off: nat, len: nat)
    requires Uniform(bs, b) && off < b && len > b - off && Inside(Slices(k, off, len, b), |bs|, b)
    ensures Span(k + 1, b) == Span(k, b) + b <= |Flatten(bs)| && Inside(Slices(k + 1, 0, len - (b - off), b), |bs|, b)
    ensures Gather(bs, b, Slices(k, off, len, b)) ==
            Flatten(bs)[Span(k, b) + off..Span(k, b) + b] + Gather(bs, b, Slices(k + 1, 0, len - (b - off), b))
  {
    assert Slices(k, off, len, b)[0].node == k;
    GatherStep(bs, b, k, off, len);
  }

  lemma GatherJoin(s: seq<byte>, g: seq<byte>, p: nat, n: nat, len: nat)
    requires n <= len && p + len <= |s| && g == s[p + n..p + len]
    ensures s[p..p + n] + g == s[p..p + len]
  {
  }

  lemma GatherStep(bs: seq<seq<byte>>, b: nat, k: nat, off: nat, len: nat)
    requires Uniform(bs, b) && off < b && len > 0 && k < |bs| && Inside(Slices(k, off, len, b), |bs|, b)
    ensures var n := if len <= b - off then len else b - off;
            && Inside(Slices(k + 1, 0, len - n, b), |bs|, b)
            && Span(k, b) + off + n <= |Flatten(bs)|
            && Gather(bs, b, Slices(k, off, len, b)) ==
               Flatten(bs)[Span(k, b) + off..Span(k, b) + off + n] + Gather(bs, b, Slices(k + 1, 0, len - n, b))
  {
    var n := if len <= b - off then len else b - off;
    var vs := Slices(k, off, len, b);
    assert vs[1..] == Slices(k + 1, 0, len - n, b);
    forall i | 0 <= i < |vs| - 1 ensures vs[1..][i].node < |bs| && vs[1..][i].off + vs[1..][i].len <= b {
      assert vs[1..][i] == vs[i + 1];
    }
    FlattenPart(bs, b, k, off, n);
  }
}