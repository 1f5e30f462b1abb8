/**
  ByteArray: a chain of equally sized nodes with a cached cursor node, meant to behave as one flat
  byte sequence with a position. The chain is kept as the ghost sequence of its nodes, and their
  contents as the ghost list of blocks; Flat() is what a caller is meant to see.
 */
module ByteArrayModel {
  import opened Common
  import opened Blocks

  class Node {
    const ptr: array<byte>
    var next: Node?

    constructor (size: nat)
      ensures ptr.Length == size && next == null && fresh(ptr)
    {
      ptr := new byte[size];
      next := null;
    }
  }

  /** How write() advances m_position past the last fragment: by its node's room, as the code does, or by its size. */
  datatype Advance = ByRoom | BySize

  /** read() throws out_of_range when asked for too much, and dereferences m_cur even when asked for nothing. */
  datatype ReadResult = Data(bytes: seq<byte>) | OutOfRange | NullCursor

  /** A scatter-gather element: len bytes at offset off of a node. */
  datatype IoVec = IoVec(node: Node, off: nat, len: nat)

  datatype BufferResult = Buffers(vecs: seq<IoVec>) | NullNode

  lemma CollectStep(j: nat, off: nat, left: nat, b: nat)
    requires off < b && left >= b - off
    ensures Slices(j, off, left, b) == [Slice(j, off, b - off)] + Slices(j + 1, 0, left - (b - off), b)
  {
  }

  lemma CollectMore(done: seq<Slice>, j: nat, off: nat, left: nat, b: nat)
    requires off < b && left > b - off
    ensures done + Slices(j, off, left, b) == (done + [Slice(j, off, b - off)]) + Slices(j + 1, 0, left - (b - off), b)
    ensures Span(j + 1, b) == Span(j, b) + b
  {
    CollectStep(j, off, left, b);
  }

  lemma CollectLast(j: nat, off: nat, left: nat, b: nat)
    requires off < b && 0 < left <= b - off
    ensures Slices(j, off, left, b) == [Slice(j, off, left)] && Span(j + 1, b) == Span(j, b) + b
  {
  }

  /** Where write() leaves the position after bytes that end at position end. */
  function Landing(end: nat, b: nat, adv: Advance): nat
    requires b > 0
  {
    if adv == BySize then end else RoundUp(end, b)
  }

  /** The node count addCapacity arrives at, from its ceiling division. */
  lemma GrowMath(p: nat, n: nat, have: nat, b: nat, count: nat)
    requires b > 0 && p <= Span(have, b) < p + n && count == (p + n - Span(have, b) + b - 1) / b
    ensures count > 0 && Span(have + count, b) == Span(have, b) + Span(count, b) == RoundUp(p + n, b)
  {
    var m := p + n - Span(have, b);
    PositionArithmetic(m + b - 1, b);
    PositionIs(m + b - 1, b);
    SpanAdd(have, count, b);
    PositionIs(p + n, b);
    var over := Span(count, b) - m;
    assert 0 <= over < b;
    if over == 0 {
      PositionUnique(have + count, 0, b);
    } else {
      PositionUnique(have + count - 1, b - over, b);
    }
  }

  /** A fragment that fills node k and leaves something to copy has a node after it. */
  lemma NextNode(k: nat, n: nat, b: nat, p: nat, left: nat)
    requires b > 0 && k < n && p == Span(k, b) + b && left > 0 && p + left <= Span(n, b)
    ensures k + 1 < n && Span(k + 1, b) == p
  {
  }

  /** The last fragment, of n bytes at offset off of node k, and the end position it gives. */
  lemma EndOfFill(k: nat, off: nat, n: nat, b: nat)
    requires b > 0 && n > 0 && off + n <= b
    ensures var end := Span(k, b) + off + n;
            && NodeOf(end, b) == (if off + n == b then k + 1 else k)
            && RoundUp(end, b) == Span(k, b) + b
            && (OffsetIn(end, b) == 0 <==> off + n == b)
  {
    if off + n == b {
      PositionUnique(k + 1, 0, b);
    } else {
      PositionUnique(k, off + n, b);
    }
  }

  /** A fragment written into its block is the fragment written into the flat sequence. */
  lemma CopyMath(bs: seq<seq<byte>>, b: nat, k: nat, off: nat, buf: seq<byte>, bpos: nat, n: nat, start: nat,
      was: seq<byte>)
    requires Uniform(bs, b) && k < |bs| && off + n <= b && bpos + n <= |buf| && start + |buf| <= |was|
    requires start + bpos == Span(k, b) + off && Flatten(bs) == Splice(was, start, buf[..bpos])
    ensures Flatten(bs[k := Splice(bs[k], off, buf[bpos..bpos + n])]) == Splice(was, start, buf[..bpos + n])
  {
    FlattenSplice(bs, b, k, off, buf[bpos..bpos + n]);
    SpliceTwice(was, start, buf[..bpos], buf[bpos..bpos + n]);
    assert buf[..bpos] + buf[bpos..bpos + n] == buf[..bpos + n];
  }

  /** The landing position is inside the chain. */
  lemma LandingRoom(end: nat, n: nat, b: nat, adv: Advance)
    requires b > 0 && end <= Span(n, b)
    ensures end <= Landing(end, b, adv) <= Span(n, b)
  {
    PositionIs(end, b);
    Placed(end, n, b);
    if end < Span(n, b) {
      SpanMono(NodeOf(end, b), n, b);
    }
  }

  /** now is was with buf written at p, possibly grown; nothing else of was has changed. */
  predicate Written(was: seq<byte>, now: seq<byte>, p: nat, buf: seq<byte>)
    requires p <= |was|
  {
    var end := p + |buf|;
    && |was| <= |now| && end <= |now|
    && now[..p] == was[..p] && now[p..end] == buf
    && (end <= |was| ==> now[end..|was|] == was[end..])
  }

  lemma SpliceWrites(was: seq<byte>, room: seq<byte>, p: nat, buf: seq<byte>)
    requires was <= room && p <= |was| && p + |buf| <= |room|
    ensures Written(was, Splice(room, p, buf), p, buf)
  {
  }

  class ByteArray {
    const baseSize: nat
    var position: nat
    var capacity: nat
    var size: nat
    var root: Node
    var cur: Node?
    ghost var nodes: seq<Node>
    ghost var blocks: seq<seq<byte>>
    ghost var bufs: set<array<byte>>  // the nodes' buffers

    /** The node chain, and the blocks it stores. */
    ghost predicate Chained()
      reads this`nodes, this`blocks, this`bufs, this`root, this`capacity, nodes, bufs
    {
      && baseSize > 0
      && |nodes| == |blocks| > 0 && nodes[0] == root
      && (forall i, j | 0 <= i < |nodes| && j == i + 1 < |nodes| :: nodes[i].next == nodes[j])
      && nodes[|nodes| - 1].next == null
      && (forall i, j | 0 <= i < j < |nodes| :: nodes[i].ptr != nodes[j].ptr)
      && (forall i | 0 <= i < |nodes| ::
            nodes[i].ptr in bufs && nodes[i].ptr.Length == baseSize && nodes[i].ptr[..] == blocks[i])
      && capacity == Span(|nodes|, baseSize)
    }

    ghost function Tail(): Node
      requires |nodes| > 0
      reads this`nodes
    {
      nodes[|nodes| - 1]
    }

    /** The node that holds position p, null at the end of the chain. */
    ghost function NodeAt(p: nat): Node?
      requires baseSize > 0
      reads this`nodes
    {
      if NodeOf(p, baseSize) < |nodes| then nodes[NodeOf(p, baseSize)] else null
    }

    /** Everything but the cursor at capacity, where the code looks at it only when asked for zero bytes. */
    ghost predicate Usable()
      reads this, nodes, bufs
    {
      Chained() && position <= size <= capacity && (position < capacity ==> cur == NodeAt(position))
    }

    /** position <= size <= capacity, and the cursor is node number position / baseSize, null exactly at capacity. */
    ghost predicate Valid()
      reads this, nodes, bufs
    {
      Chained() && position <= size <= capacity && cur == NodeAt(position)
    }

    ghost function Flat(): (s: seq<byte>)
      requires Chained()
      reads this`nodes, this`blocks, this`bufs, this`root, this`capacity, nodes, bufs
      ensures |s| == capacity
    {
      FlattenLength(blocks, baseSize);
      Flatten(blocks)
    }

    /** The bytes written so far. */
    ghost function Contents(): (s: seq<byte>)
      requires Usable()
      reads this, nodes, bufs
      ensures |s| == size
    {
      Flat()[..size]
    }

    lemma NextIs(k: nat)
      requires Chained() && k < |nodes|
      ensures nodes[k].next == if k + 1 < |nodes| then nodes[k + 1] else null
    {
    }

    lemma NullAtCapacity()
      requires Valid()
      ensures cur == null <==> position == capacity
    {
      Placed(position, |nodes|, baseSize);
    }

    constructor (base: nat)
      requires base > 0
      ensures Valid() && baseSize == base && fresh(Tail()) && fresh(bufs)
      ensures position == size == 0 && capacity == base
    {
      baseSize := base;
      position, size, capacity := 0, 0, base;
      var n := new Node(base);
      root, cur := n, n;
      nodes, blocks, bufs := [n], [n.ptr[..]], {n.ptr};
    }

    /** The walk of setPosition: the node that holds position v, or null at capacity. */
    method Seek(v: nat) returns (n: Node?)
      requires Chained() && v <= capacity
      ensures n == NodeAt(v)
    {
      n := root;
      var left: nat := v;
      ghost var k := 0;
      while left > n.ptr.Length
        invariant 0 <= k < |nodes| && n == nodes[k] && left + Span(k, baseSize) == v
        decreases left
      {
        NextNode(k, |nodes|, baseSize, Span(k, baseSize) + baseSize, left - baseSize);
        left := left - n.ptr.Length;
        n := n.next;
        k := k + 1;
      }
      if left == n.ptr.Length {
        PositionUnique(k + 1, 0, baseSize);
        n := n.next;
      } else {
        PositionUnique(k, left, baseSize);
      }
    }

    method SetPosition(v: nat) returns (ok: bool)
      requires Usable()
      modifies this`position, this`size, this`cur
      ensures ok == (v <= capacity)
      ensures ok ==> Valid() && position == v && size == if v > old(size) then v else old(size)
      ensures !ok ==> position == old(position) && size == old(size) && cur == old(cur)
      ensures Chained() && Flat() == old(Flat())
    {
      if v > capacity {
        return false;
      }
      position := v;
      if position > size {
        size := position;
      }
      cur := Seek(v);
      ok := true;
    }

    method Clear()
      requires Usable()
      modifies this, root
      ensures Valid() && position == size == 0 && capacity == baseSize
      ensures nodes == [old(root)] && root == old(root) && bufs == old(bufs)
    {
      position, size, capacity := 0, 0, baseSize;
      cur := root;
      root.next := null;
      nodes, blocks := [root], blocks[..1];
    }

    /** One node appended by addCapacity. */
    method Grow(tail: Node) returns (n: Node)
      requires Chained() && tail == Tail()
      modifies this`capacity, this`nodes, this`blocks, this`bufs, tail`next
      ensures Chained() && fresh(n) && fresh(bufs - old(bufs))
      ensures nodes == old(nodes) + [n] && |blocks| == |nodes| && blocks[..|nodes| - 1] == old(blocks)
    {
      n := new Node(baseSize);
      tail.next := n;
      nodes, blocks, bufs := nodes + [n], blocks + [n.ptr[..]], bufs + {n.ptr};
      capacity := capacity + baseSize;
    }

    method FindTail() returns (tail: Node)
      requires Chained()
      ensures tail == Tail()
    {
      tail := root;
      ghost var k := 0;
      while tail.next != null
        invariant 0 <= k < |nodes| && tail == nodes[k]
        invariant tail.next == if k + 1 < |nodes| then nodes[k + 1] else null
        decreases |nodes| - k
      {
        tail := tail.next;
        k := k + 1;
      }
    }

    /** The allocation loop of addCapacity. */
    method Extend(end: Node, count: nat) returns (first: Node?)
      requires Chained() && end == Tail()
      modifies this`capacity, this`nodes, this`blocks, this`bufs, end`next
      ensures Chained() && old(nodes) <= nodes && old(blocks) <= blocks && |nodes| == |old(nodes)| + count
      ensures fresh(bufs - old(bufs)) && (Tail() == old(Tail()) || fresh(Tail()))
      ensures first == if count == 0 then null else nodes[|old(nodes)|]
    {
      var tail := end;
      first := null;
      var i := 0;
      while i < count
        invariant 0 <= i <= count && Chained() && tail == Tail()
        invariant old(nodes) <= nodes && old(blocks) <= blocks && |nodes| == |old(nodes)| + i
        invariant fresh(bufs - old(bufs)) && (tail == end || fresh(tail))
        invariant first == if i == 0 then null else nodes[|old(nodes)|]
      {
        tail := Grow(tail);
        if first == null {
          first := tail;
        }
        i := i + 1;
      }
    }

    /** How many nodes the missing bytes take: ceil(1.0 * missing / m_baseSize). */
    method Missing(missing: nat, ghost n: nat) returns (count: nat)
      requires Chained() && position <= capacity < position + n && missing == position + n - capacity
      ensures count > 0 && Span(|nodes| + count, baseSize) == RoundUp(position + n, baseSize)
    {
      count := (missing + baseSize - 1) / baseSize;
      GrowMath(position, n, |nodes|, baseSize, count);
    }

    method AddCapacity(n: nat)
      requires Usable()
      modifies this`capacity, this`cur, this`nodes, this`blocks, this`bufs, Tail()`next
      ensures Usable() && position + n <= capacity
      ensures capacity == if position + n <= old(capacity) then old(capacity) else RoundUp(position + n, baseSize)
      ensures old(nodes) <= nodes && old(blocks) <= blocks
      ensures fresh(bufs - old(bufs)) && (Tail() == old(Tail()) || fresh(Tail()))
      ensures n == 0 ==> cur == old(cur)
    {
      if n == 0 {
        return;
      }
      var room := capacity - position;
      if room >= n {
        return;
      }
      var count := Missing(n - room, n);
      Placed(position, |nodes|, baseSize);
      var tail := FindTail();
      var first := Extend(tail, count);
      if room == 0 {
        cur := first;
      }
    }

    /** memcpy into the node n, which is number k. */
    method CopyIn(n: Node, ghost k: nat, off: nat, data: seq<byte>)
      requires Chained() && k < |nodes| && n == nodes[k] && off + |data| <= baseSize
      modifies this`blocks, n.ptr
      ensures Chained() && blocks == old(blocks)[k := Splice(old(blocks)[k], off, data)]
    {
      var a := n.ptr;
      forall i | 0 <= i < |data| {
        a[off + i] := data[i];
      }
      blocks := blocks[k := Splice(blocks[k], off, data)];
      assert a[..] == blocks[k];
    }

    /** One fragment: n bytes of buf from bpos on, copied to the cursor node, number k, at off. */
    method Copy(ghost k: nat, off: nat, buf: seq<byte>, bpos: nat, n: nat, ghost start: nat, ghost was: seq<byte>)
      requires Chained() && k < |nodes| && cur == nodes[k]
      requires off + n <= baseSize && bpos + n <= |buf|
      requires |was| == capacity && start + |buf| <= |was| && start + bpos == Span(k, baseSize) + off
      requires Flatten(blocks) == Splice(was, start, buf[..bpos])
      modifies this`blocks, cur.ptr
      ensures Chained() && Flatten(blocks) == Splice(was, start, buf[..bpos + n])
    {
      CopyMath(blocks, baseSize, k, off, buf, bpos, n, start, was);
      CopyIn(cur, k, off, buf[bpos..bpos + n]);
    }

    /** The offset of the position in its node. */
    method NodeOffset() returns (npos: nat)
      requires baseSize > 0
      ensures npos == OffsetIn(position, baseSize)
    {
      PositionArithmetic(position, baseSize);
      npos := position % baseSize;
    }

    /** bpos bytes of buf are copied; the cursor is node k, and npos is the offset to go on at. */
    ghost predicate Filling(k: nat, npos: nat, buf: seq<byte>, bpos: nat, start: nat, was: seq<byte>)
      reads this, nodes, bufs
    {
      && Chained() && k < |nodes| && cur == nodes[k] && npos < baseSize
      && bpos < |buf| && |was| == capacity && start + |buf| <= |was|
      && position == start + bpos == Span(k, baseSize) + npos
      && Flatten(blocks) == Splice(was, start, buf[..bpos])
    }

    /** A fragment that fills its node, with more to come. */
    method FillNode(ghost k: nat, npos: nat, buf: seq<byte>, bpos: nat, ghost start: nat, ghost was: seq<byte>)
      requires Filling(k, npos, buf, bpos, start, was) && bpos + baseSize - npos < |buf|
      modifies this`position, this`cur, this`blocks, cur.ptr
      ensures Filling(k + 1, 0, buf, bpos + baseSize - npos, start, was)
    {
      var ncap := cur.ptr.Length - npos;
      Copy(k, npos, buf, bpos, ncap, start, was);
      position := position + ncap;
      NextNode(k, |nodes|, baseSize, position, |buf| - bpos - ncap);
      cur := cur.next;
    }

    /**
      After the last fragment, n bytes at npos of node k: on to the next node if it is full, and the position
      moves.
     */
    method Pass(ghost k: nat, npos: nat, n: nat, ahead: nat)
      requires Chained() && k < |nodes| && cur == nodes[k] && 0 < n && npos + n <= baseSize
      modifies this`position, this`cur
      ensures position == old(position) + ahead && cur == NodeAt(Span(k, baseSize) + npos + n)
    {
      EndOfFill(k, npos, n, baseSize);
      NextIs(k);
      if cur.ptr.Length == npos + n {
        cur := cur.next;
      }
      position := position + ahead;
    }

    /** The last fragment. */
    method FillLast(ghost k: nat, npos: nat, buf: seq<byte>, bpos: nat, ghost start: nat, ghost was: seq<byte>,
        adv: Advance)
      requires Filling(k, npos, buf, bpos, start, was) && |buf| <= bpos + baseSize - npos
      modifies this`position, this`cur, this`blocks, cur.ptr
      ensures Chained() && Flatten(blocks) == Splice(was, start, buf)
      ensures position == Landing(start + |buf|, baseSize, adv) && cur == NodeAt(start + |buf|)
    {
      var ncap, left := cur.ptr.Length - npos, |buf| - bpos;
      Copy(k, npos, buf, bpos, left, start, was);
      assert buf[..bpos + left] == buf;
      EndOfFill(k, npos, left, baseSize);
      Pass(k, npos, left, if adv == BySize then left else ncap);
    }

    /** The copying loop of write(). */
    method FillFrom(ghost k0: nat, npos0: nat, buf: seq<byte>, ghost start: nat, ghost was: seq<byte>, adv: Advance)
      requires Filling(k0, npos0, buf, 0, start, was)
      modifies this`position, this`cur, this`blocks, bufs
      ensures Chained() && Flatten(blocks) == Splice(was, start, buf)
      ensures position == Landing(start + |buf|, baseSize, adv) && cur == NodeAt(start + |buf|)
    {
      var npos, bpos := npos0, 0;
      ghost var k := k0;
      while |buf| - bpos > baseSize - npos
        invariant 0 <= k && 0 <= npos && 0 <= bpos && Filling(k, npos, buf, bpos, start, was)
        decreases |buf| - bpos
      {
        FillNode(k, npos, buf, bpos, start, was);
        bpos, npos, k := bpos + baseSize - npos, 0, k + 1;
      }
      FillLast(k, npos, buf, bpos, start, was, adv);
    }

    /** write(), once there is room. */
    method Fill(buf: seq<byte>, adv: Advance)
      requires Usable() && buf != [] && position + |buf| <= capacity
      modifies this`position, this`cur, this`blocks, bufs
      ensures Chained() && Flat() == Splice(old(Flat()), old(position), buf)
      ensures position == Landing(old(position) + |buf|, baseSize, adv)
      ensures cur == NodeAt(old(position) + |buf|)
    {
      var npos := NodeOffset();
      PositionIs(position, baseSize);
      Placed(position, |nodes|, baseSize);
      assert Flat() == Splice(Flat(), position, buf[..0]);
      FillFrom(NodeOf(position, baseSize), npos, buf, position, Flat(), adv);
    }

    /** write() of at least one byte, up to the final comparison with m_size. */
    method Place(buf: seq<byte>, adv: Advance)
      requires Usable() && buf != []
      modifies this`position, this`capacity, this`cur, this`nodes, this`blocks, this`bufs, Tail()`next, bufs
      ensures Chained() && old(nodes) <= nodes
      ensures fresh(bufs - old(bufs)) && (Tail() == old(Tail()) || fresh(Tail()))
      ensures var end := old(position) + |buf|;
              && end <= capacity == (if end <= old(capacity) then old(capacity) else RoundUp(end, baseSize))
              && position == Landing(end, baseSize, adv) && cur == NodeAt(end)
      ensures Written(old(Flat()), Flat(), old(position), buf)
    {
      ghost var was := Flat();
      AddCapacity(|buf|);
      FlattenPrefix(old(blocks), blocks);
      SpliceWrites(was, Flat(), position, buf);
      Fill(buf, adv);
    }

    /**
      write(): the bytes land at the position and nothing else in the old array changes. The position
      lands where the bytes end, and the cursor stays in step, exactly if the advance is by size or the
      last fragment fills its node; otherwise the cursor is one node behind the position.
     */
    method Write(buf: seq<byte>, adv: Advance)
      requires Usable()
      modifies this`position, this`size, this`capacity, this`cur, this`nodes, this`blocks, this`bufs, Tail()`next, bufs
      ensures Chained() && position <= size <= capacity
      ensures old(nodes) <= nodes && fresh(bufs - old(bufs)) && (Tail() == old(Tail()) || fresh(Tail()))
      ensures var end := old(position) + |buf|;
              end <= capacity == if end <= old(capacity) then old(capacity) else RoundUp(end, baseSize)
      ensures Written(old(Flat()), Flat(), old(position), buf)
      ensures buf == [] ==> position == old(position) && size == old(size) && cur == old(cur) && nodes == old(nodes)
      ensures buf != [] ==>
                var end := old(position) + |buf|;
                && position == Landing(end, baseSize, adv)
                && size == (if position > old(size) then position else old(size))
                && cur == NodeAt(end)
    {
      if |buf| == 0 {
        return;
      }
      Place(buf, adv);
      LandingRoom(old(position) + |buf|, |nodes|, baseSize, adv);
      if position > size {
        size := position;
      }
    }

    /** What Write's landing means for the cursor. */
    lemma Landed(end: nat, adv: Advance)
      requires Chained() && position <= size <= capacity && end <= capacity
      requires position == Landing(end, baseSize, adv) && cur == NodeAt(end)
      ensures position == end <==> adv == BySize || end % baseSize == 0
      ensures Valid() <==> adv == BySize || end % baseSize == 0
      ensures Usable() <==> adv == BySize || end % baseSize == 0 || position == capacity
    {
      PositionArithmetic(end, baseSize);
      if adv == ByRoom && end % baseSize != 0 {
        PositionIs(end, baseSize);
        PositionUnique(NodeOf(end, baseSize) + 1, 0, baseSize);
        Placed(end, |nodes|, baseSize);
        Placed(position, |nodes|, baseSize);
      }
    }

    /** One fragment of read(): n bytes at offset off of the node c, number k, appended to out. */
    method CopyOut(c: Node, ghost k: nat, off: nat, n: nat, out: seq<byte>, ghost start: nat) returns (r: seq<byte>)
      requires Chained() && k < |nodes| && c == nodes[k] && off + n <= baseSize
      requires start + |out| == Span(k, baseSize) + off <= capacity && out == Flat()[start..start + |out|]
      ensures |r| == |out| + n && start + |r| <= capacity && r == Flat()[start..start + |r|]
    {
      FlattenLength(blocks, baseSize);
      FlattenPart(blocks, baseSize, k, off, n);
      var d := c.ptr[off..off + n];
      assert d == nodes[k].ptr[..][off..off + n];
      Joined(Flat(), start, start + |out|, start + |out| + n);
      r := out + d;
    }

    /** The last fragment of read(). */
    method DrainLast(ghost k: nat, npos: nat, n: nat, out: seq<byte>, ghost start: nat) returns (r: seq<byte>)
      requires Chained() && k < |nodes| && cur == nodes[k] && 0 < n && npos + n <= baseSize
      requires position == start + |out| == Span(k, baseSize) + npos <= capacity && out == Flat()[start..start + |out|]
      modifies this`position, this`cur
      ensures position == old(position) + n <= capacity && cur == NodeAt(position) && r == Flat()[start..position]
    {
      r := CopyOut(cur, k, npos, n, out, start);
      Pass(k, npos, n, n);
    }

    /** The loop of read(), for at least one byte. */
    method Drain(n: nat) returns (out: seq<byte>)
      requires Valid() && n > 0 && position + n <= capacity
      modifies this`position, this`cur
      ensures position == old(position) + n && cur == NodeAt(position)
      ensures out == Flat()[old(position)..position]
    {
      var npos := NodeOffset();
      ghost var k, start := NodeOf(position, baseSize), position;
      PositionIs(position, baseSize);
      Placed(position, |nodes|, baseSize);
      out := [];
      while n - |out| > baseSize - npos
        invariant 0 <= k < |nodes| && cur == nodes[k] && 0 <= npos < baseSize && |out| < n
        invariant position == start + |out| == Span(k, baseSize) + npos
        invariant out == Flat()[start..start + |out|]
        decreases n - |out|
      {
        out := CopyOut(cur, k, npos, baseSize - npos, out, start);
        position := position + (baseSize - npos);
        NextNode(k, |nodes|, baseSize, position, n - |out|);
        cur := cur.next;
        npos, k := 0, k + 1;
      }
      out := DrainLast(k, npos, n - |out|, out, start);
    }

    /** read(): the flat range at the position, or an exception, or the null cursor of a zero-byte read at capacity. */
    method Read(n: nat) returns (r: ReadResult)
      requires Valid()
      modifies this`position, this`cur
      ensures Valid()
      ensures r == if old(position) + n > size then OutOfRange
                   else if old(position) == capacity then NullCursor
                   else Data(Contents()[old(position)..old(position) + n])
      ensures position == old(position) + if r.Data? then n else 0
    {
      NullAtCapacity();
      if n > size - position {
        return OutOfRange;
      }
      if cur == null {
        return NullCursor;
      }
      if n == 0 {
        return Data([]);
      }
      var d := Drain(n);
      r := Data(d);
    }

    /** The loop of the positional read(), from node c, number k, on: it runs off the chain when the range does. */
    method DrainFrom(c: Node, ghost k: nat, off: nat, n: nat) returns (r: ReadResult)
      requires Chained() && k < |nodes| && c == nodes[k] && off < baseSize
      ensures var q := Span(k, baseSize) + off;
              r == if q + n <= capacity then Data(Flat()[q..q + n]) else NullCursor
    {
      ghost var start := Span(k, baseSize) + off;
      SpanMono(k, |nodes|, baseSize);
      var at: Node?, npos, out: seq<byte> := c, off, [];
      ghost var j := k;
      while n - |out| > baseSize - npos
        invariant 0 <= j < |nodes| && at == nodes[j] && 0 <= npos < baseSize && |out| <= n
        invariant start + |out| == Span(j, baseSize) + npos <= capacity && out == Flat()[start..start + |out|]
        decreases n - |out|
      {
        out := CopyOut(at, j, npos, baseSize - npos, out, start);
        NextIs(j);
        at := at.next;
        npos, j := 0, j + 1;
        if at == null {
          return NullCursor;
        }
        SpanMono(j, |nodes|, baseSize);
      }
      SpanMono(j, |nodes|, baseSize);
      out := CopyOut(at, j, npos, n - |out|, out, start);
      r := Data(out);
    }

    /** Where the positional read() starts: at the offset of the position passed in, in the cursor's node. */
    ghost function StartOf(at: nat): nat
      requires baseSize > 0
      reads this`position
    {
      Span(NodeOf(position, baseSize), baseSize) + OffsetIn(at, baseSize)
    }

    lemma StartOfIff(at: nat)
      requires baseSize > 0
      ensures StartOf(at) == at <==> NodeOf(at, baseSize) == NodeOf(position, baseSize)
    {
      PositionIs(at, baseSize);
      PositionUnique(NodeOf(position, baseSize), OffsetIn(at, baseSize), baseSize);
    }

    /**
      The positional read(): it starts in the cursor's node whatever position is passed. It reads the range
      at that position if and only if the position lies in the cursor's node. The test for enough bytes
      subtracts in uint64_t, so a position past the size passes it.
     */
    method ReadAt(n: nat, at: nat) returns (r: ReadResult)
      requires Valid() && size < WORD && at < WORD
      ensures var q := StartOf(at);
              r == if n > (if at <= size then size - at else size + WORD - at) then OutOfRange
                   else if position == capacity || q + n > capacity then NullCursor
                   else Data(Flat()[q..q + n])
      ensures StartOf(at) == at <==> at / baseSize == position / baseSize
    {
      NullAtCapacity();
      StartOfIff(at);
      PositionArithmetic(at, baseSize);
      PositionArithmetic(position, baseSize);
      Placed(position, |nodes|, baseSize);
      if n > if at <= size then size - at else size + WORD - at {
        return OutOfRange;
      }
      if cur == null {
        return NullCursor;
      }
      r := DrainFrom(cur, NodeOf(position, baseSize), at % baseSize, n);
    }

    /** The vectors are these stretches of the chain. */
    ghost predicate Denotes(vs: seq<IoVec>, sl: seq<Slice>)
      reads this`nodes
    {
      |vs| == |sl| && forall i | 0 <= i < |sl| ::
        sl[i].node < |nodes| && vs[i] == IoVec(nodes[sl[i].node], sl[i].off, sl[i].len)
    }

    lemma DenotesMore(vs: seq<IoVec>, sl: seq<Slice>, j: nat, off: nat, len: nat)
      requires Denotes(vs, sl) && j < |nodes|
      ensures Denotes(vs + [IoVec(nodes[j], off, len)], sl + [Slice(j, off, len)])
    {
    }

    /** The last stretch. */
    lemma CollectedAll(vs: seq<IoVec>, done: seq<Slice>, all: seq<Slice>, j: nat, off: nat, left: nat)
      requires Chained() && Denotes(vs, done) && j < |nodes| && off < baseSize && 0 < left <= baseSize - off
      requires all == done + Slices(j, off, left, baseSize)
      ensures Denotes(vs + [IoVec(nodes[j], off, left)], all) && Span(j, baseSize) + off + left <= capacity
    {
      SpanMono(j, |nodes|, baseSize);
      CollectLast(j, off, left, baseSize);
      DenotesMore(vs, done, j, off, left);
    }

    /**
      The loop shared by getWriteBuffers and the positional getReadBuffers, from node n, number k: the
      exact stretches, or a null dereference if they would leave the chain.
     */
    method Collect(n: Node?, ghost k: nat, npos: nat, len: nat) returns (r: BufferResult)
      requires Chained() && npos < baseSize && len > 0 && k <= |nodes|
      requires n == if k < |nodes| then nodes[k] else null
      ensures r.Buffers? <==> Span(k, baseSize) + npos + len <= capacity
      ensures r.Buffers? ==> Denotes(r.vecs, Slices(k, npos, len, baseSize))
    {
      var at, off, left := n, npos, len;
      ghost var j, done := k, [];
      var vs: seq<IoVec> := [];
      while at != null && left > baseSize - off
        invariant k <= j <= |nodes| && at == (if j < |nodes| then nodes[j] else null)
        invariant 0 <= off < baseSize && left > 0
        invariant Span(j, baseSize) + off + left == Span(k, baseSize) + npos + len
        invariant Slices(k, npos, len, baseSize) == done + Slices(j, off, left, baseSize) && Denotes(vs, done)
        decreases left
      {
        CollectMore(done, j, off, left, baseSize);
        DenotesMore(vs, done, j, off, baseSize - off);
        vs := vs + [IoVec(at, off, baseSize - off)];
        done := done + [Slice(j, off, baseSize - off)];
        left := left - (baseSize - off);
        NextIs(j);
        at := at.next;
        j, off := j + 1, 0;
      }
      if at == null {
        return NullNode;
      }
      CollectedAll(vs, done, Slices(k, npos, len, baseSize), j, off, left);
      r := Buffers(vs + [IoVec(at, off, left)]);
    }

    /** addCapacity adds to the end of the flat sequence only. */
    method Reserve(n: nat)
      requires Usable()
      modifies this`capacity, this`cur, this`nodes, this`blocks, this`bufs, Tail()`next
      ensures Usable() && position + n <= capacity && old(nodes) <= nodes && old(Flat()) <= Flat()
      ensures fresh(bufs - old(bufs)) && (Tail() == old(Tail()) || fresh(Tail()))
    {
      AddCapacity(n);
      FlattenPrefix(old(blocks), blocks);
    }

    /** The stretches of the next len bytes, which the chain has room for. */
    method CollectHere(len: nat) returns (r: BufferResult)
      requires Usable() && len > 0 && position + len <= capacity
      ensures r.Buffers? && Denotes(r.vecs, RangeSlices(position, len, baseSize))
    {
      PositionIs(position, baseSize);
      Placed(position, |nodes|, baseSize);
      var npos := NodeOffset();
      r := Collect(cur, NodeOf(position, baseSize), npos, len);
    }

    /** getWriteBuffers: exactly the flat range [position, position + len), with the room it needs added. */
    method GetWriteBuffers(len: nat) returns (r: BufferResult)
      requires Usable()
      modifies this`capacity, this`cur, this`nodes, this`blocks, this`bufs, Tail()`next
      ensures Usable() && position + len <= capacity && old(nodes) <= nodes && old(Flat()) <= Flat()
      ensures fresh(bufs - old(bufs)) && (Tail() == old(Tail()) || fresh(Tail()))
      ensures r.Buffers?
      ensures Denotes(r.vecs, RangeSlices(position, len, baseSize))
    {
      if len == 0 {
        PositionIs(position, baseSize);
        return Buffers([]);
      }
      Reserve(len);
      r := CollectHere(len);
    }

    /** A scattered recv has m bytes of data behind it, and the vectors left start at offset off of node k. */
    ghost predicate Receiving(vs: seq<IoVec>, data: seq<byte>, m: nat, k: nat, off: nat, len: nat, start: nat,
        was: seq<byte>)
      reads this`nodes, this`blocks, this`bufs, this`root, this`capacity, nodes, bufs
    {
      && Chained() && off < baseSize && m <= |data| <= m + len && Denotes(vs, Slices(k, off, len, baseSize))
      && |was| == capacity && start + |data| <= |was| && start + m == Span(k, baseSize) + off
      && Flatten(blocks) == Splice(was, start, data[..m])
    }

    /** The part that goes into the first vector. */
    method ReceiveFirst(vs: seq<IoVec>, data: seq<byte>, m: nat, ghost k: nat, ghost off: nat, ghost len: nat,
                        ghost start: nat, ghost was: seq<byte>) returns (n: nat)
      requires Receiving(vs, data, m, k, off, len, start, was) && m < |data|
      modifies this`blocks, bufs
      ensures Chained() && 0 < n && m + n <= |data| && Flatten(blocks) == Splice(was, start, data[..m + n])
      ensures m + n < |data| ==> Receiving(vs[1..], data, m + n, k + 1, 0, len - n, start, was)
    {
      ghost var sl := Slices(k, off, len, baseSize);
      assert sl[0].node == k;
      var v := vs[0];
      n := if |data| - m <= v.len then |data| - m else v.len;
      CopyMath(blocks, baseSize, k, off, data, m, n, start, was);
      CopyIn(v.node, k, v.off, data[m..m + n]);
      if m + n < |data| {
        assert sl[1..] == Slices(k + 1, 0, len - n, baseSize);
      }
    }

    /** What a scattered recv of the rest of data into the vectors does. */
    method Receive(vs: seq<IoVec>, data: seq<byte>, m: nat, ghost k: nat, ghost off: nat, ghost len: nat,
                   ghost start: nat, ghost was: seq<byte>)
      requires Receiving(vs, data, m, k, off, len, start, was)
      modifies this`blocks, bufs
      ensures Chained() && Flatten(blocks) == Splice(was, start, data)
      decreases |data| - m
    {
      assert data[..|data|] == data;
      if m < |data| {
        var n := ReceiveFirst(vs, data, m, k, off, len, start, was);
        if m + n < |data| {
          Receive(vs[1..], data, m + n, k + 1, 0, len - n, start, was);
        }
      }
    }

    /** The recv itself, into vectors that denote the range at the position. */
    method Scatter(vs: seq<IoVec>, len: nat, incoming: seq<byte>)
      requires Usable() && |incoming| <= len && position + len <= capacity
      requires Denotes(vs, RangeSlices(position, len, baseSize))
      modifies this`blocks, bufs
      ensures Usable() && Flat() == Splice(old(Flat()), position, incoming)
    {
      PositionIs(position, baseSize);
      assert Flat() == Splice(Flat(), position, incoming[..0]);
      Receive(vs, incoming, 0, NodeOf(position, baseSize), OffsetIn(position, baseSize), len, position, Flat());
    }

    /**
      SocketStream::read into a ByteArray: scatter buffers, a recv that fills a prefix of them, and the
      move of the position. It never throws, and is an overwrite or append of the received bytes.
     */
    method SocketRead(len: nat, incoming: seq<byte>)
      requires Usable() && |incoming| <= len
      modifies this`position, this`size, this`capacity, this`cur, this`nodes, this`blocks, this`bufs, Tail()`next, bufs
      ensures Usable() && position == old(position) + |incoming|
      ensures size == if position > old(size) then position else old(size)
      ensures incoming != [] ==> Valid()
      ensures Written(old(Flat()), Flat(), old(position), incoming)
    {
      ghost var was := Flat();
      var r := GetWriteBuffers(len);
      SpliceWrites(was, Flat(), position, incoming);
      Scatter(r.vecs, len, incoming);
      if |incoming| > 0 {
        var ok := SetPosition(position + |incoming|);
      }
    }

    /** Node number count, or null if the chain ends before it. */
    method Walk(count: nat) returns (n: Node?)
      requires Chained()
      ensures n == if count < |nodes| then nodes[count] else null
    {
      n := root;
      var left := count;
      ghost var k := 0;
      while left > 0 && n != null
        invariant 0 <= k <= |nodes| && k + left == count
        invariant n == if k < |nodes| then nodes[k] else null
        decreases left
      {
        n := n.next;
        left, k := left - 1, k + 1;
      }
    }

    /**
      The positional getReadBuffers: it clamps the length by what is readable at m_position, and then
      gives exactly the flat range at the position passed in, or runs off the chain.
     */
    method GetReadBuffersAt(len: nat, at: nat) returns (r: BufferResult, n: nat)
      requires Usable()
      ensures n == if len > size - position then size - position else len
      ensures r.Buffers? <==> n == 0 || at + n <= capacity
      ensures r.Buffers? ==> Denotes(r.vecs, RangeSlices(at, n, baseSize))
    {
      n := if len > size - position then size - position else len;
      if n == 0 {
        return Buffers([]), 0;
      }
      PositionArithmetic(at, baseSize);
      PositionIs(at, baseSize);
      var first := Walk(at / baseSize);
      if first == null {
        SpanMono(|nodes|, NodeOf(at, baseSize), baseSize);
        return NullNode, n;
      }
      r := Collect(first, NodeOf(at, baseSize), at % baseSize, n);
    }

    /** What vectors that denote a flat range hold: exactly that range. */
    lemma VectorsExact(vs: seq<IoVec>, at: nat, n: nat)
      requires Chained() && at + n <= capacity && Denotes(vs, RangeSlices(at, n, baseSize))
      ensures Uniform(blocks, baseSize) && Inside(RangeSlices(at, n, baseSize), |blocks|, baseSize)
      ensures Gather(blocks, baseSize, RangeSlices(at, n, baseSize)) == Flat()[at..at + n]
    {
      PositionIs(at, baseSize);
      FlattenLength(blocks, baseSize);
      SlicesInside(NodeOf(at, baseSize), OffsetIn(at, baseSize), n, baseSize, |blocks|);
      GatherExact(blocks, baseSize, NodeOf(at, baseSize), OffsetIn(at, baseSize), n);
    }

    /** The vectors collected so far make up the range up to node j, offset off; left bytes of it are missing. */
    ghost predicate Collecting(vs: seq<IoVec>, done: seq<Slice>, n: nat, j: nat, off: nat, left: nat)
      reads this`nodes, this`position
    {
      && baseSize > 0 && off < baseSize && Denotes(vs, done)
      && Span(j, baseSize) + off + left == position + n
      && RangeSlices(position, n, baseSize) == done + Slices(j, off, left, baseSize)
    }

    lemma CollectStart(n: nat)
      requires baseSize > 0
      ensures Collecting([], [], n, NodeOf(position, baseSize), OffsetIn(position, baseSize), n)
    {
      PositionIs(position, baseSize);
      assert [] + RangeSlices(position, n, baseSize) == RangeSlices(position, n, baseSize);
    }

    lemma CollectNode(vs: seq<IoVec>, done: seq<Slice>, n: nat, j: nat, off: nat, left: nat)
      requires Collecting(vs, done, n, j, off, left) && j < |nodes| && left >= baseSize - off
      ensures Collecting(vs + [IoVec(nodes[j], off, baseSize - off)], done + [Slice(j, off, baseSize - off)],
                         n, j + 1, 0, left - (baseSize - off))
    {
      CollectStep(j, off, left, baseSize);
      var s, rest := [Slice(j, off, baseSize - off)], Slices(j + 1, 0, left - (baseSize - off), baseSize);
      assert done + (s + rest) == (done + s) + rest;
    }

    lemma CollectDone(vs: seq<IoVec>, done: seq<Slice>, n: nat, j: nat)
      requires Chained() && j < |nodes| && Collecting(vs, done, n, j, 0, 0)
      ensures Denotes(vs, RangeSlices(position, n, baseSize))
      ensures OffsetIn(position + n, baseSize) == 0 && position + n < capacity
    {
      SpanMono(j, |nodes|, baseSize);
      PositionUnique(j, 0, baseSize);
      assert done + [] == done;
    }

    /** The turns of its loop once the remaining length has wrapped around: it never gets back to zero. */
    method RunOff(from: Node, ghost k: nat, wrapped: nat) returns (r: BufferResult)
      requires Chained() && k < |nodes| && from == nodes[k] && wrapped + Span(k, baseSize) > capacity
      ensures r.NullNode?
    {
      var at: Node?, left := from, wrapped;
      ghost var j := k;
      while left > 0
        invariant k <= j < |nodes| && at == nodes[j] && left + Span(j, baseSize) > capacity
        decreases |nodes| - j
      {
        SpanMono(j, |nodes|, baseSize);
        left := left - baseSize;
        at := at.next;
        j := j + 1;
        if at == null {
          return NullNode;
        }
      }
      SpanMono(j, |nodes|, baseSize);
      assert false;
    }

    /** The turn in which less is left than the node's room. */
    method WrapAround(at: Node, ghost k: nat, off: nat, left: nat) returns (r: BufferResult)
      requires Chained() && k < |nodes| && at == nodes[k] && off + left < baseSize && capacity < WORD
      ensures r.NullNode?
    {
      NextIs(k);
      var next := at.next;
      if next == null {
        return NullNode;
      }
      r := RunOff(next, k + 1, left + WORD - (baseSize - off));
    }

    /** Its loop when the length exceeds a node: the room never reaches it, so every turn takes a whole node. */
    method CollectWhole(n: nat, ghost k: nat, npos: nat) returns (r: BufferResult)
      requires Chained() && baseSize < n && position + n <= capacity < WORD
      requires k < |nodes| && cur == nodes[k] && Collecting([], [], n, k, npos, n)
      ensures r.Buffers? <==> OffsetIn(position + n, baseSize) == 0 && position + n < capacity
      ensures r.Buffers? ==> Denotes(r.vecs, RangeSlices(position, n, baseSize))
    {
      var vs: seq<IoVec>, at, off, left := [], cur, npos, n;
      ghost var j, done := k, [];
      while left >= baseSize - off
        invariant 0 <= j < |nodes| && at == nodes[j] && left > 0 && off >= 0 && Collecting(vs, done, n, j, off, left)
        decreases |nodes| - j
      {
        CollectNode(vs, done, n, j, off, left);
        done := done + [Slice(j, off, baseSize - off)];
        vs := vs + [IoVec(at, off, baseSize - off)];
        left := left - (baseSize - off);
        NextIs(j);
        at := at.next;
        j, off := j + 1, 0;
        if at == null {
          return NullNode;
        }
        if left == 0 {
          CollectDone(vs, done, n, j);
          return Buffers(vs);
        }
      }
      PositionUnique(j, off + left, baseSize);
      r := WrapAround(at, j, off, left);
    }

    method CollectRange(n: nat) returns (r: BufferResult)
      requires Valid() && capacity < WORD && 0 < n && position + n <= size
      ensures r.Buffers? <==> n <= baseSize || (OffsetIn(position + n, baseSize) == 0 && position + n < capacity)
      ensures r.Buffers? ==> Denotes(r.vecs, RangeSlices(position, n, baseSize))
    {
      PositionIs(position, baseSize);
      Placed(position, |nodes|, baseSize);
      var npos := NodeOffset();
      if n > baseSize {
        CollectStart(n);
        r := CollectWhole(n, NodeOf(position, baseSize), npos);
      } else {
        r := Collect(cur, NodeOf(position, baseSize), npos, n);
      }
    }

    /**
      The two-argument getReadBuffers compares the room in a node with the whole length, not with what
      is left of it, and subtracts in uint64_t. It gives exactly the flat range at the position if and
      only if the length fits a node, or the range ends on a node boundary before the end of the chain;
      otherwise it walks off the chain. (For a length that fits a node, both comparisons agree.)
     */
    method GetReadBuffers(len: nat) returns (r: BufferResult, n: nat)
      requires Valid() && capacity < WORD
      ensures n == if len > size - position then size - position else len
      ensures r.Buffers? <==> n <= baseSize || ((position + n) % baseSize == 0 && position + n < capacity)
      ensures r.Buffers? ==> Denotes(r.vecs, RangeSlices(position, n, baseSize))
    {
      n := if len > size - position then size - position else len;
      PositionArithmetic(position + n, baseSize);
      if n == 0 {
        return Buffers([]), 0;
      }
      r := CollectRange(n);
    }
  }
}
