/**
  ByteArray as its callers see it: one flat byte sequence with a position and a size. Every run of
  write, read, setPosition and clear on the node chain is a run of this flat machine, for every base size.
 */
module FlatArray {
  import opened Common
  import opened Blocks
  import opened ByteArrayModel

  /** room is the flat sequence up to the capacity; its bytes from size on are not initialised. */
  datatype Flat = Flat(room: seq<byte>, size: nat, pos: nat)

  datatype Op = Write(buf: seq<byte>) | Read(n: nat) | SetPosition(v: nat) | Clear

  datatype Out = Done | Thrown | Got(bytes: seq<byte>) | Null

  /** One call on the flat machine. Only the capacity, and a read of nothing right at its end, show the base size b. */
  ghost predicate FlatStep(s: Flat, op: Op, t: Flat, out: Out, b: nat)
    requires b > 0 && s.pos <= s.size <= |s.room|
  {
    match op
    case Write(buf) =>
      var end := s.pos + |buf|;
      && out == Done && t.pos == end && t.size == Max(s.size, end) && Written(s.room, t.room, s.pos, buf)
      && |t.room| == if end <= |s.room| then |s.room| else RoundUp(end, b)
    case Read(n) =>
      if s.pos + n > s.size then out == Thrown && t == s
      else if s.pos == |s.room| then out == Null && t == s
      else out == Got(s.room[s.pos..s.pos + n]) && t == s.(pos := s.pos + n)
    case SetPosition(v) =>
      if v > |s.room| then out == Thrown && t == s
      else out == Done && t == s.(pos := v, size := Max(s.size, v))
    case Clear => out == Done && t.pos == t.size == 0 && |t.room| == b
  }

  ghost function View(a: ByteArray): Flat
    requires a.Usable()
    reads a, a.nodes, a.bufs
  {
    Flat(a.Flat(), a.size, a.position)
  }

  /** The advance of write() lands exactly. */
  predicate LandsExactly(op: Op, pos: nat, b: nat, adv: Advance)
    requires b > 0
  {
    adv == BySize || !op.Write? || op.buf == [] || (pos + |op.buf|) % b == 0
  }

  method StepWrite(a: ByteArray, buf: seq<byte>, adv: Advance)
    requires a.Valid() && LandsExactly(Write(buf), a.position, a.baseSize, adv)
    modifies a`position, a`size, a`capacity, a`cur, a`nodes, a`blocks, a`bufs, a.Tail()`next, a.bufs
    ensures a.Valid() && FlatStep(old(View(a)), Write(buf), View(a), Done, a.baseSize)
    ensures fresh(a.bufs - old(a.bufs)) && (a.Tail() == old(a.Tail()) || fresh(a.Tail()))
    ensures old(a.nodes) <= a.nodes
  {
    ghost var end := a.position + |buf|;
    a.Write(buf, adv);
    if buf != [] {
      a.Landed(end, adv);
    }
  }

  method StepRead(a: ByteArray, n: nat) returns (out: Out)
    requires a.Valid()
    modifies a`position, a`cur
    ensures a.Valid() && FlatStep(old(View(a)), Read(n), View(a), out, a.baseSize)
  {
    var d := a.Read(n);
    out := match d case Data(bytes) => Got(bytes) case OutOfRange => Thrown case NullCursor => Null;
  }

  /** One call on the node chain is one call on the flat machine. */
  method Step(a: ByteArray, op: Op, adv: Advance) returns (out: Out)
    requires a.Valid() && LandsExactly(op, a.position, a.baseSize, adv)
    modifies a, a.root, a.Tail(), a.bufs
    ensures a.Valid() && FlatStep(old(View(a)), op, View(a), out, a.baseSize)
    ensures fresh(a.bufs - old(a.bufs)) && a.root == old(a.root)
    ensures a.Tail() == old(a.Tail()) || a.Tail() == a.root || fresh(a.Tail())
  {
    out := Done;
    match op {
      case Write(buf) => StepWrite(a, buf, adv);
      case Read(n) => out := StepRead(a, n);
      case SetPosition(v) =>
        var ok := a.SetPosition(v);
        out := if ok then Done else Thrown;
      case Clear => a.Clear();
    }
  }

  /** A run of the flat machine from s to t. */
  ghost predicate FlatRun(s: Flat, ops: seq<Op>, t: Flat, outs: seq<Out>, b: nat)
    requires b > 0
    decreases |ops|
  {
    && |ops| == |outs|
    && if ops == [] then t == s
       else
         && s.pos <= s.size <= |s.room|
         && exists m :: FlatStep(s, ops[0], m, outs[0], b) && FlatRun(m, ops[1..], t, outs[1..], b)
  }

  lemma FlatMore(s: Flat, op: Op, m: Flat, out: Out, ops: seq<Op>, t: Flat, outs: seq<Out>, b: nat)
    requires b > 0 && s.pos <= s.size <= |s.room| && FlatStep(s, op, m, out, b) && FlatRun(m, ops, t, outs, b)
    ensures FlatRun(s, [op] + ops, t, [out] + outs, b)
  {
    assert ([op] + ops)[1..] == ops && ([out] + outs)[1..] == outs;
  }

  /**
    Every run on the node chain, for as long as each write lands exactly, gives the flat machine's results;
    with the advance by size that is every run there is.
   */
  method Run(a: ByteArray, ops: seq<Op>, adv: Advance) returns (outs: seq<Out>)
    requires a.Valid()
    modifies a, a.root, a.Tail(), a.bufs
    ensures |outs| <= |ops| && a.Valid() && FlatRun(old(View(a)), ops[..|outs|], View(a), outs, a.baseSize)
    ensures |outs| < |ops| ==> !LandsExactly(ops[|outs|], a.position, a.baseSize, adv)
    decreases |ops|
  {
    if ops == [] || !LandsExactly(ops[0], a.position, a.baseSize, adv) {
      return [];
    }
    ghost var s := View(a);
    var out := Step(a, ops[0], adv);
    ghost var m := View(a);
    var rest := Run(a, ops[1..], adv);
    FlatMore(s, ops[0], m, out, ops[1..][..|rest|], View(a), rest, a.baseSize);
    outs := [out] + rest;
    assert ops[..|outs|] == [ops[0]] + ops[1..][..|rest|];
  }
}
