/** The packing loop while another thread pushes: what arrives between its peeks and pops is neither lost nor reordered. */
module PackingRuns {
  import opened Options
  import opened Ring
  import opened RingRuns
  import opened CellPacking

  // ---------- What a run takes in and gives out ----------

  /** The packets held after a run, those it accepted, and those it delivered. */
  datatype Effect = Effect(held: seq<packet>, accepted: seq<packet>, delivered: seq<packet>)

  function Taken(op: Op, out: Outcome): seq<packet> {
    if op.DoPush? && out == Pushed(true) then [op.p] else []
  }

  function Given(out: Outcome): seq<packet> {
    if out.Popped? then [out.p] else []
  }

  function EffectOf(capacity: nat, q: seq<packet>, ops: seq<Op>): Effect
    decreases |ops|
  {
    if ops == [] then Effect(q, [], [])
    else
      var (q', out) := FifoStep(capacity, q, ops[0]);
      var rest := EffectOf(capacity, q', ops[1..]);
      Effect(rest.held, Taken(ops[0], out) + rest.accepted, Given(out) + rest.delivered)
  }

  function Delivered(outs: seq<Outcome>): seq<packet> {
    if outs == [] then [] else Given(outs[0]) + Delivered(outs[1..])
  }

  lemma {:induction false} EffectOfRun(capacity: nat, q: seq<packet>, ops: seq<Op>)
    ensures var e, run := EffectOf(capacity, q, ops), FifoRun(capacity, q, ops);
            e.held == run.0 && e.delivered == Delivered(run.1)
    decreases |ops|
  {
    hide FifoStep;
    if ops != [] {
      var (q', out) := FifoStep(capacity, q, ops[0]);
      EffectOfRun(capacity, q', ops[1..]);
      var outs := FifoRun(capacity, q, ops).1;
      assert outs[0] == out && outs[1..] == FifoRun(capacity, q', ops[1..]).1;
    }
  }

  predicate NoReset(ops: seq<Op>) {
    forall k | 0 <= k < |ops| :: !ops[k].DoReset?
  }

  /** In every run, whatever its order: held before and accepted = delivered and held after. */
  lemma {:induction false} Conserved(capacity: nat, q: seq<packet>, ops: seq<Op>)
    requires NoReset(ops)
    ensures var e := EffectOf(capacity, q, ops); q + e.accepted == e.delivered + e.held
    decreases |ops|
  {
    if ops != [] {
      var (q', out) := FifoStep(capacity, q, ops[0]);
      var rest := EffectOf(capacity, q', ops[1..]);
      Conserved(capacity, q', ops[1..]);
      StepConserved(capacity, q, ops[0], rest);
    }
  }

  lemma StepConserved(capacity: nat, q: seq<packet>, op: Op, rest: Effect)
    requires !op.DoReset? && FifoStep(capacity, q, op).0 + rest.accepted == rest.delivered + rest.held
    ensures var out := FifoStep(capacity, q, op).1;
            q + (Taken(op, out) + rest.accepted) == (Given(out) + rest.delivered) + rest.held
  {
    var (q', out) := FifoStep(capacity, q, op);
    assert [] + rest.accepted == rest.accepted && [] + rest.delivered == rest.delivered;
    if out.Popped? {
      assert q == [out.p] + q';
      Grouped([out.p], q', rest.accepted);
      Grouped([out.p], rest.delivered, rest.held);
    } else if op.DoPush? && out == Pushed(true) {
      Grouped(q, [op.p], rest.accepted);
    }
  }

  lemma Grouped(a: seq<packet>, b: seq<packet>, c: seq<packet>)
    ensures (a + b) + c == a + (b + c)
  {
  }

  lemma EffectStep(capacity: nat, q: seq<packet>, op: Op, ops: seq<Op>)
    ensures var (q', out) := FifoStep(capacity, q, op);
            var rest := EffectOf(capacity, q', ops);
            EffectOf(capacity, q, [op] + ops)
            == Effect(rest.held, Taken(op, out) + rest.accepted, Given(out) + rest.delivered)
  {
    hide FifoStep, Taken, Given;
    assert ([op] + ops)[1..] == ops;
  }

  lemma {:induction false} EffectConcat(capacity: nat, q: seq<packet>, a: seq<Op>, b: seq<Op>)
    ensures var e := EffectOf(capacity, q, a);
            var f := EffectOf(capacity, e.held, b);
            EffectOf(capacity, q, a + b) == Effect(f.held, e.accepted + f.accepted, e.delivered + f.delivered)
    decreases |a|
  {
    hide *;
    if a == [] {
      NoEffect(capacity, q);
      assert a + b == b;
      var f := EffectOf(capacity, q, b);
      assert [] + f.accepted == f.accepted && [] + f.delivered == f.delivered;
    } else {
      var op, rest := a[0], a[1..];
      assert a == [op] + rest && a + b == [op] + (rest + b);
      var (q', out) := FifoStep(capacity, q, op);
      EffectStep(capacity, q, op, rest);
      EffectStep(capacity, q, op, rest + b);
      EffectConcat(capacity, q', rest, b);
      var e := EffectOf(capacity, q', rest);
      var f := EffectOf(capacity, e.held, b);
      Grouped(Taken(op, out), e.accepted, f.accepted);
      Grouped(Given(out), e.delivered, f.delivered);
    }
  }

  lemma NoEffect(capacity: nat, q: seq<packet>)
    ensures EffectOf(capacity, q, []) == Effect(q, [], [])
  {
  }

  // ---------- The loop, with what arrives meanwhile ----------

  /** What the receiving thread pushes between a peek and its pop, and then before the next peek. */
  datatype Arrivals = Arrivals(between: seq<packet>, after: seq<packet>)

  function Pushes(ps: seq<packet>): (ops: seq<Op>)
    ensures |ops| == |ps| && OnlyPushes(ops)
  {
    seq(|ps|, i requires 0 <= i < |ps| => DoPush(ps[i]))
  }

  /** What the loop packs, what it leaves, where it stops writing, and all operations on the queue in their order. */
  datatype Packing = Packing(packed: seq<packet>, left: seq<packet>, pos: nat, ops: seq<Op>)

  /** The loop of `PackCompleteMsgPack`: it goes on while the packet that the peek announces fits. */
  function Pack(capacity: nat, q: seq<packet>, pos: nat, limit: int, arrivals: seq<Arrivals>): Packing
    decreases limit - pos
  {
    if q == [] || pos + FRAME_HEAD_SIZE + |q[0]| > limit then Packing([], q, pos, [DoPeek])
    else
      var now := if arrivals == [] then Arrivals([], []) else arrivals[0];
      var later := if arrivals == [] then [] else arrivals[1..];
      var first := [DoPeek] + Pushes(now.between);
      var second := [DoPop] + Pushes(now.after);
      var held := EffectOf(capacity, EffectOf(capacity, q, first).held, second).held;
      var rest := Pack(capacity, held, pos + FRAME_HEAD_SIZE + |q[0]|, limit, later);
      Packing([q[0]] + rest.packed, rest.left, rest.pos, (first + second) + rest.ops)
  }

  lemma {:induction false} PushesDeliverNothing(capacity: nat, q: seq<packet>, ops: seq<Op>)
    requires OnlyPushes(ops)
    ensures EffectOf(capacity, q, ops).delivered == []
    decreases |ops|
  {
    if ops != [] {
      PushesDeliverNothing(capacity, FifoStep(capacity, q, ops[0]).0, ops[1..]);
    }
  }

  /** A peek and some pushes leave the oldest packet in front. */
  lemma PeekRound(capacity: nat, q: seq<packet>, ps: seq<packet>)
    ensures var e := EffectOf(capacity, q, [DoPeek] + Pushes(ps)); e.delivered == [] && e.held == q + e.accepted
    ensures NoReset([DoPeek] + Pushes(ps))
  {
    var ops := [DoPeek] + Pushes(ps);
    assert ops[1..] == Pushes(ps);
    PushesDeliverNothing(capacity, q, Pushes(ps));
    Conserved(capacity, q, ops);
  }

  lemma PopRound(capacity: nat, q: seq<packet>, ps: seq<packet>)
    requires q != []
    ensures EffectOf(capacity, q, [DoPop] + Pushes(ps)).delivered == [q[0]]
    ensures NoReset([DoPop] + Pushes(ps))
  {
    var ops := [DoPop] + Pushes(ps);
    assert ops[1..] == Pushes(ps);
    PushesDeliverNothing(capacity, q[1..], Pushes(ps));
  }

  /** The operations of the loop deliver what it packs and hold what it leaves. */
  lemma {:induction false} PackEffect(capacity: nat, q: seq<packet>, pos: nat, limit: int, arrivals: seq<Arrivals>)
    ensures var r := Pack(capacity, q, pos, limit, arrivals);
            && EffectOf(capacity, q, r.ops).delivered == r.packed && EffectOf(capacity, q, r.ops).held == r.left
            && NoReset(r.ops)
    decreases limit - pos
  {
    hide EffectOf, Pushes;
    if q == [] || pos + FRAME_HEAD_SIZE + |q[0]| > limit {
      OnePeek(capacity, q);
    } else {
      var now := if arrivals == [] then Arrivals([], []) else arrivals[0];
      var later := if arrivals == [] then [] else arrivals[1..];
      var first, second := [DoPeek] + Pushes(now.between), [DoPop] + Pushes(now.after);
      PeekRound(capacity, q, now.between);
      var q1 := EffectOf(capacity, q, first).held;
      PopRound(capacity, q1, now.after);
      EffectConcat(capacity, q, first, second);
      var held := EffectOf(capacity, q1, second).held;
      PackEffect(capacity, held, pos + FRAME_HEAD_SIZE + |q[0]|, limit, later);
      EffectConcat(capacity, q, first + second, Pack(capacity, held, pos + FRAME_HEAD_SIZE + |q[0]|, limit, later).ops);
    }
  }

  lemma OnePeek(capacity: nat, q: seq<packet>)
    ensures EffectOf(capacity, q, [DoPeek]) == Effect(q, [], [])
  {
    assert [DoPeek][1..] == [];
  }

  /** The frames fill the cell from where it started, up to the limit, and the loop stops only when it must. */
  lemma {:induction false} PackGreedy(capacity: nat, q: seq<packet>, pos: nat, limit: int, arrivals: seq<Arrivals>)
    ensures var r := Pack(capacity, q, pos, limit, arrivals);
            && r.pos == pos + Size(r.packed) && (r.packed != [] ==> r.pos <= limit)
            && (r.left == [] || r.pos + FRAME_HEAD_SIZE + |r.left[0]| > limit)
    decreases limit - pos
  {
    hide EffectOf, Pushes;
    if q != [] && pos + FRAME_HEAD_SIZE + |q[0]| <= limit {
      var now := if arrivals == [] then Arrivals([], []) else arrivals[0];
      var later := if arrivals == [] then [] else arrivals[1..];
      var first, second := [DoPeek] + Pushes(now.between), [DoPop] + Pushes(now.after);
      var held := EffectOf(capacity, EffectOf(capacity, q, first).held, second).held;
      PackGreedy(capacity, held, pos + FRAME_HEAD_SIZE + |q[0]|, limit, later);
      var rest := Pack(capacity, held, pos + FRAME_HEAD_SIZE + |q[0]|, limit, later);
      assert ([q[0]] + rest.packed)[1..] == rest.packed;
    }
  }

  /**
   * On the bytes of the ring, whatever the receiving thread pushes between the loop's operations: the pops deliver
   * exactly the packets packed, and the packets before and those accepted meanwhile are the packets packed and those
   * the ring holds afterwards, in order.
   */
  lemma PackingConserves(r: Ring, q: seq<packet>, layout: Layout, pos: nat, limit: int, arrivals: seq<Arrivals>)
    returns (last: Layout)
    requires Holds(r, q, layout) && SafeRun(r, Pack(|r.buf|, q, pos, limit, arrivals).ops)
    ensures var p := Pack(|r.buf|, q, pos, limit, arrivals);
            && Run(r, p.ops).Some? && Delivered(Run(r, p.ops).value.1) == p.packed
            && Holds(Run(r, p.ops).value.0, p.left, last)
            && q + EffectOf(|r.buf|, q, p.ops).accepted == p.packed + p.left
  {
    hide Holds, SafeRun, Run, FifoRun, EffectOf, Pack, Delivered;
    var p := Pack(|r.buf|, q, pos, limit, arrivals);
    last := SafeRunsRefine(r, q, layout, p.ops);
    PackEffect(|r.buf|, q, pos, limit, arrivals);
    EffectOfRun(|r.buf|, q, p.ops);
    Conserved(|r.buf|, q, p.ops);
  }

  /** When nothing arrives, this is what the method does: a longest run of packets that fits. */
  lemma {:induction false} PackAlone(capacity: nat, q: seq<packet>, pos: nat, limit: int, count: nat)
    requires count <= |q| && (count > 0 ==> pos + Size(q[..count]) <= limit)
    requires count == |q| || pos + Size(q[..count]) + FRAME_HEAD_SIZE + |q[count]| > limit
    ensures var r := Pack(capacity, q, pos, limit, []); r.packed == q[..count] && r.left == q[count..]
    decreases |q|
  {
    hide EffectOf, Pushes, Size;
    assert Size([]) == 0 by { NothingHasNoSize(); }
    if count > 0 {
      SizeTail(q[..count]);
      assert q[..count][1..] == q[1..][..count - 1];
      PackAlone(capacity, q[1..], pos + FRAME_HEAD_SIZE + |q[0]|, limit, count - 1);
      QuietRound(capacity, q);
      assert q[..count] == [q[0]] + q[1..][..count - 1];
    } else {
      assert q[..0] == [];
    }
  }

  lemma NothingHasNoSize()
    ensures Size([]) == 0
  {
  }

  lemma QuietRound(capacity: nat, q: seq<packet>)
    requires q != []
    ensures EffectOf(capacity, EffectOf(capacity, q, [DoPeek] + Pushes([])).held, [DoPop] + Pushes([])).held == q[1..]
  {
    assert [DoPeek] + Pushes([]) == [DoPeek] && [DoPop] + Pushes([]) == [DoPop];
    OnePeek(capacity, q);
    assert [DoPop][1..] == [];
  }
}
