/** Whole runs of the ring against the bounded first-in first-out queue it is meant to be. */
module RingRuns {
  import opened Bytes
  import opened Options
  import opened Ring

  datatype Op = DoPush(p: packet) | DoPop | DoPeek | DoReset

  /** `Blocked` is a pop that finds the queue empty: the caller waits, and the ring does not change. */
  datatype Outcome = Pushed(accepted: bool) | Popped(p: packet) | Blocked | Peeked(len: nat) | Cleared

  // ---------- The program ----------

  /** One operation on the bytes; None when the program reads or writes outside the buffer. */
  function Step(r: Ring, op: Op): Option<(Ring, Outcome)> {
    match op
    case DoPush(p) =>
      if !Accepts(r, |p|) then Some((r, Pushed(false)))
      else if InBounds(r) && |p| < MAX_PACK_SIZE then Some((Push(r, p), Pushed(true)))
      else None
    case DoPop =>
      if r.rb >= r.wb then Some((r, Blocked))
      else if Readable(r) then Some((Pop(r).0, Popped(Pop(r).1)))
      else None
    case DoPeek =>
      if r.rb >= r.wb then Some((r, Peeked(0)))
      else if |r.buf| >= HEADER then Some((Peek(r).0, Peeked(Peek(r).1)))
      else None
    case DoReset => Some((Ring(r.buf, 0, 0, 0, 0), Cleared))
  }

  function Run(r: Ring, ops: seq<Op>): Option<(Ring, seq<Outcome>)>
    decreases |ops|
  {
    if ops == [] then Some((r, []))
    else match Step(r, ops[0])
      case None => None
      case Some((r', out)) =>
        match Run(r', ops[1..])
        case None => None
        case Some((end, outs)) => Some((end, [out] + outs))
  }

  // ---------- The queue it should be ----------

  /** A queue of packets that refuses a push by the room its packets take, and by nothing else. */
  function FifoStep(capacity: nat, q: seq<packet>, op: Op): (seq<packet>, Outcome) {
    match op
    case DoPush(p) =>
      if Size(q) + 2 * |p| + 2 <= capacity then (q + [p], Pushed(true)) else (q, Pushed(false))
    case DoPop => if q == [] then (q, Blocked) else (q[1..], Popped(q[0]))
    case DoPeek => (q, Peeked(if q == [] then 0 else |q[0]|))
    case DoReset => ([], Cleared)
  }

  function FifoRun(capacity: nat, q: seq<packet>, ops: seq<Op>): (seq<packet>, seq<Outcome>)
    decreases |ops|
  {
    if ops == [] then (q, [])
    else
      var (q', out) := FifoStep(capacity, q, ops[0]);
      var (end, outs) := FifoRun(capacity, q', ops[1..]);
      (end, [out] + outs)
  }

  // ---------- One step ----------

  predicate SafeOp(r: Ring, op: Op) {
    op.DoPush? ==> 1 <= |op.p| < MAX_PACK_SIZE && (Accepts(r, |op.p|) ==> Safe(r, |op.p|))
  }

  function NextLayout(r: Ring, q: seq<packet>, layout: Layout, op: Op): Layout {
    match op
    case DoPush(p) => if Accepts(r, |p|) then PushLayout(r, q, layout, |p|) else layout
    case DoPop => if q == [] then layout else PopLayout(layout)
    case DoPeek => if q == [] then layout else PeekLayout(layout)
    case DoReset => Straight
  }

  /** Every operation but an unsafe push does to the bytes what the queue does to its packets. */
  lemma StepRefines(r: Ring, q: seq<packet>, layout: Layout, op: Op)
    requires Holds(r, q, layout) && SafeOp(r, op)
    ensures var (q', out) := FifoStep(|r.buf|, q, op);
            && Step(r, op).Some? && Step(r, op).value.1 == out
            && Holds(Step(r, op).value.0, q', NextLayout(r, q, layout, op))
            && |Step(r, op).value.0.buf| == |r.buf|
  {
    hide Holds, Push, Pop, Peek, Safe, Readable;
    HoldsInBounds(r, q, layout);
    HoldsSize(r, q, layout);
    match op
    case DoPush(p) =>
      if Accepts(r, |p|) {
        PushAppends(r, q, layout, p);
      }
    case DoPop =>
      if q != [] {
        PopTakesOldest(r, q, layout);
        PopKeepsBuffer(r);
      }
    case DoPeek =>
      if q != [] {
        PeekKeepsQueue(r, q, layout);
        PeekKeepsBuffer(r);
      }
    case DoReset =>
      EmptyHolds(r.buf);
  }

  lemma PopKeepsBuffer(r: Ring)
    requires Readable(r)
    ensures Pop(r).0.buf == r.buf
  {
  }

  lemma PeekKeepsBuffer(r: Ring)
    requires |r.buf| >= HEADER
    ensures Peek(r).0.buf == r.buf
  {
  }

  lemma EmptyHolds(buf: seq<byte>)
    ensures Holds(Ring(buf, 0, 0, 0, 0), [], Straight)
  {
  }

  // ---------- Runs ----------

  /** Every push of the run that the guard accepts finds room in front of the reader. */
  predicate SafeRun(r: Ring, ops: seq<Op>)
    decreases |ops|
  {
    ops == [] || (SafeOp(r, ops[0]) && (Step(r, ops[0]).Some? ==> SafeRun(Step(r, ops[0]).value.0, ops[1..])))
  }

  /** A run of safe pushes stays inside the buffer and shows its callers exactly the bounded queue. */
  lemma {:induction false} SafeRunsRefine(r: Ring, q: seq<packet>, layout: Layout, ops: seq<Op>) returns (last: Layout)
    requires Holds(r, q, layout) && SafeRun(r, ops)
    ensures Run(r, ops).Some?
    ensures Run(r, ops).value.1 == FifoRun(|r.buf|, q, ops).1
    ensures Holds(Run(r, ops).value.0, FifoRun(|r.buf|, q, ops).0, last)
    decreases |ops|
  {
    hide Holds, Step, FifoStep, SafeOp, NextLayout;
    last := layout;
    if ops != [] {
      StepRefines(r, q, layout, ops[0]);
      var q' := FifoStep(|r.buf|, q, ops[0]).0;
      last := SafeRunsRefine(Step(r, ops[0]).value.0, q', NextLayout(r, q, layout, ops[0]), ops[1..]);
    }
  }

  // ---------- Lengths up to M, with M + 3 bytes to spare ----------

  /** Packets of 1 .. M bytes, each pushed while the packets and it leave M + 3 bytes of the buffer free. */
  predicate Spared(capacity: nat, q: seq<packet>, ops: seq<Op>, max: nat)
    decreases |ops|
  {
    ops != [] ==>
      && (ops[0].DoPush? ==> 1 <= |ops[0].p| <= max && Size(q) + |ops[0].p| + max + 3 <= capacity)
      && Spared(capacity, FifoStep(capacity, q, ops[0]).0, ops[1..], max)
  }

  /** The tail skipped at the end of the buffer. */
  predicate TailWithin(r: Ring, layout: Layout, max: nat) {
    layout.Wrapped? ==> |r.buf| <= layout.e + max + 1
  }

  lemma SparedStep(r: Ring, q: seq<packet>, layout: Layout, op: Op, max: nat)
    requires Holds(r, q, layout) && TailWithin(r, layout, max) && max <= 65534
    requires op.DoPush? ==> 1 <= |op.p| <= max && Size(q) + |op.p| + max + 3 <= |r.buf|
    ensures SafeOp(r, op) && (op.DoPush? ==> Accepts(r, |op.p|))
    ensures Step(r, op).Some? ==> TailWithin(Step(r, op).value.0, NextLayout(r, q, layout, op), max)
  {
    hide Holds, Pop, Peek, Push, Readable;
    HoldsInBounds(r, q, layout);
    HoldsSize(r, q, layout);
    if op.DoPush? {
      PushKeepsLength(r, op.p);
    } else if op.DoPop? && Readable(r) {
      PopKeepsBuffer(r);
    } else if op.DoPeek? && |r.buf| >= HEADER {
      PeekKeepsBuffer(r);
    }
  }

  lemma PushKeepsLength(r: Ring, p: packet)
    requires InBounds(r) && Accepts(r, |p|) && |p| < MAX_PACK_SIZE
    ensures |Push(r, p).buf| == |r.buf|
  {
  }

  /** Every spared run refines the queue, refuses nothing, and never skips more than M + 1 bytes. */
  lemma {:induction false} SparedRunsRefine(r: Ring, q: seq<packet>, layout: Layout, ops: seq<Op>, max: nat)
    returns (last: Layout)
    requires Holds(r, q, layout) && TailWithin(r, layout, max) && max <= 65534
    requires Spared(|r.buf|, q, ops, max)
    ensures SafeRun(r, ops) && Run(r, ops).Some?
    ensures Run(r, ops).value.1 == FifoRun(|r.buf|, q, ops).1
    ensures Pushed(false) !in Run(r, ops).value.1
    ensures Holds(Run(r, ops).value.0, FifoRun(|r.buf|, q, ops).0, last)
    ensures TailWithin(Run(r, ops).value.0, last, max)
    decreases |ops|
  {
    hide Holds, Step, FifoStep, SafeOp, NextLayout, TailWithin;
    last := layout;
    if ops != [] {
      SparedStep(r, q, layout, ops[0], max);
      StepRefines(r, q, layout, ops[0]);
      SparedAccepted(r, ops[0]);
      var q' := FifoStep(|r.buf|, q, ops[0]).0;
      last := SparedRunsRefine(Step(r, ops[0]).value.0, q', NextLayout(r, q, layout, ops[0]), ops[1..], max);
    }
  }

  lemma SparedAccepted(r: Ring, op: Op)
    requires Step(r, op).Some? && (op.DoPush? ==> Accepts(r, |op.p|))
    ensures Step(r, op).value.1 != Pushed(false)
  {
  }

  // ---------- Peek, then pop ----------

  predicate OnlyPushes(ops: seq<Op>) {
    forall k | 0 <= k < |ops| :: ops[k].DoPush?
  }

  lemma {:induction false} PushesKeepFront(capacity: nat, q: seq<packet>, pushes: seq<Op>)
    requires q != [] && OnlyPushes(pushes)
    ensures |FifoRun(capacity, q, pushes + [DoPop]).1| == |pushes| + 1
    ensures FifoRun(capacity, q, pushes + [DoPop]).1[|pushes|] == Popped(q[0])
    decreases |pushes|
  {
    var ops := pushes + [DoPop];
    if pushes == [] {
      assert ops == [DoPop] && ops[1..] == [];
      assert FifoRun(capacity, q[1..], []).1 == [];
    } else {
      assert ops[1..] == pushes[1..] + [DoPop];
      PushesKeepFront(capacity, FifoStep(capacity, q, pushes[0]).0, pushes[1..]);
    }
  }

  /**
   * After a peek that answers L, and any pushes in between, the next pop delivers a packet of exactly L bytes, the
   * one that was oldest when the peek was made.
   */
  lemma PeekThenPop(r: Ring, q: seq<packet>, layout: Layout, pushes: seq<Op>)
    requires Holds(r, q, layout) && q != [] && OnlyPushes(pushes)
    requires SafeRun(r, [DoPeek] + (pushes + [DoPop]))
    ensures var outs := Run(r, [DoPeek] + (pushes + [DoPop]));
            && outs.Some? && |outs.value.1| == |pushes| + 2
            && outs.value.1[0] == Peeked(|q[0]|) && outs.value.1[|pushes| + 1] == Popped(q[0])
  {
    var ops := [DoPeek] + (pushes + [DoPop]);
    hide Holds, SafeRun, Run;
    var last := SafeRunsRefine(r, q, layout, ops);
    assert ops[1..] == pushes + [DoPop];
    PushesKeepFront(|r.buf|, q, pushes);
    assert FifoRun(|r.buf|, q, ops).1 == [Peeked(|q[0]|)] + FifoRun(|r.buf|, q, pushes + [DoPop]).1;
  }
}
