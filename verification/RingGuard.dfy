/** When the program's own guard is enough: always for packets of one length, not for mixed lengths. */
module RingGuard {
  import opened Bytes
  import opened Options
  import opened Ring
  import opened RingRuns

  // ---------- One length ----------

  predicate OneLength(ops: seq<Op>, len: nat) {
    forall k | 0 <= k < |ops| && ops[k].DoPush? :: |ops[k].p| == len
  }

  /** Where slot k of s bytes begins. */
  function Slot(s: nat, k: int): int {
    s * k
  }

  /**
   * The buffer as c slots of s = len + 2 bytes: reader at slot i, writer at slot j, and every turn at slot c.
   */
  predicate Aligned(r: Ring, q: seq<packet>, layout: Layout, s: nat, c: nat, i: nat, j: nat) {
    && Slot(s, c) <= |r.buf| < Slot(s, c) + s
    && r.rd == Slot(s, i) && r.wr == Slot(s, j)
    && (forall p | p in q :: |p| + HEADER == s)
    && match layout
       case Straight => j == i + |q| && j <= c
       case Wrapped(k, e) => e == Slot(s, c) && i + k == c && j + k == |q| && 1 <= j <= i
  }

  lemma SlotNext(s: nat, k: int)
    ensures Slot(s, k + 1) == Slot(s, k) + s && Slot(s, 0) == 0
  {
  }

  lemma SlotOrder(s: nat, a: int, b: int)
    requires s >= 3
    ensures Slot(s, a) + s < Slot(s, b) + 3 ==> a < b
    ensures a < b ==> Slot(s, a) + s <= Slot(s, b)
    ensures a == b ==> Slot(s, a) == Slot(s, b)
  {
    MulMonotone(s, a + 1, b);
    MulMonotone(s, b, a);
    assert s * (a + 1) == s * a + s;
  }

  lemma {:induction false} UniformSize(q: seq<packet>, s: nat)
    requires forall p | p in q :: |p| + HEADER == s
    ensures Size(q) == Slot(s, |q|)
  {
    hide Slot;
    SlotNext(s, |q| - 1);
    if q != [] {
      UniformSize(q[1..], s);
    }
  }

  /** With |q| packets of one length held, the guard accepts another exactly while |q| + 2 is at most (N + 2) / s. */
  lemma AcceptsIff(r: Ring, q: seq<packet>, layout: Layout, s: nat)
    requires Holds(r, q, layout) && s >= 3 && forall p | p in q :: |p| + HEADER == s
    ensures Accepts(r, s - 2) <==> |q| + 2 <= (|r.buf| + 2) / s
    ensures |q| + 2 <= |r.buf| / s ==> Accepts(r, s - 2)
  {
    hide Holds;
    HoldsSize(r, q, layout);
    UniformSize(q, s);
    assert s * (|q| + 2) == Slot(s, |q|) + 2 * s;
    hide Slot;
    Quotient(s, |q| + 2, |r.buf| + 2);
    Quotient(s, |q| + 2, |r.buf|);
  }

  lemma Quotient(s: nat, x: nat, y: nat)
    requires s > 0
    ensures s * x <= y <==> x <= y / s
  {
    var c := y / s;
    assert s * c <= y < s * c + s;
    MulMonotone(s, x, c);
    MulMonotone(s, c + 1, x);
  }

  /** A push that the guard accepts is safe, and finds fewer than c packets. */
  lemma UniformPushSafe(r: Ring, q: seq<packet>, layout: Layout, s: nat, c: nat, i: nat, j: nat)
    requires Holds(r, q, layout) && Aligned(r, q, layout, s, c, i, j) && s >= 3 && Accepts(r, s - 2)
    ensures |q| < c && Safe(r, s - 2)
    ensures Rewinds(r, s - 2) <==> j == c
  {
    hide Holds, Slot;
    HoldsInBounds(r, q, layout);
    HoldsSize(r, q, layout);
    UniformSize(q, s);
    SlotNext(s, |q|);
    SlotOrder(s, |q| + 1, c);
    SlotOrder(s, |q|, c);
    SlotOrder(s, j, c);
    SlotOrder(s, 0, i);
    SlotOrder(s, j, i);
    SlotOrder(s, i, j);
  }

  function NextReader(q: seq<packet>, layout: Layout, op: Op, i: nat): nat {
    match op
    case DoReset => 0
    case DoPush(_) => i
    case DoPop => if q == [] then i else if layout.Wrapped? && layout.k == 0 then 1 else i + 1
    case DoPeek => if q != [] && layout.Wrapped? && layout.k == 0 then 0 else i
  }

  function NextWriter(r: Ring, op: Op, c: nat, j: nat): nat {
    match op
    case DoReset => 0
    case DoPush(p) => if !Accepts(r, |p|) then j else if j == c then 1 else j + 1
    case DoPop => j
    case DoPeek => j
  }

  lemma UniformPush(r: Ring, q: seq<packet>, layout: Layout, p: packet, s: nat, c: nat, i: nat, j: nat)
    requires Holds(r, q, layout) && Aligned(r, q, layout, s, c, i, j) && 3 <= s <= 65536
    requires InBounds(r) && Accepts(r, |p|) && |p| == s - 2
    ensures Safe(r, |p|)
    ensures Aligned(Push(r, p), q + [p], PushLayout(r, q, layout, |p|), s, c, i, if j == c then 1 else j + 1)
  {
    hide Holds, Slot, Push;
    HoldsInBounds(r, q, layout);
    UniformPushSafe(r, q, layout, s, c, i, j);
    PushShape(r, p);
    SlotNext(s, j);
    SlotNext(s, 0);
    SlotOrder(s, j, i);
    SlotOrder(s, i, c);
  }

  lemma UniformRead(r: Ring, q: seq<packet>, layout: Layout, s: nat, c: nat, i: nat, j: nat)
    requires Holds(r, q, layout) && Aligned(r, q, layout, s, c, i, j) && s >= 3 && q != []
    ensures Readable(r)
    ensures Aligned(Pop(r).0, q[1..], PopLayout(layout), s, c, if layout.Wrapped? && layout.k == 0 then 1 else i + 1, j)
    ensures Aligned(Peek(r).0, q, PeekLayout(layout), s, c, if layout.Wrapped? && layout.k == 0 then 0 else i, j)
  {
    hide Holds, Slot, ReadStart, RecordAt, HeaderAt;
    ReaderFindsOldest(r, q, layout);
    RecordLength(r.buf, ReadStart(r), q[0]);
    assert q[0] in q;
    SlotNext(s, i);
    SlotNext(s, 0);
  }

  lemma UniformStep(r: Ring, q: seq<packet>, layout: Layout, op: Op, s: nat, c: nat, i: nat, j: nat)
    requires Holds(r, q, layout) && Aligned(r, q, layout, s, c, i, j) && 3 <= s <= 65536
    requires op.DoPush? ==> |op.p| == s - 2
    ensures SafeOp(r, op) && Step(r, op).Some?
    ensures Aligned(Step(r, op).value.0, FifoStep(|r.buf|, q, op).0, NextLayout(r, q, layout, op), s, c,
                    NextReader(q, layout, op, i), NextWriter(r, op, c, j))
  {
    hide Holds, Aligned, Push, Pop, Peek, Readable, Safe, PushLayout, PopLayout, PeekLayout;
    HoldsInBounds(r, q, layout);
    HoldsSize(r, q, layout);
    match op
    case DoPush(p) =>
      if Accepts(r, |p|) {
        UniformPush(r, q, layout, p, s, c, i, j);
      }
    case DoPop =>
      if q != [] {
        UniformRead(r, q, layout, s, c, i, j);
      }
    case DoPeek =>
      if q != [] {
        UniformRead(r, q, layout, s, c, i, j);
      }
    case DoReset =>
      EmptyAligned(r, q, layout, s, c, i, j);
  }

  lemma EmptyAligned(r: Ring, q: seq<packet>, layout: Layout, s: nat, c: nat, i: nat, j: nat)
    requires Aligned(r, q, layout, s, c, i, j)
    ensures Aligned(Ring(r.buf, 0, 0, 0, 0), [], Straight, s, c, 0, 0)
  {
  }

  /**
   * With packets of one length, the guard of the program alone keeps every run inside the buffer and true to the
   * queue, and never are more than |buffer| / (len + 2) packets held.
   */
  lemma {:induction false} UniformRunsRefine(r: Ring, q: seq<packet>, layout: Layout, ops: seq<Op>,
                                             s: nat, c: nat, i: nat, j: nat)
    returns (last: Layout)
    requires Holds(r, q, layout) && Aligned(r, q, layout, s, c, i, j) && 3 <= s <= 65536
    requires OneLength(ops, s - 2)
    ensures SafeRun(r, ops) && Run(r, ops).Some?
    ensures Run(r, ops).value.1 == FifoRun(|r.buf|, q, ops).1
    ensures Holds(Run(r, ops).value.0, FifoRun(|r.buf|, q, ops).0, last)
    ensures |q| <= c && |FifoRun(|r.buf|, q, ops).0| <= c
    decreases |ops|
  {
    hide Holds, Step, FifoStep, SafeOp, NextLayout, Aligned;
    AlignedHolds(r, q, layout, s, c, i, j);
    last := layout;
    if ops != [] {
      UniformStep(r, q, layout, ops[0], s, c, i, j);
      StepRefines(r, q, layout, ops[0]);
      var q' := FifoStep(|r.buf|, q, ops[0]).0;
      last := UniformRunsRefine(Step(r, ops[0]).value.0, q', NextLayout(r, q, layout, ops[0]), ops[1..], s, c,
                                NextReader(q, layout, ops[0], i), NextWriter(r, ops[0], c, j));
    }
  }

  lemma AlignedHolds(r: Ring, q: seq<packet>, layout: Layout, s: nat, c: nat, i: nat, j: nat)
    requires Aligned(r, q, layout, s, c, i, j)
    ensures |q| <= c
  {
  }

  /** The same for a ring that starts empty, with the bound on what it holds as a quotient. */
  lemma OneLengthNeedsNoMore(buf: seq<byte>, ops: seq<Op>, len: nat)
    requires 1 <= len <= 65534 && OneLength(ops, len)
    ensures var r := Ring(buf, 0, 0, 0, 0);
            && SafeRun(r, ops) && Run(r, ops).Some? && Run(r, ops).value.1 == FifoRun(|buf|, [], ops).1
            && |FifoRun(|buf|, [], ops).0| <= |buf| / (len + 2)
  {
    hide *;
    var s := len + 2;
    var c := |buf| / s;
    WholeSlots(s, |buf|);
    StartAligned(buf, s, c);
    EmptyHolds(buf);
    LengthsFit(len);
    var last := UniformRunsRefine(Ring(buf, 0, 0, 0, 0), [], Straight, ops, s, c, 0, 0);
  }

  lemma LengthsFit(len: nat)
    requires 1 <= len <= 65534
    ensures 3 <= len + 2 < MAX_PACK_SIZE + HEADER
  {
  }

  lemma WholeSlots(s: nat, n: nat)
    requires s > 0
    ensures Slot(s, n / s) <= n < Slot(s, n / s) + s
  {
  }

  lemma StartAligned(buf: seq<byte>, s: nat, c: nat)
    requires Slot(s, c) <= |buf| < Slot(s, c) + s
    ensures Aligned(Ring(buf, 0, 0, 0, 0), [], Straight, s, c, 0, 0)
  {
    hide Slot;
    SlotNext(s, 0);
  }

  // ---------- Mixed lengths ----------

  lemma RunCons(r: Ring, op: Op, rest: seq<Op>)
    requires Step(r, op).Some? && Run(Step(r, op).value.0, rest).Some?
    ensures var (after, out) := Step(r, op).value;
            Run(r, [op] + rest) == Some((Run(after, rest).value.0, [out] + Run(after, rest).value.1))
  {
    assert ([op] + rest)[1..] == rest;
  }

  /** A safe push, with its effect on every field. */
  lemma PushStep(r: Ring, q: seq<packet>, layout: Layout, p: packet) returns (r': Ring, layout': Layout)
    requires Holds(r, q, layout) && 1 <= |p| < MAX_PACK_SIZE && Accepts(r, |p|) && Safe(r, |p|)
    ensures Step(r, DoPush(p)) == Some((r', Pushed(true))) && Holds(r', q + [p], layout')
    ensures r' == Ring(r'.buf, r.rd, Start(r, |p|) + HEADER + |p|, r.rb, r.wb + |p| + HEADER) && |r'.buf| == |r.buf|
  {
    hide Holds, Push, PushLayout;
    HoldsInBounds(r, q, layout);
    PushAppends(r, q, layout, p);
    PushShape(r, p);
    r', layout' := Push(r, p), PushLayout(r, q, layout, |p|);
  }

  lemma PopStep(r: Ring, q: seq<packet>, layout: Layout) returns (r': Ring, layout': Layout)
    requires Holds(r, q, layout) && q != [] && r.rb < r.wb && r.rd + HEADER <= r.wr
    ensures Step(r, DoPop) == Some((r', Popped(q[0]))) && Holds(r', q[1..], layout')
    ensures r' == Ring(r.buf, r.rd + HEADER + |q[0]|, r.wr, r.rb + HEADER + |q[0]|, r.wb)
  {
    hide Holds, PopLayout, RecordAt, ReadStart, HeaderAt;
    HoldsInBounds(r, q, layout);
    PopTakesOldest(r, q, layout);
    ReaderFindsOldest(r, q, layout);
    RecordLength(r.buf, ReadStart(r), q[0]);
    r', layout' := Pop(r).0, PopLayout(layout);
  }

  /** n octets of value one. */
  function Ones(n: nat): (p: packet)
    ensures |p| == n
  {
    seq(n, _ => 1)
  }

  /** An unsafe push whose record covers the two bytes the reader looks at next. */
  lemma ReaderMisled(r: Ring, p: packet)
    requires InBounds(r) && Accepts(r, |p|) && 1 <= |p| < MAX_PACK_SIZE && r.rb <= r.wb
    requires p == Ones(|p|) && Start(r, |p|) + HEADER <= r.rd && r.rd + HEADER <= Start(r, |p|) + HEADER + |p|
    requires r.rd + HEADER + 257 > |r.buf|
    ensures Step(r, DoPush(p)) == Some((Push(r, p), Pushed(true))) && Step(Push(r, p), DoPop) == None
  {
    hide Push;
    PushedRecord(r, p);
    PushShape(r, p);
    var buf, s := Push(r, p).buf, Start(r, |p|);
    assert buf[r.rd] == buf[s + HEADER..s + HEADER + |p|][r.rd - s - HEADER] == 1;
    assert buf[r.rd + 1] == buf[s + HEADER..s + HEADER + |p|][r.rd + 1 - s - HEADER] == 1;
    assert HeaderAt(buf, r.rd) == 257;
  }

  /**
   * The guard alone is not enough for mixed lengths: in a buffer of 100 bytes every push below is accepted, the
   * last one lands on the end marker, and the next pop reads beyond the buffer.
   */
  lemma GuardAloneOverruns(buf: seq<byte>)
    requires |buf| == 100
    ensures var r := Ring(buf, 0, 0, 0, 0);
            var ops := [DoPush(Ones(40))] + ([DoPop] + ([DoPush(Ones(40))] + ([DoPop] + ([DoPush(Ones(20))]
                       + ([DoPush(Ones(38))] + ([DoPush(Ones(18))] + [DoPush(Ones(8))]))))));
            && Run(r, ops).Some? && Pushed(false) !in Run(r, ops).value.1
            && Step(Run(r, ops).value.0, DoPop) == None
  {
    hide Holds, Step, Push, Run;
    EmptyHolds(buf);
    var r0 := Ring(buf, 0, 0, 0, 0);
    var r1, l1 := PushStep(r0, [], Straight, Ones(40));
    var r2, l2 := PopStep(r1, [] + [Ones(40)], l1);
    assert ([] + [Ones(40)])[1..] == [];
    var r3, l3 := PushStep(r2, [], l2, Ones(40));
    var r4, l4 := PopStep(r3, [] + [Ones(40)], l3);
    var r5, l5 := PushStep(r4, [], l4, Ones(20));
    var r6, l6 := PushStep(r5, [] + [Ones(20)], l5, Ones(38));
    var r7, l7 := PushStep(r6, [] + [Ones(20)] + [Ones(38)], l6, Ones(18));
    assert r7.rd == 84 && r7.wr == 82;
    ReaderMisled(r7, Ones(8));
    var r8 := Push(r7, Ones(8));
    ghost var o8 := [DoPush(Ones(8))] + [];
    RunNothing(r8);
    RunCons(r7, DoPush(Ones(8)), []);
    assert o8 == [DoPush(Ones(8))];
    ghost var o7 := [DoPush(Ones(18))] + [DoPush(Ones(8))];
    RunCons(r6, DoPush(Ones(18)), [DoPush(Ones(8))]);
    ghost var o6 := [DoPush(Ones(38))] + o7;
    RunCons(r5, DoPush(Ones(38)), o7);
    ghost var o5 := [DoPush(Ones(20))] + o6;
    RunCons(r4, DoPush(Ones(20)), o6);
    RunCons(r3, DoPop, o5);
    RunCons(r2, DoPush(Ones(40)), [DoPop] + o5);
    RunCons(r1, DoPop, [DoPush(Ones(40))] + ([DoPop] + o5));
    RunCons(r0, DoPush(Ones(40)), [DoPop] + ([DoPush(Ones(40))] + ([DoPop] + o5)));
  }

  lemma RunNothing(r: Ring)
    ensures Run(r, []) == Some((r, []))
  {
  }

  /**
   * Not even an empty queue is enough: with len + 1 bytes on either side of the two positions, an accepted packet
   * runs into the end marker written for it, and never comes out again.
   */
  lemma EmptyQueueLosesPacket(r: Ring, p: packet)
    requires Holds(r, [], Straight) && 2 <= |p| <= 65534
    requires |r.buf| == 2 * |p| + 2 && r.rd == |p| + 1 && p[|p| - 1] != 0
    ensures Accepts(r, |p|) && !Safe(r, |p|)
    ensures InBounds(r) && !(Readable(Push(r, p)) && Pop(Push(r, p)).1 == p)
  {
    hide Push, Holds, RecordAt, HeaderAt, InMarker, InRecord;
    HoldsInBounds(r, [], Straight);
    HoldsSize(r, [], Straight);
    PushShape(r, p);
    MarkerHit(r, p);
    HeaderBehind(Push(r, p), |p| + 1, p[|p| - 1]);
  }

  /** The last byte of the packet covers the first of the marker, whose second stays zero. */
  lemma MarkerHit(r: Ring, p: packet)
    requires InBounds(r) && Accepts(r, |p|) && 2 <= |p| <= 65534
    requires |r.buf| == 2 * |p| + 2 && r.wr == |p| + 1
    ensures var buf := Push(r, p).buf; |buf| == |r.buf| && buf[|p| + 1] == p[|p| - 1] && buf[|p| + 2] == 0
  {
    hide Push;
    PushShape(r, p);
    PushedRecord(r, p);
    PushedBytes(r, p);
    var buf, n := Push(r, p).buf, |p|;
    assert buf[HEADER..HEADER + n][n - 1] == buf[n + 1];
    assert InMarker(r, n, n + 2) && !InRecord(r, n, n + 2);
  }

  /** A header of one octet, read where it stands. */
  lemma HeaderBehind(r: Ring, at: nat, len: byte)
    requires r.rd == at && at + HEADER <= |r.buf| && r.buf[at] == len && r.buf[at + 1] == 0 && len != 0
    ensures ReadStart(r) == at && NextLength(r) == len
    ensures Readable(r) ==> at + HEADER + len <= |r.buf| && |Pop(r).1| == len
  {
  }

  /** A run from an empty ring that ends there: one packet in and out, and the next is accepted and does not come out. */
  lemma EmptyQueueLosesPacketRun(buf: seq<byte>, first: packet, p: packet)
    requires 2 <= |p| <= 65534 && |first| == |p| - 1 && |buf| == 2 * |p| + 2 && p[|p| - 1] != 0
    ensures var ops := [DoPush(first)] + ([DoPop] + [DoPush(p)]);
            var run := Run(Ring(buf, 0, 0, 0, 0), ops);
            && run.Some? && run.value.1 == [Pushed(true), Popped(first), Pushed(true)]
            && (Step(run.value.0, DoPop).None? || Step(run.value.0, DoPop).value.1 != Popped(p))
  {
    hide Holds, Push, Run;
    EmptyHolds(buf);
    var r0 := Ring(buf, 0, 0, 0, 0);
    var r1, l1 := PushStep(r0, [], Straight, first);
    var r2, l2 := PopStep(r1, [] + [first], l1);
    assert ([] + [first])[0] == first && ([] + [first])[1..] == [];
    NothingStraight(r2, l2);
    EmptyQueueLosesPacket(r2, p);
    PushShape(r2, p);
    RunNothing(Push(r2, p));
    assert [DoPush(p)] == [DoPush(p)] + [];
    RunCons(r2, DoPush(p), []);
    RunCons(r1, DoPop, [DoPush(p)]);
    RunCons(r0, DoPush(first), [DoPop] + [DoPush(p)]);
  }

  lemma NothingStraight(r: Ring, layout: Layout)
    requires Holds(r, [], layout)
    ensures layout == Straight
  {
  }
}
