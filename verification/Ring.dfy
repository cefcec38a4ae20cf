/** The byte ring of length-prefixed packets, as a value: what one push, pop or peek does to it. */
module Ring {
  import opened Bytes
  import opened Memory

  type packet = seq<byte>

  const HEADER := 2
  const MAX_PACK_SIZE := 65535

  /** The buffer, the two positions in it, and the two running byte counters. */
  datatype Ring = Ring(buf: seq<byte>, rd: nat, wr: nat, rb: nat, wb: nat)

  predicate InBounds(r: Ring) {
    r.rd <= |r.buf| && r.wr <= |r.buf| && r.rb <= r.wb
  }

  // ---------- PushPacket ----------

  /** The program's own guard lets a packet of this length in. */
  predicate Accepts(r: Ring, len: nat) {
    r.wb + 2 * len + 2 * (HEADER - 1) <= r.rb + |r.buf|
  }

  predicate Rewinds(r: Ring, len: nat) {
    r.wr + HEADER > |r.buf| || r.wr + len + HEADER > |r.buf|
  }

  /** Before rewinding, an end marker is left where one fits. */
  predicate LeavesMarker(r: Ring, len: nat) {
    r.wr + HEADER <= |r.buf| && r.wr + len + HEADER > |r.buf|
  }

  function Start(r: Ring, len: nat): nat {
    if Rewinds(r, len) then 0 else r.wr
  }

  function Marked(r: Ring, len: nat): (buf: seq<byte>)
    ensures |buf| == |r.buf|
  {
    if LeavesMarker(r, len) then Put(r.buf, r.wr, Stored(0)) else r.buf
  }

  /** A length, and the packet behind it. */
  function Written(buf: seq<byte>, at: nat, p: packet): (b: seq<byte>)
    requires |p| < MAX_PACK_SIZE && at + HEADER + |p| <= |buf|
    ensures |b| == |buf|
  {
    Put(Put(buf, at, Stored(|p|)), at + HEADER, p)
  }

  function Push(r: Ring, p: packet): (r': Ring)
    requires InBounds(r) && Accepts(r, |p|) && |p| < MAX_PACK_SIZE
    ensures InBounds(r') && |r'.buf| == |r.buf|
  {
    var s := Start(r, |p|);
    Ring(Written(Marked(r, |p|), s, p), r.rd, s + HEADER + |p|, r.rb, r.wb + |p| + HEADER)
  }

  // ---------- PopPacket and PeekNextPackLen ----------

  function HeaderAt(buf: seq<byte>, at: nat): uint16
    requires at + HEADER <= |buf|
  {
    Word(buf[at], buf[at + 1])
  }

  /** Where the next packet is read: past the end or at an end marker, the reader goes to the front. */
  function ReadStart(r: Ring): nat
    requires |r.buf| >= HEADER
  {
    if r.rd + HEADER > |r.buf| then 0
    else if HeaderAt(r.buf, r.rd) == 0 then 0
    else r.rd
  }

  /** The record the reader finds lies inside the buffer; otherwise the program reads beyond it. */
  predicate Readable(r: Ring) {
    && |r.buf| >= HEADER
    && ReadStart(r) + HEADER + HeaderAt(r.buf, ReadStart(r)) <= |r.buf|
  }

  function NextLength(r: Ring): uint16
    requires |r.buf| >= HEADER
  {
    HeaderAt(r.buf, ReadStart(r))
  }

  function Pop(r: Ring): (res: (Ring, packet))
    requires Readable(r)
  {
    var s, len := ReadStart(r), NextLength(r);
    (r.(rd := s + HEADER + len, rb := r.rb + len + HEADER), r.buf[s + HEADER..s + HEADER + len])
  }

  function Peek(r: Ring): (res: (Ring, uint16))
    requires |r.buf| >= HEADER
  {
    (r.(rd := ReadStart(r)), NextLength(r))
  }

  // ---------- What the bytes stand for ----------

  predicate RecordAt(buf: seq<byte>, at: nat, p: packet) {
    && 1 <= |p| < MAX_PACK_SIZE
    && at + HEADER + |p| <= |buf|
    && HeaderAt(buf, at) == |p|
    && buf[at + HEADER..at + HEADER + |p|] == p
  }

  /** The packets q lie back to back in buf[a..b]. */
  predicate Records(buf: seq<byte>, a: nat, q: seq<packet>, b: nat)
    decreases |q|
  {
    if q == [] then a == b <= |buf|
    else RecordAt(buf, a, q[0]) && Records(buf, a + HEADER + |q[0]|, q[1..], b)
  }

  /** Bytes the queue occupies, headers included. */
  function Size(q: seq<packet>): nat {
    if q == [] then 0 else HEADER + |q[0]| + Size(q[1..])
  }

  /** Unread packets lie in one piece, or the first k of them end at e and the others begin at the front. */
  datatype Layout = Straight | Wrapped(k: nat, e: nat)

  /** From e the reader goes to the front: no room for a header there, or an end marker. */
  predicate Turn(buf: seq<byte>, e: nat) {
    e <= |buf| && (e + HEADER <= |buf| ==> buf[e] == 0 && buf[e + 1] == 0)
  }

  /** The ring invariant: ring r holds exactly the unread packets q, in order. */
  predicate Holds(r: Ring, q: seq<packet>, layout: Layout) {
    && r.wb == r.rb + Size(q)
    && match layout
       case Straight => Records(r.buf, r.rd, q, r.wr)
       case Wrapped(k, e) =>
         k < |q| && Records(r.buf, r.rd, q[..k], e) && Turn(r.buf, e) && Records(r.buf, 0, q[k..], r.wr) && r.wr <= r.rd
  }

  // ---------- Record lists ----------

  lemma {:induction false} RecordsSize(buf: seq<byte>, a: nat, q: seq<packet>, b: nat)
    requires Records(buf, a, q, b)
    ensures b == a + Size(q) && b <= |buf|
    ensures forall p | p in q :: 1 <= |p| < MAX_PACK_SIZE
    decreases |q|
  {
    if q != [] {
      RecordsSize(buf, a + HEADER + |q[0]|, q[1..], b);
    }
  }

  lemma {:induction false} SizeConcat(q: seq<packet>, t: seq<packet>)
    ensures Size(q + t) == Size(q) + Size(t)
    decreases |q|
  {
    if q == [] {
      assert q + t == t;
    } else {
      assert (q + t)[1..] == q[1..] + t;
      SizeConcat(q[1..], t);
    }
  }

  lemma {:induction false} RecordsConcat(buf: seq<byte>, a: nat, q: seq<packet>, b: nat, t: seq<packet>, c: nat)
    requires Records(buf, a, q, b) && Records(buf, b, t, c)
    ensures Records(buf, a, q + t, c)
    decreases |q|
  {
    if q == [] {
      assert q + t == t;
    } else {
      assert (q + t)[1..] == q[1..] + t;
      RecordsConcat(buf, a + HEADER + |q[0]|, q[1..], b, t, c);
    }
  }

  /** A record list depends only on its own bytes. */
  lemma {:induction false} RecordsFrame(buf: seq<byte>, buf': seq<byte>, a: nat, q: seq<packet>, b: nat)
    requires Records(buf, a, q, b) && |buf'| == |buf|
    requires forall i | a <= i < b <= |buf| :: buf'[i] == buf[i]
    ensures Records(buf', a, q, b)
    decreases |q|
  {
    RecordsSize(buf, a, q, b);
    if q != [] {
      var n := a + HEADER + |q[0]|;
      RecordsSize(buf, n, q[1..], b);
      assert buf'[a + HEADER..n] == buf[a + HEADER..n];
      RecordsFrame(buf, buf', n, q[1..], b);
    }
  }

  lemma OneRecord(buf: seq<byte>, a: nat, p: packet)
    requires RecordAt(buf, a, p)
    ensures Records(buf, a, [p], a + HEADER + |p|)
  {
    assert [p][1..] == [];
  }

  lemma RecordLength(buf: seq<byte>, at: nat, p: packet)
    requires RecordAt(buf, at, p)
    ensures at + HEADER + |p| <= |buf| && HeaderAt(buf, at) == |p| > 0 && buf[at + HEADER..at + HEADER + |p|] == p
  {
  }

  lemma RecordsHead(buf: seq<byte>, a: nat, q: seq<packet>, b: nat)
    requires Records(buf, a, q, b) && q != []
    ensures RecordAt(buf, a, q[0]) && Records(buf, a + HEADER + |q[0]|, q[1..], b)
  {
  }

  lemma HoldsInBounds(r: Ring, q: seq<packet>, layout: Layout)
    requires Holds(r, q, layout)
    ensures InBounds(r)
    ensures forall p | p in q :: 1 <= |p| < MAX_PACK_SIZE
    ensures q == [] ==> layout == Straight && r.rd == r.wr
    ensures layout.Straight? ==> r.wr == r.rd + Size(q)
    ensures layout.Wrapped? ==> layout.e + r.wr == r.rd + Size(q) && r.rd <= layout.e && 3 <= r.wr <= r.rd
  {
    match layout
    case Straight =>
      RecordsSize(r.buf, r.rd, q, r.wr);
    case Wrapped(k, e) =>
      RecordsSize(r.buf, r.rd, q[..k], e);
      RecordsSize(r.buf, 0, q[k..], r.wr);
      assert q == q[..k] + q[k..];
      SizeConcat(q[..k], q[k..]);
      assert q[k..][0] in q[k..];
  }

  // ---------- One pop, one peek ----------

  function PopLayout(layout: Layout): Layout {
    match layout
    case Straight => Straight
    case Wrapped(k, e) => if k == 0 then Straight else Wrapped(k - 1, e)
  }

  function PeekLayout(layout: Layout): Layout {
    match layout
    case Straight => Straight
    case Wrapped(k, e) => if k == 0 then Straight else layout
  }

  /** The reader finds the oldest packet, wherever the ring keeps it. */
  lemma ReaderFindsOldest(r: Ring, q: seq<packet>, layout: Layout)
    requires Holds(r, q, layout) && q != []
    ensures Readable(r) && RecordAt(r.buf, ReadStart(r), q[0])
    ensures ReadStart(r) == if layout.Wrapped? && layout.k == 0 then 0 else r.rd
  {
    hide Records, RecordAt;
    match layout
    case Straight =>
      RecordsHead(r.buf, r.rd, q, r.wr);
      RecordLength(r.buf, r.rd, q[0]);
    case Wrapped(k, e) =>
      if k == 0 {
        RecordsNone(r.buf, r.rd, e);
        RecordsHead(r.buf, 0, q[k..], r.wr);
        RecordLength(r.buf, 0, q[0]);
      } else {
        RecordsHead(r.buf, r.rd, q[..k], e);
        RecordLength(r.buf, r.rd, q[0]);
      }
  }

  lemma RecordsNone(buf: seq<byte>, a: nat, b: nat)
    ensures Records(buf, a, [], b) <==> a == b <= |buf|
  {
  }

  /** A pop delivers the oldest packet and leaves the others. */
  lemma PopTakesOldest(r: Ring, q: seq<packet>, layout: Layout)
    requires Holds(r, q, layout) && q != []
    ensures Readable(r) && Pop(r).1 == q[0] && Holds(Pop(r).0, q[1..], PopLayout(layout))
  {
    hide Records, RecordAt, ReadStart, HeaderAt;
    ReaderFindsOldest(r, q, layout);
    RecordLength(r.buf, ReadStart(r), q[0]);
    SizeTail(q);
    match layout
    case Straight =>
      RecordsHead(r.buf, r.rd, q, r.wr);
    case Wrapped(k, e) =>
      if k == 0 {
        assert q[0..] == q;
        RecordsHead(r.buf, 0, q, r.wr);
      } else {
        RecordsHead(r.buf, r.rd, q[..k], e);
        assert q[..k][1..] == q[1..][..k - 1];
        assert q[k..] == q[1..][k - 1..];
      }
  }

  lemma SizeTail(q: seq<packet>)
    requires q != []
    ensures Size(q) == HEADER + |q[0]| + Size(q[1..])
  {
  }

  /** A peek may move the read position to the front, and leaves the queue as it was. */
  lemma PeekKeepsQueue(r: Ring, q: seq<packet>, layout: Layout)
    requires Holds(r, q, layout) && q != []
    ensures |r.buf| >= HEADER && Peek(r).1 == |q[0]| && Holds(Peek(r).0, q, PeekLayout(layout))
  {
    ReaderFindsOldest(r, q, layout);
    match layout
    case Straight =>
    case Wrapped(k, e) =>
      if k == 0 {
        assert q[0..] == q;
      }
  }

  // ---------- One push ----------

  /** Byte i is unread: part of a record, or of the end marker in front of the reader. */
  predicate Unread(r: Ring, layout: Layout, i: nat) {
    match layout
    case Straight => r.rd <= i < r.wr
    case Wrapped(k, e) => r.rd <= i < e || e <= i < e + HEADER <= |r.buf| || i < r.wr
  }

  predicate InMarker(r: Ring, len: nat, i: nat) {
    LeavesMarker(r, len) && r.wr <= i < r.wr + HEADER
  }

  predicate InRecord(r: Ring, len: nat, i: nat) {
    Start(r, len) <= i < Start(r, len) + HEADER + len
  }

  /** A push of this length destroys a byte the reader still needs: an unread one, or of its own end marker. */
  ghost predicate Clobbers(r: Ring, layout: Layout, len: nat) {
    exists i: nat :: (Unread(r, layout, i) && (InMarker(r, len, i) || InRecord(r, len, i)))
                     || (InMarker(r, len, i) && InRecord(r, len, i))
  }

  /** What the guard would have to test: there is room in front of the reader. */
  predicate Safe(r: Ring, len: nat) {
    if r.wb > r.rb && r.wr <= r.rd then r.wr + HEADER + len <= r.rd
    else Rewinds(r, len) ==> HEADER + len <= r.rd
  }

  function PushLayout(r: Ring, q: seq<packet>, layout: Layout, len: nat): Layout {
    if layout.Straight? && Rewinds(r, len) then Wrapped(|q|, r.wr) else layout
  }

  lemma PushedBytes(r: Ring, p: packet)
    requires InBounds(r) && Accepts(r, |p|) && 1 <= |p| < MAX_PACK_SIZE
    ensures forall i: nat | i < |r.buf| && !InRecord(r, |p|, i) && !InMarker(r, |p|, i) :: Push(r, p).buf[i] == r.buf[i]
    ensures forall i: nat | i < |r.buf| && !InRecord(r, |p|, i) && InMarker(r, |p|, i) :: Push(r, p).buf[i] == 0
  {
    hide Put;
    assert Stored(0) == [0, 0];
    var s := Start(r, |p|);
    var headed := Put(Marked(r, |p|), s, Stored(|p|));
    assert Push(r, p).buf == Put(headed, s + HEADER, p);
  }

  lemma PushedRecord(r: Ring, p: packet)
    requires InBounds(r) && Accepts(r, |p|) && 1 <= |p| < MAX_PACK_SIZE
    ensures RecordAt(Push(r, p).buf, Start(r, |p|), p)
  {
    var s, buf := Start(r, |p|), Push(r, p).buf;
    WordWhole(|p|);
    assert buf[s] == Lo(|p|) && buf[s + 1] == Hi(|p|);
    assert buf[s + HEADER..s + HEADER + |p|] == p;
  }

  lemma PushShape(r: Ring, p: packet)
    requires InBounds(r) && Accepts(r, |p|) && 1 <= |p| < MAX_PACK_SIZE
    ensures Push(r, p) == Ring(Push(r, p).buf, r.rd, Start(r, |p|) + HEADER + |p|, r.rb, r.wb + |p| + HEADER)
    ensures |Push(r, p).buf| == |r.buf|
  {
  }

  lemma SizeAppend(q: seq<packet>, p: packet)
    ensures Size(q + [p]) == Size(q) + HEADER + |p|
  {
    SizeConcat(q, [p]);
    assert [p][1..] == [];
    assert Size([p]) == HEADER + |p| + Size([p][1..]);
  }

  /** One more record behind an untouched list. */
  lemma RecordsAppend(buf: seq<byte>, buf': seq<byte>, a: nat, q: seq<packet>, b: nat, p: packet)
    requires Records(buf, a, q, b) && |buf'| == |buf| && RecordAt(buf', b, p)
    requires forall i | a <= i < b <= |buf| :: buf'[i] == buf[i]
    ensures Records(buf', a, q + [p], b + HEADER + |p|)
  {
    hide Records, RecordAt;
    RecordsFrame(buf, buf', a, q, b);
    OneRecord(buf', b, p);
    RecordsConcat(buf', a, q, b, [p], b + HEADER + |p|);
  }

  lemma AppendsStraight(r: Ring, q: seq<packet>, p: packet)
    requires Holds(r, q, Straight) && InBounds(r) && 1 <= |p| < MAX_PACK_SIZE
    requires Accepts(r, |p|) && Safe(r, |p|)
    ensures Holds(Push(r, p), q + [p], PushLayout(r, q, Straight, |p|))
  {
    hide RecordAt, Records, Put, HeaderAt, Push, Size;
    HoldsInBounds(r, q, Straight);
    SizeAppend(q, p);
    PushedRecord(r, p);
    PushedBytes(r, p);
    PushShape(r, p);
    var r' := Push(r, p);
    assert forall i: nat | r.rd <= i < r.wr :: !InRecord(r, |p|, i) && !InMarker(r, |p|, i);
    if Rewinds(r, |p|) {
      RecordsFrame(r.buf, r'.buf, r.rd, q, r.wr);
      OneRecord(r'.buf, 0, p);
      assert (q + [p])[..|q|] == q && (q + [p])[|q|..] == [p];
      assert Turn(r'.buf, r.wr) by {
        if r.wr + HEADER <= |r.buf| {
          assert InMarker(r, |p|, r.wr) && InMarker(r, |p|, r.wr + 1);
        }
      }
    } else {
      RecordsAppend(r.buf, r'.buf, r.rd, q, r.wr, p);
    }
  }

  lemma AppendsWrapped(r: Ring, q: seq<packet>, k: nat, e: nat, p: packet)
    requires Holds(r, q, Wrapped(k, e)) && InBounds(r) && 1 <= |p| < MAX_PACK_SIZE
    requires Accepts(r, |p|) && Safe(r, |p|)
    ensures Holds(Push(r, p), q + [p], Wrapped(k, e))
  {
    hide RecordAt, Records, Put, HeaderAt, Push, Size;
    HoldsInBounds(r, q, Wrapped(k, e));
    SizeAppend(q, p);
    PushedRecord(r, p);
    PushedBytes(r, p);
    PushShape(r, p);
    var r' := Push(r, p);
    assert forall i: nat | i < r.wr || r.rd <= i :: !InRecord(r, |p|, i) && !InMarker(r, |p|, i);
    RecordsFrame(r.buf, r'.buf, r.rd, q[..k], e);
    RecordsAppend(r.buf, r'.buf, 0, q[k..], r.wr, p);
    assert (q + [p])[..k] == q[..k] && (q + [p])[k..] == q[k..] + [p];
  }

  /** A safe push appends its packet to the queue and disturbs nothing. */
  lemma PushAppends(r: Ring, q: seq<packet>, layout: Layout, p: packet)
    requires Holds(r, q, layout) && InBounds(r) && 1 <= |p| < MAX_PACK_SIZE
    requires Accepts(r, |p|) && Safe(r, |p|)
    ensures Holds(Push(r, p), q + [p], PushLayout(r, q, layout, |p|))
  {
    hide Holds, Push, Accepts, Rewinds;
    match layout
    case Straight => AppendsStraight(r, q, p);
    case Wrapped(k, e) => AppendsWrapped(r, q, k, e, p);
  }

  /** The condition is exact: of the pushes the guard accepts, precisely the unsafe ones destroy unread bytes. */
  lemma SafeIff(r: Ring, q: seq<packet>, layout: Layout, len: nat)
    requires Holds(r, q, layout) && Accepts(r, len) && 1 <= len < MAX_PACK_SIZE
    ensures Safe(r, len) <==> !Clobbers(r, layout, len)
  {
    HoldsInBounds(r, q, layout);
    if !Safe(r, len) {
      var i := r.rd;
      assert Unread(r, layout, i) || InMarker(r, len, i);
      assert InRecord(r, len, i);
    }
  }

  lemma HoldsSize(r: Ring, q: seq<packet>, layout: Layout)
    requires Holds(r, q, layout)
    ensures r.wb == r.rb + Size(q) && (Size(q) == 0 <==> q == [])
  {
  }
}
