/** Frames of the message cell: the 3/2/11-bit frame head, and the greedy packing of whole packets from the queue. */
module CellPacking {
  import opened Bytes
  import opened Memory
  import opened Ring
  import opened FifoQueues

  const FRAME_HEAD_SIZE := 2
  const CHECK_SUM_SIZE := 2
  const STOP_TAG_SIZE := 2
  const COMPLETE_MSG := 0

  // ---------- The frame head ----------

  /** The four fields that `PackMsgPacketHead` ORs together. */
  function FrameHead(part: nat, msgType: nat, len: nat): uint16 {
    OrWords(OrWords(OrWords(OrWords(0, (msgType % 8) * 32), (part % 4) * 8), (len % 256) * 256), (len / 256) % 8)
  }

  lemma SmallPowers()
    ensures Pow2(3) == 8 && Pow2(5) == 32 && Pow2(8) == 256 && Pow2(16) == 0x1_0000
  {
    Powers();
    assert Pow2(2) == 4;
  }

  /** They share no bit, so the word is their sum. */
  lemma FrameHeadIsSum(part: nat, msgType: nat, len: nat)
    ensures FrameHead(part, msgType, len) == (msgType % 8) * 32 + (part % 4) * 8 + (len % 256) * 256 + (len / 256) % 8
  {
    SumOfFields(msgType % 8, part % 4, len % 256, (len / 256) % 8);
  }

  lemma SumOfFields(b: nat, a: nat, l: nat, h: nat)
    requires b < 8 && a < 4 && l < 256 && h < 8
    ensures OrWords(OrWords(OrWords(OrWords(0, b * 32), a * 8), l * 256), h) == b * 32 + a * 8 + l * 256 + h
  {
    hide OrWords, Pow2;
    SmallPowers();
    OrIsSum(0, b * 32, 0, 16);
    OrIsSum(b * 32, a * 8, b, 5);
    OrCommutes(b * 32 + a * 8, l * 256);
    OrIsSum(l * 256, b * 32 + a * 8, l, 8);
    OrIsSum(b * 32 + a * 8 + l * 256, h, b * 4 + a + l * 32, 3);
  }

  /** `PackMsgPacketHead`: the target is cleared, then the fields are ORed into it where it stands. */
  method PackMsgPacketHead(part: nat, msgType: nat, len: nat, cell: array<byte>, at: nat)
    requires at + FRAME_HEAD_SIZE <= cell.Length
    modifies cell
    ensures cell[..] == Put(old(cell[..]), at, Stored(FrameHead(part, msgType, len)))
  {
    hide OrWords, Put, Stored, Word;
    ghost var was := cell[..];
    Store16(cell, at, 0);
    OrInto(cell, at, (msgType % 8) * 32, was, 0);
    OrInto(cell, at, (part % 4) * 8, was, OrWords(0, (msgType % 8) * 32));
    OrInto(cell, at, (len % 256) * 256, was, OrWords(OrWords(0, (msgType % 8) * 32), (part % 4) * 8));
    OrInto(cell, at, (len / 256) % 8, was,
           OrWords(OrWords(OrWords(0, (msgType % 8) * 32), (part % 4) * 8), (len % 256) * 256));
  }

  /** `|=` on the word at a position that holds n so far. */
  method OrInto(cell: array<byte>, at: nat, bits: uint16, ghost was: seq<byte>, ghost n: uint16)
    requires at + FRAME_HEAD_SIZE <= cell.Length == |was| && cell[..] == Put(was, at, Stored(n))
    modifies cell
    ensures cell[..] == Put(was, at, Stored(OrWords(n, bits)))
  {
    hide OrWords;
    WordAt(was, at, n);
    var word := Load16(cell, at);
    Store16(cell, at, OrWords(word, bits));
  }

  lemma WordAt(was: seq<byte>, at: nat, n: uint16)
    requires at + FRAME_HEAD_SIZE <= |was|
    ensures var s := Put(was, at, Stored(n)); Word(s[at], s[at + 1]) == n
  {
    WordWhole(n);
  }

  /** The length decode of `CalculateRemainingSpace`. */
  function FrameLength(head: uint16): nat {
    head / 256 + (head % 8) * 256
  }

  function FramePart(head: uint16): nat {
    (head / 8) % 4
  }

  function FrameType(head: uint16): nat {
    (head / 32) % 8
  }

  lemma HeadFields(b: nat, a: nat, l: nat, h: nat)
    requires b < 8 && a < 4 && l < 256 && h < 8
    ensures var w := b * 32 + a * 8 + l * 256 + h;
            w / 256 == l && w % 8 == h && (w / 8) % 4 == a && (w / 32) % 8 == b && w % 256 == b * 32 + a * 8 + h
  {
    var w := b * 32 + a * 8 + l * 256 + h;
    assert w / 8 == b * 4 + a + l * 32;
    assert w / 32 == b + l * 8;
  }

  lemma LengthSplit(len: nat)
    ensures len % 2048 == len % 256 + 256 * ((len / 256) % 8)
  {
    var l, a := len % 256, len / 256;
    var h, c := a % 8, a / 8;
    assert len == 2048 * c + (256 * h + l);
    DivisionIs(len, 2048, c);
  }

  /** What the decoder recovers: the length modulo 2048, the part and the type in their fields. */
  lemma FrameHeadDecodes(part: nat, msgType: nat, len: nat)
    ensures var head := FrameHead(part, msgType, len);
            && FrameLength(head) == len % 2048 && FramePart(head) == part % 4 && FrameType(head) == msgType % 8
            && (FrameLength(head) == len <==> len < 2048)
  {
    hide FrameHead;
    LengthSplit(len);
    FrameHeadIsSum(part, msgType, len);
    var b, a, l, h := msgType % 8, part % 4, len % 256, (len / 256) % 8;
    HeadFields(b, a, l, h);
    assert FrameHead(part, msgType, len) == b * 32 + a * 8 + l * 256 + h;
  }

  lemma SwapIs(n: uint16)
    ensures Swap(n) == n / 256 + 256 * (n % 256)
  {
  }

  lemma HeadSum(part: nat, msgType: nat, len: nat)
    requires part < 4 && msgType < 8 && len < 2048
    ensures FrameHead(part, msgType, len) == msgType * 32 + part * 8 + (len % 256) * 256 + len / 256
  {
    hide FrameHead;
    FrameHeadIsSum(part, msgType, len);
  }

  /** On the wire, high octet first, the head has the described format: 3 bits type, 2 bits part, 11 bits length. */
  lemma FrameHeadOnTheWire(part: nat, msgType: nat, len: nat)
    requires part < 4 && msgType < 8 && len < 2048
    ensures Swap(FrameHead(part, msgType, len)) == msgType * 8192 + part * 2048 + len
  {
    hide Swap, FrameHead;
    var l, h := len % 256, len / 256;
    HeadFields(msgType, part, l, h);
    HeadSum(part, msgType, len);
    SwapIs(FrameHead(part, msgType, len));
  }

  // ---------- Frames in a cell ----------

  function Frame(p: packet, msgType: nat): (f: seq<byte>)
    ensures |f| == FRAME_HEAD_SIZE + |p|
  {
    Stored(FrameHead(COMPLETE_MSG, msgType, |p|)) + p
  }

  function Frames(q: seq<packet>, msgType: nat): (f: seq<byte>)
    ensures |f| == Size(q)
  {
    if q == [] then [] else Frame(q[0], msgType) + Frames(q[1..], msgType)
  }

  lemma FramesHead(q: seq<packet>, msgType: nat)
    requires q != []
    ensures Frames(q, msgType) == Frame(q[0], msgType) + Frames(q[1..], msgType)
    ensures Frames([], msgType) == []
  {
  }

  lemma {:induction false} FramesAppend(q: seq<packet>, p: packet, msgType: nat)
    ensures Frames(q + [p], msgType) == Frames(q, msgType) + Frame(p, msgType)
    decreases |q|
  {
    hide Frames, Frame, Size;
    var t := q + [p];
    FramesHead(t, msgType);
    if q == [] {
      assert t == [p] && t[1..] == [];
    } else {
      FramesHead(q, msgType);
      assert t[0] == q[0] && t[1..] == q[1..] + [p];
      FramesAppend(q[1..], p, msgType);
      Associative(Frame(q[0], msgType), Frames(q[1..], msgType), Frame(p, msgType));
    }
  }

  lemma Associative(a: seq<byte>, b: seq<byte>, c: seq<byte>)
    ensures a + (b + c) == (a + b) + c
  {
  }

  datatype Decoded = Decoded(part: nat, msgType: nat, body: packet)

  /** A receiver that walks the frame heads from pos until a zero word or the limit. */
  function Walk(cell: seq<byte>, pos: nat, limit: nat): seq<Decoded>
    requires limit + 2 <= |cell|
    decreases limit - pos
  {
    if pos >= limit then []
    else
      var head := Word(cell[pos], cell[pos + 1]);
      var next := pos + FRAME_HEAD_SIZE + FrameLength(head);
      if head == 0 || next > limit then []
      else [Decoded(FramePart(head), FrameType(head), cell[pos + FRAME_HEAD_SIZE..next])] + Walk(cell, next, limit)
  }

  function Wanted(q: seq<packet>, msgType: nat): seq<Decoded> {
    seq(|q|, i requires 0 <= i < |q| => Decoded(0, msgType % 8, q[i]))
  }

  lemma FrameRead(cell: seq<byte>, pos: nat, p: packet, msgType: nat)
    requires 1 <= |p| < 2048 && pos + FRAME_HEAD_SIZE + |p| <= |cell|
    requires cell[pos..pos + FRAME_HEAD_SIZE + |p|] == Frame(p, msgType)
    ensures var head := Word(cell[pos], cell[pos + 1]);
            && head != 0 && FrameLength(head) == |p| && FramePart(head) == 0 && FrameType(head) == msgType % 8
            && cell[pos + FRAME_HEAD_SIZE..pos + FRAME_HEAD_SIZE + |p|] == p
  {
    hide FrameHead, FrameLength, FramePart, FrameType, Word, Lo, Hi;
    var n := FrameHead(COMPLETE_MSG, msgType, |p|);
    var f := cell[pos..pos + FRAME_HEAD_SIZE + |p|];
    assert f[0] == Lo(n) && f[1] == Hi(n);
    assert f[FRAME_HEAD_SIZE..] == p;
    WordWhole(n);
    FrameHeadDecodes(COMPLETE_MSG, msgType, |p|);
    ZeroHead();
  }

  lemma ZeroHead()
    ensures FrameLength(0) == 0
  {
  }

  lemma WalkStep(cell: seq<byte>, pos: nat, limit: nat, p: packet, msgType: nat)
    requires 1 <= |p| < 2048 && pos + FRAME_HEAD_SIZE + |p| <= limit && limit + 2 <= |cell|
    requires cell[pos..pos + FRAME_HEAD_SIZE + |p|] == Frame(p, msgType)
    ensures Walk(cell, pos, limit)
            == [Decoded(0, msgType % 8, p)] + Walk(cell, pos + FRAME_HEAD_SIZE + |p|, limit)
  {
    hide FrameLength, FramePart, FrameType, Frame;
    FrameRead(cell, pos, p, msgType);
  }

  /** Walking over packed frames, up to a zero word, gives back exactly the packets. */
  lemma {:induction false} WalkFindsFrames(cell: seq<byte>, pos: nat, end: nat, limit: nat, q: seq<packet>, msgType: nat)
    requires limit + 2 <= |cell| && pos + Size(q) == end <= limit
    requires forall p | p in q :: 1 <= |p| < 2048
    requires cell[pos..end] == Frames(q, msgType)
    requires end < limit ==> cell[end] == 0 && cell[end + 1] == 0
    ensures Walk(cell, pos, limit) == Wanted(q, msgType)
    decreases |q|
  {
    hide Walk, Wanted, Frame, Frames, Size;
    if q == [] {
      WalkStops(cell, pos, end, limit, msgType);
    } else {
      var p := q[0];
      var n := FRAME_HEAD_SIZE + |p|;
      SizeTail(q);
      FramesHead(q, msgType);
      assert p in q && forall t | t in q[1..] :: t in q;
      SplitAt(cell, pos, Frame(p, msgType), Frames(q[1..], msgType));
      WalkStep(cell, pos, limit, p, msgType);
      WalkFindsFrames(cell, pos + n, end, limit, q[1..], msgType);
      WantedHead(q, msgType);
    }
  }

  lemma WalkStops(cell: seq<byte>, pos: nat, end: nat, limit: nat, msgType: nat)
    requires limit + 2 <= |cell| && pos + Size([]) == end <= limit
    requires end < limit ==> cell[end] == 0 && cell[end + 1] == 0
    ensures Walk(cell, pos, limit) == [] == Wanted([], msgType)
  {
  }

  lemma SplitAt(cell: seq<byte>, pos: nat, a: seq<byte>, b: seq<byte>)
    requires pos + |a| + |b| <= |cell| && cell[pos..pos + |a| + |b|] == a + b
    ensures cell[pos..pos + |a|] == a && cell[pos + |a|..pos + |a| + |b|] == b
  {
    var all := cell[pos..pos + |a| + |b|];
    assert cell[pos..pos + |a|] == all[..|a|];
    assert cell[pos + |a|..pos + |a| + |b|] == all[|a|..];
  }

  lemma WantedHead(q: seq<packet>, msgType: nat)
    requires q != []
    ensures Wanted(q, msgType) == [Decoded(0, msgType % 8, q[0])] + Wanted(q[1..], msgType)
  {
  }

  // ---------- PackCompleteMsgPack ----------

  lemma PutExtends(buf: seq<byte>, at: nat, a: seq<byte>, b: seq<byte>, c: seq<byte>)
    requires at + |a| + |b| + |c| <= |buf|
    ensures Put(Put(Put(buf, at, a), at + |a| + |b|, c), at + |a|, b) == Put(buf, at, a + (b + c))
  {
  }

  lemma {:induction false} SizeOfPrefix(q: seq<packet>, m: nat, n: nat)
    requires n < m <= |q|
    ensures Size(q[..m]) >= Size(q[..n]) + HEADER + |q[n]|
  {
    assert q[..n + 1] == q[..n] + [q[n]];
    SizeAppend(q[..n], q[n]);
    assert q[..m] == q[..n + 1] + q[n + 1..m];
    SizeConcat(q[..n + 1], q[n + 1..m]);
  }

  /** The cell after the first count packets of q were packed from position at on. */
  ghost predicate Packed(was: seq<byte>, now: seq<byte>, at: nat, q: seq<packet>, count: nat, msgType: nat) {
    && count <= |q|
    && (forall p | p in q[..count] :: 1 <= |p| < 2048)
    && if count == 0 then now == was
       else at + Size(q[..count]) <= |was| && now == Put(was, at, Frames(q[..count], msgType))
  }

  lemma PackStep(was: seq<byte>, now: seq<byte>, at: nat, q: seq<packet>, count: nat, msgType: nat)
    requires Packed(was, now, at, q, count, msgType) && count < |q| && 1 <= |q[count]| < 2048
    requires at + Size(q[..count]) + FRAME_HEAD_SIZE + |q[count]| <= |was|
    ensures |now| == |was| && Size(q[..count + 1]) == Size(q[..count]) + FRAME_HEAD_SIZE + |q[count]|
    ensures var pos := at + Size(q[..count]);
            Packed(was, Put(Put(now, pos + FRAME_HEAD_SIZE, q[count]), pos, Stored(FrameHead(COMPLETE_MSG, msgType, |q[count]|))),
                   at, q, count + 1, msgType)
  {
    hide Put, Frame, FrameHead, Size, Frames, Stored;
    var p := q[count];
    assert q[..count + 1] == q[..count] + [p];
    FramesAppend(q[..count], p, msgType);
    SizeAppend(q[..count], p);
    PackedOne(was, at, Frames(q[..count], msgType), p, msgType);
    if count == 0 {
      NoFrames(msgType);
      assert q[..count] == [];
      PutNothing(was, at);
    }
  }

  lemma NoFrames(msgType: nat)
    ensures Frames([], msgType) == []
  {
  }

  /**
   * Packs whole packets from the queue into the cell while the next one fits in front of the stop tag and the
   * checksum.  Nothing is lost or reordered, nothing else is written, and no longer run of packets would have fitted.
   */
  method PackCompleteMsgPack(queue: FifoQueue, msgType: nat, cell: array<byte>, cellSize: nat, cellPos: nat,
                             hasData: bool)
      returns (count: nat, pos: nat, has: bool)
    requires queue.Valid() && cell != queue.buffer
    requires cellSize <= cell.Length && cellSize <= 1000
    modifies queue, cell
    ensures queue.Valid() && queue.buffer == old(queue.buffer) && queue.buffer[..] == old(queue.buffer[..])
    ensures count <= |old(queue.packets)|
    ensures old(queue.packets) == old(queue.packets)[..count] + queue.packets
    ensures pos == cellPos + Size(old(queue.packets)[..count])
    ensures Packed(old(cell[..]), cell[..], cellPos, old(queue.packets), count, msgType)
    ensures count > 0 ==> pos <= cellSize - 4
    ensures queue.packets == [] || pos + 2 + |queue.packets[0]| > cellSize - 4
    ensures has == (hasData || count > 0)
  {
    hide FrameHead, Packed, Size, Put, Holds, Stored, Word, Pop, Peek;
    ghost var q := queue.packets;
    ghost var was := cell[..];
    count, pos, has := 0, cellPos, hasData;
    NonePacked(was, cellPos, q, msgType);
    while true
      invariant queue.Valid() && queue.buffer == old(queue.buffer) && queue.buffer[..] == old(queue.buffer[..])
      invariant count <= |q| && queue.packets == q[count..]
      invariant pos == cellPos + Size(q[..count])
      invariant count > 0 ==> pos <= cellSize - CHECK_SUM_SIZE - STOP_TAG_SIZE
      invariant Packed(was, cell[..], cellPos, q, count, msgType)
      invariant has == (hasData || count > 0)
      decreases cellSize - pos
    {
      var nextPackSize := queue.PeekNextPackLen();
      if nextPackSize == 0 || nextPackSize + pos + FRAME_HEAD_SIZE > cellSize - CHECK_SUM_SIZE - STOP_TAG_SIZE {
        break;
      }
      assert queue.packets[0] == q[count];
      PackStep(was, cell[..], cellPos, q, count, msgType);
      var dataLen := queue.PopPacket(cell, pos + FRAME_HEAD_SIZE);
      PackMsgPacketHead(COMPLETE_MSG, msgType, dataLen, cell, pos);
      pos := pos + dataLen + FRAME_HEAD_SIZE;
      count := count + 1;
      has := true;
    }
  }

  lemma NonePacked(was: seq<byte>, at: nat, q: seq<packet>, msgType: nat)
    ensures Packed(was, was, at, q, 0, msgType) && Size(q[..0]) == 0 && q[0..] == q
  {
  }

  lemma PackedOne(buf: seq<byte>, at: nat, f: seq<byte>, p: packet, msgType: nat)
    requires at + |f| + FRAME_HEAD_SIZE + |p| <= |buf|
    ensures Put(Put(Put(buf, at, f), at + |f| + FRAME_HEAD_SIZE, p), at + |f|, Stored(FrameHead(COMPLETE_MSG, msgType, |p|)))
            == Put(buf, at, f + Frame(p, msgType))
  {
    hide Stored, FrameHead, Put;
    PutExtends(buf, at, f, Stored(FrameHead(COMPLETE_MSG, msgType, |p|)), p);
  }

  lemma PutNothing(buf: seq<byte>, at: nat)
    requires at <= |buf|
    ensures Put(buf, at, []) == buf
  {
  }

  /** Greedy is best: no longer run of packets from the front fits. */
  lemma PackedMost(q: seq<packet>, count: nat, room: int, m: nat)
    requires count <= |q| && m <= |q|
    requires count == |q| || Size(q[..count]) + FRAME_HEAD_SIZE + |q[count]| > room
    requires m > 0 ==> Size(q[..m]) <= room
    ensures m <= count
  {
    if m > count {
      SizeOfPrefix(q, m, count);
    }
  }

  /** In a cell cleared behind the write position, the receiver's walk gives back the packed packets, in order. */
  lemma PackedCellDecodes(was: seq<byte>, at: nat, q: seq<packet>, msgType: nat, limit: nat)
    requires at + Size(q) <= limit && limit + 2 <= |was|
    requires forall p | p in q :: 1 <= |p| < 2048
    requires forall i | at <= i < limit + 2 :: was[i] == 0
    ensures Walk(Put(was, at, Frames(q, msgType)), at, limit) == Wanted(q, msgType)
  {
    hide Frames;
    var cell := Put(was, at, Frames(q, msgType));
    assert cell[at..at + Size(q)] == Frames(q, msgType);
    WalkFindsFrames(cell, at, at + Size(q), limit, q, msgType);
  }
}
