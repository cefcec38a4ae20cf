/** What a checksum detects that is stored low octet first, although the division runs high octet first. */
module SwappedChecksum {
  import opened Bytes
  import opened Crc16
  import opened CrcDetection

  /** Bits that lie outside a window agree; the first of them lies at the offset given. */
  predicate AgreeOutside(x: seq<bool>, y: seq<bool>, offset: nat, from: nat, width: nat) {
    |x| == |y| && forall k | 0 <= k < |x| && !(from <= offset + k < from + width) :: x[k] == y[k]
  }

  /** Two messages differ at most within so many consecutive bits. */
  predicate WithinBits(a: seq<byte>, b: seq<byte>, from: nat, width: nat) {
    |a| == |b| && AgreeOutside(MessageBits(a), MessageBits(b), 0, from, width)
  }

  predicate WithinBurst(a: seq<byte>, b: seq<byte>, from: nat) {
    WithinBits(a, b, from, 16)
  }

  /** A message and its checksum, low octet first. */
  predicate Sealed(c: seq<byte>)
    requires |c| >= 2
  {
    Fold(0, c[..|c| - 2]) == Word(c[|c| - 2], c[|c| - 1])
  }

  /** Where the checksum begins, in bits. */
  function MessageEnd(c: seq<byte>): nat
    requires |c| >= 2
  {
    8 * (|c| - 2)
  }

  // ---------- Bits of a message and its checksum ----------

  lemma {:induction false} MessageBitsConcat(a: seq<byte>, b: seq<byte>)
    ensures MessageBits(a + b) == MessageBits(a) + MessageBits(b)
    decreases |a|
  {
    hide Bin;
    if a == [] {
      assert a + b == b;
    } else {
      assert (a + b)[1..] == a[1..] + b;
      MessageBitsConcat(a[1..], b);
    }
  }

  lemma OctetBits(x: byte)
    ensures MessageBits([x]) == Bin(x, 8)
  {
    hide Bin;
    assert [x][1..] == [];
    assert MessageBits([x]) == Bin(x, 8) + [];
  }

  lemma AgreeConcat(x: seq<bool>, x': seq<bool>, y: seq<bool>, y': seq<bool>, offset: nat, from: nat, width: nat)
    requires |x| == |y|
    ensures AgreeOutside(x + x', y + y', offset, from, width)
            <==> AgreeOutside(x, y, offset, from, width) && AgreeOutside(x', y', offset + |x|, from, width)
  {
    var a, b := x + x', y + y';
    if AgreeOutside(a, b, offset, from, width) {
      assert forall k | 0 <= k < |x| :: a[k] == x[k] && b[k] == y[k];
      assert forall k | 0 <= k < |x'| :: a[|x| + k] == x'[k] && b[|x| + k] == y'[k];
    }
  }

  lemma Nested(x: seq<bool>, y: seq<bool>, z: seq<bool>)
    ensures (x + y) + z == x + (y + z)
  {
  }

  lemma SealedBits(c: seq<byte>)
    requires |c| >= 2
    ensures MessageBits(c) == MessageBits(c[..|c| - 2]) + (Bin(c[|c| - 2], 8) + Bin(c[|c| - 1], 8))
  {
    hide Bin, MessageBits;
    var a, lo, hi := c[..|c| - 2], c[|c| - 2], c[|c| - 1];
    assert c == a + ([lo] + [hi]);
    MessageBitsConcat(a, [lo] + [hi]);
    MessageBitsConcat([lo], [hi]);
    OctetBits(lo);
    OctetBits(hi);
  }

  lemma WordBits(lo: byte, hi: byte)
    ensures Bin(Word(lo, hi), 16) == Bin(hi, 8) + Bin(lo, 8)
  {
    hide Bin, MessageBits;
    TwoOctets(hi, lo);
    assert [hi, lo] == [hi] + [lo];
    MessageBitsConcat([hi], [lo]);
    OctetBits(hi);
    OctetBits(lo);
  }

  lemma SameOctet(x: byte, y: byte)
    requires Bin(x, 8) == Bin(y, 8)
    ensures x == y
  {
    OctetOf(x);
    OctetOf(y);
  }

  // ---------- Fourteen or fifteen damaged bits in front of the checksum ----------

  /** A multiple of the divisor with eight quotient bits whose middle coefficients vanish is zero. */
  lemma NoQuotient(i: seq<bool>)
    requires |i| == 8
    requires (forall k | 6 <= k < 14 :: !Wave(i, 8)[k]) || (forall k | 7 <= k < 15 :: !Wave(i, 8)[k])
    ensures i == Zeros(8) && Wave(i, 8) == Zeros(16)
  {
    hide PrefixParity;
    ParityUnrolled(i);
    var v := Wave(i, 8);
    assert v[8] == (PrefixParity(i, 1) != PrefixParity(i, 3)) && v[9] == (PrefixParity(i, 2) != PrefixParity(i, 4));
    assert v[10] == (PrefixParity(i, 3) != PrefixParity(i, 5)) && v[11] == (PrefixParity(i, 4) != PrefixParity(i, 6));
    assert v[12] == (PrefixParity(i, 5) != PrefixParity(i, 7)) && v[13] == (PrefixParity(i, 6) != PrefixParity(i, 8));
    assert v[7] == PrefixParity(i, 2) && v[6] == PrefixParity(i, 1) && v[14] == PrefixParity(i, 7);
  }

  /** Twenty-four bits that leave nothing in an empty register, with eight zeros among them, are all zero. */
  lemma EmptyMultiple(u: seq<bool>)
    requires |u| == 24 && Feed(Zeros(16), u) == Zeros(16)
    requires (forall k | 14 <= k < 22 :: !u[k]) || (forall k | 15 <= k < 23 :: !u[k])
    ensures u == Zeros(24)
  {
    hide Feed, Wave, Xor;
    var i, v: register := u[..8], u[8..];
    assert u == i + v;
    FeedConcat(Zeros(16), i, v);
    OctetWave(i);
    WordAgainstItself(Wave(i, 8), v);
    XorZero(Wave(i, 8), v);
    NoQuotient(i);
    assert Zeros(8) + Zeros(16) == Zeros(24);
  }

  /** A damaged message whose register differs in the leading bits of its low octet only is not damaged near its end. */
  lemma FewBitsBehind(w: seq<bool>, tail: seq<bool>)
    requires (|w| == 14 && |tail| == 10) || (|w| == 15 && |tail| == 9)
    requires forall k | 0 <= k < 8 :: !tail[k]
    requires Feed(Zeros(16), w) == tail + Zeros(16 - |tail|)
    ensures true !in w
  {
    hide Feed;
    var n := 16 - |tail|;
    var e: register := tail + Zeros(n);
    FeedConcat(Zeros(16), w, e);
    SelfEmpties(e);
    assert w + e == (w + tail) + Zeros(n);
    FeedConcat(Zeros(16), w + tail, Zeros(n));
    if Feed(Zeros(16), w + tail) != Zeros(16) {
      ZerosSurvive(Feed(Zeros(16), w + tail), n);
    }
    EmptyMultiple(w + tail);
    assert forall k | 0 <= k < |w| :: w[k] == (w + tail)[k];
  }

  // ---------- Caught ----------

  lemma SameMessage(c: seq<byte>, d: seq<byte>)
    requires |c| == |d| >= 2 && Sealed(c) && Sealed(d) && c[..|c| - 2] == d[..|c| - 2]
    ensures c == d
  {
    hide Fold, Lo, Hi;
    var n := |c|;
    WordParts(c[n - 2], c[n - 1]);
    WordParts(d[n - 2], d[n - 1]);
    SameParts(c, d);
  }

  /** The window's share in message, low octet and high octet. */
  lemma Outside(c: seq<byte>, d: seq<byte>, from: nat)
    requires |c| == |d| >= 2 && WithinBurst(c, d, from)
    ensures var n, m := |c|, MessageEnd(c);
            && AgreeOutside(MessageBits(c[..n - 2]), MessageBits(d[..n - 2]), 0, from, 16)
            && AgreeOutside(Bin(c[n - 2], 8), Bin(d[n - 2], 8), m, from, 16)
            && AgreeOutside(Bin(c[n - 1], 8), Bin(d[n - 1], 8), m + 8, from, 16)
  {
    hide Bin, MessageBits, AgreeOutside;
    SealedBits(c);
    SealedBits(d);
    var n, m := |c|, MessageEnd(c);
    AgreeConcat(MessageBits(c[..n - 2]), Bin(c[n - 2], 8) + Bin(c[n - 1], 8),
                MessageBits(d[..n - 2]), Bin(d[n - 2], 8) + Bin(d[n - 1], 8), 0, from, 16);
    AgreeConcat(Bin(c[n - 2], 8), Bin(c[n - 1], 8), Bin(d[n - 2], 8), Bin(d[n - 1], 8), m, from, 16);
  }

  lemma SameParts(c: seq<byte>, d: seq<byte>)
    requires |c| == |d| >= 2 && c[..|c| - 2] == d[..|c| - 2]
    requires c[|c| - 2] == d[|c| - 2] && c[|c| - 1] == d[|c| - 1]
    ensures c == d
  {
    var n := |c|;
    assert c == c[..n - 2] + [c[n - 2], c[n - 1]] && d == d[..n - 2] + [d[n - 2], d[n - 1]];
  }

  lemma CaughtInChecksum(c: seq<byte>, d: seq<byte>, from: nat)
    requires |c| == |d| >= 2 && Sealed(c) && c != d && WithinBurst(c, d, from) && from >= MessageEnd(c)
    ensures !Sealed(d)
  {
    hide Fold, Bin, MessageBits, WithinBurst, Word;
    Outside(c, d, from);
    var a, b := c[..|c| - 2], d[..|d| - 2];
    assert MessageBits(a) == MessageBits(b);
    MessageBitsInjective(a, b);
    if Sealed(d) {
      SameMessage(c, d);
    }
  }

  lemma CaughtInMessage(c: seq<byte>, d: seq<byte>, from: nat)
    requires |c| == |d| >= 2 && Sealed(c) && c != d && WithinBurst(c, d, from) && from + 16 <= MessageEnd(c)
    ensures !Sealed(d)
  {
    hide Fold, Bin, MessageBits, WithinBurst, Word;
    Outside(c, d, from);
    var n := |c|;
    assert Bin(c[n - 2], 8) == Bin(d[n - 2], 8) && Bin(c[n - 1], 8) == Bin(d[n - 1], 8);
    SameOctet(c[n - 2], d[n - 2]);
    SameOctet(c[n - 1], d[n - 1]);
    if c[..n - 2] == d[..n - 2] {
      SameParts(c, d);
    } else {
      BurstDetected(0, c[..n - 2], d[..n - 2], from);
    }
  }

  /** The registers of two messages differ by what their difference leaves. */
  lemma RegisterDifference(a: seq<byte>, b: seq<byte>)
    requires |a| == |b|
    ensures Feed(Zeros(16), Xor(MessageBits(a), MessageBits(b))) == Xor(Bin(Fold(0, a), 16), Bin(Fold(0, b), 16))
  {
    hide Feed, Fold, Bin, MessageBits, Xor;
    FoldFeeds(0, a);
    FoldFeeds(0, b);
    BinZero(16);
    FeedXor(Zeros(16), Zeros(16), MessageBits(a), MessageBits(b));
    XorUnits(Zeros(16));
  }

  lemma CaughtAcross(c: seq<byte>, d: seq<byte>, from: nat)
    requires |c| == |d| >= 2 && Sealed(c) && c != d && WithinBurst(c, d, from)
    requires from + 14 <= MessageEnd(c) < from + 16
    ensures !Sealed(d)
  {
    hide Fold, Bin, MessageBits, WithinBurst, Word, Feed;
    Outside(c, d, from);
    var n, m := |c|, MessageEnd(c);
    var a, b := c[..n - 2], d[..n - 2];
    var x := Xor(MessageBits(a), MessageBits(b));
    var w := x[from..];
    if Sealed(d) {
      RegisterDifference(a, b);
      WordBits(c[n - 2], c[n - 1]);
      WordBits(d[n - 2], d[n - 1]);
      var low := Xor(Bin(c[n - 2], 8), Bin(d[n - 2], 8));
      var tail := Zeros(8) + low[..16 - |w|];
      assert Xor(Bin(Fold(0, a), 16), Bin(Fold(0, b), 16)) == tail + Zeros(16 - |tail|);
      assert x == Zeros(from) + w;
      FeedConcat(Zeros(16), Zeros(from), w);
      FeedZeros(from);
      FewBitsBehind(w, tail);
      NoDifference(MessageBits(a), MessageBits(b), from);
      MessageBitsInjective(a, b);
      SameMessage(c, d);
    }
  }

  lemma NoDifference(a: seq<bool>, b: seq<bool>, from: nat)
    requires |a| == |b| && from <= |a| && (forall k | 0 <= k < from :: a[k] == b[k]) && true !in Xor(a, b)[from..]
    ensures a == b
  {
    var w := Xor(a, b)[from..];
    assert forall k | from <= k < |a| :: !w[k - from] && w[k - from] == (a[k] != b[k]);
  }

  // ---------- Not caught ----------

  lemma XorOctet(x: byte, y: byte)
    ensures XorWords(x, y, 8) < 256 && Bin(XorWords(x, y, 8), 8) == Xor(Bin(x, 8), Bin(y, 8))
  {
    hide Bin, Val;
    Powers();
    BinOfVal(Xor(Bin(x, 8), Bin(y, 8)));
  }

  function Flip(x: byte, y: byte): byte {
    XorOctet(x, y);
    XorWords(x, y, 8)
  }

  /** The last octet of the message changed by k, and its checksum by the table entry of k. */
  function Forged(c: seq<byte>, k: byte): (d: seq<byte>)
    requires |c| >= 3
    ensures |d| == |c|
  {
    var n := |c|;
    c[..n - 3] + [Flip(c[n - 3], k), Flip(c[n - 2], Lo(Table(k))), Flip(c[n - 1], Hi(Table(k)))]
  }

  /** The bits that change, from the last octet of the message on. */
  function Pattern(k: byte): (p: seq<bool>)
    ensures |p| == 24
  {
    Bin(k, 8) + (Bin(Lo(Table(k)), 8) + Bin(Hi(Table(k)), 8))
  }

  lemma StepDifference(f: uint16, p: byte, k: byte)
    ensures Bin(Crc16Byte(f, Flip(p, k)), 16) == Xor(Bin(Crc16Byte(f, p), 16), Bin(Table(k), 16))
  {
    hide Crc16Byte, Bin, Feed, Xor, Val, Table;
    ByteStep(f, p);
    ByteStep(f, Flip(p, k));
    XorOctet(p, k);
    FeedXor(Bin(f, 16), Zeros(16), Bin(p, 8), Bin(k, 8));
    XorUnits(Bin(f, 16));
    OctetOf(k);
    TableResponds(Bin(k, 8));
  }

  lemma WordDifference(lo: byte, hi: byte, t: uint16)
    ensures Bin(Word(Flip(lo, Lo(t)), Flip(hi, Hi(t))), 16) == Xor(Bin(Word(lo, hi), 16), Bin(t, 16))
  {
    hide Bin, Word, Lo, Hi, Flip;
    XorOctet(lo, Lo(t));
    XorOctet(hi, Hi(t));
    FlipBits(lo, Lo(t));
    FlipBits(hi, Hi(t));
    WordBits(Flip(lo, Lo(t)), Flip(hi, Hi(t)));
    WordBits(lo, hi);
    WordBits(Lo(t), Hi(t));
    WordWhole(t);
  }

  lemma FlipBits(x: byte, y: byte)
    ensures Bin(Flip(x, y), 8) == Xor(Bin(x, 8), Bin(y, 8))
  {
    hide Bin, Xor;
    XorOctet(x, y);
  }

  lemma FlipNothing(x: byte)
    ensures Flip(x, 0) == x
  {
    hide Bin, Flip, Xor;
    FlipBits(x, 0);
    BinZero(8);
    XorUnits(Bin(x, 8));
    SameOctet(Flip(x, 0), x);
  }

  lemma FoldLast(a: seq<byte>, p: byte)
    ensures Fold(0, a + [p]) == Crc16Byte(Fold(0, a), p)
  {
    hide Crc16Byte;
    FoldConcat(0, a, [p]);
    assert [p][1..] == [];
  }

  /** Whatever k is, the forged octets fit together. */
  lemma ForgedSealed(c: seq<byte>, k: byte)
    requires |c| >= 3 && Sealed(c)
    ensures Sealed(Forged(c, k))
  {
    hide Fold, Crc16Byte, Bin, Word, Table, Xor, Flip, Lo, Hi;
    var n, d := |c|, Forged(c, k);
    var a, p, t := c[..n - 3], c[n - 3], Table(k);
    assert c[..n - 2] == a + [p] && d[..n - 2] == a + [Flip(p, k)];
    FoldLast(a, p);
    FoldLast(a, Flip(p, k));
    StepDifference(Fold(0, a), p, k);
    WordDifference(c[n - 2], c[n - 1], t);
    RegisterOf(Fold(0, d[..n - 2]));
    RegisterOf(Word(d[n - 2], d[n - 1]));
  }

  lemma ForgedDiffers(c: seq<byte>, k: byte)
    requires |c| >= 3 && k != 0
    ensures Forged(c, k) != c
  {
    hide Bin, Table, Flip, Lo, Hi, Xor;
    var x := c[|c| - 3];
    FlipBits(x, k);
    if Flip(x, k) == x {
      XorUnits(Bin(x, 8));
      XorUnits(Bin(k, 8));
      XorLaws(Bin(x, 8), Bin(k, 8), Bin(x, 8));
      BinZero(8);
      SameOctet(k, 0);
    }
    assert Forged(c, k)[|c| - 3] == Flip(x, k);
  }

  lemma LastBits(c: seq<byte>)
    requires |c| >= 3
    ensures var n := |c|;
            MessageBits(c) == MessageBits(c[..n - 3]) + (Bin(c[n - 3], 8) + (Bin(c[n - 2], 8) + Bin(c[n - 1], 8)))
  {
    hide Bin, MessageBits;
    var n, a := |c|, c[..|c| - 2];
    SealedBits(c);
    assert a == c[..n - 3] + [c[n - 3]];
    MessageBitsConcat(c[..n - 3], [c[n - 3]]);
    OctetBits(c[n - 3]);
    Nested(MessageBits(c[..n - 3]), Bin(c[n - 3], 8), Bin(c[n - 2], 8) + Bin(c[n - 1], 8));
  }

  /** The forged bits are the pattern. */
  lemma ForgedBurst(c: seq<byte>, k: byte, from: nat, width: nat)
    requires |c| >= 3
    requires forall j | 0 <= j < 24 && !(from <= MessageEnd(c) - 8 + j < from + width) :: !Pattern(k)[j]
    ensures WithinBits(c, Forged(c, k), from, width)
  {
    hide Bin, MessageBits, Table, Flip, Lo, Hi;
    var n, d, t := |c|, Forged(c, k), Table(k);
    LastBits(c);
    LastBits(d);
    FlipBits(c[n - 3], k);
    FlipBits(c[n - 2], Lo(t));
    FlipBits(c[n - 1], Hi(t));
    assert d[..n - 3] == c[..n - 3];
    var x, y := Bin(c[n - 3], 8) + (Bin(c[n - 2], 8) + Bin(c[n - 1], 8)), Bin(d[n - 3], 8) + (Bin(d[n - 2], 8) + Bin(d[n - 1], 8));
    assert forall j | 0 <= j < 24 :: y[j] == (x[j] != Pattern(k)[j]);
    AgreeConcat(MessageBits(c[..n - 3]), x, MessageBits(c[..n - 3]), y, 0, from, width);
  }

  /** An octet with the bits given. */
  lemma OctetWith(i: seq<bool>, n: nat)
    requires |i| == 8 && n == 16 * NibbleAt(i, 0) + NibbleAt(i, 4)
    ensures Bin(n, 8) == i
  {
    ValOctet(i);
    BinOfVal(i);
  }

  /** Nine bits that escape: two of the message's last octet, and two of the checksum's first. */
  lemma NineBits()
    ensures Table(0x30) == 0x00a0 && forall j | 0 <= j < 24 :: Pattern(0x30)[j] == (j == 2 || j == 3 || j == 8 || j == 10)
  {
    hide Bin;
    OctetWith([false, false, true, true, false, false, false, false], 0x30);
    OctetWith([true, false, true, false, false, false, false, false], 0xa0);
    OctetWith([false, false, false, false, false, false, false, false], 0);
  }

  /** Ten bits that escape: the message's last, and three of the checksum. */
  lemma TenBits()
    ensures Table(1) == 0x8005 && forall j | 0 <= j < 24 :: Pattern(1)[j] == (j == 7 || j == 13 || j == 15 || j == 16)
  {
    hide Bin;
    OctetWith([false, false, false, false, false, false, false, true], 1);
    OctetWith([false, false, false, false, false, true, false, true], 5);
    OctetWith([true, false, false, false, false, false, false, false], 0x80);
  }

  // ---------- The exact condition ----------

  ghost predicate AllCaught(c: seq<byte>, from: nat)
    requires |c| >= 2
  {
    forall d: seq<byte> :: |d| == |c| && d != c && WithinBurst(c, d, from) ==> !Sealed(d)
  }

  lemma BurstCaught(c: seq<byte>, d: seq<byte>, from: nat)
    requires |c| == |d| >= 2 && Sealed(c) && c != d && WithinBurst(c, d, from)
    requires from + 14 <= MessageEnd(c) || MessageEnd(c) <= from
    ensures !Sealed(d)
  {
    hide Sealed, WithinBurst;
    if from >= MessageEnd(c) {
      CaughtInChecksum(c, d, from);
    } else if from + 16 <= MessageEnd(c) {
      CaughtInMessage(c, d, from);
    } else {
      CaughtAcross(c, d, from);
    }
  }

  lemma BurstEscapes(c: seq<byte>, from: nat) returns (d: seq<byte>)
    requires |c| >= 3 && Sealed(c) && from < MessageEnd(c) < from + 14
    ensures |d| == |c| && d != c && WithinBurst(c, d, from) && Sealed(d)
  {
    hide Sealed, Pattern, Table, Forged, WithinBits;
    NineBits();
    TenBits();
    var k := if from + 6 <= MessageEnd(c) then 0x30 else 1;
    d := Forged(c, k);
    ForgedSealed(c, k);
    ForgedDiffers(c, k);
    ForgedBurst(c, k, from, 16);
  }

  /**
   * Of the sixteen-bit windows, exactly those catch every damage that hold at least fourteen bits of the message, or
   * none.
   */
  lemma AllCaughtIff(c: seq<byte>, from: nat)
    requires |c| >= 3 && Sealed(c)
    ensures AllCaught(c, from) <==> from + 14 <= MessageEnd(c) || MessageEnd(c) <= from
  {
    hide Sealed, WithinBurst;
    if from + 14 <= MessageEnd(c) || MessageEnd(c) <= from {
      forall d: seq<byte> | |d| == |c| && d != c && WithinBurst(c, d, from)
        ensures !Sealed(d)
      {
        BurstCaught(c, d, from);
      }
    } else {
      var d := BurstEscapes(c, from);
    }
  }
}
