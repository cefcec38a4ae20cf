/** What the CRC-16 of the cells detects: theorems over buffers of any length. */
module CrcDetection {
  import opened Bytes
  import opened Crc16

  // ---------- The division is linear ----------

  /** Two messages of one length have the same CRC exactly when the divisor divides their difference. */
  lemma SameCrcIff(init: uint16, a: seq<byte>, b: seq<byte>)
    requires |a| == |b|
    ensures Fold(init, a) == Fold(init, b)
            <==> Remainder(Xor(MessageBits(a), MessageBits(b)) + Zeros(16)) == Zeros(16)
  {
    hide Fold, Feed, Remainder, MessageBits, Bin;
    var s: register := Bin(init, 16);
    var d := Xor(MessageBits(a), MessageBits(b));
    FoldFeeds(init, a);
    FoldFeeds(init, b);
    FeedXor(s, s, MessageBits(a), MessageBits(b));
    assert Xor(s, s) == Zeros(16);
    FeedDivides(Zeros(16), d);
    assert XorFront(d + Zeros(16), Zeros(16)) == d + Zeros(16);
    XorZero(Feed(s, MessageBits(a)), Feed(s, MessageBits(b)));
    RegisterOf(Fold(init, a));
    RegisterOf(Fold(init, b));
  }

  function XorBytes(a: seq<byte>, b: seq<byte>): (c: seq<byte>)
    requires |a| == |b|
    ensures |c| == |a|
  {
    Powers();
    seq(|a|, i requires 0 <= i < |a| => XorWords(a[i], b[i], 8))
  }

  lemma {:induction false} MessageBitsXor(a: seq<byte>, b: seq<byte>)
    requires |a| == |b|
    ensures MessageBits(XorBytes(a, b)) == Xor(MessageBits(a), MessageBits(b))
  {
    hide Bin, Val;
    if a != [] {
      MessageBitsXor(a[1..], b[1..]);
      assert XorBytes(a, b)[1..] == XorBytes(a[1..], b[1..]);
      BinOfVal(Xor(Bin(a[0], 8), Bin(b[0], 8)));
    }
  }

  /** The table form is linear: in the register and the buffer at once. */
  lemma FoldXor(s: uint16, t: uint16, a: seq<byte>, b: seq<byte>)
    requires |a| == |b|
    ensures XorWords(s, t, 16) < 0x1_0000
    ensures Fold(XorWords(s, t, 16), XorBytes(a, b)) == XorWords(Fold(s, a), Fold(t, b), 16)
  {
    hide Fold, Feed, MessageBits, Bin, Val;
    Powers();
    var u: uint16 := XorWords(s, t, 16);
    BinOfVal(Xor(Bin(s, 16), Bin(t, 16)));
    FoldFeeds(u, XorBytes(a, b));
    FoldFeeds(s, a);
    FoldFeeds(t, b);
    MessageBitsXor(a, b);
    FeedXor(Bin(s, 16), Bin(t, 16), MessageBits(a), MessageBits(b));
    RegisterOf(Fold(u, XorBytes(a, b)));
  }

  lemma XorZero(a: register, b: register)
    ensures Xor(a, b) == Zeros(16) <==> a == b
  {
    assert Xor(a, a) == Zeros(16);
    if Xor(a, b) == Zeros(16) {
      forall x | 0 <= x < 16
        ensures a[x] == b[x]
      {
        assert Xor(a, b)[x] == Zeros(16)[x];
      }
    }
  }

  lemma ZerosOrNot(s: seq<bool>)
    ensures s == Zeros(|s|) || exists k | 0 <= k < |s| :: s[k]
  {
    if forall k | 0 <= k < |s| :: !s[k] {
      assert s == Zeros(|s|);
    }
  }

  lemma {:induction false} FeedZeros(n: nat)
    ensures Feed(Zeros(16), Zeros(n)) == Zeros(16)
  {
    if n > 0 {
      assert ShiftIn(Zeros(16), false) == Zeros(16);
      assert Zeros(n)[1..] == Zeros(n - 1);
      FeedZeros(n - 1);
    }
  }

  // ---------- A register leaves zero only through its last cell ----------

  /** The states from which k more bits can empty the register have nothing in the cells k .. 15. */
  lemma {:induction false} Emptying(s: register, bits: seq<bool>)
    requires |bits| <= 16 && Feed(s, bits) == Zeros(16)
    ensures forall x | |bits| <= x < 16 :: !s[x]
    decreases |bits|
  {
    if bits == [] {
      assert s == Zeros(16);
    } else {
      var t := ShiftIn(s, bits[0]);
      Emptying(t, bits[1..]);
      assert !t[15];
      forall x | |bits| <= x < 16
        ensures !s[x]
      {
        assert t[x - 1] == Up(s)[x - 1] == s[x];
      }
    }
  }

  /** Sixteen bits or fewer, not all zero, never bring an empty register back to empty. */
  lemma {:induction false} ShortWordSurvives(bits: seq<bool>)
    requires |bits| <= 16 && true in bits
    ensures Feed(Zeros(16), bits) != Zeros(16)
    decreases |bits|
  {
    if bits[0] {
      var t := ShiftIn(Zeros(16), true);
      assert t[15];
      if Feed(t, bits[1..]) == Zeros(16) {
        Emptying(t, bits[1..]);
        assert false;
      }
    } else {
      assert ShiftIn(Zeros(16), false) == Zeros(16);
      ShortWordSurvives(bits[1..]);
    }
  }

  /** A register that is not empty stays so while zeros are fed. */
  lemma {:induction false} ZerosSurvive(s: register, n: nat)
    requires s != Zeros(16)
    ensures Feed(s, Zeros(n)) != Zeros(16)
    decreases n
  {
    if n > 0 {
      var t := ShiftIn(s, false);
      assert Zeros(n)[1..] == Zeros(n - 1);
      ZerosOrNot(s);
      var k :| 0 <= k < 16 && s[k];
      assert t[if s[0] then 15 else k - 1] by {
        if !s[0] {
          assert Up(s)[k - 1] == s[k];
        }
      }
      ZerosSurvive(t, n - 1);
    }
  }

  // ---------- Burst detection ----------

  lemma {:induction false} MessageBitsInjective(a: seq<byte>, b: seq<byte>)
    requires |a| == |b| && MessageBits(a) == MessageBits(b)
    ensures a == b
  {
    if a != [] {
      var x, y := MessageBits(a), MessageBits(b);
      assert Bin(a[0], 8) == x[..8] == y[..8] == Bin(b[0], 8);
      OctetOf(a[0]);
      OctetOf(b[0]);
      assert x[8..] == MessageBits(a[1..]) && y[8..] == MessageBits(b[1..]);
      MessageBitsInjective(a[1..], b[1..]);
      assert a == [a[0]] + a[1..] && b == [b[0]] + b[1..];
    }
  }

  /** Damage confined to sixteen consecutive bits always changes the CRC. */
  lemma BurstDetected(init: uint16, a: seq<byte>, b: seq<byte>, from: nat)
    requires |a| == |b| && a != b
    requires forall k | 0 <= k < 8 * |a| && !(from <= k < from + 16) :: MessageBits(a)[k] == MessageBits(b)[k]
    ensures Fold(init, a) != Fold(init, b)
  {
    hide Fold, Feed, Remainder, Bin, MessageBits;
    var x, y := MessageBits(a), MessageBits(b);
    var d := Xor(x, y);
    if x == y {
      MessageBitsInjective(a, b);
    }
    var k :| 0 <= k < |x| && x[k] != y[k];
    assert d[k];
    BurstInWindow(d, from, k);
    SameCrcIff(init, a, b);
    FeedDivides(Zeros(16), d);
    assert XorFront(d + Zeros(16), Zeros(16)) == d + Zeros(16);
  }

  lemma BurstInWindow(d: seq<bool>, from: nat, k: nat)
    requires k < |d| && d[k]
    requires forall k | 0 <= k < |d| && !(from <= k < from + 16) :: !d[k]
    ensures Feed(Zeros(16), d) != Zeros(16)
  {
    hide Feed;
    var end := if from + 16 <= |d| then from + 16 else |d|;
    var word := d[from..end];
    assert word[k - from];
    assert d == Zeros(from) + (word + Zeros(|d| - end));
    BurstLeavesResidue(from, word, |d| - end);
  }

  lemma BurstLeavesResidue(before: nat, word: seq<bool>, after: nat)
    requires |word| <= 16 && true in word
    ensures Feed(Zeros(16), Zeros(before) + (word + Zeros(after))) != Zeros(16)
  {
    FeedConcat(Zeros(16), Zeros(before), word + Zeros(after));
    FeedZeros(before);
    FeedConcat(Zeros(16), word, Zeros(after));
    ShortWordSurvives(word);
    ZerosSurvive(Feed(Zeros(16), word), after);
  }

  // ---------- The receiver's check ----------

  /** The bits of a register, as the two octets that travel high octet first. */
  lemma TwoOctets(hi: byte, lo: byte)
    ensures MessageBits([hi, lo]) == Bin(Word(lo, hi), 16)
  {
    hide Bin;
    var w := Word(lo, hi);
    Powers();
    BinParts(hi, lo, 8, 8);
    assert [hi, lo][1..] == [lo] && [lo][1..] == [];
    assert MessageBits([lo]) == Bin(lo, 8) + [];
  }

  lemma {:induction false} FoldConcat(crc: uint16, a: seq<byte>, b: seq<byte>)
    ensures Fold(crc, a + b) == Fold(Fold(crc, a), b)
    decreases |a|
  {
    hide Crc16Byte;
    if a == [] {
      assert a + b == b;
    } else {
      assert (a + b)[1..] == a[1..] + b;
      FoldConcat(Crc16Byte(crc, a[0]), a[1..], b);
    }
  }

  /**
   * Running the division over a message and two further octets leaves nothing exactly when those octets
   * are the checksum of the message, high octet first.
   */
  lemma ResidueIff(init: uint16, bytes: seq<byte>, hi: byte, lo: byte)
    ensures Fold(init, bytes + [hi, lo]) == 0 <==> hi == Hi(Fold(init, bytes)) && lo == Lo(Fold(init, bytes))
  {
    hide Fold, Feed, Bin, MessageBits;
    var c := Fold(init, bytes);
    var s: register, w: register := Bin(c, 16), Bin(Word(lo, hi), 16);
    FoldConcat(init, bytes, [hi, lo]);
    FoldFeeds(c, [hi, lo]);
    TwoOctets(hi, lo);
    WordAgainstItself(s, w);
    XorZero(s, w);
    RegisterOf(c);
    RegisterOf(Word(lo, hi));
    RegisterOf(Fold(init, bytes + [hi, lo]));
    RegisterOf(0);
    BinZero(16);
    assert c == Word(lo, hi) <==> s == w;
  }

  lemma XorUnits(s: seq<bool>)
    ensures Xor(s, s) == Zeros(|s|) && Xor(s, Zeros(|s|)) == s == Xor(Zeros(|s|), s)
  {
  }

  lemma WordAgainstItself(s: register, w: register)
    ensures Feed(s, w) == Zeros(16) <==> Xor(s, w) == Zeros(16)
  {
    hide Feed, Xor, Zeros;
    SelfEmpties(s);
    FeedXor(s, s, w, s);
    XorUnits(s);
    XorUnits(Feed(s, w));
    var d: register := Xor(w, s);
    XorLaws(s, w, s);
    if d == Zeros(16) {
      FeedZeros(16);
    } else {
      ZerosOrNot(d);
      ShortWordSurvives(d);
    }
  }

  lemma SelfEmpties(s: register)
    ensures Feed(s, s) == Zeros(16)
  {
    hide Feed;
    FeedOwnBits(s, 16);
    assert s[..16] == s && s[16..] + Zeros(16) == Zeros(16);
  }

  /** Seventeen bits are enough to slip through: the divisor itself, anywhere in a message. */
  lemma DivisorGoesUnnoticed(init: uint16, before: seq<byte>, after: seq<byte>)
    ensures Fold(init, before + [0x00, 0x00, 0x00] + after) == Fold(init, before + [0x01, 0x80, 0x05] + after)
  {
    hide Fold, Remainder;
    FoldConcat(init, before + [0, 0, 0], after);
    FoldConcat(init, before + [1, 0x80, 5], after);
    FoldConcat(init, before, [0, 0, 0]);
    FoldConcat(init, before, [1, 0x80, 5]);
    SameThree(Fold(init, before));
  }

  lemma SameThree(c: uint16)
    ensures Fold(c, [0, 0, 0]) == Fold(c, [1, 0x80, 5])
  {
    hide Fold, Feed, Remainder, Bin, MessageBits;
    SameCrcIff(c, [0, 0, 0], [1, 0x80, 5]);
    SameCrcIff(0, [0, 0, 0], [1, 0x80, 5]);
    FoldZeros([0, 0, 0]);
    FoldOne();
    ResidueIff(0, [1], 0x80, 5);
    assert [1] + [0x80, 5] == [1, 0x80, 5];
  }

  lemma FoldOne()
    ensures Fold(0, [1]) == 0x8005
  {
    hide Feed, Bin;
    FoldFeeds(0, [1]);
    BinZero(16);
    TableEntryOne();
    assert [1][1..] == [];
    assert MessageBits([1]) == Bin(1, 8) + [] == Bin(1, 8);
    RegisterOf(Fold(0, [1]));
    RegisterOf(0x8005);
  }

  lemma TableEntryOne()
    ensures Feed(Zeros(16), Bin(1, 8)) == Bin(0x8005, 16)
  {
    hide Feed, Bin;
    OctetOf(1);
    TableResponds(Bin(1, 8));
    assert Table(1) == 0x8005;
  }

  lemma {:induction false} FoldZeros(bytes: seq<byte>)
    requires forall k | 0 <= k < |bytes| :: bytes[k] == 0
    ensures Fold(0, bytes) == 0
  {
    if bytes != [] {
      StepZero();
      FoldZeros(bytes[1..]);
    }
  }

  lemma StepZero()
    ensures Crc16Byte(0, 0) == 0
  {
    hide Bin, Feed, Crc16Byte;
    ByteStep(0, 0);
    BinZero(16);
    FeedZeros(8);
    BinZero(8);
    RegisterOf(0);
    RegisterOf(Crc16Byte(0, 0));
  }
}
