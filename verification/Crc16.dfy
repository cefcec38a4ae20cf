/** The CRC-16 with divisor x^16 + x^15 + x^2 + 1: the byte-wise table form, and the long division it stands for. */
module Crc16 {
  import opened Bytes

  // ---------- The table form of the program ----------

  function Column(c: nat, v0: uint16, v1: uint16, v2: uint16, v3: uint16,
                  v4: uint16, v5: uint16, v6: uint16, v7: uint16): uint16 {
    match c
    case 0 => v0 case 1 => v1 case 2 => v2 case 3 => v3
    case 4 => v4 case 5 => v5 case 6 => v6 case _ => v7
  }

  /** The table as it is printed: 32 rows of eight columns. */
  function Entry(row: nat, column: nat): uint16 {
    match row
    case 0 => Column(column, 0x0000, 0x8005, 0x800f, 0x000a, 0x801b, 0x001e, 0x0014, 0x8011)
    case 1 => Column(column, 0x8033, 0x0036, 0x003c, 0x8039, 0x0028, 0x802d, 0x8027, 0x0022)
    case 2 => Column(column, 0x8063, 0x0066, 0x006c, 0x8069, 0x0078, 0x807d, 0x8077, 0x0072)
    case 3 => Column(column, 0x0050, 0x8055, 0x805f, 0x005a, 0x804b, 0x004e, 0x0044, 0x8041)
    case 4 => Column(column, 0x80c3, 0x00c6, 0x00cc, 0x80c9, 0x00d8, 0x80dd, 0x80d7, 0x00d2)
    case 5 => Column(column, 0x00f0, 0x80f5, 0x80ff, 0x00fa, 0x80eb, 0x00ee, 0x00e4, 0x80e1)
    case 6 => Column(column, 0x00a0, 0x80a5, 0x80af, 0x00aa, 0x80bb, 0x00be, 0x00b4, 0x80b1)
    case 7 => Column(column, 0x8093, 0x0096, 0x009c, 0x8099, 0x0088, 0x808d, 0x8087, 0x0082)
    case 8 => Column(column, 0x8183, 0x0186, 0x018c, 0x8189, 0x0198, 0x819d, 0x8197, 0x0192)
    case 9 => Column(column, 0x01b0, 0x81b5, 0x81bf, 0x01ba, 0x81ab, 0x01ae, 0x01a4, 0x81a1)
    case 10 => Column(column, 0x01e0, 0x81e5, 0x81ef, 0x01ea, 0x81fb, 0x01fe, 0x01f4, 0x81f1)
    case 11 => Column(column, 0x81d3, 0x01d6, 0x01dc, 0x81d9, 0x01c8, 0x81cd, 0x81c7, 0x01c2)
    case 12 => Column(column, 0x0140, 0x8145, 0x814f, 0x014a, 0x815b, 0x015e, 0x0154, 0x8151)
    case 13 => Column(column, 0x8173, 0x0176, 0x017c, 0x8179, 0x0168, 0x816d, 0x8167, 0x0162)
    case 14 => Column(column, 0x8123, 0x0126, 0x012c, 0x8129, 0x0138, 0x813d, 0x8137, 0x0132)
    case 15 => Column(column, 0x0110, 0x8115, 0x811f, 0x011a, 0x810b, 0x010e, 0x0104, 0x8101)
    case 16 => Column(column, 0x8303, 0x0306, 0x030c, 0x8309, 0x0318, 0x831d, 0x8317, 0x0312)
    case 17 => Column(column, 0x0330, 0x8335, 0x833f, 0x033a, 0x832b, 0x032e, 0x0324, 0x8321)
    case 18 => Column(column, 0x0360, 0x8365, 0x836f, 0x036a, 0x837b, 0x037e, 0x0374, 0x8371)
    case 19 => Column(column, 0x8353, 0x0356, 0x035c, 0x8359, 0x0348, 0x834d, 0x8347, 0x0342)
    case 20 => Column(column, 0x03c0, 0x83c5, 0x83cf, 0x03ca, 0x83db, 0x03de, 0x03d4, 0x83d1)
    case 21 => Column(column, 0x83f3, 0x03f6, 0x03fc, 0x83f9, 0x03e8, 0x83ed, 0x83e7, 0x03e2)
    case 22 => Column(column, 0x83a3, 0x03a6, 0x03ac, 0x83a9, 0x03b8, 0x83bd, 0x83b7, 0x03b2)
    case 23 => Column(column, 0x0390, 0x8395, 0x839f, 0x039a, 0x838b, 0x038e, 0x0384, 0x8381)
    case 24 => Column(column, 0x0280, 0x8285, 0x828f, 0x028a, 0x829b, 0x029e, 0x0294, 0x8291)
    case 25 => Column(column, 0x82b3, 0x02b6, 0x02bc, 0x82b9, 0x02a8, 0x82ad, 0x82a7, 0x02a2)
    case 26 => Column(column, 0x82e3, 0x02e6, 0x02ec, 0x82e9, 0x02f8, 0x82fd, 0x82f7, 0x02f2)
    case 27 => Column(column, 0x02d0, 0x82d5, 0x82df, 0x02da, 0x82cb, 0x02ce, 0x02c4, 0x82c1)
    case 28 => Column(column, 0x8243, 0x0246, 0x024c, 0x8249, 0x0258, 0x825d, 0x8257, 0x0252)
    case 29 => Column(column, 0x0270, 0x8275, 0x827f, 0x027a, 0x826b, 0x026e, 0x0264, 0x8261)
    case 30 => Column(column, 0x0220, 0x8225, 0x822f, 0x022a, 0x823b, 0x023e, 0x0234, 0x8231)
    case _ => Column(column, 0x8213, 0x0216, 0x021c, 0x8219, 0x0208, 0x820d, 0x8207, 0x0202)
  }

  /** `crc16_table[i]`. */
  function Table(i: byte): uint16 {
    Entry(i / 8, i % 8)
  }

  /** The `^` of two machine words of k bits. */
  function XorWords(a: nat, b: nat, k: nat): (c: nat)
    ensures c < Pow2(k)
  {
    ValBound(Xor(Bin(a, k), Bin(b, k)));
    Val(Xor(Bin(a, k), Bin(b, k)))
  }

  /** `crc16_byte`. */
  function Crc16Byte(crc: uint16, data: byte): uint16 {
    Powers();
    XorWords((crc * 256) % 0x1_0000, Table(XorWords(crc / 256, data, 8)), 16)
  }

  /** The register after the loop of `CRC_16`, before its final `htons`. */
  function Fold(crc: uint16, bytes: seq<byte>): uint16
    decreases |bytes|
  {
    if bytes == [] then crc else Fold(Crc16Byte(crc, bytes[0]), bytes[1..])
  }

  // ---------- Long division of polynomials over GF(2), highest power first ----------

  /** The bits of a message, each octet from its high bit down. */
  function MessageBits(bytes: seq<byte>): (b: seq<bool>)
    ensures |b| == 8 * |bytes|
  {
    if bytes == [] then [] else Bin(bytes[0], 8) + MessageBits(bytes[1..])
  }

  /** Subtract p from the leading terms of d. */
  function XorFront(d: seq<bool>, p: seq<bool>): (r: seq<bool>)
    requires |p| <= |d|
    ensures |r| == |d|
  {
    seq(|d|, i requires 0 <= i < |d| => if i < |p| then d[i] != p[i] else d[i])
  }

  /** x^16 + x^15 + x^2 + 1, without its leading term. */
  const TAIL: seq<bool> :=
    [true, false, false, false, false, false, false, false, false, false, false, false, false, true, false, true]

  const DIVISOR: seq<bool> := [true] + TAIL

  /** Schoolbook long division by DIVISOR, keeping the remainder: sixteen coefficients. */
  function Remainder(dividend: seq<bool>): (r: seq<bool>)
    ensures |dividend| >= 16 ==> |r| == 16
    decreases |dividend|
  {
    if |dividend| <= 16 then dividend
    else if dividend[0] then Remainder(XorFront(dividend, DIVISOR)[1..])
    else Remainder(dividend[1..])
  }

  // ---------- Division one bit at a time: a shift register of sixteen cells ----------

  type register = s: seq<bool> | |s| == 16 witness Zeros(16)

  function Up(s: register): register {
    s[1..] + [false]
  }

  function ShiftIn(s: register, b: bool): register {
    if s[0] != b then Xor(Up(s), TAIL) else Up(s)
  }

  function Feed(s: register, bits: seq<bool>): register
    decreases |bits|
  {
    if bits == [] then s else Feed(ShiftIn(s, bits[0]), bits[1..])
  }

  // ---------- The value of a register ----------

  /** The value of four bits. */
  function Nibble(w: bool, x: bool, y: bool, z: bool): nat {
    8 * N(w) + 4 * N(x) + 2 * N(y) + N(z)
  }

  function NibbleAt(s: seq<bool>, k: nat): nat
    requires k + 4 <= |s|
  {
    Nibble(s[k], s[k + 1], s[k + 2], s[k + 3])
  }

  lemma ValPrefix(s: seq<bool>, k: nat)
    requires k < |s|
    ensures Val(s[..k + 1]) == 2 * Val(s[..k]) + N(s[k])
  {
    assert s[..k + 1][..k] == s[..k];
  }

  lemma ValNone(s: seq<bool>)
    ensures Val(s[..0]) == 0
  {
  }

  lemma ValFour(s: seq<bool>, k: nat)
    requires k + 4 <= |s|
    ensures Val(s[..k + 4]) == 16 * Val(s[..k]) + NibbleAt(s, k)
  {
    hide Val, N;
    ValPrefix(s, k);
    ValPrefix(s, k + 1);
    ValPrefix(s, k + 2);
    ValPrefix(s, k + 3);
  }

  lemma ValOctet(i: seq<bool>)
    requires |i| == 8
    ensures Val(i) == 16 * NibbleAt(i, 0) + NibbleAt(i, 4)
  {
    hide *;
    ValNone(i);
    ValFour(i, 0);
    ValFour(i, 4);
    assert i[..8] == i;
  }

  lemma ValRegister(s: seq<bool>)
    requires |s| == 16
    ensures Val(s) == 4096 * NibbleAt(s, 0) + 256 * NibbleAt(s, 4) + 16 * NibbleAt(s, 8) + NibbleAt(s, 12)
  {
    hide *;
    ValNone(s);
    ValFour(s, 0);
    ValFour(s, 4);
    ValFour(s, 8);
    ValFour(s, 12);
    assert s[..16] == s;
  }

  // ---------- Algebra of the register ----------

  lemma XorLaws(a: seq<bool>, b: seq<bool>, c: seq<bool>)
    requires |a| == |b| == |c|
    ensures Xor(a, b) == Xor(b, a)
    ensures Xor(Xor(a, b), c) == Xor(a, Xor(b, c)) == Xor(Xor(a, c), b)
    ensures Xor(Xor(a, b), b) == a
  {
  }

  lemma UpXor(a: register, b: register)
    ensures Up(Xor(a, b)) == Xor(Up(a), Up(b))
  {
  }

  /** The step is linear. */
  lemma ShiftInXor(s: register, t: register, b: bool, c: bool)
    ensures ShiftIn(Xor(s, t), b != c) == Xor(ShiftIn(s, b), ShiftIn(t, c))
  {
    hide Up;
    UpXor(s, t);
    var u, v, p: seq<bool> := Up(s), Up(t), TAIL;
    XorLaws(u, v, p);
    XorLaws(u, p, Xor(v, p));
    XorLaws(p, v, p);
    XorLaws(v, p, p);
    assert Xor(s, t)[0] == (s[0] != t[0]);
  }

  lemma {:induction false} FeedXor(s: register, t: register, a: seq<bool>, b: seq<bool>)
    requires |a| == |b|
    ensures Feed(Xor(s, t), Xor(a, b)) == Xor(Feed(s, a), Feed(t, b))
    decreases |a|
  {
    hide ShiftIn;
    if a != [] {
      ShiftInXor(s, t, a[0], b[0]);
      FeedXor(ShiftIn(s, a[0]), ShiftIn(t, b[0]), a[1..], b[1..]);
      assert Xor(a, b)[1..] == Xor(a[1..], b[1..]);
    }
  }

  lemma {:induction false} FeedConcat(s: register, a: seq<bool>, b: seq<bool>)
    ensures Feed(s, a + b) == Feed(Feed(s, a), b)
    decreases |a|
  {
    hide ShiftIn;
    if a == [] {
      assert a + b == b;
    } else {
      assert (a + b)[1..] == a[1..] + b;
      FeedConcat(ShiftIn(s, a[0]), a[1..], b);
    }
  }

  /** While the register holds its own leading bits, feeding them back only moves the rest up. */
  lemma {:induction false} FeedOwnBits(s: register, n: nat)
    requires n <= 16
    ensures Feed(s, s[..n]) == s[n..] + Zeros(n)
    decreases n
  {
    if n > 0 {
      var u := Up(s);
      assert ShiftIn(s, s[0]) == u;
      if n == 1 {
        assert s[..1][1..] == [];
        assert u == s[1..] + Zeros(1);
      } else {
        assert s[..n][1..] == u[..n - 1];
        FeedOwnBits(u, n - 1);
        assert u[n - 1..] + Zeros(n - 1) == s[n..] + Zeros(n);
      }
    }
  }

  // ---------- The table is the response to one octet ----------

  predicate PrefixParity(i: seq<bool>, n: int)
    requires n <= |i|
  {
    n > 0 && PrefixParity(i, n - 1) != i[n - 1]
  }

  /** The register after the first k bits of an octet entered an empty register. */
  function Wave(i: seq<bool>, k: nat): register
    requires k <= 8 == |i|
  {
    seq(16, x requires 0 <= x < 16 =>
      if x == 0 || x == 15 then PrefixParity(i, k)
      else if x < 6 then false
      else if x == 14 then PrefixParity(i, k - 1)
      else PrefixParity(i, k - 15 + x) != PrefixParity(i, k - 13 + x))
  }

  lemma WaveStep(i: seq<bool>, k: nat)
    requires k < 8 == |i|
    ensures ShiftIn(Wave(i, k), i[k]) == Wave(i, k + 1)
  {
    var w, v := Wave(i, k), Wave(i, k + 1);
    assert PrefixParity(i, k + 1) == (PrefixParity(i, k) != i[k]);
    assert !PrefixParity(i, k - 9) && !PrefixParity(i, k - 7);
    forall x | 0 <= x < 16
      ensures ShiftIn(w, i[k])[x] == v[x]
    {
      if x < 15 {
        assert Up(w)[x] == w[x + 1];
      }
    }
  }

  lemma {:induction false} WaveFeeds(i: seq<bool>, k: nat)
    requires k <= 8 == |i|
    ensures Feed(Wave(i, k), i[k..]) == Wave(i, 8)
    decreases 8 - k
  {
    hide Wave, ShiftIn;
    if k < 8 {
      WaveStep(i, k);
      WaveFeeds(i, k + 1);
      assert i[k..][1..] == i[k + 1..];
    }
  }

  /** All 256 literals, the index given by the parities q1 .. q8 of its leading bits. */
  lemma Entries(q1: bool, q2: bool, q3: bool, q4: bool, q5: bool, q6: bool, q7: bool, q8: bool)
    ensures Entry(2 * Nibble(q1, q1 != q2, q2 != q3, q3 != q4) + N(q4 != q5), Nibble(false, q5 != q6, q6 != q7, q7 != q8))
            == 4096 * Nibble(q8, false, false, false) + 256 * Nibble(false, false, q1, q2)
               + 16 * Nibble(q1 != q3, q2 != q4, q3 != q5, q4 != q6) + Nibble(q5 != q7, q6 != q8, q7, q8)
  {
  }

  lemma ParityUnrolled(i: seq<bool>)
    requires |i| == 8
    ensures !PrefixParity(i, -1) && !PrefixParity(i, 0) && PrefixParity(i, 1) == i[0]
    ensures PrefixParity(i, 2) == (PrefixParity(i, 1) != i[1])
    ensures PrefixParity(i, 3) == (PrefixParity(i, 2) != i[2]) && PrefixParity(i, 4) == (PrefixParity(i, 3) != i[3])
    ensures PrefixParity(i, 5) == (PrefixParity(i, 4) != i[4]) && PrefixParity(i, 6) == (PrefixParity(i, 5) != i[5])
    ensures PrefixParity(i, 7) == (PrefixParity(i, 6) != i[6]) && PrefixParity(i, 8) == (PrefixParity(i, 7) != i[7])
  {
    assert PrefixParity(i, 1) == (PrefixParity(i, 0) != i[0]);
  }

  lemma WaveValue(i: seq<bool>, q: seq<bool>)
    requires |i| == 8 && |q| == 9
    requires !PrefixParity(i, -1) && !PrefixParity(i, 0) && forall k | 1 <= k <= 8 :: q[k] == PrefixParity(i, k)
    ensures Val(Wave(i, 8)) == 4096 * Nibble(q[8], false, false, false) + 256 * Nibble(false, false, q[1], q[2])
                               + 16 * Nibble(q[1] != q[3], q[2] != q[4], q[3] != q[5], q[4] != q[6])
                               + Nibble(q[5] != q[7], q[6] != q[8], q[7], q[8])
  {
    hide PrefixParity, Nibble, N, Val;
    ValRegister(Wave(i, 8));
  }

  lemma TableIsWave(i: seq<bool>)
    requires |i| == 8
    ensures Val(i) < 256 && Table(Val(i)) == Val(Wave(i, 8))
  {
    hide Entry, Nibble, N, Val, Wave, PrefixParity;
    ParityUnrolled(i);
    var q := seq(9, k requires 0 <= k <= 8 => PrefixParity(i, k));
    WaveValue(i, q);
    Entries(q[1], q[2], q[3], q[4], q[5], q[6], q[7], q[8]);
    OctetValue(i);
  }

  /** What an octet leaves in an empty register, in closed form. */
  lemma OctetWave(i: seq<bool>)
    requires |i| == 8
    ensures Feed(Zeros(16), i) == Wave(i, 8)
  {
    hide Wave, Feed;
    WaveFeeds(i, 0);
    EmptyWave(i);
    assert i[0..] == i;
  }

  lemma TableResponds(i: seq<bool>)
    requires |i| == 8
    ensures Val(i) < 256 && Bin(Table(Val(i)), 16) == Feed(Zeros(16), i)
  {
    hide *;
    TableIsWave(i);
    OctetWave(i);
    BinOfVal(Wave(i, 8));
  }

  lemma EmptyWave(i: seq<bool>)
    requires |i| == 8
    ensures Wave(i, 0) == Zeros(16)
  {
    assert forall n: int | n <= 0 :: !PrefixParity(i, n);
  }

  lemma OctetValue(i: seq<bool>)
    requires |i| == 8
    ensures Val(i) < 256
    ensures Val(i) / 8 == 2 * Nibble(i[0], i[1], i[2], i[3]) + N(i[4]) && Val(i) % 8 == Nibble(false, i[5], i[6], i[7])
  {
    ValOctet(i);
  }

  lemma OctetOf(data: byte)
    ensures Val(Bin(data, 8)) == data
  {
    Powers();
    ValOfBin(data, 8);
  }

  lemma RegisterOf(crc: uint16)
    ensures Val(Bin(crc, 16)) == crc
  {
    Powers();
    ValOfBin(crc, 16);
  }

  /** Shifting a 16-bit word up by one octet. */
  lemma ShiftOctet(crc: uint16)
    ensures Bin(crc, 16)[..8] == Bin(crc / 256, 8)
    ensures Bin((crc * 256) % 0x1_0000, 16) == Bin(crc, 16)[8..] + Zeros(8)
  {
    hide Bin, Pow2;
    var n := (crc * 256) % 0x1_0000;
    assert n == crc % 256 * 256;
    Powers();
    BinParts(crc / 256, crc % 256, 8, 8);
    BinParts(crc % 256, 0, 8, 8);
    BinZero(8);
    assert crc == crc / 256 * 256 + crc % 256;
  }

  // ---------- Table form = shift register ----------

  /** One step of the table form shifts in the eight bits of the octet. */
  lemma ByteStep(crc: uint16, data: byte)
    ensures Bin(Crc16Byte(crc, data), 16) == Feed(Bin(crc, 16), Bin(data, 8))
  {
    hide Bin, Val, Table, Feed;
    var s: register, d := Bin(crc, 16), Bin(data, 8);
    var i := Xor(s[..8], d);
    ShiftOctet(crc);
    TableResponds(i);
    var up: register := s[8..] + Zeros(8);
    BinOfVal(Xor(up, Feed(Zeros(16), i)));
    FeedOwnBits(s, 8);
    FeedXor(s, Zeros(16), s[..8], i);
    assert Xor(s[..8], i) == d;
    assert Xor(s, Zeros(16)) == s;
  }

  /** The loop of `CRC_16` is division of the whole message one bit at a time. */
  lemma {:induction false} FoldFeeds(crc: uint16, bytes: seq<byte>)
    ensures Bin(Fold(crc, bytes), 16) == Feed(Bin(crc, 16), MessageBits(bytes))
    decreases |bytes|
  {
    hide Crc16Byte, Bin, Feed;
    if bytes != [] {
      ByteStep(crc, bytes[0]);
      FoldFeeds(Crc16Byte(crc, bytes[0]), bytes[1..]);
      FeedConcat(Bin(crc, 16), Bin(bytes[0], 8), MessageBits(bytes[1..]));
    } else {
      FeedNothing(Bin(crc, 16));
    }
  }

  lemma FeedNothing(s: register)
    ensures Feed(s, []) == s
  {
  }

  // ---------- Shift register = long division ----------

  /** Dividing what is left of the message, with the register added to its leading terms. */
  lemma {:induction false} FeedDivides(s: register, bits: seq<bool>)
    ensures Remainder(XorFront(bits + Zeros(16), s)) == Feed(s, bits)
    decreases |bits|
  {
    hide ShiftIn;
    var m := bits + Zeros(16);
    var d := XorFront(m, s);
    if bits == [] {
      assert d == s;
    } else {
      var t := ShiftIn(s, bits[0]);
      FeedDivides(t, bits[1..]);
      assert m[1..] == bits[1..] + Zeros(16);
      DivisionStep(m, s);
    }
  }

  lemma DivisionStep(m: seq<bool>, s: register)
    requires |m| > 16
    ensures var d := XorFront(m, s);
            (if d[0] then XorFront(d, DIVISOR)[1..] else d[1..]) == XorFront(m[1..], ShiftIn(s, m[0]))
  {
    var d, t := XorFront(m, s), ShiftIn(s, m[0]);
    var e := if d[0] then XorFront(d, DIVISOR)[1..] else d[1..];
    forall x | 0 <= x < |m| - 1
      ensures e[x] == XorFront(m[1..], t)[x]
    {
      if x < 15 {
        assert Up(s)[x] == s[x + 1];
      }
    }
  }

  /**
   * The table-driven loop computes the remainder of schoolbook long division: the message times x^16,
   * with the initial register added to its sixteen leading terms.
   */
  lemma TableFormIsDivision(crc: uint16, bytes: seq<byte>)
    ensures Bin(Fold(crc, bytes), 16) == Remainder(XorFront(MessageBits(bytes) + Zeros(16), Bin(crc, 16)))
  {
    FoldFeeds(crc, bytes);
    FeedDivides(Bin(crc, 16), MessageBits(bytes));
  }

  // ---------- The loop ----------

  lemma FoldStep(crc: uint16, bytes: seq<byte>)
    requires bytes != []
    ensures Fold(crc, bytes) == Fold(Crc16Byte(crc, bytes[0]), bytes[1..])
  {
  }

  lemma FoldDone(crc: uint16)
    ensures Fold(crc, []) == crc
  {
  }

  /** `CRC_16`: the register is returned through `htons`. */
  method Crc(init: uint16, buffer: array<byte>, start: nat, len: nat) returns (r: uint16)
    requires start + len <= buffer.Length
    ensures r == Swap(Fold(init, buffer[start..start + len]))
    ensures Bin(Swap(r), 16) == Remainder(XorFront(MessageBits(buffer[start..start + len]) + Zeros(16), Bin(init, 16)))
  {
    hide Fold, Remainder, MessageBits, XorFront, Bin, Crc16Byte, Swap;
    var crc := init;
    var pos := start;
    ghost var end := start + len;
    var left := len;
    while left > 0
      invariant pos + left == end
      invariant Fold(crc, buffer[pos..end]) == Fold(init, buffer[start..end])
    {
      FoldStep(crc, buffer[pos..end]);
      assert buffer[pos..end][1..] == buffer[pos + 1..end];
      crc := Crc16Byte(crc, buffer[pos]);
      pos := pos + 1;
      left := left - 1;
    }
    FoldDone(crc);
    assert buffer[pos..end] == [];
    r := Swap(crc);
    SwapTwice(crc);
    TableFormIsDivision(init, buffer[start..end]);
  }
}
