/** Octets, 16-bit words, and the bitwise view of both.  The host is little-endian. */
module Bytes {
  type byte = x: int | 0 <= x < 256

  type uint16 = x: int | 0 <= x < 0x1_0000

  // ---------- Byte order ----------

  function Lo(n: uint16): byte {
    n % 256
  }

  function Hi(n: uint16): byte {
    n / 256
  }

  /** What a little-endian host reads through a `uint16_t*` that points at the octets lo, hi. */
  function Word(lo: byte, hi: byte): uint16 {
    lo + 256 * hi
  }

  /** `htons` and `ntohs` on a little-endian host. */
  function Swap(n: uint16): uint16 {
    Word(Hi(n), Lo(n))
  }

  lemma WordParts(lo: byte, hi: byte)
    ensures Lo(Word(lo, hi)) == lo && Hi(Word(lo, hi)) == hi
  {
  }

  lemma WordWhole(n: uint16)
    ensures Word(Lo(n), Hi(n)) == n
  {
  }

  lemma SwapTwice(n: uint16)
    ensures Swap(Swap(n)) == n
    ensures Lo(Swap(n)) == Hi(n) && Hi(Swap(n)) == Lo(n)
  {
    hide Lo, Hi, Word;
    WordParts(Hi(n), Lo(n));
    WordWhole(n);
  }

  /** The two octets that `*(uint16_t*)pos = n` leaves in memory. */
  function Stored(n: uint16): (s: seq<byte>)
    ensures |s| == 2
  {
    [Lo(n), Hi(n)]
  }

  // ---------- Bits, highest first ----------

  function Pow2(k: nat): (p: nat)
    ensures p >= 1
  {
    if k == 0 then 1 else 2 * Pow2(k - 1)
  }

  /** The k low bits of n. */
  function Bin(n: nat, k: nat): (b: seq<bool>)
    ensures |b| == k
  {
    if k == 0 then [] else Bin(n / 2, k - 1) + [n % 2 == 1]
  }

  function Val(b: seq<bool>): nat {
    if b == [] then 0 else 2 * Val(b[..|b| - 1]) + N(b[|b| - 1])
  }

  function N(b: bool): nat {
    if b then 1 else 0
  }

  lemma {:induction false} ValBound(b: seq<bool>)
    ensures Val(b) < Pow2(|b|)
  {
    if b != [] {
      ValBound(b[..|b| - 1]);
    }
  }

  lemma ValLast(b: seq<bool>, x: bool)
    ensures Val(b + [x]) == 2 * Val(b) + N(x)
  {
    assert (b + [x])[..|b|] == b;
  }

  lemma {:induction false} ValOfBin(n: nat, k: nat)
    requires n < Pow2(k)
    ensures Val(Bin(n, k)) == n
  {
    hide Bin, Val, Pow2;
    if k == 0 {
      NoBits(n);
    } else {
      HalfBelow(n, k);
      ValOfBin(n / 2, k - 1);
      LastBit(n, k);
      ValLast(Bin(n / 2, k - 1), n % 2 == 1);
    }
  }

  lemma NoBits(n: nat)
    requires n < Pow2(0)
    ensures n == 0 && Val(Bin(n, 0)) == 0
  {
  }

  lemma HalfBelow(n: nat, k: nat)
    requires k > 0 && n < Pow2(k)
    ensures n / 2 < Pow2(k - 1)
  {
  }

  lemma {:induction false} BinOfVal(b: seq<bool>)
    ensures Bin(Val(b), |b|) == b
  {
    if b != [] {
      var front := b[..|b| - 1];
      BinOfVal(front);
      assert Val(b) / 2 == Val(front);
      assert b == front + [b[|b| - 1]];
    }
  }

  /** Addition of polynomials over GF(2), and the `^` of machine words. */
  function Xor(a: seq<bool>, b: seq<bool>): (c: seq<bool>)
    requires |a| == |b|
    ensures |c| == |a|
  {
    seq(|a|, i requires 0 <= i < |a| => a[i] != b[i])
  }

  function Or(a: seq<bool>, b: seq<bool>): (c: seq<bool>)
    requires |a| == |b|
    ensures |c| == |a|
  {
    seq(|a|, i requires 0 <= i < |a| => a[i] || b[i])
  }

  function Zeros(n: nat): (z: seq<bool>)
    ensures |z| == n
  {
    seq(n, _ => false)
  }

  /** n shifted up by k bits: the product with Pow2(k), defined without a multiplication. */
  function Shl(n: nat, k: nat): nat {
    if k == 0 then n else 2 * Shl(n, k - 1)
  }

  lemma {:induction false} ShlIsProduct(n: nat, k: nat)
    ensures Shl(n, k) == n * Pow2(k)
  {
    if k > 0 {
      ShlIsProduct(n, k - 1);
      Doubled(n, Pow2(k - 1));
    }
  }

  lemma Doubled(n: nat, p: nat)
    ensures n * (2 * p) == 2 * (n * p)
  {
  }

  /** A word of n + k bits is its high n bits followed by its low k bits. */
  lemma {:induction false} BinShl(high: nat, low: nat, n: nat, k: nat)
    requires low < Pow2(k)
    ensures Bin(Shl(high, k) + low, n + k) == Bin(high, n) + Bin(low, k)
  {
    if k > 0 {
      var w := Shl(high, k) + low;
      assert w / 2 == Shl(high, k - 1) + low / 2 && w % 2 == low % 2;
      BinShl(high, low / 2, n, k - 1);
      LastBit(w, n + k);
      LastBit(low, k);
    } else {
      assert Bin(high, n) + Bin(low, k) == Bin(high, n);
    }
  }

  lemma LastBit(n: nat, k: nat)
    requires k > 0
    ensures Bin(n, k) == Bin(n / 2, k - 1) + [n % 2 == 1]
  {
  }

  lemma MulMonotone(d: nat, a: int, b: int)
    ensures a <= b ==> d * a <= d * b
  {
  }

  lemma DivisionIs(n: nat, d: nat, q: nat)
    requires d > 0 && d * q <= n < d * q + d
    ensures n / d == q
  {
    MulMonotone(d, n / d, q - 1);
    MulMonotone(d, q + 1, n / d);
  }

  lemma {:induction false} BinZero(k: nat)
    ensures Bin(0, k) == Zeros(k)
  {
    if k > 0 {
      BinZero(k - 1);
    }
  }

  /** The `|` of two machine words of 16 bits. */
  function OrWords(a: uint16, b: uint16): (c: uint16)
  {
    ValBound(Or(Bin(a, 16), Bin(b, 16)));
    Powers();
    Val(Or(Bin(a, 16), Bin(b, 16)))
  }

  lemma Powers()
    ensures Pow2(8) == 256 && Pow2(16) == 0x1_0000
  {
    assert Pow2(4) == 16;
    assert Pow2(12) == 4096;
  }

  /** Where the operands share no bit, `|` is addition. */
  lemma OrIsSum(a: uint16, b: uint16, high: nat, k: nat)
    requires k <= 16 && a == high * Pow2(k) && b < Pow2(k) && a + b < 0x1_0000
    ensures OrWords(a, b) == a + b
  {
    hide Bin, Val, Pow2;
    Powers();
    var n := 16 - k;
    BinParts(high, 0, n, k);
    BinParts(0, b, n, k);
    BinParts(high, b, n, k);
    BinZero(k);
    BinZero(n);
    assert Or(Bin(high, n) + Zeros(k), Zeros(n) + Bin(b, k)) == Bin(high, n) + Bin(b, k);
    ZeroPower(k);
    assert Bin(a, 16) == Bin(high, n) + Zeros(k);
    assert Bin(b, 16) == Zeros(n) + Bin(b, k);
    ValOfBin(a + b, 16);
  }

  lemma OrCommutes(a: uint16, b: uint16)
    ensures OrWords(a, b) == OrWords(b, a)
  {
    hide Bin, Val;
    assert Or(Bin(a, 16), Bin(b, 16)) == Or(Bin(b, 16), Bin(a, 16));
  }

  lemma ZeroPower(k: nat)
    ensures 0 * Pow2(k) == 0
  {
  }

  lemma BinParts(high: nat, low: nat, n: nat, k: nat)
    requires low < Pow2(k)
    ensures Bin(high * Pow2(k) + low, n + k) == Bin(high, n) + Bin(low, k)
  {
    hide *;
    ShlIsProduct(high, k);
    BinShl(high, low, n, k);
  }
}
