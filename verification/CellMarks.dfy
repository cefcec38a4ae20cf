/** The mark word of a cell: which kind of cell it is, and how much it carries. */
module CellMarks {
  import opened Bytes

  /** The fields of a data packet that the mark depends on. */
  datatype MarkFields = MarkFields(length: uint16, containers: uint16, id: uint16, total: uint16)

  /** `mark_info` of `BuildDataCellPacket`. */
  function MarkWord(f: MarkFields): uint16 {
    if f.length <= 66 then OrWords(OrWords(0x4000, (f.containers % 8) * 128), f.length % 128)
    else if f.length <= 93 then OrWords(OrWords(0x6000, (f.containers % 8) * 128), f.length % 128)
    else if f.length <= 155 then OrWords(OrWords(0x8000, (f.containers % 4) * 256), f.length % 256)
    else if f.length <= 233 then OrWords(OrWords(0xA000, (f.containers % 2) * 256), f.length % 256)
    else if f.length <= 467 then OrWords(0xC000, f.length % 512)
    else if f.id == 0 then OrWords(0xE000, (f.total % 2048) * 32)
    else if f.id < f.total - 1 then OrWords(0xE800, (f.id % 2048) * 32)
    else OrWords(0xF000, f.length % 512)
  }

  /** What a mark says to the receiver. */
  datatype Mark =
    | Signaling(labels: nat)
    | Container(size: nat, containers: nat, length: nat)
    | Whole(length: nat)
    | SplitHead(total: nat)
    | SplitMiddle(id: nat)
    | SplitTail(length: nat)
    | Unassigned

  function DecodeMark(w: uint16): Mark {
    match w / 8192
    case 1 => Signaling(w % 256)
    case 2 => Container(1, (w / 128) % 8, w % 128)
    case 3 => Container(2, (w / 128) % 8, w % 128)
    case 4 => Container(3, (w / 256) % 4, w % 256)
    case 5 => Container(4, (w / 256) % 2, w % 256)
    case 6 => Whole(w % 512)
    case 7 =>
      (match (w / 2048) % 4
       case 0 => SplitHead((w / 32) % 64)
       case 1 => SplitMiddle((w / 32) % 64)
       case _ => SplitTail(w % 512))
    case _ => Unassigned
  }

  /** The meaning of an unsplit packet: its exact length, and the container count as its field truncates it. */
  function Unsplit(f: MarkFields): Mark
    requires f.length <= 467
  {
    if f.length <= 66 then Container(1, f.containers % 8, f.length)
    else if f.length <= 93 then Container(2, f.containers % 8, f.length)
    else if f.length <= 155 then Container(3, f.containers % 4, f.length)
    else if f.length <= 233 then Container(4, f.containers % 2, f.length)
    else Whole(f.length)
  }

  lemma NamedPowers()
    ensures Pow2(5) == 32 && Pow2(7) == 128 && Pow2(8) == 256 && Pow2(9) == 512 && Pow2(11) == 2048 && Pow2(13) == 8192
  {
    assert Pow2(4) == 16;
    assert Pow2(7) == 128;
    assert Pow2(10) == 1024;
  }

  /** Class, container count and length sit side by side in the mark. */
  lemma SumOf(top: nat, count: nat, unit: nat, length: nat)
    requires top < 8 && length < unit && ((unit == 128 && count < 8) || (unit == 256 && count < 4))
    ensures OrWords(OrWords(top * 8192, count * unit), length) == top * 8192 + count * unit + length
  {
    hide OrWords, Pow2;
    NamedPowers();
    OrIsSum(top * 8192, count * unit, top, 13);
    if unit == 128 {
      OrIsSum(top * 8192 + count * 128, length, top * 64 + count, 7);
    } else {
      OrIsSum(top * 8192 + count * 256, length, top * 32 + count, 8);
    }
  }

  lemma NarrowFields(top: nat, count: nat, length: nat)
    requires top < 8 && length < 128 && count < 8
    ensures var w := top * 8192 + count * 128 + length;
            w / 8192 == top && w % 128 == length && (w / 128) % 8 == count
  {
    var w := top * 8192 + count * 128 + length;
    DivisionIs(w, 8192, top);
    DivisionIs(w, 128, top * 64 + count);
  }

  lemma WideFields(top: nat, count: nat, length: nat)
    requires top < 8 && length < 256 && count < 4
    ensures var w := top * 8192 + count * 256 + length;
            w / 8192 == top && w % 256 == length && (w / 256) % 4 == count && (count < 2 ==> (w / 256) % 2 == count)
  {
    var w := top * 8192 + count * 256 + length;
    DivisionIs(w, 8192, top);
    DivisionIs(w, 256, top * 32 + count);
  }

  /** The receiver recovers the length of an unsplit packet, and the container count up to its field. */
  lemma UnsplitMarkDecodes(f: MarkFields)
    requires f.length <= 467
    ensures DecodeMark(MarkWord(f)) == Unsplit(f)
  {
    hide *;
    if f.length <= 93 {
      NarrowMarkDecodes(f);
    } else if f.length <= 233 {
      WideMarkDecodes(f);
    } else {
      WholeMarkDecodes(f);
    }
  }

  lemma WholeMarkDecodes(f: MarkFields)
    requires 234 <= f.length <= 467
    ensures DecodeMark(MarkWord(f)) == Unsplit(f)
  {
    hide OrWords, Pow2;
    NamedPowers();
    OrIsSum(0xC000, f.length, 96, 9);
  }

  lemma NarrowMarkDecodes(f: MarkFields)
    requires f.length <= 93
    ensures DecodeMark(MarkWord(f)) == Unsplit(f)
  {
    hide OrWords;
    var top := if f.length <= 66 then 2 else 3;
    SumOf(top, f.containers % 8, 128, f.length);
    NarrowFields(top, f.containers % 8, f.length);
  }

  lemma WideMarkDecodes(f: MarkFields)
    requires 94 <= f.length <= 233
    ensures DecodeMark(MarkWord(f)) == Unsplit(f)
  {
    hide OrWords;
    var top, count := if f.length <= 155 then 4 else 5, if f.length <= 155 then f.containers % 4 else f.containers % 2;
    SumOf(top, count, 256, f.length);
    WideFields(top, count, f.length);
  }

  // ---------- Split packets ----------

  /** The five high bits of a split mark, ORed with what spills over from the eleven-bit field. */
  lemma SpillOver(high: nat, x: nat)
    requires high == 28 || high == 29
    requires x < 32
    ensures Val(Or(Bin(high, 5), Bin(x, 5))) == if high == 28 then 28 + x % 4 else 28 + 2 * ((x / 2) % 2) + 1
  {
    hide Bin, Val;
    var o := Or(Bin(high, 5), Bin(x, 5));
    FiveBits(28);
    FiveBits(29);
    FiveBits(x);
    assert o[0] && o[1] && o[2];
    assert o[3] == ((x / 2) % 2 == 1) && o[4] == (high == 29 || x % 2 == 1);
    FiveValue(o);
    HalfAndParity(x);
  }

  lemma HalfAndParity(x: nat)
    ensures x % 4 == 2 * ((x / 2) % 2) + x % 2
  {
  }

  lemma FiveBits(n: nat)
    ensures Bin(n, 5) == [(n / 16) % 2 == 1, (n / 8) % 2 == 1, (n / 4) % 2 == 1, (n / 2) % 2 == 1, n % 2 == 1]
  {
    assert n / 2 / 2 == n / 4 && n / 4 / 2 == n / 8 && n / 8 / 2 == n / 16;
    assert Bin(n / 4, 3) == Bin(n / 8, 2) + [(n / 4) % 2 == 1];
    assert Bin(n / 8, 2) == Bin(n / 16, 1) + [(n / 8) % 2 == 1];
    assert Bin(n / 16, 1) == [] + [(n / 16) % 2 == 1];
  }

  lemma FiveValue(o: seq<bool>)
    requires |o| == 5
    ensures Val(o) == 16 * N(o[0]) + 8 * N(o[1]) + 4 * N(o[2]) + 2 * N(o[3]) + N(o[4])
  {
    assert o[..4][..3] == o[..3] && o[..3][..2] == o[..2] && o[..2][..1] == o[..1];
    assert Val(o[..1]) == N(o[0]);
    assert Val(o[..3]) == 4 * Val(o[..1]) + 2 * N(o[1]) + N(o[2]);
  }

  lemma SplitWord(high: nat, t: nat)
    requires high == 28 || high == 29
    requires t < 2048
    ensures OrWords(high * 2048, t * 32)
            == (if high == 28 then 28 + (t / 64) % 4 else 28 + 2 * ((t / 128) % 2) + 1) * 2048 + (t % 64) * 32
  {
    hide Bin, Val, Pow2;
    Powers();
    NamedPowers();
    var x, y := t / 64, (t % 64) * 32;
    assert t * 32 == x * 2048 + y;
    BinParts(high, 0, 5, 11);
    BinParts(x, y, 5, 11);
    var o := Or(Bin(high, 5), Bin(x, 5));
    BinZero(11);
    assert Or(Bin(high, 5) + Zeros(11), Bin(x, 5) + Bin(y, 11)) == o + Bin(y, 11);
    SpillOver(high, x);
    ValBound(o);
    BinOfVal(o);
    BinParts(Val(o), y, 5, 11);
    ValOfBin(Val(o) * 2048 + y, 16);
  }

  /** What a head mark is read as, for any number of fragments: the bits of 64 and 128 spoil the class. */
  lemma HeadMarkReads(f: MarkFields)
    requires f.length >= 468 && f.id == 0
    ensures var spill := (f.total / 64) % 4;
            DecodeMark(MarkWord(f)) == if spill == 0 then SplitHead(f.total % 64)
                                       else if spill == 1 then SplitMiddle(f.total % 64)
                                       else SplitTail(f.total % 16 * 32)
  {
    hide OrWords, DecodeMark, MarkWord;
    HeadWord(f);
    var kind, field := HeadSpill(f.total);
    SplitReads(kind, field);
  }

  /** What a middle mark is read as, for any fragment: its class has the bit of 64, and that of 128 spoils it. */
  lemma MiddleMarkReads(f: MarkFields)
    requires f.length >= 468 && 0 < f.id < f.total - 1
    ensures DecodeMark(MarkWord(f)) == if (f.id / 128) % 2 == 0 then SplitMiddle(f.id % 64) else SplitTail(f.id % 16 * 32)
  {
    hide OrWords, DecodeMark, MarkWord;
    MiddleWord(f);
    var kind, field := MiddleSpill(f.id);
    SplitReads(kind, field);
  }

  lemma HeadSpill(n: nat) returns (kind: nat, field: nat)
    ensures OrWords(28 * 2048, n % 2048 * 32) == (28 + kind) * 2048 + field * 32
    ensures kind < 4 && field < 64 && kind == (n / 64) % 4 && field == n % 64 && field % 16 == n % 16
  {
    hide OrWords;
    var t := n % 2048;
    kind, field := (t / 64) % 4, t % 64;
    SplitWord(28, t);
    FieldParts(n);
  }

  lemma MiddleSpill(n: nat) returns (kind: nat, field: nat)
    ensures OrWords(29 * 2048, n % 2048 * 32) == (28 + kind) * 2048 + field * 32
    ensures kind < 4 && field < 64 && kind == 2 * ((n / 128) % 2) + 1 && field == n % 64 && field % 16 == n % 16
  {
    hide OrWords;
    var t := n % 2048;
    kind, field := 2 * ((t / 128) % 2) + 1, t % 64;
    SplitWord(29, t);
    FieldParts(n);
  }

  lemma HeadWord(f: MarkFields)
    requires f.length >= 468 && f.id == 0
    ensures MarkWord(f) == OrWords(28 * 2048, f.total % 2048 * 32)
  {
    hide OrWords;
  }

  lemma MiddleWord(f: MarkFields)
    requires f.length >= 468 && 0 < f.id < f.total - 1
    ensures MarkWord(f) == OrWords(29 * 2048, f.id % 2048 * 32)
  {
    hide OrWords;
  }

  lemma SplitReads(kind: nat, field: nat)
    requires kind < 4 && field < 64
    ensures DecodeMark((28 + kind) * 2048 + field * 32)
            == if kind == 0 then SplitHead(field) else if kind == 1 then SplitMiddle(field) else SplitTail(field % 16 * 32)
  {
    SplitFields(kind, field);
    SplitLow(kind, field);
  }

  lemma SplitLow(kind: nat, field: nat)
    ensures ((28 + kind) * 2048 + field * 32) % 512 == field % 16 * 32
  {
    var w, q := (28 + kind) * 2048 + field * 32, 4 * (28 + kind) + field / 16;
    DivisionIs(w, 512, q);
  }

  lemma FieldParts(n: nat)
    ensures var t := n % 2048;
            && t % 64 == n % 64 && t % 64 % 16 == n % 16
            && (t / 64) % 4 == (n / 64) % 4 && (t / 128) % 2 == (n / 128) % 2
  {
    var t, k := n % 2048, n / 2048;
    assert n == 2048 * k + t;
    DivisionIs(n, 64, 32 * k + t / 64);
    DivisionIs(n, 128, 16 * k + t / 128);
    DivisionIs(n, 16, 128 * k + t / 16);
    DivisionIs(t % 64, 16, t / 16 - 4 * (t / 64));
    DivisionIs(n / 64, 4, 8 * k + t / 64 / 4);
    DivisionIs(n / 128, 2, 8 * k + t / 128 / 2);
  }

  /** A head mark tells the number of fragments exactly when that number is below 64. */
  lemma HeadMarkIff(f: MarkFields)
    requires f.length >= 468 && f.id == 0
    ensures DecodeMark(MarkWord(f)) == SplitHead(f.total) <==> f.total < 64
  {
    hide OrWords;
    var t := f.total % 2048;
    SplitWord(28, t);
    SplitFields((t / 64) % 4, t % 64);
  }

  /** A middle mark tells which fragment it is exactly when its number is below 64. */
  lemma MiddleMarkIff(f: MarkFields)
    requires f.length >= 468 && 0 < f.id < f.total - 1
    ensures DecodeMark(MarkWord(f)) == SplitMiddle(f.id) <==> f.id < 64
  {
    hide OrWords;
    var t := f.id % 2048;
    SplitWord(29, t);
    SplitFields(2 * ((t / 128) % 2) + 1, t % 64);
  }

  /** A tail mark tells the length modulo 512. */
  lemma TailMark(f: MarkFields)
    requires f.length >= 468 && 0 < f.id && f.total - 1 <= f.id
    ensures DecodeMark(MarkWord(f)) == SplitTail(f.length % 512)
  {
    hide OrWords, Pow2;
    NamedPowers();
    var l := f.length % 512;
    OrIsSum(0xF000, l, 120, 9);
    TailFields(l);
  }

  lemma TailFields(l: nat)
    requires l < 512
    ensures var w := 0xF000 + l; w / 8192 == 7 && (w / 2048) % 4 == 2 && w % 512 == l
  {
  }

  lemma SplitFields(kind: nat, field: nat)
    requires kind < 4 && field < 64
    ensures var w := (28 + kind) * 2048 + field * 32;
            w / 8192 == 7 && (w / 2048) % 4 == kind && (w / 32) % 64 == field
  {
    var w := (28 + kind) * 2048 + field * 32;
    assert w / 32 == (28 + kind) * 64 + field;
    assert w / 2048 == 28 + kind;
  }

  /** Below 64 fragments the three kinds of split mark never read as one another. */
  lemma SplitMarksDistinct(f: MarkFields)
    requires f.length >= 468 && f.total < 64
    ensures DecodeMark(MarkWord(f)).SplitHead? <==> f.id == 0
    ensures DecodeMark(MarkWord(f)).SplitMiddle? <==> 0 < f.id < f.total - 1
    ensures DecodeMark(MarkWord(f)).SplitTail? <==> f.id > 0 && f.id >= f.total - 1
  {
    hide MarkWord, DecodeMark;
    if f.id == 0 {
      HeadMarkIff(f);
    } else if f.id < f.total - 1 {
      MiddleMarkIff(f);
    } else {
      TailMark(f);
    }
  }
}
