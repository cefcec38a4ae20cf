/** The two cell encoders of the publisher, the checksum of the legacy path, and what a receiver recovers. */
module CellBuilder {
  import opened Bytes
  import opened Memory
  import opened Crc16
  import opened CrcDetection
  import opened SwappedChecksum
  import opened CellMarks
  import opened Decimal

  const SECURITY_HEAD_LEN := 11
  const CHECK_SUM_SIZE := 2
  const SECURITY_LEVEL: uint16 := 0xFB31
  const BUSINESS_ID: nat := 60000
  const MAX_LABELS := 255

  type uint32 = x: int | 0 <= x < 0x1_0000_0000

  // ---------- Fields in network order ----------

  /** `*(uint16_t*)pos = htons(n)` */
  function Net16(n: uint16): (s: seq<byte>)
    ensures |s| == 2
  {
    Stored(Swap(n))
  }

  /** `*(uint32_t*)pos = htonl(n)` */
  function Net32(n: uint32): (s: seq<byte>)
    ensures |s| == 4
  {
    [n / 0x100_0000, (n / 0x1_0000) % 256, (n / 256) % 256, n % 256]
  }

  /** `*(uint32_t*)` of four octets on a little-endian host. */
  function Load32(s: seq<byte>): uint32
    requires |s| == 4
  {
    var a: int, b: int, c: int, d: int := s[0], s[1], s[2], s[3];
    a + 256 * b + 0x1_0000 * c + 0x100_0000 * d
  }

  lemma Net16Octets(n: uint16)
    ensures Net16(n) == [Hi(n), Lo(n)]
  {
    SwapTwice(n);
  }

  lemma LowOctet(low: byte, high: nat)
    ensures (low + 256 * high) % 256 == low && (low + 256 * high) / 256 == high
  {
  }

  lemma HalfOfFour(n: nat)
    ensures n / 0x1_0000 == n / 256 / 256 && n / 0x100_0000 == n / 256 / 256 / 256
  {
  }

  /** Loading in host order and storing in network order reverses the octets. */
  lemma Net32Reverses(s: seq<byte>)
    requires |s| == 4
    ensures Net32(Load32(s)) == [s[3], s[2], s[1], s[0]]
  {
    var a: int, b: int, c: int, d: int := s[0], s[1], s[2], s[3];
    LowOctet(a, b + 256 * (c + 256 * d));
    LowOctet(b, c + 256 * d);
    LowOctet(c, d);
    HalfOfFour(Load32(s));
  }

  /** The eighteen octets in front of the mark: security head, header and a placeholder. */
  function Header(kind: byte, security: uint16, business: uint32): (h: seq<byte>)
    ensures |h| == 18
  {
    Net16(security) + [kind] + Net32(business) + [0] + Repeat(0, 3) + [kind] + Net32(business) + [0] + [0]
  }

  lemma Net32Whole(n: uint32)
    ensures var s := Net32(n); Load32([s[3], s[2], s[1], s[0]]) == n
  {
    assert n / 256 / 256 == n / 0x1_0000 && n / 0x1_0000 / 256 == n / 0x100_0000;
  }

  /** What a receiver reads in the header: big-endian fields at their offsets, and zeros everywhere else. */
  lemma HeaderDecodes(kind: byte, security: uint16, business: uint32)
    ensures var h := Header(kind, security, business);
            && Word(h[1], h[0]) == security
            && h[2] == h[11] == kind
            && Load32([h[6], h[5], h[4], h[3]]) == business == Load32([h[15], h[14], h[13], h[12]])
            && forall i | 7 <= i < 11 || 16 <= i < 18 :: h[i] == 0
  {
    hide Net16, Net32, Load32, Word;
    Net16Octets(security);
    WordWhole(security);
    Net32Whole(business);
    var h := Header(kind, security, business);
    assert h[0..2] == Net16(security) && h[3..7] == Net32(business) && h[12..16] == Net32(business);
  }

  // ---------- Writing through a moving position ----------

  /** One field stored at pos; body is what has been written so far over base. */
  method Emit(cell: array<byte>, pos: nat, bytes: seq<byte>, ghost base: seq<byte>, ghost body: seq<byte>)
    returns (next: nat)
    requires pos == |body| && pos + |bytes| <= cell.Length == |base| && cell[..] == Put(base, 0, body)
    modifies cell
    ensures next == |body + bytes| && cell[..] == Put(base, 0, body + bytes)
  {
    Copy(cell, pos, bytes);
    next := pos + |bytes|;
  }

  /** Octets skipped over a cleared cell are zeros. */
  lemma Skip(base: seq<byte>, body: seq<byte>, n: nat)
    requires |body| + n <= |base| && forall i | |body| <= i < |body| + n :: base[i] == 0
    ensures Put(base, 0, body) == Put(base, 0, body + Repeat(0, n))
  {
  }

  lemma PutCovers(was: seq<byte>, a: seq<byte>, b: seq<byte>)
    requires |a| <= |b| <= |was|
    ensures Put(Put(was, 0, a), 0, b) == Put(was, 0, b)
  {
  }

  lemma PutPrefix(base: seq<byte>, body: seq<byte>)
    requires |body| <= |base|
    ensures Put(base, 0, body)[..|body|] == body
  {
  }

  lemma SliceOfPrefix(c: seq<byte>, b: seq<byte>, i: nat, j: nat)
    requires i <= j <= |b| <= |c| && c[..|b|] == b
    ensures c[i..j] == b[i..j]
  {
    assert forall k | 0 <= k < |b| :: c[k] == c[..|b|][k];
  }

  lemma PutNext(base: seq<byte>, body: seq<byte>, more: seq<byte>)
    requires |body| + |more| <= |base|
    ensures Put(Put(base, 0, body), |body|, more) == Put(base, 0, body + more)
  {
  }

  // ---------- The data cell ----------

  /** `DataPacketInfo`; the data may be missing. */
  datatype Payload = Null | Data(bytes: seq<byte>)

  datatype DataPacketInfo = DataPacketInfo(labelValue: uint16, fields: MarkFields, data: Payload)

  predicate DataPresent(info: DataPacketInfo) {
    info.data.Data? ==> |info.data.bytes| >= info.fields.length
  }

  /** The octets of the packet that go into a cell of this size. */
  function Copied(info: DataPacketInfo, cellSize: nat): (p: seq<byte>)
    requires cellSize >= 24 && DataPresent(info)
    ensures |p| <= cellSize - 24
  {
    if info.data.Null? then []
    else info.data.bytes[..if info.fields.length < cellSize - 24 then info.fields.length else cellSize - 24]
  }

  function DataFront(info: DataPacketInfo): (f: seq<byte>)
    ensures |f| == 22
  {
    Header(0x01, SECURITY_LEVEL, BUSINESS_ID) + Net16(MarkWord(info.fields)) + Net16(info.labelValue)
  }

  /** Everything in front of the checksum. */
  function DataBody(info: DataPacketInfo, cellSize: nat): (b: seq<byte>)
    requires cellSize >= 24 && DataPresent(info)
    ensures |b| == cellSize - 2
  {
    var p := Copied(info, cellSize);
    DataFront(info) + p + Repeat(0, cellSize - 24 - |p|)
  }

  /** The checksum is swapped twice, so its low octet comes first. */
  function DataCell(info: DataPacketInfo, cellSize: nat): (c: seq<byte>)
    requires cellSize >= 24 && DataPresent(info)
    ensures |c| == cellSize
  {
    var b := DataBody(info, cellSize);
    b + Stored(Fold(0, b[SECURITY_HEAD_LEN..]))
  }

  /** The fields that open both kinds of cell, written one after another into a cleared cell. */
  method WriteHeader(cell: array<byte>, kind: byte, security: uint16, business: uint32, ghost base: seq<byte>)
    returns (pos: nat)
    requires cell.Length == |base| >= 18 && cell[..] == base
    requires forall i | 0 <= i < 18 :: base[i] == 0
    modifies cell
    ensures pos == 18 && cell[..] == Put(base, 0, Header(kind, security, business))
  {
    hide Put, Net16, Net32;
    PutEmpty(base);
    var n16, n32 := Net16(security), Net32(business);
    pos := Emit(cell, 0, n16, base, []);
    pos := Emit(cell, pos, [kind], base, [] + n16);
    pos := Emit(cell, pos, n32, base, [] + n16 + [kind]);
    pos := Emit(cell, pos, [0], base, [] + n16 + [kind] + n32);
    Skip(base, [] + n16 + [kind] + n32 + [0], 3);
    pos := pos + 3;
    ghost var head := [] + n16 + [kind] + n32 + [0] + Repeat(0, 3);
    pos := Emit(cell, pos, [kind], base, head);
    pos := Emit(cell, pos, n32, base, head + [kind]);
    pos := Emit(cell, pos, [0], base, head + [kind] + n32);
    pos := Emit(cell, pos, [0], base, head + [kind] + n32 + [0]);
    assert head + [kind] + n32 + [0] + [0] == Header(kind, security, business);
  }

  lemma PutEmpty(base: seq<byte>)
    ensures Put(base, 0, []) == base
  {
  }

  /** `BuildCellPacket` for a data packet: the cell is cleared, then written field by field. */
  method BuildDataCellPacket(info: DataPacketInfo, cell: array<byte>, cellSize: nat)
    requires 24 <= cellSize <= cell.Length && DataPresent(info)
    modifies cell
    ensures cell[..] == Put(old(cell[..]), 0, DataCell(info, cellSize))
  {
    hide Put, Net16, Header, MarkWord, Fold, Stored, Repeat, Swap;
    ghost var was := cell[..];
    Fill(cell, 0, 0, cellSize);
    ghost var base := cell[..];
    Cleared(was, cellSize);
    var pos := WriteHeader(cell, 0x01, SECURITY_LEVEL, BUSINESS_ID, base);
    ghost var body := Header(0x01, SECURITY_LEVEL, BUSINESS_ID);
    pos := Emit(cell, pos, Net16(MarkWord(info.fields)), base, body);
    body := body + Net16(MarkWord(info.fields));
    pos := Emit(cell, pos, Net16(info.labelValue), base, body);
    body := DataFront(info);
    if info.data.Data? && info.fields.length > 0 {
      var maxDataSize := cellSize - pos - 2;
      var copySize := if info.fields.length < maxDataSize then info.fields.length else maxDataSize;
      pos := Emit(cell, pos, info.data.bytes[..copySize], base, body);
    }
    body := body + Copied(info, cellSize);
    assert cell[..] == Put(base, 0, body);
    var remaining := cellSize - pos - 2;
    if remaining > 0 {
      pos := Emit(cell, pos, Repeat(0, remaining), base, body);
    }
    RepeatNone(0);
    body := DataBody(info, cellSize);
    assert cell[..] == Put(base, 0, body);
    PutPrefix(base, body);
    assert cell[..][SECURITY_HEAD_LEN..cellSize - 2] == body[SECURITY_HEAD_LEN..];
    StoreChecksum(cell, pos, cellSize);
    PutNext(base, body, Stored(Fold(0, body[SECURITY_HEAD_LEN..])));
    PutCovers(was, Repeat(0, cellSize), DataCell(info, cellSize));
  }

  /** The checksum of the cell behind the security head, through `htons` once more, stored at pos. */
  method StoreChecksum(cell: array<byte>, pos: nat, cellSize: nat)
    requires 13 <= cellSize <= cell.Length && pos + 2 <= cell.Length
    modifies cell
    ensures cell[..] == Put(old(cell[..]), pos, Stored(Fold(0, old(cell[..])[11..cellSize - 2])))
  {
    hide Put, Fold, Stored, Swap;
    assert cell[SECURITY_HEAD_LEN..cellSize - 2] == cell[..][SECURITY_HEAD_LEN..cellSize - 2];
    var checksum := Crc(0, cell, SECURITY_HEAD_LEN, cellSize - SECURITY_HEAD_LEN - 2);
    SwapTwice(Fold(0, cell[SECURITY_HEAD_LEN..cellSize - 2]));
    Store16(cell, pos, Swap(checksum));
  }

  lemma RepeatNone(v: byte)
    ensures Repeat(v, 0) == []
  {
  }

  lemma Cleared(was: seq<byte>, n: nat)
    requires n <= |was|
    ensures forall i | 0 <= i < n :: Put(was, 0, Repeat(0, n))[i] == 0
  {
  }

  // ---------- What a receiver of the data cell recovers ----------

  datatype Received = Damaged | Received(mark: Mark, labelValue: uint16, payload: seq<byte>, padding: seq<byte>)

  /** The octets that a mark announces. */
  function Announced(m: Mark): nat {
    match m
    case Container(_, _, length) => length
    case Whole(length) => length
    case _ => 0
  }

  /** What the checksum of a cell covers. */
  function Checked(cell: seq<byte>): seq<byte>
    requires |cell| >= 24
  {
    cell[11..|cell| - 2]
  }

  /** The trailing checksum, low octet first, is that of the rest. */
  predicate ChecksumMatches(cell: seq<byte>)
    requires |cell| >= 24
  {
    Fold(0, Checked(cell)) == Word(cell[|cell| - 2], cell[|cell| - 1])
  }

  /** Check the checksum; then read mark, label and as many octets as the mark announces. */
  function ReceiveData(cell: seq<byte>): Received {
    var n := |cell|;
    if n < 24 || !ChecksumMatches(cell) then Damaged
    else
      var m := DecodeMark(Word(cell[19], cell[18]));
      if 22 + Announced(m) > n - 2 then Damaged
      else Received(m, Word(cell[21], cell[20]), cell[22..22 + Announced(m)], cell[22 + Announced(m)..n - 2])
  }

  lemma DataBodyParts(info: DataPacketInfo, cellSize: nat)
    requires cellSize >= 24 && DataPresent(info)
    ensures var b, p := DataBody(info, cellSize), Copied(info, cellSize);
            && b[18..20] == Net16(MarkWord(info.fields)) && b[20..22] == Net16(info.labelValue)
            && b[22..22 + |p|] == p && b[22 + |p|..] == Repeat(0, cellSize - 24 - |p|)
  {
    hide Net16, MarkWord, Header, Repeat;
  }

  /** Checksum and body of a data cell. */
  lemma DataCellSum(info: DataPacketInfo, cellSize: nat)
    requires cellSize >= 24 && DataPresent(info)
    ensures var c := DataCell(info, cellSize);
            && c[..cellSize - 2] == DataBody(info, cellSize)
            && Word(c[cellSize - 2], c[cellSize - 1]) == Fold(0, c[11..cellSize - 2])
  {
    hide Fold, Stored, DataBody, Word;
    var c, b := DataCell(info, cellSize), DataBody(info, cellSize);
    assert c[..cellSize - 2] == b;
    SliceOfPrefix(c, b, SECURITY_HEAD_LEN, cellSize - 2);
    assert b[SECURITY_HEAD_LEN..cellSize - 2] == b[SECURITY_HEAD_LEN..];
    var k := Stored(Fold(0, b[SECURITY_HEAD_LEN..]));
    assert c[cellSize - 2] == k[0] && c[cellSize - 1] == k[1];
    HostOctets(k, Fold(0, b[SECURITY_HEAD_LEN..]));
  }

  lemma DataCellMatches(info: DataPacketInfo, cellSize: nat)
    requires cellSize >= 24 && DataPresent(info)
    ensures ChecksumMatches(DataCell(info, cellSize))
  {
    hide Fold, Word, DataCell;
    DataCellSum(info, cellSize);
  }

  /**
   * Octet by octet, for every packet, split or not, and every cell with room for the fields: the header, the mark and the
   * label high octet first, as much of the data as there is room for, zeros up to the checksum, and the checksum.
   */
  lemma DataCellFields(info: DataPacketInfo, cellSize: nat)
    requires cellSize >= 24 && DataPresent(info)
    ensures var c, length := DataCell(info, cellSize), info.fields.length as nat;
            var m := if info.data.Null? then 0 else if length < cellSize - 24 then length else cellSize - 24;
            && |c| == cellSize
            && c[0..18] == [0xFB, 0x31, 0x01, 0, 0, 0xEA, 0x60, 0, 0, 0, 0, 0x01, 0, 0, 0xEA, 0x60, 0, 0]
            && c[18] == MarkWord(info.fields) / 256 && c[19] == MarkWord(info.fields) % 256
            && c[20] == info.labelValue / 256 && c[21] == info.labelValue % 256
            && (forall i | 0 <= i < m :: c[22 + i] == info.data.bytes[i])
            && (forall i | 22 + m <= i < cellSize - 2 :: c[i] == 0)
            && Word(c[cellSize - 2], c[cellSize - 1]) == Fold(0, c[11..cellSize - 2])
  {
    hide Fold, Net16, MarkWord, DataBody, DataCell, Repeat, Word, Header, Copied;
    var c, b, p := DataCell(info, cellSize), DataBody(info, cellSize), Copied(info, cellSize);
    DataCellSum(info, cellSize);
    DataBodyParts(info, cellSize);
    DataBodyHead(info, cellSize);
    PublisherHeader(0x01);
    SliceOfPrefix(c, b, 0, 18);
    Net16Octets(MarkWord(info.fields));
    Net16Octets(info.labelValue);
    assert forall i | 0 <= i < |b| :: c[i] == c[..|b|][i];
    assert b[18] == b[18..20][0] && b[19] == b[18..20][1] && b[20] == b[20..22][0] && b[21] == b[20..22][1];
    CopiedIs(info, cellSize);
    BodyOctets(b, p);
  }

  lemma DataBodyHead(info: DataPacketInfo, cellSize: nat)
    requires cellSize >= 24 && DataPresent(info)
    ensures DataBody(info, cellSize)[0..18] == Header(0x01, 0xFB31, 60000)
  {
    hide Header, Net16, MarkWord, Repeat, Copied;
  }

  lemma CopiedIs(info: DataPacketInfo, cellSize: nat)
    requires cellSize >= 24 && DataPresent(info)
    ensures var p, length := Copied(info, cellSize), info.fields.length as nat;
            && |p| == (if info.data.Null? then 0 else if length < cellSize - 24 then length else cellSize - 24)
            && forall i | 0 <= i < |p| :: p[i] == info.data.bytes[i]
  {
  }

  lemma BodyOctets(b: seq<byte>, p: seq<byte>)
    requires |b| >= 22 + |p| && b[22..22 + |p|] == p && b[22 + |p|..] == Repeat(0, |b| - 22 - |p|)
    ensures forall i | 0 <= i < |p| :: b[22 + i] == p[i]
    ensures forall i | 22 + |p| <= i < |b| :: b[i] == 0
  {
    hide Repeat;
    RepeatIs(0, |b| - 22 - |p|);
    assert forall i | 0 <= i < |p| :: p[i] == b[22..22 + |p|][i] == b[22 + i];
    assert forall i | 22 + |p| <= i < |b| :: b[i] == b[22 + |p|..][i - 22 - |p|];
  }

  lemma RepeatIs(v: byte, n: nat)
    ensures forall i | 0 <= i < n :: Repeat(v, n)[i] == v
  {
  }

  /** The octets of a header with the publisher's own security level and business identifier. */
  lemma PublisherHeader(kind: byte)
    ensures Header(kind, 0xFB31, 60000)
            == [0xFB, 0x31, kind, 0, 0, 0xEA, 0x60, 0, 0, 0, 0, kind, 0, 0, 0xEA, 0x60, 0, 0]
  {
    hide Net16, Net32, Repeat;
    Net16Octets(0xFB31);
    BusinessOctets();
    RepeatIs(0, 3);
    assert Repeat(0, 3) == [0, 0, 0];
  }

  lemma BusinessOctets()
    ensures Net32(60000) == [0, 0, 0xEA, 0x60]
  {
  }

  /** Every data cell opens with the security level, the kind and the business identifier of data. */
  lemma DataCellHead(info: DataPacketInfo, cellSize: nat)
    requires cellSize >= 24 && DataPresent(info)
    ensures DataCell(info, cellSize)[..18] == Header(0x01, 0xFB31, 60000)
  {
    hide Header, Net16, Fold, Stored, MarkWord, Repeat;
  }

  /**
   * Every unsplit packet that fits its cell comes out whole, with its label, its count as the field holds it, and
   * zeros behind.
   */
  lemma DataCellDecodes(info: DataPacketInfo, cellSize: nat)
    requires info.fields.length <= 467 && cellSize >= 24 + info.fields.length
    requires info.data.Data? && DataPresent(info)
    ensures ReceiveData(DataCell(info, cellSize))
            == Received(Unsplit(info.fields), info.labelValue, info.data.bytes[..info.fields.length],
                        Repeat(0, cellSize - 24 - info.fields.length))
  {
    hide Fold, Net16, MarkWord, Unsplit, DecodeMark, DataBody, DataCell, Repeat, Lo, Hi, Word;
    DataBodyParts(info, cellSize);
    DataCellSum(info, cellSize);
    var c, b := DataCell(info, cellSize), DataBody(info, cellSize);
    var w, m := MarkWord(info.fields), 22 + info.fields.length;
    UnsplitMarkDecodes(info.fields);
    AnnouncedLength(info.fields);
    SliceOfPrefix(c, b, 18, 20);
    SliceOfPrefix(c, b, 20, 22);
    SliceOfPrefix(c, b, 22, m);
    SliceOfPrefix(c, b, m, cellSize - 2);
    NetOctets(c[18..20], w);
    NetOctets(c[20..22], info.labelValue);
    assert b[m..] == b[m..cellSize - 2];
  }

  lemma AnnouncedLength(f: MarkFields)
    requires f.length <= 467
    ensures Announced(Unsplit(f)) == f.length
  {
  }

  lemma NetOctets(s: seq<byte>, n: uint16)
    requires s == Net16(n)
    ensures |s| == 2 && Word(s[1], s[0]) == n
  {
    Net16Octets(n);
    WordWhole(n);
  }

  lemma HostOctets(s: seq<byte>, n: uint16)
    requires s == Stored(n)
    ensures |s| == 2 && Word(s[0], s[1]) == n
  {
    WordWhole(n);
  }

  // ---------- Damaged cells ----------

  /** What the checksum protects, and the checksum. */
  function Guarded(cell: seq<byte>): (g: seq<byte>)
    requires |cell| >= 24
    ensures |g| == |cell| - 11
  {
    cell[11..]
  }

  /** Where the checksum begins behind the security head, in bits. */
  function CheckedBits(cell: seq<byte>): nat
    requires |cell| >= 24
  {
    8 * (|cell| - 13)
  }

  lemma GuardedSealed(cell: seq<byte>)
    requires |cell| >= 24
    ensures ChecksumMatches(cell) <==> Sealed(Guarded(cell))
    ensures MessageEnd(Guarded(cell)) == CheckedBits(cell)
  {
    hide Fold, Word;
    var g := Guarded(cell);
    assert g[..|g| - 2] == Checked(cell);
  }

  /**
   * A cell with a matching checksum is rejected when a burst of at most sixteen bits hits it behind the security head,
   * the checksum included, in a window with at least fourteen bits in front of the checksum, or none.
   */
  lemma DamagedDataCellRejected(sound: seq<byte>, hit: seq<byte>, from: nat)
    requires |hit| == |sound| >= 24 && ChecksumMatches(sound)
    requires Guarded(hit) != Guarded(sound) && WithinBurst(Guarded(sound), Guarded(hit), from)
    requires from + 14 <= CheckedBits(sound) || CheckedBits(sound) <= from
    ensures !ChecksumMatches(hit) && ReceiveData(hit) == Damaged
  {
    hide ChecksumMatches, Sealed, Guarded, MessageEnd, CheckedBits, WithinBurst, DecodeMark, Announced;
    GuardedSealed(sound);
    GuardedSealed(hit);
    BurstCaught(Guarded(sound), Guarded(hit), from);
  }

  /** Wherever the window lies, a burst that leaves the checksum itself alone is caught. */
  lemma DamagedContentRejected(sound: seq<byte>, hit: seq<byte>, from: nat)
    requires |hit| == |sound| >= 24 && ChecksumMatches(sound)
    requires hit[|hit| - 2] == sound[|hit| - 2] && hit[|hit| - 1] == sound[|hit| - 1]
    requires Checked(hit) != Checked(sound) && WithinBurst(Checked(sound), Checked(hit), from)
    ensures !ChecksumMatches(hit) && ReceiveData(hit) == Damaged
  {
    hide Fold, MessageBits, DecodeMark, Word, WithinBurst, Announced, Checked;
    BurstChangesFold(Checked(sound), Checked(hit), from);
  }

  /**
   * A burst that escapes every cell, because its checksum is stored low octet first: nine consecutive bits, two of
   * them set in the last octet in front of the checksum and two in the first of the checksum.
   */
  lemma EscapingBurst(sound: seq<byte>) returns (hit: seq<byte>)
    requires |sound| >= 24 && ChecksumMatches(sound)
    ensures var n := |sound|; hit == sound[n - 3 := Flip(sound[n - 3], 0x30)][n - 2 := Flip(sound[n - 2], 0xa0)]
    ensures Guarded(hit) != Guarded(sound) && WithinBits(Guarded(sound), Guarded(hit), CheckedBits(sound) - 6, 9)
    ensures ChecksumMatches(hit)
    ensures ReceiveData(sound).Received? ==> ReceiveData(hit).Received?
  {
    hide ChecksumMatches, Sealed, Table, Flip, WithinBits, Pattern, DecodeMark, Announced, Word;
    var n, g := |sound|, Guarded(sound);
    hit := sound[n - 3 := Flip(sound[n - 3], 0x30)][n - 2 := Flip(sound[n - 2], 0xa0)];
    NineBits();
    FlipNothing(sound[n - 1]);
    assert Guarded(hit) == Forged(g, 0x30);
    GuardedSealed(sound);
    GuardedSealed(hit);
    ForgedSealed(g, 0x30);
    ForgedDiffers(g, 0x30);
    ForgedBurst(g, 0x30, CheckedBits(sound) - 6, 9);
  }

  /** In every cell with a matching checksum, all damage within the window makes it mismatch. */
  ghost predicate BurstsCaught(sound: seq<byte>, from: nat)
    requires |sound| >= 24
  {
    forall hit: seq<byte> ::
      |hit| == |sound| && Guarded(hit) != Guarded(sound) && WithinBurst(Guarded(sound), Guarded(hit), from)
      ==> !ChecksumMatches(hit)
  }

  /** The exact windows of sixteen bits in which no damage escapes, for data and signaling cells alike. */
  lemma BurstsCaughtIff(sound: seq<byte>, from: nat)
    requires |sound| >= 24 && ChecksumMatches(sound)
    ensures BurstsCaught(sound, from) <==> from + 14 <= CheckedBits(sound) || CheckedBits(sound) <= from
  {
    hide ChecksumMatches, Sealed, MessageEnd, CheckedBits, WithinBurst, ReceiveData;
    GuardedSealed(sound);
    if from + 14 <= CheckedBits(sound) || CheckedBits(sound) <= from {
      forall hit: seq<byte> | |hit| == |sound| && Guarded(hit) != Guarded(sound)
                              && WithinBurst(Guarded(sound), Guarded(hit), from)
        ensures !ChecksumMatches(hit)
      {
        DamagedDataCellRejected(sound, hit, from);
      }
    } else {
      var d := BurstEscapes(Guarded(sound), from);
      var hit := sound[..11] + d;
      assert Guarded(hit) == d;
      GuardedSealed(hit);
    }
  }

  lemma BurstChangesFold(a: seq<byte>, b: seq<byte>, from: nat)
    requires a != b && WithinBurst(a, b, from)
    ensures Fold(0, a) != Fold(0, b)
  {
    hide Fold, MessageBits;
    assert AgreeOutside(MessageBits(a), MessageBits(b), 0, from, 16);
    BurstDetected(0, a, b, from);
  }

  // ---------- The checksum of the legacy path ----------

  /** `SendCellWithLegacyProcess`: swapped only once, so the high octet comes first and the division leaves nothing. */
  method SealLegacyCell(cell: array<byte>, cellSize: nat)
    requires 13 <= cellSize <= cell.Length
    modifies cell
    ensures cell[..cellSize - 2] == old(cell[..cellSize - 2]) && cell[cellSize..] == old(cell[cellSize..])
    ensures Fold(0, cell[11..cellSize]) == 0
  {
    hide Fold, Swap, Lo, Hi;
    ghost var front := cell[SECURITY_HEAD_LEN..cellSize - 2];
    var checksum := Crc(0, cell, SECURITY_HEAD_LEN, cellSize - SECURITY_HEAD_LEN - CHECK_SUM_SIZE);
    Store16(cell, cellSize - CHECK_SUM_SIZE, checksum);
    ghost var k := Fold(0, front);
    SwapTwice(k);
    ResidueIff(0, front, Hi(k), Lo(k));
    assert cell[SECURITY_HEAD_LEN..cellSize] == front + [Hi(k), Lo(k)];
  }

  /** A sealed legacy cell hit by a burst of at most sixteen bits, the checksum included, no longer divides. */
  lemma DamagedLegacyCellRejected(sealed: seq<byte>, hit: seq<byte>, from: nat)
    requires Fold(0, sealed) == 0 && hit != sealed && WithinBurst(sealed, hit, from)
    ensures Fold(0, hit) != 0
  {
    hide *;
    BurstChangesFold(sealed, hit, from);
  }

  // ---------- The signaling cell ----------

  /** `static_cast<uint16_t>(atoi(...))`; an empty label counts as 0. */
  function LabelValue(text: string): uint16 {
    Atoi(text) % 0x1_0000
  }

  function LabelOctets(labels: seq<string>): (s: seq<byte>)
    ensures |s| == 2 * |labels|
  {
    if labels == [] then [] else LabelOctets(labels[..|labels| - 1]) + Net16(LabelValue(labels[|labels| - 1]))
  }

  datatype SignalingPacketInfo =
    SignalingPacketInfo(sxIp: uint32, labels: seq<string>, security: uint16, business: uint32)

  function SignalingMark(n: nat): uint16 {
    OrWords(0x2000, n % 256)
  }

  /** Everything in front of the checksum: the fill is octets of value three. */
  function SignalingBody(info: SignalingPacketInfo, cellSize: nat): (b: seq<byte>)
    ensures |b| == if cellSize - 2 > 24 + 2 * |info.labels| then cellSize - 2 else 24 + 2 * |info.labels|
  {
    var used := 24 + 2 * |info.labels|;
    Header(0x08, info.security, info.business) + Net16(SignalingMark(|info.labels|)) + LabelOctets(info.labels)
    + Net32(info.sxIp) + Repeat(3, if cellSize - 2 > used then cellSize - 2 - used else 0)
  }

  /** What the cell buffer holds afterwards; with many labels it may be longer than the cell. */
  function SignalingResult(was: seq<byte>, info: SignalingPacketInfo, cellSize: nat): seq<byte>
    requires 13 <= cellSize <= |was| && 26 + 2 * |info.labels| <= |was|
  {
    var written := Put(Put(was, 0, Repeat(0, cellSize)), 0, SignalingBody(info, cellSize));
    Put(written, |SignalingBody(info, cellSize)|, Stored(Fold(0, written[SECURITY_HEAD_LEN..cellSize - 2])))
  }

  /** `BuildCellPacket` for a signaling packet: refused only for more labels than the mark can count. */
  method BuildSignalingCellPacket(info: SignalingPacketInfo, cell: array<byte>, cellSize: nat) returns (ok: bool)
    requires 26 <= cellSize <= cell.Length && cell.Length >= 26 + 2 * 255
    modifies cell
    ensures ok <==> |info.labels| <= 255
    ensures ok ==> cell[..] == SignalingResult(old(cell[..]), info, cellSize)
    ensures !ok ==> cell[..] == Put(old(cell[..]), 0, Repeat(0, cellSize))
  {
    hide Put, Net16, Net32, Header, Fold, Stored, Repeat, SignalingMark, LabelValue;
    ghost var was := cell[..];
    Fill(cell, 0, 0, cellSize);
    ghost var base := cell[..];
    Cleared(was, cellSize);
    if |info.labels| > MAX_LABELS {
      return false;
    }
    var pos := WriteHeader(cell, 0x08, info.security, info.business, base);
    ghost var body := Header(0x08, info.security, info.business);
    pos := Emit(cell, pos, Net16(SignalingMark(|info.labels|)), base, body);
    body := body + Net16(SignalingMark(|info.labels|));
    ghost var front := body;
    var i := 0;
    assert info.labels[..0] == [] && front + [] == front;
    while i < |info.labels|
      invariant i <= |info.labels| && body == front + LabelOctets(info.labels[..i])
      invariant pos == |body| == 20 + 2 * i && cell[..] == Put(base, 0, body)
    {
      assert info.labels[..i + 1][..i] == info.labels[..i];
      pos := Emit(cell, pos, Net16(LabelValue(info.labels[i])), base, body);
      body := body + Net16(LabelValue(info.labels[i]));
      i := i + 1;
    }
    assert info.labels[..i] == info.labels;
    pos := Emit(cell, pos, Net32(info.sxIp), base, body);
    body := body + Net32(info.sxIp);
    var remaining := cellSize - pos - 2;
    RepeatNone(3);
    if remaining > 0 {
      pos := Emit(cell, pos, Repeat(3, remaining), base, body);
    }
    assert cell[..] == Put(base, 0, SignalingBody(info, cellSize));
    StoreChecksum(cell, pos, cellSize);
    ok := true;
  }
}
