/** From a register packet to the signaling cell that answers it: labels pass through decimal text unchanged. */
module RegisterCell {
  import opened Bytes
  import opened Memory
  import opened Crc16
  import opened CellMarks
  import opened CellBuilder
  import opened Decimal

  const REGISTER_PACKET_MIN_LEN := 6
  const LABEL_START := 7

  // ---------- Labels ----------

  /** Each pair of octets, read in network order and printed with `%u`. */
  function LabelTexts(octets: seq<byte>): (t: seq<string>)
    requires |octets| % 2 == 0
    ensures |t| == |octets| / 2
  {
    var n := |octets|;
    if n == 0 then [] else LabelTexts(octets[..n - 2]) + [Digits(Swap(Word(octets[n - 2], octets[n - 1])))]
  }

  lemma LabelRoundTrip(hi: byte, lo: byte)
    ensures Net16(LabelValue(Digits(Swap(Word(hi, lo))))) == [hi, lo]
  {
    hide Digits, Atoi, Net16;
    var n := Swap(Word(hi, lo));
    AtoiOfDigits(n);
    WordParts(hi, lo);
    SwapTwice(Word(hi, lo));
    Net16Octets(n);
  }

  /** Printing every label in decimal, reading it back and storing it gives the octets of the packet. */
  lemma {:induction false} LabelsPassThrough(octets: seq<byte>)
    requires |octets| % 2 == 0
    ensures LabelOctets(LabelTexts(octets)) == octets
  {
    hide *;
    if octets == [] {
      NoLabels();
    } else {
      var front, hi, lo := octets[..|octets| - 2], octets[|octets| - 2], octets[|octets| - 1];
      assert octets == front + [hi, lo];
      LabelsPassThrough(front);
      LabelRoundTrip(hi, lo);
      OneMoreText(front, hi, lo);
      OneMoreLabel(LabelTexts(front), Digits(Swap(Word(hi, lo))));
    }
  }

  lemma NoLabels()
    ensures LabelTexts([]) == [] && LabelOctets([]) == []
  {
  }

  lemma OneMoreText(front: seq<byte>, hi: byte, lo: byte)
    requires |front| % 2 == 0
    ensures LabelTexts(front + [hi, lo]) == LabelTexts(front) + [Digits(Swap(Word(hi, lo)))]
  {
    hide Digits, Swap, Word;
    assert (front + [hi, lo])[..|front|] == front;
  }

  lemma OneMoreLabel(labels: seq<string>, last: string)
    ensures LabelOctets(labels + [last]) == LabelOctets(labels) + Net16(LabelValue(last))
  {
    hide LabelValue, Net16;
    assert (labels + [last])[..|labels|] == labels;
  }

  /** The labels a packet carries for its subtype: its own, or the one that the database holds for the station. */
  function LabelsOf(packet: seq<byte>, len: nat, subtype: byte, known: string): seq<string>
    requires len <= |packet|
  {
    if subtype == 0x01 then
      if len > LABEL_START && (len - LABEL_START) % 2 == 0 then LabelTexts(packet[LABEL_START..len]) else []
    else if known != "" then [known] else []
  }

  /** How many they are. */
  function LabelCount(len: nat, subtype: byte, known: string): nat {
    if subtype == 0x01 then (if len > 7 && len % 2 == 1 then (len - 7) / 2 else 0)
    else if known != "" then 1 else 0
  }

  function Answer(packet: seq<byte>, len: nat, subtype: byte, known: string): SignalingPacketInfo
    requires len <= |packet| && |packet| >= LABEL_START
  {
    SignalingPacketInfo(Load32(packet[3..7]), LabelsOf(packet, len, subtype, known), 0xFB31, 60000)
  }

  lemma LabelsCounted(packet: seq<byte>, len: nat, subtype: byte, known: string)
    requires len <= |packet|
    ensures |LabelsOf(packet, len, subtype, known)| == LabelCount(len, subtype, known)
  {
    hide LabelTexts;
  }

  /** The cell buffer that holds the answer. */
  function Reply(was: seq<byte>, packet: seq<byte>, len: nat, subtype: byte, known: string, cellSize: nat): seq<byte>
    requires len <= |packet| && |packet| >= 7
    requires 26 <= cellSize <= |was| && 26 + 2 * LabelCount(len, subtype, known) <= |was|
  {
    LabelsCounted(packet, len, subtype, known);
    SignalingResult(was, Answer(packet, len, subtype, known), cellSize)
  }

  /** The part of `HandleRegisterCellResponse` that collects the labels as text. */
  method CollectLabels(packet: array<byte>, len: nat, subtype: byte, known: string) returns (labels: seq<string>)
    requires len <= packet.Length && subtype in [0x01, 0x03]
    ensures labels == LabelsOf(packet[..], len, subtype, known)
  {
    hide Digits, Swap, Word;
    labels := [];
    if subtype == 0x01 {
      if len > LABEL_START && (len - LABEL_START) % 2 == 0 {
        var count := (len - LABEL_START) / 2;
        var i := 0;
        while i < count
          invariant i <= count
          invariant labels == LabelTexts(packet[LABEL_START..LABEL_START + 2 * i])
        {
          ghost var seen := packet[LABEL_START..LABEL_START + 2 * (i + 1)];
          assert seen[..2 * i] == packet[LABEL_START..LABEL_START + 2 * i];
          var value := Load16(packet, LABEL_START + 2 * i);
          labels := labels + [Digits(Swap(value))];
          i := i + 1;
        }
        assert packet[LABEL_START..LABEL_START + 2 * i] == packet[..][LABEL_START..len];
      }
    } else if known != "" {
      labels := labels + [known];
    }
  }

  /**
   * `HandleRegisterCellResponse`, up to the send: the cell to be sent, or none.  known is the label that the
   * database holds for the station, empty if none.
   */
  method HandleRegisterCellResponse(packet: array<byte>, len: nat, subtype: byte, known: string,
                                    cell: array<byte>, cellSize: nat)
      returns (send: bool)
    requires len <= packet.Length && (len >= 6 ==> packet.Length >= 7)
    requires 26 <= cellSize <= cell.Length && cell.Length >= 26 + 2 * 255 && cell != packet
    modifies cell
    ensures send <==> len >= 6 && subtype in [0x01, 0x03] && LabelCount(len, subtype, known) <= 255
    ensures send ==> cell[..] == Reply(old(cell[..]), old(packet[..]), len, subtype, known, cellSize)
  {
    hide Put, SignalingResult, Load32, LabelsOf;
    if len < REGISTER_PACKET_MIN_LEN || subtype !in [0x01, 0x03] {
      return false;
    }
    var sxIp := Load32(packet[3..7]);
    assert packet[3..7] == packet[..][3..7];
    var labels := CollectLabels(packet, len, subtype, known);
    LabelsCounted(packet[..], len, subtype, known);
    send := BuildSignalingCellPacket(SignalingPacketInfo(sxIp, labels, 0xFB31, 60000), cell, cellSize);
  }

  // ---------- The cell that arrives ----------

  /** All labels and the checksum have their place in the cell. */
  predicate FitsCell(info: SignalingPacketInfo, cellSize: nat) {
    26 + 2 * |info.labels| <= cellSize
  }

  lemma SignalingMarkDecodes(n: nat)
    requires n <= 255
    ensures DecodeMark(SignalingMark(n)) == Signaling(n)
  {
    hide OrWords, Pow2;
    NamedPowers();
    OrIsSum(0x2000, n, 32, 8);
  }

  /** Where the checksum of a signaling cell goes: behind the fill, or behind the address when the labels need the room. */
  function ChecksumAt(n: nat, cellSize: nat): (e: nat)
    requires cellSize >= 26
    ensures e >= cellSize - 2 && e >= 24 + 2 * n && (e == cellSize - 2 || e == 24 + 2 * n)
  {
    if cellSize - 2 > 24 + 2 * n then cellSize - 2 else 24 + 2 * n
  }

  lemma SignalingBodyParts(info: SignalingPacketInfo, cellSize: nat)
    requires cellSize >= 26
    ensures var b, n := SignalingBody(info, cellSize), |info.labels|;
            && |b| == ChecksumAt(n, cellSize) && b[0..18] == Header(0x08, info.security, info.business)
            && b[18..20] == Net16(SignalingMark(n)) && b[20..20 + 2 * n] == LabelOctets(info.labels)
            && b[20 + 2 * n..24 + 2 * n] == Net32(info.sxIp)
            && b[24 + 2 * n..] == Repeat(3, |b| - 24 - 2 * n)
  {
    hide Net16, Net32, Header, Repeat, LabelOctets, SignalingMark;
  }

  lemma ResultIs(was: seq<byte>, info: SignalingPacketInfo, cellSize: nat)
    requires 26 <= cellSize <= |was| && 26 + 2 * |info.labels| <= |was|
    ensures var b := SignalingBody(info, cellSize);
            var written := Put(Put(was, 0, Repeat(0, cellSize)), 0, b);
            && |b| + 2 <= |was|
            && SignalingResult(was, info, cellSize) == Put(written, |b|, Stored(Fold(0, written[11..cellSize - 2])))
  {
    hide Fold, Stored, Repeat, SignalingBody, Put;
  }

  lemma SignalingCellParts(was: seq<byte>, info: SignalingPacketInfo, cellSize: nat)
    requires 26 <= cellSize <= |was| && 26 + 2 * |info.labels| <= |was|
    ensures var c, e := SignalingResult(was, info, cellSize), ChecksumAt(|info.labels|, cellSize);
            && |c| == |was| && c[..e] == SignalingBody(info, cellSize)
            && c[e..e + 2] == Stored(Fold(0, c[11..cellSize - 2])) && c[e + 2..] == was[e + 2..]
  {
    hide *;
    SignalingBodyParts(info, cellSize);
    ResultIs(was, info, cellSize);
    AtLeast(|info.labels|, cellSize);
    var c, b := SignalingResult(was, info, cellSize), SignalingBody(info, cellSize);
    var written := Put(Put(was, 0, Repeat(0, cellSize)), 0, b);
    Layered(was, Repeat(0, cellSize), b, Stored(Fold(0, written[11..cellSize - 2])));
    SliceOfPrefix(written, b, 11, cellSize - 2);
    SliceOfPrefix(c, b, 11, cellSize - 2);
  }

  lemma AtLeast(n: nat, cellSize: nat)
    requires cellSize >= 26
    ensures cellSize - 2 <= ChecksumAt(n, cellSize) && 24 + 2 * n <= ChecksumAt(n, cellSize)
    ensures ChecksumAt(n, cellSize) == 24 + 2 * n || ChecksumAt(n, cellSize) == cellSize - 2
  {
  }

  /** A clearing, a body over it, and two octets behind the body that cover the rest of the clearing. */
  lemma Layered(was: seq<byte>, zeros: seq<byte>, b: seq<byte>, k: seq<byte>)
    requires |zeros| <= |b| + |k| <= |was|
    ensures var written := Put(Put(was, 0, zeros), 0, b);
            var c, e := Put(written, |b|, k), |b| + |k|;
            && written[..|b|] == b && c[..|b|] == b && c[|b|..e] == k && c[e..] == was[e..]
  {
    hide Put;
    var cleared := Put(was, 0, zeros);
    var written := Put(cleared, 0, b);
    PutParts(was, 0, zeros);
    PutParts(cleared, 0, b);
    PutParts(written, |b|, k);
    var c, e := Put(written, |b|, k), |b| + |k|;
    PutTail(was, |zeros|, cleared, e);
    PutTail(cleared, |b|, written, e);
  }

  lemma PutParts(buf: seq<byte>, at: nat, bytes: seq<byte>)
    requires at + |bytes| <= |buf|
    ensures var r, e := Put(buf, at, bytes), at + |bytes|; r[..at] == buf[..at] && r[at..e] == bytes && r[e..] == buf[e..]
  {
  }

  lemma PutTail(a: seq<byte>, e: nat, b: seq<byte>, k: nat)
    requires |a| == |b| && e <= k <= |a| && a[e..] == b[e..]
    ensures a[k..] == b[k..]
  {
    assert a[k..] == a[e..][k - e..] && b[k..] == b[e..][k - e..];
  }

  /** A signaling cell that holds its labels has a matching checksum. */
  lemma SignalingCellMatches(was: seq<byte>, info: SignalingPacketInfo, cellSize: nat)
    requires 26 <= cellSize <= |was| && FitsCell(info, cellSize)
    ensures ChecksumMatches(SignalingResult(was, info, cellSize)[..cellSize])
  {
    hide Fold, Stored, Word, SignalingBody, SignalingResult;
    SignalingCellParts(was, info, cellSize);
    var c := SignalingResult(was, info, cellSize);
    var cell := c[..cellSize];
    assert Checked(cell) == c[11..cellSize - 2];
    var k := c[cellSize - 2..cellSize];
    assert cell[cellSize - 2] == k[0] && cell[cellSize - 1] == k[1];
    HostOctets(k, Fold(0, Checked(cell)));
  }

  /**
   * Everything in a signaling cell, for any number of labels that the mark can count: header, count, label octets,
   * address, fill, and the checksum over what lies between security head and the cell's last two octets.  Labels that
   * outgrow the cell push the checksum behind it; octets further behind are untouched.
   */
  lemma SignalingFields(was: seq<byte>, info: SignalingPacketInfo, cellSize: nat)
    requires 26 <= cellSize <= |was| && 26 + 2 * |info.labels| <= |was| && |info.labels| <= 255
    ensures var c, n := SignalingResult(was, info, cellSize), |info.labels|;
            var e := ChecksumAt(n, cellSize);
            && |c| == |was| && c[0..18] == Header(0x08, info.security, info.business)
            && DecodeMark(Word(c[19], c[18])) == Signaling(n)
            && c[20..20 + 2 * n] == LabelOctets(info.labels)
            && c[20 + 2 * n..24 + 2 * n] == Net32(info.sxIp)
            && (forall i | 24 + 2 * n <= i < e :: c[i] == 3)
            && Word(c[e], c[e + 1]) == Fold(0, c[11..cellSize - 2])
            && c[e + 2..] == was[e + 2..]
  {
    hide Header, Net16, Net32, SignalingResult, SignalingBody, LabelOctets, SignalingMark, DecodeMark, Fold, Stored, Word,
         Repeat;
    var c, b, n := SignalingResult(was, info, cellSize), SignalingBody(info, cellSize), |info.labels|;
    var e := ChecksumAt(n, cellSize);
    SignalingBodyParts(info, cellSize);
    SignalingCellParts(was, info, cellSize);
    SignalingMarkDecodes(n);
    SliceOfPrefix(c, b, 0, 18);
    SliceOfPrefix(c, b, 18, 20);
    SliceOfPrefix(c, b, 20, 20 + 2 * n);
    SliceOfPrefix(c, b, 20 + 2 * n, 24 + 2 * n);
    NetOctets(c[18..20], SignalingMark(n));
    HostOctets(c[e..e + 2], Fold(0, c[11..cellSize - 2]));
    FillIs(c, b, 24 + 2 * n);
  }

  lemma FillIs(c: seq<byte>, b: seq<byte>, from: nat)
    requires from <= |b| <= |c| && c[..|b|] == b && b[from..] == Repeat(3, |b| - from)
    ensures forall i | from <= i < |b| :: c[i] == 3
  {
    hide Repeat;
    RepeatIs(3, |b| - from);
    assert forall i | from <= i < |b| :: c[i] == c[..|b|][i] == b[from..][i - from];
  }

  // ---------- Labels that outgrow the cell ----------

  /** What is written between mark and fill can be any octets: such labels and such an address exist. */
  lemma InfoFor(info: SignalingPacketInfo, cellSize: nat, o: seq<byte>) returns (other: SignalingPacketInfo)
    requires cellSize >= 26 && |o| == 4 + 2 * |info.labels|
    ensures |other.labels| == |info.labels|
    ensures var b, c, e := SignalingBody(info, cellSize), SignalingBody(other, cellSize), 24 + 2 * |info.labels|;
            |b| == |c| >= e && c[..20] == b[..20] && c[20..e] == o
  {
    hide Net16, Net32, Load32, Header, Repeat, LabelOctets, LabelTexts, SignalingMark, SignalingBody;
    var n := |info.labels|;
    var address := [o[2 * n + 3], o[2 * n + 2], o[2 * n + 1], o[2 * n]];
    other := info.(labels := LabelTexts(o[..2 * n]), sxIp := Load32(address));
    LabelsPassThrough(o[..2 * n]);
    Net32Reverses(address);
    SignalingBodyParts(info, cellSize);
    SignalingBodyParts(other, cellSize);
    var b, c := SignalingBody(info, cellSize), SignalingBody(other, cellSize);
    assert c[..20] == c[0..18] + c[18..20] && b[..20] == b[0..18] + b[18..20];
    assert c[20..24 + 2 * n] == c[20..20 + 2 * n] + c[20 + 2 * n..24 + 2 * n] && o == o[..2 * n] + o[2 * n..];
  }

  /** The cell proper, without what may have been written behind it. */
  function Sent(was: seq<byte>, info: SignalingPacketInfo, cellSize: nat): (c: seq<byte>)
    requires 26 <= cellSize <= |was| && 26 + 2 * |info.labels| <= |was|
    ensures |c| == cellSize
  {
    SignalingResult(was, info, cellSize)[..cellSize]
  }

  lemma SentBody(was: seq<byte>, info: SignalingPacketInfo, cellSize: nat)
    requires 26 <= cellSize <= |was| && 26 + 2 * |info.labels| <= |was|
    ensures |SignalingBody(info, cellSize)| >= cellSize - 2
    ensures Sent(was, info, cellSize)[..cellSize - 2] == SignalingBody(info, cellSize)[..cellSize - 2]
    ensures |SignalingBody(info, cellSize)| > cellSize - 2 ==>
              Sent(was, info, cellSize)[cellSize - 2] == SignalingBody(info, cellSize)[cellSize - 2]
  {
    hide SignalingResult, SignalingBody, Fold, Stored;
    SignalingCellParts(was, info, cellSize);
    SignalingBodyParts(info, cellSize);
    var r, b, k := SignalingResult(was, info, cellSize), SignalingBody(info, cellSize), cellSize - 2;
    SliceOfPrefix(r, b, 0, k);
    assert r[..cellSize][..k] == r[0..k] && b[..k] == b[0..k];
    if |b| > k {
      assert r[k] == r[..|b|][k];
    }
  }

  /** Cells that differ in the last octet but one, and nowhere in front of it, do not both match. */
  lemma NotBoth(a: seq<byte>, b: seq<byte>)
    requires |a| == |b| >= 26 && a[..|a| - 2] == b[..|a| - 2] && a[|a| - 2] != b[|a| - 2]
    ensures !ChecksumMatches(a) || !ChecksumMatches(b)
  {
    hide Fold, Word;
    var k := |a| - 2;
    assert Checked(a) == a[..k][11..] && Checked(b) == b[..k][11..];
    WordParts(a[k], a[k + 1]);
    WordParts(b[k], b[k + 1]);
  }

  /** When the labels outgrow the cell, the checksum stands behind it: not both of two such cells match. */
  lemma OutgrownFails(was: seq<byte>, info: SignalingPacketInfo, cellSize: nat) returns (other: SignalingPacketInfo)
    requires 26 <= cellSize <= |was| && 26 + 2 * |info.labels| <= |was| && cellSize < 26 + 2 * |info.labels|
    ensures |other.labels| == |info.labels|
    ensures !ChecksumMatches(Sent(was, info, cellSize)) || !ChecksumMatches(Sent(was, other, cellSize))
  {
    hide Sent, SignalingBody, ChecksumMatches;
    var n, k, b := |info.labels|, cellSize - 2, SignalingBody(info, cellSize);
    BodyLength(info, cellSize);
    var o := b[20..24 + 2 * n];
    var o' := o[k - 20 := if o[k - 20] == 0 then 1 else 0];
    other := InfoFor(info, cellSize, o');
    var c := SignalingBody(other, cellSize);
    SentBody(was, info, cellSize);
    SentBody(was, other, cellSize);
    assert b[..k] == b[..20] + o[..k - 20] && c[..k] == c[..20] + o'[..k - 20];
    assert c[k] == o'[k - 20];
    NotBoth(Sent(was, info, cellSize), Sent(was, other, cellSize));
  }

  lemma BodyLength(info: SignalingPacketInfo, cellSize: nat)
    requires cellSize >= 26
    ensures |SignalingBody(info, cellSize)| >= 24 + 2 * |info.labels|
  {
    hide SignalingBody;
    SignalingBodyParts(info, cellSize);
  }

  /** Signaling cells of n labels all have a matching checksum if and only if the labels leave room for it. */
  lemma AllMatchIff(was: seq<byte>, n: nat, cellSize: nat)
    requires 26 <= cellSize <= |was| && 26 + 2 * n <= |was|
    ensures (forall info: SignalingPacketInfo | |info.labels| == n :: ChecksumMatches(Sent(was, info, cellSize)))
            <==> 26 + 2 * n <= cellSize
  {
    hide ChecksumMatches, SignalingResult;
    if 26 + 2 * n <= cellSize {
      forall info: SignalingPacketInfo | |info.labels| == n
        ensures ChecksumMatches(Sent(was, info, cellSize))
      {
        SignalingCellMatches(was, info, cellSize);
      }
    } else {
      var info := SignalingPacketInfo(0, seq(n, _ => ""), 0, 0);
      var other := OutgrownFails(was, info, cellSize);
    }
  }

  /**
   * The answer to a register packet: header, number of labels and label octets as given, the address at 3 .. 6 of the
   * packet with its octets reversed, the fill of threes, and the checksum.
   */
  predicate Answers(was: seq<byte>, c: seq<byte>, packet: seq<byte>, n: nat, labels: seq<byte>, cellSize: nat) {
    && 26 <= cellSize <= |was| == |c| && 26 + 2 * n <= |was| && |labels| == 2 * n && |packet| >= 7
    && c[0..18] == [0xFB, 0x31, 0x08, 0, 0, 0xEA, 0x60, 0, 0, 0, 0, 0x08, 0, 0, 0xEA, 0x60, 0, 0]
    && DecodeMark(Word(c[19], c[18])) == Signaling(n)
    && c[20..20 + 2 * n] == labels
    && c[20 + 2 * n..24 + 2 * n] == [packet[6], packet[5], packet[4], packet[3]]
    && var e := ChecksumAt(n, cellSize);
       && (forall i | 24 + 2 * n <= i < e :: c[i] == 3)
       && Word(c[e], c[e + 1]) == Fold(0, c[11..cellSize - 2])
       && c[e + 2..] == was[e + 2..]
  }

  lemma AnswerCell(was: seq<byte>, packet: seq<byte>, len: nat, subtype: byte, known: string, cellSize: nat,
                   n: nat, labels: seq<byte>)
    requires len <= |packet| && |packet| >= 7 && LabelCount(len, subtype, known) == n <= 255
    requires 26 <= cellSize <= |was| && 26 + 2 * n <= |was|
    requires labels == LabelOctets(LabelsOf(packet, len, subtype, known))
    ensures Answers(was, Reply(was, packet, len, subtype, known, cellSize), packet, n, labels, cellSize)
  {
    hide Header, Net32, Load32, SignalingResult, LabelOctets, LabelsOf, DecodeMark, Fold, Word, LabelCount;
    LabelsCounted(packet, len, subtype, known);
    SignalingFields(was, Answer(packet, len, subtype, known), cellSize);
    PublisherHeader(0x08);
    Net32Reverses(packet[3..7]);
  }

  /**
   * A register packet of subtype 1 with n labels: the cell carries the packet's label octets unchanged and counts them,
   * also when they outgrow it.
   */
  lemma RegisterAnswered(was: seq<byte>, packet: seq<byte>, len: nat, n: nat, known: string, cellSize: nat)
    requires len <= |packet| && len == 7 + 2 * n && 1 <= n <= 255
    requires 26 <= cellSize <= |was| && 26 + 2 * n <= |was|
    ensures LabelCount(len, 0x01, known) == n
    ensures Answers(was, Reply(was, packet, len, 0x01, known, cellSize), packet, n, packet[7..7 + 2 * n], cellSize)
  {
    hide Reply, Answers, LabelOctets, LabelTexts;
    LabelsPassThrough(packet[LABEL_START..len]);
    AnswerCell(was, packet, len, 0x01, known, cellSize, n, packet[7..7 + 2 * n]);
  }

  /** One of subtype 1 without a label part, or with one of odd length, is answered without labels. */
  lemma NoLabelsAnswered(was: seq<byte>, packet: seq<byte>, len: nat, known: string, cellSize: nat)
    requires len <= |packet| && |packet| >= 7 && (len <= 7 || len % 2 == 0)
    requires 26 <= cellSize <= |was|
    ensures LabelCount(len, 0x01, known) == 0
    ensures Answers(was, Reply(was, packet, len, 0x01, known, cellSize), packet, 0, [], cellSize)
  {
    hide Reply, Answers, LabelOctets, LabelTexts;
    NoLabels();
    AnswerCell(was, packet, len, 0x01, known, cellSize, 0, []);
  }

  /** One of subtype 3 is answered with the one label known for the station, whatever labels it carries itself. */
  lemma StationAnswered(was: seq<byte>, packet: seq<byte>, len: nat, known: string, cellSize: nat)
    requires len <= |packet| && |packet| >= 7 && known != ""
    requires 28 <= |was| && 26 <= cellSize <= |was|
    ensures LabelCount(len, 0x03, known) == 1
    ensures Answers(was, Reply(was, packet, len, 0x03, known, cellSize), packet, 1, HighFirst(LabelValue(known)), cellSize)
  {
    hide Reply, Answers, LabelOctets, LabelValue;
    OneLabel(known);
    AnswerCell(was, packet, len, 0x03, known, cellSize, 1, HighFirst(LabelValue(known)));
  }

  /** A word, high octet first. */
  function HighFirst(v: uint16): (s: seq<byte>)
    ensures s == [v / 256, v % 256]
  {
    Net16Octets(v);
    Net16(v)
  }

  lemma OneLabel(known: string)
    ensures LabelOctets([known]) == HighFirst(LabelValue(known))
  {
    hide LabelValue, Net16;
    NoLabels();
    OneMoreLabel([], known);
    assert [] + [known] == [known];
    Net16Octets(LabelValue(known));
  }

  /** A label in decimal: its number, high octet first. */
  lemma StationLabel(was: seq<byte>, packet: seq<byte>, len: nat, known: string, v: nat, cellSize: nat)
    requires len <= |packet| && |packet| >= 7 && v < 0x1_0000 && known == Digits(v)
    requires 28 <= |was| && 26 <= cellSize <= |was|
    ensures LabelCount(len, 0x03, known) == 1
    ensures Answers(was, Reply(was, packet, len, 0x03, known, cellSize), packet, 1, HighFirst(v), cellSize)
  {
    hide *;
    LabelOfDigits(v);
    OneKnown(len, known);
    StationAnswered(was, packet, len, known, cellSize);
  }

  lemma LabelOfDigits(v: nat)
    requires v < 0x1_0000
    ensures Digits(v) != "" && LabelValue(Digits(v)) == v
  {
    hide Digits, Atoi;
    AtoiOfDigits(v);
  }

  lemma OneKnown(len: nat, known: string)
    requires known != ""
    ensures LabelCount(len, 0x03, known) == 1
  {
  }

  /** A station without a label is answered without one. */
  lemma StationUnknown(was: seq<byte>, packet: seq<byte>, len: nat, cellSize: nat)
    requires len <= |packet| && |packet| >= 7 && 26 <= cellSize <= |was|
    ensures LabelCount(len, 0x03, "") == 0
    ensures Answers(was, Reply(was, packet, len, 0x03, "", cellSize), packet, 0, [], cellSize)
  {
    hide Reply, Answers, LabelOctets;
    NoLabels();
    AnswerCell(was, packet, len, 0x03, "", cellSize, 0, []);
  }

  /** What any label text counts as: white space, a sign and digits, taken modulo 65536; 0 without digits. */
  lemma LabelReads(space: string, sign: string, digits: string, rest: string)
    requires forall c | c in space :: c in " \t\n\r" || c == 11 as char || c == 12 as char
    requires sign == "" || sign == "-" || sign == "+"
    requires digits != "" && (forall c | c in digits :: c in "0123456789") && (rest != "" ==> rest[0] !in "0123456789")
    ensures forall c | c in digits :: IsDigit(c)
    ensures var v: int := Value(digits);
            LabelValue(space + (sign + (digits + rest))) == (if sign == "-" then -v else v) % 0x1_0000
  {
    hide Value, Atoi, IsDigit;
    AtoiReads(space, sign, digits, rest);
  }
}
