/** The packet queue of the program: a byte buffer, two positions and two counters, updated in place. */
module FifoQueues {
  import opened Bytes
  import opened Memory
  import opened Ring

  class FifoQueue {
    var buffer: array<byte>
    var readPos: nat
    var writePos: nat
    var readBytes: nat
    var writeBytes: nat

    /** The unread packets, and how the ring lays them out. */
    ghost var packets: seq<packet>
    ghost var layout: Layout

    ghost function State(): Ring
      reads this, buffer
    {
      Ring(buffer[..], readPos, writePos, readBytes, writeBytes)
    }

    ghost predicate Valid()
      reads this, buffer
    {
      Holds(State(), packets, layout)
    }

    constructor (bufSize: nat)
      ensures Valid() && packets == [] && fresh(buffer) && buffer.Length == bufSize
    {
      buffer := new byte[bufSize];
      readPos, writePos, readBytes, writeBytes := 0, 0, 0, 0;
      packets, layout := [], Straight;
    }

    method Reset()
      modifies this
      ensures Valid() && packets == [] && buffer == old(buffer)
      ensures State() == Ring(old(buffer[..]), 0, 0, 0, 0)
    {
      readPos, writePos, readBytes, writeBytes := 0, 0, 0, 0;
      packets, layout := [], Straight;
    }

    /** Refused exactly when the guard says so; a safe push of a valid queue appends its packet. */
    method PushPacket(packet: seq<byte>) returns (ok: bool)
      requires InBounds(State()) && |packet| < 65535
      modifies this, buffer
      ensures buffer == old(buffer)
      ensures ok == old(Accepts(State(), |packet|)) == old(writeBytes + 2 * |packet| + 2 <= readBytes + buffer.Length)
      ensures readPos == old(readPos) && readBytes == old(readBytes)
      ensures writeBytes == old(writeBytes) + if ok then |packet| + 2 else 0
      ensures State() == if ok then Push(old(State()), packet) else old(State())
      ensures old(Valid()) && !ok ==> Valid() && packets == old(packets)
      ensures old(Valid()) && ok && 1 <= |packet| && old(Safe(State(), |packet|))
              ==> Valid() && packets == old(packets) + [packet]
    {
      hide Holds, Put, Stored, Safe, PushLayout, Written;
      var len := |packet|;
      ghost var was := State();
      if writeBytes + 2 * len + 2 * (HEADER - 1) > readBytes + buffer.Length {
        return false;
      }
      if writePos + HEADER > buffer.Length {
        writePos := 0;
      } else if writePos + len + HEADER > buffer.Length {
        Store16(buffer, writePos, 0);
        writePos := 0;
      }
      ghost var marked := buffer[..];
      assert marked == Marked(was, len) && writePos == Start(was, len);
      Store16(buffer, writePos, len);
      writePos := writePos + HEADER;
      Copy(buffer, writePos, packet);
      StoredIsWritten(marked, Start(was, len), packet);
      writePos := writePos + len;
      writeBytes := writeBytes + len + HEADER;
      assert State() == Push(was, packet);
      if Holds(was, packets, layout) && 1 <= len && Safe(was, len) {
        PushAppends(was, packets, layout, packet);
        packets, layout := packets + [packet], PushLayout(was, packets, layout, len);
      }
      ok := true;
    }

    /** What a pop and a peek begin with: go to the front if need be, and read the length there. */
    method FindRecord() returns (len: uint16)
      requires Readable(State())
      modifies `readPos
      ensures readPos == old(ReadStart(State())) && len == old(NextLength(State()))
    {
      if readPos + HEADER > buffer.Length {
        readPos := 0;
      }
      len := Load16(buffer, readPos);
      if len == 0 {
        readPos := 0;
        len := Load16(buffer, readPos);
      }
    }

    /** Once the wait for a packet is over: the oldest packet is copied to dest. */
    method PopPacket(dest: array<byte>, at: nat) returns (len: uint16)
      requires Valid() && packets != []
      requires dest != buffer && at + |packets[0]| <= dest.Length
      modifies this, dest
      ensures Valid() && buffer == old(buffer) && State() == Pop(old(State())).0
      ensures len == |old(packets)[0]| && packets == old(packets)[1..]
      ensures writePos == old(writePos) && writeBytes == old(writeBytes) && readBytes == old(readBytes) + len + 2
      ensures dest[..] == Put(old(dest[..]), at, old(packets)[0])
    {
      hide Holds, RecordAt, Put, PopLayout, ReadStart, HeaderAt;
      ghost var was := State();
      PopTakesOldest(was, packets, layout);
      ReaderFindsOldest(was, packets, layout);
      RecordLength(was.buf, ReadStart(was), packets[0]);
      len := FindRecord();
      readPos := readPos + HEADER;
      Copy(dest, at, buffer[readPos..readPos + len]);
      readPos := readPos + len;
      readBytes := readBytes + len + HEADER;
      packets, layout := packets[1..], PopLayout(layout);
      assert State() == Pop(was).0;
    }

    /** The length of the oldest packet, or 0; the read position may move to the front, the queue does not change. */
    method PeekNextPackLen() returns (len: uint16)
      requires Valid()
      modifies this
      ensures Valid() && buffer == old(buffer) && packets == old(packets)
      ensures len == if packets == [] then 0 else |packets[0]|
      ensures writePos == old(writePos) && readBytes == old(readBytes) && writeBytes == old(writeBytes)
      ensures State() == if packets == [] then old(State()) else Peek(old(State())).0
      ensures packets != [] ==> 1 <= len < 65535
    {
      hide Holds, RecordAt, PeekLayout, ReadStart, HeaderAt;
      ghost var was := State();
      HoldsInBounds(was, packets, layout);
      HoldsSize(was, packets, layout);
      if readBytes >= writeBytes {
        return 0;
      }
      PeekKeepsQueue(was, packets, layout);
      ReaderFindsOldest(was, packets, layout);
      assert packets[0] in packets;
      len := FindRecord();
      layout := PeekLayout(layout);
    }
  }

  lemma StoredIsWritten(buf: seq<byte>, at: nat, p: packet)
    requires |p| < MAX_PACK_SIZE && at + HEADER + |p| <= |buf|
    ensures Put(Put(buf, at, Stored(|p|)), at + HEADER, p) == Written(buf, at, p)
  {
    hide Put, Stored;
  }
}
