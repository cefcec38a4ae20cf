/** Stores into a byte buffer: `*(uint16_t*)pos = n`, `memcpy` and `memset`. */
module Memory {
  import opened Bytes

  function Put(buf: seq<byte>, at: nat, bytes: seq<byte>): (b: seq<byte>)
    requires at + |bytes| <= |buf|
    ensures |b| == |buf|
    ensures forall i | 0 <= i < |buf| :: b[i] == if at <= i < at + |bytes| then bytes[i - at] else buf[i]
  {
    buf[..at] + bytes + buf[at + |bytes|..]
  }

  /** n copies of one octet. */
  function Repeat(v: byte, n: nat): (s: seq<byte>)
    ensures |s| == n
  {
    seq(n, _ => v)
  }

  /** A 16-bit store in host order. */
  method Store16(a: array<byte>, at: nat, n: uint16)
    requires at + 2 <= a.Length
    modifies a
    ensures a[..] == Put(old(a[..]), at, Stored(n))
  {
    a[at], a[at + 1] := Lo(n), Hi(n);
  }

  method Load16(a: array<byte>, at: nat) returns (n: uint16)
    requires at + 2 <= a.Length
    ensures n == Word(a[at], a[at + 1])
  {
    n := Word(a[at], a[at + 1]);
  }

  /** `memcpy` */
  method Copy(a: array<byte>, at: nat, bytes: seq<byte>)
    requires at + |bytes| <= a.Length
    modifies a
    ensures a[..] == Put(old(a[..]), at, bytes)
  {
    forall i | 0 <= i < |bytes| {
      a[at + i] := bytes[i];
    }
  }

  /** `memset` */
  method Fill(a: array<byte>, at: nat, v: byte, n: nat)
    requires at + n <= a.Length
    modifies a
    ensures a[..] == Put(old(a[..]), at, Repeat(v, n))
  {
    forall i | 0 <= i < n {
      a[at + i] := v;
    }
  }
}
