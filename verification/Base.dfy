// Types shared by every layer: optional and fallible values, bytes in network
// order, IP addresses.
module Base {
  datatype Option<+T> = None | Some(value: T)

  datatype Result<+T, +E> = Ok(value: T) | Err(error: E)

  type byte = x: int | 0 <= x < 0x100
  type uint16 = x: int | 0 <= x < 0x1_0000
  type Bytes = seq<byte>

  type Octets4 = b: Bytes | |b| == 4 witness [0, 0, 0, 0]
  type Octets16 = b: Bytes | |b| == 16 witness seq(16, _ => 0)

  /** Big-endian decoding of the two bytes at `off`. */
  function U16(msg: Bytes, off: nat): uint16
    requires off + 2 <= |msg|
  {
    var high: int := msg[off];
    high * 0x100 + msg[off + 1]
  }

  /** Big-endian encoding of a 16-bit value. */
  function Be16(v: uint16): Bytes {
    [Hi(v), Lo(v)]
  }

  function Hi(v: uint16): byte {
    v / 0x100
  }

  function Lo(v: uint16): byte {
    v % 0x100
  }

  /** Overwrites the two bytes at `off`. */
  function PutU16(msg: Bytes, off: nat, v: uint16): (r: Bytes)
    requires off + 2 <= |msg|
    ensures |r| == |msg| && U16(r, off) == v
    ensures forall k :: 0 <= k < |msg| && k != off && k != off + 1 ==> r[k] == msg[k]
  {
    msg[off := Hi(v)][off + 1 := Lo(v)]
  }

  /** An IP address: the zero value, IPv4, or IPv6 with an optional zone. */
  datatype Addr = NoAddr | V4(v4: Octets4) | V6(v6: Octets16, zone: string) {
    predicate Is4() { V4? }

    predicate Is6() { V6? }

    predicate Is4In6() {
      V6? && v6[..12] == MAPPED_PREFIX
    }

    /** Turns an IPv4-mapped IPv6 address into the IPv4 address it carries. */
    function Unmap(): Addr {
      if Is4In6() then V4(v6[12..]) else this
    }

    /** The address without its zone, which no wire format here can carry. */
    function StripZone(): Addr {
      if V6? then V6(v6, "") else this
    }
  }

  const MAPPED_PREFIX: Bytes := [0, 0, 0, 0, 0, 0, 0, 0, 0, 0, 0xff, 0xff]

  /** An address and a TCP port. */
  datatype AddrPort = AddrPort(addr: Addr, port: uint16)

  /** The two sequences have the same elements, whatever their order and repetitions. */
  ghost predicate SameElements<T(!new)>(a: seq<T>, b: seq<T>) {
    forall x :: x in a <==> x in b
  }

  /** No element occurs twice. */
  ghost predicate NoDup<T>(s: seq<T>) {
    forall i, j :: 0 <= i < j < |s| ==> s[i] != s[j]
  }

  lemma SameEmptiness<T(!new)>(a: seq<T>, b: seq<T>)
    requires SameElements(a, b)
    ensures a == [] <==> b == []
  {
    if a != [] {
      assert a[0] in a;
    }
    if b != [] {
      assert b[0] in b;
    }
  }

  lemma ConsConcat<T>(s: seq<T>, t: seq<T>)
    requires s != []
    ensures s + t == [s[0]] + (s[1..] + t)
  {
    assert s == [s[0]] + s[1..];
  }

  lemma SliceOfSlice<T>(s: seq<T>, lo: nat, n: nat)
    requires lo + n <= |s|
    ensures s[..lo + n][lo..] == s[lo..][..n]
  {
  }

  lemma ConcatAssoc<T>(a: seq<T>, b: seq<T>, c: seq<T>)
    ensures a + b + c == a + (b + c)
  {
  }
}
