/** Fixed-width unsigned integers, big-endian reads from a byte buffer
    (Go's encoding/binary.BigEndian), powers of two, and the NUL trimming
    that strings.Trim(s, "\u0000") applies to dictionary names. */
module Bytes {

  /** Go's byte, uint16 and uint32, as ranges of integers. */
  type byte = b: int | 0 <= b < 0x100
  type u16 = x: int | 0 <= x < 0x1_0000
  type u32 = x: int | 0 <= x < 0x1_0000_0000

  /** binary.BigEndian.Uint16 applied to s[off:off+2]. */
  function BE16(s: seq<byte>, off: nat): u16
    requires off + 2 <= |s|
  {
    s[off] as int * 0x100 + s[off + 1] as int
  }

  /** binary.BigEndian.Uint32 applied to s[off:off+4]. */
  function BE32(s: seq<byte>, off: nat): u32
    requires off + 4 <= |s|
  {
    s[off] as int * 0x100_0000 + s[off + 1] as int * 0x1_0000 + s[off + 2] as int * 0x100 + s[off + 3] as int
  }

  /** The two bytes of x, most significant first. */
  function Encode16(x: u16): (r: seq<byte>)
    ensures |r| == 2
  {
    [x / 0x100, x % 0x100]
  }

  /** The four bytes of x, most significant first: byte(x>>24), byte(x>>16),
      byte(x>>8), byte(x). */
  function Encode32(x: u32): (r: seq<byte>)
    ensures |r| == 4
  {
    [(x / 0x100_0000) % 0x100, (x / 0x1_0000) % 0x100, (x / 0x100) % 0x100, x % 0x100]
  }

  /** Reading back an encoded 16-bit value gives the value, whatever follows it. */
  lemma BE16Encode16(x: u16, rest: seq<byte>)
    ensures BE16(Encode16(x) + rest, 0) == x
  {
  }

  /** Encoding a 16-bit read gives back the two bytes that were read. */
  lemma Encode16BE16(s: seq<byte>, off: nat)
    requires off + 2 <= |s|
    ensures Encode16(BE16(s, off)) == s[off..off + 2]
  {
  }

  /** Reading back an encoded 32-bit value gives the value, whatever follows it. */
  lemma BE32Encode32(x: u32, rest: seq<byte>)
    ensures BE32(Encode32(x) + rest, 0) == x
  {
    var e := Encode32(x) + rest;
    assert e[0] == x / 0x100_0000 && e[1] == (x / 0x1_0000) % 0x100;
    assert e[2] == (x / 0x100) % 0x100 && e[3] == x % 0x100;
    assert x / 0x1_0000 == (x / 0x100_0000) * 0x100 + (x / 0x1_0000) % 0x100;
    assert x / 0x100 == (x / 0x1_0000) * 0x100 + (x / 0x100) % 0x100;
  }

  /** Encoding a 32-bit read gives back the four bytes that were read. */
  lemma Encode32BE32(s: seq<byte>, off: nat)
    requires off + 4 <= |s|
    ensures Encode32(BE32(s, off)) == s[off..off + 4]
  {
    var x := BE32(s, off);
    assert x / 0x100 == s[off] as int * 0x1_0000 + s[off + 1] as int * 0x100 + s[off + 2] as int;
    assert x / 0x1_0000 == s[off] as int * 0x100 + s[off + 1] as int;
    assert x / 0x100_0000 == s[off] as int;
  }

  /** 2^n as an exact integer (ipdb.go computes it with math.Pow on floats). */
  function Pow2(n: nat): (r: nat)
    ensures r >= 1
  {
    if n == 0 then 1 else 2 * Pow2(n - 1)
  }

  /** n NUL bytes. */
  function Zeros(n: nat): (r: seq<byte>)
    ensures |r| == n && forall i :: 0 <= i < n ==> r[i] == 0
  {
    seq(n, _ => 0)
  }

  /** s without its leading NUL bytes. */
  function TrimLeftNul(s: seq<byte>): seq<byte>
  {
    if s == [] || s[0] != 0 then s else TrimLeftNul(s[1..])
  }

  /** s without its trailing NUL bytes. */
  function TrimRightNul(s: seq<byte>): seq<byte>
  {
    if s == [] || s[|s| - 1] != 0 then s else TrimRightNul(s[..|s| - 1])
  }

  /** TrimLeftNul drops a prefix of s made only of NUL bytes, and no more:
      what is left is empty or starts with a non-NUL byte. */
  lemma {:induction false} TrimLeftNulSpec(s: seq<byte>)
    ensures var r := TrimLeftNul(s);
            |r| <= |s| && r == s[|s| - |r|..]
            && (forall i :: 0 <= i < |s| - |r| ==> s[i] == 0)
            && (r == [] || r[0] != 0)
  {
    if s != [] && s[0] == 0 {
      TrimLeftNulSpec(s[1..]);
    }
  }

  /** TrimRightNul drops a suffix of s made only of NUL bytes, and no more:
      what is left is empty or ends with a non-NUL byte. */
  lemma {:induction false} TrimRightNulSpec(s: seq<byte>)
    ensures var r := TrimRightNul(s);
            |r| <= |s| && r == s[..|r|]
            && (forall i :: |r| <= i < |s| ==> s[i] == 0)
            && (r == [] || r[|r| - 1] != 0)
  {
    if s != [] && s[|s| - 1] == 0 {
      TrimRightNulSpec(s[..|s| - 1]);
    }
  }

  /** strings.Trim(s, "\u0000"): NUL bytes removed from both ends. With a
      one-byte ASCII cut set Go trims byte by byte. */
  function TrimNul(s: seq<byte>): seq<byte>
  {
    TrimRightNul(TrimLeftNul(s))
  }

  /** A name whose ends are not NUL survives trimming exactly, however many
      NUL bytes pad it on either side. */
  lemma TrimNulOfPadded(lead: nat, name: seq<byte>, trail: nat)
    requires name == [] || (name[0] != 0 && name[|name| - 1] != 0)
    ensures TrimNul(Zeros(lead) + name + Zeros(trail)) == name
  {
    var s := Zeros(lead) + name + Zeros(trail);
    var l := TrimLeftNul(s);
    TrimLeftNulSpec(s);
    if name == [] {
      assert forall i :: 0 <= i < |s| ==> s[i] == 0;
      assert l == [];
    } else {
      var k := |s| - |l|;
      assert s[lead] == name[0];
      assert k == lead;
      assert l == name + Zeros(trail);
      var r := TrimRightNul(l);
      TrimRightNulSpec(l);
      assert l[|name| - 1] == name[|name| - 1];
      assert r == name;
    }
  }

  /** Trimming is idempotent, and its result neither starts nor ends with NUL. */
  lemma TrimNulIdempotent(s: seq<byte>)
    ensures var t := TrimNul(s); (t == [] || (t[0] != 0 && t[|t| - 1] != 0)) && TrimNul(t) == t
  {
    var l := TrimLeftNul(s);
    var t := TrimNul(s);
    TrimLeftNulSpec(s);
    TrimRightNulSpec(l);
    if t != [] {
      assert t[0] == l[0];
    }
    TrimNulOfPadded(0, t, 0);
    assert Zeros(0) + t + Zeros(0) == t;
  }
}
