/** IPv4 addresses as 32-bit integers and as four octets in network order
    (Long2Ip and the octet part of IP2long), and the dotted-quad CIDR text
    that a lookup hands back, with a parser that inverts it. */
module Address {
  import opened Bytes

  datatype Option<T> = None | Some(value: T) {
    predicate IsFailure() { None? }
    function PropagateFailure<U>(): Option<U> requires None? { None }
    function Extract(): T requires Some? { value }
  }

  /** Long2Ip: net.IPv4(byte(a>>24), byte(a>>16), byte(a>>8), byte(a)), the
      four octets most significant first. */
  function Long2Ip(a: u32): (octets: seq<byte>)
    ensures |octets| == 4 && IP2Long(octets) == a
  {
    BE32Encode32(a, []);
    assert Encode32(a) + [] == Encode32(a);
    Encode32(a)
  }

  /** The octet part of IP2long: binary.BigEndian.Uint32 of ip.To4(). */
  function IP2Long(octets: seq<byte>): u32
    requires |octets| == 4
  {
    BE32(octets, 0)
  }

  /** The other direction of the round trip: four octets survive
      IP2long followed by Long2Ip. */
  lemma Long2IpIP2Long(octets: seq<byte>)
    requires |octets| == 4
    ensures Long2Ip(IP2Long(octets)) == octets
  {
    Encode32BE32(octets, 0);
    assert octets[0..4] == octets;
  }

  predicate IsDigit(c: char) { '0' <= c <= '9' }

  function DigitChar(d: nat): (c: char)
    requires d < 10
    ensures IsDigit(c)
  {
    ('0' as int + d) as char
  }

  function DigitOf(c: char): (d: nat)
    requires IsDigit(c)
    ensures d < 10
  {
    c as int - '0' as int
  }

  /** Decimal digits of n, without leading zeros (the %d verb, and each
      octet of net.IP.String): only the text of 0 starts with '0'. */
  function Decimal(n: nat): (s: string)
    ensures 1 <= |s| && forall i :: 0 <= i < |s| ==> IsDigit(s[i])
    ensures s[0] == '0' <==> n == 0
  {
    if n < 10 then [DigitChar(n)] else Decimal(n / 10) + [DigitChar(n % 10)]
  }

  /** The number a string of decimal digits denotes. */
  function DigitsValue(s: string): nat
    requires forall i :: 0 <= i < |s| ==> IsDigit(s[i])
  {
    if s == [] then 0 else DigitsValue(s[..|s| - 1]) * 10 + DigitOf(s[|s| - 1])
  }

  /** Decimal and DigitsValue are inverse. */
  lemma {:induction false} DecimalValue(n: nat)
    ensures DigitsValue(Decimal(n)) == n
  {
    if n >= 10 {
      DecimalValue(n / 10);
      var s := Decimal(n);
      assert s[..|s| - 1] == Decimal(n / 10);
    }
  }

  /** Decimal gives the only digit string without a leading zero that
      denotes n: the %d text of a number is determined by its value. */
  lemma {:induction false} DecimalUnique(t: string, n: nat)
    requires 1 <= |t| && forall i :: 0 <= i < |t| ==> IsDigit(t[i])
    requires t[0] == '0' ==> |t| == 1
    requires DigitsValue(t) == n
    ensures t == Decimal(n)
    decreases |t|
  {
    if |t| > 1 {
      var p := t[..|t| - 1];
      assert p[0] == t[0];
      DecimalUnique(p, n / 10);
    }
  }

  /** Length of the run of digits that s starts with. */
  function DigitRun(s: string): (k: nat)
    ensures k <= |s| && (forall i :: 0 <= i < k ==> IsDigit(s[i]))
    ensures k < |s| ==> !IsDigit(s[k])
  {
    if s == [] || !IsDigit(s[0]) then 0 else 1 + DigitRun(s[1..])
  }

  /** net.IP.String of a 4-byte address: the octets in decimal, joined by dots. */
  function FormatIPv4(octets: seq<byte>): string
    requires |octets| == 4
  {
    Decimal(octets[0]) + "." + Decimal(octets[1]) + "." + Decimal(octets[2]) + "." + Decimal(octets[3])
  }

  /** fmt.Sprintf("%s/%d", Long2Ip(ip).To4(), mask). */
  function FormatCidr(ip: u32, mask: byte): string
  {
    FormatIPv4(Long2Ip(ip)) + "/" + Decimal(mask)
  }

  /** A decimal number below 256 followed by sep, and what comes after sep. */
  function ReadField(s: string, sep: char): Option<(byte, string)>
  {
    var k := DigitRun(s);
    if 0 < k < |s| && s[k] == sep && DigitsValue(s[..k]) < 0x100
    then Some((DigitsValue(s[..k]), s[k + 1..]))
    else None
  }

  /** A decimal number below 256 that makes up all of s. */
  function ReadLast(s: string): Option<byte>
  {
    var k := DigitRun(s);
    if 0 < k == |s| && DigitsValue(s) < 0x100 then Some(DigitsValue(s)) else None
  }

  /** Reads "a.b.c.d/m" back into the address and the prefix length. */
  function ParseCidr(s: string): Option<(u32, byte)>
  {
    var p1 :- ReadField(s, '.');
    var p2 :- ReadField(p1.1, '.');
    var p3 :- ReadField(p2.1, '.');
    var p4 :- ReadField(p3.1, '/');
    var mask :- ReadLast(p4.1);
    Some((IP2Long([p1.0, p2.0, p3.0, p4.0]), mask))
  }

  lemma ReadFieldDecimal(n: byte, sep: char, rest: string)
    requires !IsDigit(sep)
    ensures ReadField(Decimal(n) + [sep] + rest, sep) == Some((n, rest))
  {
    var d := Decimal(n);
    var s := d + [sep] + rest;
    var k := DigitRun(s);
    assert s[|d|] == sep;
    assert k == |d|;
    assert s[..k] == d;
    assert s[k + 1..] == rest;
    DecimalValue(n);
  }

  lemma ReadLastDecimal(n: byte)
    ensures ReadLast(Decimal(n)) == Some(n)
  {
    DecimalValue(n);
  }

  /** The CIDR text names its block unambiguously: parsing it gives back
      the address and the prefix length it was formatted from. */
  lemma ParseFormatCidr(ip: u32, mask: byte)
    ensures ParseCidr(FormatCidr(ip, mask)) == Some((ip, mask))
  {
    var o := Long2Ip(ip);
    var d0, d1, d2, d3, dm := Decimal(o[0]), Decimal(o[1]), Decimal(o[2]), Decimal(o[3]), Decimal(mask);
    var r3 := d3 + "/" + dm;
    var r2 := d2 + "." + r3;
    var r1 := d1 + "." + r2;
    assert FormatCidr(ip, mask) == d0 + "." + r1;
    ReadFieldDecimal(o[0], '.', r1);
    ReadFieldDecimal(o[1], '.', r2);
    ReadFieldDecimal(o[2], '.', r3);
    ReadFieldDecimal(o[3], '/', dm);
    ReadLastDecimal(mask);
    assert [o[0], o[1], o[2], o[3]] == o;
  }
}
