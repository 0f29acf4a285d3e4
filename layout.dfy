/** The legacy on-disk layout of an ipdb file: a 20-byte header, six chained
    dictionary segments, an array of 17-byte records and a 256-entry
    first-octet index, all big-endian. */
module Layout {
  import opened Bytes

  /** METALEN: size of the header. */
  const MetaLen: nat := 20
  /** Size of a continent or country entry: a 2-byte id and a 2-byte name. */
  const ShortEntry: nat := 4
  /** Size of an area, region, city or ISP entry: a 2-byte id and a 64-byte name. */
  const LongEntry: nat := 66
  /** Size of one record: 4-byte start address, 1-byte mask, six 2-byte ids. */
  const RecordLen: nat := 17
  /** Number of entries of the first-octet index. */
  const IndexLen: nat := 256

  // ---------------------------------------------------------------- header

  datatype Header = Header(version: u32,
                           continentLen: u16, countryLen: u16, areaLen: u16,
                           regionLen: u16, cityLen: u16, ispLen: u16,
                           netLen: u32)

  /** The header fields, read big-endian at fixed offsets: version from bytes
      0-3, the six counts from bytes 4-15, netLen from bytes 16-19. */
  function DecodeHeader(data: seq<byte>): Header
    requires |data| >= MetaLen
  {
    Header(BE32(data, 0),
           BE16(data, 4), BE16(data, 6), BE16(data, 8),
           BE16(data, 10), BE16(data, 12), BE16(data, 14),
           BE32(data, 16))
  }

  /** The 20 header bytes that describe h. */
  function EncodeHeader(h: Header): (r: seq<byte>)
    ensures |r| == MetaLen
  {
    Encode32(h.version)
      + Encode16(h.continentLen) + Encode16(h.countryLen) + Encode16(h.areaLen)
      + Encode16(h.regionLen) + Encode16(h.cityLen) + Encode16(h.ispLen)
      + Encode32(h.netLen)
  }

  /** A 16-bit read only looks at the two bytes it reads. */
  lemma BE16At(pre: seq<byte>, x: u16, rest: seq<byte>)
    ensures |pre + Encode16(x) + rest| >= |pre| + 2
    ensures BE16(pre + Encode16(x) + rest, |pre|) == x
  {
    BE16Encode16(x, rest);
    assert (pre + Encode16(x) + rest)[|pre|..] == Encode16(x) + rest;
  }

  /** A 32-bit read only looks at the four bytes it reads. */
  lemma BE32At(pre: seq<byte>, x: u32, rest: seq<byte>)
    ensures |pre + Encode32(x) + rest| >= |pre| + 4
    ensures BE32(pre + Encode32(x) + rest, |pre|) == x
  {
    BE32Encode32(x, rest);
    assert (pre + Encode32(x) + rest)[|pre|..] == Encode32(x) + rest;
  }

  /** Decoding an encoded header gives the header back, whatever follows it. */
  lemma DecodeEncodeHeader(h: Header, rest: seq<byte>)
    ensures DecodeHeader(EncodeHeader(h) + rest) == h
  {
    var e0, e1, e2, e3 := Encode32(h.version), Encode16(h.continentLen), Encode16(h.countryLen), Encode16(h.areaLen);
    var e4, e5, e6, e7 := Encode16(h.regionLen), Encode16(h.cityLen), Encode16(h.ispLen), Encode32(h.netLen);
    var s := EncodeHeader(h) + rest;
    assert s == e0 + e1 + e2 + e3 + e4 + e5 + e6 + e7 + rest;
    BE32At([], h.version, e1 + e2 + e3 + e4 + e5 + e6 + e7 + rest);
    BE16At(e0, h.continentLen, e2 + e3 + e4 + e5 + e6 + e7 + rest);
    BE16At(e0 + e1, h.countryLen, e3 + e4 + e5 + e6 + e7 + rest);
    BE16At(e0 + e1 + e2, h.areaLen, e4 + e5 + e6 + e7 + rest);
    BE16At(e0 + e1 + e2 + e3, h.regionLen, e5 + e6 + e7 + rest);
    BE16At(e0 + e1 + e2 + e3 + e4, h.cityLen, e6 + e7 + rest);
    BE16At(e0 + e1 + e2 + e3 + e4 + e5, h.ispLen, e7 + rest);
    BE32At(e0 + e1 + e2 + e3 + e4 + e5 + e6, h.netLen, rest);
  }

  /** Encoding a decoded header gives back the 20 bytes it was read from. */
  lemma EncodeDecodeHeader(data: seq<byte>)
    requires |data| >= MetaLen
    ensures EncodeHeader(DecodeHeader(data)) == data[..MetaLen]
  {
    Encode32BE32(data, 0);
    Encode16BE16(data, 4);
    Encode16BE16(data, 6);
    Encode16BE16(data, 8);
    Encode16BE16(data, 10);
    Encode16BE16(data, 12);
    Encode16BE16(data, 14);
    Encode32BE32(data, 16);
    assert data[..MetaLen] == data[0..4] + data[4..6] + data[6..8] + data[8..10]
      + data[10..12] + data[12..14] + data[14..16] + data[16..20];
  }

  // ---------------------------------------------------------------- segments

  /** Entry counts of the six dictionary segments, in file order: continent,
      country, area, region, city, ISP. */
  function Counts(h: Header): (c: seq<nat>)
    ensures |c| == 6
  {
    [h.continentLen, h.countryLen, h.areaLen, h.regionLen, h.cityLen, h.ispLen]
  }

  /** Entry sizes of the six segments, in the same order. */
  const Widths: seq<nat> := [ShortEntry, ShortEntry, LongEntry, LongEntry, LongEntry, LongEntry]

  /** Where segment k starts: straight after the header for the first one,
      where segment k - 1 ends for every other; SegmentStart(h, 6) is where
      the last segment ends. */
  function SegmentStart(h: Header, k: nat): nat
    requires k <= 6
  {
    if k == 0 then MetaLen else SegmentStart(h, k - 1) + Counts(h)[k - 1] * Widths[k - 1]
  }

  /** Rstart, written as ipdb.go writes it: header size plus the sizes of all
      six segments. */
  function RecordStart(h: Header): nat
  {
    MetaLen + h.continentLen * 4 + h.countryLen * 4
      + h.areaLen * 66 + h.regionLen * 66 + h.cityLen * 66 + h.ispLen * 66
  }

  /** The position formulas of ipdb.go for each segment are the chained
      segment starts, and Rstart is where the chain ends. */
  lemma SegmentStartsClosedForm(h: Header)
    ensures SegmentStart(h, 1) == MetaLen + h.continentLen * 4
    ensures SegmentStart(h, 2) == MetaLen + h.continentLen * 4 + h.countryLen * 4
    ensures SegmentStart(h, 3) == MetaLen + h.continentLen * 4 + h.countryLen * 4 + h.areaLen * 66
    ensures SegmentStart(h, 4) == MetaLen + h.continentLen * 4 + h.countryLen * 4 + h.areaLen * 66
                                  + h.regionLen * 66
    ensures SegmentStart(h, 5) == MetaLen + h.continentLen * 4 + h.countryLen * 4 + h.areaLen * 66
                                  + h.regionLen * 66 + h.cityLen * 66
    ensures SegmentStart(h, 6) == RecordStart(h)
    ensures RecordStart(h) == 20 + 4 * (h.continentLen + h.countryLen)
                              + 66 * (h.areaLen + h.regionLen + h.cityLen + h.ispLen)
  {
  }

  /** Segments come in order and all of them end by Rstart. */
  lemma {:induction false} SegmentWithinRecordStart(h: Header, k: nat)
    requires k < 6
    ensures MetaLen <= SegmentStart(h, k)
    ensures SegmentStart(h, k) + Counts(h)[k] * Widths[k] == SegmentStart(h, k + 1)
    ensures SegmentStart(h, k + 1) <= RecordStart(h)
  {
    SegmentStartsClosedForm(h);
  }

  /** Byte offset of index entry i: after Rstart and netLen records. */
  function IndexOffset(h: Header, i: nat): nat
  {
    RecordStart(h) + h.netLen * RecordLen + i * 4
  }

  /** Smallest buffer length that every slice of Init fits in:
      Rstart + 17 * netLen + 1024. */
  function IndexEnd(h: Header): nat
  {
    IndexOffset(h, IndexLen)
  }

  // ---------------------------------------------------------------- dictionaries

  /** Hdata: one dictionary entry as stored, the name still NUL-padded. */
  datatype Hdata = Hdata(id: u16, name: seq<byte>)

  /** The entry of the given width at pos: a 16-bit id, then width - 2 name bytes. */
  function EntryAt(data: seq<byte>, pos: nat, width: nat): Hdata
    requires 2 <= width && pos + width <= |data|
  {
    Hdata(BE16(data, pos), data[pos + 2..pos + width])
  }

  /** Slot i of count slots of width w ends within the count slots. */
  lemma SlotBound(a: int, i: nat, count: nat, w: nat)
    requires i < count
    ensures 0 <= i * w && a + i * w + w <= a + count * w
  {
    assert count * w == (i + 1) * w + (count - i - 1) * w;
    ProductNat(count - i - 1, w);
    ProductNat(i, w);
  }

  /** A product of naturals is a natural. */
  lemma ProductNat(a: nat, b: nat)
    ensures 0 <= a * b
  {
  }

  /** The count entries of a segment that starts at start: entry i is read
      from data[pos:pos+width] with pos = start + i * width. */
  function Segment(data: seq<byte>, start: nat, count: nat, width: nat): (es: seq<Hdata>)
    requires 2 <= width && start + count * width <= |data|
    ensures |es| == count
  {
    seq(count, i requires 0 <= i < count =>
      SlotBound(start, i, count, width);
      EntryAt(data, start + i * width, width))
  }

  /** The map that inserting the entries in order builds, each name with its
      NUL padding trimmed; its keys are exactly the ids read. */
  function Dictionary(es: seq<Hdata>): (d: map<u16, seq<byte>>)
    ensures d.Keys == set e | e in es :: e.id
  {
    if es == [] then map[]
    else
      var last := es[|es| - 1];
      assert forall e :: e in es <==> e in es[..|es| - 1] || e == last;
      Dictionary(es[..|es| - 1])[last.id := TrimNul(last.name)]
  }

  /** Inserting one more entry: its id now maps to its trimmed name. */
  lemma DictionarySnoc(es: seq<Hdata>, i: nat)
    requires i < |es|
    ensures Dictionary(es[..i + 1]) == Dictionary(es[..i])[es[i].id := TrimNul(es[i].name)]
  {
    assert es[..i + 1][..i] == es[..i];
  }

  /** A later entry with the same id overwrites an earlier one: the value of an
      id is the trimmed name of the last entry that carries it. */
  lemma {:induction false} LastEntryWins(es: seq<Hdata>, j: nat)
    requires j < |es|
    requires forall j' :: j < j' < |es| ==> es[j'].id != es[j].id
    ensures es[j].id in Dictionary(es) && Dictionary(es)[es[j].id] == TrimNul(es[j].name)
  {
    if j < |es| - 1 {
      LastEntryWins(es[..|es| - 1], j);
    }
  }

  /** Go's read of a map[uint16]string: the stored value, or "" when the id
      is missing. */
  function Label(d: map<u16, seq<byte>>, id: u16): seq<byte>
  {
    if id in d then d[id] else []
  }

  /** An id that no entry carries reads as the empty name. */
  lemma MissingIdIsEmpty(es: seq<Hdata>, id: u16)
    requires forall j :: 0 <= j < |es| ==> es[j].id != id
    ensures Label(Dictionary(es), id) == []
  {
  }

  /** The bytes of one dictionary entry with a name padded to width - 2. */
  function EncodeEntry(id: u16, name: seq<byte>, width: nat): (r: seq<byte>)
    requires 2 <= width && |name| <= width - 2
    ensures |r| == width
  {
    Encode16(id) + name + Zeros(width - 2 - |name|)
  }

  /** An encoded entry decodes to its id and, once trimmed, to its name. */
  lemma EntryRoundTrip(pre: seq<byte>, id: u16, name: seq<byte>, width: nat, rest: seq<byte>)
    requires 2 <= width && |name| <= width - 2
    requires name == [] || (name[0] != 0 && name[|name| - 1] != 0)
    ensures |pre| + width <= |pre + EncodeEntry(id, name, width) + rest|
    ensures var e := EntryAt(pre + EncodeEntry(id, name, width) + rest, |pre|, width);
            e.id == id && TrimNul(e.name) == name
  {
    var pad := Zeros(width - 2 - |name|);
    var tail := name + pad + rest;
    var s := pre + Encode16(id) + tail;
    assert pre + EncodeEntry(id, name, width) + rest == s;
    BE16At(pre, id, tail);
    assert s[|pre| + 2..] == tail;
    assert tail[..width - 2] == name + pad;
    assert s[|pre| + 2..|pre| + width] == name + pad;
    TrimNulOfPadded(0, name, |pad|);
    assert Zeros(0) + name + pad == name + pad;
  }

  // ---------------------------------------------------------------- records

  /** Record: start of an address block, its prefix length and six ids. */
  datatype Record = Record(ip: u32, mask: byte,
                           continentID: u16, countryID: u16, areaID: u16,
                           regionID: u16, cityID: u16, ispID: u16)

  /** The record stored at byte offset p. */
  function DecodeRecord(data: seq<byte>, p: nat): Record
    requires p + RecordLen <= |data|
  {
    Record(BE32(data, p), data[p + 4],
           BE16(data, p + 5), BE16(data, p + 7), BE16(data, p + 9),
           BE16(data, p + 11), BE16(data, p + 13), BE16(data, p + 15))
  }

  /** The 17 bytes that describe r. */
  function EncodeRecord(r: Record): (s: seq<byte>)
    ensures |s| == RecordLen
  {
    Encode32(r.ip) + [r.mask]
      + Encode16(r.continentID) + Encode16(r.countryID) + Encode16(r.areaID)
      + Encode16(r.regionID) + Encode16(r.cityID) + Encode16(r.ispID)
  }

  /** Decoding an encoded record, wherever it sits, gives the record back. */
  lemma DecodeEncodeRecord(pre: seq<byte>, r: Record, rest: seq<byte>)
    ensures |pre| + RecordLen <= |pre + EncodeRecord(r) + rest|
    ensures DecodeRecord(pre + EncodeRecord(r) + rest, |pre|) == r
  {
    var e0, e1, e2, e3 := Encode32(r.ip), [r.mask], Encode16(r.continentID), Encode16(r.countryID);
    var e4, e5, e6, e7 := Encode16(r.areaID), Encode16(r.regionID), Encode16(r.cityID), Encode16(r.ispID);
    var s := pre + EncodeRecord(r) + rest;
    assert s == pre + e0 + e1 + e2 + e3 + e4 + e5 + e6 + e7 + rest;
    BE32At(pre, r.ip, e1 + e2 + e3 + e4 + e5 + e6 + e7 + rest);
    assert s[|pre| + 4] == r.mask;
    BE16At(pre + e0 + e1, r.continentID, e3 + e4 + e5 + e6 + e7 + rest);
    BE16At(pre + e0 + e1 + e2, r.countryID, e4 + e5 + e6 + e7 + rest);
    BE16At(pre + e0 + e1 + e2 + e3, r.areaID, e5 + e6 + e7 + rest);
    BE16At(pre + e0 + e1 + e2 + e3 + e4, r.regionID, e6 + e7 + rest);
    BE16At(pre + e0 + e1 + e2 + e3 + e4 + e5, r.cityID, e7 + rest);
    BE16At(pre + e0 + e1 + e2 + e3 + e4 + e5 + e6, r.ispID, rest);
  }

  /** Encoding a decoded record gives back the 17 bytes it was read from. */
  lemma EncodeDecodeRecord(data: seq<byte>, p: nat)
    requires p + RecordLen <= |data|
    ensures EncodeRecord(DecodeRecord(data, p)) == data[p..p + RecordLen]
  {
    Encode32BE32(data, p);
    Encode16BE16(data, p + 5);
    Encode16BE16(data, p + 7);
    Encode16BE16(data, p + 9);
    Encode16BE16(data, p + 11);
    Encode16BE16(data, p + 13);
    Encode16BE16(data, p + 15);
    assert data[p..p + RecordLen] == data[p..p + 4] + [data[p + 4]] + data[p + 5..p + 7]
      + data[p + 7..p + 9] + data[p + 9..p + 11] + data[p + 11..p + 13]
      + data[p + 13..p + 15] + data[p + 15..p + 17];
  }

  /** A record the model can evaluate exactly: a prefix length of at most 32
      and a block that ends inside the 32-bit address space. */
  predicate WellFormed(r: Record)
  {
    r.mask <= 32 && r.ip + Pow2(32 - r.mask) <= 0x1_0000_0000
  }

  /** Last address of the block: rs + 2^(32-mask) - 1. */
  function RangeEnd(r: Record): int
    requires r.mask <= 32
  {
    r.ip + Pow2(32 - r.mask) - 1
  }

  /** The closed range test of FindByUint: rs <= ip <= rs + 2^(32-mask) - 1. */
  predicate Contains(r: Record, ip: int)
    requires r.mask <= 32
  {
    r.ip <= ip <= RangeEnd(r)
  }

  /** Both ends of a block are inside it and the addresses just outside are
      not; a well-formed block ends at a 32-bit address. */
  lemma RangeBoundaries(r: Record)
    requires WellFormed(r)
    ensures Contains(r, r.ip) && Contains(r, RangeEnd(r))
    ensures !Contains(r, r.ip - 1) && !Contains(r, RangeEnd(r) + 1)
    ensures RangeEnd(r) < 0x1_0000_0000
  {
  }

  /** Per probe of the binary search exactly one case applies: a match, the
      address above the block, or the address below it. */
  lemma ProbeCasesExclusive(r: Record, ip: int)
    requires WellFormed(r)
    ensures Contains(r, ip) || ip > RangeEnd(r) || ip < r.ip
    ensures !(Contains(r, ip) && ip > RangeEnd(r))
    ensures !(Contains(r, ip) && ip < r.ip)
    ensures !(ip > RangeEnd(r) && ip < r.ip)
  {
  }
}
