/** The database of ipdb.go: Init decodes a byte buffer into a DB, and
    FindByUint answers an IPv4 lookup with the CIDR block and six labels of
    the record that contains the address. */
module Ipdb {
  import opened Bytes
  import opened Address
  import opened Layout
  import opened Search

  /** Result: the CIDR text and the six labels. Labels are Go strings, so
      they are kept as the bytes read from the file. */
  datatype Result = Result(cidr: string,
                           continent: seq<byte>, country: seq<byte>, area: seq<byte>,
                           region: seq<byte>, city: seq<byte>, isp: seq<byte>)

  /** What FindByUint ends with: a result, "Not Found", a slice out of range
      (a panic in Go), or a record whose block the model does not evaluate. */
  datatype Answer = Found(result: Result) | NotFound | SliceOutOfRange | MalformedRecord

  /** The fields of a DB, as one value. */
  datatype DbState = DbState(head: Header,
                             continent: map<u16, seq<byte>>, country: map<u16, seq<byte>>,
                             area: map<u16, seq<byte>>, region: map<u16, seq<byte>>,
                             city: map<u16, seq<byte>>, isp: map<u16, seq<byte>>,
                             idx: map<int, u32>, rstart: nat, data: seq<byte>)

  /** What Init does with a buffer: a decoded database, or a panic because a
      slice runs past the end of the buffer. */
  datatype Decoded = Loaded(state: DbState) | Panicked

  /** The DB that new(DB) gives: every field at its zero value. */
  function EmptyState(): DbState
  {
    DbState(Header(0, 0, 0, 0, 0, 0, 0, 0), map[], map[], map[], map[], map[], map[], map[], 0, [])
  }

  // ---------------------------------------------------------------- decoding

  /** The entries of dictionary segment k (0 continent ... 5 ISP). */
  function SegmentEntries(data: seq<byte>, h: Header, k: nat): seq<Hdata>
    requires k < 6 && RecordStart(h) <= |data|
  {
    SegmentWithinRecordStart(h, k);
    Segment(data, SegmentStart(h, k), Counts(h)[k], Widths[k])
  }

  /** The 256 index entries, read big-endian after the netLen records. */
  function IndexTable(data: seq<byte>, h: Header): map<int, u32>
    requires IndexEnd(h) <= |data|
  {
    map i | 0 <= i < IndexLen :: BE32(data, IndexOffset(h, i))
  }

  /** Init as a function of the buffer. */
  function Decode(data: seq<byte>): Decoded
  {
    if |data| < MetaLen then Panicked
    else
      var h := DecodeHeader(data);
      if |data| < IndexEnd(h) then Panicked
      else
        Loaded(DbState(h,
                       Dictionary(SegmentEntries(data, h, 0)), Dictionary(SegmentEntries(data, h, 1)),
                       Dictionary(SegmentEntries(data, h, 2)), Dictionary(SegmentEntries(data, h, 3)),
                       Dictionary(SegmentEntries(data, h, 4)), Dictionary(SegmentEntries(data, h, 5)),
                       IndexTable(data, h), RecordStart(h), data))
  }

  /** The fields that Init computes, one by one, make up what Decode gives. */
  lemma DecodeLoaded(data: seq<byte>, h: Header,
                     continent: map<u16, seq<byte>>, country: map<u16, seq<byte>>,
                     area: map<u16, seq<byte>>, region: map<u16, seq<byte>>,
                     city: map<u16, seq<byte>>, isp: map<u16, seq<byte>>,
                     idx: map<int, u32>, rstart: nat)
    requires |data| >= MetaLen && h == DecodeHeader(data) && |data| >= IndexEnd(h)
    requires continent == Dictionary(SegmentEntries(data, h, 0))
    requires country == Dictionary(SegmentEntries(data, h, 1))
    requires area == Dictionary(SegmentEntries(data, h, 2))
    requires region == Dictionary(SegmentEntries(data, h, 3))
    requires city == Dictionary(SegmentEntries(data, h, 4))
    requires isp == Dictionary(SegmentEntries(data, h, 5))
    requires idx == IndexTable(data, h) && rstart == RecordStart(h)
    ensures Decode(data) == Loaded(DbState(h, continent, country, area, region, city, isp, idx, rstart, data))
  {
  }

  /** Init panics exactly when some index read would run past the buffer (the
      index is read last and lies furthest out), and when it does not, every
      dictionary segment and every record slot lies inside the buffer. */
  lemma DecodeBounds(data: seq<byte>)
    ensures Decode(data).Loaded? <==>
              |data| >= MetaLen
              && forall i :: 0 <= i < IndexLen ==> IndexOffset(DecodeHeader(data), i) + 4 <= |data|
    ensures Decode(data).Loaded? ==>
              && (forall k :: 1 <= k <= 6 ==> SegmentStart(DecodeHeader(data), k) <= |data|)
              && (forall m :: 0 <= m < DecodeHeader(data).netLen ==>
                    InBounds(data, RecordStart(DecodeHeader(data)), m))
  {
    if |data| >= MetaLen {
      var h := DecodeHeader(data);
      if |data| >= IndexEnd(h) {
        forall k | 1 <= k <= 6
          ensures SegmentStart(h, k) <= |data|
        {
          SegmentWithinRecordStart(h, k - 1);
        }
      } else {
        assert IndexOffset(h, IndexLen - 1) + 4 > |data|;
      }
    }
  }

  /** Segment k, read from where the chain of segments puts it, is in the
      buffer and holds the entries that Decode gives. */
  lemma SegmentEntriesAt(data: seq<byte>, h: Header, k: nat, start: nat, count: nat, width: nat)
    requires k < 6 && RecordStart(h) <= |data|
    requires start == SegmentStart(h, k) && count == Counts(h)[k] && width == Widths[k]
    ensures 2 <= width && start + count * width <= |data|
    ensures start + count * width == SegmentStart(h, k + 1)
    ensures Segment(data, start, count, width) == SegmentEntries(data, h, k)
  {
    SegmentWithinRecordStart(h, k);
  }

  // ---------------------------------------------------------------- lookup

  /** The Result built from a matched record: its block as CIDR text, and each
      id looked up in its dictionary ("" when missing). */
  function Materialize(s: DbState, rec: Record): Result
  {
    Result(FormatCidr(rec.ip, rec.mask),
           Label(s.continent, rec.continentID), Label(s.country, rec.countryID),
           Label(s.area, rec.areaID), Label(s.region, rec.regionID),
           Label(s.city, rec.cityID), Label(s.isp, rec.ispID))
  }

  /** The CIDR text of a result names the matched block: it parses back to
      the record's start address and mask. Each label is the dictionary
      entry of the record's id, or empty when the dictionary lacks that id. */
  lemma MaterializeSound(s: DbState, rec: Record)
    ensures var r := Materialize(s, rec);
            && ParseCidr(r.cidr) == Some((rec.ip, rec.mask))
            && (rec.continentID in s.continent ==> r.continent == s.continent[rec.continentID])
            && (rec.continentID !in s.continent ==> r.continent == [])
            && (rec.countryID in s.country ==> r.country == s.country[rec.countryID])
            && (rec.countryID !in s.country ==> r.country == [])
            && (rec.areaID in s.area ==> r.area == s.area[rec.areaID])
            && (rec.areaID !in s.area ==> r.area == [])
            && (rec.regionID in s.region ==> r.region == s.region[rec.regionID])
            && (rec.regionID !in s.region ==> r.region == [])
            && (rec.cityID in s.city ==> r.city == s.city[rec.cityID])
            && (rec.cityID !in s.city ==> r.city == [])
            && (rec.ispID in s.isp ==> r.isp == s.isp[rec.ispID])
            && (rec.ispID !in s.isp ==> r.isp == [])
  {
    ParseFormatCidr(rec.ip, rec.mask);
  }

  /** The search over slots f..l and what it hands back. */
  function LookupIn(s: DbState, ip: u32, f: nat, l: int): Answer
  {
    match SearchRange(s.data, s.rstart, ip, f, l)
    case Hit(m, rec) => Found(Materialize(s, rec))
    case Miss => NotFound
    case OutOfRange(_) => SliceOutOfRange
    case Malformed(_) => MalformedRecord
  }

  /** Soundness: a result comes from a slot m of the window, read at
      Rstart + 17 * m, whose well-formed block contains ip. */
  lemma LookupInSound(s: DbState, ip: u32, f: nat, l: int)
    ensures LookupIn(s, ip, f, l).Found? ==>
              exists m :: f <= m <= l && SlotOk(s.data, s.rstart, m)
                          && Contains(RecordAt(s.data, s.rstart, m), ip)
                          && LookupIn(s, ip, f, l).result == Materialize(s, RecordAt(s.data, s.rstart, m))
  {
    SearchRangeSound(s.data, s.rstart, ip, f, l);
    var r := SearchRange(s.data, s.rstart, ip, f, l);
    if r.Hit? {
      assert Located(s.data, s.rstart, ip, f, l, r);
    }
  }

  /** FindByUint: the search over the window that the first-octet index gives. */
  function Lookup(s: DbState, ip: u32): Answer
  {
    LookupIn(s, ip, StartOffset(s.idx, ip), EndOffset(s.idx, s.head.netLen, ip))
  }

  /** The same search over the whole record array, with no index. */
  function LookupWithoutIndex(s: DbState, ip: u32): Answer
  {
    LookupIn(s, ip, 0, LastRecord(s.head.netLen))
  }

  /** The records are in the buffer, well formed, sorted and disjoint. */
  predicate RecordsSorted(s: DbState)
  {
    s.head.netLen >= 1 && SortedWindow(s.data, s.rstart, 0, s.head.netLen - 1)
  }

  /** Index entry o names a record and splits the records at address
      o << 24: blocks before it end below, blocks from it on start at or
      above. Blocks that straddle o << 24 are excluded: the window would
      start after such a block, and the search would miss its upper part. */
  predicate IndexSplits(s: DbState, o: nat)
  {
    && IdxAt(s.idx, o) < s.head.netLen
    && forall m :: 0 <= m < s.head.netLen ==>
         && SlotOk(s.data, s.rstart, m)
         && (m < IdxAt(s.idx, o) ==> RangeEnd(RecordAt(s.data, s.rstart, m)) < o * 0x100_0000)
         && (IdxAt(s.idx, o) <= m ==> o * 0x100_0000 <= RecordAt(s.data, s.rstart, m).ip)
  }

  /** Every set index entry (1..255) splits the records at its address. */
  predicate IndexConsistent(s: DbState)
  {
    forall o :: 1 <= o < 256 && IdxAt(s.idx, o) != 0 ==> IndexSplits(s, o)
  }

  /** With a consistent index the window lies within the record array. */
  lemma WindowWithinRecords(s: DbState, ip: u32)
    requires RecordsSorted(s) && IndexConsistent(s)
    ensures EndOffset(s.idx, s.head.netLen, ip) <= s.head.netLen - 1
    ensures StartOffset(s.idx, ip) <= s.head.netLen - 1
  {
    var o := TopOctet(ip);
    var start := StartOffset(s.idx, ip);
    if start != 0 {
      var j :| 1 <= j <= o && start == IdxAt(s.idx, j)
               && forall j' :: j < j' <= o ==> IdxAt(s.idx, j') == 0;
      assert IndexSplits(s, j);
    }
    var end := EndOffset(s.idx, s.head.netLen, ip);
    if end != LastRecord(s.head.netLen) {
      var j :| o + 1 <= j < 256 && end == IdxAt(s.idx, j) != 0
               && forall j' :: o + 1 <= j' < j ==> IdxAt(s.idx, j') == 0;
      assert IndexSplits(s, j);
    }
  }

  /** With a consistent index, the record that contains ip lies in the
      window that the two index scans give. */
  lemma WindowCovers(s: DbState, ip: u32, k: nat)
    requires RecordsSorted(s) && IndexConsistent(s)
    requires k < s.head.netLen && SlotOk(s.data, s.rstart, k) && Contains(RecordAt(s.data, s.rstart, k), ip)
    ensures StartOffset(s.idx, ip) <= k <= EndOffset(s.idx, s.head.netLen, ip)
  {
    var o := TopOctet(ip);
    var start := StartOffset(s.idx, ip);
    if start != 0 {
      var j :| 1 <= j <= o && start == IdxAt(s.idx, j)
               && forall j' :: j < j' <= o ==> IdxAt(s.idx, j') == 0;
      assert IndexSplits(s, j);
    }
    var end := EndOffset(s.idx, s.head.netLen, ip);
    if end != LastRecord(s.head.netLen) {
      var j :| o + 1 <= j < 256 && end == IdxAt(s.idx, j) != 0
               && forall j' :: o + 1 <= j' < j ==> IdxAt(s.idx, j') == 0;
      assert IndexSplits(s, j);
    }
  }

  /** The search over a sorted window that holds the slot k whose block
      contains ip answers with that record. */
  lemma LookupInFinds(s: DbState, ip: u32, f: nat, l: int, k: nat)
    requires f <= k <= l && SortedWindow(s.data, s.rstart, f, l)
    requires SlotOk(s.data, s.rstart, k) && Contains(RecordAt(s.data, s.rstart, k), ip)
    ensures LookupIn(s, ip, f, l) == Found(Materialize(s, RecordAt(s.data, s.rstart, k)))
  {
    SearchFinds(s.data, s.rstart, ip, f, l, k);
  }

  /** The search over a window of well-formed slots none of which contains
      ip answers "Not Found". */
  lemma LookupInMisses(s: DbState, ip: u32, f: nat, l: int)
    requires forall m :: f <= m <= l ==>
               SlotOk(s.data, s.rstart, m) && !Contains(RecordAt(s.data, s.rstart, m), ip)
    ensures LookupIn(s, ip, f, l) == NotFound
  {
    SearchMisses(s.data, s.rstart, ip, f, l);
  }

  /** Soundness and completeness of FindByUint on sorted records with a
      consistent index: the record that contains ip is found, both through
      the index and by the full search. */
  lemma LookupFinds(s: DbState, ip: u32, k: nat)
    requires RecordsSorted(s) && IndexConsistent(s)
    requires k < s.head.netLen && SlotOk(s.data, s.rstart, k) && Contains(RecordAt(s.data, s.rstart, k), ip)
    ensures Lookup(s, ip) == Found(Materialize(s, RecordAt(s.data, s.rstart, k)))
    ensures LookupWithoutIndex(s, ip) == Found(Materialize(s, RecordAt(s.data, s.rstart, k)))
  {
    var f, l := StartOffset(s.idx, ip), EndOffset(s.idx, s.head.netLen, ip);
    WindowCovers(s, ip, k);
    WindowWithinRecords(s, ip);
    SortedSubWindow(s.data, s.rstart, 0, s.head.netLen - 1, f, l);
    LookupInFinds(s, ip, f, l, k);
    assert Lookup(s, ip) == LookupIn(s, ip, f, l);
    LookupInFinds(s, ip, 0, s.head.netLen - 1, k);
    assert LookupWithoutIndex(s, ip) == LookupIn(s, ip, 0, s.head.netLen - 1);
  }

  /** With no record that contains ip, the answer is "Not Found", through
      the index and without it. */
  lemma LookupNotFound(s: DbState, ip: u32)
    requires RecordsSorted(s) && IndexConsistent(s)
    requires forall k :: 0 <= k < s.head.netLen && SlotOk(s.data, s.rstart, k) ==>
               !Contains(RecordAt(s.data, s.rstart, k), ip)
    ensures Lookup(s, ip) == NotFound
    ensures LookupWithoutIndex(s, ip) == NotFound
  {
    WindowWithinRecords(s, ip);
    LookupInMisses(s, ip, StartOffset(s.idx, ip), EndOffset(s.idx, s.head.netLen, ip));
    LookupInMisses(s, ip, 0, s.head.netLen - 1);
  }

  /** Narrowing by the index changes no answer: on sorted records with a
      consistent index, the search over the index window answers as the
      search over the whole array does, and it answers with a result or
      "Not Found", never with a panic. */
  lemma IndexNarrowingEquivalence(s: DbState, ip: u32)
    requires RecordsSorted(s) && IndexConsistent(s)
    ensures Lookup(s, ip) == LookupWithoutIndex(s, ip)
    ensures Lookup(s, ip).Found? || Lookup(s, ip).NotFound?
  {
    if k :| 0 <= k < s.head.netLen && SlotOk(s.data, s.rstart, k) && Contains(RecordAt(s.data, s.rstart, k), ip) {
      LookupFinds(s, ip, k);
    } else {
      LookupNotFound(s, ip);
    }
  }

  /** On sorted records with a consistent index, FindByUint answers "Not
      Found" exactly when no record contains ip. */
  lemma NotFoundIff(s: DbState, ip: u32)
    requires RecordsSorted(s) && IndexConsistent(s)
    ensures Lookup(s, ip) == NotFound <==>
              forall k :: 0 <= k < s.head.netLen && SlotOk(s.data, s.rstart, k) ==>
                !Contains(RecordAt(s.data, s.rstart, k), ip)
  {
    if k :| 0 <= k < s.head.netLen && SlotOk(s.data, s.rstart, k) && Contains(RecordAt(s.data, s.rstart, k), ip) {
      LookupFinds(s, ip, k);
    } else {
      LookupNotFound(s, ip);
    }
  }

  // ---------------------------------------------------------------- Init's loops

  /** One dictionary loop of Init: the count entries of segment k, each of
      the given width and read from start, each name trimmed and stored
      under its id. */
  method ReadDictionary(data: seq<byte>, ghost h: Header, ghost k: nat, start: nat, count: nat, width: nat)
    returns (d: map<u16, seq<byte>>)
    requires k < 6 && RecordStart(h) <= |data|
    requires start == SegmentStart(h, k) && count == Counts(h)[k] && width == Widths[k]
    ensures d == Dictionary(SegmentEntries(data, h, k))
  {
    SegmentEntriesAt(data, h, k, start, count, width);
    ghost var es := Segment(data, start, count, width);
    d := map[];
    for i := 0 to count
      invariant d == Dictionary(es[..i])
    {
      SlotBound(start, i, count, width);
      var dc := EntryAt(data, start + i * width, width);
      DictionarySnoc(es, i);
      d := d[dc.id := TrimNul(dc.name)];
    }
    assert es[..count] == es;
  }

  /** The six dictionary loops of Init, in file order. Each segment is read
      from where ipdb.go computes it: after the header and all the segments
      before it. */
  method ReadDictionaries(data: seq<byte>, h: Header)
    returns (continent: map<u16, seq<byte>>, country: map<u16, seq<byte>>,
             area: map<u16, seq<byte>>, region: map<u16, seq<byte>>,
             city: map<u16, seq<byte>>, isp: map<u16, seq<byte>>)
    requires RecordStart(h) <= |data|
    ensures continent == Dictionary(SegmentEntries(data, h, 0))
    ensures country == Dictionary(SegmentEntries(data, h, 1))
    ensures area == Dictionary(SegmentEntries(data, h, 2))
    ensures region == Dictionary(SegmentEntries(data, h, 3))
    ensures city == Dictionary(SegmentEntries(data, h, 4))
    ensures isp == Dictionary(SegmentEntries(data, h, 5))
  {
    SegmentStartsClosedForm(h);
    continent := ReadDictionary(data, h, 0, MetaLen, h.continentLen, ShortEntry);
    country := ReadDictionary(data, h, 1, MetaLen + h.continentLen * 4, h.countryLen, ShortEntry);
    area := ReadDictionary(data, h, 2, MetaLen + h.continentLen * 4 + h.countryLen * 4,
                           h.areaLen, LongEntry);
    region := ReadDictionary(data, h, 3, MetaLen + h.continentLen * 4 + h.countryLen * 4
                                         + h.areaLen * 66, h.regionLen, LongEntry);
    city := ReadDictionary(data, h, 4, MetaLen + h.continentLen * 4 + h.countryLen * 4
                                       + h.areaLen * 66 + h.regionLen * 66, h.cityLen, LongEntry);
    isp := ReadDictionary(data, h, 5, MetaLen + h.continentLen * 4 + h.countryLen * 4
                                      + h.areaLen * 66 + h.regionLen * 66 + h.cityLen * 66,
                          h.ispLen, LongEntry);
  }

  /** The index loop of Init: exactly the keys 0..255, entry i read
      big-endian at Rstart + 17 * netLen + 4 * i. */
  method ReadIndex(data: seq<byte>, h: Header) returns (idx: map<int, u32>)
    requires IndexEnd(h) <= |data|
    ensures forall i :: i in idx <==> 0 <= i < IndexLen
    ensures forall i :: 0 <= i < IndexLen ==> idx[i] == BE32(data, IndexOffset(h, i))
    ensures idx == IndexTable(data, h)
  {
    idx := map[];
    for i := 0 to IndexLen
      invariant forall j :: j in idx <==> 0 <= j < i
      invariant forall j :: 0 <= j < i ==> idx[j] == BE32(data, IndexOffset(h, j))
    {
      var off := RecordStart(h) + h.netLen * RecordLen + i * 4;
      idx := idx[i := BE32(data, off)];
    }
    assert idx.Keys == IndexTable(data, h).Keys;
  }

  // ---------------------------------------------------------------- the DB

  class DB {
    var Head: Header
    var Continent: map<u16, seq<byte>>
    var Country: map<u16, seq<byte>>
    var Area: map<u16, seq<byte>>
    var Region: map<u16, seq<byte>>
    var City: map<u16, seq<byte>>
    var Isp: map<u16, seq<byte>>
    var Idx: map<int, u32>
    var Rstart: nat
    var Data: seq<byte>

    /** The fields as one value. */
    function State(): DbState
      reads this
    {
      DbState(Head, Continent, Country, Area, Region, City, Isp, Idx, Rstart, Data)
    }

    /** new(DB). */
    constructor ()
      ensures State() == EmptyState()
    {
      Head := Header(0, 0, 0, 0, 0, 0, 0, 0);
      Continent, Country, Area, Region, City, Isp := map[], map[], map[], map[], map[], map[];
      Idx := map[];
      Rstart := 0;
      Data := [];
    }

    /** Init: decodes the header, the six dictionaries, Rstart and the index,
        and keeps the buffer. Returns false where Go panics on a slice past
        the end of the buffer; the DB is then left as it was. */
    method Init(data: seq<byte>) returns (ok: bool)
      modifies this
      ensures ok <==> Decode(data).Loaded?
      ensures ok ==> State() == Decode(data).state
      ensures !ok ==> State() == old(State())
    {
      if |data| < MetaLen {
        return false;
      }
      var head := DecodeHeader(data);
      if |data| < IndexEnd(head) {
        return false;
      }
      var continent, country, area, region, city, isp := ReadDictionaries(data, head);
      SegmentStartsClosedForm(head);
      var rstart := MetaLen + head.continentLen * 4 + head.countryLen * 4
                    + head.areaLen * 66 + head.regionLen * 66 + head.cityLen * 66 + head.ispLen * 66;
      var idx := ReadIndex(data, head);
      DecodeLoaded(data, head, continent, country, area, region, city, isp, idx, rstart);
      Assign(DbState(head, continent, country, area, region, city, isp, idx, rstart, data));
      ok := true;
    }

    /** Stores each part of a decoded database in its field of the DB. */
    method Assign(st: DbState)
      modifies this
      ensures State() == st
    {
      Head := st.head;
      Continent, Country, Area, Region, City, Isp := st.continent, st.country, st.area, st.region, st.city, st.isp;
      Rstart := st.rstart;
      Idx := st.idx;
      Data := st.data;
    }

    /** findStartIdxOffset: from the query's top octet down to 1, the first
        non-zero index entry, else 0. */
    method FindStartIdxOffset(ip: u32) returns (start: int)
      ensures start == StartOffset(Idx, ip)
    {
      var ipFirst := ip / 0x100_0000;
      start := 0;
      var i := ipFirst;
      while i > 0
        invariant 0 <= i <= ipFirst
        invariant ScanDown(Idx, i) == ScanDown(Idx, ipFirst)
      {
        if IdxAt(Idx, i) != 0 {
          start := IdxAt(Idx, i);
          break;
        }
        i := i - 1;
      }
    }

    /** findEndIdxOffset: from the octet above the query's up to 255, the
        first non-zero index entry, else netLen - 1 (wrapping as uint32). */
    method FindEndIdxOffset(ip: u32) returns (end: int)
      ensures end == EndOffset(Idx, Head.netLen, ip)
    {
      var ipFirst := ip / 0x100_0000;
      end := (Head.netLen - 1) % 0x1_0000_0000;
      var i := ipFirst + 1;
      while i < 256
        invariant ipFirst + 1 <= i <= 256
        invariant ScanUp(Idx, i, end) == ScanUp(Idx, ipFirst + 1, LastRecord(Head.netLen))
        invariant end == LastRecord(Head.netLen)
      {
        if IdxAt(Idx, i) != 0 {
          end := IdxAt(Idx, i);
          break;
        }
        i := i + 1;
      }
    }

    /** FindByUint: binary search over the records of the index window, then
        the block found is turned into a Result. The DB is not changed. */
    method FindByUint(ip: u32) returns (r: Answer)
      ensures r == Lookup(State(), ip)
    {
      var f := FindStartIdxOffset(ip);
      var l := FindEndIdxOffset(ip);
      var probe := BinarySearch(Data, Rstart, ip, f, l);
      match probe
      case Hit(_, rec) =>
        r := Found(Result(FormatCidr(rec.ip, rec.mask),
                          Label(Continent, rec.continentID), Label(Country, rec.countryID),
                          Label(Area, rec.areaID), Label(Region, rec.regionID),
                          Label(City, rec.cityID), Label(Isp, rec.ispID)));
      case Miss => r := NotFound;
      case OutOfRange(_) => r := SliceOutOfRange;
      case Malformed(_) => r := MalformedRecord;
    }
  }
}
