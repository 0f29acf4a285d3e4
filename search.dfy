/** The lookup path of FindByUint as functions of the buffer: the two scans
    of the first-octet index that narrow the window, and the binary search
    over 17-byte records with closed-range containment. */
module Search {
  import opened Bytes
  import opened Layout

  // ---------------------------------------------------------------- window

  /** Go's read of the index map[int]uint32: a missing key reads as 0. */
  function IdxAt(idx: map<int, u32>, i: int): u32
  {
    if i in idx then idx[i] else 0
  }

  /** The top octet of an address, ip >> 24. */
  function TopOctet(ip: u32): (o: nat)
    ensures o < 256 && o * 0x100_0000 <= ip < (o + 1) * 0x100_0000
  {
    ip / 0x100_0000
  }

  /** Scanning i, i-1, ..., 1: the first non-zero entry, or 0 when there is
      none. Entry 0 is never consulted. */
  function ScanDown(idx: map<int, u32>, i: int): (r: u32)
    ensures r == 0 ==> forall j :: 1 <= j <= i ==> IdxAt(idx, j) == 0
    ensures r != 0 ==> exists j :: 1 <= j <= i && r == IdxAt(idx, j)
                          && forall j' :: j < j' <= i ==> IdxAt(idx, j') == 0
    decreases i
  {
    if i < 1 then 0
    else if IdxAt(idx, i) != 0 then IdxAt(idx, i)
    else ScanDown(idx, i - 1)
  }

  /** Scanning i, i+1, ..., 255: the first non-zero entry, or dflt when there
      is none. */
  function ScanUp(idx: map<int, u32>, i: int, dflt: int): (r: int)
    ensures (r == dflt && forall j :: i <= j < 256 ==> IdxAt(idx, j) == 0)
         || (exists j :: i <= j < 256 && r == IdxAt(idx, j) != 0
               && forall j' :: i <= j' < j ==> IdxAt(idx, j') == 0)
    decreases 256 - i
  {
    if i >= 256 then dflt
    else if IdxAt(idx, i) != 0 then IdxAt(idx, i)
    else ScanUp(idx, i + 1, dflt)
  }

  /** findStartIdxOffset: the lower end of the search window. */
  function StartOffset(idx: map<int, u32>, ip: u32): nat
  {
    ScanDown(idx, TopOctet(ip))
  }

  /** int(netLen - 1) with uint32 wrap-around: 0xFFFFFFFF when netLen is 0. */
  function LastRecord(netLen: u32): (r: u32)
    ensures netLen >= 1 ==> r == netLen - 1
    ensures netLen == 0 ==> r == 0xFFFF_FFFF
  {
    (netLen - 1) % 0x1_0000_0000
  }

  /** findEndIdxOffset: the upper end of the search window. */
  function EndOffset(idx: map<int, u32>, netLen: u32, ip: u32): int
  {
    ScanUp(idx, TopOctet(ip) + 1, LastRecord(netLen))
  }

  // ---------------------------------------------------------------- records

  /** Record slot m lies in the buffer: data[p:p+17] with p = rstart + 17 * m
      does not panic. */
  predicate InBounds(data: seq<byte>, rstart: nat, m: int)
  {
    0 <= m && rstart + m * RecordLen + RecordLen <= |data|
  }

  /** The records that can be read from rstart on: one per complete 17-byte
      slot, the last partial slot (if any) dropped. */
  function Slots(data: seq<byte>, rstart: nat): (recs: seq<Record>)
    ensures |recs| == 0 || rstart + |recs| * RecordLen <= |data|
    ensures |data| < rstart + |recs| * RecordLen + RecordLen
    decreases |data| - rstart
  {
    if rstart + RecordLen > |data| then []
    else [DecodeRecord(data, rstart)] + Slots(data, rstart + RecordLen)
  }

  /** The record in slot m. */
  function RecordAt(data: seq<byte>, rstart: nat, m: int): Record
    requires InBounds(data, rstart, m)
  {
    Slots(data, rstart)[m]
  }

  /** Slot m is the 17 bytes data[p:p+17] with p = rstart + 17 * m that
      FindByUint decodes. */
  lemma {:induction false} RecordAtOffset(data: seq<byte>, rstart: nat, m: int)
    requires InBounds(data, rstart, m)
    ensures RecordAt(data, rstart, m) == DecodeRecord(data, rstart + m * RecordLen)
    decreases m
  {
    if m > 0 {
      RecordAtOffset(data, rstart + RecordLen, m - 1);
      assert rstart + RecordLen + (m - 1) * RecordLen == rstart + m * RecordLen;
    }
  }

  /** Slot m can be read and holds a well-formed record. */
  predicate SlotOk(data: seq<byte>, rstart: nat, m: int)
  {
    InBounds(data, rstart, m) && WellFormed(RecordAt(data, rstart, m))
  }

  /** Slots i and j hold well-formed records, and block i ends before block
      j starts. */
  predicate Before(data: seq<byte>, rstart: nat, i: int, j: int)
  {
    SlotOk(data, rstart, i) && SlotOk(data, rstart, j)
    && RangeEnd(RecordAt(data, rstart, i)) < RecordAt(data, rstart, j).ip
  }

  /** Every slot from f to l holds a well-formed record, and the blocks are
      sorted by start and do not overlap. */
  predicate SortedWindow(data: seq<byte>, rstart: nat, f: int, l: int)
  {
    && (forall m :: f <= m <= l ==> SlotOk(data, rstart, m))
    && (forall i, j :: f <= i < j <= l ==> Before(data, rstart, i, j))
  }

  // ---------------------------------------------------------------- search

  /** What the search loop ends with: a matching slot; no match once f > l;
      a slice out of range (a panic in Go); or a record the model does not
      evaluate (mask above 32, or a block past the last address). */
  datatype Probe = Hit(m: nat, rec: Record) | Miss | OutOfRange(at: int) | Malformed(at: int)

  /** The `for f <= l` loop of FindByUint, one iteration per call. */
  function SearchRange(data: seq<byte>, rstart: nat, ip: u32, f: int, l: int): Probe
    requires 0 <= f
    decreases l - f
  {
    if f > l then Miss
    else
      var m := (f + l) / 2;
      if !InBounds(data, rstart, m) then OutOfRange(m)
      else
        var rec := RecordAt(data, rstart, m);
        if !WellFormed(rec) then Malformed(m)
        else if Contains(rec, ip) then Hit(m, rec)
        else if ip > RangeEnd(rec) then SearchRange(data, rstart, ip, m + 1, l)
        else SearchRange(data, rstart, ip, f, m - 1)
  }

  /** Outcome r of a search over slots f..l names a slot of that window: a
      hit is a readable, well-formed block that contains ip; a read past the
      buffer or a block that is not well formed is the slot the search
      stopped at. */
  predicate Located(data: seq<byte>, rstart: nat, ip: u32, f: int, l: int, r: Probe)
  {
    && (r.Hit? ==> f <= r.m <= l && SlotOk(data, rstart, r.m)
                   && r.rec == RecordAt(data, rstart, r.m) && Contains(r.rec, ip))
    && (r.OutOfRange? ==> f <= r.at <= l && !InBounds(data, rstart, r.at))
    && (r.Malformed? ==> f <= r.at <= l && InBounds(data, rstart, r.at)
                         && !WellFormed(RecordAt(data, rstart, r.at)))
  }

  /** An outcome located in a window is located in any window around it. */
  lemma LocatedWiden(data: seq<byte>, rstart: nat, ip: u32, f: int, l: int, f': int, l': int, r: Probe)
    requires f <= f' && l' <= l && Located(data, rstart, ip, f', l', r)
    ensures Located(data, rstart, ip, f, l, r)
  {
  }

  /** Soundness of the search: whatever it ends with is located in the
      window it searched. */
  lemma {:induction false} SearchRangeSound(data: seq<byte>, rstart: nat, ip: u32, f: int, l: int)
    requires 0 <= f
    ensures Located(data, rstart, ip, f, l, SearchRange(data, rstart, ip, f, l))
    decreases l - f
  {
    if f <= l {
      var m := (f + l) / 2;
      if !InBounds(data, rstart, m) {
        assert SearchRange(data, rstart, ip, f, l) == OutOfRange(m);
      } else if !WellFormed(RecordAt(data, rstart, m)) {
        assert SearchRange(data, rstart, ip, f, l) == Malformed(m);
      } else if Contains(RecordAt(data, rstart, m), ip) {
        assert SearchRange(data, rstart, ip, f, l) == Hit(m, RecordAt(data, rstart, m));
      } else if ip > RangeEnd(RecordAt(data, rstart, m)) {
        SearchRight(data, rstart, ip, f, l, m);
        SearchRangeSound(data, rstart, ip, m + 1, l);
        LocatedWiden(data, rstart, ip, f, l, m + 1, l, SearchRange(data, rstart, ip, m + 1, l));
      } else {
        SearchLeft(data, rstart, ip, f, l, m);
        SearchRangeSound(data, rstart, ip, f, m - 1);
        LocatedWiden(data, rstart, ip, f, l, f, m - 1, SearchRange(data, rstart, ip, f, m - 1));
      }
    }
  }

  /** One iteration of the loop over a readable, well-formed middle slot. */
  lemma SearchStep(data: seq<byte>, rstart: nat, ip: u32, f: int, l: int)
    requires 0 <= f <= l && SlotOk(data, rstart, (f + l) / 2)
    ensures var m := (f + l) / 2;
            var rec := RecordAt(data, rstart, m);
            SearchRange(data, rstart, ip, f, l) ==
              if Contains(rec, ip) then Hit(m, rec)
              else if ip > RangeEnd(rec) then SearchRange(data, rstart, ip, m + 1, l)
              else SearchRange(data, rstart, ip, f, m - 1)
  {
  }

  /** The middle record m ends below ip: the search continues right of m. */
  lemma SearchRight(data: seq<byte>, rstart: nat, ip: u32, f: int, l: int, m: int)
    requires 0 <= f <= l && m == (f + l) / 2 && SlotOk(data, rstart, m)
    requires ip > RangeEnd(RecordAt(data, rstart, m))
    ensures SearchRange(data, rstart, ip, f, l) == SearchRange(data, rstart, ip, m + 1, l)
  {
    assert !Contains(RecordAt(data, rstart, m), ip);
  }

  /** The middle record m starts above ip: the search continues left of m. */
  lemma SearchLeft(data: seq<byte>, rstart: nat, ip: u32, f: int, l: int, m: int)
    requires 0 <= f <= l && m == (f + l) / 2 && SlotOk(data, rstart, m)
    requires ip < RecordAt(data, rstart, m).ip
    ensures SearchRange(data, rstart, ip, f, l) == SearchRange(data, rstart, ip, f, m - 1)
  {
    var rec := RecordAt(data, rstart, m);
    assert !Contains(rec, ip) && !(ip > RangeEnd(rec));
  }

  /** The loop of FindByUint over records f..l: each probe reads the record
      at rstart + 17 * m; a block that contains ip ends the search, otherwise
      the window shrinks to the side of ip. A read past the buffer or a
      block the model does not evaluate ends it as well. */
  method BinarySearch(data: seq<byte>, rstart: nat, ip: u32, f0: int, l0: int) returns (r: Probe)
    requires 0 <= f0
    ensures r == SearchRange(data, rstart, ip, f0, l0)
  {
    var f, l := f0, l0;
    ghost var probe := SearchRange(data, rstart, ip, f0, l0);
    while f <= l
      invariant 0 <= f0 <= f && l <= l0
      invariant SearchRange(data, rstart, ip, f, l) == probe
      decreases l - f
    {
      var m := (f + l) / 2;
      assert f0 <= m <= l0;
      var p := rstart + m * 17;
      if p + 17 > |data| {
        return OutOfRange(m);
      }
      var rec := DecodeRecord(data, p);
      RecordAtOffset(data, rstart, m);
      if !WellFormed(rec) {
        return Malformed(m);
      }
      if Contains(rec, ip) {
        return Hit(m, rec);
      }
      if ip > RangeEnd(rec) {
        SearchRight(data, rstart, ip, f, l, m);
        f := m + 1;
      } else {
        SearchLeft(data, rstart, ip, f, l, m);
        l := m - 1;
      }
    }
    return Miss;
  }

  /** A window inside a sorted window is sorted. */
  lemma SortedSubWindow(data: seq<byte>, rstart: nat, f: int, l: int, f': int, l': int)
    requires f <= f' && l' <= l && SortedWindow(data, rstart, f, l)
    ensures SortedWindow(data, rstart, f', l')
  {
  }

  /** Completeness: in a sorted window of well-formed, non-overlapping
      blocks, the search finds the slot whose block contains ip. */
  lemma {:induction false} SearchFinds(data: seq<byte>, rstart: nat, ip: u32, f: int, l: int, k: int)
    requires 0 <= f <= k <= l
    requires SortedWindow(data, rstart, f, l)
    requires SlotOk(data, rstart, k) && Contains(RecordAt(data, rstart, k), ip)
    ensures SearchRange(data, rstart, ip, f, l) == Hit(k, RecordAt(data, rstart, k))
    decreases l - f, 1
  {
    var m := (f + l) / 2;
    if m < k {
      SearchFindsAbove(data, rstart, ip, f, l, k);
    } else if k < m {
      SearchFindsBelow(data, rstart, ip, f, l, k);
    } else {
      SearchStep(data, rstart, ip, f, l);
    }
  }

  /** The case of SearchFinds where the middle slot lies below k. */
  lemma {:induction false} SearchFindsAbove(data: seq<byte>, rstart: nat, ip: u32, f: int, l: int, k: int)
    requires 0 <= f <= k <= l && (f + l) / 2 < k
    requires SortedWindow(data, rstart, f, l)
    requires SlotOk(data, rstart, k) && Contains(RecordAt(data, rstart, k), ip)
    ensures SearchRange(data, rstart, ip, f, l) == Hit(k, RecordAt(data, rstart, k))
    decreases l - f, 0
  {
    var m := (f + l) / 2;
    assert Before(data, rstart, m, k);
    SearchStep(data, rstart, ip, f, l);
    SortedSubWindow(data, rstart, f, l, m + 1, l);
    SearchFinds(data, rstart, ip, m + 1, l, k);
  }

  /** The case of SearchFinds where the middle slot lies above k. */
  lemma {:induction false} SearchFindsBelow(data: seq<byte>, rstart: nat, ip: u32, f: int, l: int, k: int)
    requires 0 <= f <= k <= l && k < (f + l) / 2
    requires SortedWindow(data, rstart, f, l)
    requires SlotOk(data, rstart, k) && Contains(RecordAt(data, rstart, k), ip)
    ensures SearchRange(data, rstart, ip, f, l) == Hit(k, RecordAt(data, rstart, k))
    decreases l - f, 0
  {
    var m := (f + l) / 2;
    assert Before(data, rstart, k, m);
    SearchStep(data, rstart, ip, f, l);
    SortedSubWindow(data, rstart, f, l, f, m - 1);
    SearchFinds(data, rstart, ip, f, m - 1, k);
  }

  /** When every slot of the window holds a well-formed record and none of
      them contains ip, the loop ends with f > l: "Not Found". */
  lemma {:induction false} SearchMisses(data: seq<byte>, rstart: nat, ip: u32, f: int, l: int)
    requires 0 <= f
    requires forall m :: f <= m <= l ==>
               SlotOk(data, rstart, m) && !Contains(RecordAt(data, rstart, m), ip)
    ensures SearchRange(data, rstart, ip, f, l) == Miss
    decreases l - f
  {
    if f <= l {
      var m := (f + l) / 2;
      assert SlotOk(data, rstart, m);
      SearchStep(data, rstart, ip, f, l);
      if ip > RangeEnd(RecordAt(data, rstart, m)) {
        SearchMisses(data, rstart, ip, m + 1, l);
      } else {
        SearchMisses(data, rstart, ip, f, m - 1);
      }
    }
  }
}
