# ipdb: verified model of the legacy IP database reader

This project models, in Dafny, the reader of the legacy `ipdb` file format
from `ipdb.go` (package `ipdb`). It covers two paths:

- **Decoding.** An in-memory byte buffer becomes a `DB`, made of:
  - a 20-byte big-endian header;
  - six chained dictionaries: continent, country, area, region, city and ISP;
  - the record-array start `Rstart`;
  - a 256-entry first-octet index.
- **Lookup.** An IPv4 address, given as a 32-bit integer, is answered by:
  - narrowing a window of records with two scans of the index;
  - a binary search over 17-byte records with closed-range containment;
  - turning the matched record into a CIDR string plus six labels.

The code has five modules, one file each:

- `Bytes` (`bytes.dfy`): bytes as bounded integers. Holds the big-endian 16- and 32-bit reads and their encoders, the exact power of two, and the NUL trimming of dictionary names.
- `Address` (`address.dfy`):
  - `Long2Ip`, and the big-endian octet read at the heart of `IP2long`;
  - the dotted-quad CIDR text, with a parser that inverts it.
- `Layout` (`layout.dfy`): the on-disk layout as a whole. This is the header, the dictionary segments and the positions they chain to, `Rstart`, the index offsets, and the 17-byte record. Every encoder has a round-trip lemma.
- `Search` (`search.dfy`): the two index scans and the search loop as functions of the buffer. It also holds `BinarySearch`, the loop of `FindByUint` as a method proved against those functions. Soundness and completeness are proved here.
- `Ipdb` (`ipdb.dfy`): `Init` as a function `Decode` of the buffer, the lookup as `Lookup`, and the lemmas that join them. The class `DB` has Go's fields:
  - `Init` fills those fields with `for` loops;
  - `FindStartIdxOffset`, `FindEndIdxOffset` and `FindByUint` are read-only methods. Each is proved equal to its specification function.

Go panics on a slice past the end of the buffer. The model turns each such panic into an explicit outcome:

- `Init` returns `false`;
- `FindByUint` answers `SliceOutOfRange`.

`int(netLen - 1)` wraps as `uint32` exactly as in Go.

## Model

| member | source | states |
|---|---|---|
| Bytes.BE16 | ipdb.go:77-82 | `binary.BigEndian.Uint16`: the byte at the offset times 256 plus the next byte. |
| Bytes.BE32 | ipdb.go:76-83 | `binary.BigEndian.Uint32`: the four bytes from the offset, most significant first. |
| Bytes.BE16Encode16 | ipdb.go:75-84 | The 16-bit big-endian read of an encoded value gives the value back, whatever bytes follow it. |
| Bytes.Encode16BE16 | ipdb.go:75-84 | Encoding the value read at an offset gives back the two bytes read there. |
| Bytes.BE32Encode32 | ipdb.go:75-84 | The 32-bit big-endian read of an encoded value gives the value back, whatever follows. |
| Bytes.Encode32BE32 | ipdb.go:75-84 | Encoding the 32-bit value read at an offset gives back the four bytes read there. |
| Bytes.Pow2 | ipdb.go:221 | `2^n` as an exact integer. It is at least 1, so every block holds at least one address. |
| Bytes.TrimLeftNulSpec | ipdb.go:94 | Left trimming removes exactly the leading NUL bytes. What remains is a suffix, empty or starting with a non-NUL byte. |
| Bytes.TrimRightNulSpec | ipdb.go:94 | Right trimming removes exactly the trailing NUL bytes. What remains is a prefix, empty or ending with a non-NUL byte. |
| Bytes.TrimNul | ipdb.go:94 | `strings.Trim(name, "\u0000")`: NUL bytes removed from both ends, one byte at a time. |
| Bytes.TrimNulOfPadded | ipdb.go:94 | A name whose ends are not NUL survives `strings.Trim(name, "\u0000")` exactly, with any NUL padding on either side. |
| Bytes.TrimNulIdempotent | ipdb.go:94 | A trimmed name neither starts nor ends with NUL, and trimming it again changes nothing. |
| Address.Long2Ip | ipdb.go:70-72 | Gives four octets, most significant first, whose big-endian read (`IP2long`) is the address again. |
| Address.Long2IpIP2Long | ipdb.go:60-72 | The other direction: any four octets survive a big-endian read followed by `Long2Ip`. |
| Address.IP2Long | ipdb.go:67 | The octet part of `IP2long`: the big-endian 32-bit read of the four octets of `ip.To4()`. |
| Address.Decimal | ipdb.go:224 | The `%d` text of a number is non-empty and all digits, and it starts with `0` exactly when the number is 0: there is no leading zero. |
| Address.DecimalValue | ipdb.go:224 | The decimal text of `n` denotes `n`. |
| Address.DecimalUnique | ipdb.go:224 | Any digit string without a leading zero that denotes `n` is the `%d` text of `n`, so each octet and the mask have exactly one text. |
| Address.FormatIPv4 | ipdb.go:224 | `net.IP.String` of a 4-byte address: the four octets in decimal, joined by dots. |
| Address.FormatCidr | ipdb.go:224 | The `Cidr` field: the dotted quad of `Long2Ip(rs)`, a slash, then the mask in decimal. |
| Address.ParseFormatCidr | ipdb.go:224 | The `Cidr` text `"a.b.c.d/mask"` parses back to exactly the start address and mask it was built from. |
| Layout.DecodeHeader | ipdb.go:75-84 | The header: `version` from bytes 0-3, then the six counts from bytes 4-15 in file order, then `netLen` from bytes 16-19, all big-endian. |
| Layout.BE16At | ipdb.go:75-84 | A 16-bit field read sees only its own two bytes, whatever surrounds them. |
| Layout.BE32At | ipdb.go:75-84 | A 32-bit field read sees only its own four bytes, whatever surrounds them. |
| Layout.DecodeEncodeHeader | ipdb.go:75-84 | The fields are read from fixed places: `version` from bytes 0-3, then the six counts in file order from bytes 4-15, then `netLen` from bytes 16-19. Decoding an encoded header gives it back. |
| Layout.EncodeDecodeHeader | ipdb.go:75-84 | Encoding a decoded header gives back the 20 bytes it was read from. |
| Layout.SegmentStart | ipdb.go:86-154 | Where dictionary segment `k` starts: right after the header for the first one, and where segment `k-1` ends for every other. |
| Layout.RecordStart | ipdb.go:155-157 | `Rstart`, written as `ipdb.go` writes it: the header size plus 4 or 66 bytes per entry of each segment. |
| Layout.SegmentStartsClosedForm | ipdb.go:86-157 | The start formula of each dictionary loop is where the previous segment ends. `Rstart = 20 + 4·(continentLen+countryLen) + 66·(areaLen+regionLen+cityLen+ispLen)`. |
| Layout.SegmentWithinRecordStart | ipdb.go:155-157 | Each segment starts after the header and ends where the next one starts, and all of them end by `Rstart`. |
| Layout.IndexOffset | ipdb.go:161 | Index entry `i` lies at `Rstart + 17·netLen + 4·i`. |
| Layout.EntryAt | ipdb.go:89-93 | One `Hdata`: a big-endian 16-bit id, then `width - 2` name bytes. |
| Layout.Segment | ipdb.go:87-89 | A segment holds one entry per count. |
| Layout.Dictionary | ipdb.go:86-96 | The key set of a dictionary is exactly the set of ids read. |
| Layout.DictionarySnoc | ipdb.go:94 | Proof step for the dictionary loop, unfolding `Dictionary` once: each iteration stores the trimmed name of entry `i` under its id. |
| Layout.LastEntryWins | ipdb.go:94 | A later entry with the same id overwrites an earlier one. An id maps to the trimmed name of the last entry that carries it. |
| Layout.Label | ipdb.go:225-230 | Go's read of a `map[uint16]string`: the stored name, or `""` when the id is missing. |
| Layout.MissingIdIsEmpty | ipdb.go:225-230 | An id that no entry carries reads as `""`. |
| Layout.EntryRoundTrip | ipdb.go:89-94 | An encoded, NUL-padded entry decodes to its id, and trims back to its name. |
| Layout.DecodeRecord | ipdb.go:210-219 | A record at offset `p`: the start address from bytes 0-3, the mask from byte 4, then six big-endian 16-bit ids in the order continent, country, area, region, city, ISP. |
| Layout.DecodeEncodeRecord | ipdb.go:208-219 | A record is read from fixed places: start address at bytes 0-3, mask at byte 4, six ids at bytes 5-16. Decoding an encoded record gives it back. |
| Layout.EncodeDecodeRecord | ipdb.go:208-219 | Encoding a decoded record gives back the 17 bytes it was read from. |
| Layout.WellFormed | ipdb.go:221 | A record whose block the model evaluates exactly: mask at most 32, and `rs + 2^(32-mask)` at most `2^32`. |
| Layout.RangeEnd | ipdb.go:221 | `re = rs + 2^(32-mask) - 1`, the last address of the block. |
| Layout.Contains | ipdb.go:222 | The closed test `rs ≤ ip ≤ re`. |
| Layout.RangeBoundaries | ipdb.go:220-222 | `rs` and `rs + 2^(32-mask) - 1` are inside the block, the addresses just outside are not, and the block ends at a 32-bit address. |
| Layout.ProbeCasesExclusive | ipdb.go:222-238 | For each probe, exactly one of three cases holds: a match, `ip > re`, or `ip < rs`. |
| Search.IdxAt | ipdb.go:181 | Go's read of `Idx`: the stored entry, or 0 for a missing key. |
| Search.TopOctet | ipdb.go:178 | `ip >> 24` is below 256 and names the 16M-address block that holds `ip`. |
| Search.ScanDown | ipdb.go:177-187 | The result is the first non-zero entry scanning from `ip>>24` down to 1, or 0 when there is none. Entry 0 is never consulted. |
| Search.ScanUp | ipdb.go:189-199 | The result is the first non-zero entry scanning from `(ip>>24)+1` up to 255, or the default when there is none. |
| Search.StartOffset | ipdb.go:177-187 | `findStartIdxOffset`: the downward scan from the top octet of `ip`. |
| Search.LastRecord | ipdb.go:191 | `int(netLen - 1)` is `netLen - 1` when `netLen ≥ 1`, and wraps to `0xFFFFFFFF` when `netLen` is 0. |
| Search.EndOffset | ipdb.go:189-199 | `findEndIdxOffset`: the upward scan from the octet above `ip`'s, with `int(netLen - 1)` as the default. |
| Search.InBounds | ipdb.go:208-209 | The slice `Data[p : p+17]` with `p = Rstart + 17·m` is inside the buffer. |
| Search.Slots | ipdb.go:208-209 | The readable records are exactly the complete 17-byte slots from `Rstart` on. |
| Search.RecordAtOffset | ipdb.go:208-219 | Slot `m` is the record decoded from `Data[Rstart+17·m : Rstart+17·m+17]`. |
| Search.SearchRange | ipdb.go:205-240 | The `for f <= l` loop, one iteration per call: it probes `m = (f+l)/2`, then stops on a panic, a malformed record or a match, or continues on `m+1..l` when `ip > re` and on `f..m-1` otherwise. It ends with "Not Found" once `f > l`. |
| Search.SearchRangeSound | ipdb.go:205-232 | Soundness: a hit is a slot `f ≤ m ≤ l` whose well-formed block contains `ip`. A panic or a malformed record is reported at a slot of the window. |
| Search.SearchStep | ipdb.go:205-238 | Proof step, unfolding `SearchRange` once: one iteration over a readable, well-formed middle slot either matches, or continues with `f := m+1` or with `l := m-1`. |
| Search.SearchRight | ipdb.go:233-235 | Proof step for the loop, unfolding `SearchRange` once: when `ip > re`, the search continues on `m+1..l`. |
| Search.SearchLeft | ipdb.go:236-238 | Proof step for the loop, unfolding `SearchRange` once: when `ip < rs`, the search continues on `f..m-1`. |
| Search.BinarySearch | ipdb.go:205-240 | The loop computes exactly the search outcome. Every probe `m` it reads, at `Rstart + 17·m`, lies in the window `f0..l0` that the index scans give: the invariant `f0 ≤ f ∧ l ≤ l0` holds throughout. It ends on a match or when `f > l`, and it terminates because `l - f` decreases. |
| Search.SearchFinds | ipdb.go:205-238 | Completeness: the slot whose block contains `ip` is found when the window holds sorted, disjoint, well-formed blocks. |
| Search.SearchMisses | ipdb.go:205-240 | When no well-formed slot of the window contains `ip`, the loop ends with `f > l`. |
| Ipdb.Decode | ipdb.go:74-167 | `Init` on a buffer: a panic when the header or a later slice would run past the buffer. Otherwise the header, the six dictionaries, `Rstart`, the index and the buffer itself. |
| Ipdb.IndexTable | ipdb.go:159-163 | The index: keys 0..255, entry `i` read big-endian at `Rstart + 17·netLen + 4·i`. |
| Ipdb.DecodeLoaded | ipdb.go:74-167 | Proof step for `DB.Init`, unfolding `Decode` once: the fields that `Init` computes one by one make up the decoded database. |
| Ipdb.DecodeBounds | ipdb.go:74-167 | `Init` panics exactly when an index read runs past the buffer. Otherwise the buffer is at least `Rstart + 17·netLen + 1024` bytes, and every segment and every record slot lies inside it. |
| Ipdb.SegmentEntriesAt | ipdb.go:86-154 | Each dictionary loop reads inside the buffer, and ends where the next segment starts. |
| Ipdb.Materialize | ipdb.go:223-231 | The `Result` of a matched record: its block as CIDR text, and each id looked up in its dictionary. |
| Ipdb.MaterializeSound | ipdb.go:223-231 | `Cidr` parses back to the record's start and mask. Each label is the dictionary value of the record's id, or `""` when the id is absent. |
| Ipdb.LookupIn | ipdb.go:205-240 | The answer of the search over slots `f..l`: the materialised record on a hit, "Not Found", or the error outcome. |
| Ipdb.LookupInSound | ipdb.go:205-232 | A result comes from a slot `f ≤ m ≤ l`, read at `Rstart + 17·m`, whose well-formed block contains `ip`. |
| Ipdb.Lookup | ipdb.go:201-241 | `FindByUint` as a function: the search over the window that the two index scans give. |
| Ipdb.LookupWithoutIndex | ipdb.go:205-240 | The same loop over all records `0..netLen-1`, the reference that `IndexNarrowingEquivalence` compares the indexed lookup with. |
| Ipdb.WindowWithinRecords | ipdb.go:177-199 | With a consistent index, both ends of the window name records. |
| Ipdb.WindowCovers | ipdb.go:177-199 | With a consistent index, the record containing `ip` lies between the start and end offsets. |
| Ipdb.LookupInFinds | ipdb.go:205-231 | In a sorted window that holds the containing slot, the answer is that record, materialised. |
| Ipdb.LookupInMisses | ipdb.go:205-240 | In a window where no slot contains `ip`, the answer is "Not Found". |
| Ipdb.LookupFinds | ipdb.go:201-241 | On sorted records with a consistent index, the record containing `ip` is found, both through the index and by the full search. |
| Ipdb.LookupNotFound | ipdb.go:201-241 | When no record contains `ip`, the answer is "Not Found", with or without the index. |
| Ipdb.NotFoundIff | ipdb.go:201-241 | "Not Found" is answered exactly when no record contains `ip` (both directions). |
| Ipdb.IndexNarrowingEquivalence | ipdb.go:177-241 | Narrowing by the index changes no answer. On sorted data, a lookup never panics. |
| Ipdb.ReadDictionary | ipdb.go:86-96 | One dictionary loop builds exactly the dictionary of its segment. |
| Ipdb.ReadDictionaries | ipdb.go:86-154 | The six loops, each at its chained position, build the six dictionaries in file order. |
| Ipdb.ReadIndex | ipdb.go:159-163 | The index has exactly the keys 0..255, and entry `i` is read big-endian at `Rstart + 17·netLen + 4·i`. |
| Ipdb.DB.constructor | ipdb.go:55 | `new(DB)`: every field at its zero value. |
| Ipdb.DB.Init | ipdb.go:74-167 | On a long enough buffer, the fields become the decoded database. Otherwise it reports failure and leaves the DB unchanged. |
| Ipdb.DB.Assign | ipdb.go:75-165 | Stores each part of the decoded database in its field. |
| Ipdb.DB.FindStartIdxOffset | ipdb.go:177-187 | The loop with `break` computes the start offset scan. It changes nothing. |
| Ipdb.DB.FindEndIdxOffset | ipdb.go:189-199 | The loop with `break` computes the end offset scan, with `netLen - 1` wrapping. It changes nothing. |
| Ipdb.DB.FindByUint | ipdb.go:201-241 | The answer is the lookup over the current fields, so every property proved of `Lookup` holds of it. It has no `modifies`, so the DB is never changed. |

## Left out

- `Load` (file I/O through `ioutil.ReadFile`) is not modelled: `Init` takes the buffer as a parameter.
- `net.ParseIP` and the `Find` wrapper that calls it are not modelled. Neither is the text-parsing part of `IP2long`, nor its "Invalid ip format" error. Only the big-endian read of the four octets is modelled.
- `Long2Ip` gives the four octets. `net.IPv4`'s 16-byte form and `To4` are not modelled.
- `fmt.Sprintf("%s/%d", …)` and `net.IP.String` are modelled by `FormatCidr`: dotted decimal octets, a slash, and the decimal mask. Library details beyond that are not modelled.
- `math.Pow(2, float64(32-mask))` is modelled as the exact integer `2^(32-mask)`.
- `FindByUint` answers `MalformedRecord` in two cases where Go's value is implementation-defined or wraps:
  - a mask above 32, where `32-r.mask` wraps as `uint8` and the float conversion is out of range;
  - a block that ends past `0xFFFFFFFF`, where `rs + … - 1` wraps as `uint32`.

  The model does not reproduce those wrapped values.
- Layout.RangeEnd: for mask 0 it is the exact `rs + 2^32 - 1`. Go's `uint32(math.Pow(2, 32))` converts a float that is out of range, and its value depends on the platform. On amd64 it is 0, so `re = 0xFFFFFFFF`, which agrees with the model. On arm64 it saturates to `0xFFFFFFFF`, so `re = 0xFFFFFFFE`: there the address `0xFFFFFFFF` is outside the block that the model says contains it. The model follows the intended `2^32`.
- Go's two separate tests `if ip > re` and `if ip < rs` are modelled as one `if`/`else`. `Layout.ProbeCasesExclusive` proves that for a well-formed record at most one of them holds.
- Slice panics are explicit outcomes: `Init` returns `false`, and `FindByUint` answers `SliceOutOfRange`.
- Ipdb.DB.Init: checks the buffer length before it assigns any field, so on failure the DB is left unchanged. Go panics part-way, after assigning the fields it has already decoded.
- Ipdb.DB.Init: decodes into local variables, then stores them through `Assign`. The order in which Go assigns the fields is not modelled.
- Slices are bounds-checked against the buffer's length. Go checks a slice's upper bound against its capacity, which can exceed its length.
- The unused iteration counter `n` of `FindByUint` is not modelled.
- On 64-bit platforms Go's `int` is 64 bits, and every offset the model computes stays well within that range, so it uses unbounded integers. Only 64-bit platforms are modelled. On a 32-bit platform, `int(netLen - 1)` with `netLen` 0 is -1, so `FindByUint` answers "Not Found" at once rather than reading past the buffer.
- The loop of `FindByUint` is the separate method `Search.BinarySearch`, which `FindByUint` calls.
- Labels are kept as the bytes of Go's strings. No text encoding is modelled.
- Concurrent use of a `DB` is not modelled.
- The non-legacy file layouts are not modelled.
- The lemmas about lookups through the index (`Ipdb.LookupFinds`, `Ipdb.NotFoundIff`, `Ipdb.IndexNarrowingEquivalence`) assume a consistent index (`Ipdb.IndexConsistent`). Each non-zero entry `Idx[o]` must name the first record that starts at or above `o << 24`, and every earlier block must also end below `o << 24`. The second condition cannot be dropped: `FindByUint` misses an address in the upper part of a block that straddles an /8 boundary. For example, take record 0 = `0.0.0.0/7` and `Idx[1] = 1`. A query for `1.0.0.5` searches from record 1 on, and never looks at record 0. The file format must ensure this condition; `Init` does not check it.
- `ipdb_test.go` is not modelled: it loads a file from disk, only logs its output, and benchmarks with `rand` and `time`.
