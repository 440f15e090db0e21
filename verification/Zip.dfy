/**
 The ZIP writer and reader, record by record, and the proof that reading what was written gives it back.
 */
module Zip {

  /*
   Layouts are those of sections 4.3.7 (local file header), 4.3.12 (central directory header)
   and 4.3.16 (end of central directory record) of the PKWARE APPNOTE; the checksum is that of
   section 4.4.7.  Deflate, inflate and UTF-8 are foreign code and come in as a `Codec`; so does the
   checksum, which `Standard` ties to the CRC of this project.
   */

  import opened Prelude
  import opened ArchivePath
  import opened Layout
  import opened Ordering
  import Crc32

  datatype Codec = Codec(
    deflate: Bytes -> Bytes,
    inflate: Bytes -> Option<Bytes>,
    utf8: Text -> Bytes,
    utf8Decode: Bytes -> Option<Text>,
    checksum: Bytes -> nat)
  {
    /** The checksum is the CRC, computed by table or by division. */
    ghost predicate Standard() {
      forall d :: checksum(d) == Crc32.Checksum(d)
    }

    /** Inflating what was deflated gives it back, and a checksum fits its field. */
    ghost predicate Lossless() {
      forall d :: inflate(deflate(d)) == Some(d) && checksum(d) < 0x1_0000_0000
    }

    /** The name survives encoding and fits a name field. */
    predicate Encodable(path: Text) {
      utf8Decode(utf8(path)) == Some(path) && |utf8(path)| < 0x1_0000
    }
  }

  /** The DOS modification time and date, sixteen bits each. */
  datatype Stamp = Stamp(time: nat, date: nat)

  const LOCAL_SIGNATURE := 0x04034b50
  const CENTRAL_SIGNATURE := 0x02014b50
  const EOCD_SIGNATURE := 0x06054b50
  const MAX_ENTRIES := 10_000
  const MAX_BYTES := 512 * 1024 * 1024
  const EOCD_SIZE := 22
  const DEFAULT_MODE := 0x1a4

  // ----- the archive as a byte sequence

  predicate Deflates(c: Codec, data: Bytes) {
    |c.deflate(data)| < |data|
  }

  function Payload(c: Codec, data: Bytes): (p: Bytes)
    ensures |p| <= |data|
  {
    if Deflates(c, data) then c.deflate(data) else data
  }

  function Method(c: Codec, data: Bytes): nat {
    if Deflates(c, data) then 8 else 0
  }

  const LOCAL_OFFSETS: seq<nat> := [0, 4, 6, 8, 10, 12, 14, 18, 22, 26, 28, 30]

  function LocalFields(c: Codec, stamp: Stamp, e: Entry, crc: nat): (fs: seq<Bytes>)
    ensures OffsetsOf(fs, LOCAL_OFFSETS)
  {
    [LE32(LOCAL_SIGNATURE), LE16(20), LE16(0), LE16(Method(c, e.data)), LE16(stamp.time), LE16(stamp.date),
     LE32(crc), LE32(|Payload(c, e.data)|), LE32(|e.data|), LE16(|c.utf8(e.path)|), LE16(0)]
  }

  function LocalRecord(c: Codec, stamp: Stamp, e: Entry): (r: Bytes) {
    Concat(LocalFields(c, stamp, e, c.checksum(e.data))) + c.utf8(e.path) + Payload(c, e.data)
  }

  const CENTRAL_OFFSETS: seq<nat> := [0, 4, 6, 8, 10, 12, 14, 16, 20, 24, 28, 30, 32, 34, 36, 38, 42, 46]

  function CentralFields(c: Codec, stamp: Stamp, e: Entry, crc: nat, offset: nat): (fs: seq<Bytes>)
    ensures OffsetsOf(fs, CENTRAL_OFFSETS)
  {
    [LE32(CENTRAL_SIGNATURE), LE16(20), LE16(20), LE16(0), LE16(Method(c, e.data)), LE16(stamp.time), LE16(stamp.date),
     LE32(crc), LE32(|Payload(c, e.data)|), LE32(|e.data|), LE16(|c.utf8(e.path)|),
     LE16(0), LE16(0), LE16(0), LE16(0), LE32(0), LE32(offset)]
  }

  function CentralRecord(c: Codec, stamp: Stamp, e: Entry, offset: nat): (r: Bytes) {
    Concat(CentralFields(c, stamp, e, c.checksum(e.data), offset)) + c.utf8(e.path)
  }

  function LocalRecords(c: Codec, stamp: Stamp, es: seq<Entry>): seq<Bytes> {
    seq(|es|, i requires 0 <= i < |es| => LocalRecord(c, stamp, es[i]))
  }

  /** Each central record points at the offset where its local record starts. */
  function CentralRecords(c: Codec, stamp: Stamp, es: seq<Entry>): seq<Bytes> {
    var locals := LocalRecords(c, stamp, es);
    seq(|es|, i requires 0 <= i < |es| => CentralRecord(c, stamp, es[i], |Concat(locals[..i])|))
  }

  const EOCD_OFFSETS: seq<nat> := [0, 4, 6, 8, 10, 12, 16, 20, 22]

  function EocdFields(count: nat, centralSize: nat, centralOffset: nat): (fs: seq<Bytes>)
    ensures OffsetsOf(fs, EOCD_OFFSETS)
  {
    [LE32(EOCD_SIGNATURE), LE16(0), LE16(0), LE16(count), LE16(count), LE32(centralSize), LE32(centralOffset), LE16(0)]
  }

  function Eocd(count: nat, centralSize: nat, centralOffset: nat): Bytes {
    Concat(EocdFields(count, centralSize, centralOffset))
  }

  /** Local records, central records and the end record that counts and locates them. */
  function Assemble(locals: Bytes, centrals: Bytes, count: nat): Bytes {
    locals + centrals + Eocd(count, |centrals|, |locals|)
  }

  function Archive(c: Codec, stamp: Stamp, es: seq<Entry>): Bytes {
    Assemble(Concat(LocalRecords(c, stamp, es)), Concat(CentralRecords(c, stamp, es)), |es|)
  }

  // ----- the writer

  /** Fails on the first unsafe path; otherwise lays the archive out record by record. */
  method Encode(c: Codec, stamp: Stamp, es: seq<Entry>) returns (r: Option<Bytes>)
    requires c.Standard()
    ensures r.Some? <==> forall e :: e in es ==> Safe(e.path)
    ensures r.Some? ==> r.value == Archive(c, stamp, es)
  {
    hide Safe, Payload, Concat, LocalFields, CentralFields, EocdFields;
    var locals: Bytes, centrals: Bytes := [], [];
    ConcatNone();
    for i := 0 to |es|
      invariant locals == Concat(LocalRecords(c, stamp, es)[..i])
      invariant centrals == Concat(CentralRecords(c, stamp, es)[..i])
      invariant forall e :: e in es[..i] ==> Safe(e.path)
    {
      var e := es[i];
      if !Safe(e.path) {
        return None;
      }
      ConcatSnoc(LocalRecords(c, stamp, es), i);
      ConcatSnoc(CentralRecords(c, stamp, es), i);
      var word := Crc32.ByTable(e.data);
      var crc: nat := word as int;
      assert crc == c.checksum(e.data);
      var central := WriteFields(CentralFields(c, stamp, e, crc, |locals|), CENTRAL_OFFSETS);
      var local := WriteFields(LocalFields(c, stamp, e, crc), LOCAL_OFFSETS);
      locals := locals + (local[..] + c.utf8(e.path) + Payload(c, e.data));
      centrals := centrals + (central[..] + c.utf8(e.path));
    }
    assert LocalRecords(c, stamp, es)[..|es|] == LocalRecords(c, stamp, es);
    assert CentralRecords(c, stamp, es)[..|es|] == CentralRecords(c, stamp, es);
    assert es[..|es|] == es;
    var eocd := WriteFields(EocdFields(|es|, |centrals|, |locals|), EOCD_OFFSETS);
    r := Some(locals + centrals + eocd[..]);
  }

  // ----- the reader

  datatype ZipError =
    | TruncatedArchive | EocdNotFound | MultiDisk | Zip64 | TooManyEntries | TruncatedRange
    | BadCentralSignature | Encrypted | UnsupportedMethod | BadName | UnsafePath | DuplicateEntry
    | TooLarge | BadLocalSignature | InflateFailed | SizeMismatch | ChecksumMismatch | DirectorySizeMismatch

  /** `requireZipRange` does not throw. */
  predicate InRange(bytes: Bytes, offset: nat, length: nat) {
    offset <= |bytes| - length
  }

  /** An end-of-central-directory record stands here and its comment ends the file. */
  predicate EocdAt(bytes: Bytes, offset: nat)
    requires offset + EOCD_SIZE <= |bytes|
  {
    U32(bytes, offset) == EOCD_SIGNATURE && offset + EOCD_SIZE + U16(bytes, offset + 20) == |bytes|
  }

  /** Where the backward search starts from gives up. */
  function SearchLimit(bytes: Bytes): nat {
    if |bytes| < EOCD_SIZE + 0xffff then 0 else |bytes| - EOCD_SIZE - 0xffff
  }

  function SearchEocd(bytes: Bytes, offset: nat): (r: Option<nat>)
    requires offset + EOCD_SIZE <= |bytes|
    ensures r.Some? ==> SearchLimit(bytes) <= r.value <= offset && EocdAt(bytes, r.value)
                        && forall o :: r.value < o <= offset ==> !EocdAt(bytes, o)
    ensures r.None? ==> forall o :: SearchLimit(bytes) <= o <= offset ==> !EocdAt(bytes, o)
  {
    if offset < SearchLimit(bytes) then None
    else if EocdAt(bytes, offset) then Some(offset)
    else if offset == 0 then None
    else SearchEocd(bytes, offset - 1)
  }

  function LocateEocd(bytes: Bytes): (r: Result<nat, ZipError>)
    ensures r.Ok? ==> r.value + EOCD_SIZE <= |bytes|
  {
    if |bytes| < EOCD_SIZE then Err(TruncatedArchive)
    else
      match SearchEocd(bytes, |bytes| - EOCD_SIZE)
      case Some(o) => Ok(o)
      case None => Err(EocdNotFound)
  }

  method FindEocd(bytes: Bytes) returns (r: Result<nat, ZipError>)
    ensures r == LocateEocd(bytes)
  {
    if |bytes| < EOCD_SIZE {
      return Err(TruncatedArchive);
    }
    var lower := SearchLimit(bytes);
    var offset: int := |bytes| - EOCD_SIZE;
    while offset >= lower
      invariant -1 <= offset <= |bytes| - EOCD_SIZE
      invariant offset >= 0 ==> SearchEocd(bytes, |bytes| - EOCD_SIZE) == SearchEocd(bytes, offset)
      invariant offset == -1 ==> SearchEocd(bytes, |bytes| - EOCD_SIZE) == None
    {
      if EocdAt(bytes, offset) {
        return Ok(offset);
      }
      offset := offset - 1;
    }
    return Err(EocdNotFound);
  }

  /** What reading one central record and the local record it points at gives. */
  datatype Member = Member(path: Text, next: nat, size: nat, entry: Option<Entry>)

  /** The bytes a local record holds, inflated and checked against the central record. */
  function ReadData(c: Codec, bytes: Bytes, deflated: bool, crc: nat, packedSize: nat, size: nat, offset: nat)
    : (r: Result<Bytes, ZipError>)
    ensures r.Ok? ==> |r.value| == size && c.checksum(r.value) == crc
  {
    if !InRange(bytes, offset, 30) then Err(TruncatedRange)
    else if U32(bytes, offset) != LOCAL_SIGNATURE then Err(BadLocalSignature)
    else
      var start := offset + 30 + U16(bytes, offset + 26) + U16(bytes, offset + 28);
      if !InRange(bytes, start, packedSize) then Err(TruncatedRange)
      else
        var payload := bytes[start..start + packedSize];
        var data := if deflated then c.inflate(payload) else Some(payload);
        if data.None? then Err(InflateFailed)
        else if |data.value| != size then Err(SizeMismatch)
        else if c.checksum(data.value) != crc then Err(ChecksumMismatch)
        else Ok(data.value)
  }

  function UnixMode(externalAttributes: nat): nat {
    var mode := externalAttributes / 0x1_0000 % 0x1_0000;
    if mode == 0 then DEFAULT_MODE else mode % 0x200
  }

  /** A name that ends in a slash is a directory's; the rest of it is its path. */
  predicate IsDirectoryName(name: Text) {
    name != [] && name[|name| - 1] == SLASH
  }

  /** The fields of a central record that the reader uses. */
  datatype Central = Central(flags: nat, kind: nat, crc: nat, packedSize: nat, size: nat, name: Bytes, length: nat,
                             attributes: nat, localOffset: nat)

  function ReadCentral(bytes: Bytes, offset: nat): (r: Result<Central, ZipError>)
    ensures r.Ok? ==> 46 <= r.value.length <= |bytes| - offset
  {
    if !InRange(bytes, offset, 46) then Err(TruncatedRange)
    else if U32(bytes, offset) != CENTRAL_SIGNATURE then Err(BadCentralSignature)
    else
      var nameLength := U16(bytes, offset + 28);
      var length := 46 + nameLength + U16(bytes, offset + 30) + U16(bytes, offset + 32);
      if !InRange(bytes, offset, length) then Err(TruncatedRange)
      else Ok(Central(U16(bytes, offset + 8), U16(bytes, offset + 10), U32(bytes, offset + 16), U32(bytes, offset + 20),
                      U32(bytes, offset + 24), bytes[offset + 46..offset + 46 + nameLength], length,
                      U32(bytes, offset + 38), U32(bytes, offset + 42)))
  }

  /** The checks on a central record, and the data it points at. */
  function AcceptMember(
      c: Codec, accepts: Text -> bool, bytes: Bytes, h: Central, next: nat, seen: set<Text>, total: nat)
    : (r: Result<Member, ZipError>)
    ensures r.Ok? ==> WellRead(r.value, accepts, seen, total) && r.value.next == next
  {
    if h.flags % 2 != 0 then Err(Encrypted)
    else if h.kind != 0 && h.kind != 8 then Err(UnsupportedMethod)
    else
      var name := c.utf8Decode(h.name);
      if name.None? then Err(BadName)
      else
        var directory := IsDirectoryName(name.value);
        var path := if directory then name.value[..|name.value| - 1] else name.value;
        if !accepts(path) then Err(UnsafePath)
        else if path in seen then Err(DuplicateEntry)
        else if directory then Ok(Member(path, next, 0, None))
        else if total + h.size > MAX_BYTES then Err(TooLarge)
        else
          match ReadData(c, bytes, h.kind == 8, h.crc, h.packedSize, h.size, h.localOffset)
          case Err(e) => Err(e)
          case Ok(data) => Ok(Member(path, next, h.size, Some(Entry(path, data, UnixMode(h.attributes)))))
  }

  function ReadMember(c: Codec, bytes: Bytes, offset: nat, seen: set<Text>, total: nat): (r: Result<Member, ZipError>)
    ensures r.Ok? ==> WellRead(r.value, Safe, seen, total) && offset < r.value.next <= |bytes|
  {
    match ReadCentral(bytes, offset)
    case Err(e) => Err(e)
    case Ok(h) => AcceptMember(c, Safe, bytes, h, offset + h.length, seen, total)
  }

  function EntriesOf(m: Member): seq<Entry> {
    if m.entry.Some? then [m.entry.value] else []
  }

  /** Reads the record at an offset, given the paths seen and the bytes counted before it. */
  type Reader = (nat, set<Text>, nat) -> Result<Member, ZipError>

  function ReaderOf(c: Codec, bytes: Bytes): Reader {
    (offset: nat, seen: set<Text>, total: nat) => ReadMember(c, bytes, offset, seen, total)
  }

  /** The central directory from `offset` on: `left` records, ending exactly at `end`. */
  function ReadDirectory(read: Reader, left: nat, offset: nat, end: nat, seen: set<Text>, total: nat)
    : Result<seq<Entry>, ZipError>
  {
    if left == 0 then if offset == end then Ok([]) else Err(DirectorySizeMismatch)
    else
      match read(offset, seen, total)
      case Err(e) => Err(e)
      case Ok(m) => Prepend(EntriesOf(m), ReadDirectory(read, left - 1, m.next, end, seen + {m.path}, total + m.size))
  }

  datatype Directory = Directory(count: nat, offset: nat, size: nat)

  /** The central directory that an end record describes. */
  function ReadEocd(bytes: Bytes, at: nat): (r: Result<Directory, ZipError>)
    requires at + EOCD_SIZE <= |bytes|
    ensures r.Ok? ==> InRange(bytes, r.value.offset, r.value.size) && r.value.count <= MAX_ENTRIES
  {
    var count, size, offset := U16(bytes, at + 10), U32(bytes, at + 12), U32(bytes, at + 16);
    if U16(bytes, at + 4) != 0 || U16(bytes, at + 6) != 0 || U16(bytes, at + 8) != count then Err(MultiDisk)
    else if count == 0xffff || size == 0xffff_ffff || offset == 0xffff_ffff then Err(Zip64)
    else if count > MAX_ENTRIES then Err(TooManyEntries)
    else if !InRange(bytes, offset, size) then Err(TruncatedRange)
    else Ok(Directory(count, offset, size))
  }

  function LocateDirectory(bytes: Bytes): (r: Result<Directory, ZipError>)
    ensures r.Ok? ==> r.value.count <= MAX_ENTRIES
  {
    match LocateEocd(bytes)
    case Err(e) => Err(e)
    case Ok(at) => ReadEocd(bytes, at)
  }

  function DecodedBy(read: Reader, directory: Result<Directory, ZipError>): Result<seq<Entry>, ZipError> {
    match directory
    case Err(e) => Err(e)
    case Ok(d) => ReadDirectory(read, d.count, d.offset, d.offset + d.size, {}, 0)
  }

  /** What the reader makes of a byte array. */
  function Decoded(c: Codec, bytes: Bytes): Result<seq<Entry>, ZipError> {
    DecodedBy(ReaderOf(c, bytes), LocateDirectory(bytes))
  }

  method FindDirectory(bytes: Bytes) returns (r: Result<Directory, ZipError>)
    ensures r == LocateDirectory(bytes)
  {
    var at := FindEocd(bytes);
    if at.Err? {
      return Err(at.error);
    }
    r := ReadEocd(bytes, at.value);
  }

  /** The reader's loop over the central directory. */
  method DecodeDirectory(read: Reader, directory: Result<Directory, ZipError>) returns (r: Result<seq<Entry>, ZipError>)
    ensures r == DecodedBy(read, directory)
  {
    if directory.Err? {
      return Err(directory.error);
    }
    var d := directory.value;
    var end := d.offset + d.size;
    var decoded: seq<Entry>, seen: set<Text>, total: nat, offset: nat := [], {}, 0, d.offset;
    ghost var whole := ReadDirectory(read, d.count, d.offset, end, {}, 0);
    assert whole.Ok? ==> [] + whole.value == whole.value;
    for index := 0 to d.count
      invariant whole == Prepend(decoded, ReadDirectory(read, d.count - index, offset, end, seen, total))
    {
      var member := read(offset, seen, total);
      if member.Err? {
        return Err(member.error);
      }
      var m := member.value;
      PrependTwice(decoded, EntriesOf(m),
                   ReadDirectory(read, d.count - index - 1, m.next, end, seen + {m.path}, total + m.size));
      seen, offset, total := seen + {m.path}, m.next, total + m.size;
      decoded := decoded + EntriesOf(m);
    }
    if offset != end {
      return Err(DirectorySizeMismatch);
    }
    assert decoded + [] == decoded;
    return Ok(decoded);
  }

  method Decode(c: Codec, bytes: Bytes) returns (r: Result<seq<Entry>, ZipError>)
    ensures r == Decoded(c, bytes)
  {
    var d := FindDirectory(bytes);
    r := DecodeDirectory(ReaderOf(c, bytes), d);
  }

  // ----- whatever the bytes

  function TotalSize(es: seq<Entry>): nat {
    if es == [] then 0 else |es[0].data| + TotalSize(es[1..])
  }

  ghost predicate DistinctPaths(es: seq<Entry>) {
    forall i, j :: 0 <= i < j < |es| ==> es[i].path != es[j].path
  }

  ghost predicate WellRead(m: Member, accepts: Text -> bool, seen: set<Text>, total: nat) {
    && accepts(m.path) && m.path !in seen
    && (m.entry.None? ==> m.size == 0)
    && (m.entry.Some? ==> m.entry.value.path == m.path && |m.entry.value.data| == m.size && total + m.size <= MAX_BYTES)
  }

  ghost predicate Checks(read: Reader, accepts: Text -> bool) {
    forall offset, seen, total :: read(offset, seen, total).Ok? ==>
      WellRead(read(offset, seen, total).value, accepts, seen, total)
  }

  /** Entries with distinct accepted paths that were not seen before, and no more of them or larger than allowed. */
  ghost predicate WellFormed(es: seq<Entry>, accepts: Text -> bool, left: nat, seen: set<Text>, total: nat) {
    && DistinctPaths(es) && |es| <= left && total + TotalSize(es) <= MAX_BYTES
    && forall e :: e in es ==> accepts(e.path) && e.path !in seen
  }

  lemma WellFormedCons(m: Member, rest: seq<Entry>, accepts: Text -> bool, left: nat, seen: set<Text>, total: nat)
    requires WellRead(m, accepts, seen, total) && WellFormed(rest, accepts, left, seen + {m.path}, total + m.size)
    ensures WellFormed(EntriesOf(m) + rest, accepts, left + 1, seen, total)
  {
    if m.entry.Some? {
      var es := [m.entry.value] + rest;
      assert es[1..] == rest;
      forall i, j | 0 <= i < j < |es| ensures es[i].path != es[j].path {
        assert es[j] == rest[j - 1];
        if i > 0 {
          assert es[i] == rest[i - 1];
        }
      }
    } else {
      assert EntriesOf(m) + rest == rest;
    }
  }

  lemma NothingIsWellFormed(accepts: Text -> bool, seen: set<Text>, total: nat)
    requires total <= MAX_BYTES
    ensures WellFormed([], accepts, 0, seen, total)
  {
  }

  lemma {:induction false} DirectoryIsWellFormed(
      read: Reader, accepts: Text -> bool, left: nat, offset: nat, end: nat, seen: set<Text>, total: nat)
    requires Checks(read, accepts) && total <= MAX_BYTES && ReadDirectory(read, left, offset, end, seen, total).Ok?
    ensures WellFormed(ReadDirectory(read, left, offset, end, seen, total).value, accepts, left, seen, total)
  {
    hide WellFormed, EntriesOf;
    if left == 0 {
      NothingIsWellFormed(accepts, seen, total);
    } else {
      var m := read(offset, seen, total).value;
      DirectoryIsWellFormed(read, accepts, left - 1, m.next, end, seen + {m.path}, total + m.size);
      var rest := ReadDirectory(read, left - 1, m.next, end, seen + {m.path}, total + m.size).value;
      WellFormedCons(m, rest, accepts, left - 1, seen, total);
    }
  }

  /** How many bytes of the central directory the records take up. */
  function Consumed(read: Reader, left: nat, offset: nat, seen: set<Text>, total: nat): nat {
    if left == 0 || read(offset, seen, total).Err? then offset
    else
      var m := read(offset, seen, total).value;
      Consumed(read, left - 1, m.next, seen + {m.path}, total + m.size)
  }

  lemma {:induction false} DirectoryIsConsumed(
      read: Reader, left: nat, offset: nat, end: nat, seen: set<Text>, total: nat)
    requires ReadDirectory(read, left, offset, end, seen, total).Ok?
    ensures Consumed(read, left, offset, seen, total) == end
  {
    if left > 0 {
      var m := read(offset, seen, total).value;
      DirectoryIsConsumed(read, left - 1, m.next, end, seen + {m.path}, total + m.size);
    }
  }

  lemma DecodedByIsWellFormed(read: Reader, accepts: Text -> bool, d: Directory)
    requires Checks(read, accepts) && DecodedBy(read, Ok(d)).Ok?
    ensures var es := DecodedBy(read, Ok(d)).value;
            && DistinctPaths(es) && |es| <= d.count && TotalSize(es) <= MAX_BYTES
            && Consumed(read, d.count, d.offset, {}, 0) == d.offset + d.size
            && forall e :: e in es ==> accepts(e.path)
  {
    DirectoryIsWellFormed(read, accepts, d.count, d.offset, d.offset + d.size, {}, 0);
    DirectoryIsConsumed(read, d.count, d.offset, d.offset + d.size, {}, 0);
  }

  /**
   Decoding any byte array rejects it or yields members with pairwise distinct safe paths,
   no more of them than the limit and no more bytes than the limit, having consumed the
   central directory exactly.
   */
  lemma DecodedIsWellFormed(c: Codec, bytes: Bytes)
    requires Decoded(c, bytes).Ok?
    ensures var es, d := Decoded(c, bytes).value, LocateDirectory(bytes).value;
            && DistinctPaths(es) && |es| <= MAX_ENTRIES && TotalSize(es) <= MAX_BYTES
            && Consumed(ReaderOf(c, bytes), d.count, d.offset, {}, 0) == d.offset + d.size <= |bytes|
            && forall e :: e in es ==> Safe(e.path)
  {
    ReaderChecks(c, bytes);
    DecodedByIsWellFormed(ReaderOf(c, bytes), Safe, LocateDirectory(bytes).value);
  }

  lemma ReaderChecks(c: Codec, bytes: Bytes)
    ensures Checks(ReaderOf(c, bytes), Safe)
  {
    var read := ReaderOf(c, bytes);
    forall offset, seen, total | read(offset, seen, total).Ok?
      ensures WellRead(read(offset, seen, total).value, Safe, seen, total)
    {
      assert read(offset, seen, total) == ReadMember(c, bytes, offset, seen, total);
    }
  }

  // ----- decoding what was encoded

  /** What an entry can keep of itself in a ZIP archive: the mode is not stored. */
  function Stored(e: Entry): Entry {
    Entry(e.path, e.data, DEFAULT_MODE)
  }

  function StoredAll(es: seq<Entry>): seq<Entry> {
    seq(|es|, i requires 0 <= i < |es| => Stored(es[i]))
  }

  /** A member whose sizes fit the fields of its records. */
  ghost predicate Fits(c: Codec, e: Entry) {
    Safe(e.path) && c.Encodable(e.path) && |e.data| <= MAX_BYTES
  }

  /** Fields, a name and a tail, one after the other. */
  lemma RecordParts(bytes: Bytes, at: nat, fixed: Bytes, name: Bytes, tail: Bytes)
    requires Placed(bytes, at, fixed + name + tail)
    ensures Placed(bytes, at, fixed)
    ensures Placed(bytes, at + |fixed|, name) && Placed(bytes, at + |fixed| + |name|, tail)
  {
    var whole := fixed + name + tail;
    assert whole[..|fixed|] == fixed;
    assert whole[|fixed|..|fixed| + |name|] == name;
    assert whole[|fixed| + |name|..|fixed| + |name| + |tail|] == tail;
    PlacedWithin(bytes, at, whole, 0, fixed);
    PlacedWithin(bytes, at, whole, |fixed|, name);
    PlacedWithin(bytes, at, whole, |fixed| + |name|, tail);
  }

  /** The fields of a central record that say what the member is. */
  lemma CentralKind(bytes: Bytes, at: nat, fs: seq<Bytes>, kind: nat, nameLength: nat)
    requires OffsetsOf(fs, CENTRAL_OFFSETS) && Placed(bytes, at, Concat(fs))
    requires kind < 0x1_0000 && nameLength < 0x1_0000
    requires fs[0] == LE32(CENTRAL_SIGNATURE) && fs[3] == LE16(0) && fs[4] == LE16(kind)
    requires fs[10] == LE16(nameLength) && fs[11] == LE16(0) && fs[12] == LE16(0)
    ensures at + 46 <= |bytes|
    ensures U32(bytes, at) == CENTRAL_SIGNATURE && U16(bytes, at + 8) == 0 && U16(bytes, at + 10) == kind
    ensures U16(bytes, at + 28) == nameLength && U16(bytes, at + 30) == 0 && U16(bytes, at + 32) == 0
  {
    ConcatLength(fs, CENTRAL_OFFSETS);
    Field32(bytes, at, fs, CENTRAL_OFFSETS, 0, CENTRAL_SIGNATURE);
    Field16(bytes, at, fs, CENTRAL_OFFSETS, 3, 0);
    Field16(bytes, at, fs, CENTRAL_OFFSETS, 4, kind);
    Field16(bytes, at, fs, CENTRAL_OFFSETS, 10, nameLength);
    Field16(bytes, at, fs, CENTRAL_OFFSETS, 11, 0);
    Field16(bytes, at, fs, CENTRAL_OFFSETS, 12, 0);
  }

  /** The fields of a central record that describe and locate the data. */
  lemma CentralSizes(bytes: Bytes, at: nat, fs: seq<Bytes>, crc: nat, packedSize: nat, size: nat, offset: nat)
    requires OffsetsOf(fs, CENTRAL_OFFSETS) && Placed(bytes, at, Concat(fs))
    requires crc < 0x1_0000_0000 && packedSize < 0x1_0000_0000 && size < 0x1_0000_0000 && offset < 0x1_0000_0000
    requires fs[7] == LE32(crc) && fs[8] == LE32(packedSize) && fs[9] == LE32(size)
    requires fs[15] == LE32(0) && fs[16] == LE32(offset)
    ensures at + 46 <= |bytes|
    ensures U32(bytes, at + 16) == crc && U32(bytes, at + 20) == packedSize && U32(bytes, at + 24) == size
    ensures U32(bytes, at + 38) == 0 && U32(bytes, at + 42) == offset
  {
    ConcatLength(fs, CENTRAL_OFFSETS);
    Field32(bytes, at, fs, CENTRAL_OFFSETS, 7, crc);
    Field32(bytes, at, fs, CENTRAL_OFFSETS, 8, packedSize);
    Field32(bytes, at, fs, CENTRAL_OFFSETS, 9, size);
    Field32(bytes, at, fs, CENTRAL_OFFSETS, 15, 0);
    Field32(bytes, at, fs, CENTRAL_OFFSETS, 16, offset);
  }

  lemma LocalParts(bytes: Bytes, at: nat, fs: seq<Bytes>, name: Bytes, payload: Bytes)
    requires OffsetsOf(fs, LOCAL_OFFSETS) && Placed(bytes, at, Concat(fs) + name + payload)
    requires |name| < 0x1_0000
    requires fs[0] == LE32(LOCAL_SIGNATURE) && fs[9] == LE16(|name|) && fs[10] == LE16(0)
    ensures at + 30 + |name| + |payload| <= |bytes|
    ensures U32(bytes, at) == LOCAL_SIGNATURE && U16(bytes, at + 26) == |name| && U16(bytes, at + 28) == 0
    ensures bytes[at + 30 + |name|..at + 30 + |name| + |payload|] == payload
  {
    ConcatLength(fs, LOCAL_OFFSETS);
    RecordParts(bytes, at, Concat(fs), name, payload);
    Field32(bytes, at, fs, LOCAL_OFFSETS, 0, LOCAL_SIGNATURE);
    Field16(bytes, at, fs, LOCAL_OFFSETS, 9, |name|);
    Field16(bytes, at, fs, LOCAL_OFFSETS, 10, 0);
  }

  lemma LocalRead(c: Codec, stamp: Stamp, e: Entry, bytes: Bytes, at: nat)
    requires c.Lossless() && Fits(c, e) && Placed(bytes, at, LocalRecord(c, stamp, e))
    ensures ReadData(c, bytes, Method(c, e.data) == 8, c.checksum(e.data), |Payload(c, e.data)|, |e.data|, at) ==
            Ok(e.data)
  {
    LocalParts(bytes, at, LocalFields(c, stamp, e, c.checksum(e.data)), c.utf8(e.path), Payload(c, e.data));
    assert c.inflate(c.deflate(e.data)) == Some(e.data);
  }

  function CentralOf(c: Codec, e: Entry, offset: nat): Central {
    Central(0, Method(c, e.data), c.checksum(e.data), |Payload(c, e.data)|, |e.data|, c.utf8(e.path),
            46 + |c.utf8(e.path)|, 0, offset)
  }

  lemma CentralRead(c: Codec, stamp: Stamp, e: Entry, offset: nat, bytes: Bytes, at: nat)
    requires c.Lossless() && Fits(c, e) && offset < 0x1_0000_0000
             && Placed(bytes, at, CentralRecord(c, stamp, e, offset))
    ensures ReadCentral(bytes, at) == Ok(CentralOf(c, e, offset))
  {
    var fs := CentralFields(c, stamp, e, c.checksum(e.data), offset);
    assert CentralRecord(c, stamp, e, offset) == Concat(fs) + c.utf8(e.path) + [];
    ConcatLength(fs, CENTRAL_OFFSETS);
    RecordParts(bytes, at, Concat(fs), c.utf8(e.path), []);
    CentralKind(bytes, at, fs, Method(c, e.data), |c.utf8(e.path)|);
    assert c.inflate(c.deflate(e.data)) == Some(e.data);
    CentralSizes(bytes, at, fs, c.checksum(e.data), |Payload(c, e.data)|, |e.data|, offset);
  }

  ghost predicate ReadsAs(r: Result<Member, ZipError>, e: Entry, next: nat, seen: set<Text>) {
    r == if e.path in seen then Err(DuplicateEntry)
         else Ok(Member(e.path, next, |e.data|, Some(Stored(e))))
  }

  lemma MemberAccepted(c: Codec, accepts: Text -> bool, e: Entry, offset: nat, bytes: Bytes, next: nat,
      seen: set<Text>, total: nat)
    requires total + |e.data| <= MAX_BYTES && accepts(e.path) && !IsDirectoryName(e.path)
    requires c.utf8Decode(c.utf8(e.path)) == Some(e.path)
    requires ReadData(c, bytes, Method(c, e.data) == 8, c.checksum(e.data), |Payload(c, e.data)|, |e.data|, offset) ==
             Ok(e.data)
    ensures ReadsAs(AcceptMember(c, accepts, bytes, CentralOf(c, e, offset), next, seen, total), e, next, seen)
  {
  }

  /** A central record that points at its local record reads back as the member. */
  lemma MemberRead(c: Codec, stamp: Stamp, e: Entry, offset: nat, bytes: Bytes, at: nat, seen: set<Text>, total: nat)
    requires c.Lossless() && Fits(c, e) && offset < 0x1_0000_0000 && total + |e.data| <= MAX_BYTES
    requires Placed(bytes, at, CentralRecord(c, stamp, e, offset)) && Placed(bytes, offset, LocalRecord(c, stamp, e))
    ensures ReadsAs(ReadMember(c, bytes, at, seen, total), e, at + 46 + |c.utf8(e.path)|, seen)
  {
    hide CentralRecord, LocalRecord, Placed, ReadData, AcceptMember, ReadCentral, Safe;
    CentralRead(c, stamp, e, offset, bytes, at);
    LocalRead(c, stamp, e, bytes, offset);
    SafeIsNotDirectory(e.path);
    MemberAccepted(c, Safe, e, offset, bytes, at + 46 + |c.utf8(e.path)|, seen, total);
  }

  // ----- the whole archive

  /** Where the records of entry `i` stand in an archive. */
  function LocalOffset(c: Codec, stamp: Stamp, es: seq<Entry>, i: nat): nat
    requires i <= |es|
  {
    |Concat(LocalRecords(c, stamp, es)[..i])|
  }

  function CentralOffset(c: Codec, stamp: Stamp, es: seq<Entry>, i: nat): nat
    requires i <= |es|
  {
    |Concat(LocalRecords(c, stamp, es))| + |Concat(CentralRecords(c, stamp, es)[..i])|
  }

  lemma ArchiveParts(locals: Bytes, centrals: Bytes, eocd: Bytes)
    ensures var bytes := locals + centrals + eocd;
            && Placed(bytes, 0, locals) && Placed(bytes, |locals|, centrals)
            && Placed(bytes, |locals| + |centrals|, eocd)
  {
    var bytes := locals + centrals + eocd;
    assert bytes[..|locals|] == locals;
    assert bytes[|locals|..|locals| + |centrals|] == centrals;
    assert bytes[|locals| + |centrals|..|locals| + |centrals| + |eocd|] == eocd;
  }

  lemma LocalsPlaced(ls: seq<Bytes>, centrals: Bytes, count: nat, i: nat)
    requires i < |ls|
    ensures Placed(Assemble(Concat(ls), centrals, count), |Concat(ls[..i])|, ls[i])
  {
    FieldAt(ls, i);
    ArchiveParts(Concat(ls), centrals, Eocd(count, |centrals|, |Concat(ls)|));
    PlacedWithin(Assemble(Concat(ls), centrals, count), 0, Concat(ls), |Concat(ls[..i])|, ls[i]);
  }

  lemma CentralsPlaced(locals: Bytes, cs: seq<Bytes>, count: nat, i: nat)
    requires i < |cs|
    ensures Placed(Assemble(locals, Concat(cs), count), |locals| + |Concat(cs[..i])|, cs[i])
  {
    FieldAt(cs, i);
    ArchiveParts(locals, Concat(cs), Eocd(count, |Concat(cs)|, |locals|));
    PlacedWithin(Assemble(locals, Concat(cs), count), |locals|, Concat(cs), |Concat(cs[..i])|, cs[i]);
  }

  lemma CentralStep(c: Codec, stamp: Stamp, es: seq<Entry>, i: nat)
    requires i < |es|
    ensures CentralOffset(c, stamp, es, i + 1) == CentralOffset(c, stamp, es, i) + 46 + |c.utf8(es[i].path)|
  {
    FieldAt(CentralRecords(c, stamp, es), i);
    CentralLength(c, stamp, es[i], LocalOffset(c, stamp, es, i));
  }

  lemma RecordsPlaced(c: Codec, stamp: Stamp, es: seq<Entry>, i: nat)
    requires i < |es|
    ensures Placed(Archive(c, stamp, es), LocalOffset(c, stamp, es, i), LocalRecord(c, stamp, es[i]))
    ensures Placed(Archive(c, stamp, es), CentralOffset(c, stamp, es, i),
                   CentralRecord(c, stamp, es[i], LocalOffset(c, stamp, es, i)))
  {
    hide LocalRecord, CentralRecord, Concat, Assemble, Placed;
    var ls, cs := LocalRecords(c, stamp, es), CentralRecords(c, stamp, es);
    LocalsPlaced(ls, Concat(cs), |es|, i);
    CentralsPlaced(Concat(ls), cs, |es|, i);
  }

  lemma {:induction false} TotalSizeSnoc(es: seq<Entry>, e: Entry)
    ensures TotalSize(es + [e]) == TotalSize(es) + |e.data|
  {
    if es == [] {
      assert [] + [e] == [e] && [e][1..] == [];
    } else {
      assert (es + [e])[1..] == es[1..] + [e];
      TotalSizeSnoc(es[1..], e);
    }
  }

  lemma {:induction false} LocalBound(records: seq<Bytes>, es: seq<Entry>, i: nat)
    requires i <= |records| == |es|
    requires forall j :: 0 <= j < |es| ==> |records[j]| <= 0x1_001e + |es[j].data|
    ensures |Concat(records[..i])| <= 0x1_001e * i + TotalSize(es[..i])
  {
    if i > 0 {
      LocalBound(records, es, i - 1);
      ConcatSnoc(records, i - 1);
      TotalSizeSnoc(es[..i - 1], es[i - 1]);
      assert es[..i] == es[..i - 1] + [es[i - 1]];
    }
  }

  lemma {:induction false} CentralBound(records: seq<Bytes>, i: nat)
    requires i <= |records|
    requires forall j :: 0 <= j < |records| ==> |records[j]| <= 0x1_002e
    ensures |Concat(records[..i])| <= 0x1_002e * i
  {
    if i > 0 {
      CentralBound(records, i - 1);
      ConcatSnoc(records, i - 1);
    }
  }

  lemma LocalLength(c: Codec, stamp: Stamp, e: Entry)
    ensures |LocalRecord(c, stamp, e)| <= 30 + |c.utf8(e.path)| + |e.data|
  {
    ConcatLength(LocalFields(c, stamp, e, c.checksum(e.data)), LOCAL_OFFSETS);
  }

  lemma CentralLength(c: Codec, stamp: Stamp, e: Entry, offset: nat)
    ensures |CentralRecord(c, stamp, e, offset)| == 46 + |c.utf8(e.path)|
  {
    ConcatLength(CentralFields(c, stamp, e, c.checksum(e.data), offset), CENTRAL_OFFSETS);
  }

  lemma SectionBounds(c: Codec, stamp: Stamp, es: seq<Entry>, i: nat)
    requires i <= |es| && forall e :: e in es ==> c.Encodable(e.path)
    ensures LocalOffset(c, stamp, es, i) <= 0x1_001e * i + TotalSize(es[..i])
    ensures |Concat(CentralRecords(c, stamp, es)[..i])| <= 0x1_002e * i
  {
    var ls, cs := LocalRecords(c, stamp, es), CentralRecords(c, stamp, es);
    forall j | 0 <= j < |es| ensures |ls[j]| <= 0x1_001e + |es[j].data| && |cs[j]| <= 0x1_002e {
      LocalLength(c, stamp, es[j]);
      CentralLength(c, stamp, es[j], LocalOffset(c, stamp, es, j));
      assert es[j] in es;
    }
    LocalBound(ls, es, i);
    CentralBound(cs, i);
  }

  lemma {:induction false} TotalSizeSplit(es: seq<Entry>, i: nat)
    requires i <= |es|
    ensures TotalSize(es) == TotalSize(es[..i]) + TotalSize(es[i..])
  {
    if i == 0 {
      assert es[..0] == [] && es[0..] == es;
    } else {
      TotalSizeSplit(es, i - 1);
      TotalSizeSnoc(es[..i - 1], es[i - 1]);
      assert es[..i] == es[..i - 1] + [es[i - 1]];
      assert es[i - 1..][1..] == es[i..];
    }
  }

  /** What may be packed: limits of the reader, and names that fit their field. */
  ghost predicate Packable(c: Codec, es: seq<Entry>) {
    |es| <= MAX_ENTRIES && TotalSize(es) <= MAX_BYTES && forall e :: e in es ==> Fits(c, e)
  }

  /** No archive that keeps the limits comes near the 32-bit sizes. */
  lemma ArchiveIsSmall(c: Codec, stamp: Stamp, es: seq<Entry>, i: nat)
    requires Packable(c, es) && i <= |es|
    ensures LocalOffset(c, stamp, es, i) < 0xffff_ffff
    ensures |Concat(LocalRecords(c, stamp, es))| < 0xffff_ffff && |Concat(CentralRecords(c, stamp, es))| < 0xffff_ffff
  {
    SectionBounds(c, stamp, es, i);
    SectionBounds(c, stamp, es, |es|);
    TotalSizeSplit(es, i);
    assert LocalRecords(c, stamp, es)[..|es|] == LocalRecords(c, stamp, es);
    assert CentralRecords(c, stamp, es)[..|es|] == CentralRecords(c, stamp, es);
    assert es[..|es|] == es;
  }

  /** The record at an offset reads back as an entry, wherever the reading has got to. */
  ghost predicate ReadsEntry(read: Reader, at: nat, e: Entry, next: nat) {
    forall seen, total: nat :: total + |e.data| <= MAX_BYTES ==> ReadsAs(read(at, seen, total), e, next, seen)
  }

  ghost predicate ReadsBack(read: Reader, es: seq<Entry>, at: seq<nat>) {
    |at| == |es| + 1 && forall i :: 0 <= i < |es| ==> ReadsEntry(read, at[i], es[i], at[i + 1])
  }

  ghost predicate FreshPaths(es: seq<Entry>, seen: set<Text>) {
    DistinctPaths(es) && forall i :: 0 <= i < |es| ==> es[i].path !in seen
  }

  lemma FreshPathsStep(es: seq<Entry>, seen: set<Text>)
    requires es != []
    ensures FreshPaths(es, seen) <==> es[0].path !in seen && FreshPaths(es[1..], seen + {es[0].path})
  {
    if es[0].path !in seen && FreshPaths(es[1..], seen + {es[0].path}) {
      forall i, j | 0 <= i < j < |es| ensures es[i].path != es[j].path {
        assert es[j] == es[1..][j - 1];
        if i > 0 {
          assert es[i] == es[1..][i - 1];
        }
      }
      forall i | 0 <= i < |es| ensures es[i].path !in seen {
        if i > 0 {
          assert es[i] == es[1..][i - 1];
        }
      }
    }
  }

  lemma {:induction false} DirectoryReadsBack(read: Reader, es: seq<Entry>, at: seq<nat>, i: nat, seen: set<Text>,
      total: nat)
    requires ReadsBack(read, es, at) && i <= |es| && total + TotalSize(es[i..]) <= MAX_BYTES
    ensures ReadDirectory(read, |es| - i, at[i], at[|es|], seen, total) ==
              if FreshPaths(es[i..], seen) then Ok(StoredAll(es[i..])) else Err(DuplicateEntry)
    decreases |es| - i
  {
    if i == |es| {
      assert es[i..] == [] && StoredAll(es[i..]) == [];
    } else {
      var rest := es[i..];
      assert rest[1..] == es[i + 1..];
      FreshPathsStep(rest, seen);
      assert ReadsEntry(read, at[i], es[i], at[i + 1]);
      if es[i].path !in seen {
        DirectoryReadsBack(read, es, at, i + 1, seen + {es[i].path}, total + |es[i].data|);
        assert StoredAll(rest) == [Stored(es[i])] + StoredAll(es[i + 1..]);
      }
    }
  }

  lemma EocdRead(count: nat, centralSize: nat, centralOffset: nat, bytes: Bytes)
    requires count <= MAX_ENTRIES && centralSize < 0xffff_ffff && centralOffset < 0xffff_ffff
    requires |bytes| == centralOffset + centralSize + EOCD_SIZE
    requires Placed(bytes, centralOffset + centralSize, Eocd(count, centralSize, centralOffset))
    ensures LocateDirectory(bytes) == Ok(Directory(count, centralOffset, centralSize))
  {
    var at, fs := centralOffset + centralSize, EocdFields(count, centralSize, centralOffset);
    ConcatLength(fs, EOCD_OFFSETS);
    Field32(bytes, at, fs, EOCD_OFFSETS, 0, EOCD_SIGNATURE);
    Field16(bytes, at, fs, EOCD_OFFSETS, 1, 0);
    Field16(bytes, at, fs, EOCD_OFFSETS, 2, 0);
    Field16(bytes, at, fs, EOCD_OFFSETS, 3, count);
    Field16(bytes, at, fs, EOCD_OFFSETS, 4, count);
    Field32(bytes, at, fs, EOCD_OFFSETS, 5, centralSize);
    Field32(bytes, at, fs, EOCD_OFFSETS, 6, centralOffset);
    Field16(bytes, at, fs, EOCD_OFFSETS, 7, 0);
    assert EocdAt(bytes, at);
  }

  function CentralOffsets(c: Codec, stamp: Stamp, es: seq<Entry>): seq<nat> {
    seq(|es| + 1, i requires 0 <= i <= |es| => CentralOffset(c, stamp, es, i))
  }

  /** A local and a central record of an entry stand at these offsets. */
  ghost predicate RecordsAt(c: Codec, stamp: Stamp, e: Entry, bytes: Bytes, local: nat, central: nat) {
    && Fits(c, e) && local < 0xffff_ffff
    && Placed(bytes, local, LocalRecord(c, stamp, e))
    && Placed(bytes, central, CentralRecord(c, stamp, e, local))
  }

  /** The records of every entry stand where these offsets say. */
  ghost predicate LaidOut(c: Codec, stamp: Stamp, es: seq<Entry>, bytes: Bytes, local: seq<nat>, central: seq<nat>) {
    && |local| == |es| && |central| == |es| + 1
    && (forall i :: 0 <= i < |es| ==> RecordsAt(c, stamp, es[i], bytes, local[i], central[i]))
    && forall i :: 0 <= i < |es| ==> central[i + 1] == central[i] + 46 + |c.utf8(es[i].path)|
  }

  function LocalOffsets(c: Codec, stamp: Stamp, es: seq<Entry>): seq<nat> {
    seq(|es|, i requires 0 <= i < |es| => LocalOffset(c, stamp, es, i))
  }

  lemma ArchiveIsLaidOut(c: Codec, stamp: Stamp, es: seq<Entry>)
    requires Packable(c, es)
    ensures LaidOut(c, stamp, es, Archive(c, stamp, es), LocalOffsets(c, stamp, es), CentralOffsets(c, stamp, es))
  {
    forall i | 0 <= i < |es|
      ensures RecordsAt(c, stamp, es[i], Archive(c, stamp, es), LocalOffset(c, stamp, es, i),
                        CentralOffset(c, stamp, es, i))
      ensures CentralOffset(c, stamp, es, i + 1) == CentralOffset(c, stamp, es, i) + 46 + |c.utf8(es[i].path)|
    {
      RecordsPlaced(c, stamp, es, i);
      CentralStep(c, stamp, es, i);
      ArchiveIsSmall(c, stamp, es, i);
      assert es[i] in es;
    }
  }

  lemma ReaderReadsEntry(c: Codec, stamp: Stamp, e: Entry, bytes: Bytes, local: nat, central: nat, next: nat)
    requires c.Lossless() && RecordsAt(c, stamp, e, bytes, local, central)
    requires next == central + 46 + |c.utf8(e.path)|
    ensures ReadsEntry(ReaderOf(c, bytes), central, e, next)
  {
    forall seen, total: nat | total + |e.data| <= MAX_BYTES
      ensures ReadsAs(ReaderOf(c, bytes)(central, seen, total), e, next, seen)
    {
      MemberRead(c, stamp, e, local, bytes, central, seen, total);
    }
  }

  lemma LaidOutReadsBack(c: Codec, stamp: Stamp, es: seq<Entry>, bytes: Bytes, local: seq<nat>, central: seq<nat>,
      i: nat)
    requires c.Lossless() && LaidOut(c, stamp, es, bytes, local, central) && i < |es|
    ensures ReadsEntry(ReaderOf(c, bytes), central[i], es[i], central[i + 1])
  {
    ReaderReadsEntry(c, stamp, es[i], bytes, local[i], central[i], central[i + 1]);
  }

  lemma DirectoryLocated(locals: Bytes, centrals: Bytes, count: nat)
    requires count <= MAX_ENTRIES && |locals| < 0xffff_ffff && |centrals| < 0xffff_ffff
    ensures LocateDirectory(Assemble(locals, centrals, count)) ==
              Ok(Directory(count, |locals|, |centrals|))
  {
    var eocd := Eocd(count, |centrals|, |locals|);
    ConcatLength(EocdFields(count, |centrals|, |locals|), EOCD_OFFSETS);
    ArchiveParts(locals, centrals, eocd);
    EocdRead(count, |centrals|, |locals|, locals + centrals + eocd);
  }

  lemma OffsetEnds(c: Codec, stamp: Stamp, es: seq<Entry>)
    ensures CentralOffset(c, stamp, es, 0) == |Concat(LocalRecords(c, stamp, es))|
    ensures CentralOffset(c, stamp, es, |es|) ==
              |Concat(LocalRecords(c, stamp, es))| + |Concat(CentralRecords(c, stamp, es))|
  {
    var cs := CentralRecords(c, stamp, es);
    assert cs[..|es|] == cs && cs[..0] == [];
  }

  lemma DecodedByReadsBack(read: Reader, es: seq<Entry>, at: seq<nat>, directory: Result<Directory, ZipError>)
    requires ReadsBack(read, es, at) && TotalSize(es) <= MAX_BYTES && at[0] <= at[|es|]
    requires directory == Ok(Directory(|es|, at[0], at[|es|] - at[0]))
    ensures DecodedBy(read, directory) == if DistinctPaths(es) then Ok(StoredAll(es)) else Err(DuplicateEntry)
  {
    assert es[0..] == es;
    DirectoryReadsBack(read, es, at, 0, {}, 0);
  }

  /**
   Decoding an encoded archive gives the entries back, in order, with their bytes and with
   mode 0o644, exactly when their paths are distinct; a repeated path is rejected.
   */
  lemma RoundTrip(c: Codec, stamp: Stamp, es: seq<Entry>)
    requires c.Lossless() && Packable(c, es)
    ensures Decoded(c, Archive(c, stamp, es)) ==
              if DistinctPaths(es) then Ok(StoredAll(es)) else Err(DuplicateEntry)
  {
    var at, bytes := CentralOffsets(c, stamp, es), Archive(c, stamp, es);
    var read, directory := ReaderOf(c, bytes), LocateDirectory(bytes);
    ArchiveIsLaidOut(c, stamp, es);
    forall i | 0 <= i < |es| ensures ReadsEntry(read, at[i], es[i], at[i + 1]) {
      LaidOutReadsBack(c, stamp, es, bytes, LocalOffsets(c, stamp, es), at, i);
    }
    ArchiveIsSmall(c, stamp, es, 0);
    DirectoryLocated(Concat(LocalRecords(c, stamp, es)), Concat(CentralRecords(c, stamp, es)), |es|);
    OffsetEnds(c, stamp, es);
    DecodedByReadsBack(read, es, at, directory);
  }

  // ----- the archive as it is shipped

  lemma {:induction false} TotalSizeInsert(e: Entry, es: seq<Entry>)
    ensures TotalSize(Insert(PathOf, e, es)) == |e.data| + TotalSize(es)
  {
    if es == [] || AtMost(e.path, es[0].path) {
      assert ([e] + es)[1..] == es;
    } else {
      TotalSizeInsert(e, es[1..]);
      assert ([es[0]] + Insert(PathOf, e, es[1..]))[1..] == Insert(PathOf, e, es[1..]);
    }
  }

  lemma {:induction false} TotalSizeByPath(es: seq<Entry>)
    ensures TotalSize(ByPath(es)) == TotalSize(es)
  {
    if es != [] {
      TotalSizeByPath(es[1..]);
      TotalSizeInsert(es[0], ByPath(es[1..]));
    }
  }

  lemma PackableByPath(c: Codec, es: seq<Entry>)
    requires Packable(c, es)
    ensures Packable(c, ByPath(es))
  {
    SortBySorts(PathOf, es);
    TotalSizeByPath(es);
    forall e | e in ByPath(es) ensures Fits(c, e) {
      SortByMembers(PathOf, es, e);
    }
  }

  /**
   Packing sorts by path: the archive of any packable entries with distinct paths decodes to
   all of them, each with its own bytes, in path order.
   */
  lemma ShippedRoundTrip(c: Codec, stamp: Stamp, es: seq<Entry>)
    requires c.Lossless() && Packable(c, es) && DistinctPaths(es)
    ensures Decoded(c, Archive(c, stamp, ByPath(es))) == Ok(StoredAll(ByPath(es)))
    ensures Sorted(PathOf, ByPath(es)) && multiset(ByPath(es)) == multiset(es) && DistinctPaths(ByPath(es))
  {
    PackableByPath(c, es);
    SortBySorts(PathOf, es);
    SortByDistinct(PathOf, es);
    assert DistinctKeys(PathOf, es);
    assert DistinctPaths(ByPath(es)) by {
      assert DistinctKeys(PathOf, ByPath(es));
      forall i, j | 0 <= i < j < |ByPath(es)| ensures ByPath(es)[i].path != ByPath(es)[j].path {
        assert PathOf(ByPath(es)[i]) != PathOf(ByPath(es)[j]);
      }
    }
    RoundTrip(c, stamp, ByPath(es));
  }
}
