/**
 What stands where in a ZIP archive, byte by byte: every field of every record that the writer lays down, whether or
 not the reader of this project looks at it, and exactly which records that reader accepts.
 */
module ZipRecords {
  import opened Prelude
  import opened ArchivePath
  import opened Layout
  import opened Zip

  // ----- what was written

  ghost predicate Sixteen(stamp: Stamp) {
    stamp.time < 0x1_0000 && stamp.date < 0x1_0000
  }

  /** The local file header of section 4.3.7 of the PKWARE APPNOTE, its name and its data. */
  ghost predicate LocalHeaderAt(c: Codec, stamp: Stamp, e: Entry, bytes: Bytes, at: nat) {
    var n, packed := |c.utf8(e.path)|, Payload(c, e.data);
    && at + 30 + n + |packed| <= |bytes|
    && U32(bytes, at) == 0x0403_4b50 && U16(bytes, at + 4) == 20 && U16(bytes, at + 6) == 0
    && U16(bytes, at + 8) == (if |c.deflate(e.data)| < |e.data| then 8 else 0)
    && U16(bytes, at + 10) == stamp.time && U16(bytes, at + 12) == stamp.date
    && U32(bytes, at + 14) == c.checksum(e.data)
    && U32(bytes, at + 18) == |packed| && U32(bytes, at + 22) == |e.data|
    && U16(bytes, at + 26) == n && U16(bytes, at + 28) == 0
    && bytes[at + 30..at + 30 + n] == c.utf8(e.path)
    && bytes[at + 30 + n..at + 30 + n + |packed|] ==
       if |c.deflate(e.data)| < |e.data| then c.deflate(e.data) else e.data
  }

  /** The central directory header of section 4.3.12, its name, and the local header that it points at. */
  ghost predicate CentralHeaderAt(c: Codec, stamp: Stamp, e: Entry, bytes: Bytes, at: nat, local: nat) {
    var n := |c.utf8(e.path)|;
    && at + 46 + n <= |bytes|
    && U32(bytes, at) == 0x0201_4b50 && U16(bytes, at + 4) == 20 && U16(bytes, at + 6) == 20 && U16(bytes, at + 8) == 0
    && U16(bytes, at + 10) == (if |c.deflate(e.data)| < |e.data| then 8 else 0)
    && U16(bytes, at + 12) == stamp.time && U16(bytes, at + 14) == stamp.date
    && U32(bytes, at + 16) == c.checksum(e.data)
    && U32(bytes, at + 20) == |Payload(c, e.data)| && U32(bytes, at + 24) == |e.data|
    && U16(bytes, at + 28) == n && U16(bytes, at + 30) == 0 && U16(bytes, at + 32) == 0
    && U16(bytes, at + 34) == 0 && U16(bytes, at + 36) == 0 && U32(bytes, at + 38) == 0 && U32(bytes, at + 42) == local
    && bytes[at + 46..at + 46 + n] == c.utf8(e.path)
  }

  lemma LocalRecordSays(c: Codec, stamp: Stamp, e: Entry, bytes: Bytes, at: nat)
    requires c.Lossless() && Fits(c, e) && Sixteen(stamp) && Placed(bytes, at, LocalRecord(c, stamp, e))
    ensures LocalHeaderAt(c, stamp, e, bytes, at)
  {
    hide Concat, Safe, LE16, LE32, U16, U32, Codec.Lossless;
    var crc := c.checksum(e.data);
    var fs := LocalFields(c, stamp, e, crc);
    ChecksumIsSmall(c, e.data);
    ConcatLength(fs, LOCAL_OFFSETS);
    RecordParts(bytes, at, Concat(fs), c.utf8(e.path), Payload(c, e.data));
    Field32(bytes, at, fs, LOCAL_OFFSETS, 0, LOCAL_SIGNATURE);
    Field16(bytes, at, fs, LOCAL_OFFSETS, 1, 20);
    Field16(bytes, at, fs, LOCAL_OFFSETS, 2, 0);
    Field16(bytes, at, fs, LOCAL_OFFSETS, 3, Method(c, e.data));
    Field16(bytes, at, fs, LOCAL_OFFSETS, 4, stamp.time);
    Field16(bytes, at, fs, LOCAL_OFFSETS, 5, stamp.date);
    Field32(bytes, at, fs, LOCAL_OFFSETS, 6, crc);
    Field32(bytes, at, fs, LOCAL_OFFSETS, 7, |Payload(c, e.data)|);
    Field32(bytes, at, fs, LOCAL_OFFSETS, 8, |e.data|);
    Field16(bytes, at, fs, LOCAL_OFFSETS, 9, |c.utf8(e.path)|);
    Field16(bytes, at, fs, LOCAL_OFFSETS, 10, 0);
  }

  lemma ChecksumIsSmall(c: Codec, data: Bytes)
    requires c.Lossless()
    ensures c.checksum(data) < 0x1_0000_0000
  {
  }

  lemma CentralRecordSays(c: Codec, stamp: Stamp, e: Entry, bytes: Bytes, at: nat, local: nat)
    requires c.Lossless() && Fits(c, e) && Sixteen(stamp) && local < 0x1_0000_0000
    requires Placed(bytes, at, CentralRecord(c, stamp, e, local))
    ensures CentralHeaderAt(c, stamp, e, bytes, at, local)
  {
    hide Concat, Safe, LE16, LE32, U16, U32, Codec.Lossless;
    var crc := c.checksum(e.data);
    var fs := CentralFields(c, stamp, e, crc, local);
    ChecksumIsSmall(c, e.data);
    ConcatLength(fs, CENTRAL_OFFSETS);
    assert Concat(fs) + c.utf8(e.path) == Concat(fs) + c.utf8(e.path) + [];
    RecordParts(bytes, at, Concat(fs), c.utf8(e.path), []);
    CentralFront(c, stamp, e, bytes, at, local);
    Field16(bytes, at, fs, CENTRAL_OFFSETS, 10, |c.utf8(e.path)|);
    Field16(bytes, at, fs, CENTRAL_OFFSETS, 11, 0);
    Field16(bytes, at, fs, CENTRAL_OFFSETS, 12, 0);
    Field16(bytes, at, fs, CENTRAL_OFFSETS, 13, 0);
    Field16(bytes, at, fs, CENTRAL_OFFSETS, 14, 0);
    Field32(bytes, at, fs, CENTRAL_OFFSETS, 15, 0);
    Field32(bytes, at, fs, CENTRAL_OFFSETS, 16, local);
  }

  lemma CentralFront(c: Codec, stamp: Stamp, e: Entry, bytes: Bytes, at: nat, local: nat)
    requires c.checksum(e.data) < 0x1_0000_0000 && Fits(c, e) && Sixteen(stamp)
    requires Placed(bytes, at, Concat(CentralFields(c, stamp, e, c.checksum(e.data), local)))
    ensures at + 46 <= |bytes|
    ensures U32(bytes, at) == 0x0201_4b50 && U16(bytes, at + 4) == 20 && U16(bytes, at + 6) == 20
    ensures U16(bytes, at + 8) == 0 && U16(bytes, at + 10) == Method(c, e.data)
    ensures U16(bytes, at + 12) == stamp.time && U16(bytes, at + 14) == stamp.date
    ensures U32(bytes, at + 16) == c.checksum(e.data)
    ensures U32(bytes, at + 20) == |Payload(c, e.data)| && U32(bytes, at + 24) == |e.data|
  {
    hide Concat, Safe, LE16, LE32, U16, U32;
    var crc := c.checksum(e.data);
    var fs := CentralFields(c, stamp, e, crc, local);
    ConcatLength(fs, CENTRAL_OFFSETS);
    Field32(bytes, at, fs, CENTRAL_OFFSETS, 0, CENTRAL_SIGNATURE);
    Field16(bytes, at, fs, CENTRAL_OFFSETS, 1, 20);
    Field16(bytes, at, fs, CENTRAL_OFFSETS, 2, 20);
    Field16(bytes, at, fs, CENTRAL_OFFSETS, 3, 0);
    Field16(bytes, at, fs, CENTRAL_OFFSETS, 4, Method(c, e.data));
    Field16(bytes, at, fs, CENTRAL_OFFSETS, 5, stamp.time);
    Field16(bytes, at, fs, CENTRAL_OFFSETS, 6, stamp.date);
    Field32(bytes, at, fs, CENTRAL_OFFSETS, 7, crc);
    Field32(bytes, at, fs, CENTRAL_OFFSETS, 8, |Payload(c, e.data)|);
    Field32(bytes, at, fs, CENTRAL_OFFSETS, 9, |e.data|);
  }

  /** Every member of an archive has its local and its central header, in the order of the entries, field by field. */
  lemma ArchiveSays(c: Codec, stamp: Stamp, es: seq<Entry>, i: nat)
    requires c.Lossless() && Packable(c, es) && Sixteen(stamp) && i < |es|
    ensures LocalHeaderAt(c, stamp, es[i], Archive(c, stamp, es), LocalOffset(c, stamp, es, i))
    ensures CentralHeaderAt(c, stamp, es[i], Archive(c, stamp, es), CentralOffset(c, stamp, es, i),
                            LocalOffset(c, stamp, es, i))
  {
    hide Archive, LocalRecord, CentralRecord, LocalOffset, CentralOffset, Codec.Lossless, LocalHeaderAt,
         CentralHeaderAt, Placed;
    RecordsPlaced(c, stamp, es, i);
    ArchiveIsSmall(c, stamp, es, i);
    assert Fits(c, es[i]);
    var bytes, local := Archive(c, stamp, es), LocalOffset(c, stamp, es, i);
    LocalRecordSays(c, stamp, es[i], bytes, local);
    CentralRecordSays(c, stamp, es[i], bytes, CentralOffset(c, stamp, es, i), local);
  }

  /** The end of central directory record of section 4.3.16 ends the archive and counts and locates its directory. */
  lemma EndRecordSays(c: Codec, stamp: Stamp, es: seq<Entry>)
    requires c.Lossless() && Packable(c, es)
    ensures var bytes := Archive(c, stamp, es);
            var at, central := |bytes| - 22, CentralOffset(c, stamp, es, 0);
            && at >= central
            && U32(bytes, at) == 0x0605_4b50 && U16(bytes, at + 4) == 0 && U16(bytes, at + 6) == 0
            && U16(bytes, at + 8) == |es| && U16(bytes, at + 10) == |es|
            && U32(bytes, at + 12) == at - central && U32(bytes, at + 16) == central && U16(bytes, at + 20) == 0
  {
    hide LE16, LE32, U16, U32, Codec.Lossless, LocalRecords, CentralRecords, Concat, Placed;
    var locals, centrals := Concat(LocalRecords(c, stamp, es)), Concat(CentralRecords(c, stamp, es));
    var bytes, fs := Archive(c, stamp, es), EocdFields(|es|, |centrals|, |locals|);
    ArchiveIsSmall(c, stamp, es, 0);
    ConcatLength(fs, EOCD_OFFSETS);
    ConcatNone();
    CentralStarts(c, stamp, es);
    var at := |locals| + |centrals|;
    EndsWith(locals + centrals, Concat(fs));
    Field32(bytes, at, fs, EOCD_OFFSETS, 0, EOCD_SIGNATURE);
    Field16(bytes, at, fs, EOCD_OFFSETS, 1, 0);
    Field16(bytes, at, fs, EOCD_OFFSETS, 2, 0);
    Field16(bytes, at, fs, EOCD_OFFSETS, 3, |es|);
    Field16(bytes, at, fs, EOCD_OFFSETS, 4, |es|);
    Field32(bytes, at, fs, EOCD_OFFSETS, 5, |centrals|);
    Field32(bytes, at, fs, EOCD_OFFSETS, 6, |locals|);
    Field16(bytes, at, fs, EOCD_OFFSETS, 7, 0);
  }

  lemma CentralStarts(c: Codec, stamp: Stamp, es: seq<Entry>)
    ensures CentralOffset(c, stamp, es, 0) == |Concat(LocalRecords(c, stamp, es))|
  {
    assert CentralRecords(c, stamp, es)[..0] == [];
  }

  lemma EndsWith(front: Bytes, tail: Bytes)
    ensures Placed(front + tail, |front|, tail)
  {
    assert (front + tail)[|front|..|front| + |tail|] == tail;
  }

  /** Fields are little-endian, so an archive with members begins with the letters PK. */
  lemma BeginsWithPk(c: Codec, stamp: Stamp, es: seq<Entry>)
    requires c.Lossless() && Packable(c, es) && Sixteen(stamp) && es != []
    ensures |Archive(c, stamp, es)| >= 4 && Archive(c, stamp, es)[..4] == [0x50, 0x4b, 0x03, 0x04]
  {
    hide Archive, LocalRecord, Concat, Codec.Lossless, Packable;
    FirstIsFirst(c, stamp, es);
    RecordsPlaced(c, stamp, es, 0);
    LocalStarts(c, stamp, es[0]);
    var bytes, record := Archive(c, stamp, es), LocalRecord(c, stamp, es[0]);
    assert bytes[..4] == bytes[0..|record|][..4];
  }

  lemma FirstIsFirst(c: Codec, stamp: Stamp, es: seq<Entry>)
    requires es != []
    ensures LocalOffset(c, stamp, es, 0) == 0
  {
    assert LocalRecords(c, stamp, es)[..0] == [];
  }

  lemma LocalStarts(c: Codec, stamp: Stamp, e: Entry)
    ensures |LocalRecord(c, stamp, e)| >= 30 && LocalRecord(c, stamp, e)[..4] == [0x50, 0x4b, 0x03, 0x04]
  {
    hide Concat, Placed;
    var fs := LocalFields(c, stamp, e, c.checksum(e.data));
    ConcatLength(fs, LOCAL_OFFSETS);
    FieldPlaced(fs, LOCAL_OFFSETS, 0);
    PlacedAtFront(Concat(fs), fs[0]);
  }

  lemma PlacedAtFront(s: Bytes, chunk: Bytes)
    requires Placed(s, 0, chunk)
    ensures chunk <= s
  {
  }

  // ----- what is read

  /** Of the attributes that other writers store, the permission bits count, and 0o644 if there is no mode at all. */
  lemma ModesAreTaken(kind: nat, mode: nat, low: nat)
    requires kind < 0x80 && mode < 0x200 && low < 0x1_0000
    ensures UnixMode((kind * 0x200 + mode) * 0x1_0000 + low) == if kind == 0 && mode == 0 then 0x1a4 else mode
  {
    var high := kind * 0x200 + mode;
    assert (high * 0x1_0000 + low) / 0x1_0000 == high;
    assert high < 0x1_0000 && high % 0x200 == mode;
  }

  /** Where the data of a member begins: behind the local header, its name and its extra field. */
  ghost function DataStart(bytes: Bytes, local: nat): nat
    requires local + 30 <= |bytes|
  {
    local + 30 + U16(bytes, local + 26) + U16(bytes, local + 28)
  }

  /** The data that a central header promises stands where its local header says, and is what it promises. */
  ghost predicate DataAt(c: Codec, bytes: Bytes, at: nat, data: Bytes)
    requires at + 46 <= |bytes|
  {
    var local, packed := U32(bytes, at + 42), U32(bytes, at + 20);
    && local + 30 <= |bytes| && U32(bytes, local) == 0x0403_4b50
    && DataStart(bytes, local) + packed <= |bytes|
    && (var payload := bytes[DataStart(bytes, local)..DataStart(bytes, local) + packed];
        if U16(bytes, at + 10) == 8 then c.inflate(payload) == Some(data) else data == payload)
    && |data| == U32(bytes, at + 24) && c.checksum(data) == U32(bytes, at + 16)
  }

  /** How long a central record is, by its own account. */
  ghost function RecordLength(bytes: Bytes, at: nat): nat
    requires at + 46 <= |bytes|
  {
    46 + U16(bytes, at + 28) + U16(bytes, at + 30) + U16(bytes, at + 32)
  }

  /** A central record that is all there, not encrypted, stored or deflated, and has a name that can be read. */
  ghost predicate RecordAt(c: Codec, bytes: Bytes, at: nat, name: Text) {
    && at + 46 <= |bytes| && U32(bytes, at) == 0x0201_4b50 && at + RecordLength(bytes, at) <= |bytes|
    && U16(bytes, at + 8) % 2 == 0 && U16(bytes, at + 10) in {0, 8}
    && c.utf8Decode(bytes[at + 46..at + 46 + U16(bytes, at + 28)]) == Some(name)
  }

  ghost predicate IsDirectory(name: Text) {
    name != [] && name[|name| - 1] == SLASH
  }

  /** A record of a directory: its path is safe and new, and it has no data. */
  ghost predicate ReadsDirectory(c: Codec, bytes: Bytes, at: nat, seen: set<Text>, m: Member) {
    exists name ::
      && RecordAt(c, bytes, at, name) && IsDirectory(name)
      && Safe(name[..|name| - 1]) && name[..|name| - 1] !in seen
      && m == Member(name[..|name| - 1], at + RecordLength(bytes, at), 0, None)
  }

  /** A record of a file: its path is safe and new, all files up to it fit the limit, and its data is there. */
  ghost predicate ReadsFile(c: Codec, bytes: Bytes, at: nat, seen: set<Text>, total: nat, m: Member) {
    exists name, data ::
      && RecordAt(c, bytes, at, name) && !IsDirectory(name) && Safe(name) && name !in seen
      && total + U32(bytes, at + 24) <= 0x2000_0000 && DataAt(c, bytes, at, data)
      && m == Member(name, at + RecordLength(bytes, at), |data|,
                     Some(Entry(name, data, UnixMode(U32(bytes, at + 38)))))
  }

  /** The reader takes a record exactly when it is that of a directory or a file, and makes of it what it says. */
  lemma MembersAreRead(c: Codec, bytes: Bytes, at: nat, seen: set<Text>, total: nat, m: Member)
    ensures ReadMember(c, bytes, at, seen, total) == Ok(m) <==>
            ReadsDirectory(c, bytes, at, seen, m) || ReadsFile(c, bytes, at, seen, total, m)
  {
    hide Safe, U16, U32, UnixMode, ReadData, DataAt;
    if ReadMember(c, bytes, at, seen, total) == Ok(m) {
      var h := ReadCentral(bytes, at).value;
      var name := c.utf8Decode(h.name).value;
      assert RecordAt(c, bytes, at, name);
      if !IsDirectory(name) {
        var data := m.entry.value.data;
        DataIsRead(c, bytes, at, data);
        assert ReadsFile(c, bytes, at, seen, total, m);
      }
    }
    if ReadsFile(c, bytes, at, seen, total, m) {
      var name, data :|
        && RecordAt(c, bytes, at, name) && !IsDirectory(name) && Safe(name) && name !in seen
        && total + U32(bytes, at + 24) <= 0x2000_0000 && DataAt(c, bytes, at, data)
        && m == Member(name, at + RecordLength(bytes, at), |data|,
                       Some(Entry(name, data, UnixMode(U32(bytes, at + 38)))));
      DataIsRead(c, bytes, at, data);
    }
  }

  lemma DataIsRead(c: Codec, bytes: Bytes, at: nat, data: Bytes)
    requires at + 46 <= |bytes|
    ensures var crc, packed, size := U32(bytes, at + 16), U32(bytes, at + 20), U32(bytes, at + 24);
            var r := ReadData(c, bytes, U16(bytes, at + 10) == 8, crc, packed, size, U32(bytes, at + 42));
            r == Ok(data) <==> DataAt(c, bytes, at, data)
  {
    hide U16, U32;
  }

  /** The last end record whose comment ends the file, and nothing else, tells where the directory is. */
  ghost predicate EndsAt(bytes: Bytes, o: nat) {
    o + 22 <= |bytes| && U32(bytes, o) == 0x0605_4b50 && o + 22 + U16(bytes, o + 20) == |bytes|
  }

  ghost predicate LastEnd(bytes: Bytes, o: nat) {
    EndsAt(bytes, o) && forall later: nat :: later > o ==> !EndsAt(bytes, later)
  }

  /** The end record describes this directory, on one disk and within the limits. */
  ghost predicate DescribesDirectory(bytes: Bytes, o: nat, d: Directory)
    requires o + 22 <= |bytes|
  {
    && U16(bytes, o + 4) == 0 && U16(bytes, o + 6) == 0 && U16(bytes, o + 8) == U16(bytes, o + 10) == d.count <= 10_000
    && U32(bytes, o + 12) == d.size < 0xffff_ffff && U32(bytes, o + 16) == d.offset < 0xffff_ffff
    && d.offset + d.size <= |bytes|
  }

  /** The reader finds a directory exactly when the last end record describes one. */
  lemma DirectoryIsFound(bytes: Bytes, d: Directory)
    ensures LocateDirectory(bytes) == Ok(d) <==>
            exists o: nat :: LastEnd(bytes, o) && DescribesDirectory(bytes, o, d)
  {
    hide U16, U32, LastEnd, DescribesDirectory;
    FieldsAreSmall(bytes);
    if |bytes| >= 22 {
      var found := SearchEocd(bytes, |bytes| - 22);
      LastIsFound(bytes);
      if found.Some? {
        EndIsRead(bytes, found.value, d);
      }
    } else {
      forall o: nat ensures !LastEnd(bytes, o) {
        NoEndInLess(bytes, o);
      }
    }
  }

  lemma NoEndInLess(bytes: Bytes, o: nat)
    requires |bytes| < 22
    ensures !LastEnd(bytes, o)
  {
  }

  lemma LastIsFound(bytes: Bytes)
    requires |bytes| >= 22
    ensures forall o: nat :: LastEnd(bytes, o) <==> SearchEocd(bytes, |bytes| - 22) == Some(o)
  {
    hide U16, U32;
    FieldsAreSmall(bytes);
    assert forall o: nat :: o + 22 <= |bytes| ==> (EocdAt(bytes, o) <==> EndsAt(bytes, o));
    var found := SearchEocd(bytes, |bytes| - 22);
    forall o: nat ensures LastEnd(bytes, o) <==> found == Some(o) {
      if found.Some? {
        assert EndsAt(bytes, found.value);
        assert forall later: nat :: later > found.value ==> !EndsAt(bytes, later);
      }
    }
  }

  lemma EndIsRead(bytes: Bytes, o: nat, d: Directory)
    requires o + 22 <= |bytes|
    ensures ReadEocd(bytes, o) == Ok(d) <==> DescribesDirectory(bytes, o, d)
  {
    hide U16, U32;
    FieldsAreSmall(bytes);
  }

  lemma FieldsAreSmall(bytes: Bytes)
    ensures forall o: nat :: o + 2 <= |bytes| ==> U16(bytes, o) < 0x1_0000
    ensures forall o: nat :: o + 4 <= |bytes| ==> U32(bytes, o) < 0x1_0000_0000
  {
  }
}
