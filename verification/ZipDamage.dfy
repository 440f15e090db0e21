/**
 What a ZIP archive does when it is damaged: whichever byte of whichever stored member is changed, the
 reader still finds the central directory, reads the members before the damaged one, and rejects that one by
 its checksum. So a damaged archive is never taken for a sound one, and nothing of it is extracted.
 */
module ZipDamage {
  import opened Prelude
  import opened ArchivePath
  import opened Layout
  import opened Zip
  import Crc32

  /** Whatever the reader accepts, it moves on to the next record; and it rejects record `bad`. */
  ghost predicate Stumbles(read: Reader, at: seq<nat>, bad: nat) {
    && bad < |at|
    && (forall seen, total :: read(at[bad], seen, total).Err?)
    && forall i, seen, total :: 0 <= i < bad && read(at[i], seen, total).Ok? ==>
       read(at[i], seen, total).value.next == at[i + 1]
  }

  lemma {:induction false} DirectoryRejected(
      read: Reader, at: seq<nat>, bad: nat, i: nat, left: nat, end: nat, seen: set<Text>, total: nat)
    requires Stumbles(read, at, bad) && i <= bad && bad - i < left
    ensures ReadDirectory(read, left, at[i], end, seen, total).Err?
    decreases bad - i
  {
    if i < bad && read(at[i], seen, total).Ok? {
      var m := read(at[i], seen, total).value;
      DirectoryRejected(read, at, bad, i + 1, left - 1, end, seen + {m.path}, total + m.size);
    }
  }

  lemma DamageChangesChecksum(c: Codec, data: Bytes, k: nat, b: byte)
    requires c.Standard() && k < |data| && b != data[k]
    ensures c.checksum(data[k := b]) != c.checksum(data)
  {
    var damaged := data[k := b];
    assert damaged == data[..k] + [b] + data[k + 1..];
    assert data == data[..k] + [data[k]] + data[k + 1..];
    Crc32.OneByteChangeIsDetected(data[..k], data[k], b, data[k + 1..]);
    Crc32.ChecksumInjective(damaged, data);
  }

  lemma DamagedData(c: Codec, stamp: Stamp, e: Entry, bytes: Bytes, at: nat, damaged: Bytes)
    requires |c.utf8(e.path)| < 0x1_0000 && |damaged| == |e.data| && c.checksum(damaged) != c.checksum(e.data)
    requires Placed(bytes, at, Concat(LocalFields(c, stamp, e, c.checksum(e.data))) + c.utf8(e.path) + damaged)
    ensures ReadData(c, bytes, false, c.checksum(e.data), |e.data|, |e.data|, at).Err?
  {
    LocalParts(bytes, at, LocalFields(c, stamp, e, c.checksum(e.data)), c.utf8(e.path), damaged);
  }

  /** Where byte `k` of the data of entry `i` stands in an archive that stores it as it is. */
  function DataOffset(c: Codec, stamp: Stamp, es: seq<Entry>, i: nat, k: nat): nat
    requires i < |es|
  {
    LocalOffset(c, stamp, es, i) + 30 + |c.utf8(es[i].path)| + k
  }

  lemma UpdateLocals(locals: Bytes, centrals: Bytes, count: nat, pos: nat, b: byte)
    requires pos < |locals|
    ensures pos < |Assemble(locals, centrals, count)|
    ensures Assemble(locals, centrals, count)[pos := b] == Assemble(locals[pos := b], centrals, count)
  {
  }

  /** A damaged stored member, in an otherwise unchanged local section. */
  lemma DamagedSections(ls: seq<Bytes>, i: nat, head: Bytes, data: Bytes, k: nat, b: byte, pos: nat)
    requires i < |ls| && ls[i] == head + data && k < |data| && pos == |Concat(ls[..i])| + |head| + k
    ensures pos < |Concat(ls)| && Placed(Concat(ls)[pos := b], |Concat(ls[..i])|, head + data[k := b])
  {
    FieldAt(ls, i);
    var o, whole := |Concat(ls[..i])|, Concat(ls);
    SliceOfUpdate(whole, o, |ls[i]|, pos, b);
    assert (head + data)[|head| + k := b] == head + data[k := b];
  }

  lemma PlacedInLocals(locals: Bytes, centrals: Bytes, count: nat, at: nat, chunk: Bytes)
    requires Placed(locals, at, chunk)
    ensures Placed(Assemble(locals, centrals, count), at, chunk)
  {
    ArchiveParts(locals, centrals, Eocd(count, |centrals|, |locals|));
    PlacedWithin(Assemble(locals, centrals, count), 0, locals, at, chunk);
  }

  lemma SliceOfUpdate(s: Bytes, o: nat, n: nat, pos: nat, b: byte)
    requires o <= pos < o + n <= |s|
    ensures s[pos := b][o..o + n] == s[o..o + n][pos - o := b]
  {
  }

  /** A record that the reader accepts leads it to the record after it. */
  lemma ReaderMovesOn(c: Codec, stamp: Stamp, e: Entry, offset: nat, bytes: Bytes, at: nat, seen: set<Text>, total: nat)
    requires c.Lossless() && Fits(c, e) && offset < 0x1_0000_0000
             && Placed(bytes, at, CentralRecord(c, stamp, e, offset))
    ensures var r := ReaderOf(c, bytes)(at, seen, total);
            r.Ok? ==> r.value.next == at + 46 + |c.utf8(e.path)|
  {
    CentralRead(c, stamp, e, offset, bytes, at);
  }

  lemma ReaderRejects(c: Codec, stamp: Stamp, e: Entry, offset: nat, bytes: Bytes, at: nat, seen: set<Text>, total: nat)
    requires c.Lossless() && Fits(c, e) && offset < 0x1_0000_0000
             && Placed(bytes, at, CentralRecord(c, stamp, e, offset))
    requires !Deflates(c, e.data) && ReadData(c, bytes, false, c.checksum(e.data), |e.data|, |e.data|, offset).Err?
    ensures ReaderOf(c, bytes)(at, seen, total).Err?
  {
    CentralRead(c, stamp, e, offset, bytes, at);
    SafeIsNotDirectory(e.path);
  }

  /** Every central record stands where these offsets say, whatever became of the local ones. */
  ghost predicate CentralsAt(c: Codec, stamp: Stamp, es: seq<Entry>, bytes: Bytes, local: seq<nat>, central: seq<nat>) {
    && |local| == |es| && |central| == |es| + 1
    && forall i :: 0 <= i < |es| ==> CentralAt(c, stamp, es[i], bytes, local[i], central[i], central[i + 1])
  }

  ghost predicate CentralAt(c: Codec, stamp: Stamp, e: Entry, bytes: Bytes, local: nat, central: nat, next: nat) {
    && local < 0xffff_ffff && next == central + 46 + |c.utf8(e.path)|
    && Placed(bytes, central, CentralRecord(c, stamp, e, local))
  }

  lemma ReaderMovesOnFrom(c: Codec, stamp: Stamp, e: Entry, bytes: Bytes, local: nat, central: nat, next: nat)
    requires c.Lossless() && Fits(c, e) && CentralAt(c, stamp, e, bytes, local, central, next)
    ensures forall seen, total :: ReaderOf(c, bytes)(central, seen, total).Ok? ==>
              ReaderOf(c, bytes)(central, seen, total).value.next == next
  {
    forall seen, total | ReaderOf(c, bytes)(central, seen, total).Ok?
      ensures ReaderOf(c, bytes)(central, seen, total).value.next == next
    {
      ReaderMovesOn(c, stamp, e, local, bytes, central, seen, total);
    }
  }

  lemma ReaderRejectsAt(c: Codec, stamp: Stamp, e: Entry, bytes: Bytes, local: nat, central: nat, next: nat)
    requires c.Lossless() && Fits(c, e) && CentralAt(c, stamp, e, bytes, local, central, next) && !Deflates(c, e.data)
    requires ReadData(c, bytes, false, c.checksum(e.data), |e.data|, |e.data|, local).Err?
    ensures forall seen, total :: ReaderOf(c, bytes)(central, seen, total).Err?
  {
    forall seen, total ensures ReaderOf(c, bytes)(central, seen, total).Err? {
      ReaderRejects(c, stamp, e, local, bytes, central, seen, total);
    }
  }

  /** With every central record in place, a reader stumbles over data it rejects. */
  lemma ReaderStumbles(c: Codec, stamp: Stamp, es: seq<Entry>, bytes: Bytes, local: seq<nat>, central: seq<nat>,
      bad: nat)
    requires c.Lossless() && CentralsAt(c, stamp, es, bytes, local, central) && Packable(c, es)
    requires bad < |es| && !Deflates(c, es[bad].data)
    requires ReadData(c, bytes, false, c.checksum(es[bad].data), |es[bad].data|, |es[bad].data|, local[bad]).Err?
    ensures Stumbles(ReaderOf(c, bytes), central, bad)
  {
    PackableFits(c, es, bad);
    ReaderRejectsAt(c, stamp, es[bad], bytes, local[bad], central[bad], central[bad + 1]);
    forall i | 0 <= i < bad
      ensures forall seen, total :: ReaderOf(c, bytes)(central[i], seen, total).Ok? ==>
                ReaderOf(c, bytes)(central[i], seen, total).value.next == central[i + 1]
    {
      PackableFits(c, es, i);
      ReaderMovesOnFrom(c, stamp, es[i], bytes, local[i], central[i], central[i + 1]);
    }
  }

  /** An archive whose local section was replaced by another of the same length. */
  function ArchiveWith(c: Codec, stamp: Stamp, es: seq<Entry>, locals: Bytes): Bytes {
    Assemble(locals, Concat(CentralRecords(c, stamp, es)), |es|)
  }

  lemma PackableFits(c: Codec, es: seq<Entry>, i: nat)
    requires Packable(c, es) && i < |es|
    ensures Fits(c, es[i])
  {
  }

  lemma CentralRecordAt(c: Codec, stamp: Stamp, es: seq<Entry>, i: nat)
    requires i < |es|
    ensures |CentralRecords(c, stamp, es)| == |es|
    ensures CentralRecords(c, stamp, es)[i] == CentralRecord(c, stamp, es[i], LocalOffset(c, stamp, es, i))
  {
  }

  lemma CentralSurvives(c: Codec, stamp: Stamp, es: seq<Entry>, locals: Bytes, i: nat)
    requires Packable(c, es) && i < |es| && |locals| == |Concat(LocalRecords(c, stamp, es))|
    ensures CentralAt(c, stamp, es[i], ArchiveWith(c, stamp, es, locals), LocalOffset(c, stamp, es, i),
                      CentralOffset(c, stamp, es, i), CentralOffset(c, stamp, es, i + 1))
  {
    hide Assemble, Packable, Concat, CentralRecord, CentralRecords, LocalRecords, LocalOffset, Placed;
    CentralRecordAt(c, stamp, es, i);
    var cs, at := CentralRecords(c, stamp, es), CentralOffset(c, stamp, es, i);
    assert at == |locals| + |Concat(cs[..i])|;
    assert LocalOffset(c, stamp, es, i) < 0xffff_ffff by {
      ArchiveIsSmall(c, stamp, es, i);
    }
    assert CentralOffset(c, stamp, es, i + 1) == at + 46 + |c.utf8(es[i].path)| by {
      CentralStep(c, stamp, es, i);
    }
    assert Placed(ArchiveWith(c, stamp, es, locals), at, cs[i]) by {
      CentralsPlaced(locals, cs, |es|, i);
    }
  }

  lemma CentralsSurvive(c: Codec, stamp: Stamp, es: seq<Entry>, locals: Bytes)
    requires Packable(c, es) && |locals| == |Concat(LocalRecords(c, stamp, es))|
    ensures CentralsAt(c, stamp, es, ArchiveWith(c, stamp, es, locals), LocalOffsets(c, stamp, es),
                       CentralOffsets(c, stamp, es))
  {
    forall i | 0 <= i < |es|
      ensures CentralAt(c, stamp, es[i], ArchiveWith(c, stamp, es, locals), LocalOffset(c, stamp, es, i),
                        CentralOffset(c, stamp, es, i), CentralOffset(c, stamp, es, i + 1))
    {
      CentralSurvives(c, stamp, es, locals, i);
    }
  }

  lemma DecodedByRejects(read: Reader, at: seq<nat>, bad: nat, directory: Result<Directory, ZipError>)
    requires Stumbles(read, at, bad) && directory.Ok? && directory.value.offset == at[0] && bad < directory.value.count
    ensures DecodedBy(read, directory).Err?
  {
    var d := directory.value;
    DirectoryRejected(read, at, bad, 0, d.count, d.offset + d.size, {}, 0);
  }

  /** The fixed part and the name of a local record. */
  function LocalHead(c: Codec, stamp: Stamp, e: Entry): Bytes {
    Concat(LocalFields(c, stamp, e, c.checksum(e.data))) + c.utf8(e.path)
  }

  lemma StoredRecord(c: Codec, stamp: Stamp, e: Entry)
    requires !Deflates(c, e.data)
    ensures LocalRecord(c, stamp, e) == LocalHead(c, stamp, e) + e.data
    ensures |LocalHead(c, stamp, e)| == 30 + |c.utf8(e.path)|
  {
    ConcatLength(LocalFields(c, stamp, e, c.checksum(e.data)), LOCAL_OFFSETS);
  }

  /** Changing a byte of a stored member changes the local section and nothing else. */
  lemma DamagedArchive(c: Codec, stamp: Stamp, es: seq<Entry>, i: nat, k: nat, b: byte, head: Bytes)
    returns (locals: Bytes)
    requires i < |es| && k < |es[i].data| && |head| == 30 + |c.utf8(es[i].path)|
    requires LocalRecord(c, stamp, es[i]) == head + es[i].data
    ensures |locals| == |Concat(LocalRecords(c, stamp, es))|
    ensures DataOffset(c, stamp, es, i, k) < |Archive(c, stamp, es)|
    ensures Archive(c, stamp, es)[DataOffset(c, stamp, es, i, k) := b] == ArchiveWith(c, stamp, es, locals)
    ensures Placed(ArchiveWith(c, stamp, es, locals), LocalOffset(c, stamp, es, i), head + es[i].data[k := b])
  {
    var ls, centrals := LocalRecords(c, stamp, es), Concat(CentralRecords(c, stamp, es));
    var pos := DataOffset(c, stamp, es, i, k);
    DamagedSections(ls, i, head, es[i].data, k, b, pos);
    UpdateLocals(Concat(ls), centrals, |es|, pos, b);
    locals := Concat(ls)[pos := b];
    PlacedInLocals(locals, centrals, |es|, LocalOffset(c, stamp, es, i), head + es[i].data[k := b]);
  }

  lemma DamagedIsRejected(c: Codec, stamp: Stamp, es: seq<Entry>, i: nat, locals: Bytes, damaged: Bytes)
    requires c.Lossless() && Packable(c, es) && i < |es| && !Deflates(c, es[i].data)
    requires |locals| == |Concat(LocalRecords(c, stamp, es))|
    requires |damaged| == |es[i].data| && c.checksum(damaged) != c.checksum(es[i].data)
    requires Placed(ArchiveWith(c, stamp, es, locals), LocalOffset(c, stamp, es, i),
                    LocalHead(c, stamp, es[i]) + damaged)
    ensures Decoded(c, ArchiveWith(c, stamp, es, locals)).Err?
  {
    var bytes, at := ArchiveWith(c, stamp, es, locals), CentralOffsets(c, stamp, es);
    assert es[i] in es;
    DamagedData(c, stamp, es[i], bytes, LocalOffset(c, stamp, es, i), damaged);
    CentralsSurvive(c, stamp, es, locals);
    ReaderStumbles(c, stamp, es, bytes, LocalOffsets(c, stamp, es), at, i);
    DamagedIsLocated(c, stamp, es, locals);
    DecodedByRejects(ReaderOf(c, bytes), at, i, LocateDirectory(bytes));
  }

  lemma DamagedIsLocated(c: Codec, stamp: Stamp, es: seq<Entry>, locals: Bytes)
    requires Packable(c, es) && |locals| == |Concat(LocalRecords(c, stamp, es))|
    ensures var directory := LocateDirectory(ArchiveWith(c, stamp, es, locals));
            directory.Ok? && directory.value.count == |es| && directory.value.offset == CentralOffset(c, stamp, es, 0)
  {
    ArchiveIsSmall(c, stamp, es, 0);
    DirectoryLocated(locals, Concat(CentralRecords(c, stamp, es)), |es|);
    OffsetEnds(c, stamp, es);
  }

  /** An archive in which one byte of a stored member was changed is never accepted. */
  lemma DamageIsRejected(c: Codec, stamp: Stamp, es: seq<Entry>, i: nat, k: nat, b: byte)
    requires c.Lossless() && c.Standard() && Packable(c, es)
    requires i < |es| && !Deflates(c, es[i].data) && k < |es[i].data| && b != es[i].data[k]
    ensures DataOffset(c, stamp, es, i, k) < |Archive(c, stamp, es)|
    ensures Decoded(c, Archive(c, stamp, es)[DataOffset(c, stamp, es, i, k) := b]).Err?
  {
    StoredRecord(c, stamp, es[i]);
    var locals := DamagedArchive(c, stamp, es, i, k, b, LocalHead(c, stamp, es[i]));
    DamageChangesChecksum(c, es[i].data, k, b);
    DamagedIsRejected(c, stamp, es, i, locals, es[i].data[k := b]);
  }
}
