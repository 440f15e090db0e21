/**
 The USTAR writer and the lister of its archives.

 The layout is the "ustar Interchange Format" of the POSIX.1 pax utility. Gzip is foreign code around it and
 appears only as a pair of inverse functions.
 */
module Ustar {
  import opened Prelude
  import opened ArchivePath
  import opened Strings
  import opened Layout
  import Octal
  import Ordering

  const BLOCK := 512
  const SPACE: byte := 0x20
  const REGULAR_FILE: byte := 0x30
  /** Eleven octal digits, all sevens. */
  const MAX_MTIME := 0x1_ffff_ffff

  datatype TarError = UnsafePath | NameTooLong | OctalOverflow | InvalidSize | TruncatedEntry

  // ----- fields

  function Zeros(n: nat): (z: Bytes)
    ensures |z| == n && forall i :: 0 <= i < n ==> z[i] == 0
  {
    seq(n, _ => 0)
  }

  /** `Buffer.from(text, "ascii")`: the low byte of each code unit. */
  function Latin(text: Text): (b: Bytes)
    ensures |b| == |text| && forall i :: 0 <= i < |b| ==> b[i] == text[i] % 256
  {
    seq(|text|, i requires 0 <= i < |text| => text[i] % 256)
  }

  /** A string field keeps at most all but one of its bytes; the rest is NUL. */
  function StringField(text: Text, len: nat): (f: Bytes)
    requires len > 0
    ensures |f| == len
  {
    var kept := if |text| < len then |text| else len - 1;
    Latin(text)[..kept] + Zeros(len - kept)
  }

  /** An octal field is digits and at least one NUL. */
  function OctalField(n: nat, len: nat): (f: Bytes)
    requires |Octal.Digits(n)| < len
    ensures |f| == len
  {
    Octal.Digits(n) + Zeros(len - |Octal.Digits(n)|)
  }

  predicate OctalFits(n: nat, len: nat) {
    |Octal.Digits(n)| < len
  }

  /** The bitwise and of one octal digit with 5. */
  function AndFive(d: nat): (r: nat)
    ensures r <= 5
  {
    d % 2 + 4 * (d / 4 % 2)
  }

  /** `0o555 & mode`. */
  function ReadableMode(mode: nat): (r: nat)
    ensures r <= 0x16d
  {
    AndFive(mode % 8) + 8 * AndFive(mode / 8 % 8) + 64 * AndFive(mode / 64 % 8)
  }

  /** `clampMtime`; a value that is not finite comes in as None. */
  function ClampMtime(seconds: Option<real>): (r: nat)
    ensures r <= MAX_MTIME
    ensures seconds.Some? && 0.0 <= seconds.value <= MAX_MTIME as real ==>
              r as real <= seconds.value < (r + 1) as real
    ensures seconds.Some? && seconds.value > MAX_MTIME as real ==> r == MAX_MTIME
    ensures seconds.None? || seconds.value < 0.0 ==> r == 0
  {
    if seconds.None? || seconds.value < 0.0 then 0
    else if seconds.value > MAX_MTIME as real then MAX_MTIME
    else seconds.value.Floor
  }

  // ----- the header

  datatype Names = Names(name: Text, prefix: Text)

  /** `text.indexOf(unit, from)`. */
  function IndexFrom(text: Text, unit: CodeUnit, from: nat): (r: Option<nat>)
    ensures r.Some? ==> from <= r.value < |text| && text[r.value] == unit
    ensures forall j :: from <= j < (if r.Some? then r.value else |text|) ==> text[j] != unit
    decreases |text| - from
  {
    if from >= |text| then None
    else if text[from] == unit then Some(from)
    else IndexFrom(text, unit, from + 1)
  }

  /** A path of more than 100 units is split at its first separator within the last hundred. */
  function SplitNames(path: Text): Option<Names> {
    if |path| <= 100 then Some(Names(path, []))
    else
      match IndexFrom(path, SLASH, |path| - 100)
      case None => None
      case Some(at) =>
        var prefix, name := path[..at], path[at + 1..];
        if |name| > 100 || |prefix| > 155 then None else Some(Names(name, prefix))
  }

  /** A path is stored exactly when it is short or a separator leaves at most 155 units before it and 99 after. */
  lemma SplitsIff(path: Text)
    ensures SplitNames(path).Some? <==>
            |path| <= 100 || exists at :: 0 <= at < |path| && path[at] == SLASH && at <= 155 && |path| - at <= 100
  {
  }

  const OFFSETS: seq<nat> :=
    [0, 100, 108, 116, 124, 136, 148, 156, 157, 257, 263, 265, 297, 329, 337, 345, 500, 512]

  const SPACES: Bytes := [SPACE, SPACE, SPACE, SPACE, SPACE, SPACE, SPACE, SPACE]

  const USTAR: Text := [0x75, 0x73, 0x74, 0x61, 0x72]

  function HeaderFields(names: Names, mode: nat, size: nat, mtime: nat, checksum: Bytes): (fs: seq<Bytes>)
    requires OctalFits(ReadableMode(mode), 8) && OctalFits(0, 8) && OctalFits(size, 12) && OctalFits(mtime, 12)
    requires |checksum| == 8
    ensures OffsetsOf(fs, OFFSETS)
  {
    [StringField(names.name, 100), OctalField(ReadableMode(mode), 8), OctalField(0, 8), OctalField(0, 8),
     OctalField(size, 12), OctalField(mtime, 12), checksum, [REGULAR_FILE], StringField([], 100),
     StringField(USTAR, 6), [0x30, 0x30], StringField([], 32), StringField([], 32), OctalField(0, 8), OctalField(0, 8),
     StringField(names.prefix, 155), Zeros(12)]
  }

  function Sum(b: Bytes): nat {
    if b == [] then 0 else Sum(b[..|b| - 1]) + b[|b| - 1] as int
  }

  /** Nothing sums to 0, one byte to itself, and two pieces to the sum of theirs. */
  lemma {:induction false} SumAdds(a: Bytes, b: Bytes, x: byte)
    ensures Sum([]) == 0 && Sum([x]) == x as int && Sum(a + b) == Sum(a) + Sum(b)
    decreases |b|
  {
    assert [x][..0] == [];
    if b == [] {
      assert a + b == a;
    } else {
      var front := b[..|b| - 1];
      SumAdds(a, front, x);
      assert (a + b)[..|a + b| - 1] == a + front;
    }
  }

  lemma {:induction false} SumBound(b: Bytes)
    ensures Sum(b) <= 255 * |b|
  {
    if b != [] {
      SumBound(b[..|b| - 1]);
    }
  }

  /** Digits, a NUL and spaces. */
  function ChecksumField(sum: nat): (f: Bytes)
    requires OctalFits(sum, 8)
    ensures |f| == 8
  {
    Octal.Digits(sum) + [0] + SPACES[|Octal.Digits(sum)| + 1..]
  }

  /** A sum of header bytes needs at most six digits. */
  lemma ChecksumFits(b: Bytes)
    requires |b| == BLOCK
    ensures OctalFits(Sum(b), 7) && OctalFits(Sum(b), 8)
  {
    SumBound(b);
    Octal.DigitsFit(Sum(b), 6);
    assert Octal.Pow8(6) == 0x40000 by {
      assert Octal.Pow8(2) == 64;
      assert Octal.Pow8(4) == 0x1000;
    }
  }

  lemma FieldsFit(mode: nat, size: nat, mtime: nat)
    ensures OctalFits(0, 8) && OctalFits(ReadableMode(mode), 8)
    ensures OctalFits(size, 12) <==> size < Octal.Pow8(11)
    ensures mtime <= MAX_MTIME ==> OctalFits(mtime, 12)
  {
    Octal.DigitsFit(0, 7);
    Octal.DigitsFit(ReadableMode(mode), 7);
    Octal.DigitsFit(size, 11);
    Octal.DigitsFit(mtime, 11);
    PowersOfEight();
  }

  lemma PowersOfEight()
    ensures Octal.Pow8(7) == 0x20_0000 && Octal.Pow8(11) == MAX_MTIME + 1
  {
  }

  /** Everything an entry needs for its header fields to hold what they must. */
  predicate HeaderFits(size: nat, mtime: nat) {
    OctalFits(size, 12) && OctalFits(mtime, 12)
  }

  /** The header with its checksum field blank, and the header itself. */
  function BlankHeader(names: Names, mode: nat, size: nat, mtime: nat): (h: Bytes)
    requires HeaderFits(size, mtime)
    ensures |h| == BLOCK
  {
    FieldsFit(mode, size, mtime);
    ConcatLength(HeaderFields(names, mode, size, mtime, SPACES), OFFSETS);
    Concat(HeaderFields(names, mode, size, mtime, SPACES))
  }

  function Header(names: Names, mode: nat, size: nat, mtime: nat): (h: Bytes)
    requires HeaderFits(size, mtime)
    ensures |h| == BLOCK
  {
    FieldsFit(mode, size, mtime);
    var blank := BlankHeader(names, mode, size, mtime);
    ChecksumFits(blank);
    ConcatLength(HeaderFields(names, mode, size, mtime, ChecksumField(Sum(blank))), OFFSETS);
    Concat(HeaderFields(names, mode, size, mtime, ChecksumField(Sum(blank))))
  }

  function HeaderOf(e: Entry, mtime: nat): (r: Result<Bytes, TarError>)
    ensures r.Ok? ==> |r.value| == BLOCK
  {
    if !Safe(e.path) then Err(UnsafePath)
    else
      match SplitNames(e.path)
      case None => Err(NameTooLong)
      case Some(names) =>
        if HeaderFits(|e.data|, mtime) then Ok(Header(names, e.mode, |e.data|, mtime))
        else Err(OctalOverflow)
  }

  /** For a safe path that splits and a clamped time, only a size of 8^11 or more fails. */
  lemma OnlySizeOverflows(e: Entry, seconds: Option<real>)
    ensures HeaderOf(e, ClampMtime(seconds)).Ok? <==>
              Safe(e.path) && SplitNames(e.path).Some? && |e.data| < 0x2_0000_0000
    ensures HeaderOf(e, ClampMtime(seconds)) == Err(OctalOverflow) <==>
              Safe(e.path) && SplitNames(e.path).Some? && |e.data| >= 0x2_0000_0000
  {
    FieldsFit(e.mode, |e.data|, ClampMtime(seconds));
    PowersOfEight();
  }

  lemma HeaderFromBlank(names: Names, mode: nat, size: nat, mtime: nat)
    requires HeaderFits(size, mtime)
    ensures var blank := BlankHeader(names, mode, size, mtime);
            && OctalFits(Sum(blank), 8) && blank[148..156] == SPACES
            && Header(names, mode, size, mtime) == blank[..148] + ChecksumField(Sum(blank)) + blank[156..]
  {
    hide Sum, OctalFits, ChecksumField;
    FieldsFit(mode, size, mtime);
    var blank := BlankHeader(names, mode, size, mtime);
    ChecksumFits(blank);
    var fs := HeaderFields(names, mode, size, mtime, SPACES);
    FieldPlaced(fs, OFFSETS, 6);
    ReplaceField(fs, OFFSETS, 6, ChecksumField(Sum(blank)));
    assert fs[6 := ChecksumField(Sum(blank))] == HeaderFields(names, mode, size, mtime, ChecksumField(Sum(blank)));
  }

  /** Build one header in place: fields, then the sum of all bytes, then the checksum field. */
  method WriteHeader(e: Entry, mtime: nat) returns (r: Result<Bytes, TarError>)
    ensures r == HeaderOf(e, mtime)
  {
    if !Safe(e.path) {
      return Err(UnsafePath);
    }
    var split := SplitNames(e.path);
    if split.None? {
      return Err(NameTooLong);
    }
    if !HeaderFits(|e.data|, mtime) {
      return Err(OctalOverflow);
    }
    FieldsFit(e.mode, |e.data|, mtime);
    ghost var blank := BlankHeader(split.value, e.mode, |e.data|, mtime);
    var header := WriteFields(HeaderFields(split.value, e.mode, |e.data|, mtime, SPACES), OFFSETS);
    var checksum := SumOf(header);
    HeaderFromBlank(split.value, e.mode, |e.data|, mtime);
    ChecksumFits(blank);
    WriteBytes(header, 148, Octal.Digits(checksum) + [0]);
    header[155] := SPACE;
    PatchChecksum(blank, Octal.Digits(checksum) + [0]);
    return Ok(header[..]);
  }

  method SumOf(header: array<byte>) returns (sum: nat)
    ensures sum == Sum(header[..])
  {
    sum := 0;
    for i := 0 to header.Length
      invariant sum == Sum(header[..i])
    {
      assert header[..i + 1][..i] == header[..i];
      sum := sum + header[i] as int;
    }
    assert header[..header.Length] == header[..];
  }

  /** Overwriting the front of eight spaces leaves the remaining spaces. */
  lemma PatchChecksum(blank: Bytes, digits: Bytes)
    requires |blank| == BLOCK && blank[148..156] == SPACES && |digits| < 8
    ensures (blank[..148] + digits + blank[148 + |digits|..])[155 := SPACE] ==
            blank[..148] + (digits + SPACES[|digits|..]) + blank[156..]
  {
  }

  // ----- the archive

  function BlocksFor(size: nat): nat {
    (size + BLOCK - 1) / BLOCK
  }

  function Padded(data: Bytes): (p: Bytes)
    ensures |p| == BLOCK * BlocksFor(|data|)
    ensures |p| % BLOCK == 0 && |data| <= |p| < |data| + BLOCK && data <= p
    ensures forall i :: |data| <= i < |p| ==> p[i] == 0
  {
    data + Zeros(BLOCK * BlocksFor(|data|) - |data|)
  }

  ghost predicate Encodable(es: seq<Entry>, mtime: nat) {
    forall i :: 0 <= i < |es| ==> HeaderOf(es[i], mtime).Ok?
  }

  function HeadersOf(es: seq<Entry>, mtime: nat): seq<Bytes>
    requires Encodable(es, mtime)
  {
    seq(|es|, i requires 0 <= i < |es| => HeaderOf(es[i], mtime).value)
  }

  function DataOf(es: seq<Entry>): seq<Bytes> {
    seq(|es|, i requires 0 <= i < |es| => es[i].data)
  }

  function Records(headers: seq<Bytes>, data: seq<Bytes>): seq<Bytes>
    requires |headers| == |data|
  {
    seq(|headers|, i requires 0 <= i < |headers| => headers[i] + Padded(data[i]))
  }

  /** Header and padded data of each entry, then two zero blocks. */
  function Archive(es: seq<Entry>, mtime: nat): Bytes
    requires Encodable(es, mtime)
  {
    Concat(Records(HeadersOf(es, mtime), DataOf(es))) + Zeros(2 * BLOCK)
  }

  /** The writer's loop: it fails on the first header that fails. */
  method Encode(es: seq<Entry>, mtime: nat) returns (r: Option<Bytes>)
    ensures r.Some? <==> Encodable(es, mtime)
    ensures r.Some? ==> r.value == Archive(es, mtime)
  {
    hide HeaderOf;
    var bytes: Bytes := [];
    ghost var headers: seq<Bytes> := [];
    ghost var data: seq<Bytes> := [];
    for i := 0 to |es|
      invariant |headers| == |data| == i && bytes == Concat(Records(headers, data))
      invariant forall j :: 0 <= j < i ==> HeaderOf(es[j], mtime) == Ok(headers[j])
      invariant forall j :: 0 <= j < i ==> data[j] == es[j].data
    {
      var header := WriteHeader(es[i], mtime);
      if header.Err? {
        return None;
      }
      AppendRecord(headers, data, header.value, es[i].data);
      headers, data := headers + [header.value], data + [es[i].data];
      bytes := bytes + (header.value + Padded(es[i].data));
    }
    AllHeaders(headers, es, mtime);
    assert data == DataOf(es);
    r := Some(bytes + Zeros(2 * BLOCK));
  }

  lemma AppendRecord(headers: seq<Bytes>, data: seq<Bytes>, header: Bytes, d: Bytes)
    requires |headers| == |data|
    ensures Concat(Records(headers + [header], data + [d])) == Concat(Records(headers, data)) + (header + Padded(d))
  {
    assert Records(headers + [header], data + [d]) == Records(headers, data) + [header + Padded(d)];
    ConcatAppend(Records(headers, data), header + Padded(d));
  }

  lemma AllHeaders(headers: seq<Bytes>, es: seq<Entry>, mtime: nat)
    requires |headers| == |es| && forall j :: 0 <= j < |es| ==> HeaderOf(es[j], mtime) == Ok(headers[j])
    ensures Encodable(es, mtime) && headers == HeadersOf(es, mtime)
  {
  }

  // ----- the lister

  /** Bytes up to the first NUL. */
  function UpToNul(field: Bytes): (s: Bytes)
    ensures |s| <= |field| && s == field[..|s|]
    ensures forall i :: 0 <= i < |s| ==> s[i] != 0
    ensures |s| < |field| ==> field[|s|] == 0
  {
    if field == [] || field[0] == 0 then [] else [field[0]] + UpToNul(field[1..])
  }

  /** `toString("ascii")`: seven bits of each byte. */
  function Ascii(b: Bytes): (text: Text)
    ensures |text| == |b| && forall i :: 0 <= i < |b| ==> text[i] == b[i] % 128
  {
    seq(|b|, i requires 0 <= i < |b| => b[i] % 128)
  }

  function ReadString(field: Bytes): Text {
    Ascii(UpToNul(field))
  }

  predicate IsBlank(unit: CodeUnit) {
    unit == 0x20 || 0x09 <= unit <= 0x0d
  }

  /** `text.trim()` on seven-bit text. */
  function Trim(text: Text): Text
    decreases |text|
  {
    if text == [] then []
    else if IsBlank(text[0]) then Trim(text[1..])
    else if IsBlank(text[|text| - 1]) then Trim(text[..|text| - 1])
    else text
  }

  /** The longest prefix of octal digits. */
  function OctalPrefix(text: Text): (s: Bytes)
    ensures forall i :: 0 <= i < |s| ==> Octal.IsDigit(s[i])
  {
    if text == [] || !(0x30 <= text[0] < 0x38) then [] else [text[0]] + OctalPrefix(text[1..])
  }

  /** `Number.parseInt(text, 8)`; None is NaN. */
  function ParseInt8(text: Text): Option<int> {
    var signed := text != [] && (text[0] == 0x2b || text[0] == 0x2d);
    var digits := OctalPrefix(if signed then text[1..] else text);
    if digits == [] then None
    else Some(if signed && text[0] == 0x2d then 0 - Octal.Value(digits) as int else Octal.Value(digits) as int)
  }

  /** The size a header states; None if it is not a number of bytes. */
  function ReadSize(field: Bytes): Option<nat> {
    var raw := Trim(ReadString(field));
    if raw == [] then Some(0)
    else
      match ParseInt8(raw)
      case None => None
      case Some(n) => if 0 <= n <= 0x1f_ffff_ffff_ffff then Some(n) else None
  }

  function HeaderPath(header: Bytes): Text
    requires |header| == BLOCK
  {
    var name, prefix := ReadString(header[0..100]), ReadString(header[345..500]);
    if prefix == [] then name else prefix + [SLASH] + name
  }

  predicate AllZero(header: Bytes) {
    forall i :: 0 <= i < |header| ==> header[i] == 0
  }

  /** What one header says: path and size, whether it is a regular file, and where the next one is. */
  datatype Member = Member(path: Text, regular: bool, size: nat, next: nat)

  function ReadHeader(tar: Bytes, offset: nat): (r: Result<Member, TarError>)
    requires offset + BLOCK <= |tar|
    ensures r.Ok? ==> r.value.next > offset && Safe(r.value.path) && offset + BLOCK + r.value.size <= |tar|
  {
    var header := tar[offset..offset + BLOCK];
    var path := HeaderPath(header);
    if !Safe(path) then Err(UnsafePath)
    else
      match ReadSize(header[124..136])
      case None => Err(InvalidSize)
      case Some(size) =>
        if offset + BLOCK + size > |tar| then Err(TruncatedEntry)
        else
          var regular := header[156] == 0 || header[156] == REGULAR_FILE;
          Ok(Member(path, regular, size, offset + BLOCK + BLOCK * BlocksFor(size)))
  }

  function PathsOf(m: Member): seq<Text> {
    if m.regular then [m.path] else []
  }

  /** The regular files listed from `offset` on. */
  function Listed(tar: Bytes, offset: nat): Result<seq<Text>, TarError>
    decreases |tar| - offset
  {
    if offset + BLOCK > |tar| || AllZero(tar[offset..offset + BLOCK]) then Ok([])
    else
      match ReadHeader(tar, offset)
      case Err(e) => Err(e)
      case Ok(m) => Prepend(PathsOf(m), Listed(tar, m.next))
  }

  method List(tar: Bytes) returns (r: Result<seq<Text>, TarError>)
    ensures r == Listed(tar, 0)
  {
    var paths: seq<Text>, offset: nat := [], 0;
    assert Listed(tar, 0).Ok? ==> [] + Listed(tar, 0).value == Listed(tar, 0).value;
    while offset + BLOCK <= |tar|
      invariant Listed(tar, 0) == Prepend(paths, Listed(tar, offset))
      decreases |tar| - offset
    {
      if AllZero(tar[offset..offset + BLOCK]) {
        break;
      }
      var member := ReadHeader(tar, offset);
      if member.Err? {
        return Err(member.error);
      }
      var m := member.value;
      PrependTwice(paths, PathsOf(m), Listed(tar, m.next));
      paths, offset := paths + PathsOf(m), m.next;
    }
    assert paths + [] == paths;
    return Ok(paths);
  }

  // ----- what the headers describe

  /** A regular file of an archive: its path, and the bytes that follow its header. */
  datatype Held = Held(path: Text, data: Bytes)

  function HeldBy(tar: Bytes, offset: nat, m: Member): seq<Held>
    requires offset + BLOCK + m.size <= |tar|
  {
    if m.regular then [Held(m.path, tar[offset + BLOCK..offset + BLOCK + m.size])] else []
  }

  /** The regular files from `offset` on, each with the bytes that its header says are its own. */
  function Contents(tar: Bytes, offset: nat): Result<seq<Held>, TarError>
    decreases |tar| - offset
  {
    if offset + BLOCK > |tar| || AllZero(tar[offset..offset + BLOCK]) then Ok([])
    else
      match ReadHeader(tar, offset)
      case Err(e) => Err(e)
      case Ok(m) => Prepend(HeldBy(tar, offset, m), Contents(tar, m.next))
  }

  function PathsHeld(hs: seq<Held>): seq<Text> {
    seq(|hs|, i requires 0 <= i < |hs| => hs[i].path)
  }

  /** The listing is the paths of the contents, whatever the bytes. */
  lemma {:induction false} ListedIsContents(tar: Bytes, offset: nat)
    ensures Listed(tar, offset) ==
            match Contents(tar, offset) case Err(e) => Err(e) case Ok(hs) => Ok(PathsHeld(hs))
    decreases |tar| - offset
  {
    hide ReadHeader;
    assert PathsHeld([]) == [];
    if offset + BLOCK <= |tar| && !AllZero(tar[offset..offset + BLOCK]) && ReadHeader(tar, offset).Ok? {
      var m := ReadHeader(tar, offset).value;
      ListedIsContents(tar, m.next);
      if Contents(tar, m.next).Ok? {
        var held, rest := HeldBy(tar, offset, m), Contents(tar, m.next).value;
        assert PathsHeld(held + rest) == PathsOf(m) + PathsHeld(rest);
      }
    }
  }

  // ----- reading fields back

  predicate IsAscii(text: Text) {
    forall i :: 0 <= i < |text| ==> text[i] < 128
  }

  /** What a string field gives back of what was put into it. */
  function Kept(text: Text, len: nat): Text
    requires len > 0
  {
    ReadString(StringField(text, len))
  }

  lemma {:induction false} UpToNulStops(field: Bytes, k: nat)
    requires k < |field| && field[k] == 0
    ensures |UpToNul(field)| <= k
  {
  }

  lemma {:induction false} UpToNulOf(body: Bytes, tail: Bytes)
    requires 0 !in body && tail != [] && tail[0] == 0
    ensures UpToNul(body + tail) == body
  {
    if body == [] {
      assert body + tail == tail;
    } else {
      UpToNulOf(body[1..], tail);
      assert (body + tail)[1..] == body[1..] + tail;
      assert body == [body[0]] + body[1..];
    }
  }

  /** A field gives back seven-bit text, shorter than the field and no longer than what went in. */
  lemma KeptBounds(text: Text, len: nat)
    requires len > 0
    ensures IsAscii(Kept(text, len)) && |Kept(text, len)| <= |text| && |Kept(text, len)| < len
  {
    UpToNulStops(StringField(text, len), if |text| < len then |text| else len - 1);
  }

  /** Text without NULs that leaves room for the terminator comes back as it was. */
  lemma KeptWhole(text: Text, len: nat)
    requires |text| < len && IsAscii(text) && NUL !in text
    ensures Kept(text, len) == text
  {
    var body := Latin(text);
    assert body[..|text|] == body;
    assert forall i :: 0 <= i < |body| ==> body[i] == text[i];
    UpToNulOf(body, Zeros(len - |text|));
    assert Ascii(body) == text;
  }

  lemma DigitsHaveNoNul(n: nat)
    ensures 0 !in Octal.Digits(n)
  {
  }

  lemma {:induction false} OctalPrefixWhole(digits: Bytes)
    requires forall i :: 0 <= i < |digits| ==> Octal.IsDigit(digits[i])
    ensures OctalPrefix(Ascii(digits)) == digits
  {
    if digits != [] {
      OctalPrefixWhole(digits[1..]);
      assert Ascii(digits)[1..] == Ascii(digits[1..]);
      assert Octal.IsDigit(digits[0]);
      assert digits == [digits[0]] + digits[1..];
    }
  }

  lemma TrimWhole(text: Text)
    requires text != [] && !IsBlank(text[0]) && !IsBlank(text[|text| - 1])
    ensures Trim(text) == text
  {
  }

  lemma ParseDigits(text: Text, digits: Bytes)
    requires text != [] && text[0] != 0x2b && text[0] != 0x2d && OctalPrefix(text) == digits && digits != []
    ensures ParseInt8(text) == Some(Octal.Value(digits))
  {
  }

  lemma FirstAndLast(digits: Bytes)
    requires digits != [] && forall i :: 0 <= i < |digits| ==> Octal.IsDigit(digits[i])
    ensures var text := Ascii(digits);
            text[0] == digits[0] && 0x30 <= text[0] < 0x38 && 0x30 <= text[|text| - 1] < 0x38
  {
  }

  lemma DigitsParse(digits: Bytes)
    requires digits != [] && forall i :: 0 <= i < |digits| ==> Octal.IsDigit(digits[i])
    ensures Trim(Ascii(digits)) == Ascii(digits) && ParseInt8(Ascii(digits)) == Some(Octal.Value(digits))
  {
    hide ParseInt8;
    hide Trim;
    hide OctalPrefix;
    FirstAndLast(digits);
    TrimWhole(Ascii(digits));
    OctalPrefixWhole(digits);
    ParseDigits(Ascii(digits), digits);
  }

  /** A size field reads back as the size. */
  lemma SizeRead(n: nat)
    requires OctalFits(n, 12)
    ensures ReadSize(OctalField(n, 12)) == Some(n)
  {
    var digits := Octal.Digits(n);
    DigitsHaveNoNul(n);
    UpToNulOf(digits, Zeros(12 - |digits|));
    DigitsParse(digits);
    Octal.ValueOfDigits(n);
    Octal.DigitsFit(n, 11);
    PowersOfEight();
  }

  /**
   The checksum field of a header holds the sum of the header's bytes with that field
   taken as eight spaces.
   */
  lemma ChecksumHolds(e: Entry, mtime: nat)
    requires HeaderOf(e, mtime).Ok?
    ensures var h := HeaderOf(e, mtime).value;
            && UpToNul(h[148..156]) == Octal.Digits(Sum(h[..148] + seq(8, _ => 0x20) + h[156..]))
            && h[148..156][7] == 0x20
  {
    hide BlankHeader;
    var names := SplitNames(e.path).value;
    HeaderFromBlank(names, e.mode, |e.data|, mtime);
    var blank := BlankHeader(names, e.mode, |e.data|, mtime);
    ThreeSlices(blank[..148], ChecksumField(Sum(blank)), blank[156..]);
    assert blank == blank[..148] + blank[148..156] + blank[156..];
    assert SPACES == seq(8, _ => 0x20);
    ChecksumFits(blank);
    ChecksumFieldRead(Sum(blank));
  }

  lemma ThreeSlices(a: Bytes, b: Bytes, c: Bytes)
    ensures var s := a + b + c;
            s[..|a|] == a && s[|a|..|a| + |b|] == b && s[|a| + |b|..] == c
  {
  }

  lemma ChecksumFieldRead(sum: nat)
    requires OctalFits(sum, 8)
    ensures UpToNul(ChecksumField(sum)) == Octal.Digits(sum)
    ensures OctalFits(sum, 7) ==> ChecksumField(sum)[7] == 0x20
  {
    var digits := Octal.Digits(sum);
    DigitsHaveNoNul(sum);
    UpToNulOf(digits, [0] + SPACES[|digits| + 1..]);
    assert ChecksumField(sum) == digits + ([0] + SPACES[|digits| + 1..]);
  }

  // ----- the path a header keeps

  /** The path the lister reads from the header of an entry. */
  function StoredPath(path: Text): Text
    requires SplitNames(path).Some?
  {
    var names := SplitNames(path).value;
    var name, prefix := Kept(names.name, 100), Kept(names.prefix, 155);
    if prefix == [] then name else prefix + [SLASH] + name
  }

  /**
   Which paths survive: seven-bit, not exactly 100 units long, and not split after exactly
   155 units.  A name field of 100 bytes keeps 99 of them and a prefix field of 155 keeps 154.
   */
  predicate Survives(path: Text)
    requires SplitNames(path).Some?
  {
    IsAscii(path) && |path| != 100 && |SplitNames(path).value.prefix| != 155
  }

  lemma SplitShape(path: Text)
    requires SplitNames(path).Some?
    ensures var names := SplitNames(path).value;
            if |path| <= 100 then names.name == path && names.prefix == []
            else path == names.prefix + [SLASH] + names.name && 0 < |names.prefix| <= 155 && |names.name| <= 99
  {
  }

  /** A header keeps the path of an entry exactly when it survives. */
  lemma StoredPathIsPath(path: Text)
    requires Safe(path) && SplitNames(path).Some?
    ensures StoredPath(path) == path <==> Survives(path)
  {
    SplitShape(path);
    var names := SplitNames(path).value;
    KeptBounds(names.name, 100);
    KeptBounds(names.prefix, 155);
    if Survives(path) {
      SurvivorsAreKept(path);
    } else if StoredPath(path) == path {
      StoredIsAscii(path);
    }
  }

  lemma StoredIsAscii(path: Text)
    requires SplitNames(path).Some?
    ensures IsAscii(StoredPath(path))
  {
  }

  lemma SurvivorsAreKept(path: Text)
    requires Safe(path) && SplitNames(path).Some? && Survives(path)
    ensures StoredPath(path) == path
  {
    SplitShape(path);
    var names := SplitNames(path).value;
    if |path| <= 100 {
      KeptWhole(path, 100);
      KeptWhole([], 155);
    } else {
      assert forall i :: 0 <= i < |names.prefix| ==> names.prefix[i] == path[i];
      assert forall i :: 0 <= i < |names.name| ==> names.name[i] == path[|names.prefix| + 1 + i];
      KeptWhole(names.name, 100);
      KeptWhole(names.prefix, 155);
    }
  }

  // ----- listing what was encoded

  /** The block is the header of a regular file of this path and size. */
  ghost predicate Describes(header: Bytes, path: Text, size: nat) {
    && |header| == BLOCK && !AllZero(header) && header[156] == REGULAR_FILE
    && HeaderPath(header) == path && ReadSize(header[124..136]) == Some(size)
  }

  lemma FieldsPlaced(names: Names, mode: nat, size: nat, mtime: nat)
    requires HeaderFits(size, mtime)
    ensures var h := Header(names, mode, size, mtime);
            && h[0..100] == StringField(names.name, 100) && h[124..136] == OctalField(size, 12)
            && h[156..157] == [REGULAR_FILE] && h[345..500] == StringField(names.prefix, 155)
  {
    hide Octal.Digits, Sum, Concat, OctalFits, ChecksumField;
    FieldsFit(mode, size, mtime);
    var blank := BlankHeader(names, mode, size, mtime);
    ChecksumFits(blank);
    var fs := HeaderFields(names, mode, size, mtime, ChecksumField(Sum(blank)));
    FieldPlaced(fs, OFFSETS, 0);
    FieldPlaced(fs, OFFSETS, 4);
    FieldPlaced(fs, OFFSETS, 7);
    FieldPlaced(fs, OFFSETS, 15);
  }

  /** The number that the octal digits of a field stand for, when it holds nothing else. */
  function OctalAt(h: Bytes, at: nat, len: nat): Option<nat>
    requires at + len <= |h|
  {
    var digits := UpToNul(h[at..at + len]);
    if forall i :: 0 <= i < |digits| ==> Octal.IsDigit(digits[i]) then Some(Octal.Value(digits)) else None
  }

  predicate Bit(n: nat, weight: nat)
    requires weight > 0
  {
    n / weight % 2 == 1
  }

  lemma AndFiveBits(d: nat)
    requires d < 8
    ensures AndFive(d) < 8 && Bit(AndFive(d), 1) == Bit(d, 1) && !Bit(AndFive(d), 2) && Bit(AndFive(d), 4) == Bit(d, 4)
  {
  }

  lemma MaskBits()
    ensures Bit(0x16d, 1) && !Bit(0x16d, 2) && Bit(0x16d, 4) && Bit(0x16d, 8) && !Bit(0x16d, 16) && Bit(0x16d, 32)
    ensures Bit(0x16d, 64) && !Bit(0x16d, 128) && Bit(0x16d, 256)
  {
  }

  /** A permission bit is kept exactly when 0o555 has it too. */
  lemma ReadableModeBits(mode: nat)
    ensures ReadableMode(mode) < 0x200
    ensures forall w :: w in {1, 2, 4, 8, 16, 32, 64, 128, 256} ==>
                          (Bit(ReadableMode(mode), w) <==> Bit(mode, w) && Bit(0x16d, w))
  {
    hide AndFive, Bit;
    var a, b, c := mode % 8, mode / 8 % 8, mode / 64 % 8;
    AndFiveBits(a);
    AndFiveBits(b);
    AndFiveBits(c);
    MaskBits();
    DigitsOfSum(AndFive(a), AndFive(b), AndFive(c));
    DigitBits(mode);
    DigitBits(ReadableMode(mode));
  }

  lemma DigitsOfSum(a: nat, b: nat, c: nat)
    requires a < 8 && b < 8 && c < 8
    ensures var n := a + 8 * b + 64 * c; n % 8 == a && n / 8 % 8 == b && n / 64 % 8 == c && n < 0x200
  {
  }

  lemma LowBits(n: nat)
    ensures Bit(n, 1) == Bit(n % 8, 1) && Bit(n, 2) == Bit(n % 8, 2) && Bit(n, 4) == Bit(n % 8, 4)
  {
    var q, r := n / 8, n % 8;
    assert n / 2 == 4 * q + r / 2;
    assert n / 4 == 2 * q + r / 4;
  }

  /** The bits of a number are the bits of its octal digits. */
  lemma DigitBits(n: nat)
    ensures Bit(n, 1) == Bit(n % 8, 1) && Bit(n, 2) == Bit(n % 8, 2) && Bit(n, 4) == Bit(n % 8, 4)
    ensures Bit(n, 8) == Bit(n / 8 % 8, 1) && Bit(n, 16) == Bit(n / 8 % 8, 2) && Bit(n, 32) == Bit(n / 8 % 8, 4)
    ensures Bit(n, 64) == Bit(n / 64 % 8, 1) && Bit(n, 128) == Bit(n / 64 % 8, 2) && Bit(n, 256) == Bit(n / 64 % 8, 4)
  {
    LowBits(n);
    LowBits(n / 8);
    LowBits(n / 64);
    DivideTwice(n);
  }

  lemma DivideTwice(n: nat)
    ensures n / 8 / 1 == n / 8 && n / 8 / 2 == n / 16 && n / 8 / 4 == n / 32
    ensures n / 64 / 1 == n / 64 && n / 64 / 2 == n / 128 && n / 64 / 4 == n / 256
  {
  }

  lemma OctalFieldRead(n: nat, len: nat, h: Bytes, at: nat)
    requires |Octal.Digits(n)| < len && at + len <= |h| && h[at..at + len] == OctalField(n, len)
    ensures OctalAt(h, at, len) == Some(n)
  {
    DigitsHaveNoNul(n);
    UpToNulOf(Octal.Digits(n), Zeros(len - |Octal.Digits(n)|));
    Octal.ValueOfDigits(n);
  }

  lemma OtherFieldsPlaced(names: Names, mode: nat, size: nat, mtime: nat)
    requires HeaderFits(size, mtime)
    ensures OctalFits(ReadableMode(mode), 8) && OctalFits(0, 8)
    ensures var h := Header(names, mode, size, mtime);
            && h[100..108] == OctalField(ReadableMode(mode), 8) && h[108..116] == OctalField(0, 8)
            && h[116..124] == OctalField(0, 8) && h[136..148] == OctalField(mtime, 12)
            && h[157..257] == Zeros(100) && h[257..263] == StringField(USTAR, 6) && h[263..265] == [0x30, 0x30]
            && h[265..297] == Zeros(32) && h[297..329] == Zeros(32) && h[500..512] == Zeros(12)
            && h[329..337] == OctalField(0, 8) && h[337..345] == OctalField(0, 8)
  {
    hide Octal.Digits, Sum, Concat, OctalFits, ChecksumField, ReadableMode;
    FieldsFit(mode, size, mtime);
    var blank := BlankHeader(names, mode, size, mtime);
    ChecksumFits(blank);
    var fs := HeaderFields(names, mode, size, mtime, ChecksumField(Sum(blank)));
    EmptyField(100);
    EmptyField(32);
    FieldPlaced(fs, OFFSETS, 1);
    FieldPlaced(fs, OFFSETS, 2);
    FieldPlaced(fs, OFFSETS, 3);
    FieldPlaced(fs, OFFSETS, 5);
    FieldPlaced(fs, OFFSETS, 8);
    FieldPlaced(fs, OFFSETS, 9);
    FieldPlaced(fs, OFFSETS, 10);
    FieldPlaced(fs, OFFSETS, 11);
    FieldPlaced(fs, OFFSETS, 12);
    FieldPlaced(fs, OFFSETS, 13);
    FieldPlaced(fs, OFFSETS, 14);
    FieldPlaced(fs, OFFSETS, 16);
  }

  lemma EmptyField(len: nat)
    requires len > 0
    ensures StringField([], len) == Zeros(len)
  {
  }

  /**
   What a reader finds in a written header: of the permission bits exactly those that the entry and 0o555 share,
   user and group 0, the size and the time, a regular file, the magic and version of the format, and no link,
   names or devices.
   */
  lemma HeaderSays(e: Entry, mtime: nat)
    requires HeaderOf(e, mtime).Ok?
    ensures var h := HeaderOf(e, mtime).value;
            && OctalAt(h, 100, 8).Some? && OctalAt(h, 100, 8).value < 0x200
            && (forall w :: w in {1, 2, 4, 8, 16, 32, 64, 128, 256} ==>
                  (Bit(OctalAt(h, 100, 8).value, w) <==> Bit(e.mode, w) && Bit(0x16d, w)))
            && OctalAt(h, 108, 8) == OctalAt(h, 116, 8) == OctalAt(h, 329, 8) == OctalAt(h, 337, 8) == Some(0)
            && OctalAt(h, 124, 12) == Some(|e.data|) && OctalAt(h, 136, 12) == Some(mtime)
            && h[156] == 0x30 && h[257..265] == [0x75, 0x73, 0x74, 0x61, 0x72, 0, 0x30, 0x30]
            && (forall i :: 157 <= i < 257 || 265 <= i < 329 || 500 <= i < 512 ==> h[i] == 0)
  {
    hide Header, OctalField, OctalAt, ReadableMode, Bit, OctalFits, StringField;
    var names, h := SplitNames(e.path).value, HeaderOf(e, mtime).value;
    OtherFieldsPlaced(names, e.mode, |e.data|, mtime);
    FieldsPlaced(names, e.mode, |e.data|, mtime);
    ReadableModeBits(e.mode);
    FitsIsDigits(ReadableMode(e.mode), 8);
    FitsIsDigits(0, 8);
    FitsIsDigits(|e.data|, 12);
    FitsIsDigits(mtime, 12);
    OctalFieldRead(ReadableMode(e.mode), 8, h, 100);
    OctalFieldRead(0, 8, h, 108);
    OctalFieldRead(0, 8, h, 116);
    OctalFieldRead(0, 8, h, 329);
    OctalFieldRead(0, 8, h, 337);
    OctalFieldRead(|e.data|, 12, h, 124);
    OctalFieldRead(mtime, 12, h, 136);
    MagicField();
    assert h[257..265] == h[257..263] + h[263..265];
    assert h[156] == h[156..157][0];
    ZeroRuns(h);
  }

  lemma FitsIsDigits(n: nat, len: nat)
    ensures OctalFits(n, len) <==> |Octal.Digits(n)| < len
  {
  }

  lemma MagicField()
    ensures StringField(USTAR, 6) == [0x75, 0x73, 0x74, 0x61, 0x72, 0]
  {
  }

  lemma ZeroRuns(h: Bytes)
    requires |h| == BLOCK && h[157..257] == Zeros(100) && h[265..297] == Zeros(32) && h[297..329] == Zeros(32)
    requires h[500..512] == Zeros(12)
    ensures forall i :: 157 <= i < 257 || 265 <= i < 329 || 500 <= i < 512 ==> h[i] == 0
  {
    forall i | 157 <= i < 257 || 265 <= i < 329 || 500 <= i < 512 ensures h[i] == 0 {
      if i < 257 {
        assert h[i] == h[157..257][i - 157];
      } else if i < 297 {
        assert h[i] == h[265..297][i - 265];
      } else if i < 329 {
        assert h[i] == h[297..329][i - 297];
      } else {
        assert h[i] == h[500..512][i - 500];
      }
    }
  }

  lemma HeaderRead(e: Entry, mtime: nat)
    requires HeaderOf(e, mtime).Ok?
    ensures Describes(HeaderOf(e, mtime).value, StoredPath(e.path), |e.data|)
  {
    hide Header, ReadSize, StringField, OctalField, ReadString;
    FieldsPlaced(SplitNames(e.path).value, e.mode, |e.data|, mtime);
    SizeRead(|e.data|);
    var h := HeaderOf(e, mtime).value;
    assert h[156] == h[156..157][0];
  }

  /** Files as long as their paths are accepted; the first that is not ends it. */
  function Collect(hs: seq<Held>, accepts: Text -> bool): Result<seq<Held>, TarError> {
    if hs == [] then Ok([])
    else if !accepts(hs[0].path) then Err(UnsafePath)
    else Prepend([hs[0]], Collect(hs[1..], accepts))
  }

  lemma {:induction false} CollectIsAll(hs: seq<Held>, accepts: Text -> bool)
    ensures Collect(hs, accepts).Ok? ==> Collect(hs, accepts).value == hs
    ensures (forall i :: 0 <= i < |hs| ==> accepts(hs[i].path)) ==> Collect(hs, accepts).Ok?
  {
    if hs != [] {
      CollectIsAll(hs[1..], accepts);
      assert hs == [hs[0]] + hs[1..];
    }
  }

  /** The entries as their headers keep them. */
  function StoredFiles(es: seq<Entry>): seq<Held>
    requires forall i :: 0 <= i < |es| ==> SplitNames(es[i].path).Some?
  {
    seq(|es|, i requires 0 <= i < |es| => Held(StoredPath(es[i].path), es[i].data))
  }

  lemma MemberRead(header: Bytes, path: Text, size: nat, tar: Bytes, offset: nat, next: nat)
    requires Describes(header, path, size) && Placed(tar, offset, header)
    requires next == offset + BLOCK + BLOCK * BlocksFor(size) <= |tar|
    ensures ReadHeader(tar, offset) == if Safe(path) then Ok(Member(path, true, size, next)) else Err(UnsafePath)
  {
    hide HeaderPath, ReadSize, Safe, AllZero;
    assert tar[offset..offset + BLOCK] == header;
    assert offset + BLOCK + size <= next;
  }

  lemma ContentsStep(tar: Bytes, offset: nat, m: Member)
    requires offset + BLOCK <= |tar| && !AllZero(tar[offset..offset + BLOCK])
    ensures ReadHeader(tar, offset) == Ok(m) ==>
              Contents(tar, offset) == Prepend(HeldBy(tar, offset, m), Contents(tar, m.next))
    ensures ReadHeader(tar, offset) == Err(UnsafePath) ==> Contents(tar, offset) == Err(UnsafePath)
  {
  }

  lemma HoldsOne(header: Bytes, h: Held, tar: Bytes, offset: nat, next: nat)
    requires Describes(header, h.path, |h.data|) && HeaderAt(tar, offset, header, h.data, next)
    ensures Contents(tar, offset) == if Safe(h.path) then Prepend([h], Contents(tar, next)) else Err(UnsafePath)
  {
    hide ReadHeader, Contents;
    MemberRead(header, h.path, |h.data|, tar, offset, next);
    ContentsStep(tar, offset, Member(h.path, true, |h.data|, next));
  }

  /** Headers of regular files at these offsets, each followed by its data, then a zero block. */
  ghost predicate LaidOut(tar: Bytes, offsets: seq<nat>, headers: seq<Bytes>, hs: seq<Held>) {
    var n := |hs|;
    && |offsets| == n + 1 && |headers| == n
    && (forall i :: 0 <= i < n ==> Describes(headers[i], hs[i].path, |hs[i].data|))
    && (forall i :: 0 <= i < n ==> HeaderAt(tar, offsets[i], headers[i], hs[i].data, offsets[i + 1]))
    && offsets[n] + BLOCK <= |tar| && AllZero(tar[offsets[n]..offsets[n] + BLOCK])
  }

  /** A header, its data right behind it, and the next header behind that. */
  ghost predicate HeaderAt(tar: Bytes, offset: nat, header: Bytes, data: Bytes, next: nat) {
    && Placed(tar, offset, header) && Placed(tar, offset + BLOCK, data)
    && next == offset + BLOCK + BLOCK * BlocksFor(|data|) <= |tar|
  }

  /** Reading never stops early and never takes data for a header. */
  lemma {:induction false} HoldsLaidOut(tar: Bytes, offsets: seq<nat>, headers: seq<Bytes>, hs: seq<Held>, i: nat)
    requires LaidOut(tar, offsets, headers, hs) && i <= |hs|
    ensures Contents(tar, offsets[i]) == Collect(hs[i..], Safe)
    decreases |hs| - i
  {
    if i < |hs| {
      assert HeaderAt(tar, offsets[i], headers[i], hs[i].data, offsets[i + 1]);
      HoldsOne(headers[i], hs[i], tar, offsets[i], offsets[i + 1]);
      HoldsLaidOut(tar, offsets, headers, hs, i + 1);
      assert hs[i..][1..] == hs[i + 1..];
    }
  }

  function OffsetsIn(records: seq<Bytes>): seq<nat> {
    seq(|records| + 1, i requires 0 <= i <= |records| => |Concat(records[..i])|)
  }

  lemma RecordPlaced(records: seq<Bytes>, tail: Bytes, i: nat, header: Bytes, data: Bytes)
    requires i < |records| && records[i] == header + Padded(data) && |header| == BLOCK
    ensures HeaderAt(Concat(records) + tail, |Concat(records[..i])|, header, data, |Concat(records[..i + 1])|)
  {
    var tar, at := Concat(records) + tail, |Concat(records[..i])|;
    FieldAt(records, i);
    assert tar[..|Concat(records)|] == Concat(records);
    PlacedWithin(tar, 0, Concat(records), at, records[i]);
    assert records[i][..BLOCK] == header;
    PlacedWithin(tar, at, records[i], 0, header);
    assert records[i][BLOCK..BLOCK + |data|] == data;
    PlacedWithin(tar, at, records[i], BLOCK, data);
  }

  lemma RecordsAreLaidOut(headers: seq<Bytes>, data: seq<Bytes>, hs: seq<Held>)
    requires |headers| == |data| == |hs|
    requires forall i :: 0 <= i < |hs| ==> Describes(headers[i], hs[i].path, |hs[i].data|) && hs[i].data == data[i]
    ensures LaidOut(Concat(Records(headers, data)) + Zeros(2 * BLOCK), OffsetsIn(Records(headers, data)), headers, hs)
  {
    hide HeaderAt, Describes, Concat, AllZero, Padded;
    var records := Records(headers, data);
    var tar, offsets := Concat(records) + Zeros(2 * BLOCK), OffsetsIn(records);
    forall i | 0 <= i < |hs| ensures HeaderAt(tar, offsets[i], headers[i], hs[i].data, offsets[i + 1]) {
      DescribesBlock(headers[i], hs[i].path, |hs[i].data|);
      RecordPlaced(records, Zeros(2 * BLOCK), i, headers[i], data[i]);
    }
    assert records[..|records|] == records;
    ZeroTail(Concat(records));
  }

  lemma DescribesBlock(header: Bytes, path: Text, size: nat)
    requires Describes(header, path, size)
    ensures |header| == BLOCK
  {
  }

  lemma ZeroTail(body: Bytes)
    ensures var tar := body + Zeros(2 * BLOCK);
            |body| + BLOCK <= |tar| && AllZero(tar[|body|..|body| + BLOCK])
  {
    assert (body + Zeros(2 * BLOCK))[|body|..|body| + BLOCK] == Zeros(2 * BLOCK)[..BLOCK];
  }

  lemma EncodableFacts(e: Entry, mtime: nat)
    requires HeaderOf(e, mtime).Ok?
    ensures Safe(e.path) && SplitNames(e.path).Some?
            && Describes(HeaderOf(e, mtime).value, StoredPath(e.path), |e.data|)
  {
    HeaderRead(e, mtime);
  }

  ghost predicate AllSurvive(es: seq<Entry>)
    requires forall i :: 0 <= i < |es| ==> SplitNames(es[i].path).Some?
  {
    forall i :: 0 <= i < |es| ==> Survives(es[i].path)
  }

  function PathsIn(es: seq<Entry>): seq<Text> {
    seq(|es|, i requires 0 <= i < |es| => es[i].path)
  }

  function FilesIn(es: seq<Entry>): seq<Held> {
    seq(|es|, i requires 0 <= i < |es| => Held(es[i].path, es[i].data))
  }

  lemma StoredFilesAreFiles(es: seq<Entry>)
    requires forall i :: 0 <= i < |es| ==> SplitNames(es[i].path).Some? && Safe(es[i].path)
    ensures StoredFiles(es) == FilesIn(es) <==> AllSurvive(es)
    ensures PathsHeld(StoredFiles(es)) == PathsIn(es) <==> AllSurvive(es)
  {
    hide StoredPath, Survives;
    var stored := StoredFiles(es);
    forall i | 0 <= i < |es| ensures stored[i].path == es[i].path <==> Survives(es[i].path) {
      StoredPathIsPath(es[i].path);
    }
    if !AllSurvive(es) {
      var i :| 0 <= i < |es| && !Survives(es[i].path);
      assert stored[i] != FilesIn(es)[i] && PathsHeld(stored)[i] != PathsIn(es)[i];
    } else {
      assert stored == FilesIn(es) && PathsHeld(stored) == PathsIn(es);
    }
  }

  lemma AllDescribed(es: seq<Entry>, mtime: nat)
    requires Encodable(es, mtime)
    ensures forall i :: 0 <= i < |es| ==> SplitNames(es[i].path).Some? && Safe(es[i].path)
    ensures forall i :: 0 <= i < |es| ==> Describes(HeadersOf(es, mtime)[i], StoredFiles(es)[i].path, |es[i].data|)
  {
    hide HeaderOf, Describes, StoredPath;
    forall i | 0 <= i < |es| ensures SplitNames(es[i].path).Some? && Safe(es[i].path) {
      EncodableFacts(es[i], mtime);
    }
    forall i | 0 <= i < |es| ensures Describes(HeadersOf(es, mtime)[i], StoredFiles(es)[i].path, |es[i].data|) {
      EncodableFacts(es[i], mtime);
    }
  }

  /** An encoded archive holds the files that its headers keep, up to the first that the reader refuses. */
  lemma ArchiveHolds(es: seq<Entry>, mtime: nat)
    requires Encodable(es, mtime)
    ensures forall i :: 0 <= i < |es| ==> SplitNames(es[i].path).Some? && Safe(es[i].path)
    ensures Contents(Archive(es, mtime), 0) == Collect(StoredFiles(es), Safe)
  {
    hide Describes, HeaderOf, StoredPath, Concat, Contents, Collect, Records, Safe;
    AllDescribed(es, mtime);
    var headers, data, hs := HeadersOf(es, mtime), DataOf(es), StoredFiles(es);
    RecordsAreLaidOut(headers, data, hs);
    var offsets := OffsetsIn(Records(headers, data));
    HoldsLaidOut(Archive(es, mtime), offsets, headers, hs, 0);
    assert hs[0..] == hs && offsets[0] == 0 by { NothingBefore(Records(headers, data)); }
  }

  lemma NothingBefore(records: seq<Bytes>)
    ensures OffsetsIn(records)[0] == 0
  {
  }

  /**
   Listing an encoded archive gives exactly the paths of its entries, in order, if and only if every path
   survives the fields it is stored in; and then each path's bytes stand right behind its header, in the
   length the header states.
   */
  lemma RoundTrip(es: seq<Entry>, mtime: nat, gzip: Bytes -> Bytes, gunzip: Bytes -> Bytes)
    requires Encodable(es, mtime) && forall b :: gunzip(gzip(b)) == b
    ensures forall i :: 0 <= i < |es| ==> SplitNames(es[i].path).Some?
    ensures Listed(gunzip(gzip(Archive(es, mtime))), 0) == Ok(PathsIn(es)) <==> AllSurvive(es)
    ensures Contents(gunzip(gzip(Archive(es, mtime))), 0) == Ok(FilesIn(es)) <==> AllSurvive(es)
  {
    hide Contents, Listed, Archive, StoredFiles, PathsHeld, PathsIn, FilesIn, Encodable, AllSurvive;
    ArchiveHolds(es, mtime);
    ListedIsContents(Archive(es, mtime), 0);
    StoredFilesAreFiles(es);
    CollectIsAll(StoredFiles(es), Safe);
    CollectIsAll(FilesIn(es), Safe);
    SafeFiles(es);
  }

  lemma SafeFiles(es: seq<Entry>)
    requires forall i :: 0 <= i < |es| ==> Safe(es[i].path)
    ensures forall i :: 0 <= i < |FilesIn(es)| ==> Safe(FilesIn(es)[i].path)
  {
    hide Safe;
  }

  lemma SurviveByMember(es: seq<Entry>, sorted: seq<Entry>, mtime: nat)
    requires multiset(es) == multiset(sorted) && Encodable(es, mtime)
    ensures Encodable(sorted, mtime)
    ensures forall i :: 0 <= i < |es| ==> SplitNames(es[i].path).Some?
    ensures forall i :: 0 <= i < |sorted| ==> SplitNames(sorted[i].path).Some?
    ensures AllSurvive(sorted) <==> AllSurvive(es)
  {
    hide HeaderOf, Survives, SplitNames, Safe;
    forall e: Entry ensures e in es <==> e in sorted {
      assert e in multiset(es) <==> e in multiset(sorted);
    }
    forall i | 0 <= i < |sorted| ensures HeaderOf(sorted[i], mtime).Ok? {
      assert sorted[i] in es;
    }
    AllDescribed(es, mtime);
    AllDescribed(sorted, mtime);
    assert AllSurvive(es) <==> forall e: Entry :: e in es ==> SplitNames(e.path).Some? && Survives(e.path);
    assert AllSurvive(sorted) <==> forall e: Entry :: e in sorted ==> SplitNames(e.path).Some? && Survives(e.path);
  }

  /**
   Packing sorts by path and clamps the time: when every header can be written, what comes back is the entries
   in path order, each with its own bytes, if and only if every path survives.
   */
  lemma ShippedRoundTrip(es: seq<Entry>, seconds: Option<real>, gzip: Bytes -> Bytes, gunzip: Bytes -> Bytes)
    requires Encodable(es, ClampMtime(seconds)) && forall b :: gunzip(gzip(b)) == b
    ensures forall i :: 0 <= i < |es| ==> SplitNames(es[i].path).Some?
    ensures Encodable(ByPath(es), ClampMtime(seconds))
    ensures Ordering.Sorted(PathOf, ByPath(es)) && multiset(ByPath(es)) == multiset(es)
    ensures var tar := gunzip(gzip(Archive(ByPath(es), ClampMtime(seconds))));
            && (Listed(tar, 0) == Ok(PathsIn(ByPath(es))) <==> AllSurvive(es))
            && (Contents(tar, 0) == Ok(FilesIn(ByPath(es))) <==> AllSurvive(es))
  {
    hide Contents, Listed, Archive, PathsIn, FilesIn, Encodable, AllSurvive, ClampMtime;
    Ordering.SortBySorts(PathOf, es);
    SurviveByMember(es, ByPath(es), ClampMtime(seconds));
    RoundTrip(ByPath(es), ClampMtime(seconds), gzip, gunzip);
  }

  /** A path of exactly one hundred letters is cut to ninety-nine. */
  lemma HundredUnitsAreCut()
    ensures exists path: Text :: Safe(path) && SplitNames(path).Some? && |StoredPath(path)| == 99 && |path| == 100
  {
    var path: Text := seq(100, _ => 0x61);
    LettersAreSafe(path);
    var kept := Latin(path)[..99];
    UpToNulOf(kept, Zeros(1));
    KeptWhole([], 155);
    assert |StoredPath(path)| == 99;
  }

  lemma {:induction false} LettersAreSafe(path: Text)
    requires path != [] && forall i :: 0 <= i < |path| ==> path[i] == 0x61
    ensures Safe(path) && Split(path, SLASH) == [path]
  {
    if |path| == 1 {
      assert path[1..] == [];
    } else {
      LettersAreSafe(path[1..]);
    }
    assert path == [path[0]] + path[1..];
  }

  // ----- what the reader makes of any header

  ghost predicate AllBlank(b: Bytes) {
    forall i :: 0 <= i < |b| ==> b[i] == 0x20 || 0x09 <= b[i] <= 0x0d
  }

  ghost predicate OctalDigits(b: Bytes) {
    forall i :: 0 <= i < |b| ==> 0x30 <= b[i] <= 0x37
  }

  lemma {:induction false} TrimFront(front: Text, text: Text)
    requires forall i :: 0 <= i < |front| ==> IsBlank(front[i])
    ensures Trim(front + text) == Trim(text)
    decreases |front|
  {
    if front == [] {
      assert front + text == text;
    } else {
      assert (front + text)[1..] == front[1..] + text;
      TrimFront(front[1..], text);
    }
  }

  lemma {:induction false} TrimBack(text: Text, back: Text)
    requires text != [] && !IsBlank(text[0]) && !IsBlank(text[|text| - 1])
    requires forall i :: 0 <= i < |back| ==> IsBlank(back[i])
    ensures Trim(text + back) == text
    decreases |back|
  {
    if back == [] {
      assert text + back == text;
    } else {
      var all := text + back;
      assert all[..|all| - 1] == text + back[..|back| - 1] && all[0] == text[0] && all[|all| - 1] == back[|back| - 1];
      TrimBack(text, back[..|back| - 1]);
    }
  }

  lemma AsciiConcat(a: Bytes, b: Bytes)
    ensures Ascii(a + b) == Ascii(a) + Ascii(b)
  {
  }

  /** Trimming takes spaces and the units from tab to carriage return off both ends, and nothing else. */
  lemma TrimsBlanks(front: Text, text: Text, back: Text)
    requires forall i :: 0 <= i < |front| ==> front[i] == 0x20 || 0x09 <= front[i] <= 0x0d
    requires forall i :: 0 <= i < |back| ==> back[i] == 0x20 || 0x09 <= back[i] <= 0x0d
    requires text != [] && text[0] != 0x20 && !(0x09 <= text[0] <= 0x0d)
    requires text[|text| - 1] != 0x20 && !(0x09 <= text[|text| - 1] <= 0x0d)
    ensures Trim(front + (text + back)) == text
  {
    hide Trim;
    TrimFront(front, text + back);
    TrimBack(text, back);
  }

  /** A size may be padded with blanks on either side, and is what its digits say. */
  lemma PaddedSizeRead(front: Bytes, digits: Bytes, back: Bytes, tail: Bytes)
    requires AllBlank(front) && AllBlank(back) && digits != [] && OctalDigits(digits)
    requires Octal.Value(digits) <= 0x1f_ffff_ffff_ffff
    ensures ReadSize(front + digits + back + [0] + tail) == Some(Octal.Value(digits))
  {
    hide Octal.Value, Trim, OctalPrefix, UpToNul, Ascii;
    var body := front + digits + back;
    assert front + digits + back + [0] + tail == body + ([0] + tail);
    UpToNulOf(body, [0] + tail);
    AsciiConcat(front + digits, back);
    AsciiConcat(front, digits);
    var text := Ascii(digits);
    assert Ascii(body) == Ascii(front) + (text + Ascii(back));
    BlankAscii(front);
    BlankAscii(back);
    DigitAscii(digits);
    TrimFront(Ascii(front), text + Ascii(back));
    TrimBack(text, Ascii(back));
    OctalPrefixWhole(digits);
    ParseDigits(text, digits);
  }

  lemma BlankAscii(b: Bytes)
    requires AllBlank(b)
    ensures forall i :: 0 <= i < |Ascii(b)| ==> IsBlank(Ascii(b)[i])
  {
  }

  lemma DigitAscii(b: Bytes)
    requires OctalDigits(b) && b != []
    ensures |Ascii(b)| == |b| && (forall i :: 0 <= i < |b| ==> Ascii(b)[i] == b[i])
    ensures !IsBlank(Ascii(b)[0]) && !IsBlank(Ascii(b)[|b| - 1]) && forall i :: 0 <= i < |b| ==> Octal.IsDigit(b[i])
  {
  }

  lemma {:induction false} OctalPrefixOf(digits: Bytes, rest: Text)
    requires OctalDigits(digits) && (rest == [] || !(0x30 <= rest[0] < 0x38))
    ensures OctalPrefix(Ascii(digits) + rest) == digits
  {
    if digits == [] {
      assert Ascii(digits) + rest == rest;
    } else {
      OctalPrefixOf(digits[1..], rest);
      assert (Ascii(digits) + rest)[1..] == Ascii(digits[1..]) + rest;
      assert digits == [digits[0]] + digits[1..];
    }
  }

  /** A number is an optional sign and octal digits, whatever comes behind them; without digits it is none. */
  lemma IntegersAreParsed(sign: Text, digits: Bytes, rest: Text)
    requires sign == [] || sign == [0x2b] || sign == [0x2d]
    requires OctalDigits(digits) && (rest == [] || !(0x30 <= rest[0] < 0x38))
    requires sign == [] && digits == [] && rest != [] ==> rest[0] != 0x2b && rest[0] != 0x2d
    ensures ParseInt8(sign + (Ascii(digits) + rest)) ==
            if digits == [] then None
            else Some(if sign == [0x2d] then -(Octal.Value(digits) as int) else Octal.Value(digits) as int)
  {
    hide OctalPrefix, Octal.Value;
    var body := Ascii(digits) + rest;
    OctalPrefixOf(digits, rest);
    if sign == [] {
      assert sign + body == body;
      assert digits != [] ==> body[0] == digits[0] as int;
    } else {
      assert (sign + body)[1..] == body && (sign + body)[0] == sign[0];
    }
  }

  /** The listing ends at the first block of zeros, and before it goes from header to header. */
  lemma ListsHeaderByHeader(tar: Bytes, offset: nat)
    requires offset + 512 <= |tar|
    ensures (forall i :: offset <= i < offset + 512 ==> tar[i] == 0) ==> Listed(tar, offset) == Ok([])
    ensures (exists i :: offset <= i < offset + 512 && tar[i] != 0) ==>
              Listed(tar, offset) ==
                match ReadHeader(tar, offset)
                case Err(e) => Err(e)
                case Ok(m) => Prepend(if m.regular then [m.path] else [], Listed(tar, m.next))
  {
    hide ReadHeader;
    var header := tar[offset..offset + BLOCK];
    if i :| offset <= i < offset + 512 && tar[i] != 0 {
      assert header[i - offset] == tar[i];
    }
  }

  /** A field of blanks alone states no size, which counts as nothing. */
  lemma BlankSizeRead(blanks: Bytes, tail: Bytes)
    requires AllBlank(blanks)
    ensures ReadSize(blanks + [0] + tail) == Some(0)
  {
    hide UpToNul, Ascii;
    assert blanks + [0] + tail == blanks + ([0] + tail);
    UpToNulOf(blanks, [0] + tail);
    BlankAscii(blanks);
    TrimFront(Ascii(blanks), []);
    assert Ascii(blanks) + [] == Ascii(blanks);
  }

  /**
   The reader takes a header exactly when its path is safe, its size a number and its data all there; a member is
   a regular file by its type flag, and the next header stands at the first block behind the data.
   */
  lemma HeadersAreRead(tar: Bytes, offset: nat, m: Member)
    requires offset + 512 <= |tar|
    ensures var name, prefix := ReadString(tar[offset..offset + 100]), ReadString(tar[offset + 345..offset + 500]);
            ReadHeader(tar, offset) == Ok(m) <==>
            && m.path == (if prefix == [] then name else prefix + [0x2f] + name)
            && Safe(m.path) && ReadSize(tar[offset + 124..offset + 136]) == Some(m.size)
            && offset + 512 + m.size <= |tar| && (m.regular <==> tar[offset + 156] in {0x00, 0x30})
            && m.next >= offset + 512 + m.size && m.next - offset < 1024 + m.size && (m.next - offset) % 512 == 0
  {
    hide Safe, ReadSize, ReadString, BlocksFor;
    var header := tar[offset..offset + BLOCK];
    assert header[156] == tar[offset + 156];
    SliceOfSlice(tar, offset, 0, 100);
    SliceOfSlice(tar, offset, 345, 500);
    SliceOfSlice(tar, offset, 124, 136);
    if ReadSize(header[124..136]).Some? {
      NextBlock(ReadSize(header[124..136]).value, offset, m.next);
    }
  }

  lemma SliceOfSlice(tar: Bytes, offset: nat, from: nat, to: nat)
    requires offset + BLOCK <= |tar| && from <= to <= BLOCK
    ensures tar[offset..offset + BLOCK][from..to] == tar[offset + from..offset + to]
  {
    var header := tar[offset..offset + BLOCK];
    var a, b := header[from..to], tar[offset + from..offset + to];
    forall i | 0 <= i < to - from ensures a[i] == b[i] {
      assert a[i] == header[from + i];
    }
  }

  lemma NextBlock(size: nat, offset: nat, next: nat)
    ensures next == offset + BLOCK + BLOCK * BlocksFor(size) <==>
            next >= offset + 512 + size && next - offset < 1024 + size && (next - offset) % 512 == 0
  {
    if next >= offset + 512 + size && next - offset < 1024 + size && (next - offset) % 512 == 0 {
      var blocks := (next - offset) / 512;
      assert next - offset == 512 * blocks;
    }
  }
}
