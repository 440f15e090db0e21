/**
 Verifying an unpacked archive directory against its `release.json`.
 */
module ReleaseVerifier {
  import opened Prelude
  import opened Strings
  import opened FileTree
  import opened ReleasePaths
  import opened Release

  datatype Report =
    | ManifestUnreadable
    | InvalidJson
    | ManifestNotObject
    | UnexpectedSchema
    | FilesNotArray
    | EntryNotObject(index: nat)
    | EntryBadFields(index: nat)
    | OnlyOnDisk(paths: set<Text>)
    | OnlyInManifest(paths: set<Text>)
    | FileUnreadable(path: Text)
    | DigestMismatch(path: Text)
    | SizeMismatch(path: Text)

  // ----- the reports, in the order they are made

  function EntryReport(e: RawEntry, index: nat): seq<Report> {
    match e
    case NoEntry => [EntryNotObject(index)]
    case BadFields => [EntryBadFields(index)]
    case Fields(f) => if f.path == [] then [EntryBadFields(index)] else []
  }

  /** Reports on the first `n` entries. */
  function EntryReports(raw: seq<RawEntry>, n: nat): seq<Report>
    requires n <= |raw|
  {
    if n == 0 then [] else EntryReports(raw, n - 1) + EntryReport(raw[n - 1], n - 1)
  }

  /** Reads where a path leads, which need not be inside the directory. */
  function ReadAt(w: World, disk: seq<Child>, path: Text): Option<Bytes> {
    var resolved := Resolve(w.base, Split(path, SLASH));
    if w.base <= resolved then
      match LeafAt(Dir(disk), resolved[|w.base|..])
      case None => None
      case Some(leaf) => Some(leaf.data)
    else w.elsewhere(resolved)
  }

  function FileReport(w: World, disk: seq<Child>, f: ManifestFile): seq<Report> {
    match ReadAt(w, disk, f.path)
    case None => [FileUnreadable(f.path)]
    case Some(data) =>
      (if w.hash(data) != f.sha256 then [DigestMismatch(f.path)] else [])
      + (if |data| != f.size then [SizeMismatch(f.path)] else [])
  }

  function FileReports(w: World, disk: seq<Child>, files: seq<ManifestFile>, n: nat): seq<Report>
    requires n <= |files|
  {
    if n == 0 then [] else FileReports(w, disk, files, n - 1) + FileReport(w, disk, files[n - 1])
  }

  function FilesOf(raw: seq<RawEntry>): seq<ManifestFile>
    requires forall k :: 0 <= k < |raw| ==> raw[k].Fields?
  {
    seq(|raw|, k requires 0 <= k < |raw| => raw[k].file)
  }

  function Listed(files: seq<ManifestFile>): set<Text> {
    set f | f in files :: f.path
  }

  function SetReports(onDisk: set<Text>, listed: set<Text>): seq<Report> {
    (if onDisk - listed != {} then [OnlyOnDisk(onDisk - listed)] else [])
    + (if listed - onDisk != {} then [OnlyInManifest(listed - onDisk)] else [])
  }

  function SchemaReports(schema: Text): seq<Report> {
    if schema != SCHEMA then [UnexpectedSchema] else []
  }

  lemma {:induction false} SilentEntries(raw: seq<RawEntry>, n: nat)
    requires n <= |raw|
    ensures EntryReports(raw, n) == [] <==> forall k :: 0 <= k < n ==> raw[k].Fields? && raw[k].file.path != []
  {
    if n > 0 {
      SilentEntries(raw, n - 1);
    }
  }

  /** All reports, given the set of regular files found on disk. */
  function Reports(w: World, disk: seq<Child>, onDisk: set<Text>): seq<Report> {
    match LeafAt(Dir(disk), [RELEASE_JSON])
    case None => [ManifestUnreadable]
    case Some(leaf) =>
      match w.parse(leaf.data)
      case NotJson => [InvalidJson]
      case NotAnObject => [ManifestNotObject]
      case Object(schema, None) => SchemaReports(schema) + [FilesNotArray]
      case Object(schema, Some(raw)) =>
        var malformed := SchemaReports(schema) + EntryReports(raw, |raw|);
        if malformed != [] then malformed
        else
          SilentEntries(raw, |raw|);
          SetReports(onDisk, Listed(FilesOf(raw))) + FileReports(w, disk, FilesOf(raw), |raw|)
  }

  /** The regular files that count: all but the manifest. */
  ghost predicate Counts(disk: seq<Child>, t: Text) {
    t != RELEASE_JSON && Content(disk, t).Some? && !Content(disk, t).value.linked
  }

  ghost predicate IsFileSet(disk: seq<Child>, onDisk: set<Text>) {
    forall t :: t in onDisk <==> Counts(disk, t)
  }

  // ----- the verifier at work

  /** Recursively collects the regular files, as texts. */
  method CollectFiles(disk: seq<Child>) returns (texts: set<Text>)
    requires ValidAll(disk)
    ensures IsFileSet(disk, texts - {RELEASE_JSON})
  {
    hide PathText, Split, RegularUnder;
    var paths := Walk(disk, [], {});
    texts := set p | p in paths :: PathText(p);
    forall t ensures t in texts <==> Content(disk, t).Some? && !Content(disk, t).value.linked {
      JoinSplit(t, SLASH);
      RegularAtRoot(disk, Split(t, SLASH));
      if t in texts {
        var p :| p in paths && PathText(p) == t;
        RegularAtRoot(disk, p);
        LeafHasText(disk, p);
      }
      if Content(disk, t).Some? && !Content(disk, t).value.linked {
        assert Split(t, SLASH) in paths;
        assert PathText(Split(t, SLASH)) == t by { TextOfSplit(t); }
      }
    }
  }

  lemma TextOfSplit(t: Text)
    ensures PathText(Split(t, SLASH)) == t
  {
  }

  lemma RegularAtRoot(disk: seq<Child>, p: Path)
    ensures RegularUnder(disk, [], p) <==> LeafAt(Dir(disk), p).Some? && !LeafAt(Dir(disk), p).value.linked
  {
  }

  method CheckFile(w: World, disk: seq<Child>, f: ManifestFile) returns (errors: seq<Report>)
    ensures errors == FileReport(w, disk, f)
  {
    hide ReadAt;
    var data := ReadAt(w, disk, f.path);
    if data.None? {
      return [FileUnreadable(f.path)];
    }
    errors := [];
    if w.hash(data.value) != f.sha256 {
      errors := errors + [DigestMismatch(f.path)];
    }
    if |data.value| != f.size {
      errors := errors + [SizeMismatch(f.path)];
    }
  }

  /** Accepts with the number of entries, or gives every report in order. */
  method VerifyUnpackedArchive(w: World, disk: seq<Child>) returns (r: Result<nat, seq<Report>>)
    requires ValidAll(disk)
    ensures exists onDisk :: IsFileSet(disk, onDisk) && match r
                                                        case Ok(_) => Reports(w, disk, onDisk) == []
                                                        case Err(errors) => Reports(w, disk, onDisk) == errors != []
    ensures r.Ok? <==> Accepts(w, disk)
    ensures r.Ok? ==> AcceptsAs(w, disk, Entries(w, disk)) && r.value == |Entries(w, disk)|
  {
    hide LeafAt, IsFileSet, ReadAt, Counts, FileReport, EntryReport, ValidAll, AcceptsAs, Accepts, Listed;
    var all := CollectFiles(disk);
    var onDisk := all - {RELEASE_JSON};
    SilentIffAccepted(w, disk, onDisk);
    var manifest := LeafAt(Dir(disk), [RELEASE_JSON]);
    if manifest.None? {
      return Err([ManifestUnreadable]);
    }
    var document := w.parse(manifest.value.data);
    if document.NotJson? {
      return Err([InvalidJson]);
    }
    if document.NotAnObject? {
      return Err([ManifestNotObject]);
    }
    var errors := [];
    if document.schema != SCHEMA {
      errors := errors + [UnexpectedSchema];
    }
    assert errors == SchemaReports(document.schema);
    if document.files.None? {
      return Err(errors + [FilesNotArray]);
    }
    var raw := document.files.value;
    for k := 0 to |raw|
      invariant errors == SchemaReports(document.schema) + EntryReports(raw, k)
    {
      errors := errors + EntryReport(raw[k], k);
    }
    if errors != [] {
      return Err(errors);
    }
    SilentEntries(raw, |raw|);
    var files := FilesOf(raw);
    var listed := Listed(files);
    if onDisk - listed != {} {
      errors := errors + [OnlyOnDisk(onDisk - listed)];
    }
    if listed - onDisk != {} {
      errors := errors + [OnlyInManifest(listed - onDisk)];
    }
    assert errors == SetReports(onDisk, listed);
    for k := 0 to |files|
      invariant errors == SetReports(onDisk, listed) + FileReports(w, disk, files, k)
    {
      var found := CheckFile(w, disk, files[k]);
      errors := errors + found;
    }
    if errors != [] {
      return Err(errors);
    }
    return Ok(|files|);
  }

  // ----- what acceptance means

  /** The entries of a well-formed `release.json`. */
  ghost function Entries(w: World, disk: seq<Child>): seq<ManifestFile> {
    match LeafAt(Dir(disk), [RELEASE_JSON])
    case None => []
    case Some(leaf) =>
      match w.parse(leaf.data)
      case Object(_, Some(raw)) => if forall k :: 0 <= k < |raw| ==> raw[k].Fields? then FilesOf(raw) else []
      case _ => []
  }

  /** The directory holds a manifest of these entries, exactly the files they list, each as described. */
  ghost predicate AcceptsAs(w: World, disk: seq<Child>, files: seq<ManifestFile>) {
    && Content(disk, RELEASE_JSON).Some?
    && w.parse(Content(disk, RELEASE_JSON).value.data) == Object(SCHEMA, Some(AllFields(files)))
    && (forall t :: Lists(files, t) <==> Counts(disk, t))
    && forall f :: f in files ==> Content(disk, f.path).Some? && Describes(w, f, Content(disk, f.path).value.data)
  }

  ghost predicate Accepts(w: World, disk: seq<Child>) {
    exists files :: AcceptsAs(w, disk, files)
  }

  lemma ManifestContent(disk: seq<Child>)
    ensures Content(disk, RELEASE_JSON) == LeafAt(Dir(disk), [RELEASE_JSON])
  {
    NamesOfTrees();
    NameIsNamed(RELEASE_JSON);
  }

  /** On texts made of names, following the path finds the file of that name. */
  lemma ReadIsContent(w: World, disk: seq<Child>, t: Text)
    requires Names(t)
    ensures ReadAt(w, disk, t) == if Content(disk, t).Some? then Some(Content(disk, t).value.data) else None
  {
    SafeJoinOfNames(w.base, t);
    var p := Split(t, SLASH);
    assert (w.base + p)[|w.base|..] == p;
  }

  lemma {:induction false} SilentFiles(w: World, disk: seq<Child>, files: seq<ManifestFile>, n: nat)
    requires n <= |files|
    ensures FileReports(w, disk, files, n) == [] <==> forall k :: 0 <= k < n ==> FileReport(w, disk, files[k]) == []
  {
    hide FileReport;
    if n > 0 {
      SilentFiles(w, disk, files, n - 1);
    }
  }

  lemma SilentFile(w: World, disk: seq<Child>, f: ManifestFile)
    requires ValidAll(disk) && Content(disk, f.path).Some?
    ensures FileReport(w, disk, f) == [] <==> Describes(w, f, Content(disk, f.path).value.data)
  {
    hide ReadAt, Content;
    ContentIsNamed(disk, f.path);
    ReadIsContent(w, disk, f.path);
  }

  lemma SilentSets(disk: seq<Child>, onDisk: set<Text>, files: seq<ManifestFile>)
    requires IsFileSet(disk, onDisk)
    ensures SetReports(onDisk, Listed(files)) == [] <==> forall t :: Lists(files, t) <==> Counts(disk, t)
  {
    hide Counts;
    var listed := Listed(files);
    assert forall t :: t in listed <==> Lists(files, t);
    if SetReports(onDisk, listed) == [] {
      forall t ensures Lists(files, t) <==> Counts(disk, t) {
        assert t !in onDisk - listed && t !in listed - onDisk;
      }
    }
    if forall t :: Lists(files, t) <==> Counts(disk, t) {
      assert onDisk == listed;
    }
  }

  lemma ListedHasContent(disk: seq<Child>, files: seq<ManifestFile>, f: ManifestFile)
    requires ValidAll(disk) && f in files && forall t :: Lists(files, t) <==> Counts(disk, t)
    ensures Content(disk, f.path).Some? && f.path != []
  {
    assert Lists(files, f.path);
    ContentIsNamed(disk, f.path);
    assert IsName(Split(f.path, SLASH)[0]);
  }

  lemma ComparedIffAccepted(w: World, disk: seq<Child>, onDisk: set<Text>, files: seq<ManifestFile>)
    requires ValidAll(disk) && IsFileSet(disk, onDisk)
    ensures SetReports(onDisk, Listed(files)) + FileReports(w, disk, files, |files|) == [] <==>
            && (forall t :: Lists(files, t) <==> Counts(disk, t))
            && forall f :: f in files ==>
                             Content(disk, f.path).Some? && Describes(w, f, Content(disk, f.path).value.data)
  {
    hide IsFileSet, Counts, Content, ValidAll, FileReport, SetReports, Lists, Describes, Listed, FileReports;
    SilentSets(disk, onDisk, files);
    SilentFiles(w, disk, files, |files|);
    if forall t :: Lists(files, t) <==> Counts(disk, t) {
      forall f | f in files
        ensures Content(disk, f.path).Some?
        ensures FileReport(w, disk, f) == [] <==> Describes(w, f, Content(disk, f.path).value.data)
      {
        ListedHasContent(disk, files, f);
        SilentFile(w, disk, f);
      }
    }
  }

  lemma FilesOfFields(files: seq<ManifestFile>)
    ensures (forall k :: 0 <= k < |AllFields(files)| ==> AllFields(files)[k].Fields?)
            && FilesOf(AllFields(files)) == files
  {
  }

  lemma FieldsOfFiles(raw: seq<RawEntry>)
    requires forall k :: 0 <= k < |raw| ==> raw[k].Fields?
    ensures raw == AllFields(FilesOf(raw))
  {
  }

  /** No report is made exactly when the directory is what its manifest says. */
  lemma SilentIffAccepted(w: World, disk: seq<Child>, onDisk: set<Text>)
    requires ValidAll(disk) && IsFileSet(disk, onDisk)
    ensures Reports(w, disk, onDisk) == [] <==> Accepts(w, disk)
    ensures Accepts(w, disk) ==> AcceptsAs(w, disk, Entries(w, disk))
  {
    hide IsFileSet, Counts, Content, ValidAll, FileReport, SetReports, Listed, FileReports, EntryReports, LeafAt,
         Describes;
    ManifestContent(disk);
    if Reports(w, disk, onDisk) == [] {
      var raw := w.parse(LeafAt(Dir(disk), [RELEASE_JSON]).value.data).files.value;
      SilentEntries(raw, |raw|);
      ComparedIffAccepted(w, disk, onDisk, FilesOf(raw));
      FieldsOfFiles(raw);
      assert AcceptsAs(w, disk, FilesOf(raw));
    }
    if Accepts(w, disk) {
      var files :| AcceptsAs(w, disk, files);
      var raw := w.parse(Content(disk, RELEASE_JSON).value.data).files.value;
      FilesOfFields(files);
      ComparedIffAccepted(w, disk, onDisk, files);
      forall k | 0 <= k < |raw| ensures raw[k].Fields? && raw[k].file.path != [] {
        assert raw[k].file in files;
        ListedHasContent(disk, files, raw[k].file);
      }
      SilentEntries(raw, |raw|);
      assert Entries(w, disk) == files;
    }
  }

  // ----- what one builds, the other accepts

  lemma ManifestIsAccepted(w: World, m: Manifest, disk: seq<Child>)
    requires w.Sound() && ValidAll(disk) && IsManifestOf(w, m, disk) && m.schema == SCHEMA && LinkFree(disk)
    ensures AcceptsAs(w, disk, m.files)
  {
  }

  lemma AcceptedIsLinkFree(w: World, m: Manifest, disk: seq<Child>)
    requires w.Sound() && ValidAll(disk) && IsManifestOf(w, m, disk) && Accepts(w, disk)
    ensures LinkFree(disk)
  {
    hide Content, ValidAll, LinkFree, Describes, Lists;
    var files :| AcceptsAs(w, disk, files);
    SameEntries(w, m, files, disk);
    LinkFreeByText(disk);
    forall t | Content(disk, t).Some? ensures !Content(disk, t).value.linked {
      if t != RELEASE_JSON {
        assert Lists(m.files, t);
        assert Counts(disk, t);
      }
    }
  }

  lemma SameEntries(w: World, m: Manifest, files: seq<ManifestFile>, disk: seq<Child>)
    requires w.Sound() && AcceptsAs(w, disk, files)
    requires Content(disk, RELEASE_JSON).Some? && Content(disk, RELEASE_JSON).value.data == w.render(m)
    ensures files == m.files
  {
    hide Content, Counts, Describes, Lists;
    FilesOfFields(files);
    FilesOfFields(m.files);
  }

  lemma SchemaOfAssembly(w: World, i: Inputs)
    requires Assemble(w, i).Ok?
    ensures Assemble(w, i).value.manifest.schema == SCHEMA
  {
    SchemaOfRun(w, i, Stage([], {}, []), StagedInputs(i));
  }

  lemma {:induction false} SchemaOfRun(w: World, i: Inputs, s: Stage, todo: seq<StagedInput>)
    requires Perform(w, i, s, todo).Ok?
    ensures Perform(w, i, s, todo).value.manifest.schema == SCHEMA
    decreases |todo|
  {
    hide Step, Finish;
    if todo[0].kind.ManifestJson? {
      FinishedManifest(w, i, s);
    } else {
      SchemaOfRun(w, i, Step(w, s, todo[0]).value, todo[1..]);
    }
  }

  /**
   The verifier accepts an assembled release if and only if every extra has a tidy destination
   and no copied tree holds a symbolic link to a file.
   */
  lemma AssembledIsAccepted(w: World, i: Inputs)
    requires w.Sound() && Assemble(w, i).Ok?
    ensures Accepts(w, Assemble(w, i).value.disk) <==> TidyExtras(i) && LinkFreeSources(w, i)
  {
    hide Content, ValidAll, LinkFree, Describes, Lists, Assemble, IsManifestOf, World.Sound, TidyExtras,
         LinkFreeSources, AcceptsAs;
    var a := Assemble(w, i).value;
    ManifestIsExact(w, i);
    SchemaOfAssembly(w, i);
    if TidyExtras(i) && LinkFreeSources(w, i) {
      ManifestIsAccepted(w, a.manifest, a.disk);
    }
    if Accepts(w, a.disk) {
      var files :| AcceptsAs(w, a.disk, files);
      SameEntries(w, a.manifest, files, a.disk);
      if TidyExtras(i) {
        AcceptedIsLinkFree(w, a.manifest, a.disk);
      } else {
        var t :| Lists(a.manifest.files, t) && !IsTidy(t);
        ListedIsTidy(w, a.disk, a.manifest.files, t);
      }
    }
  }

  lemma ListedIsTidy(w: World, disk: seq<Child>, files: seq<ManifestFile>, t: Text)
    requires ValidAll(disk) && AcceptsAs(w, disk, files) && Lists(files, t)
    ensures IsTidy(t)
  {
    ContentIsNamed(disk, t);
    NamesIffTidy(t);
  }

  // ----- one manifest, one release

  ghost predicate CollisionFree(w: World) {
    forall a, b :: w.hash(a) == w.hash(b) ==> a == b
  }

  /** Two accepted directories with the same `release.json` hold the same files with the same bytes. */
  lemma ManifestDeterminesFiles(w: World, one: seq<Child>, other: seq<Child>, t: Text)
    requires Accepts(w, one) && Accepts(w, other) && CollisionFree(w)
    requires Content(one, RELEASE_JSON).value.data == Content(other, RELEASE_JSON).value.data
    ensures Counts(one, t) <==> Counts(other, t)
    ensures Counts(one, t) ==> Content(one, t).value.data == Content(other, t).value.data
  {
    hide Content;
    var files: seq<ManifestFile> :| AcceptsAs(w, one, files);
    var files': seq<ManifestFile> :| AcceptsAs(w, other, files');
    FilesOfFields(files);
    FilesOfFields(files');
    assert AllFields(files) == AllFields(files');
    if Counts(one, t) {
      assert Lists(files, t);
      var f: ManifestFile :| f in files && f.path == t;
      assert w.hash(Content(one, t).value.data) == f.sha256 == w.hash(Content(other, t).value.data);
    }
  }

  // ----- what each report says

  /** The report on an entry that is no object, or that has a field of the wrong type or an empty path. */
  ghost predicate Faults(raw: seq<RawEntry>, k: nat, r: Report)
    requires k < |raw|
  {
    || (r == EntryNotObject(k) && raw[k].NoEntry?)
    || (r == EntryBadFields(k) && raw[k].BadFields?)
    || (r == EntryBadFields(k) && raw[k].Fields? && raw[k].file.path == [])
  }

  lemma {:induction false} EntryReportsSay(raw: seq<RawEntry>, n: nat, r: Report)
    requires n <= |raw|
    ensures r in EntryReports(raw, n) <==> exists k: nat :: k < n && Faults(raw, k, r)
  {
    if n > 0 {
      EntryReportsSay(raw, n - 1, r);
      assert r in EntryReport(raw[n - 1], n - 1) <==> Faults(raw, n - 1, r);
    }
  }

  /** A malformed manifest: the schema and each bad entry are reported, and nothing else. */
  lemma MalformedIsReported(w: World, disk: seq<Child>, onDisk: set<Text>, schema: Text, raw: seq<RawEntry>, r: Report)
    requires LeafAt(Dir(disk), [RELEASE_JSON]).Some?
    requires w.parse(LeafAt(Dir(disk), [RELEASE_JSON]).value.data) == Object(schema, Some(raw))
    requires schema != SCHEMA || exists k :: 0 <= k < |raw| && !(raw[k].Fields? && raw[k].file.path != [])
    ensures r in Reports(w, disk, onDisk) <==>
            (r == UnexpectedSchema && schema != SCHEMA) || exists k: nat :: k < |raw| && Faults(raw, k, r)
  {
    hide LeafAt, EntryReports, FileReports, SetReports, Faults;
    SilentEntries(raw, |raw|);
    EntryReportsSay(raw, |raw|, r);
  }

  /** The report on a listed file that cannot be read, or whose digest or size is not the one listed. */
  ghost predicate Differs(w: World, disk: seq<Child>, f: ManifestFile, r: Report) {
    match ReadAt(w, disk, f.path)
    case None => r == FileUnreadable(f.path)
    case Some(data) =>
      || (r == DigestMismatch(f.path) && w.hash(data) != f.sha256)
      || (r == SizeMismatch(f.path) && |data| != f.size)
  }

  lemma {:induction false} FileReportsSay(w: World, disk: seq<Child>, files: seq<ManifestFile>, n: nat, r: Report)
    requires n <= |files|
    ensures r in FileReports(w, disk, files, n) <==> exists k: nat :: k < n && Differs(w, disk, files[k], r)
  {
    hide FileReport, Differs;
    if n > 0 {
      FileReportsSay(w, disk, files, n - 1, r);
      FileReportSays(w, disk, files[n - 1], r);
    }
  }

  lemma FileReportSays(w: World, disk: seq<Child>, f: ManifestFile, r: Report)
    ensures r in FileReport(w, disk, f) <==> Differs(w, disk, f, r)
  {
    hide ReadAt;
  }

  /** A well-formed manifest: what is only on one side, and each file that cannot be read or is not as listed. */
  lemma MismatchIsReported(w: World, disk: seq<Child>, onDisk: set<Text>, files: seq<ManifestFile>, r: Report)
    requires LeafAt(Dir(disk), [RELEASE_JSON]).Some?
    requires w.parse(LeafAt(Dir(disk), [RELEASE_JSON]).value.data) == Object(SCHEMA, Some(AllFields(files)))
    requires forall f :: f in files ==> f.path != []
    ensures var listed := set f | f in files :: f.path;
            r in Reports(w, disk, onDisk) <==>
              || (r == OnlyOnDisk(onDisk - listed) && onDisk - listed != {})
              || (r == OnlyInManifest(listed - onDisk) && listed - onDisk != {})
              || exists k: nat :: k < |files| && Differs(w, disk, files[k], r)
  {
    hide LeafAt, EntryReports, FileReports, Differs;
    var raw := AllFields(files);
    FilesOfFields(files);
    forall k | 0 <= k < |raw| ensures raw[k].Fields? && raw[k].file.path != [] {
      assert raw[k].file == files[k] && files[k] in files;
    }
    SilentEntries(raw, |raw|);
    FileReportsSay(w, disk, files, |files|, r);
  }

  /** The schema that the manifest must name. */
  lemma SchemaIsSpelled()
    ensures SCHEMA == [0x70, 0x69, 0x2e, 0x72, 0x65, 0x6c, 0x65, 0x61, 0x73, 0x65, 0x2e, 0x76, 0x31]
  {
  }
}
