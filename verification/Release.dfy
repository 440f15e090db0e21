/**
 Staging a release: what is copied into the archive directory and what the manifest says of it.
 */
module Release {
  import opened Prelude
  import opened Strings
  import opened Ordering
  import opened FileTree
  import opened ReleasePaths
  import opened TreeListing

  datatype ManifestFile = ManifestFile(path: Text, size: int, sha256: Text, executable: bool)

  /** The fields of `release.json` that are copied through. */
  datatype About = About(
    version: Text, rustTarget: Text, bunTarget: Text, compatibilityVersion: Text, protocolVersion: int,
    sourceDateEpoch: int, createdAt: Text)

  datatype Manifest = Manifest(schema: Text, about: About, compiledHost: bool, files: seq<ManifestFile>)

  /** `release.json` as a reader finds it. */
  datatype Document = NotJson | NotAnObject | Object(schema: Text, files: Option<seq<RawEntry>>)

  datatype RawEntry = NoEntry | BadFields | Fields(file: ManifestFile)

  function AllFields(files: seq<ManifestFile>): seq<RawEntry> {
    seq(|files|, i requires 0 <= i < |files| => Fields(files[i]))
  }

  /** The file system outside the archive directory, and foreign code. */
  datatype World = World(
    read: Text -> Option<Bytes>,       // a source file
    tree: Text -> Option<Node>,        // what a source path leads to
    elsewhere: Path -> Option<Bytes>,  // a file outside the archive directory
    hash: Bytes -> Text,
    render: Manifest -> Bytes,
    parse: Bytes -> Document,
    executable: bool,                  // the staged binaries carry their executable bits
    base: Path)                        // the archive directory
  {
    /** Trees are trees, and `release.json` parses to what was rendered. */
    ghost predicate Sound() {
      && IsPath(base)
      && (forall source :: tree(source).Some? ==> Valid(tree(source).value))
      && forall m :: parse(render(m)) == Object(m.schema, Some(AllFields(m.files)))
    }
  }

  datatype Host = Compiled(binary: Text) | Bundle(script: Text, runtime: Option<Text>)

  datatype Fallback = Fallback(script: Text, runtime: Text)

  datatype Extra = Extra(source: Text, dest: Text)

  datatype Inputs = Inputs(
    windows: bool, about: About, pi: Text, repoRoot: Text, host: Host, fallback: Option<Fallback>,
    docs: Text, assets: Option<Text>, extras: seq<Extra>)

  datatype Kind = RustBinary | HostBinary | HostBundle | BunRuntime | Metadata | Tree | ExtraFile | ManifestJson

  datatype StagedInput = StagedInput(kind: Kind, source: Text, dest: Text, optional: bool)

  const SCHEMA := Units("pi.release.v1")
  const PI := Units("pi")
  const PI_EXE := Units("pi.exe")
  const HOST := Units("pi-extension-host")
  const HOST_EXE := Units("pi-extension-host.exe")
  const HOST_JS := Units("pi-extension-host.js")
  const BUN := Units("bun")
  const BUN_EXE := Units("bun.exe")
  const RELEASE_JSON := Units("release.json")
  const CHANGELOG := Units("CHANGELOG.md")
  const README := Units("README.md")
  const LICENSE := Units("LICENSE")
  const LICENSE_MIT := Units("LICENSE-MIT")
  const DOCS := Units("docs")
  const ASSETS := Units("assets")
  const THEME := Units("theme")

  // ----- the staging plan

  function Binaries(i: Inputs): seq<StagedInput> {
    var bun := if i.windows then BUN_EXE else BUN;
    [StagedInput(RustBinary, i.pi, if i.windows then PI_EXE else PI, false)]
    + (match i.host
       case Compiled(binary) => [StagedInput(HostBinary, binary, if i.windows then HOST_EXE else HOST, false)]
       case Bundle(script, runtime) =>
         [StagedInput(HostBundle, script, HOST_JS, false),
          StagedInput(BunRuntime, if runtime.Some? then runtime.value else [], bun, false)])
    + (match i.fallback
       case None => []
       case Some(f) =>
         [StagedInput(HostBundle, f.script, HOST_JS, false), StagedInput(BunRuntime, f.runtime, bun, false)])
  }

  function Documents(i: Inputs): seq<StagedInput> {
    var at := i.repoRoot + [SLASH];
    [StagedInput(Metadata, at + CHANGELOG, CHANGELOG, false),
     StagedInput(Metadata, at + README, README, false),
     StagedInput(Metadata, at + LICENSE, LICENSE, true),
     StagedInput(Metadata, at + LICENSE_MIT, LICENSE_MIT, true)]
  }

  function Trees(i: Inputs): seq<StagedInput> {
    [StagedInput(Tree, i.docs, DOCS, false),
     StagedInput(Tree, if i.assets.Some? then i.assets.value else [], ASSETS, true),
     StagedInput(Tree, i.repoRoot + Units("/crates/pi/assets/theme"), THEME, true)]
  }

  function Extras(i: Inputs): seq<StagedInput> {
    seq(|i.extras|, k requires 0 <= k < |i.extras| =>
      StagedInput(ExtraFile, i.extras[k].source, Normalize(i.extras[k].dest), false))
  }

  const MANIFEST_INPUT := StagedInput(ManifestJson, Units("generated:release.json"), RELEASE_JSON, false)

  function StagedInputs(i: Inputs): seq<StagedInput> {
    Binaries(i) + Documents(i) + Trees(i) + Extras(i)
    + [MANIFEST_INPUT]
  }

  // ----- one staged input

  datatype Failure =
    | NoRuntime
    | Unreadable(source: Text)
    | NoTree(dest: Text)
    | Reserved(path: Text)
    | Duplicate(path: Text)
    | Escapes(path: Text)
    | Unwritable(path: Text)
    | HostEmbedded
    | NotExecutable
    | NoManifest

  /** What is on disk in the archive directory, the paths claimed, and the manifest entries. */
  datatype Stage = Stage(disk: seq<Child>, used: set<Text>, copied: seq<ManifestFile>)

  /** The slots of the table; a lookup also finds what every object inherits. */
  const RESERVED_SLOTS: seq<Text> :=
    [PI, PI_EXE, HOST, HOST_EXE, HOST_JS, BUN, BUN_EXE, RELEASE_JSON,
     Units("constructor"), Units("hasOwnProperty"), Units("isPrototypeOf"), Units("propertyIsEnumerable"),
     Units("toString"), Units("toLocaleString"), Units("valueOf"), Units("__proto__"), Units("__defineGetter__"),
     Units("__defineSetter__"), Units("__lookupGetter__"), Units("__lookupSetter__")]

  predicate IsReserved(rel: Text) {
    Split(Normalize(rel), SLASH)[0] in RESERVED_SLOTS
  }

  function Claim(used: set<Text>, rel: Text): Result<set<Text>, Failure> {
    if Normalize(rel) in used then Err(Duplicate(Normalize(rel))) else Ok(used + {Normalize(rel)})
  }

  function EntryOf(w: World, rel: Text, data: Bytes, executable: bool): ManifestFile {
    ManifestFile(rel, |data|, w.hash(data), executable)
  }

  function WriteAt(w: World, disk: seq<Child>, rel: Text, data: Bytes): Result<seq<Child>, Failure> {
    match SafeJoin(w.base, rel)
    case None => Err(Escapes(rel))
    case Some(p) =>
      match Write(Dir(disk), p, data)
      case None => Err(Unwritable(rel))
      case Some(n) => Ok(n.children)
  }

  /** Claim a path, write the file there, list it. */
  function Place(w: World, s: Stage, rel: Text, data: Bytes, executable: bool): Result<Stage, Failure> {
    match Claim(s.used, rel)
    case Err(e) => Err(e)
    case Ok(used) =>
      match WriteAt(w, s.disk, rel, data)
      case Err(e) => Err(e)
      case Ok(disk) => Ok(Stage(disk, used, s.copied + [EntryOf(w, rel, data, executable)]))
  }

  predicate IsExecutable(k: Kind) {
    k.RustBinary? || k.HostBinary? || k.BunRuntime?
  }

  function CopyFile(w: World, s: Stage, i: StagedInput): Result<Stage, Failure> {
    match w.read(i.source)
    case None => if i.optional then Ok(s) else Err(Unreadable(i.source))
    case Some(data) => Place(w, s, i.dest, data, IsExecutable(i.kind))
  }

  /** Claim and list each file met. */
  function ListAll(w: World, s: Stage, found: seq<Found>): Result<Stage, Failure>
    decreases |found|
  {
    if found == [] then Ok(s)
    else
      var rel := PathText(found[0].path);
      match Claim(s.used, rel)
      case Err(e) => Err(e)
      case Ok(used) =>
        ListAll(w, Stage(s.disk, used, s.copied + [EntryOf(w, rel, found[0].leaf.data, false)]), found[1..])
  }

  /** The children of the source directory, when there is one. */
  function SourceTree(w: World, i: StagedInput): Option<seq<Child>> {
    if i.source == [] then None
    else
      match w.tree(i.source)
      case Some(Dir(cs)) => Some(cs)
      case _ => None
  }

  function CopyTree(w: World, s: Stage, i: StagedInput): Result<Stage, Failure> {
    match SourceTree(w, i)
    case None => if i.optional then Ok(s) else Err(NoTree(i.dest))
    case Some(cs) =>
      ListAll(w, s.(disk := Put(s.disk, i.dest, Dir(cs))), Breadth([Todo([i.dest], cs)]))
  }

  function Step(w: World, s: Stage, i: StagedInput): Result<Stage, Failure> {
    match i.kind
    case Tree => CopyTree(w, s, i)
    case ExtraFile => if IsReserved(i.dest) then Err(Reserved(Normalize(i.dest))) else CopyFile(w, s, i)
    case BunRuntime => if i.source == [] then Err(NoRuntime) else CopyFile(w, s, i)
    case _ => CopyFile(w, s, i)
  }

  // ----- the whole run

  datatype Assembled = Assembled(disk: seq<Child>, manifest: Manifest)

  const PROBE_LENGTH := 64 * 1024

  /** The first 64 KiB of the host stand somewhere in the binary. */
  predicate Embeds(pi: Bytes, host: Bytes) {
    var probe := if |host| < PROBE_LENGTH then host else host[..PROBE_LENGTH];
    probe != [] && Contains(pi, probe)
  }

  function PathOf(f: ManifestFile): Text {
    f.path
  }

  function ManifestOf(i: Inputs, copied: seq<ManifestFile>): Manifest {
    Manifest(SCHEMA, i.about, i.host.Compiled?, SortBy(PathOf, copied))
  }

  /** The closing checks, and the manifest itself. */
  function Finish(w: World, i: Inputs, s: Stage): Result<Assembled, Failure> {
    var hostSource := if i.host.Compiled? then i.host.binary else i.host.script;
    if w.read(i.pi).None? then Err(Unreadable(i.pi))
    else if w.read(hostSource).None? then Err(Unreadable(hostSource))
    else if Embeds(w.read(i.pi).value, w.read(hostSource).value) then Err(HostEmbedded)
    else if !w.executable then Err(NotExecutable)
    else
      match Claim(s.used, RELEASE_JSON)
      case Err(e) => Err(e)
      case Ok(_) =>
        match WriteAt(w, s.disk, RELEASE_JSON, w.render(ManifestOf(i, s.copied)))
        case Err(e) => Err(e)
        case Ok(disk) => Ok(Assembled(disk, ManifestOf(i, s.copied)))
  }

  function Perform(w: World, i: Inputs, s: Stage, todo: seq<StagedInput>): Result<Assembled, Failure>
    decreases |todo|
  {
    if todo == [] then Err(NoManifest)
    else if todo[0].kind.ManifestJson? then Finish(w, i, s)
    else
      match Step(w, s, todo[0])
      case Err(e) => Err(e)
      case Ok(next) => Perform(w, i, next, todo[1..])
  }

  /** Assembly into an empty archive directory. */
  function Assemble(w: World, i: Inputs): Result<Assembled, Failure> {
    Perform(w, i, Stage([], {}, []), StagedInputs(i))
  }

  // ----- the directory seen as a map from texts to contents

  /** The file whose path below the archive directory is written so. */
  ghost function Content(disk: seq<Child>, t: Text): Option<Leaf> {
    LeafAt(Dir(disk), Split(t, SLASH))
  }

  lemma {:induction false} FoundIsPath(n: Node, p: Path)
    requires Valid(n) && Lookup(n, p).Some?
    ensures IsPath(p)
    decreases |p|
  {
    if p != [] {
      FindValid(n.children, p[0]);
      FoundIsPath(Find(n.children, p[0]).value, p[1..]);
      assert p == [p[0]] + p[1..];
    }
  }

  /** Only texts made of names are ever found on disk. */
  lemma ContentIsNamed(disk: seq<Child>, t: Text)
    requires ValidAll(disk) && Content(disk, t).Some?
    ensures Names(t)
  {
    FoundIsPath(Dir(disk), Split(t, SLASH));
  }

  lemma SplitIsInjective(t: Text, t': Text)
    ensures Split(t, SLASH) == Split(t', SLASH) <==> t == t'
  {
    JoinSplit(t, SLASH);
    JoinSplit(t', SLASH);
  }

  lemma ContentAfterWrite(w: World, disk: seq<Child>, rel: Text, data: Bytes, t: Text)
    requires Names(rel) && WriteAt(w, disk, rel, data).Ok?
    ensures var linked := Content(disk, rel).Some? && Content(disk, rel).value.linked;
            Content(WriteAt(w, disk, rel, data).value, t) ==
              if t == rel then Some(Leaf(data, linked)) else Content(disk, t)
  {
    SafeJoinOfNames(w.base, rel);
    LeafAfterWrite(Dir(disk), Split(rel, SLASH), data, Split(t, SLASH));
    SplitIsInjective(t, rel);
    assert Write(Dir(disk), Split(rel, SLASH), data).value == Dir(WriteAt(w, disk, rel, data).value);
  }

  lemma WriteAtValid(w: World, disk: seq<Child>, rel: Text, data: Bytes)
    requires IsPath(w.base) && ValidAll(disk) && WriteAt(w, disk, rel, data).Ok?
    ensures ValidAll(WriteAt(w, disk, rel, data).value)
    ensures NUL !in rel && BACKSLASH !in rel
  {
    SafeJoinIsPath(w.base, rel);
    var p := SafeJoin(w.base, rel).value;
    WriteValid(Dir(disk), p, data);
    assert Write(Dir(disk), p, data).value == Dir(WriteAt(w, disk, rel, data).value);
  }

  // ----- what every step keeps

  ghost predicate Describes(w: World, f: ManifestFile, data: Bytes) {
    f.size == |data| && f.sha256 == w.hash(data)
  }

  /** The claimed paths are those listed, each once. */
  ghost predicate Books(s: Stage) {
    && KeysOf(PathOf, s.copied) == s.used
    && DistinctKeys(PathOf, s.copied)
  }

  /** The claimed paths are those of the files on disk, and every entry describes its file. */
  ghost predicate Exact(w: World, s: Stage) {
    && (forall t :: Content(s.disk, t).Some? <==> t in s.used)
    && forall f :: f in s.copied ==>
                     Content(s.disk, f.path).Some? && Describes(w, f, Content(s.disk, f.path).value.data)
  }

  ghost predicate Agrees(w: World, s: Stage) {
    ValidAll(s.disk) && Books(s) && Exact(w, s)
  }

  /** No symbolic link leads to a file. */
  ghost predicate LinkFree(disk: seq<Child>) {
    forall p :: LeafAt(Dir(disk), p).Some? ==> !LeafAt(Dir(disk), p).value.linked
  }

  lemma LeafHasText(disk: seq<Child>, p: Path)
    requires ValidAll(disk) && LeafAt(Dir(disk), p).Some?
    ensures Content(disk, PathText(p)) == LeafAt(Dir(disk), p) && p != []
  {
    FoundIsPath(Dir(disk), p);
    PathTextNames(p);
  }

  lemma LinkFreeByText(disk: seq<Child>)
    requires ValidAll(disk)
    ensures LinkFree(disk) <==> forall t :: Content(disk, t).Some? ==> !Content(disk, t).value.linked
  {
    if forall t :: Content(disk, t).Some? ==> !Content(disk, t).value.linked {
      forall p | LeafAt(Dir(disk), p).Some? ensures !LeafAt(Dir(disk), p).value.linked {
        LeafHasText(disk, p);
      }
    }
  }

  lemma BooksAfterListing(s: Stage, f: ManifestFile)
    requires Books(s) && f.path !in s.used
    ensures KeysOf(PathOf, s.copied + [f]) == s.used + {f.path}
    ensures DistinctKeys(PathOf, s.copied + [f])
  {
    KeysOfSnoc(s.copied, f);
    var all := s.copied + [f];
    forall i, j | 0 <= i < j < |all| ensures PathOf(all[i]) != PathOf(all[j]) {
      if j < |s.copied| {
        assert PathOf(s.copied[i]) != PathOf(s.copied[j]);
      } else {
        assert PathOf(s.copied[i]) in KeysOf(PathOf, s.copied);
      }
    }
  }

  lemma KeysOfSnoc(s: seq<ManifestFile>, f: ManifestFile)
    ensures KeysOf(PathOf, s + [f]) == KeysOf(PathOf, s) + {f.path}
  {
    var all := s + [f];
    forall k | k in KeysOf(PathOf, s) + {f.path} ensures k in KeysOf(PathOf, all) {
      if k == f.path {
        assert all[|s|] == f;
      } else {
        var i :| 0 <= i < |s| && PathOf(s[i]) == k;
        assert all[i] == s[i];
      }
    }
    forall k | k in KeysOf(PathOf, all) ensures k in KeysOf(PathOf, s) + {f.path} {
      var i :| 0 <= i < |all| && PathOf(all[i]) == k;
      if i < |s| {
        assert all[i] == s[i];
      }
    }
  }

  /** A file staged under a path of names keeps disk and books together. */
  lemma PlaceKeeps(w: World, s: Stage, rel: Text, data: Bytes, executable: bool)
    requires IsPath(w.base) && Agrees(w, s) && Names(rel) && Place(w, s, rel, data, executable).Ok?
    ensures Agrees(w, Place(w, s, rel, data, executable).value)
    ensures LinkFree(Place(w, s, rel, data, executable).value.disk) <==> LinkFree(s.disk)
  {
    hide Content, WriteAt, ValidAll, Names, Normalize, LinkFree;
    var s' := Place(w, s, rel, data, executable).value;
    var f := EntryOf(w, rel, data, executable);
    NormalizeNames(rel);
    WriteAtValid(w, s.disk, rel, data);
    BooksAfterListing(s, f);
    assert s'.copied == s.copied + [f] && s'.used == s.used + {rel};
    assert Content(s.disk, rel).None?;
    forall t ensures Content(s'.disk, t) == if t == rel then Some(Leaf(data, false)) else Content(s.disk, t) {
      ContentAfterWrite(w, s.disk, rel, data, t);
    }
    forall g | g in s'.copied
      ensures Content(s'.disk, g.path).Some? && Describes(w, g, Content(s'.disk, g.path).value.data)
    {
      if g in s.copied {
        assert Content(s.disk, g.path).Some?;
      }
    }
    LinkFreeByText(s.disk);
    LinkFreeByText(s'.disk);
    forall t | Content(s.disk, t).Some? ensures Content(s'.disk, t) == Content(s.disk, t) {
    }
  }

  ghost function TextOf(f: Found): Text {
    PathText(f.path)
  }

  /** Listing touches no file; it adds one entry for each file met. */
  lemma {:induction false} ListAllAdds(w: World, s: Stage, found: seq<Found>)
    requires Books(s) && ListAll(w, s, found).Ok?
    requires forall f :: f in found ==> IsPath(f.path) && f.path != []
    ensures var s' := ListAll(w, s, found).value;
            && s'.disk == s.disk && Books(s')
            && (forall t :: t in s'.used <==> t in s.used || exists f :: f in found && TextOf(f) == t)
            && (forall g :: g in s'.copied <==>
                  g in s.copied || exists f :: f in found && EntryOf(w, TextOf(f), f.leaf.data, false) == g)
    decreases |found|
  {
    if found != [] {
      hide Normalize, PathText, Split;
      var f := found[0];
      var rel := TextOf(f);
      PathTextNames(f.path);
      NormalizeNames(rel);
      var g := EntryOf(w, rel, f.leaf.data, false);
      var next := Stage(s.disk, s.used + {rel}, s.copied + [g]);
      BooksAfterListing(s, g);
      ListAllAdds(w, next, found[1..]);
      assert found == [f] + found[1..];
    }
  }

  lemma ContentAfterCopy(disk: seq<Child>, name: Text, cs: seq<Child>, t: Text)
    requires Find(disk, name).None?
    ensures var p := Split(t, SLASH);
            Content(Put(disk, name, Dir(cs)), t) == if p[0] == name then LeafAt(Dir(cs), p[1..]) else Content(disk, t)
    ensures Split(t, SLASH)[0] == name ==> Content(disk, t).None?
  {
    LeafAfterPut(Dir(disk), name, Dir(cs), Split(t, SLASH));
  }

  lemma SourceTreeValid(w: World, i: StagedInput)
    requires w.Sound() && SourceTree(w, i).Some?
    ensures ValidAll(SourceTree(w, i).value)
  {
  }

  lemma LinkFreeAfterCopy(disk: seq<Child>, name: Text, cs: seq<Child>)
    requires Find(disk, name).None?
    ensures LinkFree(Put(disk, name, Dir(cs))) <==> LinkFree(disk) && LinkFree(cs)
  {
    hide LeafAt;
    var disk' := Put(disk, name, Dir(cs));
    forall p ensures LeafAt(Dir(disk'), p) ==
                     if p != [] && p[0] == name then LeafAt(Dir(cs), p[1..]) else LeafAt(Dir(disk), p) {
      LeafAfterPut(Dir(disk), name, Dir(cs), p);
    }
    if LinkFree(disk') {
      forall q | LeafAt(Dir(cs), q).Some? ensures !LeafAt(Dir(cs), q).value.linked {
        var p := [name] + q;
        assert p[0] == name && p[1..] == q;
        assert LeafAt(Dir(disk'), p).Some?;
      }
      forall p | LeafAt(Dir(disk), p).Some? ensures !LeafAt(Dir(disk), p).value.linked {
        if p != [] && p[0] == name {
          NoLeafUnder(disk, name, p);
        }
        assert LeafAt(Dir(disk'), p).Some?;
      }
    }
  }

  lemma NoLeafUnder(disk: seq<Child>, name: Text, p: Path)
    requires Find(disk, name).None? && p != [] && p[0] == name
    ensures LeafAt(Dir(disk), p).None?
  {
  }

  /** A file met in the copied tree is the file its text leads to. */
  lemma FoundIsContent(disk: seq<Child>, name: Text, cs: seq<Child>, f: Found)
    requires Find(disk, name).None? && ValidAll(cs) && IsName(name) && f in Breadth([Todo([name], cs)])
    ensures Content(Put(disk, name, Dir(cs)), TextOf(f)) == Some(f.leaf)
    ensures IsPath(f.path) && f.path != []
  {
    TreeIsListed(name, cs, f);
    BreadthArePaths([Todo([name], cs)]);
    PathTextNames(f.path);
    ContentAfterCopy(disk, name, cs, TextOf(f));
  }

  lemma ContentIsFound(disk: seq<Child>, name: Text, cs: seq<Child>, t: Text)
    requires Find(disk, name).None? && ValidAll(cs) && IsName(name)
    requires Split(t, SLASH)[0] == name && Content(Put(disk, name, Dir(cs)), t).Some?
    ensures exists f :: f in Breadth([Todo([name], cs)]) && TextOf(f) == t
  {
    ContentAfterCopy(disk, name, cs, t);
    var f := Found(Split(t, SLASH), Content(Put(disk, name, Dir(cs)), t).value);
    TreeIsListed(name, cs, f);
    JoinSplit(t, SLASH);
    assert TextOf(f) == t;
  }

  /** So does a tree copied to a free name, once its files are listed. */
  lemma CopyTreeKeeps(w: World, s: Stage, i: StagedInput)
    requires w.Sound() && Agrees(w, s) && IsName(i.dest) && Find(s.disk, i.dest).None? && CopyTree(w, s, i).Ok?
    ensures Agrees(w, CopyTree(w, s, i).value)
    ensures LinkFree(CopyTree(w, s, i).value.disk) <==>
            LinkFree(s.disk) && (SourceTree(w, i).Some? ==> LinkFree(SourceTree(w, i).value))
  {
    hide Content, ValidAll, Find, Put, LinkFree, ListAll, Breadth, TextOf, Books, SourceTree, World.Sound, Split;
    if SourceTree(w, i).Some? {
      var cs := SourceTree(w, i).value;
      var disk := Put(s.disk, i.dest, Dir(cs));
      var found := Breadth([Todo([i.dest], cs)]);
      SourceTreeValid(w, i);
      PutValid(s.disk, i.dest, Dir(cs));
      LinkFreeAfterCopy(s.disk, i.dest, cs);
      forall f | f in found ensures Content(disk, TextOf(f)) == Some(f.leaf) && IsPath(f.path) && f.path != [] {
        FoundIsContent(s.disk, i.dest, cs, f);
      }
      StageWithDisk(s, disk);
      ListAllAdds(w, s.(disk := disk), found);
      var s' := ListAll(w, s.(disk := disk), found).value;
      forall t ensures Content(disk, t).Some? <==> t in s'.used {
        ContentAfterCopy(s.disk, i.dest, cs, t);
        if Content(disk, t).Some? && Split(t, SLASH)[0] == i.dest {
          ContentIsFound(s.disk, i.dest, cs, t);
        }
      }
      forall g | g in s'.copied
        ensures Content(disk, g.path).Some? && Describes(w, g, Content(disk, g.path).value.data)
      {
        if g in s.copied {
          ContentAfterCopy(s.disk, i.dest, cs, g.path);
        }
      }
    }
  }

  lemma StageWithDisk(s: Stage, disk: seq<Child>)
    requires Books(s)
    ensures Books(s.(disk := disk))
  {
  }

  // ----- the run as a whole

  ghost predicate Under(disk: seq<Child>, tops: set<Text>) {
    forall name :: Find(disk, name).Some? ==> name in tops
  }

  /** Everything goes to a name of its own in the archive directory, and trees to names still free. */
  ghost predicate FixedPlan(todo: seq<StagedInput>, tops: set<Text>) {
    todo == [] ||
    (&& IsName(todo[0].dest) && !todo[0].kind.ExtraFile? && !todo[0].kind.ManifestJson?
     && (todo[0].kind.Tree? ==> todo[0].dest !in tops)
     && FixedPlan(todo[1..], tops + {todo[0].dest}))
  }

  /** Nothing this input brings in is a link to a file. */
  ghost predicate BringsNoLink(w: World, i: StagedInput) {
    i.kind.Tree? && SourceTree(w, i).Some? ==> LinkFree(SourceTree(w, i).value)
  }

  lemma NameIsNamed(name: Text)
    requires IsName(name)
    ensures Names(name) && Split(name, SLASH) == [name]
  {
    SplitPlain(name, SLASH);
  }

  lemma {:induction false} ListAllKeepsDisk(w: World, s: Stage, found: seq<Found>)
    requires ListAll(w, s, found).Ok?
    ensures ListAll(w, s, found).value.disk == s.disk
    decreases |found|
  {
    if found != [] {
      var rel := PathText(found[0].path);
      var used := Claim(s.used, rel).value;
      ListAllKeepsDisk(w, Stage(s.disk, used, s.copied + [EntryOf(w, rel, found[0].leaf.data, false)]), found[1..]);
    }
  }

  lemma TopsAfterStep(w: World, s: Stage, i: StagedInput, tops: set<Text>)
    requires Under(s.disk, tops) && IsName(i.dest) && Step(w, s, i).Ok?
    ensures Under(Step(w, s, i).value.disk, tops + {i.dest})
  {
    hide Names, Breadth, Normalize, ListAll, IsReserved;
    var s' := Step(w, s, i).value;
    if i.kind.Tree? {
      if SourceTree(w, i).Some? {
        var cs := SourceTree(w, i).value;
        ListAllKeepsDisk(w, s.(disk := Put(s.disk, i.dest, Dir(cs))), Breadth([Todo([i.dest], cs)]));
        forall name ensures Find(s'.disk, name).Some? ==> name in tops + {i.dest} {
          FindPut(s.disk, i.dest, Dir(cs), name);
        }
      }
    } else if w.read(i.source).Some? {
      NameIsNamed(i.dest);
      SafeJoinOfNames(w.base, i.dest);
      var written := Write(Dir(s.disk), [i.dest], w.read(i.source).value).value;
      assert s'.disk == written.children;
      forall name ensures Find(s'.disk, name).Some? ==> name in tops + {i.dest} {
        FindPut(s.disk, i.dest, File(w.read(i.source).value), name);
        FindPut(s.disk, i.dest, Link(w.read(i.source).value), name);
      }
    }
  }

  lemma FixedStepKeeps(w: World, s: Stage, i: StagedInput, tops: set<Text>)
    requires w.Sound() && Agrees(w, s) && Under(s.disk, tops) && Step(w, s, i).Ok?
    requires IsName(i.dest) && !i.kind.ExtraFile? && (i.kind.Tree? ==> i.dest !in tops)
    ensures Agrees(w, Step(w, s, i).value)
    ensures LinkFree(Step(w, s, i).value.disk) <==> LinkFree(s.disk) && BringsNoLink(w, i)
    ensures Under(Step(w, s, i).value.disk, tops + {i.dest})
  {
    hide Agrees, LinkFree, Place, CopyTree, Names;
    TopsAfterStep(w, s, i, tops);
    if i.kind.Tree? {
      CopyTreeKeeps(w, s, i);
    } else if w.read(i.source).Some? {
      NameIsNamed(i.dest);
      PlaceKeeps(w, s, i.dest, w.read(i.source).value, IsExecutable(i.kind));
    }
  }

  /** The stage after the fixed part of the plan. */
  lemma {:induction false} AfterFixed(
      w: World, i: Inputs, s: Stage, todo: seq<StagedInput>, rest: seq<StagedInput>, tops: set<Text>)
    returns (mid: Stage)
    requires w.Sound() && Agrees(w, s) && Under(s.disk, tops) && FixedPlan(todo, tops)
    requires Perform(w, i, s, todo + rest).Ok?
    ensures Agrees(w, mid)
    ensures Perform(w, i, s, todo + rest) == Perform(w, i, mid, rest)
    ensures LinkFree(mid.disk) <==> LinkFree(s.disk) && forall k :: 0 <= k < |todo| ==> BringsNoLink(w, todo[k])
    decreases |todo|
  {
    hide Agrees, LinkFree, Step, Under, World.Sound, BringsNoLink, Finish;
    if todo == [] {
      assert todo + rest == rest;
      mid := s;
    } else {
      assert (todo + rest)[1..] == todo[1..] + rest;
      FixedStepKeeps(w, s, todo[0], tops);
      mid := AfterFixed(w, i, Step(w, s, todo[0]).value, todo[1..], rest, tops + {todo[0].dest});
      assert todo == [todo[0]] + todo[1..];
    }
  }

  /** Every extra that was staged is listed under its destination, which escapes nothing. */
  lemma ExtraStepKeeps(w: World, s: Stage, i: StagedInput)
    requires w.Sound() && ValidAll(s.disk) && i.kind.ExtraFile? && !i.optional && Step(w, s, i).Ok?
    ensures var s' := Step(w, s, i).value;
            && ValidAll(s'.disk)
            && (exists f :: s'.copied == s.copied + [f] && f.path == i.dest)
            && NUL !in i.dest && BACKSLASH !in i.dest
            && (Names(i.dest) && Agrees(w, s) ==> Agrees(w, s') && (LinkFree(s'.disk) <==> LinkFree(s.disk)))
  {
    hide Agrees, LinkFree, WriteAt, Names, Normalize, Split, IsReserved;
    var data := w.read(i.source).value;
    WriteAtValid(w, s.disk, i.dest, data);
    assert Step(w, s, i) == Place(w, s, i.dest, data, false);
    assert Step(w, s, i).value.copied == s.copied + [EntryOf(w, i.dest, data, false)];
    if Names(i.dest) && Agrees(w, s) {
      PlaceKeeps(w, s, i.dest, data, false);
    }
  }

  ghost predicate AllExtra(todo: seq<StagedInput>) {
    forall k :: 0 <= k < |todo| ==> todo[k].kind.ExtraFile? && !todo[k].optional
  }

  ghost predicate AllNamed(todo: seq<StagedInput>) {
    forall k :: 0 <= k < |todo| ==> Names(todo[k].dest)
  }

  ghost predicate Lists(copied: seq<ManifestFile>, path: Text) {
    exists f :: f in copied && f.path == path
  }

  /** The stage before the manifest is written. */
  lemma {:induction false} AfterExtras(w: World, i: Inputs, s: Stage, todo: seq<StagedInput>, close: StagedInput)
    returns (last: Stage)
    requires w.Sound() && ValidAll(s.disk) && AllExtra(todo) && close.kind.ManifestJson?
    requires Perform(w, i, s, todo + [close]).Ok?
    ensures ValidAll(last.disk)
    ensures Perform(w, i, s, todo + [close]) == Finish(w, i, last)
    ensures forall f :: f in s.copied ==> f in last.copied
    ensures forall k :: 0 <= k < |todo| ==>
              Lists(last.copied, todo[k].dest) && NUL !in todo[k].dest && BACKSLASH !in todo[k].dest
    ensures Agrees(w, s) && AllNamed(todo) ==> Agrees(w, last) && (LinkFree(last.disk) <==> LinkFree(s.disk))
    decreases |todo|
  {
    hide Agrees, LinkFree, Step, World.Sound, Finish, Names;
    if todo == [] {
      last := s;
    } else {
      assert (todo + [close])[1..] == todo[1..] + [close];
      assert AllExtra(todo[1..]);
      ExtraStepKeeps(w, s, todo[0]);
      var next := Step(w, s, todo[0]).value;
      last := AfterExtras(w, i, next, todo[1..], close);
      assert todo == [todo[0]] + todo[1..];
      assert Lists(last.copied, todo[0].dest) by {
        var f :| next.copied == s.copied + [f] && f.path == todo[0].dest;
        assert f in last.copied;
      }
      assert AllNamed(todo) ==> Names(todo[0].dest) && AllNamed(todo[1..]);
    }
  }

  // ----- the fixed part of the plan

  function Fixed(i: Inputs): seq<StagedInput> {
    Binaries(i) + Documents(i) + Trees(i)
  }

  lemma NamesOfBinaries()
    ensures IsName(PI) && IsName(PI_EXE) && IsName(BUN) && IsName(BUN_EXE)
    ensures PI[0] == PI_EXE[0] == 0x70 && BUN[0] == BUN_EXE[0] == 0x62
  {
    assert PI[0] == 0x70;
  }

  lemma NamesOfHost()
    ensures IsName(HOST) && IsName(HOST_EXE) && IsName(HOST_JS)
    ensures HOST[0] == HOST_EXE[0] == HOST_JS[0] == 0x70
  {
  }

  lemma NamesOfDocuments()
    ensures IsName(CHANGELOG) && IsName(README) && IsName(LICENSE) && IsName(LICENSE_MIT)
    ensures CHANGELOG[0] == 0x43 && README[0] == 0x52 && LICENSE[0] == LICENSE_MIT[0] == 0x4c
  {
  }

  lemma NamesOfTrees()
    ensures IsName(DOCS) && IsName(ASSETS) && IsName(THEME) && IsName(RELEASE_JSON)
    ensures DOCS[0] == 0x64 && ASSETS[0] == 0x61 && THEME[0] == 0x74
  {
  }

  /** A file of the plan that no tree takes the name of. */
  ghost predicate PlainFile(i: StagedInput) {
    IsName(i.dest) && !i.kind.ExtraFile? && !i.kind.ManifestJson? && !i.kind.Tree?
    && i.dest != DOCS && i.dest != ASSETS && i.dest != THEME
  }

  lemma FilesArePlain(i: Inputs, k: nat)
    requires k < |Binaries(i) + Documents(i)|
    ensures PlainFile((Binaries(i) + Documents(i))[k])
  {
    NamesOfBinaries();
    NamesOfHost();
    NamesOfDocuments();
    NamesOfTrees();
    if k < |Binaries(i)| {
      assert (Binaries(i) + Documents(i))[k] == Binaries(i)[k];
      assert Binaries(i)[k].dest in {PI, PI_EXE, HOST, HOST_EXE, HOST_JS, BUN, BUN_EXE};
    } else {
      assert (Binaries(i) + Documents(i))[k] == Documents(i)[k - |Binaries(i)|];
      assert (Binaries(i) + Documents(i))[k].dest in {CHANGELOG, README, LICENSE, LICENSE_MIT};
    }
  }

  lemma {:induction false} FixedPlanOf(files: seq<StagedInput>, i: Inputs, tops: set<Text>)
    requires forall k :: 0 <= k < |files| ==> PlainFile(files[k])
    requires DOCS !in tops && ASSETS !in tops && THEME !in tops
    ensures FixedPlan(files + Trees(i), tops)
    decreases |files|
  {
    if files == [] {
      assert files + Trees(i) == Trees(i);
      NamesOfTrees();
      assert DOCS[0] != ASSETS[0] && DOCS[0] != THEME[0] && ASSETS[0] != THEME[0];
      var t := Trees(i);
      assert FixedPlan(t[3..], tops + {DOCS} + {ASSETS} + {THEME});
      assert t[2..][1..] == t[3..] && t[1..][1..] == t[2..];
      assert FixedPlan(t[2..], tops + {DOCS} + {ASSETS});
      assert FixedPlan(t[1..], tops + {DOCS});
    } else {
      assert (files + Trees(i))[1..] == files[1..] + Trees(i);
      FixedPlanOf(files[1..], i, tops + {files[0].dest});
    }
  }

  lemma FixedIsFixed(i: Inputs)
    ensures FixedPlan(Fixed(i), {})
  {
    hide PlainFile, Trees, Binaries, Documents;
    forall k: nat | k < |Binaries(i) + Documents(i)| ensures PlainFile((Binaries(i) + Documents(i))[k]) {
      FilesArePlain(i, k);
    }
    FixedPlanOf(Binaries(i) + Documents(i), i, {});
  }

  // ----- what a finished assembly is

  /** What a caller can see of its own extras: no empty, `.` or `..` segment. */
  predicate TidyExtras(i: Inputs) {
    forall e :: e in i.extras ==> IsTidy(Normalize(e.dest))
  }

  /** What a caller can see of its own trees: no symbolic link to a file. */
  ghost predicate LinkFreeSources(w: World, i: Inputs) {
    forall t :: t in Trees(i) ==> BringsNoLink(w, t)
  }

  lemma LinksComeFromTrees(w: World, i: Inputs)
    ensures LinkFreeSources(w, i) <==> forall k :: 0 <= k < |Fixed(i)| ==> BringsNoLink(w, Fixed(i)[k])
  {
    hide LinkFree, Trees, IsName;
    var files := Binaries(i) + Documents(i);
    if LinkFreeSources(w, i) {
      forall k | 0 <= k < |Fixed(i)| ensures BringsNoLink(w, Fixed(i)[k]) {
        if k < |files| {
          FilesArePlain(i, k);
          assert Fixed(i)[k] == files[k];
        } else {
          assert Fixed(i)[k] == Trees(i)[k - |files|];
        }
      }
    }
    if forall k :: 0 <= k < |Fixed(i)| ==> BringsNoLink(w, Fixed(i)[k]) {
      forall t | t in Trees(i) ensures BringsNoLink(w, t) {
        assert t in Fixed(i);
      }
    }
  }

  /** The stage before the manifest is written. */
  lemma BeforeManifest(w: World, i: Inputs) returns (last: Stage)
    requires w.Sound() && Assemble(w, i).Ok?
    ensures ValidAll(last.disk) && Assemble(w, i) == Finish(w, i, last)
    ensures forall e :: e in i.extras ==>
              Lists(last.copied, Normalize(e.dest)) && NUL !in Normalize(e.dest) && BACKSLASH !in Normalize(e.dest)
    ensures TidyExtras(i) ==> Agrees(w, last) && (LinkFree(last.disk) <==> LinkFreeSources(w, i))
  {
    hide Fixed, Perform, Finish, Agrees, FixedPlan, World.Sound, LinkFree, BringsNoLink, LinkFreeSources, Normalize,
         Under, IsTidy, Names;
    var empty := Stage([], {}, []);
    EmptyAgrees(w);
    FixedIsFixed(i);
    PlanSplits(i);
    var mid := AfterFixed(w, i, empty, Fixed(i), Extras(i) + [MANIFEST_INPUT], {});
    AgreesIsValid(w, mid);
    last := AfterExtras(w, i, mid, Extras(i), MANIFEST_INPUT);
    LinksComeFromTrees(w, i);
    forall e | e in i.extras
      ensures Lists(last.copied, Normalize(e.dest)) && NUL !in Normalize(e.dest) && BACKSLASH !in Normalize(e.dest)
    {
      var k :| 0 <= k < |i.extras| && i.extras[k] == e;
      assert Extras(i)[k].dest == Normalize(e.dest);
    }
    if TidyExtras(i) {
      forall k | 0 <= k < |Extras(i)| ensures Names(Extras(i)[k].dest) {
        assert i.extras[k] in i.extras;
        NamesIffTidy(Extras(i)[k].dest);
      }
    }
  }

  lemma AgreesIsValid(w: World, s: Stage)
    requires Agrees(w, s)
    ensures ValidAll(s.disk)
  {
  }

  lemma PlanSplits(i: Inputs)
    ensures StagedInputs(i) == Fixed(i) + (Extras(i) + [MANIFEST_INPUT])
  {
  }

  lemma EmptyAgrees(w: World)
    ensures Agrees(w, Stage([], {}, [])) && Under([], {}) && LinkFree([])
  {
  }

  /** The manifest is in path order, names no path twice, and lists exactly the files beside it, truly. */
  ghost predicate IsManifestOf(w: World, m: Manifest, disk: seq<Child>) {
    && Sorted(PathOf, m.files) && DistinctKeys(PathOf, m.files)
    && (forall t :: Lists(m.files, t) <==> t != RELEASE_JSON && Content(disk, t).Some?)
    && (forall f :: f in m.files ==> Content(disk, f.path).Some? && Describes(w, f, Content(disk, f.path).value.data))
    && Content(disk, RELEASE_JSON) == Some(Leaf(w.render(m), false))
  }

  lemma FinishedDisk(w: World, i: Inputs, s: Stage, t: Text)
    requires IsPath(w.base) && Finish(w, i, s).Ok?
    ensures var disk := Finish(w, i, s).value.disk;
            var linked := Content(s.disk, RELEASE_JSON).Some? && Content(s.disk, RELEASE_JSON).value.linked;
            Content(disk, t) ==
              if t == RELEASE_JSON then Some(Leaf(w.render(ManifestOf(i, s.copied)), linked)) else Content(s.disk, t)
    ensures RELEASE_JSON !in s.used
    ensures ValidAll(s.disk) ==> ValidAll(Finish(w, i, s).value.disk)
  {
    hide WriteAt, Names, ValidAll, Embeds, Content, ManifestOf, Normalize;
    NamesOfTrees();
    NameIsNamed(RELEASE_JSON);
    NormalizeNames(RELEASE_JSON);
    ContentAfterWrite(w, s.disk, RELEASE_JSON, w.render(ManifestOf(i, s.copied)), t);
    if ValidAll(s.disk) {
      WriteAtValid(w, s.disk, RELEASE_JSON, w.render(ManifestOf(i, s.copied)));
    }
  }

  lemma ListsSorted(copied: seq<ManifestFile>, t: Text)
    ensures Lists(SortBy(PathOf, copied), t) <==> Lists(copied, t)
  {
    forall f: ManifestFile ensures f in SortBy(PathOf, copied) <==> f in copied {
      SortByMembers(PathOf, copied, f);
    }
  }

  lemma ListsIsKey(copied: seq<ManifestFile>, t: Text)
    ensures Lists(copied, t) <==> t in KeysOf(PathOf, copied)
  {
  }

  lemma FinishIsExact(w: World, i: Inputs, s: Stage)
    requires IsPath(w.base) && Agrees(w, s) && Finish(w, i, s).Ok?
    ensures var a := Finish(w, i, s).value;
            && IsManifestOf(w, a.manifest, a.disk)
            && (LinkFree(a.disk) <==> LinkFree(s.disk))
  {
    hide Finish, Content, ValidAll, LinkFree, SortBy, Lists, KeysOf;
    var a := Finish(w, i, s).value;
    assert a.manifest == ManifestOf(i, s.copied) by { FinishedManifest(w, i, s); }
    FinishedDisk(w, i, s, RELEASE_JSON);
    assert Content(s.disk, RELEASE_JSON).None?;
    forall t ensures Content(a.disk, t) ==
                     if t == RELEASE_JSON then Some(Leaf(w.render(a.manifest), false)) else Content(s.disk, t) {
      FinishedDisk(w, i, s, t);
    }
    SortBySorts(PathOf, s.copied);
    SortByDistinct(PathOf, s.copied);
    forall t ensures Lists(a.manifest.files, t) <==> t != RELEASE_JSON && Content(a.disk, t).Some? {
      ListsSorted(s.copied, t);
      ListsIsKey(s.copied, t);
    }
    forall f | f in a.manifest.files
      ensures Content(a.disk, f.path).Some? && Describes(w, f, Content(a.disk, f.path).value.data)
    {
      SortByMembers(PathOf, s.copied, f);
      assert Content(s.disk, f.path).Some?;
      assert f.path != RELEASE_JSON;
    }
    LinkFreeByText(s.disk);
    LinkFreeByText(a.disk);
    forall t | Content(s.disk, t).Some? ensures Content(a.disk, t) == Content(s.disk, t) {
      assert t in s.used;
    }
  }

  lemma FinishedManifest(w: World, i: Inputs, s: Stage)
    requires Finish(w, i, s).Ok?
    ensures Finish(w, i, s).value.manifest == ManifestOf(i, s.copied)
  {
  }

  /**
   Whenever assembly succeeds, its manifest is exact if and only if every extra was given a tidy
   destination; and then links to files are on disk just when some copied tree held one.
   */
  lemma ManifestIsExact(w: World, i: Inputs)
    requires w.Sound() && Assemble(w, i).Ok?
    ensures var a := Assemble(w, i).value;
            && ValidAll(a.disk)
            && (IsManifestOf(w, a.manifest, a.disk) <==> TidyExtras(i))
            && (TidyExtras(i) ==> (LinkFree(a.disk) <==> LinkFreeSources(w, i)))
            && (!TidyExtras(i) ==> exists t :: Lists(a.manifest.files, t) && !IsTidy(t))
            && Content(a.disk, RELEASE_JSON).Some? && Content(a.disk, RELEASE_JSON).value.data == w.render(a.manifest)
  {
    hide Finish, Assemble, Agrees, LinkFree, LinkFreeSources, Content, ValidAll, SortBy, Normalize, Split, Names,
         Sorted, DistinctKeys, Describes, IsTidy;
    var a := Assemble(w, i).value;
    var last := BeforeManifest(w, i);
    FinishedDisk(w, i, last, RELEASE_JSON);
    FinishedManifest(w, i, last);
    if TidyExtras(i) {
      FinishIsExact(w, i, last);
    } else {
      var e :| e in i.extras && !IsTidy(Normalize(e.dest));
      UntidyIsListed(w, i, last, Normalize(e.dest));
    }
  }

  /** An untidy destination ends up in the manifest, and no file on disk has that path. */
  lemma UntidyIsListed(w: World, i: Inputs, last: Stage, t: Text)
    requires IsPath(w.base) && ValidAll(last.disk) && Finish(w, i, last).Ok? && Lists(last.copied, t) && !IsTidy(t)
    ensures var a := Finish(w, i, last).value;
            Lists(a.manifest.files, t) && Content(a.disk, t).None? && ValidAll(a.disk)
  {
    hide Finish, Content, ValidAll, SortBy, Lists, IsTidy, Names;
    var a := Finish(w, i, last).value;
    FinishedManifest(w, i, last);
    FinishedDisk(w, i, last, t);
    ListsSorted(last.copied, t);
    NamesIffTidy(t);
    if Content(a.disk, t).Some? {
      ContentIsNamed(a.disk, t);
    }
  }
}
