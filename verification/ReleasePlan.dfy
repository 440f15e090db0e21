/**
 Which releases can be assembled and what is in them, said of the inputs: every file that was supplied arrives
 under its own name with its own bytes, nothing else does, and assembly fails exactly when something required is
 missing or an extra gets in the way.
 */
module ReleasePlan {
  import opened Prelude
  import opened Strings
  import opened Ordering
  import opened FileTree
  import opened ReleasePaths
  import opened TreeListing
  import opened Release

  // ----- what one input brings

  ghost predicate Present(w: World, i: StagedInput) {
    if i.kind.Tree? then SourceTree(w, i).Some? else w.read(i.source).Some?
  }

  /** The manifest entries of one input: one for a file, one for each file of a tree. */
  ghost predicate Brings(w: World, i: StagedInput, f: ManifestFile) {
    Present(w, i) &&
    if i.kind.Tree? then
      exists q :: LeafAt(Dir(SourceTree(w, i).value), q).Some?
                  && f == EntryOf(w, PathText([i.dest] + q), LeafAt(Dir(SourceTree(w, i).value), q).value.data, false)
    else f == EntryOf(w, i.dest, w.read(i.source).value, IsExecutable(i.kind))
  }

  lemma {:induction false} ListAllLists(w: World, s: Stage, found: seq<Found>, f: ManifestFile)
    requires ListAll(w, s, found).Ok?
    ensures f in ListAll(w, s, found).value.copied <==>
            f in s.copied || exists g :: g in found && f == EntryOf(w, PathText(g.path), g.leaf.data, false)
    decreases |found|
  {
    hide Normalize, PathText;
    if found != [] {
      var rel := PathText(found[0].path);
      var used := Claim(s.used, rel).value;
      var next := Stage(s.disk, used, s.copied + [EntryOf(w, rel, found[0].leaf.data, false)]);
      ListAllLists(w, next, found[1..], f);
      assert found == [found[0]] + found[1..];
    }
  }

  lemma TreeBrings(w: World, i: StagedInput, f: ManifestFile)
    requires w.Sound() && i.kind.Tree? && SourceTree(w, i).Some? && IsName(i.dest)
    ensures Brings(w, i, f) <==>
            exists g :: g in Breadth([Todo([i.dest], SourceTree(w, i).value)])
                        && f == EntryOf(w, PathText(g.path), g.leaf.data, false)
  {
    hide Breadth, PathText, World.Sound, SourceTree, EntryOf, LeafAt;
    var cs := SourceTree(w, i).value;
    SourceTreeValid(w, i);
    if Brings(w, i, f) {
      var q :| LeafAt(Dir(cs), q).Some?
               && f == EntryOf(w, PathText([i.dest] + q), LeafAt(Dir(cs), q).value.data, false);
      var g := Found([i.dest] + q, LeafAt(Dir(cs), q).value);
      assert g.path[1..] == q;
      TreeIsListed(i.dest, cs, g);
    }
    if exists g :: g in Breadth([Todo([i.dest], cs)]) && f == EntryOf(w, PathText(g.path), g.leaf.data, false) {
      var g :| g in Breadth([Todo([i.dest], cs)]) && f == EntryOf(w, PathText(g.path), g.leaf.data, false);
      TreeIsListed(i.dest, cs, g);
      var q := g.path[1..];
      assert g.path == [i.dest] + q;
      assert LeafAt(Dir(cs), q).Some?;
    }
  }

  lemma StepBrings(w: World, s: Stage, i: StagedInput, f: ManifestFile)
    requires w.Sound() && Step(w, s, i).Ok? && !i.kind.ManifestJson? && (i.kind.Tree? ==> IsName(i.dest))
    ensures f in Step(w, s, i).value.copied <==> f in s.copied || Brings(w, i, f)
    ensures Present(w, i) || i.optional
  {
    hide Breadth, PathText, World.Sound, ListAll, Normalize, IsReserved, WriteAt, LeafAt;
    if i.kind.Tree? {
      if SourceTree(w, i).Some? {
        var cs := SourceTree(w, i).value;
        TreeBrings(w, i, f);
        ListAllLists(w, s.(disk := Put(s.disk, i.dest, Dir(cs))), Breadth([Todo([i.dest], cs)]), f);
      }
    }
  }

  /** Inputs other than the manifest, trees at plain names. */
  ghost predicate Ordinary(ins: seq<StagedInput>) {
    forall k :: 0 <= k < |ins| ==> !ins[k].kind.ManifestJson? && (ins[k].kind.Tree? ==> IsName(ins[k].dest))
  }

  lemma {:induction false} RunBrings(
      w: World, i: Inputs, s: Stage, todo: seq<StagedInput>, close: StagedInput, f: ManifestFile)
    requires w.Sound() && Ordinary(todo) && close.kind.ManifestJson? && Perform(w, i, s, todo + [close]).Ok?
    ensures f in Perform(w, i, s, todo + [close]).value.manifest.files <==>
            f in s.copied || exists k :: 0 <= k < |todo| && Brings(w, todo[k], f)
    ensures forall k :: 0 <= k < |todo| ==> Present(w, todo[k]) || todo[k].optional
    decreases |todo|
  {
    hide Step, World.Sound, Finish, Brings, Present, IsName;
    if todo == [] {
      assert todo + [close] == [close];
      FinishedManifest(w, i, s);
      SortByMembers(PathOf, s.copied, f);
    } else {
      assert (todo + [close])[1..] == todo[1..] + [close] && (todo + [close])[0] == todo[0];
      StepBrings(w, s, todo[0], f);
      RunBrings(w, i, Step(w, s, todo[0]).value, todo[1..], close, f);
      assert todo == [todo[0]] + todo[1..];
      if exists k :: 0 <= k < |todo[1..]| && Brings(w, todo[1..][k], f) {
        var k :| 0 <= k < |todo[1..]| && Brings(w, todo[1..][k], f);
        assert Brings(w, todo[k + 1], f);
      }
    }
  }

  ghost function Planned(i: Inputs): seq<StagedInput> {
    Fixed(i) + Extras(i)
  }

  lemma PlannedIsOrdinary(i: Inputs)
    ensures Ordinary(Planned(i)) && StagedInputs(i) == Planned(i) + [MANIFEST_INPUT]
  {
    hide IsName, Binaries, Documents, Normalize;
    var files := Binaries(i) + Documents(i);
    NamesOfTrees();
    forall k | 0 <= k < |Planned(i)|
      ensures !Planned(i)[k].kind.ManifestJson? && (Planned(i)[k].kind.Tree? ==> IsName(Planned(i)[k].dest))
    {
      if k < |files| {
        FilesArePlain(i, k);
        assert Planned(i)[k] == files[k];
      } else if k < |files| + 3 {
        assert Planned(i)[k] == Trees(i)[k - |files|];
      } else {
        assert Planned(i)[k] == Extras(i)[k - |files| - 3];
      }
    }
    assert StagedInputs(i) == Planned(i) + [MANIFEST_INPUT];
  }

  /**
   Whenever assembly succeeds, the manifest lists exactly what the inputs bring, and every input that is not
   optional was there.
   */
  lemma MembersAreInputs(w: World, i: Inputs, f: ManifestFile)
    requires w.Sound() && Assemble(w, i).Ok?
    ensures f in Assemble(w, i).value.manifest.files <==>
            exists k :: 0 <= k < |Planned(i)| && Brings(w, Planned(i)[k], f)
    ensures forall k :: 0 <= k < |Planned(i)| ==> Present(w, Planned(i)[k]) || Planned(i)[k].optional
  {
    hide Perform, World.Sound, Brings, Present, Ordinary, Planned, StagedInputs;
    PlannedIsOrdinary(i);
    RunBrings(w, i, Stage([], {}, []), Planned(i), MANIFEST_INPUT, f);
  }

  // ----- the members by name

  /** This file is in the release, as these bytes. */
  ghost predicate Ships(w: World, i: Inputs, path: Text, source: Text, executable: bool)
    requires Assemble(w, i).Ok?
  {
    && w.read(source).Some?
    && var data := w.read(source).value;
       ManifestFile(path, |data|, w.hash(data), executable) in Assemble(w, i).value.manifest.files
  }

  /** Every file below this directory is in the release, with its bytes. */
  ghost predicate ShipsTree(w: World, i: Inputs, name: Text, source: Text)
    requires Assemble(w, i).Ok?
  {
    && w.tree(source).Some? && w.tree(source).value.Dir?
    && forall q :: LeafAt(w.tree(source).value, q).Some? ==>
                     var data := LeafAt(w.tree(source).value, q).value.data;
                     ManifestFile(name + [SLASH] + PathText(q), |data|, w.hash(data), false)
                       in Assemble(w, i).value.manifest.files
  }

  lemma FileShips(w: World, i: Inputs, k: nat, kind: Kind, source: Text, path: Text)
    requires w.Sound() && Assemble(w, i).Ok? && k < |Planned(i)| && !kind.Tree?
    requires Planned(i)[k] == StagedInput(kind, source, path, false)
    ensures Ships(w, i, path, source, kind.RustBinary? || kind.HostBinary? || kind.BunRuntime?)
  {
    hide World.Sound, Assemble, Planned;
    var f := if w.read(source).Some? then EntryOf(w, path, w.read(source).value, IsExecutable(kind))
             else EntryOf(w, path, [], false);
    MembersAreInputs(w, i, f);
    assert Present(w, Planned(i)[k]);
    assert Brings(w, Planned(i)[k], f);
  }

  lemma TreeShips(w: World, i: Inputs, k: nat, source: Text, name: Text)
    requires w.Sound() && Assemble(w, i).Ok? && k < |Planned(i)|
    requires Planned(i)[k] == StagedInput(Tree, source, name, false)
    ensures source != [] && ShipsTree(w, i, name, source)
  {
    hide World.Sound, Assemble, Planned, LeafAt, PathText;
    MembersAreInputs(w, i, EntryOf(w, [], [], false));
    var t := Planned(i)[k];
    assert Present(w, t);
    forall q | LeafAt(w.tree(source).value, q).Some?
      ensures var data := LeafAt(w.tree(source).value, q).value.data;
              ManifestFile(name + [SLASH] + PathText(q), |data|, w.hash(data), false)
                in Assemble(w, i).value.manifest.files
    {
      var data := LeafAt(w.tree(source).value, q).value.data;
      LeafIsBelow(w.tree(source).value, q);
      TextBelow(name, q);
      var f := EntryOf(w, PathText([name] + q), data, false);
      assert Brings(w, t, f);
      MembersAreInputs(w, i, f);
    }
  }

  lemma LeafIsBelow(n: Node, q: Path)
    requires n.Dir? && LeafAt(n, q).Some?
    ensures q != []
  {
  }

  lemma TextBelow(name: Text, q: Path)
    requires q != []
    ensures PathText([name] + q) == name + [SLASH] + PathText(q)
  {
    assert ([name] + q)[1..] == q;
  }

  /** Where the parts of the plan stand. */
  lemma PlannedAt(i: Inputs, k: nat)
    ensures k < |Binaries(i)| ==> k < |Planned(i)| && Planned(i)[k] == Binaries(i)[k]
    ensures k < 4 ==> |Binaries(i)| + k < |Planned(i)| && Planned(i)[|Binaries(i)| + k] == Documents(i)[k]
    ensures k < 3 ==> |Binaries(i)| + 4 + k < |Planned(i)| && Planned(i)[|Binaries(i)| + 4 + k] == Trees(i)[k]
  {
    hide Binaries, Extras;
    assert |Documents(i)| == 4 && |Trees(i)| == 3;
  }

  lemma BinaryShips(w: World, i: Inputs)
    requires w.Sound() && Assemble(w, i).Ok?
    ensures Ships(w, i, if i.windows then PI_EXE else PI, i.pi, true)
  {
    hide World.Sound, Assemble, Ships, Planned;
    PlannedAt(i, 0);
    FileShips(w, i, 0, RustBinary, i.pi, if i.windows then PI_EXE else PI);
  }

  lemma HostShips(w: World, i: Inputs)
    requires w.Sound() && Assemble(w, i).Ok?
    ensures match i.host
            case Compiled(binary) => Ships(w, i, if i.windows then HOST_EXE else HOST, binary, true)
            case Bundle(script, runtime) =>
              && Ships(w, i, HOST_JS, script, false) && runtime.Some? && runtime.value != []
              && Ships(w, i, if i.windows then BUN_EXE else BUN, runtime.value, true)
  {
    hide World.Sound, Assemble, Ships, Planned;
    PlannedAt(i, 1);
    PlannedAt(i, 2);
    match i.host
    case Compiled(binary) => FileShips(w, i, 1, HostBinary, binary, if i.windows then HOST_EXE else HOST);
    case Bundle(script, runtime) =>
      RuntimeIsGiven(w, i);
      FileShips(w, i, 1, HostBundle, script, HOST_JS);
      FileShips(w, i, 2, BunRuntime, runtime.value, if i.windows then BUN_EXE else BUN);
  }

  lemma FallbackShips(w: World, i: Inputs)
    requires w.Sound() && Assemble(w, i).Ok? && i.fallback.Some?
    ensures Ships(w, i, HOST_JS, i.fallback.value.script, false)
    ensures Ships(w, i, if i.windows then BUN_EXE else BUN, i.fallback.value.runtime, true)
  {
    hide World.Sound, Assemble, Ships, Planned;
    var n := |Binaries(i)|;
    PlannedAt(i, n - 2);
    PlannedAt(i, n - 1);
    FileShips(w, i, n - 2, HostBundle, i.fallback.value.script, HOST_JS);
    FileShips(w, i, n - 1, BunRuntime, i.fallback.value.runtime, if i.windows then BUN_EXE else BUN);
  }

  lemma DocumentsShip(w: World, i: Inputs)
    requires w.Sound() && Assemble(w, i).Ok?
    ensures Ships(w, i, CHANGELOG, i.repoRoot + [SLASH] + CHANGELOG, false)
    ensures Ships(w, i, README, i.repoRoot + [SLASH] + README, false)
    ensures i.docs != [] && ShipsTree(w, i, DOCS, i.docs)
  {
    hide World.Sound, Assemble, Ships, ShipsTree, Planned, Binaries;
    var n := |Binaries(i)|;
    PlannedAt(i, 0);
    PlannedAt(i, 1);
    FileShips(w, i, n, Metadata, i.repoRoot + [SLASH] + CHANGELOG, CHANGELOG);
    FileShips(w, i, n + 1, Metadata, i.repoRoot + [SLASH] + README, README);
    TreeShips(w, i, n + 4, i.docs, DOCS);
  }

  /**
   Every release has its binary and its host as executables, its script and runtime if it has a bundle, its
   change log, its readme and all of its documentation, each with the bytes of its source.
   */
  lemma RequiredMembersShip(w: World, i: Inputs)
    requires w.Sound() && Assemble(w, i).Ok?
    ensures Ships(w, i, if i.windows then PI_EXE else PI, i.pi, true)
    ensures match i.host
            case Compiled(binary) =>
              Ships(w, i, if i.windows then HOST_EXE else HOST, binary, true)
            case Bundle(script, runtime) =>
              && Ships(w, i, HOST_JS, script, false)
              && runtime.Some? && runtime.value != []
              && Ships(w, i, if i.windows then BUN_EXE else BUN, runtime.value, true)
    ensures i.fallback.Some? ==>
              && Ships(w, i, HOST_JS, i.fallback.value.script, false)
              && Ships(w, i, if i.windows then BUN_EXE else BUN, i.fallback.value.runtime, true)
    ensures Ships(w, i, CHANGELOG, i.repoRoot + [SLASH] + CHANGELOG, false)
    ensures Ships(w, i, README, i.repoRoot + [SLASH] + README, false)
    ensures i.docs != [] && ShipsTree(w, i, DOCS, i.docs)
  {
    hide World.Sound, Assemble, Ships, ShipsTree;
    BinaryShips(w, i);
    HostShips(w, i);
    if i.fallback.Some? {
      FallbackShips(w, i);
    }
    DocumentsShip(w, i);
  }

  // ----- every member by name, and no other

  ghost predicate FromFile(w: World, f: ManifestFile, path: Text, source: Text, executable: bool) {
    && w.read(source).Some?
    && var data := w.read(source).value;
       f == ManifestFile(path, |data|, w.hash(data), executable)
  }

  ghost predicate FromTree(w: World, f: ManifestFile, name: Text, source: Text) {
    && source != [] && w.tree(source).Some? && w.tree(source).value.Dir?
    && exists q :: LeafAt(w.tree(source).value, q).Some?
                   && var data := LeafAt(w.tree(source).value, q).value.data;
                      f == ManifestFile(name + [SLASH] + PathText(q), |data|, w.hash(data), false)
  }

  ghost predicate FromHost(w: World, i: Inputs, f: ManifestFile) {
    match i.host
    case Compiled(binary) => FromFile(w, f, if i.windows then HOST_EXE else HOST, binary, true)
    case Bundle(script, runtime) =>
      FromBundle(w, i, f, script, if runtime.Some? then runtime.value else [])
  }

  ghost predicate FromBundle(w: World, i: Inputs, f: ManifestFile, script: Text, runtime: Text) {
    FromFile(w, f, HOST_JS, script, false) || FromFile(w, f, if i.windows then BUN_EXE else BUN, runtime, true)
  }

  ghost predicate FromRepository(w: World, i: Inputs, f: ManifestFile) {
    || FromFile(w, f, CHANGELOG, i.repoRoot + [SLASH] + CHANGELOG, false)
    || FromFile(w, f, README, i.repoRoot + [SLASH] + README, false)
    || FromFile(w, f, LICENSE, i.repoRoot + [SLASH] + LICENSE, false)
    || FromFile(w, f, LICENSE_MIT, i.repoRoot + [SLASH] + LICENSE_MIT, false)
  }

  ghost predicate FromTrees(w: World, i: Inputs, f: ManifestFile) {
    || FromTree(w, f, DOCS, i.docs)
    || (i.assets.Some? && FromTree(w, f, ASSETS, i.assets.value))
    || FromTree(w, f, THEME, i.repoRoot + Units("/crates/pi/assets/theme"))
  }

  ghost predicate FromExtras(w: World, i: Inputs, f: ManifestFile) {
    exists x :: x in i.extras && FromFile(w, f, Normalize(x.dest), x.source, false)
  }

  ghost predicate SomeBrings(w: World, ins: seq<StagedInput>, f: ManifestFile) {
    exists i :: i in ins && Brings(w, i, f)
  }

  lemma FileBrings(w: World, i: StagedInput, f: ManifestFile)
    requires !i.kind.Tree?
    ensures Brings(w, i, f) <==>
            FromFile(w, f, i.dest, i.source, i.kind.RustBinary? || i.kind.HostBinary? || i.kind.BunRuntime?)
  {
  }

  lemma DirectoryBrings(w: World, i: StagedInput, f: ManifestFile)
    requires i.kind.Tree?
    ensures Brings(w, i, f) <==> FromTree(w, f, i.dest, i.source)
  {
    hide LeafAt, PathText;
    if SourceTree(w, i).Some? {
      var n := w.tree(i.source).value;
      forall q | LeafAt(n, q).Some?
        ensures PathText([i.dest] + q) == i.dest + [SLASH] + PathText(q)
      {
        LeafIsBelow(n, q);
        TextBelow(i.dest, q);
      }
    }
  }

  lemma EitherBrings(w: World, a: seq<StagedInput>, b: seq<StagedInput>, f: ManifestFile)
    ensures SomeBrings(w, a + b, f) <==> SomeBrings(w, a, f) || SomeBrings(w, b, f)
  {
    hide Brings;
  }

  lemma BundleBrings(w: World, i: Inputs, script: Text, runtime: Text, f: ManifestFile)
    ensures SomeBrings(w, BundleInputs(i, script, runtime), f) <==> FromBundle(w, i, f, script, runtime)
  {
    hide Brings, FromFile;
    var a := StagedInput(HostBundle, script, HOST_JS, false);
    var b := StagedInput(BunRuntime, runtime, if i.windows then BUN_EXE else BUN, false);
    FileBrings(w, a, f);
    FileBrings(w, b, f);
    assert [a, b] == [a] + [b];
    EitherBrings(w, [a], [b], f);
    OneBrings(w, a, f);
    OneBrings(w, b, f);
  }

  lemma OneBrings(w: World, i: StagedInput, f: ManifestFile)
    ensures SomeBrings(w, [i], f) <==> Brings(w, i, f)
  {
    hide Brings;
    if Brings(w, i, f) {
      assert i in [i] && Brings(w, i, f);
    }
    if SomeBrings(w, [i], f) {
      var x :| x in [i] && Brings(w, x, f);
      assert x == i;
    }
  }

  ghost function HostInputs(i: Inputs): seq<StagedInput> {
    match i.host
    case Compiled(binary) => [StagedInput(HostBinary, binary, if i.windows then HOST_EXE else HOST, false)]
    case Bundle(script, runtime) => BundleInputs(i, script, if runtime.Some? then runtime.value else [])
  }

  ghost function FallbackInputs(i: Inputs): seq<StagedInput> {
    if i.fallback.None? then [] else BundleInputs(i, i.fallback.value.script, i.fallback.value.runtime)
  }

  ghost function BundleInputs(i: Inputs, script: Text, runtime: Text): seq<StagedInput> {
    [StagedInput(HostBundle, script, HOST_JS, false),
     StagedInput(BunRuntime, runtime, if i.windows then BUN_EXE else BUN, false)]
  }

  lemma BinariesBring(w: World, i: Inputs, f: ManifestFile)
    ensures SomeBrings(w, Binaries(i), f) <==>
            || FromFile(w, f, if i.windows then PI_EXE else PI, i.pi, true)
            || FromHost(w, i, f)
            || (i.fallback.Some? && FromBundle(w, i, f, i.fallback.value.script, i.fallback.value.runtime))
  {
    hide Brings, FromFile, FromBundle, SomeBrings;
    var first := StagedInput(RustBinary, i.pi, if i.windows then PI_EXE else PI, false);
    var host, fallback := HostInputs(i), FallbackInputs(i);
    OneBrings(w, first, f);
    FileBrings(w, first, f);
    match i.host {
      case Compiled(binary) =>
        OneBrings(w, host[0], f);
        FileBrings(w, host[0], f);
      case Bundle(script, runtime) =>
        BundleBrings(w, i, script, if runtime.Some? then runtime.value else [], f);
    }
    if i.fallback.Some? {
      BundleBrings(w, i, i.fallback.value.script, i.fallback.value.runtime, f);
    } else {
      NoneBrings(w, f);
    }
    assert Binaries(i) == [first] + host + fallback;
    EitherBrings(w, [first] + host, fallback, f);
    EitherBrings(w, [first], host, f);
  }

  lemma NoneBrings(w: World, f: ManifestFile)
    ensures !SomeBrings(w, [], f)
  {
  }

  lemma DocumentsBring(w: World, i: Inputs, f: ManifestFile)
    ensures SomeBrings(w, Documents(i), f) <==> FromRepository(w, i, f)
  {
    hide Brings, FromFile;
    var ds := Documents(i);
    FileBrings(w, ds[0], f);
    FileBrings(w, ds[1], f);
    FileBrings(w, ds[2], f);
    FileBrings(w, ds[3], f);
    assert ds == [ds[0], ds[1], ds[2], ds[3]];
  }

  lemma TreesBring(w: World, i: Inputs, f: ManifestFile)
    ensures SomeBrings(w, Trees(i), f) <==> FromTrees(w, i, f)
  {
    hide Brings;
    var ts := Trees(i);
    DirectoryBrings(w, ts[0], f);
    DirectoryBrings(w, ts[1], f);
    DirectoryBrings(w, ts[2], f);
    assert ts == [ts[0], ts[1], ts[2]];
  }

  lemma ExtrasBring(w: World, i: Inputs, f: ManifestFile)
    ensures SomeBrings(w, Extras(i), f) <==> FromExtras(w, i, f)
  {
    hide Brings, FromFile, Normalize;
    forall k | 0 <= k < |i.extras|
      ensures Brings(w, Extras(i)[k], f) <==>
              FromFile(w, f, Normalize(i.extras[k].dest), i.extras[k].source, false)
      ensures Extras(i)[k] in Extras(i)
    {
      FileBrings(w, Extras(i)[k], f);
    }
    if SomeBrings(w, Extras(i), f) {
      var x :| x in Extras(i) && Brings(w, x, f);
      var k :| 0 <= k < |Extras(i)| && Extras(i)[k] == x;
      assert i.extras[k] in i.extras;
    }
    if FromExtras(w, i, f) {
      var x :| x in i.extras && FromFile(w, f, Normalize(x.dest), x.source, false);
      var k :| 0 <= k < |i.extras| && i.extras[k] == x;
      assert Brings(w, Extras(i)[k], f);
    }
  }

  /**
   The members of a release by name: the binary, the host with its script and runtime, the fallback, the four
   documents that are there, the files below the three directories that are there and the extras; no others.
   */
  lemma MembersByName(w: World, i: Inputs, f: ManifestFile)
    requires w.Sound() && Assemble(w, i).Ok?
    ensures f in Assemble(w, i).value.manifest.files <==>
            || FromFile(w, f, if i.windows then PI_EXE else PI, i.pi, true)
            || FromHost(w, i, f)
            || (i.fallback.Some? && FromBundle(w, i, f, i.fallback.value.script, i.fallback.value.runtime))
            || FromRepository(w, i, f) || FromTrees(w, i, f) || FromExtras(w, i, f)
  {
    hide World.Sound, Assemble, Brings, Binaries, Documents, Trees, Extras, FromFile, FromHost, FromRepository,
         FromTrees, FromExtras, FromBundle;
    MembersAreInputs(w, i, f);
    BinariesBring(w, i, f);
    DocumentsBring(w, i, f);
    TreesBring(w, i, f);
    ExtrasBring(w, i, f);
    assert Planned(i) == Binaries(i) + Documents(i) + Trees(i) + Extras(i);
    assert SomeBrings(w, Planned(i), f) <==>
           exists k :: 0 <= k < |Planned(i)| && Brings(w, Planned(i)[k], f);
  }

  /** How the names that the staging plan writes are spelled. */
  lemma NamesAreSpelled()
    ensures PI == [0x70, 0x69]
    ensures PI_EXE == [0x70, 0x69, 0x2e, 0x65, 0x78, 0x65]
    ensures HOST == PI + [0x2d, 0x65, 0x78, 0x74, 0x65, 0x6e, 0x73, 0x69, 0x6f, 0x6e, 0x2d, 0x68, 0x6f, 0x73, 0x74]
    ensures HOST_JS == HOST + [0x2e, 0x6a, 0x73]
    ensures BUN == [0x62, 0x75, 0x6e]
    ensures BUN_EXE == [0x62, 0x75, 0x6e, 0x2e, 0x65, 0x78, 0x65]
    ensures HOST_EXE == HOST + [0x2e, 0x65, 0x78, 0x65]
  {
  }

  lemma DocumentsAreSpelled()
    ensures CHANGELOG == [0x43, 0x48, 0x41, 0x4e, 0x47, 0x45, 0x4c, 0x4f, 0x47, 0x2e, 0x6d, 0x64]
    ensures README == [0x52, 0x45, 0x41, 0x44, 0x4d, 0x45, 0x2e, 0x6d, 0x64]
    ensures DOCS == [0x64, 0x6f, 0x63, 0x73]
    ensures RELEASE_JSON == [0x72, 0x65, 0x6c, 0x65, 0x61, 0x73, 0x65, 0x2e, 0x6a, 0x73, 0x6f, 0x6e]
    ensures LICENSE == [0x4c, 0x49, 0x43, 0x45, 0x4e, 0x53, 0x45]
    ensures LICENSE_MIT == LICENSE + [0x2d, 0x4d, 0x49, 0x54]
    ensures ASSETS == [0x61, 0x73, 0x73, 0x65, 0x74, 0x73]
    ensures THEME == [0x74, 0x68, 0x65, 0x6d, 0x65]
  {
  }

  lemma RuntimeIsGiven(w: World, i: Inputs)
    requires Assemble(w, i).Ok? && i.host.Bundle?
    ensures i.host.runtime.Some? && i.host.runtime.value != []
  {
    hide Finish, CopyFile, CopyTree, IsReserved;
    var todo := StagedInputs(i);
    assert todo[1] == Binaries(i)[1] && todo[2] == Binaries(i)[2];
    RunReaches(w, i, Stage([], {}, []), todo, 2);
  }

  /** A run that succeeds took every step before the manifest. */
  lemma {:induction false} RunReaches(w: World, i: Inputs, s: Stage, todo: seq<StagedInput>, k: nat)
    requires k < |todo| && Perform(w, i, s, todo).Ok? && forall j :: 0 <= j <= k ==> !todo[j].kind.ManifestJson?
    ensures todo[k].kind.BunRuntime? ==> todo[k].source != []
    decreases k
  {
    hide Finish, CopyFile, CopyTree, IsReserved;
    if k > 0 {
      RunReaches(w, i, Step(w, s, todo[0]).value, todo[1..], k - 1);
    }
  }
}
