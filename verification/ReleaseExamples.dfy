/**
 Two releases that assemble without complaint and that the verifier then refuses: one with an extra for
 `./x`, one with a link in its documentation.
 */
module ReleaseExamples {
  import opened Prelude
  import opened Strings
  import opened FileTree
  import opened ReleasePaths
  import opened TreeListing
  import opened Release
  import ReleaseVerifier

  const DOCS_SOURCE: Text := [4]
  const X: Text := [0x78]

  /** Every source file can be read and is empty; the documentation tree is the only tree. */
  ghost predicate Plain(w: World, docs: seq<Child>) {
    && w.Sound() && w.executable
    && (forall source :: w.read(source) == Some([]))
    && forall source :: w.tree(source) == if source == DOCS_SOURCE then Some(Dir(docs)) else None
  }

  function Example(extras: seq<Extra>): Inputs {
    Inputs(false, About([], [], [], [], 0, 0, []), [1], [2], Compiled([3]), None, DOCS_SOURCE, None, extras)
  }

  /** Only these names are taken, on disk and in the books. */
  ghost predicate Taken(s: Stage, names: set<Text>) {
    Under(s.disk, names) && s.used <= names
  }

  lemma WriteFresh(w: World, s: Stage, name: Text, data: Bytes, names: set<Text>)
    requires IsName(name) && Taken(s, names) && name !in names
    ensures WriteAt(w, s.disk, name, data).Ok? && Normalize(name) == name && Claim(s.used, name) == Ok(s.used + {name})
  {
    NameIsNamed(name);
    SafeJoinOfNames(w.base, name);
    NormalizeNames(name);
  }

  ghost predicate IsPlainFile(i: StagedInput) {
    i.kind in {RustBinary, HostBinary, Metadata} && IsName(i.dest)
  }

  lemma FileStep(w: World, s: Stage, i: StagedInput, names: set<Text>)
    requires w.read(i.source) == Some([]) && IsPlainFile(i) && Taken(s, names) && i.dest !in names
    ensures Step(w, s, i).Ok? && Taken(Step(w, s, i).value, names + {i.dest})
    ensures !i.kind.ManifestJson?
  {
    hide WriteAt, Normalize, IsName;
    WriteFresh(w, s, i.dest, [], names);
    TopsAfterStep(w, s, i, names);
  }

  ghost function Dests(files: seq<StagedInput>): set<Text> {
    set f | f in files :: f.dest
  }

  lemma NoDests()
    ensures Dests([]) == {}
  {
  }

  lemma DestsCons(f: StagedInput, files: seq<StagedInput>)
    ensures Dests([f] + files) == {f.dest} + Dests(files)
  {
  }

  lemma PerformStep(w: World, i: Inputs, s: Stage, first: StagedInput, rest: seq<StagedInput>)
    requires !first.kind.ManifestJson? && Step(w, s, first).Ok?
    ensures Perform(w, i, s, [first] + rest) == Perform(w, i, Step(w, s, first).value, rest)
  {
  }

  /** Files with names of different lengths never get into each other's way. */
  lemma {:induction false} FilesGoThrough(
      w: World, i: Inputs, s: Stage, files: seq<StagedInput>, rest: seq<StagedInput>, names: set<Text>)
    returns (mid: Stage)
    requires forall source :: w.read(source) == Some([])
    requires forall k :: 0 <= k < |files| ==> IsPlainFile(files[k]) && files[k].dest !in names
    requires forall j, k :: 0 <= j < k < |files| ==> |files[j].dest| != |files[k].dest|
    requires Taken(s, names)
    ensures Perform(w, i, s, files + rest) == Perform(w, i, mid, rest)
    ensures Taken(mid, names + Dests(files))
    decreases |files|
  {
    hide Step, Taken, IsPlainFile, Perform, Dests;
    if files == [] {
      assert files + rest == rest;
      NoDests();
      assert names + Dests(files) == names;
      mid := s;
    } else {
      var f := files[0];
      assert files + rest == [f] + (files[1..] + rest);
      FileStep(w, s, f, names);
      PerformStep(w, i, s, f, files[1..] + rest);
      forall k | 0 <= k < |files[1..]| ensures IsPlainFile(files[1..][k]) && files[1..][k].dest !in names + {f.dest} {
        assert |files[0].dest| != |files[k + 1].dest|;
      }
      mid := FilesGoThrough(w, i, Step(w, s, f).value, files[1..], rest, names + {f.dest});
      assert files == [f] + files[1..];
      DestsCons(f, files[1..]);
      assert names + {f.dest} + Dests(files[1..]) == names + Dests(files);
    }
  }

  function Files(i: Inputs): seq<StagedInput> {
    Binaries(i) + Documents(i)
  }

  ghost predicate FileNames(names: set<Text>) {
    forall n :: n in names ==> n in {PI, HOST, CHANGELOG, README, LICENSE, LICENSE_MIT}
  }

  lemma ExampleFiles(extras: seq<Extra>)
    ensures var files := Files(Example(extras));
            && |files| == 6 && files[0].dest == PI && files[1].dest == HOST && files[2].dest == CHANGELOG
            && files[3].dest == README && files[4].dest == LICENSE && files[5].dest == LICENSE_MIT
            && forall k :: 0 <= k < 6 ==> files[k].kind in {RustBinary, HostBinary, Metadata}
  {
  }

  lemma ExampleFilesArePlain(extras: seq<Extra>)
    ensures var files := Files(Example(extras));
            && (forall k :: 0 <= k < |files| ==> IsPlainFile(files[k]))
            && (forall j, k :: 0 <= j < k < |files| ==> |files[j].dest| != |files[k].dest|)
            && FileNames({} + Dests(files))
  {
    hide IsName, Binaries, Documents, Files, Example;
    ExampleFiles(extras);
    NamesOfBinaries();
    NamesOfHost();
    NamesOfDocuments();
  }

  /** Up to the documentation tree. */
  lemma FilesOfExample(w: World, docs: seq<Child>, extras: seq<Extra>) returns (mid: Stage, names: set<Text>)
    requires Plain(w, docs)
    ensures var i := Example(extras);
            Assemble(w, i) == Perform(w, i, mid, Trees(i) + (Extras(i) + [MANIFEST_INPUT]))
    ensures Taken(mid, names) && FileNames(names)
  {
    hide Perform, IsPlainFile, Trees, Extras, World.Sound, Binaries, Documents, Example, FileNames;
    var i := Example(extras);
    var files := Files(i);
    ExampleFilesArePlain(extras);
    assert StagedInputs(i) == files + (Trees(i) + (Extras(i) + [MANIFEST_INPUT]));
    assert Taken(Stage([], {}, []), {});
    mid := FilesGoThrough(w, i, Stage([], {}, []), files, Trees(i) + (Extras(i) + [MANIFEST_INPUT]), {});
    names := {} + Dests(files);
  }

  /** The optional trees are missing and are passed over. */
  lemma TreesOfExample(w: World, docs: seq<Child>, extras: seq<Extra>, mid: Stage, rest: seq<StagedInput>)
    requires Plain(w, docs)
    ensures var i := Example(extras);
            var copied := ListAll(w, mid.(disk := Put(mid.disk, DOCS, Dir(docs))), Breadth([Todo([DOCS], docs)]));
            copied.Ok? ==> Perform(w, i, mid, Trees(i) + rest) == Perform(w, i, copied.value, rest)
  {
    hide ListAll, Breadth, Put, World.Sound, Finish, Normalize, Perform;
    var i := Example(extras);
    var t := Trees(i);
    var copied := ListAll(w, mid.(disk := Put(mid.disk, DOCS, Dir(docs))), Breadth([Todo([DOCS], docs)]));
    assert Step(w, mid, t[0]) == copied;
    if copied.Ok? {
      assert t + rest == [t[0]] + ([t[1]] + ([t[2]] + rest));
      assert |t[2].source| > 1;
      PerformStep(w, i, mid, t[0], [t[1]] + ([t[2]] + rest));
      PerformStep(w, i, copied.value, t[1], [t[2]] + rest);
      PerformStep(w, i, copied.value, t[2], rest);
    }
  }

  lemma FinishOfExample(w: World, docs: seq<Child>, extras: seq<Extra>, s: Stage, names: set<Text>)
    requires Plain(w, docs) && Taken(s, names) && RELEASE_JSON !in names
    ensures Finish(w, Example(extras), s).Ok?
  {
    hide WriteAt, Normalize, World.Sound, ManifestOf;
    NamesOfTrees();
    WriteFresh(w, s, RELEASE_JSON, w.render(ManifestOf(Example(extras), s.copied)), names);
  }

  lemma ManifestNameIsFree(names: set<Text>)
    requires FileNames(names)
    ensures RELEASE_JSON !in names && DOCS !in names
  {
    assert RELEASE_JSON[0] == 0x72 && CHANGELOG[0] == 0x43;
  }

  lemma DocsTaken(s: Stage, docs: seq<Child>, names: set<Text>)
    requires Taken(s, names)
    ensures Taken(s.(disk := Put(s.disk, DOCS, Dir(docs))), names + {DOCS})
  {
    forall name ensures Find(Put(s.disk, DOCS, Dir(docs)), name).Some? ==> name in names + {DOCS} {
      FindPut(s.disk, DOCS, Dir(docs), name);
    }
  }

  // ----- a link in the documentation

  const LINKED_DOCS: seq<Child> := [Child(X, Link([]))]

  lemma OneFound()
    ensures Breadth([Todo([DOCS], LINKED_DOCS)]) == [Found([DOCS, X], Leaf([], true))]
  {
    var queue := [Todo([DOCS], LINKED_DOCS)];
    var none: seq<Todo> := [];
    assert LINKED_DOCS[1..] == [];
    assert Dirs(LINKED_DOCS, [DOCS]) == none;
    assert TreeListing.Files(LINKED_DOCS, [DOCS]) == [Found([DOCS] + [X], Leaf([], true))];
    assert queue[1..] + none == none;
    assert Breadth(none) == [];
    assert Breadth(queue) == TreeListing.Files(LINKED_DOCS, [DOCS]) + Breadth(queue[1..] + Dirs(LINKED_DOCS, [DOCS]));
    assert [DOCS] + [X] == [DOCS, X];
  }

  /** A tree that holds one link to an empty file: assembled, listed, refused. */
  lemma LinkIsRefused(w: World)
    requires Plain(w, LINKED_DOCS)
    ensures Assemble(w, Example([])).Ok? && !ReleaseVerifier.Accepts(w, Assemble(w, Example([])).value.disk)
  {
    hide Perform, Assemble, Finish, World.Sound, Breadth, FileNames, Taken, Put, ReleaseVerifier.Accepts, TidyExtras,
         LinkFreeSources, Normalize, PathText, ListAll, Trees;
    var i := Example([]);
    var mid, names := FilesOfExample(w, LINKED_DOCS, []);
    var s := mid.(disk := Put(mid.disk, DOCS, Dir(LINKED_DOCS)));
    OneFound();
    ManifestNameIsFree(names);
    DocsTaken(mid, LINKED_DOCS, names);
    var f := Found([DOCS, X], Leaf([], true));
    LinkedText();
    ListOne(w, s, f, names + {DOCS});
    TreesOfExample(w, LINKED_DOCS, [], mid, Extras(i) + [MANIFEST_INPUT]);
    var copied := ListAll(w, s, [f]).value;
    assert Extras(i) + [MANIFEST_INPUT] == [MANIFEST_INPUT];
    PerformClose(w, i, copied, MANIFEST_INPUT);
    NamesOfTrees();
    assert RELEASE_JSON !in names + {DOCS} + {PathText([DOCS, X])} by {
      assert |RELEASE_JSON| == 12 && |DOCS| == 4;
    }
    FinishOfExample(w, LINKED_DOCS, [], copied, names + {DOCS} + {PathText([DOCS, X])});
    ReleaseVerifier.AssembledIsAccepted(w, i);
    LinkInSources(w);
  }

  lemma LinkedText()
    ensures PathText([DOCS, X]) == DOCS + [SLASH] + X && |PathText([DOCS, X])| == 6 && PathText([DOCS, X]) != DOCS
    ensures forall names :: FileNames(names) ==> PathText([DOCS, X]) !in names
  {
    assert [DOCS, X][1..] == [X];
    assert Join([X], SLASH) == X;
  }

  lemma PerformClose(w: World, i: Inputs, s: Stage, close: StagedInput)
    requires close.kind.ManifestJson?
    ensures Perform(w, i, s, [close]) == Finish(w, i, s)
  {
  }

  lemma ListOne(w: World, s: Stage, f: Found, names: set<Text>)
    requires Taken(s, names) && f.path == [DOCS, X] && PathText(f.path) !in names
    ensures ListAll(w, s, [f]).Ok? && Taken(ListAll(w, s, [f]).value, names + {PathText(f.path)})
  {
    hide PathText, Normalize, Find;
    var rel := PathText(f.path);
    NamesOfTrees();
    assert IsPath(f.path) by { assert IsName(X); }
    PathTextNames(f.path);
    NormalizeNames(rel);
    assert [f][1..] == [];
  }

  lemma LinkInSources(w: World)
    requires Plain(w, LINKED_DOCS)
    ensures !LinkFreeSources(w, Example([]))
  {
    var t := Trees(Example([]))[0];
    assert t in Trees(Example([]));
    assert Find(LINKED_DOCS, X) == Some(Link([]));
    LeafBelow(Dir(LINKED_DOCS), [X]);
    assert [X][1..] == [];
    assert LeafAt(Link([]), []) == Some(Leaf([], true));
  }

  // ----- an extra that stays where it is before it goes on

  const DOT_X: Text := [DOT, SLASH, 0x78]

  lemma DotXSplits()
    ensures Split(DOT_X, SLASH) == [[DOT], X] && Normalize(DOT_X) == DOT_X
    ensures !IsTidy(DOT_X)
  {
    SplitPlain(X, SLASH);
    SplitCut([DOT], X, SLASH);
    assert [DOT] + [SLASH] + X == DOT_X;
    NormalizeFixed(DOT_X);
    assert !Tidy(Split(DOT_X, SLASH)[0]);
  }

  lemma ResolveDotX(base: Path)
    ensures Resolve(base, [[DOT], X]) == base + [X]
  {
    assert [[DOT], X][1..] == [X] && [X][1..] == [];
    assert Resolve(base + [X], []) == base + [X];
    assert Resolve(base, [X]) == base + [X];
  }

  lemma DotIsNotReserved()
    ensures !IsReserved(DOT_X)
  {
    DotXSplits();
    assert forall k :: 0 <= k < |RESERVED_SLOTS| ==> |RESERVED_SLOTS[k]| > 1;
    assert |[DOT]| == 1;
  }

  lemma ExtraStep(w: World, s: Stage, i: StagedInput, names: set<Text>)
    requires w.read(i.source) == Some([]) && i.kind.ExtraFile? && i.dest == DOT_X
    requires Taken(s, names) && DOT_X !in names && X !in names
    ensures Step(w, s, i).Ok? && Taken(Step(w, s, i).value, names + {DOT_X, X})
  {
    hide IsReserved, Normalize;
    DotIsNotReserved();
    DotXSplits();
    ResolveDotX(w.base);
    assert (w.base + [X])[|w.base|..] == [X];
    assert SafeJoin(w.base, DOT_X) == Some([X]);
    var disk := WriteAt(w, s.disk, DOT_X, []).value;
    assert disk == Put(s.disk, X, File([]));
    forall name ensures Find(disk, name).Some? ==> name in names + {DOT_X, X} {
      FindPut(s.disk, X, File([]), name);
    }
  }

  lemma ShortNamesAreFree(names: set<Text>)
    requires FileNames(names)
    ensures DOT_X !in names + {DOCS} && X !in names + {DOCS}
    ensures RELEASE_JSON !in names + {DOCS} + {DOT_X, X}
  {
    ManifestNameIsFree(names);
    assert |RELEASE_JSON| == 12 && |DOCS| == 4;
  }

  /** An extra for `./x`: assembled, listed under a path no file has, refused. */
  lemma UntidyIsRefused(w: World)
    requires Plain(w, [])
    ensures var i := Example([Extra([5], DOT_X)]);
            Assemble(w, i).Ok? && !ReleaseVerifier.Accepts(w, Assemble(w, i).value.disk)
  {
    hide Perform, Assemble, Finish, World.Sound, Breadth, FileNames, Taken, Put, ReleaseVerifier.Accepts,
         LinkFreeSources, Normalize, ListAll, Trees, Step, IsTidy, Split;
    var extras := [Extra([5], DOT_X)];
    var i := Example(extras);
    DotXSplits();
    var mid, names := FilesOfExample(w, [], extras);
    var s := mid.(disk := Put(mid.disk, DOCS, Dir([])));
    DocsTaken(mid, [], names);
    ShortNamesAreFree(names);
    NothingListed(w, s);
    TreesOfExample(w, [], extras, mid, Extras(i) + [MANIFEST_INPUT]);
    var extra := Extras(i)[0];
    assert Extras(i) + [MANIFEST_INPUT] == [extra] + [MANIFEST_INPUT];
    ExtraStep(w, s, extra, names + {DOCS});
    PerformStep(w, i, s, extra, [MANIFEST_INPUT]);
    var last := Step(w, s, extra).value;
    PerformClose(w, i, last, MANIFEST_INPUT);
    FinishOfExample(w, [], extras, last, names + {DOCS} + {DOT_X, X});
    assert !TidyExtras(i) by { assert extras[0] in i.extras; }
    ReleaseVerifier.AssembledIsAccepted(w, i);
  }

  lemma NothingListed(w: World, s: Stage)
    ensures ListAll(w, s, Breadth([Todo([DOCS], [])])) == Ok(s)
  {
  }
}
