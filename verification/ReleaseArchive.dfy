/**
 Shipping a release: packing what was assembled into a ZIP archive, and unpacking it elsewhere.
 */
module ReleaseArchive {
  import opened Prelude
  import opened Strings
  import opened FileTree
  import opened ReleasePaths
  import opened Release
  import opened ArchivePath
  import Ordering
  import ReleaseVerifier
  import Zip

  // ----- packing

  const EXECUTABLE_MODE := 0x1ed
  const PLAIN_MODE := 0x1a4

  function Packed(dir: Text, path: Text): Text {
    dir + [SLASH] + path
  }

  /** Reads a staged file; a trailing slash asks for a directory. */
  function StagedData(w: World, disk: seq<Child>, path: Text): Option<Bytes> {
    if path != [] && path[|path| - 1] == SLASH then None else ReleaseVerifier.ReadAt(w, disk, path)
  }

  function EntryFor(w: World, disk: seq<Child>, dir: Text, f: ManifestFile): Option<Entry> {
    match StagedData(w, disk, f.path)
    case None => None
    case Some(data) => Some(Entry(Packed(dir, f.path), data, if f.executable then EXECUTABLE_MODE else PLAIN_MODE))
  }

  function EntriesFor(w: World, disk: seq<Child>, dir: Text, files: seq<ManifestFile>): Option<seq<Entry>> {
    if files == [] then Some([])
    else
      var prior := EntriesFor(w, disk, dir, files[..|files| - 1]);
      var last := EntryFor(w, disk, dir, files[|files| - 1]);
      if prior.None? || last.None? then None else Some(prior.value + [last.value])
  }

  /** One archive member for each manifest entry, and one for the manifest. */
  function Package(w: World, a: Assembled, dir: Text): Option<seq<Entry>> {
    var listed := EntriesFor(w, a.disk, dir, a.manifest.files);
    var manifest := StagedData(w, a.disk, RELEASE_JSON);
    if listed.None? || manifest.None? then None
    else Some(listed.value + [Entry(Packed(dir, RELEASE_JSON), manifest.value, PLAIN_MODE)])
  }

  method PackageRelease(w: World, a: Assembled, dir: Text) returns (r: Option<seq<Entry>>)
    ensures r == Package(w, a, dir)
  {
    hide EntryFor, StagedData;
    var files := a.manifest.files;
    var entries := [];
    for k := 0 to |files|
      invariant EntriesFor(w, a.disk, dir, files[..k]) == Some(entries)
    {
      assert files[..k + 1][..k] == files[..k];
      var e := EntryFor(w, a.disk, dir, files[k]);
      if e.None? {
        MissingStaysMissing(w, a.disk, dir, files, k + 1);
        return None;
      }
      entries := entries + [e.value];
    }
    assert files[..|files|] == files;
    var manifest := StagedData(w, a.disk, RELEASE_JSON);
    if manifest.None? {
      return None;
    }
    return Some(entries + [Entry(Packed(dir, RELEASE_JSON), manifest.value, PLAIN_MODE)]);
  }

  lemma {:induction false} MissingStaysMissing(w: World, disk: seq<Child>, dir: Text, files: seq<ManifestFile>, k: nat)
    requires k <= |files| && EntriesFor(w, disk, dir, files[..k]).None?
    ensures EntriesFor(w, disk, dir, files).None?
    decreases |files|
  {
    hide EntryFor;
    if k == |files| {
      assert files[..k] == files;
    } else {
      var front := files[..|files| - 1];
      assert front[..k] == files[..k];
      MissingStaysMissing(w, disk, dir, front, k);
    }
  }

  // ----- unpacking

  /** Writes every member below an output directory, in order. */
  function Unpacked(root: Node, es: seq<Entry>): Option<Node>
    decreases |es|
  {
    if es == [] then Some(root)
    else
      match Write(root, Split(es[0].path, SLASH), es[0].data)
      case None => None
      case Some(next) => Unpacked(next, es[1..])
  }

  method ExtractZip(c: Zip.Codec, bytes: Bytes) returns (r: Option<Node>)
    ensures var decoded := Zip.Decoded(c, bytes);
            r == if decoded.Ok? then Unpacked(Dir([]), decoded.value) else None
  {
    hide Zip.Decoded, Write;
    var decoded := Zip.Decode(c, bytes);
    if decoded.Err? {
      return None;
    }
    var es := decoded.value;
    var root := Dir([]);
    assert es[0..] == es;
    for k := 0 to |es|
      invariant Unpacked(Dir([]), es) == Unpacked(root, es[k..])
    {
      assert es[k..][0] == es[k] && es[k..][1..] == es[k + 1..];
      var next := Write(root, Split(es[k].path, SLASH), es[k].data);
      if next.None? {
        return None;
      }
      root := next.value;
    }
    return Some(root);
  }

  // ----- one tree growing inside another

  /** Every node stands in the larger tree too, directory for directory, and files are regular. */
  ghost predicate Within(n: Node, whole: Node) {
    forall p :: Lookup(n, p).Some? ==>
                  && Lookup(whole, p).Some?
                  && (Lookup(n, p).value.Dir? <==> Lookup(whole, p).value.Dir?)
                  && (Lookup(n, p).value.Dir? || Lookup(n, p).value.File?)
  }

  lemma LookupBelow(n: Node, p: Path)
    requires p != []
    ensures Lookup(n, p) ==
            if n.Dir? && Find(n.children, p[0]).Some? then Lookup(Find(n.children, p[0]).value, p[1..]) else None
  {
  }

  lemma WithinRoot(n: Node, whole: Node)
    requires Within(n, whole)
    ensures (n.Dir? <==> whole.Dir?) && (n.Dir? || n.File?)
  {
    assert Lookup(n, []) == Some(n);
  }

  lemma WithinBelow(n: Node, whole: Node, name: Text)
    requires Within(n, whole) && n.Dir? && Find(n.children, name).Some?
    ensures whole.Dir? && Find(whole.children, name).Some?
    ensures Within(Find(n.children, name).value, Find(whole.children, name).value)
  {
    hide Lookup;
    var c := Find(n.children, name).value;
    forall q ensures Lookup(n, [name] + q) == Lookup(c, q) {
      LookupBelow(n, [name] + q);
      assert ([name] + q)[1..] == q;
    }
    LookupHere(c);
    assert Lookup(whole, [name] + []).Some?;
    LookupBelow(whole, [name] + []);
    forall q ensures Lookup(whole, [name] + q) == Lookup(Find(whole.children, name).value, q) {
      LookupBelow(whole, [name] + q);
      assert ([name] + q)[1..] == q;
    }
    forall q | Lookup(c, q).Some?
      ensures var d := Find(whole.children, name).value;
              && Lookup(d, q).Some? && (Lookup(c, q).value.Dir? <==> Lookup(d, q).value.Dir?)
              && (Lookup(c, q).value.Dir? || Lookup(c, q).value.File?)
    {
      assert Lookup(n, [name] + q).Some?;
    }
  }

  lemma LookupHere(n: Node)
    ensures Lookup(n, []) == Some(n)
  {
  }

  lemma EmptyWithin(whole: Node)
    requires whole.Dir?
    ensures Within(Dir([]), whole)
  {
  }

  /** Putting a child that is within its counterpart keeps the tree within the whole. */
  lemma PutWithin(n: Node, whole: Node, name: Text, child: Node)
    requires Within(n, whole) && n.Dir? && whole.Dir? && Find(whole.children, name).Some?
    requires Within(child, Find(whole.children, name).value)
    ensures Within(Dir(Put(n.children, name, child)), whole)
  {
    hide Lookup, Put;
    var r := Dir(Put(n.children, name, child));
    LookupHere(r);
    LookupHere(whole);
    forall p | Lookup(r, p).Some?
      ensures Lookup(whole, p).Some? && (Lookup(r, p).value.Dir? <==> Lookup(whole, p).value.Dir?)
      ensures Lookup(r, p).value.Dir? || Lookup(r, p).value.File?
    {
      if p != [] {
        FindPut(n.children, name, child, p[0]);
        LookupBelow(r, p);
        LookupBelow(n, p);
        LookupBelow(whole, p);
        if p[0] != name {
          assert Lookup(r, p) == Lookup(n, p);
        }
      }
    }
  }

  /** Writing where the whole has a file succeeds and stays within the whole. */
  lemma {:induction false} WriteWithin(n: Node, whole: Node, p: Path, data: Bytes)
    requires Within(n, whole) && n.Dir? && LeafAt(whole, p).Some?
    ensures Write(n, p, data).Some? && Within(Write(n, p, data).value, whole) && Write(n, p, data).value.Dir?
    decreases |p|
  {
    hide Within;
    WithinRoot(n, whole);
    LookupHere(whole);
    assert p != [];
    LeafBelow(whole, p);
    var target := Find(whole.children, p[0]).value;
    var child := Find(n.children, p[0]);
    if child.Some? {
      WithinBelow(n, whole, p[0]);
      WithinRoot(child.value, target);
    }
    if |p| == 1 {
      assert p[1..] == [];
      FileWithin(data, target);
      PutWithin(n, whole, p[0], File(data));
    } else {
      LeafBelow(target, p[1..]);
      EmptyWithin(target);
      var below := if child.None? then Dir([]) else child.value;
      WriteWithin(below, target, p[1..], data);
      PutWithin(n, whole, p[0], Write(below, p[1..], data).value);
    }
  }

  lemma FileWithin(data: Bytes, target: Node)
    requires LeafOf(target).Some?
    ensures Within(File(data), target)
  {
  }

  lemma WithinHasNoLink(n: Node, whole: Node, p: Path)
    requires Within(n, whole) && LeafAt(n, p).Some?
    ensures !LeafAt(n, p).value.linked
  {
  }

  // ----- unpacking gives exactly the members

  ghost predicate HasMember(es: seq<Entry>, p: Path) {
    exists e :: e in es && Split(e.path, SLASH) == p
  }

  lemma {:induction false} UnpackedWithin(root: Node, whole: Node, es: seq<Entry>)
    requires Within(root, whole) && root.Dir? && Valid(root) && Zip.DistinctPaths(es)
    requires forall e :: e in es ==> LeafAt(whole, Split(e.path, SLASH)).Some? && Names(e.path)
    ensures Unpacked(root, es).Some?
    ensures var r := Unpacked(root, es).value;
            && r.Dir? && Valid(r) && Within(r, whole)
            && (forall e :: e in es ==> LeafAt(r, Split(e.path, SLASH)) == Some(Leaf(e.data, false)))
            && (forall p :: !HasMember(es, p) ==> LeafAt(r, p) == LeafAt(root, p))
    decreases |es|
  {
    hide Within, Write, Valid, LeafAt, Split, Names;
    if es != [] {
      var e, rest := es[0], es[1..];
      var p := Split(e.path, SLASH);
      NamesArePath(e.path);
      WriteWithin(root, whole, p, e.data);
      WriteValid(root, p, e.data);
      var next := Write(root, p, e.data).value;
      forall q ensures LeafAt(next, q) == if q == p then Some(Leaf(e.data, false)) else LeafAt(root, q) {
        LeafAfterWrite(root, p, e.data, q);
        if LeafAt(root, p).Some? {
          WithinHasNoLink(root, whole, p);
        }
      }
      UnpackedWithin(next, whole, rest);
      assert es == [e] + rest;
      assert !HasMember(rest, p) by {
        if HasMember(rest, p) {
          var e' :| e' in rest && Split(e'.path, SLASH) == p;
          SplitIsInjective(e'.path, e.path);
        }
      }
      forall q | !HasMember(es, q) ensures !HasMember(rest, q) && q != p {
      }
    }
  }

  lemma NamesArePath(t: Text)
    requires Names(t)
    ensures IsPath(Split(t, SLASH))
  {
  }

  // ----- the members of a packed release

  lemma {:induction false} EntriesForAt(w: World, disk: seq<Child>, dir: Text, files: seq<ManifestFile>)
    requires EntriesFor(w, disk, dir, files).Some?
    ensures var es := EntriesFor(w, disk, dir, files).value;
            |es| == |files| && forall k :: 0 <= k < |files| ==> EntryFor(w, disk, dir, files[k]) == Some(es[k])
    decreases |files|
  {
    hide EntryFor;
    if files != [] {
      EntriesForAt(w, disk, dir, files[..|files| - 1]);
    }
  }

  lemma {:induction false} EntriesForAll(w: World, disk: seq<Child>, dir: Text, files: seq<ManifestFile>)
    requires forall f :: f in files ==> EntryFor(w, disk, dir, f).Some?
    ensures EntriesFor(w, disk, dir, files).Some?
    decreases |files|
  {
    hide EntryFor;
    if files != [] {
      EntriesForAll(w, disk, dir, files[..|files| - 1]);
    }
  }

  /** A file that is there is read, whatever its name. */
  lemma StagedContent(w: World, disk: seq<Child>, t: Text)
    requires ValidAll(disk) && Content(disk, t).Some?
    ensures StagedData(w, disk, t) == Some(Content(disk, t).value.data)
  {
    ContentIsNamed(disk, t);
    ReleaseVerifier.ReadIsContent(w, disk, t);
    var parts := Split(t, SLASH);
    assert IsName(parts[|parts| - 1]);
    if t != [] && t[|t| - 1] == SLASH {
      SplitLast(t, SLASH);
    }
  }

  /** Whatever was assembled with tidy extras can be read back for packing. */
  lemma TidyIsPackaged(w: World, i: Inputs, dir: Text)
    requires w.Sound() && Assemble(w, i).Ok? && TidyExtras(i)
    ensures Package(w, Assemble(w, i).value, dir).Some?
  {
    hide Assemble, Content, ValidAll, StagedData, LinkFree, TidyExtras, LinkFreeSources, Lists, Ordering.Sorted,
         Ordering.DistinctKeys, World.Sound, Describes;
    var a := Assemble(w, i).value;
    ManifestIsExact(w, i);
    StagedContent(w, a.disk, RELEASE_JSON);
    forall f | f in a.manifest.files ensures EntryFor(w, a.disk, dir, f).Some? {
      StagedContent(w, a.disk, f.path);
    }
    EntriesForAll(w, a.disk, dir, a.manifest.files);
  }

  lemma PackedIsInjective(dir: Text, t: Text, t': Text)
    ensures Packed(dir, t) == Packed(dir, t') <==> t == t'
  {
    assert Packed(dir, t)[|dir| + 1..] == t;
    assert Packed(dir, t')[|dir| + 1..] == t';
  }

  lemma PackedSplits(dir: Text, t: Text)
    requires IsName(dir)
    ensures Split(Packed(dir, t), SLASH) == [dir] + Split(t, SLASH)
  {
    SplitCut(dir, t, SLASH);
  }

  /** A member path that the archive accepts is tidy below its directory. */
  lemma SafeIsTidy(dir: Text, t: Text)
    requires IsName(dir) && Safe(Packed(dir, t))
    ensures IsTidy(t)
  {
    hide Split, IsName;
    PackedSplits(dir, t);
    var all, parts := Split(Packed(dir, t), SLASH), Split(t, SLASH);
    forall k | 0 <= k < |parts| ensures Tidy(parts[k]) {
      assert all[k + 1] == parts[k];
      assert SafeSegment(all[k + 1]);
    }
  }

  /** What the archive holds: each file of the release once, with its bytes. */
  ghost predicate Holds(es: seq<Entry>, dir: Text, disk: seq<Child>) {
    && Zip.DistinctPaths(es)
    && (forall e :: e in es ==> exists t :: IsMember(e, dir, t, disk))
    && forall t :: Content(disk, t).Some? ==> exists e :: e in es && IsMember(e, dir, t, disk)
  }

  ghost predicate IsMember(e: Entry, dir: Text, t: Text, disk: seq<Child>) {
    e.path == Packed(dir, t) && Content(disk, t).Some? && e.data == Content(disk, t).value.data
  }

  lemma PackagedMembers(w: World, a: Assembled, dir: Text)
    requires ValidAll(a.disk) && IsManifestOf(w, a.manifest, a.disk) && Package(w, a, dir).Some?
    ensures Holds(Package(w, a, dir).value, dir, a.disk)
  {
    hide Content, ValidAll, StagedData, Packed, Ordering.Sorted, EntriesFor;
    var es, files := Package(w, a, dir).value, a.manifest.files;
    EntriesForAt(w, a.disk, dir, files);
    StagedContent(w, a.disk, RELEASE_JSON);
    assert IsMember(es[|files|], dir, RELEASE_JSON, a.disk);
    forall k | 0 <= k < |files| ensures IsMember(es[k], dir, files[k].path, a.disk) {
      assert files[k] in files;
      StagedContent(w, a.disk, files[k].path);
    }
    forall t | Content(a.disk, t).Some? ensures exists e :: e in es && IsMember(e, dir, t, a.disk) {
      if t == RELEASE_JSON {
        assert es[|files|] in es;
      } else {
        assert Lists(files, t);
        var f: ManifestFile :| f in files && f.path == t;
        var k :| 0 <= k < |files| && files[k] == f;
        assert es[k] in es;
      }
    }
    forall i, j | 0 <= i < j < |es| ensures es[i].path != es[j].path {
      assert Release.PathOf(files[i]) == files[i].path;
      PackedIsInjective(dir, files[i].path, if j < |files| then files[j].path else RELEASE_JSON);
      if j < |files| {
        assert Release.PathOf(files[i]) != Release.PathOf(files[j]);
      } else {
        assert files[i] in files;
        assert Lists(files, files[i].path);
      }
    }
  }

  /** Sorting and storing keep what the archive holds. */
  lemma StoredHolds(es: seq<Entry>, dir: Text, disk: seq<Child>)
    requires Holds(es, dir, disk) && Zip.DistinctPaths(ByPath(es))
    ensures Holds(Zip.StoredAll(ByPath(es)), dir, disk)
  {
    hide Content, Packed, ByPath;
    var sorted := ByPath(es);
    var ds := Zip.StoredAll(sorted);
    forall e: Entry ensures e in sorted <==> e in es {
      SortedMembers(es, e);
    }
    forall d | d in ds ensures exists t :: IsMember(d, dir, t, disk) {
      var k :| 0 <= k < |ds| && ds[k] == d;
      assert sorted[k] in es;
      var t :| IsMember(sorted[k], dir, t, disk);
      assert IsMember(d, dir, t, disk);
    }
    forall t | Content(disk, t).Some? ensures exists d :: d in ds && IsMember(d, dir, t, disk) {
      var e :| e in es && IsMember(e, dir, t, disk);
      var k :| 0 <= k < |sorted| && sorted[k] == e;
      assert ds[k] in ds && IsMember(ds[k], dir, t, disk);
    }
  }

  lemma SortedMembers(es: seq<Entry>, e: Entry)
    ensures e in ByPath(es) <==> e in es
  {
    Ordering.SortByMembers(ArchivePath.PathOf, es, e);
  }

  /** The files of a release, as plain files. */
  ghost predicate SameFiles(cs: seq<Child>, disk: seq<Child>) {
    forall t :: Content(cs, t) ==
                if Content(disk, t).Some? then Some(Leaf(Content(disk, t).value.data, false)) else None
  }

  lemma LeafInDirectory(n: Node, dir: Text, p: Path)
    requires n.Dir?
    ensures LeafAt(n, [dir] + p) == if Find(n.children, dir).Some? then LeafAt(Find(n.children, dir).value, p) else None
  {
  }

  lemma MemberLeaf(e: Entry, dir: Text, t: Text, disk: seq<Child>)
    requires IsName(dir) && ValidAll(disk) && IsMember(e, dir, t, disk)
    ensures Split(e.path, SLASH) == [dir] + Split(t, SLASH) && Names(e.path)
    ensures LeafAt(Dir([Child(dir, Dir(disk))]), Split(e.path, SLASH)).Some?
  {
    PackedSplits(dir, t);
    ContentIsNamed(disk, t);
    LeafInDirectory(Dir([Child(dir, Dir(disk))]), dir, Split(t, SLASH));
  }

  /** Unpacking what the archive holds rebuilds the release directory, file for file. */
  lemma UnpackedRebuilds(es: seq<Entry>, dir: Text, disk: seq<Child>)
    requires IsName(dir) && ValidAll(disk) && Holds(es, dir, disk) && Content(disk, RELEASE_JSON).Some?
    ensures Unpacked(Dir([]), es).Some? && Unpacked(Dir([]), es).value.Dir?
    ensures var top := Find(Unpacked(Dir([]), es).value.children, dir);
            top.Some? && top.value.Dir? && ValidAll(top.value.children) && SameFiles(top.value.children, disk)
  {
    hide Content, ValidAll, Unpacked, LeafAt, Split, Within, Names, Find, IsMember;
    var whole := Dir([Child(dir, Dir(disk))]);
    EmptyWithin(whole);
    EmptyIsValid();
    forall e | e in es ensures LeafAt(whole, Split(e.path, SLASH)).Some? && Names(e.path) {
      var t :| IsMember(e, dir, t, disk);
      MemberLeaf(e, dir, t, disk);
    }
    UnpackedWithin(Dir([]), whole, es);
    var root := Unpacked(Dir([]), es).value;
    forall t ensures LeafAt(root, [dir] + Split(t, SLASH)) ==
                     if Content(disk, t).Some? then Some(Leaf(Content(disk, t).value.data, false)) else None {
      UnpackedLeaf(es, dir, disk, root, t);
    }
    TopDirectory(root, whole, dir, disk);
    var cs := Find(root.children, dir).value.children;
    forall t ensures Content(cs, t) == LeafAt(root, [dir] + Split(t, SLASH)) {
      LeafInDirectory(root, dir, Split(t, SLASH));
      ContentIsLeaf(cs, t);
    }
  }

  lemma ContentIsLeaf(cs: seq<Child>, t: Text)
    ensures Content(cs, t) == LeafAt(Dir(cs), Split(t, SLASH))
  {
  }

  lemma EmptyIsValid()
    ensures Valid(Dir([]))
  {
  }

  lemma UnpackedLeaf(es: seq<Entry>, dir: Text, disk: seq<Child>, root: Node, t: Text)
    requires IsName(dir) && ValidAll(disk) && Holds(es, dir, disk)
    requires forall e :: e in es ==> LeafAt(root, Split(e.path, SLASH)) == Some(Leaf(e.data, false))
    requires forall p :: !HasMember(es, p) ==> LeafAt(root, p) == LeafAt(Dir([]), p)
    ensures LeafAt(root, [dir] + Split(t, SLASH)) ==
            if Content(disk, t).Some? then Some(Leaf(Content(disk, t).value.data, false)) else None
  {
    hide Content, ValidAll, LeafAt, Split, Names, Packed, IsName, Zip.DistinctPaths;
    var p := [dir] + Split(t, SLASH);
    if Content(disk, t).Some? {
      var e :| e in es && IsMember(e, dir, t, disk);
      MemberLeaf(e, dir, t, disk);
    } else {
      EmptyHasNoLeaf(p);
      if HasMember(es, p) {
        var e :| e in es && Split(e.path, SLASH) == p;
        var t' :| IsMember(e, dir, t', disk);
        MemberLeaf(e, dir, t', disk);
        assert p[1..] == Split(t', SLASH) && p[1..] == Split(t, SLASH);
        SplitIsInjective(t, t');
      }
    }
  }

  lemma TopDirectory(root: Node, whole: Node, dir: Text, disk: seq<Child>)
    requires whole == Dir([Child(dir, Dir(disk))]) && Within(root, whole) && root.Dir? && Valid(root)
    requires LeafAt(root, [dir] + Split(RELEASE_JSON, SLASH)).Some?
    ensures var top := Find(root.children, dir); top.Some? && top.value.Dir? && ValidAll(top.value.children)
  {
    hide Within, Split;
    LeafInDirectory(root, dir, Split(RELEASE_JSON, SLASH));
    WithinBelow(root, whole, dir);
    WithinRoot(Find(root.children, dir).value, Dir(disk));
    FindValid(root.children, dir);
  }

  // ----- what was shipped is accepted

  lemma SameManifest(w: World, out: Path, m: Manifest, disk: seq<Child>, cs: seq<Child>)
    requires w.Sound() && IsPath(out) && m.schema == SCHEMA
    requires IsManifestOf(w, m, disk) && ValidAll(cs) && SameFiles(cs, disk)
    ensures ReleaseVerifier.Accepts(w.(base := out), cs)
  {
    hide Content, ValidAll, Lists, Ordering.Sorted, Ordering.DistinctKeys, LinkFree, ReleaseVerifier.AcceptsAs;
    var w' := w.(base := out);
    assert w'.Sound() by {
      SoundElsewhere(w, out);
    }
    LinkFreeByText(cs);
    assert IsManifestOf(w', m, cs);
    ReleaseVerifier.ManifestIsAccepted(w', m, cs);
  }

  lemma SoundElsewhere(w: World, out: Path)
    requires w.Sound() && IsPath(out)
    ensures w.(base := out).Sound()
  {
  }

  lemma PackableIsTidy(c: Zip.Codec, w: World, i: Inputs, dir: Text)
    requires w.Sound() && Assemble(w, i).Ok? && IsName(dir)
    requires Package(w, Assemble(w, i).value, dir).Some? && Zip.Packable(c, Package(w, Assemble(w, i).value, dir).value)
    ensures TidyExtras(i)
  {
    hide Assemble, Content, ValidAll, StagedData, LinkFree, TidyExtras, LinkFreeSources, IsManifestOf, World.Sound,
         Safe, Packed, IsName, IsTidy, EntriesFor;
    var a := Assemble(w, i).value;
    var es := Package(w, a, dir).value;
    ManifestIsExact(w, i);
    if !TidyExtras(i) {
      var t :| Lists(a.manifest.files, t) && !IsTidy(t);
      var f: ManifestFile :| f in a.manifest.files && f.path == t;
      EntriesForAt(w, a.disk, dir, a.manifest.files);
      var k :| 0 <= k < |a.manifest.files| && a.manifest.files[k] == f;
      assert es[k] in es && es[k].path == Packed(dir, t);
      assert Zip.Fits(c, es[k]);
      SafeIsTidy(dir, t);
    }
  }

  /**
   A release that fits the archive's limits survives shipping: decoding its archive and unpacking
   the members anywhere rebuilds exactly its files, links replaced by what they led to, and the
   verifier accepts the result.
   */
  lemma ShippedIsAccepted(c: Zip.Codec, stamp: Zip.Stamp, w: World, i: Inputs, dir: Text, out: Path)
    requires c.Lossless() && w.Sound() && Assemble(w, i).Ok? && IsName(dir) && IsPath(out)
    requires Package(w, Assemble(w, i).value, dir).Some? && Zip.Packable(c, Package(w, Assemble(w, i).value, dir).value)
    ensures var es := Package(w, Assemble(w, i).value, dir).value;
            var decoded := Zip.Decoded(c, Zip.Archive(c, stamp, ByPath(es)));
            && decoded.Ok? && Unpacked(Dir([]), decoded.value).Some? && Unpacked(Dir([]), decoded.value).value.Dir?
            && var top := Find(Unpacked(Dir([]), decoded.value).value.children, dir);
               && top.Some? && top.value.Dir?
               && SameFiles(top.value.children, Assemble(w, i).value.disk)
               && ReleaseVerifier.Accepts(w.(base := out), top.value.children)
  {
    hide Assemble, Package, Content, ValidAll, Zip.Decoded, Zip.Archive, ByPath, Zip.StoredAll, Zip.Packable,
         Unpacked, Find, Holds, SameFiles, IsManifestOf, World.Sound, Zip.Codec.Lossless, LinkFree, TidyExtras,
         LinkFreeSources, IsName, ReleaseVerifier.Accepts, Lists, IsPath;
    var a := Assemble(w, i).value;
    var es := Package(w, a, dir).value;
    PackableIsTidy(c, w, i, dir);
    ManifestIsExact(w, i);
    ReleaseVerifier.SchemaOfAssembly(w, i);
    PackagedMembers(w, a, dir);
    HoldsDistinct(es, dir, a.disk);
    Zip.ShippedRoundTrip(c, stamp, es);
    StoredHolds(es, dir, a.disk);
    var ds := Zip.StoredAll(ByPath(es));
    UnpackedRebuilds(ds, dir, a.disk);
    var cs := Find(Unpacked(Dir([]), ds).value.children, dir).value.children;
    SameManifest(w, out, a.manifest, a.disk, cs);
  }

  lemma HoldsDistinct(es: seq<Entry>, dir: Text, disk: seq<Child>)
    requires Holds(es, dir, disk)
    ensures Zip.DistinctPaths(es)
  {
  }

  // ----- modes

  /** Members are packed in the order of the manifest, executable exactly when it says so, and the manifest last. */
  lemma PackedModes(w: World, a: Assembled, dir: Text, k: nat)
    requires Package(w, a, dir).Some? && k <= |a.manifest.files|
    ensures var es := Package(w, a, dir).value;
            && |es| == |a.manifest.files| + 1
            && (k < |a.manifest.files| ==>
                  && es[k].path == dir + [0x2f] + a.manifest.files[k].path
                  && es[k].mode == if a.manifest.files[k].executable then 0x1ed else 0x1a4)
            && (k == |a.manifest.files| ==> es[k].path == dir + [0x2f] + RELEASE_JSON && es[k].mode == 0x1a4)
  {
    hide EntriesFor, StagedData;
    EntriesForAt(w, a.disk, dir, a.manifest.files);
  }
}
