/**
 Exactly when a release can be assembled: everything required is there, the host is not staged twice, every extra
 has a destination that is free, inside and not in the way, and the closing checks pass.
 */
module AssemblyConditions {
  import opened Prelude
  import opened Strings
  import opened Ordering
  import opened FileTree
  import opened ReleasePaths
  import opened TreeListing
  import opened Release
  import opened ReleasePlan

  // ----- what one input puts on disk

  /** Where a file goes. */
  ghost predicate GoesTo(w: World, i: StagedInput, p: Path) {
    !i.kind.Tree? && Present(w, i) && SafeJoin(w.base, i.dest) == Some(p)
  }

  /** What a copied tree has at a path of the archive directory. */
  ghost function InTree(w: World, i: StagedInput, q: Path): Option<Node> {
    if i.kind.Tree? && Present(w, i) && q != [] && q[0] == i.dest then Lookup(Dir(SourceTree(w, i).value), q[1..])
    else None
  }

  ghost predicate FileBy(w: World, i: StagedInput, q: Path) {
    GoesTo(w, i, q) || (InTree(w, i, q).Some? && LeafOf(InTree(w, i, q).value).Some?)
  }

  ghost predicate DirBy(w: World, i: StagedInput, q: Path) {
    || (exists p :: GoesTo(w, i, p) && q <= p && q != p)
    || (InTree(w, i, q).Some? && InTree(w, i, q).value.Dir?)
  }

  ghost predicate SpecialBy(w: World, i: StagedInput, q: Path) {
    InTree(w, i, q).Some? && InTree(w, i, q).value.Special?
  }

  /** The archive-relative paths that an input claims. */
  ghost predicate ClaimsBy(w: World, i: StagedInput, t: Text) {
    Present(w, i) &&
    if i.kind.Tree? then exists q :: LeafAt(Dir(SourceTree(w, i).value), q).Some? && t == PathText([i.dest] + q)
    else t == Normalize(i.dest)
  }

  ghost predicate FileAt(w: World, done: seq<StagedInput>, q: Path) {
    exists k :: 0 <= k < |done| && FileBy(w, done[k], q)
  }

  ghost predicate DirAt(w: World, done: seq<StagedInput>, q: Path) {
    exists k :: 0 <= k < |done| && DirBy(w, done[k], q)
  }

  ghost predicate SpecialAt(w: World, done: seq<StagedInput>, q: Path) {
    exists k :: 0 <= k < |done| && SpecialBy(w, done[k], q)
  }

  ghost predicate Claimed(w: World, done: seq<StagedInput>, t: Text) {
    exists k :: 0 <= k < |done| && ClaimsBy(w, done[k], t)
  }

  /** A path leads nowhere, through something that is not a directory, or to a directory or special node. */
  ghost predicate Blocked(w: World, done: seq<StagedInput>, p: Path) {
    || p == []
    || (exists k :: 0 < k < |p| && (FileAt(w, done, p[..k]) || SpecialAt(w, done, p[..k])))
    || DirAt(w, done, p) || SpecialAt(w, done, p)
  }

  // ----- the stage as its inputs describe it

  ghost predicate IsLeaf(n: Option<Node>) {
    n.Some? && LeafOf(n.value).Some?
  }

  ghost predicate Shaped(w: World, done: seq<StagedInput>, disk: seq<Child>) {
    forall q: Path :: q != [] ==>
      && (IsLeaf(Lookup(Dir(disk), q)) <==> FileAt(w, done, q))
      && (Lookup(Dir(disk), q).Some? && Lookup(Dir(disk), q).value.Dir? <==> DirAt(w, done, q))
      && (Lookup(Dir(disk), q).Some? && Lookup(Dir(disk), q).value.Special? <==> SpecialAt(w, done, q))
  }

  ghost predicate Matches(w: World, done: seq<StagedInput>, s: Stage) {
    Shaped(w, done, s.disk) && forall t :: t in s.used <==> Claimed(w, done, t)
  }

  lemma AtSnoc(w: World, done: seq<StagedInput>, i: StagedInput, q: Path)
    ensures FileAt(w, done + [i], q) <==> FileAt(w, done, q) || FileBy(w, i, q)
    ensures DirAt(w, done + [i], q) <==> DirAt(w, done, q) || DirBy(w, i, q)
    ensures SpecialAt(w, done + [i], q) <==> SpecialAt(w, done, q) || SpecialBy(w, i, q)
  {
    hide FileBy, DirBy, SpecialBy;
    var all := done + [i];
    assert all[|done|] == i;
    assert forall k :: 0 <= k < |done| ==> all[k] == done[k];
    if FileAt(w, done, q) {
      var k :| 0 <= k < |done| && FileBy(w, done[k], q);
      assert FileBy(w, all[k], q);
    }
    if DirAt(w, done, q) {
      var k :| 0 <= k < |done| && DirBy(w, done[k], q);
      assert DirBy(w, all[k], q);
    }
    if SpecialAt(w, done, q) {
      var k :| 0 <= k < |done| && SpecialBy(w, done[k], q);
      assert SpecialBy(w, all[k], q);
    }
  }

  lemma ClaimedSnoc(w: World, done: seq<StagedInput>, i: StagedInput, t: Text)
    ensures Claimed(w, done + [i], t) <==> Claimed(w, done, t) || ClaimsBy(w, i, t)
  {
    hide ClaimsBy;
    var all := done + [i];
    assert all[|done|] == i;
    assert forall k :: 0 <= k < |done| ==> all[k] == done[k];
    if Claimed(w, done, t) {
      var k :| 0 <= k < |done| && ClaimsBy(w, done[k], t);
      assert ClaimsBy(w, all[k], t);
    }
  }

  lemma NothingMatches(w: World)
    ensures Matches(w, [], Stage([], {}, []))
  {
  }

  lemma WritableIffFree(w: World, done: seq<StagedInput>, disk: seq<Child>, p: Path)
    requires Shaped(w, done, disk)
    ensures Writable(Dir(disk), p) <==> !Blocked(w, done, p)
  {
    hide FileAt, DirAt, SpecialAt, Lookup;
    var n := Dir(disk);
    if p != [] {
      forall k | 0 < k < |p|
        ensures Lookup(n, p[..k]).None? || Lookup(n, p[..k]).value.Dir? <==>
                !FileAt(w, done, p[..k]) && !SpecialAt(w, done, p[..k])
      {
        assert p[..k] != [];
      }
    }
  }

  // ----- one file

  /** What a file must satisfy to be staged after these inputs. */
  ghost predicate FileFits(w: World, done: seq<StagedInput>, i: StagedInput) {
    && !(i.kind.ExtraFile? && IsReserved(i.dest)) && !(i.kind.BunRuntime? && i.source == [])
    && (w.read(i.source).None? ==> i.optional)
    && (w.read(i.source).Some? ==>
          && !Claimed(w, done, Normalize(i.dest))
          && SafeJoin(w.base, i.dest).Some? && !Blocked(w, done, SafeJoin(w.base, i.dest).value))
  }

  lemma FileStepIff(w: World, done: seq<StagedInput>, s: Stage, i: StagedInput)
    requires Matches(w, done, s) && !i.kind.Tree? && !i.kind.ManifestJson?
    ensures Step(w, s, i).Ok? <==> FileFits(w, done, i)
  {
    hide Claimed, Blocked, Shaped, Normalize, SafeJoin, IsReserved, Write;
    if w.read(i.source).Some? && SafeJoin(w.base, i.dest).Some? {
      var p, data := SafeJoin(w.base, i.dest).value, w.read(i.source).value;
      WritesIffWritable(Dir(s.disk), p, data);
      WritableIffFree(w, done, s.disk, p);
    }
  }

  lemma ShapedAfterWrite(w: World, done: seq<StagedInput>, disk: seq<Child>, i: StagedInput, p: Path, data: Bytes)
    requires Shaped(w, done, disk) && !i.kind.Tree? && GoesTo(w, i, p) && Write(Dir(disk), p, data).Some?
    ensures Shaped(w, done + [i], Write(Dir(disk), p, data).value.children)
  {
    hide FileAt, DirAt, SpecialAt, Lookup, Write, GoesTo, LeafOf;
    WrittenIsDir(Dir(disk), p, data);
    var disk' := Write(Dir(disk), p, data).value.children;
    WritesIffWritable(Dir(disk), p, data);
    forall q: Path | q != []
      ensures IsLeaf(Lookup(Dir(disk'), q)) <==> FileAt(w, done + [i], q)
      ensures Lookup(Dir(disk'), q).Some? && Lookup(Dir(disk'), q).value.Dir? <==> DirAt(w, done + [i], q)
      ensures Lookup(Dir(disk'), q).Some? && Lookup(Dir(disk'), q).value.Special? <==> SpecialAt(w, done + [i], q)
    {
      LookupAfterWrite(Dir(disk), p, data, q);
      AtSnoc(w, done, i, q);
      ByFile(w, i, p, q);
      if q <= p {
        OnTheWay(Dir(disk), p, q);
      }
      LeafIsNoDir();
    }
  }

  lemma LeafIsNoDir()
    ensures forall n: Node :: LeafOf(n).Some? ==> !n.Dir? && !n.Special?
    ensures forall n: Node :: LeafOf(n).None? ==> n.Dir? || n.Special?
  {
  }

  lemma WrittenIsDir(n: Node, p: Path, data: Bytes)
    requires Write(n, p, data).Some?
    ensures Write(n, p, data).value.Dir?
  {
  }

  lemma ByFile(w: World, i: StagedInput, p: Path, q: Path)
    requires !i.kind.Tree? && GoesTo(w, i, p)
    ensures FileBy(w, i, q) <==> q == p
    ensures DirBy(w, i, q) <==> q <= p && q != p
    ensures !SpecialBy(w, i, q)
  {
  }

  /** What a writable path runs through are directories, if anything. */
  lemma OnTheWay(n: Node, p: Path, q: Path)
    requires Writable(n, p) && q <= p && q != []
    ensures q != p ==> Lookup(n, q).None? || Lookup(n, q).value.Dir?
    ensures q == p ==> Lookup(n, q).None? || LeafOf(Lookup(n, q).value).Some?
  {
    hide Lookup, LeafOf;
    assert q == p[..|q|];
  }

  lemma FileStepMatches(w: World, done: seq<StagedInput>, s: Stage, i: StagedInput)
    requires Matches(w, done, s) && !i.kind.Tree? && !i.kind.ManifestJson? && Step(w, s, i).Ok?
    ensures Matches(w, done + [i], Step(w, s, i).value)
  {
    hide Claimed, Shaped, Normalize, SafeJoin, IsReserved, Write, ClaimsBy;
    var s' := Step(w, s, i).value;
    forall t ensures t in s'.used <==> Claimed(w, done + [i], t) {
      ClaimedSnoc(w, done, i, t);
      FileClaims(w, i, t);
    }
    if w.read(i.source).Some? {
      ShapedAfterWrite(w, done, s.disk, i, SafeJoin(w.base, i.dest).value, w.read(i.source).value);
    } else {
      AbsentIsNothing(w, done, i, s.disk);
    }
  }

  lemma FileClaims(w: World, i: StagedInput, t: Text)
    requires !i.kind.Tree?
    ensures ClaimsBy(w, i, t) <==> w.read(i.source).Some? && t == Normalize(i.dest)
  {
  }

  /** An input that is not there changes nothing. */
  lemma AbsentIsNothing(w: World, done: seq<StagedInput>, i: StagedInput, disk: seq<Child>)
    requires Shaped(w, done, disk) && !Present(w, i)
    ensures Shaped(w, done + [i], disk)
  {
    hide FileAt, DirAt, SpecialAt, Lookup;
    forall q: Path ensures FileAt(w, done + [i], q) <==> FileAt(w, done, q)
                   ensures DirAt(w, done + [i], q) <==> DirAt(w, done, q)
                   ensures SpecialAt(w, done + [i], q) <==> SpecialAt(w, done, q)
    {
      AtSnoc(w, done, i, q);
    }
  }

  // ----- one tree

  /** Nothing that was staged before takes the tree's name, as a file or as a directory. */
  ghost predicate IsFree(w: World, done: seq<StagedInput>, name: Text) {
    forall q: Path :: q != [] && q[0] == name ==> !FileAt(w, done, q) && !DirAt(w, done, q) && !SpecialAt(w, done, q)
  }

  ghost predicate Unclaimed(w: World, done: seq<StagedInput>, i: StagedInput) {
    forall t :: ClaimsBy(w, i, t) ==> !Claimed(w, done, t)
  }

  lemma {:induction false} ListAllOk(w: World, s: Stage, found: seq<Found>)
    requires Distinct(found)
    requires forall f :: f in found ==> IsPath(f.path) && f.path != [] && PathText(f.path) !in s.used
    ensures ListAll(w, s, found).Ok?
    ensures forall t :: t in ListAll(w, s, found).value.used <==>
              t in s.used || exists f :: f in found && TextOf(f) == t
    decreases |found|
  {
    hide Normalize, PathText, Split, Names;
    if found != [] {
      var f := found[0];
      var rel := TextOf(f);
      PathTextNames(f.path);
      NormalizeNames(rel);
      var next := Stage(s.disk, s.used + {rel}, s.copied + [EntryOf(w, rel, f.leaf.data, false)]);
      forall g | g in found[1..] ensures IsPath(g.path) && g.path != [] && PathText(g.path) !in next.used {
        var k :| 0 <= k < |found[1..]| && found[1..][k] == g;
        assert found[k + 1] == g && g in found;
        PathTextNames(g.path);
      }
      ListAllOk(w, next, found[1..]);
      assert found == [f] + found[1..];
    }
  }

  lemma TreeClaims(w: World, i: StagedInput, t: Text)
    requires w.Sound() && i.kind.Tree? && SourceTree(w, i).Some? && IsName(i.dest)
    ensures ClaimsBy(w, i, t) <==>
            exists f :: f in Breadth([Todo([i.dest], SourceTree(w, i).value)]) && TextOf(f) == t
  {
    hide Breadth, PathText, World.Sound, SourceTree, LeafAt;
    var cs := SourceTree(w, i).value;
    SourceTreeValid(w, i);
    if ClaimsBy(w, i, t) {
      var q :| LeafAt(Dir(cs), q).Some? && t == PathText([i.dest] + q);
      var f := Found([i.dest] + q, LeafAt(Dir(cs), q).value);
      assert f.path[1..] == q;
      TreeIsListed(i.dest, cs, f);
      assert TextOf(f) == t;
    }
    if exists f :: f in Breadth([Todo([i.dest], cs)]) && TextOf(f) == t {
      var f :| f in Breadth([Todo([i.dest], cs)]) && TextOf(f) == t;
      TreeIsListed(i.dest, cs, f);
      assert f.path == [i.dest] + f.path[1..];
      assert LeafAt(Dir(cs), f.path[1..]).Some?;
    }
  }

  lemma OneIsApart(d: Todo)
    requires ValidAll(d.children) && IsPath(d.path)
    ensures ValidQueue([d]) && Apart([d])
  {
  }

  /** A tree at a free name is staged exactly when it is there or may be missing. */
  lemma TreeStep(w: World, done: seq<StagedInput>, s: Stage, i: StagedInput)
    requires w.Sound() && Matches(w, done, s) && i.kind.Tree? && IsName(i.dest)
    requires IsFree(w, done, i.dest) && Unclaimed(w, done, i)
    ensures Step(w, s, i).Ok? <==> Present(w, i) || i.optional
    ensures Step(w, s, i).Ok? ==> Matches(w, done + [i], Step(w, s, i).value)
  {
    hide Breadth, ListAll, World.Sound, Shaped, Claimed, ClaimsBy, IsFree, PathText, SourceTree, IsName, ValidAll;
    if SourceTree(w, i).Some? {
      var cs := SourceTree(w, i).value;
      var found, s1 := Breadth([Todo([i.dest], cs)]), s.(disk := Put(s.disk, i.dest, Dir(cs)));
      SourceTreeValid(w, i);
      OneIsApart(Todo([i.dest], cs));
      BreadthIsDistinct([Todo([i.dest], cs)]);
      BreadthArePaths([Todo([i.dest], cs)]);
      forall f | f in found ensures PathText(f.path) !in s1.used {
        TreeClaims(w, i, TextOf(f));
      }
      ListAllOk(w, s1, found);
      ListAllKeepsDisk(w, s1, found);
      var s' := ListAll(w, s1, found).value;
      forall t ensures t in s'.used <==> Claimed(w, done + [i], t) {
        ClaimedSnoc(w, done, i, t);
        TreeClaims(w, i, t);
      }
      ShapedAfterCopy(w, done, s.disk, i);
    } else {
      forall t ensures t in s.used <==> Claimed(w, done + [i], t) {
        ClaimedSnoc(w, done, i, t);
        NoClaims(w, i, t);
      }
      AbsentIsNothing(w, done, i, s.disk);
    }
  }

  lemma NoClaims(w: World, i: StagedInput, t: Text)
    requires !Present(w, i)
    ensures !ClaimsBy(w, i, t)
  {
  }

  lemma ShapedAfterCopy(w: World, done: seq<StagedInput>, disk: seq<Child>, i: StagedInput)
    requires Shaped(w, done, disk) && i.kind.Tree? && SourceTree(w, i).Some? && IsFree(w, done, i.dest)
    ensures Shaped(w, done + [i], Put(disk, i.dest, Dir(SourceTree(w, i).value)))
  {
    hide FileAt, DirAt, SpecialAt, Lookup, Put, LeafOf, SourceTree;
    var cs := SourceTree(w, i).value;
    var disk' := Put(disk, i.dest, Dir(cs));
    forall q: Path | q != []
      ensures IsLeaf(Lookup(Dir(disk'), q)) <==> FileAt(w, done + [i], q)
      ensures Lookup(Dir(disk'), q).Some? && Lookup(Dir(disk'), q).value.Dir? <==> DirAt(w, done + [i], q)
      ensures Lookup(Dir(disk'), q).Some? && Lookup(Dir(disk'), q).value.Special? <==> SpecialAt(w, done + [i], q)
    {
      LookupAfterPut(disk, i.dest, Dir(cs), q);
      AtSnoc(w, done, i, q);
      ByTree(w, i, q);
    }
  }

  lemma ByTree(w: World, i: StagedInput, q: Path)
    requires i.kind.Tree? && SourceTree(w, i).Some? && q != []
    ensures var n := if q[0] == i.dest then Lookup(Dir(SourceTree(w, i).value), q[1..]) else None;
            && (FileBy(w, i, q) <==> IsLeaf(n))
            && (DirBy(w, i, q) <==> n.Some? && n.value.Dir?)
            && (SpecialBy(w, i, q) <==> n.Some? && n.value.Special?)
  {
  }

  // ----- a whole run

  ghost predicate Fits(w: World, done: seq<StagedInput>, i: StagedInput) {
    if i.kind.Tree? then Present(w, i) || i.optional else FileFits(w, done, i)
  }

  /** Every tree finds its name free. */
  ghost predicate Roomy(w: World, done: seq<StagedInput>, todo: seq<StagedInput>) {
    forall k :: 0 <= k < |todo| && todo[k].kind.Tree? ==>
                  IsFree(w, done + todo[..k], todo[k].dest) && Unclaimed(w, done + todo[..k], todo[k])
  }

  ghost predicate AllFit(w: World, done: seq<StagedInput>, todo: seq<StagedInput>) {
    forall k :: 0 <= k < |todo| ==> Fits(w, done + todo[..k], todo[k])
  }

  function HostSource(i: Inputs): Text {
    if i.host.Compiled? then i.host.binary else i.host.script
  }

  /** The closing checks, and room for the manifest. */
  ghost predicate Closes(w: World, i: Inputs, done: seq<StagedInput>) {
    && w.read(i.pi).Some? && w.read(HostSource(i)).Some? && !Embeds(w.read(i.pi).value, w.read(HostSource(i)).value)
    && w.executable && !Claimed(w, done, RELEASE_JSON) && !Blocked(w, done, [RELEASE_JSON])
  }

  lemma FinishIff(w: World, i: Inputs, s: Stage, done: seq<StagedInput>)
    requires Matches(w, done, s)
    ensures Finish(w, i, s).Ok? <==> Closes(w, i, done)
  {
    hide Claimed, Blocked, Shaped, Normalize, Write, Embeds, ManifestOf, SafeJoin, Split, Names, IsName, Writable;
    NamesOfTrees();
    NameIsNamed(RELEASE_JSON);
    NormalizeNames(RELEASE_JSON);
    SafeJoinOfNames(w.base, RELEASE_JSON);
    WritesIffWritable(Dir(s.disk), [RELEASE_JSON], w.render(ManifestOf(i, s.copied)));
    WritableIffFree(w, done, s.disk, [RELEASE_JSON]);
  }

  lemma {:induction false} RunsIff(
      w: World, i: Inputs, s: Stage, done: seq<StagedInput>, todo: seq<StagedInput>, close: StagedInput)
    requires w.Sound() && Matches(w, done, s) && Ordinary(todo) && Roomy(w, done, todo) && close.kind.ManifestJson?
    ensures Perform(w, i, s, todo + [close]).Ok? <==> AllFit(w, done, todo) && Closes(w, i, done + todo)
    decreases |todo|
  {
    hide World.Sound, Matches, Finish, Step, Closes, FileFits, IsFree, Unclaimed, Present;
    if todo == [] {
      assert todo + [close] == [close] && done + todo == done;
      FinishIff(w, i, s, done);
    } else {
      var first, rest := todo[0], todo[1..];
      assert (todo + [close])[1..] == rest + [close] && (todo + [close])[0] == first;
      assert done + todo[..0] == done;
      StepIff(w, done, s, first);
      ShiftFits(w, done, todo);
      if Step(w, s, first).Ok? {
        RunsIff(w, i, Step(w, s, first).value, done + [first], rest, close);
        assert done + [first] + rest == done + todo;
      }
    }
  }

  lemma StepIff(w: World, done: seq<StagedInput>, s: Stage, i: StagedInput)
    requires w.Sound() && Matches(w, done, s) && !i.kind.ManifestJson? && (i.kind.Tree? ==> IsName(i.dest))
    requires i.kind.Tree? ==> IsFree(w, done, i.dest) && Unclaimed(w, done, i)
    ensures Step(w, s, i).Ok? <==> Fits(w, done, i)
    ensures Step(w, s, i).Ok? ==> Matches(w, done + [i], Step(w, s, i).value)
  {
    hide World.Sound, Matches, Step, FileFits, IsFree, Unclaimed, Present;
    if i.kind.Tree? {
      TreeStep(w, done, s, i);
    } else {
      FileStepIff(w, done, s, i);
      if Step(w, s, i).Ok? {
        FileStepMatches(w, done, s, i);
      }
    }
  }

  lemma ShiftFits(w: World, done: seq<StagedInput>, todo: seq<StagedInput>)
    requires todo != []
    ensures AllFit(w, done, todo) <==> Fits(w, done, todo[0]) && AllFit(w, done + [todo[0]], todo[1..])
    ensures Roomy(w, done, todo) ==> Roomy(w, done + [todo[0]], todo[1..])
  {
    hide Fits, IsFree, Unclaimed;
    var first, rest := todo[0], todo[1..];
    assert done + todo[..0] == done;
    forall k | 0 <= k < |rest| ensures done + [first] + rest[..k] == done + todo[..k + 1] && rest[k] == todo[k + 1] {
    }
    if AllFit(w, done + [first], rest) && Fits(w, done, first) {
      forall k | 0 <= k < |todo| ensures Fits(w, done + todo[..k], todo[k]) {
        if k > 0 {
          assert Fits(w, done + [first] + rest[..k - 1], rest[k - 1]);
        }
      }
    }
    if AllFit(w, done, todo) {
      forall k | 0 <= k < |rest| ensures Fits(w, done + [first] + rest[..k], rest[k]) {
        assert Fits(w, done + todo[..k + 1], todo[k + 1]);
      }
    }
  }

  // ----- the fixed part of the plan

  /** A fixed input goes to a plain name. */
  ghost predicate IsPlain(i: StagedInput) {
    IsName(i.dest) && !i.kind.ExtraFile? && !i.kind.ManifestJson?
  }

  lemma PlainGoesTo(w: World, i: StagedInput, p: Path)
    requires IsPlain(i)
    ensures GoesTo(w, i, p) <==> !i.kind.Tree? && Present(w, i) && p == [i.dest]
    ensures Normalize(i.dest) == i.dest && SafeJoin(w.base, i.dest) == Some([i.dest])
  {
    hide SafeJoin, Names, Normalize, Split;
    NameIsNamed(i.dest);
    SafeJoinOfNames(w.base, i.dest);
    NormalizeNames(i.dest);
  }

  /** What a plain input puts on disk is at or below its name. */
  lemma PlainStaysBelow(w: World, i: StagedInput, q: Path)
    requires IsPlain(i) && q != [] && q[0] != i.dest
    ensures !FileBy(w, i, q) && !DirBy(w, i, q) && !SpecialBy(w, i, q)
  {
    hide GoesTo;
    PlainGoesTo(w, i, q);
    forall p | GoesTo(w, i, p) ensures !(q <= p) {
      PlainGoesTo(w, i, p);
    }
  }

  lemma PlainClaims(w: World, i: StagedInput, t: Text)
    requires w.Sound() && IsPlain(i) && ClaimsBy(w, i, t)
    ensures Split(t, SLASH)[0] == i.dest && (i.kind.Tree? <==> |Split(t, SLASH)| > 1)
  {
    hide World.Sound, SourceTree, Normalize, LeafAt, ValidAll;
    if i.kind.Tree? {
      var cs := SourceTree(w, i).value;
      var q :| LeafAt(Dir(cs), q).Some? && t == PathText([i.dest] + q);
      SourceTreeValid(w, i);
      LeafIsBelow(Dir(cs), q);
      LeafPath(cs, q);
      PathTextNames([i.dest] + q);
    } else {
      NameIsNamed(i.dest);
      PlainGoesTo(w, i, []);
    }
  }

  lemma LeafPath(cs: seq<Child>, q: Path)
    requires ValidAll(cs) && LeafAt(Dir(cs), q).Some?
    ensures IsPath(q)
  {
    FoundIsPath(Dir(cs), q);
  }

  /** Among plain inputs, a tree at a name of its own has room. */
  lemma PlainIsRoomy(w: World, done: seq<StagedInput>, i: StagedInput)
    requires w.Sound() && i.kind.Tree? && IsPlain(i)
    requires forall k :: 0 <= k < |done| ==> IsPlain(done[k]) && done[k].dest != i.dest
    ensures IsFree(w, done, i.dest) && Unclaimed(w, done, i)
  {
    hide World.Sound, FileBy, DirBy, SpecialBy, ClaimsBy, IsPlain, Split;
    forall q: Path, k | q != [] && q[0] == i.dest && 0 <= k < |done|
      ensures !FileBy(w, done[k], q) && !DirBy(w, done[k], q) && !SpecialBy(w, done[k], q)
    {
      PlainStaysBelow(w, done[k], q);
    }
    forall t, k | ClaimsBy(w, i, t) && 0 <= k < |done| ensures !ClaimsBy(w, done[k], t) {
      PlainClaims(w, i, t);
      if ClaimsBy(w, done[k], t) {
        PlainClaims(w, done[k], t);
      }
    }
  }

  /** An input that is there, or need not be. */
  ghost predicate Available(w: World, i: StagedInput) {
    (Present(w, i) || i.optional) && !(i.kind.BunRuntime? && i.source == [])
  }

  /** Two inputs that would stage one file twice. */
  ghost predicate Collide(w: World, a: StagedInput, b: StagedInput) {
    a.dest == b.dest && Present(w, a) && Present(w, b)
  }

  lemma PlainFileFits(w: World, done: seq<StagedInput>, i: StagedInput)
    requires w.Sound() && IsPlain(i) && !i.kind.Tree?
    requires forall k :: 0 <= k < |done| ==> IsPlain(done[k]) && (done[k].kind.Tree? ==> done[k].dest != i.dest)
    ensures FileFits(w, done, i) <==>
            Available(w, i) && forall k :: 0 <= k < |done| ==> !Collide(w, done[k], i)
  {
    hide World.Sound, FileBy, DirBy, SpecialBy, IsPlain, Split, IsReserved, ClaimsBy;
    assert !i.kind.ExtraFile? by { PlainKind(i); }
    PlainGoesTo(w, i, []);
    forall k | 0 <= k < |done|
      ensures ClaimsBy(w, done[k], i.dest) <==> done[k].dest == i.dest && Present(w, done[k])
      ensures !DirBy(w, done[k], [i.dest]) && !SpecialBy(w, done[k], [i.dest])
    {
      PlainKind(done[k]);
      PlainAgainst(w, done[k], i);
    }
  }

  lemma PlainKind(i: StagedInput)
    requires IsPlain(i)
    ensures !i.kind.ExtraFile? && !i.kind.ManifestJson? && IsName(i.dest)
  {
  }

  /** A plain input against the name of a plain file. */
  lemma PlainAgainst(w: World, d: StagedInput, i: StagedInput)
    requires w.Sound() && IsPlain(d) && IsPlain(i) && (d.kind.Tree? ==> d.dest != i.dest)
    ensures ClaimsBy(w, d, i.dest) <==> d.dest == i.dest && Present(w, d)
    ensures !DirBy(w, d, [i.dest]) && !SpecialBy(w, d, [i.dest])
  {
    hide World.Sound, Split, Normalize, SafeJoin;
    NameIsNamed(i.dest);
    if ClaimsBy(w, d, i.dest) {
      PlainClaims(w, d, i.dest);
    }
    PlainGoesTo(w, d, []);
    if d.dest != i.dest {
      PlainStaysBelow(w, d, [i.dest]);
    } else {
      forall p | GoesTo(w, d, p) ensures p == [i.dest] {
        PlainGoesTo(w, d, p);
      }
    }
  }

  // ----- the fixed inputs by name

  /** Length and first unit tell the names of the plan apart. */
  function Mark(t: Text): nat {
    if t == [] then 0 else 0x1_0000 * |t| + t[0]
  }

  lemma MarksOfBinaries()
    ensures Mark(PI) == 0x2_0070 && Mark(PI_EXE) == 0x6_0070 && Mark(BUN) == 0x3_0062 && Mark(BUN_EXE) == 0x7_0062
  {
    NamesOfBinaries();
  }

  lemma MarksOfHost()
    ensures Mark(HOST) == 0x11_0070 && Mark(HOST_EXE) == 0x15_0070 && Mark(HOST_JS) == 0x14_0070
  {
    NamesOfHost();
  }

  lemma MarksOfDocuments()
    ensures Mark(CHANGELOG) == 0xc_0043 && Mark(README) == 0x9_0052
    ensures Mark(LICENSE) == 0x7_004c && Mark(LICENSE_MIT) == 0xb_004c
  {
    NamesOfDocuments();
  }

  lemma MarksOfTrees()
    ensures Mark(DOCS) == 0x4_0064 && Mark(ASSETS) == 0x6_0061 && Mark(THEME) == 0x5_0074
    ensures Mark(RELEASE_JSON) == 0xc_0072
  {
    NamesOfTrees();
    assert RELEASE_JSON[0] == 0x72;
  }

  ghost predicate HostTwice(i: Inputs) {
    i.host.Bundle? && i.fallback.Some?
  }

  /** The marks of the fixed inputs, in order. */
  ghost function Marks(i: Inputs): seq<nat> {
    var bun := if i.windows then 0x7_0062 else 0x3_0062;
    [if i.windows then 0x6_0070 else 0x2_0070]
    + (if i.host.Compiled? then [if i.windows then 0x15_0070 else 0x11_0070] else [0x14_0070, bun])
    + (if i.fallback.Some? then [0x14_0070, bun] else [])
    + [0xc_0043, 0x9_0052, 0x7_004c, 0xb_004c, 0x4_0064, 0x6_0061, 0x5_0074]
  }

  lemma FixedMarks(i: Inputs)
    ensures |Fixed(i)| == |Marks(i)| && forall k :: 0 <= k < |Marks(i)| ==> Mark(Fixed(i)[k].dest) == Marks(i)[k]
  {
    hide Mark;
    MarksOfBinaries();
    MarksOfHost();
    MarksOfDocuments();
    MarksOfTrees();
    var b := Binaries(i);
    assert forall k :: 0 <= k < |b| ==> Fixed(i)[k] == b[k];
    assert forall k :: 0 <= k < 4 ==> Fixed(i)[|b| + k] == Documents(i)[k];
    assert forall k :: 0 <= k < 3 ==> Fixed(i)[|b| + 4 + k] == Trees(i)[k];
  }

  lemma FixedDiffer(i: Inputs)
    ensures !HostTwice(i) ==> forall j, k :: 0 <= j < k < |Fixed(i)| ==> Fixed(i)[j].dest != Fixed(i)[k].dest
    ensures forall k :: 0 <= k < |Fixed(i)| ==> Fixed(i)[k].dest != RELEASE_JSON
  {
    hide Mark, Fixed;
    FixedMarks(i);
    MarksOfTrees();
    MarksDiffer(i);
  }

  lemma MarksDiffer(i: Inputs)
    ensures !HostTwice(i) ==> forall j, k :: 0 <= j < k < |Marks(i)| ==> Marks(i)[j] != Marks(i)[k]
    ensures forall k :: 0 <= k < |Marks(i)| ==> Marks(i)[k] != 0xc_0072
  {
  }

  /** The fixed inputs are plain; trees are last and have names of their own. */
  lemma FixedIsPlain(i: Inputs, j: nat, k: nat)
    requires j < k < |Fixed(i)|
    ensures IsPlain(Fixed(i)[j]) && IsPlain(Fixed(i)[k])
    ensures Fixed(i)[k].kind.Tree? || Fixed(i)[j].kind.Tree? ==> Fixed(i)[j].dest != Fixed(i)[k].dest
  {
    hide Binaries, Documents, IsName;
    FixedShape(i, j);
    FixedShape(i, k);
    MarksOfTrees();
    assert DOCS != ASSETS && DOCS != THEME && ASSETS != THEME;
    var names, n := [DOCS, ASSETS, THEME], |Binaries(i)| + 4;
    assert k >= n ==> Fixed(i)[k].dest in names;
    assert forall a, b :: 0 <= a < b < 3 ==> names[a] != names[b];
  }

  lemma FixedShape(i: Inputs, k: nat)
    requires k < |Fixed(i)|
    ensures |Fixed(i)| == |Binaries(i)| + 7 && IsPlain(Fixed(i)[k])
    ensures if k < |Binaries(i)| + 4
            then PlainFile(Fixed(i)[k])
            else Fixed(i)[k].kind.Tree? && Fixed(i)[k].dest == [DOCS, ASSETS, THEME][k - |Binaries(i)| - 4]
  {
    hide Binaries, IsName;
    NamesOfTrees();
    var files := Binaries(i) + Documents(i);
    assert |files| == |Binaries(i)| + 4;
    if k < |files| {
      FilesArePlain(i, k);
      assert Fixed(i)[k] == files[k];
    } else {
      assert Fixed(i)[k] == Trees(i)[k - |files|];
    }
  }

  lemma FixedIsRoomy(w: World, i: Inputs)
    requires w.Sound()
    ensures Roomy(w, [], Fixed(i))
  {
    hide World.Sound, Fixed, IsPlain, IsFree, Unclaimed;
    forall k | 0 <= k < |Fixed(i)| && Fixed(i)[k].kind.Tree?
      ensures IsFree(w, [] + Fixed(i)[..k], Fixed(i)[k].dest) && Unclaimed(w, [] + Fixed(i)[..k], Fixed(i)[k])
    {
      var done := [] + Fixed(i)[..k];
      FixedShape(i, k);
      forall j | 0 <= j < |done| ensures IsPlain(done[j]) && done[j].dest != Fixed(i)[k].dest {
        FixedIsPlain(i, j, k);
      }
      PlainIsRoomy(w, done, Fixed(i)[k]);
    }
  }

  lemma FixedFits(w: World, i: Inputs, k: nat)
    requires w.Sound() && k < |Fixed(i)|
    ensures Fits(w, [] + Fixed(i)[..k], Fixed(i)[k]) <==>
            Available(w, Fixed(i)[k]) && forall j :: 0 <= j < k ==> !Collide(w, Fixed(i)[j], Fixed(i)[k])
  {
    hide World.Sound, Fixed, IsPlain, FileFits, Present;
    var done, f := [] + Fixed(i)[..k], Fixed(i)[k];
    FixedShape(i, k);
    forall j | 0 <= j < |done|
      ensures IsPlain(done[j]) && (done[j].kind.Tree? || f.kind.Tree? ==> done[j].dest != f.dest)
    {
      FixedIsPlain(i, j, k);
    }
    if !f.kind.Tree? {
      PlainFileFits(w, done, f);
    }
    assert forall j :: 0 <= j < k ==> done[j] == Fixed(i)[j];
  }

  /** All that assembly cannot do without. */
  ghost predicate Supplied(w: World, i: Inputs) {
    && w.read(i.pi).Some?
    && (match i.host
        case Compiled(binary) => w.read(binary).Some?
        case Bundle(script, runtime) =>
          w.read(script).Some? && runtime.Some? && runtime.value != [] && w.read(runtime.value).Some?)
    && (i.fallback.Some? ==>
          && w.read(i.fallback.value.script).Some?
          && i.fallback.value.runtime != [] && w.read(i.fallback.value.runtime).Some?)
    && w.read(i.repoRoot + [SLASH] + CHANGELOG).Some? && w.read(i.repoRoot + [SLASH] + README).Some?
    && i.docs != [] && w.tree(i.docs).Some? && w.tree(i.docs).value.Dir?
  }

  lemma BinariesAvailable(w: World, i: Inputs)
    ensures (forall k :: 0 <= k < |Binaries(i)| ==> Available(w, Binaries(i)[k])) <==>
            && w.read(i.pi).Some?
            && (match i.host
                case Compiled(binary) => w.read(binary).Some?
                case Bundle(script, runtime) =>
                  w.read(script).Some? && runtime.Some? && runtime.value != [] && w.read(runtime.value).Some?)
            && (i.fallback.Some? ==>
                  && w.read(i.fallback.value.script).Some?
                  && i.fallback.value.runtime != [] && w.read(i.fallback.value.runtime).Some?)
  {
    var b := Binaries(i);
    var n := |b|;
    if i.fallback.Some? {
      assert b[n - 2].source == i.fallback.value.script && b[n - 1].source == i.fallback.value.runtime;
    }
    if forall k :: 0 <= k < n ==> Available(w, b[k]) {
      assert Available(w, b[0]) && Available(w, b[1]);
      if i.host.Bundle? {
        assert Available(w, b[2]);
      }
      if i.fallback.Some? {
        assert Available(w, b[n - 2]) && Available(w, b[n - 1]);
      }
    }
  }

  lemma DocumentsAvailable(w: World, i: Inputs)
    ensures (forall k :: 0 <= k < 4 ==> Available(w, Documents(i)[k])) <==>
            w.read(i.repoRoot + [SLASH] + CHANGELOG).Some? && w.read(i.repoRoot + [SLASH] + README).Some?
  {
    var d := Documents(i);
    if forall k :: 0 <= k < 4 ==> Available(w, d[k]) {
      assert Available(w, d[0]) && Available(w, d[1]);
    }
  }

  lemma TreesAvailable(w: World, i: Inputs)
    ensures (forall k :: 0 <= k < 3 ==> Available(w, Trees(i)[k])) <==>
            i.docs != [] && w.tree(i.docs).Some? && w.tree(i.docs).value.Dir?
  {
    var t := Trees(i);
    if forall k :: 0 <= k < 3 ==> Available(w, t[k]) {
      assert Available(w, t[0]);
    }
  }

  lemma FixedAvailable(w: World, i: Inputs)
    ensures (forall k :: 0 <= k < |Fixed(i)| ==> Available(w, Fixed(i)[k])) <==> Supplied(w, i)
  {
    hide Available, Binaries, Documents, Trees;
    var b, d, t, f := Binaries(i), Documents(i), Trees(i), Fixed(i);
    PartSizes(i);
    BinariesAvailable(w, i);
    DocumentsAvailable(w, i);
    TreesAvailable(w, i);
    assert forall k :: 0 <= k < |b| ==> f[k] == b[k];
    assert forall k :: 0 <= k < 4 ==> f[|b| + k] == d[k];
    assert forall k :: 0 <= k < 3 ==> f[|b| + 4 + k] == t[k];
    if forall k :: 0 <= k < |f| ==> Available(w, f[k]) {
      forall k | 0 <= k < 4 ensures Available(w, d[k]) {
        assert Available(w, f[|b| + k]);
      }
      forall k | 0 <= k < 3 ensures Available(w, t[k]) {
        assert Available(w, f[|b| + 4 + k]);
      }
    } else if Supplied(w, i) {
      forall k | 0 <= k < |f| ensures Available(w, f[k]) {
        if k >= |b| + 4 {
          assert f[k] == t[k - |b| - 4];
        } else if k >= |b| {
          assert f[k] == d[k - |b|];
        }
      }
    }
  }

  lemma PartSizes(i: Inputs)
    ensures |Documents(i)| == 4 && |Trees(i)| == 3
  {
  }

  /** The fixed part of the plan goes through exactly when all is supplied and the host is not staged twice. */
  lemma FixedFit(w: World, i: Inputs)
    requires w.Sound()
    ensures AllFit(w, [], Fixed(i)) <==> Supplied(w, i) && !HostTwice(i)
  {
    hide World.Sound, Fixed, Fits, Available, Supplied, Collide;
    FixedAvailable(w, i);
    FixedDiffer(i);
    forall k | 0 <= k < |Fixed(i)|
      ensures Fits(w, [] + Fixed(i)[..k], Fixed(i)[k]) <==>
              Available(w, Fixed(i)[k]) && forall j :: 0 <= j < k ==> !Collide(w, Fixed(i)[j], Fixed(i)[k])
    {
      FixedFits(w, i, k);
    }
    if !HostTwice(i) {
      forall j, k | 0 <= j < k < |Fixed(i)| ensures !Collide(w, Fixed(i)[j], Fixed(i)[k]) {
        DifferentDoNotCollide(w, Fixed(i)[j], Fixed(i)[k]);
      }
    } else if Supplied(w, i) {
      ScriptsCollide(w, i);
      assert !Fits(w, [] + Fixed(i)[..3], Fixed(i)[3]);
    }
  }

  lemma DifferentDoNotCollide(w: World, a: StagedInput, b: StagedInput)
    requires a.dest != b.dest
    ensures !Collide(w, a, b)
  {
  }

  lemma ScriptsCollide(w: World, i: Inputs)
    requires HostTwice(i) && Supplied(w, i)
    ensures |Fixed(i)| > 3 && Collide(w, Fixed(i)[1], Fixed(i)[3])
  {
    hide Documents, Trees;
    assert Fixed(i)[1] == Binaries(i)[1] && Fixed(i)[3] == Binaries(i)[3];
  }

  // ----- when assembly succeeds

  /** What an extra must satisfy: it is there, keeps off the reserved slots, and has a destination of its own. */
  ghost predicate ExtraFits(w: World, i: Inputs, k: nat)
    requires k < |i.extras|
  {
    var t, done := Normalize(i.extras[k].dest), Fixed(i) + Extras(i)[..k];
    && w.read(i.extras[k].source).Some? && !IsReserved(t)
    && SafeJoin(w.base, t).Some? && !Claimed(w, done, t) && !Blocked(w, done, SafeJoin(w.base, t).value)
  }

  /** No extra leads to something below `release.json`. */
  ghost predicate ManifestStaysFree(w: World, i: Inputs) {
    forall k :: 0 <= k < |i.extras| ==>
      var p := SafeJoin(w.base, Normalize(i.extras[k].dest));
      !(p.Some? && |p.value| > 1 && p.value[0] == RELEASE_JSON)
  }

  /** The first 64 KiB of the host, or all of it, stand somewhere in the binary. */
  ghost predicate HostInBinary(w: World, i: Inputs)
    requires w.read(i.pi).Some? && w.read(HostSource(i)).Some?
  {
    var pi, host := w.read(i.pi).value, w.read(HostSource(i)).value;
    var n := if |host| < 0x1_0000 then |host| else 0x1_0000;
    n > 0 && Contains(pi, host[..n])
  }

  lemma EmbedsIff(w: World, i: Inputs)
    requires w.read(i.pi).Some? && w.read(HostSource(i)).Some?
    ensures Embeds(w.read(i.pi).value, w.read(HostSource(i)).value) <==> HostInBinary(w, i)
  {
    var host := w.read(HostSource(i)).value;
    var n := if |host| < 0x1_0000 then |host| else 0x1_0000;
    var probe := if |host| < PROBE_LENGTH then host else host[..PROBE_LENGTH];
    assert PROBE_LENGTH == 0x1_0000;
    assert probe == host[..n] && (probe != [] <==> n > 0);
  }

  lemma ExtraIsFits(w: World, i: Inputs, k: nat)
    requires k < |i.extras|
    ensures ExtraFits(w, i, k) <==> Fits(w, Fixed(i) + Extras(i)[..k], Extras(i)[k])
  {
    hide Claimed, Blocked, SafeJoin, IsReserved, Fixed, Normalize;
    NormalizeSettles(i.extras[k].dest);
  }

  lemma PrefixOfConcat(a: seq<StagedInput>, b: seq<StagedInput>, k: nat)
    requires k < |a| + |b|
    ensures k < |a| ==> (a + b)[k] == a[k] && [] + (a + b)[..k] == [] + a[..k]
    ensures k >= |a| ==> (a + b)[k] == b[k - |a|] && [] + (a + b)[..k] == a + b[..k - |a|]
  {
  }

  lemma AllFitConcat(w: World, a: seq<StagedInput>, b: seq<StagedInput>)
    ensures AllFit(w, [], a + b) <==> AllFit(w, [], a) && AllFit(w, a, b)
  {
    hide Fits;
    if AllFit(w, [], a + b) {
      forall k | 0 <= k < |a| ensures Fits(w, [] + a[..k], a[k]) {
        PrefixOfConcat(a, b, k);
        assert Fits(w, [] + (a + b)[..k], (a + b)[k]);
      }
      forall k | 0 <= k < |b| ensures Fits(w, a + b[..k], b[k]) {
        PrefixOfConcat(a, b, |a| + k);
        assert Fits(w, [] + (a + b)[..|a| + k], (a + b)[|a| + k]);
      }
    }
    if AllFit(w, [], a) && AllFit(w, a, b) {
      forall k | 0 <= k < |a + b| ensures Fits(w, [] + (a + b)[..k], (a + b)[k]) {
        PrefixOfConcat(a, b, k);
        if k >= |a| {
          assert Fits(w, a + b[..k - |a|], b[k - |a|]);
        }
      }
    }
  }

  lemma RoomyConcat(w: World, a: seq<StagedInput>, b: seq<StagedInput>)
    requires Roomy(w, [], a) && forall k :: 0 <= k < |b| ==> !b[k].kind.Tree?
    ensures Roomy(w, [], a + b)
  {
    hide IsFree, Unclaimed;
    forall k | 0 <= k < |a + b| && (a + b)[k].kind.Tree?
      ensures IsFree(w, [] + (a + b)[..k], (a + b)[k].dest) && Unclaimed(w, [] + (a + b)[..k], (a + b)[k])
    {
      PrefixOfConcat(a, b, k);
    }
  }

  lemma SplitPlan(w: World, i: Inputs)
    ensures AllFit(w, [], Planned(i)) <==>
            AllFit(w, [], Fixed(i)) && forall k :: 0 <= k < |i.extras| ==> ExtraFits(w, i, k)
    ensures Roomy(w, [], Fixed(i)) ==> Roomy(w, [], Planned(i))
  {
    hide Fits, ExtraFits, IsFree, Unclaimed, Fixed, Normalize;
    AllFitConcat(w, Fixed(i), Extras(i));
    forall k | 0 <= k < |i.extras| ensures ExtraFits(w, i, k) <==> Fits(w, Fixed(i) + Extras(i)[..k], Extras(i)[k]) {
      ExtraIsFits(w, i, k);
    }
    if Roomy(w, [], Fixed(i)) {
      RoomyConcat(w, Fixed(i), Extras(i));
    }
  }

  /** The manifest is claimed by nothing that fits, and in its way stands only what leads below it. */
  lemma ManifestIsFree(w: World, i: Inputs)
    requires w.Sound() && forall k :: 0 <= k < |i.extras| ==> ExtraFits(w, i, k)
    ensures !Claimed(w, Planned(i), RELEASE_JSON)
    ensures Blocked(w, Planned(i), [RELEASE_JSON]) <==> !ManifestStaysFree(w, i)
  {
    hide World.Sound, Fixed, ClaimsBy, DirBy, SpecialBy, FileBy, Normalize, IsReserved, SafeJoin, ExtraFits,
         IsName, IsPlain;
    var f, e, p := Fixed(i), Extras(i), Planned(i);
    NamesOfTrees();
    FixedDiffer(i);
    forall k | 0 <= k < |p|
      ensures !ClaimsBy(w, p[k], RELEASE_JSON) && !SpecialBy(w, p[k], [RELEASE_JSON])
      ensures k < |f| ==> !DirBy(w, p[k], [RELEASE_JSON])
    {
      if k < |f| {
        FixedShape(i, k);
        assert p[k] == f[k];
        FixedAgainstManifest(w, f[k]);
      } else {
        assert p[k] == e[k - |f|] && ExtraFits(w, i, k - |f|);
        ExtraAgainstManifest(w, i, k - |f|);
      }
    }
    forall k | 0 <= k < |e|
      ensures DirBy(w, e[k], [RELEASE_JSON]) <==>
              var q := SafeJoin(w.base, Normalize(i.extras[k].dest));
              q.Some? && |q.value| > 1 && q.value[0] == RELEASE_JSON
    {
      assert ExtraFits(w, i, k);
      ExtraBelowManifest(w, i, k);
    }
    if !ManifestStaysFree(w, i) {
      var k :| 0 <= k < |i.extras| && DirBy(w, e[k], [RELEASE_JSON]);
      assert p[|f| + k] == e[k];
    }
    if DirAt(w, p, [RELEASE_JSON]) {
      var k :| 0 <= k < |p| && DirBy(w, p[k], [RELEASE_JSON]);
      assert p[k] == e[k - |f|];
    }
  }

  lemma FixedAgainstManifest(w: World, d: StagedInput)
    requires w.Sound() && IsPlain(d) && d.dest != RELEASE_JSON
    ensures !ClaimsBy(w, d, RELEASE_JSON) && !SpecialBy(w, d, [RELEASE_JSON]) && !DirBy(w, d, [RELEASE_JSON])
  {
    hide World.Sound, ClaimsBy, Split;
    NamesOfTrees();
    NameIsNamed(RELEASE_JSON);
    PlainStaysBelow(w, d, [RELEASE_JSON]);
    if ClaimsBy(w, d, RELEASE_JSON) {
      PlainClaims(w, d, RELEASE_JSON);
    }
  }

  lemma ManifestIsReserved()
    ensures IsReserved(RELEASE_JSON)
  {
    hide IsName, Normalize;
    NamesOfTrees();
    NameIsNamed(RELEASE_JSON);
    NormalizeNames(RELEASE_JSON);
    assert RESERVED_SLOTS[7] == RELEASE_JSON;
  }

  lemma ExtraAgainstManifest(w: World, i: Inputs, k: nat)
    requires k < |i.extras| && ExtraFits(w, i, k)
    ensures !ClaimsBy(w, Extras(i)[k], RELEASE_JSON) && !SpecialBy(w, Extras(i)[k], [RELEASE_JSON])
  {
    hide IsReserved, SafeJoin, Normalize, Claimed, Blocked, Fixed;
    NormalizeSettles(i.extras[k].dest);
    ManifestIsReserved();
  }

  lemma ExtraBelowManifest(w: World, i: Inputs, k: nat)
    requires k < |i.extras| && ExtraFits(w, i, k)
    ensures DirBy(w, Extras(i)[k], [RELEASE_JSON]) <==>
            var q := SafeJoin(w.base, Normalize(i.extras[k].dest));
            q.Some? && |q.value| > 1 && q.value[0] == RELEASE_JSON
  {
    hide IsReserved, SafeJoin, Normalize, Claimed, Blocked, Fixed;
    var x, q := Extras(i)[k], SafeJoin(w.base, Normalize(i.extras[k].dest));
    if q.Some? {
      assert GoesTo(w, x, q.value);
    }
  }

  /**
   Assembly succeeds if and only if the binary, the host with its runtime, the change log, the readme and the
   documentation are there, no script is staged for host and fallback both, every extra is there and has a
   destination that is free, inside and not in the way, no extra leads below the manifest, the binary does not
   contain the host, and the binaries are executable.
   */
  lemma AssemblesIff(w: World, i: Inputs)
    requires w.Sound()
    ensures Assemble(w, i).Ok? <==>
            && Supplied(w, i) && !HostTwice(i)
            && (forall k :: 0 <= k < |i.extras| ==> ExtraFits(w, i, k))
            && ManifestStaysFree(w, i) && !HostInBinary(w, i) && w.executable
  {
    hide World.Sound, Matches, Perform, Fixed, Planned, AllFit, Roomy, Supplied, ExtraFits, ManifestStaysFree, Claimed,
         Blocked, Embeds, HostInBinary, Ordinary;
    NothingMatches(w);
    PlannedIsOrdinary(i);
    FixedIsRoomy(w, i);
    FixedFit(w, i);
    SplitPlan(w, i);
    RunsIff(w, i, Stage([], {}, []), [], Planned(i), MANIFEST_INPUT);
    assert [] + Planned(i) == Planned(i);
    SuppliedSources(w, i);
    if Supplied(w, i) {
      EmbedsIff(w, i);
    }
    if forall k :: 0 <= k < |i.extras| ==> ExtraFits(w, i, k) {
      ManifestIsFree(w, i);
    }
  }

  lemma SuppliedSources(w: World, i: Inputs)
    ensures Supplied(w, i) ==> w.read(i.pi).Some? && w.read(HostSource(i)).Some?
  {
  }

  // ----- the slots that extras keep off

  lemma SlotsArePlain(name: Text)
    requires IsName(name)
    ensures IsReserved(name) <==> name in RESERVED_SLOTS
  {
    hide Normalize, IsName;
    NameIsNamed(name);
    NormalizeNames(name);
  }

  /** The places of the binaries of all targets, and of the manifest. */
  ghost predicate IsSlot(name: Text) {
    name in {PI, PI_EXE, HOST, HOST_EXE, HOST_JS, BUN, BUN_EXE, RELEASE_JSON}
  }

  /** No extra may take, or go below, the place of a binary of any target or of the manifest. */
  lemma SlotsAreReserved(i: Inputs, k: nat)
    ensures k < |Binaries(i)| ==> IsReserved(Binaries(i)[k].dest)
    ensures IsReserved(RELEASE_JSON)
    ensures forall name, below :: IsSlot(name) && Names(below) ==> IsReserved(name + [SLASH] + below)
  {
    hide Normalize, IsName, Names;
    NamesOfBinaries();
    NamesOfHost();
    ManifestIsReserved();
    SlotsAreListed();
    if k < |Binaries(i)| {
      assert Binaries(i)[k].dest in {PI, PI_EXE, HOST, HOST_EXE, HOST_JS, BUN, BUN_EXE};
      SlotsArePlain(Binaries(i)[k].dest);
    }
    NamesOfTrees();
    forall name, below | IsSlot(name) && Names(below)
      ensures IsReserved(name + [SLASH] + below)
    {
      BelowSlot(name, below);
    }
  }

  lemma SlotsAreListed()
    ensures forall name :: IsSlot(name) ==> name in RESERVED_SLOTS
  {
    hide Units;
    var s := RESERVED_SLOTS;
    assert s[0] == PI && s[1] == PI_EXE && s[2] == HOST && s[3] == HOST_EXE && s[4] == HOST_JS && s[5] == BUN;
    assert s[6] == BUN_EXE && s[7] == RELEASE_JSON;
  }

  lemma BelowSlot(name: Text, below: Text)
    requires IsName(name) && name in RESERVED_SLOTS && Names(below)
    ensures IsReserved(name + [SLASH] + below)
  {
    hide Normalize;
    SplitCut(name, below, SLASH);
    NormalizeNames(name + [SLASH] + below);
  }
}
