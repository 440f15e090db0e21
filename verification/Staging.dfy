/**
 The staging run as it works: claimed paths, a work queue of directories, and a loop over the plan that
 builds the release.
 */
module Staging {
  import opened Prelude
  import opened FileTree
  import opened ReleasePaths
  import opened TreeListing
  import opened Release

  /** The archive-relative paths already staged. */
  class UsedPaths {
    var seen: set<Text>

    constructor ()
      ensures seen == {}
    {
      seen := {};
    }

    /** Claims a path, or reports it and changes nothing. */
    method Claim(rel: Text) returns (failure: Option<Failure>)
      modifies this
      ensures failure.None? <==> Normalize(rel) !in old(seen)
      ensures failure.None? ==> Release.Claim(old(seen), rel) == Ok(seen)
      ensures failure.Some? ==> Release.Claim(old(seen), rel) == Err(failure.value) && seen == old(seen)
    {
      var norm := Normalize(rel);
      if norm in seen {
        return Some(Duplicate(norm));
      }
      seen := seen + {norm};
      return None;
    }
  }

  /** Files still to be met while the children of one directory are gone through. */
  ghost function Ahead(cs: seq<Child>, at: Path, queue: seq<Todo>): seq<Found> {
    Files(cs, at) + Breadth(queue + Dirs(cs, at))
  }

  lemma AheadStarts(d: Todo, queue: seq<Todo>)
    ensures Breadth([d] + queue) == Ahead(d.children, d.path, queue)
  {
  }

  lemma AheadSkips(cs: seq<Child>, at: Path, queue: seq<Todo>)
    requires cs != []
    ensures cs[0].node.Dir? ==>
              Ahead(cs, at, queue) == Ahead(cs[1..], at, queue + [Todo(at + [cs[0].name], cs[0].node.children)])
    ensures cs[0].node.Special? ==> Ahead(cs, at, queue) == Ahead(cs[1..], at, queue)
    ensures LeafOf(cs[0].node).Some? ==>
              Ahead(cs, at, queue) == [Found(at + [cs[0].name], LeafOf(cs[0].node).value)] + Ahead(cs[1..], at, queue)
  {
    hide Breadth;
    if cs[0].node.Dir? {
      var d := Todo(at + [cs[0].name], cs[0].node.children);
      assert queue + ([d] + Dirs(cs[1..], at)) == queue + [d] + Dirs(cs[1..], at);
    }
  }

  lemma AheadEnds(at: Path, queue: seq<Todo>)
    ensures Ahead([], at, queue) == Breadth(queue)
  {
    assert queue + [] == queue;
  }

  /** Lists one copied tree, directory by directory. */
  method ListTree(w: World, disk: seq<Child>, i: StagedInput, cs: seq<Child>, used: UsedPaths,
      copied: seq<ManifestFile>)
    returns (r: Result<seq<ManifestFile>, Failure>)
    modifies used
    ensures var all := ListAll(w, Stage(disk, old(used.seen), copied), Breadth([Todo([i.dest], cs)]));
            match r
            case Ok(listed) => all == Ok(Stage(disk, used.seen, listed))
            case Err(e) => all == Err(e)
  {
    hide Breadth, Files, Dirs, Ahead, PathText, Normalize;
    ghost var all := ListAll(w, Stage(disk, used.seen, copied), Breadth([Todo([i.dest], cs)]));
    var out := copied;
    var queue := [Todo([i.dest], cs)];
    while queue != []
      invariant all == ListAll(w, Stage(disk, used.seen, out), Breadth(queue))
      decreases QueueWeight(queue)
    {
      var dir := queue[0];
      ghost var before := QueueWeight(queue);
      AheadStarts(dir, queue[1..]);
      assert queue == [dir] + queue[1..];
      queue := queue[1..];
      for k := 0 to |dir.children|
        invariant all == ListAll(w, Stage(disk, used.seen, out), Ahead(dir.children[k..], dir.path, queue))
        invariant QueueWeight(queue) + WeightOf(dir.children[k..]) < before
      {
        var child := dir.children[k];
        var rest := dir.children[k..];
        assert rest[0] == child && rest[1..] == dir.children[k + 1..];
        AheadSkips(rest, dir.path, queue);
        if child.node.Dir? {
          QueueWeightConcat(queue, [Todo(dir.path + [child.name], child.node.children)]);
          queue := queue + [Todo(dir.path + [child.name], child.node.children)];
        } else if LeafOf(child.node).Some? {
          var leaf := LeafOf(child.node).value;
          var rel := PathText(dir.path + [child.name]);
          ghost var ahead := Ahead(rest, dir.path, queue);
          assert ahead[1..] == Ahead(rest[1..], dir.path, queue);
          var failure := used.Claim(rel);
          if failure.Some? {
            return Err(failure.value);
          }
          out := out + [EntryOf(w, rel, leaf.data, false)];
        }
      }
      assert dir.children[|dir.children|..] == [];
      AheadEnds(dir.path, queue);
    }
    assert Breadth([]) == [] by { NothingQueued(); }
    return Ok(out);
  }

  lemma NothingQueued()
    ensures Breadth([]) == []
  {
  }

  /** Reads, claims, writes and lists one file; an optional source may be missing. */
  method StageFile(w: World, disk: seq<Child>, i: StagedInput, used: UsedPaths, copied: seq<ManifestFile>)
    returns (r: Result<Stage, Failure>)
    modifies used
    ensures r == CopyFile(w, Stage(disk, old(used.seen), copied), i)
    ensures r.Ok? ==> used.seen == r.value.used
  {
    hide Write, SafeJoin, Normalize;
    var data := w.read(i.source);
    if data.None? {
      return if i.optional then Ok(Stage(disk, used.seen, copied)) else Err(Unreadable(i.source));
    }
    var failure := used.Claim(i.dest);
    if failure.Some? {
      return Err(failure.value);
    }
    var written := WriteAt(w, disk, i.dest, data.value);
    if written.Err? {
      return Err(written.error);
    }
    return Ok(Stage(written.value, used.seen, copied + [EntryOf(w, i.dest, data.value, IsExecutable(i.kind))]));
  }

  /** The loop over the staging plan, from an empty archive directory to the written manifest. */
  method AssembleRelease(w: World, i: Inputs) returns (r: Result<Assembled, Failure>)
    ensures r == Assemble(w, i)
  {
    hide StagedInputs, Finish, CopyFile, ListAll, Breadth, IsReserved, Normalize;
    var used := new UsedPaths();
    var disk: seq<Child>, copied: seq<ManifestFile> := [], [];
    var plan := StagedInputs(i);
    for k := 0 to |plan|
      invariant Assemble(w, i) == Perform(w, i, Stage(disk, used.seen, copied), plan[k..])
    {
      var input := plan[k];
      assert plan[k..][0] == input && plan[k..][1..] == plan[k + 1..];
      ghost var s := Stage(disk, used.seen, copied);
      if input.kind.ManifestJson? {
        r := Finish(w, i, Stage(disk, used.seen, copied));
        return;
      } else if input.kind.Tree? {
        var tree := SourceTree(w, input);
        if tree.Some? {
          disk := Put(disk, input.dest, Dir(tree.value));
          var listed := ListTree(w, disk, input, tree.value, used, copied);
          if listed.Err? {
            return Err(listed.error);
          }
          copied := listed.value;
        } else if !input.optional {
          return Err(NoTree(input.dest));
        }
      } else {
        if input.kind.ExtraFile? && IsReserved(input.dest) {
          return Err(Reserved(Normalize(input.dest)));
        }
        if input.kind.BunRuntime? && input.source == [] {
          return Err(NoRuntime);
        }
        var staged := StageFile(w, disk, input, used, copied);
        if staged.Err? {
          return Err(staged.error);
        }
        disk, copied := staged.value.disk, staged.value.copied;
      }
      assert Step(w, s, input) == Ok(Stage(disk, used.seen, copied));
    }
    return Err(NoManifest);
  }
}
