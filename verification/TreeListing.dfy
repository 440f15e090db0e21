/**
 The files of a copied tree, in the order in which a work queue of directories meets them, and that these
 are all of its files.
 */
module TreeListing {
  import opened Prelude
  import opened FileTree

  /** A directory still to be listed. */
  datatype Todo = Todo(path: Path, children: seq<Child>)

  /** A file that was met, with what reading it gives. */
  datatype Found = Found(path: Path, leaf: Leaf)

  function Weight(n: Node): nat {
    match n
    case Dir(cs) => 1 + WeightOf(cs)
    case _ => 0
  }

  function WeightOf(cs: seq<Child>): nat {
    if cs == [] then 0 else Weight(cs[0].node) + WeightOf(cs[1..])
  }

  function QueueWeight(queue: seq<Todo>): nat {
    if queue == [] then 0 else 1 + WeightOf(queue[0].children) + QueueWeight(queue[1..])
  }

  /** The files among these children, seen through links. */
  function Files(cs: seq<Child>, at: Path): seq<Found> {
    if cs == [] then []
    else
      match LeafOf(cs[0].node)
      case None => Files(cs[1..], at)
      case Some(leaf) => [Found(at + [cs[0].name], leaf)] + Files(cs[1..], at)
  }

  /** The directories among these children. */
  function Dirs(cs: seq<Child>, at: Path): seq<Todo> {
    if cs == [] then []
    else if cs[0].node.Dir? then [Todo(at + [cs[0].name], cs[0].node.children)] + Dirs(cs[1..], at)
    else Dirs(cs[1..], at)
  }

  lemma {:induction false} QueueWeightConcat(a: seq<Todo>, b: seq<Todo>)
    ensures QueueWeight(a + b) == QueueWeight(a) + QueueWeight(b)
  {
    if a == [] {
      assert a + b == b;
    } else {
      QueueWeightConcat(a[1..], b);
      assert (a + b)[1..] == a[1..] + b;
    }
  }

  lemma {:induction false} DirsWeight(cs: seq<Child>, at: Path)
    ensures QueueWeight(Dirs(cs, at)) == WeightOf(cs)
  {
    if cs != [] {
      DirsWeight(cs[1..], at);
      if cs[0].node.Dir? {
        var first := Todo(at + [cs[0].name], cs[0].node.children);
        assert ([first] + Dirs(cs[1..], at))[1..] == Dirs(cs[1..], at);
      }
    }
  }

  /** What is left to be met: the files of the first directory, then those of the longer queue. */
  function Breadth(queue: seq<Todo>): seq<Found>
    decreases QueueWeight(queue)
  {
    if queue == [] then []
    else
      var d := queue[0];
      QueueWeightConcat(queue[1..], Dirs(d.children, d.path));
      DirsWeight(d.children, d.path);
      Files(d.children, d.path) + Breadth(queue[1..] + Dirs(d.children, d.path))
  }

  // ----- the listing is exactly the files of the tree

  /** Some queued directory holds this file. */
  ghost predicate Pending(queue: seq<Todo>, f: Found) {
    exists i :: 0 <= i < |queue| && LeafUnder(queue[i].children, queue[i].path, f.path) == Some(f.leaf)
  }

  ghost predicate Among(cs: seq<Child>, at: Path, f: Found) {
    f in Files(cs, at) || Pending(Dirs(cs, at), f)
  }

  lemma PendingCons(d: Todo, queue: seq<Todo>, f: Found)
    ensures Pending([d] + queue, f) <==> LeafUnder(d.children, d.path, f.path) == Some(f.leaf) || Pending(queue, f)
  {
    hide LeafUnder;
    var all := [d] + queue;
    if Pending(queue, f) {
      var i :| 0 <= i < |queue| && LeafUnder(queue[i].children, queue[i].path, f.path) == Some(f.leaf);
      assert all[i + 1] == queue[i];
    }
    if LeafUnder(d.children, d.path, f.path) == Some(f.leaf) {
      assert all[0] == d;
    }
    if Pending(all, f) {
      var i :| 0 <= i < |all| && LeafUnder(all[i].children, all[i].path, f.path) == Some(f.leaf);
      if i > 0 {
        assert all[i] == queue[i - 1];
      }
    }
  }

  lemma {:induction false} PendingConcat(a: seq<Todo>, b: seq<Todo>, f: Found)
    ensures Pending(a + b, f) <==> Pending(a, f) || Pending(b, f)
  {
    hide LeafUnder;
    if a == [] {
      assert a + b == b;
    } else {
      PendingConcat(a[1..], b, f);
      assert a + b == [a[0]] + (a[1..] + b);
      assert a == [a[0]] + a[1..];
      PendingCons(a[0], a[1..] + b, f);
      PendingCons(a[0], a[1..], f);
    }
  }

  lemma LeafUnderCons(c: Child, cs: seq<Child>, at: Path, q: Path)
    requires Find(cs, c.name).None?
    ensures LeafUnder([c] + cs, at, q) ==
            if at + [c.name] <= q then LeafAt(c.node, q[|at| + 1..]) else LeafUnder(cs, at, q)
    ensures at + [c.name] <= q ==> LeafUnder(cs, at, q).None?
  {
  }

  lemma {:induction false} ChildrenSplit(cs: seq<Child>, at: Path, f: Found)
    requires ValidAll(cs)
    ensures Among(cs, at, f) <==> LeafUnder(cs, at, f.path) == Some(f.leaf)
  {
    hide LeafUnder, Pending;
    if cs == [] {
      NothingUnder(at);
      NothingPending(f);
    } else {
      var c := cs[0];
      assert cs == [c] + cs[1..];
      LeafUnderCons(c, cs[1..], at, f.path);
      LeafOfChild(c.node, at, c.name, f.path);
      ChildrenSplit(cs[1..], at, f);
      assert at + [c.name] <= at + [c.name];
      if c.node.Dir? {
        PendingCons(Todo(at + [c.name], c.node.children), Dirs(cs[1..], at), f);
      } else if LeafOf(c.node).Some? {
        assert f in Files(cs, at) <==> f == Found(at + [c.name], LeafOf(c.node).value) || f in Files(cs[1..], at);
      }
    }
  }

  lemma NothingPending(f: Found)
    ensures !Pending([], f)
  {
  }

  ghost predicate ValidQueue(queue: seq<Todo>) {
    forall i :: 0 <= i < |queue| ==> ValidAll(queue[i].children) && IsPath(queue[i].path)
  }

  lemma {:induction false} DirsValid(cs: seq<Child>, at: Path)
    requires ValidAll(cs) && IsPath(at)
    ensures ValidQueue(Dirs(cs, at))
  {
    if cs != [] {
      DirsValid(cs[1..], at);
    }
  }

  /** The work queue meets every file below every queued directory, and nothing else. */
  lemma {:induction false} BreadthMeetsAll(queue: seq<Todo>, f: Found)
    requires ValidQueue(queue)
    ensures f in Breadth(queue) <==> Pending(queue, f)
    decreases QueueWeight(queue)
  {
    hide LeafUnder, Pending;
    if queue == [] {
      NothingPending(f);
    } else {
      var d := queue[0];
      var more := Dirs(d.children, d.path);
      QueueWeightConcat(queue[1..], more);
      DirsWeight(d.children, d.path);
      DirsValid(d.children, d.path);
      BreadthMeetsAll(queue[1..] + more, f);
      PendingConcat(queue[1..], more, f);
      ChildrenSplit(d.children, d.path, f);
      assert queue == [d] + queue[1..];
      PendingCons(d, queue[1..], f);
    }
  }

  lemma {:induction false} FilesArePaths(cs: seq<Child>, at: Path)
    requires ValidAll(cs) && IsPath(at)
    ensures forall f :: f in Files(cs, at) ==> IsPath(f.path) && f.path != []
  {
    if cs != [] {
      FilesArePaths(cs[1..], at);
    }
  }

  lemma {:induction false} BreadthArePaths(queue: seq<Todo>)
    requires ValidQueue(queue)
    ensures forall f :: f in Breadth(queue) ==> IsPath(f.path) && f.path != []
    decreases QueueWeight(queue)
  {
    if queue != [] {
      var d := queue[0];
      QueueWeightConcat(queue[1..], Dirs(d.children, d.path));
      DirsWeight(d.children, d.path);
      DirsValid(d.children, d.path);
      FilesArePaths(d.children, d.path);
      BreadthArePaths(queue[1..] + Dirs(d.children, d.path));
    }
  }

  /** Copied under a name, a tree is listed by exactly its own files. */
  lemma TreeIsListed(name: Text, cs: seq<Child>, f: Found)
    requires ValidAll(cs) && IsName(name)
    ensures f in Breadth([Todo([name], cs)]) <==>
            f.path != [] && f.path[0] == name && LeafAt(Dir(cs), f.path[1..]) == Some(f.leaf)
  {
    BreadthMeetsAll([Todo([name], cs)], f);
    PendingCons(Todo([name], cs), [], f);
    NothingPending(f);
    assert [Todo([name], cs)] + [] == [Todo([name], cs)];
  }

  // ----- no file is met twice

  /** No queued directory lies in another. */
  ghost predicate Apart(queue: seq<Todo>) {
    forall i, j :: 0 <= i < |queue| && 0 <= j < |queue| && i != j ==> !(queue[i].path <= queue[j].path)
  }

  ghost predicate Distinct(found: seq<Found>) {
    forall i, j :: 0 <= i < j < |found| ==> found[i].path != found[j].path
  }

  ghost predicate LiesIn(p: Path, at: Path) {
    at <= p && |at| < |p|
  }

  ghost predicate IsChild(p: Path, at: Path) {
    at <= p && |p| == |at| + 1
  }

  lemma {:induction false} FilesAreChildren(cs: seq<Child>, at: Path)
    requires ValidAll(cs)
    ensures forall f :: f in Files(cs, at) ==> IsChild(f.path, at) && Find(cs, f.path[|at|]).Some?
    ensures Distinct(Files(cs, at))
  {
    if cs != [] {
      FilesAreChildren(cs[1..], at);
      var rest, p := Files(cs[1..], at), at + [cs[0].name];
      assert IsChild(p, at) && p[|at|] == cs[0].name;
      assert forall f :: f in rest ==> f.path != p;
    }
  }

  lemma {:induction false} DirsAreChildren(cs: seq<Child>, at: Path)
    requires ValidAll(cs)
    ensures forall i :: 0 <= i < |Dirs(cs, at)| ==>
              IsChild(Dirs(cs, at)[i].path, at) && Find(cs, Dirs(cs, at)[i].path[|at|]).Some?
    ensures forall i, j :: 0 <= i < j < |Dirs(cs, at)| ==> Dirs(cs, at)[i].path != Dirs(cs, at)[j].path
  {
    if cs != [] {
      DirsAreChildren(cs[1..], at);
      var rest, p := Dirs(cs[1..], at), at + [cs[0].name];
      assert IsChild(p, at) && p[|at|] == cs[0].name;
      assert forall i :: 0 <= i < |rest| ==> rest[i].path != p;
      if cs[0].node.Dir? {
        var all := Dirs(cs, at);
        assert forall i :: 0 < i < |all| ==> all[i] == rest[i - 1];
      }
    }
  }

  lemma SiblingsApart(a: Path, b: Path, at: Path)
    requires IsChild(a, at) && IsChild(b, at) && a != b
    ensures !(a <= b) && !(b <= a)
  {
  }

  lemma ChildApart(child: Path, at: Path, other: Path)
    requires IsChild(child, at) && !(at <= other) && !(other <= at)
    ensures !(child <= other) && !(other <= child)
  {
  }

  /** Replacing a directory by its subdirectories keeps the queue apart. */
  lemma StillApart(queue: seq<Todo>)
    requires queue != [] && ValidQueue(queue) && Apart(queue)
    ensures Apart(queue[1..] + Dirs(queue[0].children, queue[0].path))
  {
    hide ValidAll, Dirs, IsChild;
    var d, more, n := queue[0], Dirs(queue[0].children, queue[0].path), |queue| - 1;
    var all := queue[1..] + more;
    DirsAreChildren(d.children, d.path);
    forall i, j | 0 <= i < |all| && 0 <= j < |all| && i != j ensures !(all[i].path <= all[j].path) {
      if i >= n && j >= n {
        SiblingsApart(all[i].path, all[j].path, d.path);
      } else if i >= n {
        ChildApart(all[i].path, d.path, queue[j + 1].path);
      } else if j >= n {
        ChildApart(all[j].path, d.path, queue[i + 1].path);
      } else {
        assert all[i] == queue[i + 1] && all[j] == queue[j + 1];
      }
    }
  }

  ghost predicate LiesInSome(p: Path, queue: seq<Todo>) {
    exists i :: 0 <= i < |queue| && LiesIn(p, queue[i].path)
  }

  /** What lies in the longer queue lies in the old one, and is no child of the directory it begins with. */
  lemma LiesBelow(queue: seq<Todo>, p: Path)
    requires queue != [] && ValidQueue(queue) && Apart(queue)
    requires LiesInSome(p, queue[1..] + Dirs(queue[0].children, queue[0].path))
    ensures LiesInSome(p, queue) && !IsChild(p, queue[0].path)
  {
    hide ValidAll, Dirs;
    var d, more, n := queue[0], Dirs(queue[0].children, queue[0].path), |queue| - 1;
    var all := queue[1..] + more;
    DirsAreChildren(d.children, d.path);
    var i :| 0 <= i < |all| && LiesIn(p, all[i].path);
    if i < n {
      assert LiesIn(p, queue[i + 1].path);
      if d.path <= p {
        OneOfTwo(d.path, queue[i + 1].path, p);
      }
    } else {
      assert IsChild(more[i - n].path, d.path);
      assert p[..|d.path|] == all[i].path[..|d.path|] == d.path;
      assert LiesIn(p, queue[0].path);
    }
  }

  /** Two beginnings of one path: one begins the other. */
  lemma OneOfTwo(a: Path, b: Path, p: Path)
    requires a <= p && b <= p
    ensures a <= b || b <= a
  {
  }

  /** Each file of the queued directories is met once. */
  lemma {:induction false} BreadthIsDistinct(queue: seq<Todo>)
    requires ValidQueue(queue) && Apart(queue)
    ensures Distinct(Breadth(queue))
    ensures forall f :: f in Breadth(queue) ==> LiesInSome(f.path, queue)
    decreases QueueWeight(queue)
  {
    hide ValidAll, Apart, LiesIn, LiesInSome, IsChild;
    if queue != [] {
      var d := queue[0];
      var more, found := Dirs(d.children, d.path), Files(d.children, d.path);
      QueueWeightConcat(queue[1..], more);
      DirsWeight(d.children, d.path);
      DirsValid(d.children, d.path);
      StillApart(queue);
      BreadthIsDistinct(queue[1..] + more);
      FilesAreChildren(d.children, d.path);
      var rest := Breadth(queue[1..] + more);
      forall f | f in rest ensures LiesInSome(f.path, queue) && !IsChild(f.path, d.path) {
        LiesBelow(queue, f.path);
      }
      forall f | f in found ensures LiesInSome(f.path, queue) {
        ChildLiesIn(queue, f.path);
      }
      DistinctConcat(found, rest);
    }
  }

  lemma ChildLiesIn(queue: seq<Todo>, p: Path)
    requires queue != [] && IsChild(p, queue[0].path)
    ensures LiesInSome(p, queue)
  {
    assert LiesIn(p, queue[0].path);
  }

  lemma DistinctConcat(a: seq<Found>, b: seq<Found>)
    requires Distinct(a) && Distinct(b) && forall f, g :: f in a && g in b ==> f.path != g.path
    ensures Distinct(a + b)
  {
  }
}
