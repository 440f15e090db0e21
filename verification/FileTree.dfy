/**
 Directory trees: looking paths up, writing files together with the directories above them, and walking all
 that is there.
 */
module FileTree {
  import opened Prelude

  type Path = seq<Text>

  /** A symbolic link stands for the regular file it leads to; a special node is neither file nor directory. */
  datatype Node = File(data: Bytes) | Link(data: Bytes) | Special | Dir(children: seq<Child>)

  /** Children are in the order a directory listing gives them. */
  datatype Child = Child(name: Text, node: Node)

  /** A segment that names something, rather than staying or going up. */
  predicate Tidy(segment: Text) {
    segment != [] && segment != [DOT] && segment != [DOT, DOT]
  }

  /** What a directory entry may be called; names with a backslash are left out of the model. */
  predicate IsName(name: Text) {
    Tidy(name) && NUL !in name && SLASH !in name && BACKSLASH !in name
  }

  predicate IsPath(p: Path) {
    forall i :: 0 <= i < |p| ==> IsName(p[i])
  }

  ghost predicate Valid(n: Node) {
    n.Dir? ==> ValidAll(n.children)
  }

  ghost predicate ValidAll(cs: seq<Child>) {
    cs == [] || (IsName(cs[0].name) && Valid(cs[0].node) && ValidAll(cs[1..]) && Find(cs[1..], cs[0].name).None?)
  }

  function Find(cs: seq<Child>, name: Text): Option<Node> {
    if cs == [] then None else if cs[0].name == name then Some(cs[0].node) else Find(cs[1..], name)
  }

  function Lookup(n: Node, p: Path): Option<Node>
    decreases |p|
  {
    if p == [] then Some(n)
    else if !n.Dir? then None
    else
      match Find(n.children, p[0])
      case None => None
      case Some(c) => Lookup(c, p[1..])
  }

  /** What `readFile` sees at a path: the bytes, and whether a link leads to them. */
  datatype Leaf = Leaf(data: Bytes, linked: bool)

  function LeafOf(n: Node): Option<Leaf> {
    match n
    case File(d) => Some(Leaf(d, false))
    case Link(d) => Some(Leaf(d, true))
    case _ => None
  }

  function LeafAt(n: Node, p: Path): Option<Leaf> {
    match Lookup(n, p)
    case None => None
    case Some(m) => LeafOf(m)
  }

  // ----- writing

  /** Replace the child of this name, or add it. */
  function Put(cs: seq<Child>, name: Text, node: Node): seq<Child> {
    if cs == [] then [Child(name, node)]
    else if cs[0].name == name then [Child(name, node)] + cs[1..]
    else [cs[0]] + Put(cs[1..], name, node)
  }

  /** Make the directories above a path and write a file there; a link is written through. */
  function Write(n: Node, p: Path, data: Bytes): Option<Node>
    decreases |p|
  {
    if !n.Dir? || p == [] then None
    else
      var child := Find(n.children, p[0]);
      var written :=
        if |p| == 1 then
          match child
          case None => Some(File(data))
          case Some(File(_)) => Some(File(data))
          case Some(Link(_)) => Some(Link(data))
          case Some(_) => None
        else Write(if child.None? then Dir([]) else child.value, p[1..], data);
      if written.None? then None else Some(Dir(Put(n.children, p[0], written.value)))
  }

  lemma {:induction false} FindPut(cs: seq<Child>, name: Text, node: Node, m: Text)
    ensures Find(Put(cs, name, node), m) == if m == name then Some(node) else Find(cs, m)
  {
    if cs != [] && cs[0].name != name {
      FindPut(cs[1..], name, node, m);
      assert ([cs[0]] + Put(cs[1..], name, node))[1..] == Put(cs[1..], name, node);
    } else if cs != [] {
      assert ([Child(name, node)] + cs[1..])[1..] == cs[1..];
    }
  }

  lemma {:induction false} PutValid(cs: seq<Child>, name: Text, node: Node)
    requires ValidAll(cs) && IsName(name) && Valid(node)
    ensures ValidAll(Put(cs, name, node))
  {
    if cs != [] && cs[0].name != name {
      PutValid(cs[1..], name, node);
      FindPut(cs[1..], name, node, cs[0].name);
      assert ([cs[0]] + Put(cs[1..], name, node))[1..] == Put(cs[1..], name, node);
    } else if cs != [] {
      assert ([Child(name, node)] + cs[1..])[1..] == cs[1..];
    }
  }

  lemma {:induction false} FindValid(cs: seq<Child>, name: Text)
    requires ValidAll(cs) && Find(cs, name).Some?
    ensures Valid(Find(cs, name).value) && IsName(name)
  {
    if cs[0].name != name {
      FindValid(cs[1..], name);
    }
  }

  lemma {:induction false} WriteValid(n: Node, p: Path, data: Bytes)
    requires Valid(n) && IsPath(p) && Write(n, p, data).Some?
    ensures Valid(Write(n, p, data).value)
    decreases |p|
  {
    var child := Find(n.children, p[0]);
    assert IsName(p[0]);
    if |p| > 1 {
      if child.Some? {
        FindValid(n.children, p[0]);
      }
      WriteValid(if child.None? then Dir([]) else child.value, p[1..], data);
      PutValid(n.children, p[0], Write(if child.None? then Dir([]) else child.value, p[1..], data).value);
    } else {
      PutValid(n.children, p[0], File(data));
      PutValid(n.children, p[0], Link(data));
    }
  }

  lemma EmptyHasNoLeaf(q: Path)
    ensures LeafAt(Dir([]), q).None?
  {
  }

  lemma LeafBelow(n: Node, p: Path)
    requires p != []
    ensures LeafAt(n, p) ==
            if n.Dir? && Find(n.children, p[0]).Some? then LeafAt(Find(n.children, p[0]).value, p[1..]) else None
  {
  }

  /** A write puts the bytes at its path and leaves every other file as it was. */
  lemma {:induction false} LeafAfterWrite(n: Node, p: Path, data: Bytes, q: Path)
    requires Write(n, p, data).Some?
    ensures var linked := LeafAt(n, p).Some? && LeafAt(n, p).value.linked;
            LeafAt(Write(n, p, data).value, q) == if q == p then Some(Leaf(data, linked)) else LeafAt(n, q)
    decreases |p|
  {
    LeafBelow(n, p);
    if q != [] {
      var child := Find(n.children, p[0]);
      var below := if child.None? then Dir([]) else child.value;
      LeafBelow(n, q);
      LeafBelow(Write(n, p, data).value, q);
      assert q == [q[0]] + q[1..] && p == [p[0]] + p[1..];
      if |p| > 1 {
        LeafAfterWrite(below, p[1..], data, q[1..]);
        FindPut(n.children, p[0], Write(below, p[1..], data).value, q[0]);
        EmptyHasNoLeaf(q[1..]);
        EmptyHasNoLeaf(p[1..]);
      } else {
        assert p[1..] == [];
        FindPut(n.children, p[0], File(data), q[0]);
        FindPut(n.children, p[0], Link(data), q[0]);
      }
    }
  }

  /** After a write there is a file at its path, directories above it, and everything else as it was. */
  lemma {:induction false} LookupAfterWrite(n: Node, p: Path, data: Bytes, q: Path)
    requires Write(n, p, data).Some?
    ensures var r := Lookup(Write(n, p, data).value, q);
            if q == p then r.Some? && LeafOf(r.value).Some?
            else if q <= p then r.Some? && r.value.Dir?
            else r == Lookup(n, q)
    decreases |p|
  {
    if q != [] {
      var child := Find(n.children, p[0]);
      var below := if child.None? then Dir([]) else child.value;
      assert q == [q[0]] + q[1..] && p == [p[0]] + p[1..];
      if |p| > 1 {
        LookupAfterWrite(below, p[1..], data, q[1..]);
        FindPut(n.children, p[0], Write(below, p[1..], data).value, q[0]);
        assert q <= p <==> q[0] == p[0] && q[1..] <= p[1..];
      } else {
        FindPut(n.children, p[0], File(data), q[0]);
        FindPut(n.children, p[0], Link(data), q[0]);
      }
    }
  }

  /** Nothing but directories stands on the way to a path, and no directory or special node at it. */
  ghost predicate Writable(n: Node, p: Path) {
    && p != [] && n.Dir?
    && (forall k :: 0 < k < |p| ==> Lookup(n, p[..k]).None? || Lookup(n, p[..k]).value.Dir?)
    && (Lookup(n, p).None? || LeafOf(Lookup(n, p).value).Some?)
  }

  lemma EmptyIsWritable(p: Path)
    requires p != []
    ensures Writable(Dir([]), p)
  {
  }

  /** A write succeeds exactly when its path is writable. */
  lemma {:induction false} WritesIffWritable(n: Node, p: Path, data: Bytes)
    ensures Write(n, p, data).Some? <==> Writable(n, p)
    decreases |p|
  {
    if n.Dir? && |p| > 1 {
      var child := Find(n.children, p[0]);
      var below := if child.None? then Dir([]) else child.value;
      WritesIffWritable(below, p[1..], data);
      assert Lookup(n, p[..1]) == child by {
        assert p[..1][1..] == [];
      }
      forall k | 0 < k < |p[1..]| ensures child.Some? ==> Lookup(n, p[..k + 1]) == Lookup(below, p[1..][..k]) {
        assert p[..k + 1][1..] == p[1..][..k];
      }
      if child.None? {
        EmptyIsWritable(p[1..]);
        forall k | 0 < k < |p| ensures Lookup(n, p[..k]).None? {
        }
      } else if Writable(n, p) {
        forall k | 0 < k < |p[1..]|
          ensures Lookup(below, p[1..][..k]).None? || Lookup(below, p[1..][..k]).value.Dir?
        {
          assert Lookup(n, p[..k + 1]) == Lookup(below, p[1..][..k]);
        }
      } else if Writable(below, p[1..]) {
        forall k | 0 < k < |p| ensures Lookup(n, p[..k]).None? || Lookup(n, p[..k]).value.Dir? {
          if k > 1 {
            assert Lookup(n, p[..k - 1 + 1]) == Lookup(below, p[1..][..k - 1]);
          }
        }
      }
    } else if n.Dir? && |p| == 1 {
      var child := Find(n.children, p[0]);
      assert p[1..] == [];
      assert child.Some? ==> Lookup(child.value, []) == child;
      assert Lookup(n, p) == child;
    }
  }

  /** A tree copied to a name that is free: what stands where. */
  lemma LookupAfterPut(cs: seq<Child>, name: Text, tree: Node, q: Path)
    requires q != []
    ensures Lookup(Dir(Put(cs, name, tree)), q) == if q[0] == name then Lookup(tree, q[1..]) else Lookup(Dir(cs), q)
  {
    FindPut(cs, name, tree, q[0]);
  }

  /** A tree copied to a name that is free. */
  lemma LeafAfterPut(n: Node, name: Text, tree: Node, q: Path)
    requires n.Dir? && Find(n.children, name).None?
    ensures LeafAt(Dir(Put(n.children, name, tree)), q) ==
            if q != [] && q[0] == name then LeafAt(tree, q[1..]) else LeafAt(n, q)
  {
    if q != [] {
      FindPut(n.children, name, tree, q[0]);
    }
  }

  // ----- walking

  /** The leaf that these children of a directory hold at a path. */
  ghost function LeafUnder(cs: seq<Child>, at: Path, q: Path): Option<Leaf> {
    if at <= q then LeafAt(Dir(cs), q[|at|..]) else None
  }

  lemma {:induction false} FindSnoc(cs: seq<Child>, c: Child, name: Text)
    ensures Find(cs + [c], name) ==
            if Find(cs, name).Some? then Find(cs, name) else if c.name == name then Some(c.node) else None
  {
    if cs != [] {
      FindSnoc(cs[1..], c, name);
      assert (cs + [c])[1..] == cs[1..] + [c];
    }
  }

  lemma {:induction false} ValidAt(cs: seq<Child>, i: nat)
    requires ValidAll(cs) && i < |cs|
    ensures IsName(cs[i].name) && Valid(cs[i].node) && Find(cs[..i], cs[i].name).None? && ValidAll(cs[..i])
  {
    if i > 0 {
      ValidAt(cs[1..], i - 1);
      assert cs[..i][1..] == cs[1..][..i - 1];
      FindPrefix(cs[1..], i - 1, cs[0].name);
      FindMember(cs[1..], i - 1);
    } else {
      assert cs[..0] == [];
    }
  }

  lemma {:induction false} FindPrefix(cs: seq<Child>, i: nat, name: Text)
    requires i <= |cs| && Find(cs, name).None?
    ensures Find(cs[..i], name).None?
  {
    if i > 0 {
      FindPrefix(cs[1..], i - 1, name);
      assert cs[..i][1..] == cs[1..][..i - 1];
    }
  }

  lemma {:induction false} FindMember(cs: seq<Child>, i: nat)
    requires i < |cs|
    ensures Find(cs, cs[i].name).Some?
  {
    if i > 0 {
      FindMember(cs[1..], i - 1);
    }
  }

  /** What one more child adds. */
  lemma LeafUnderSnoc(cs: seq<Child>, c: Child, at: Path, q: Path)
    requires Find(cs, c.name).None?
    ensures LeafUnder(cs + [c], at, q) ==
            if at + [c.name] <= q then LeafAt(c.node, q[|at| + 1..]) else LeafUnder(cs, at, q)
    ensures at + [c.name] <= q ==> LeafUnder(cs, at, q).None?
  {
    if at <= q {
      var p := q[|at|..];
      if p != [] {
        FindSnoc(cs, c, p[0]);
        LeafBelow(Dir(cs + [c]), p);
        LeafBelow(Dir(cs), p);
        assert at + [c.name] <= q <==> p[0] == c.name by {
          assert q == at + p;
        }
        assert p[1..] == q[|at| + 1..];
      }
    }
  }

  lemma LeafOfChild(node: Node, at: Path, name: Text, q: Path)
    ensures node.Dir? ==> LeafUnder(node.children, at + [name], q) ==
                          if at + [name] <= q then LeafAt(node, q[|at| + 1..]) else None
    ensures !node.Dir? && at + [name] <= q ==>
              LeafAt(node, q[|at| + 1..]) == if q == at + [name] then LeafOf(node) else None
  {
  }

  ghost predicate RegularUnder(cs: seq<Child>, at: Path, q: Path) {
    LeafUnder(cs, at, q).Some? && !LeafUnder(cs, at, q).value.linked
  }

  /** The recursive walk of the verifier: what it adds are the regular files, and no link to one. */
  method Walk(cs: seq<Child>, at: Path, found: set<Path>) returns (r: set<Path>)
    requires ValidAll(cs)
    ensures forall q :: q in r <==> q in found || RegularUnder(cs, at, q)
    decreases cs
  {
    hide LeafUnder;
    r := found;
    assert forall q :: LeafUnder([], at, q).None? by { NothingUnder(at); }
    for i := 0 to |cs|
      invariant forall q :: q in r <==> q in found || RegularUnder(cs[..i], at, q)
    {
      var c := cs[i];
      ValidAt(cs, i);
      assert cs[..i + 1] == cs[..i] + [c];
      forall q
        ensures RegularUnder(cs[..i + 1], at, q) <==>
                RegularUnder(cs[..i], at, q) ||
                if c.node.Dir? then RegularUnder(c.node.children, at + [c.name], q)
                else c.node.File? && q == at + [c.name]
      {
        LeafUnderSnoc(cs[..i], c, at, q);
        LeafOfChild(c.node, at, c.name, q);
      }
      if c.node.Dir? {
        r := Walk(c.node.children, at + [c.name], r);
      } else if c.node.File? {
        r := r + {at + [c.name]};
      }
    }
    assert cs[..|cs|] == cs;
  }

  lemma NothingUnder(at: Path)
    ensures forall q :: LeafUnder([], at, q).None?
  {
  }
}
