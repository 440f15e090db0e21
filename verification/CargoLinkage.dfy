/**
 Which crates of a cargo dependency graph are linked into the shipped binary.
 */
module CargoLinkage {
  import opened Prelude

  type Crate = Text

  datatype Edge = Edge(from: Crate, to: Crate, kinds: seq<Text>)

  datatype Graph = Graph(members: seq<Crate>, edges: seq<Edge>)

  const DEV := Units("dev")

  /** Some kind of the edge is not a development dependency. */
  predicate Ships(e: Edge) {
    exists k :: 0 <= k < |e.kinds| && e.kinds[k] != DEV
  }

  /** What ships, spelled out: an edge that has a kind other than `dev`. */
  lemma ShipsUnlessDev(e: Edge)
    ensures Ships(e) <==> exists k :: k in e.kinds && k != [0x64, 0x65, 0x76]
  {
    assert DEV == [0x64, 0x65, 0x76];
    if Ships(e) {
      var k :| 0 <= k < |e.kinds| && e.kinds[k] != DEV;
      assert e.kinds[k] in e.kinds;
    }
  }

  ghost predicate Connects(edges: seq<Edge>, a: Crate, b: Crate) {
    exists e :: e in edges && e.from == a && e.to == b && Ships(e)
  }

  ghost predicate DependsOn(g: Graph, a: Crate, b: Crate) {
    Connects(g.edges, a, b)
  }

  /** A chain of shipping dependencies that starts at a workspace member. */
  ghost predicate Chain(g: Graph, path: seq<Crate>) {
    && path != [] && path[0] in g.members
    && forall i :: 0 <= i < |path| - 1 ==> DependsOn(g, path[i], path[i + 1])
  }

  /** A chain of shipping dependencies from a workspace member ends at the crate. */
  ghost predicate Linked(g: Graph, crate: Crate) {
    exists path :: Chain(g, path) && path[|path| - 1] == crate
  }

  lemma MembersAreLinked(g: Graph, crate: Crate)
    requires crate in g.members
    ensures Linked(g, crate)
  {
    assert Chain(g, [crate]);
  }

  lemma LinkedExtends(g: Graph, a: Crate, b: Crate)
    requires Linked(g, a) && DependsOn(g, a, b)
    ensures Linked(g, b) && b in Crates(g)
  {
    var path :| Chain(g, path) && path[|path| - 1] == a;
    assert Chain(g, path + [b]);
  }

  /** A chain never leaves a set that holds the members and is closed under dependencies. */
  lemma {:induction false} ChainStaysInside(g: Graph, inside: set<Crate>, path: seq<Crate>)
    requires Chain(g, path)
    requires forall m :: m in g.members ==> m in inside
    requires forall a, b :: a in inside && DependsOn(g, a, b) ==> b in inside
    ensures path[|path| - 1] in inside
  {
    if |path| > 1 {
      var front := path[..|path| - 1];
      ChainStaysInside(g, inside, front);
      assert DependsOn(g, path[|path| - 2], path[|path| - 1]);
    }
  }

  lemma NotLinked(g: Graph, inside: set<Crate>, crate: Crate)
    requires forall m :: m in g.members ==> m in inside
    requires forall a, b :: a in inside && DependsOn(g, a, b) ==> b in inside
    requires crate !in inside
    ensures !Linked(g, crate)
  {
    forall path | Chain(g, path) ensures path[|path| - 1] != crate {
      ChainStaysInside(g, inside, path);
    }
  }

  ghost function Crates(g: Graph): set<Crate> {
    (set m | m in g.members) + (set e | e in g.edges :: e.to)
  }

  lemma ConnectsSnoc(edges: seq<Edge>, e: Edge, a: Crate, b: Crate)
    ensures Connects(edges + [e], a, b) <==> Connects(edges, a, b) || (e.from == a && e.to == b && Ships(e))
  {
  }

  /** The adjacency lists of the shipping edges. */
  method ShippingEdges(g: Graph) returns (next: map<Crate, seq<Crate>>)
    ensures forall a, b :: (a in next && b in next[a]) <==> DependsOn(g, a, b)
  {
    next := map[];
    for i := 0 to |g.edges|
      invariant forall a, b :: (a in next && b in next[a]) <==> Connects(g.edges[..i], a, b)
    {
      var e := g.edges[i];
      assert g.edges[..i + 1] == g.edges[..i] + [e];
      forall a, b {
        ConnectsSnoc(g.edges[..i], e, a, b);
      }
      if Ships(e) {
        next := next[e.from := (if e.from in next then next[e.from] else []) + [e.to]];
      }
    }
    assert g.edges[..|g.edges|] == g.edges;
  }

  /**
   The breadth-first search: it ends on every graph, cycles included, and finds the crate
   exactly when a chain of shipping dependencies does.
   */
  method LinkedIntoShippedBinary(g: Graph, crate: Crate) returns (found: bool)
    ensures found <==> Linked(g, crate)
  {
    hide Linked, Chain, Connects;
    var next := ShippingEdges(g);
    var seen: set<Crate>, queue := {}, g.members;
    forall m | m in g.members ensures Linked(g, m) {
      MembersAreLinked(g, m);
    }
    while queue != []
      invariant forall c :: c in queue || c in seen ==> Linked(g, c) && c in Crates(g)
      invariant forall m :: m in g.members ==> m in queue || m in seen
      invariant forall a, b :: a in seen && DependsOn(g, a, b) ==> b in queue || b in seen
      invariant crate !in seen
      decreases Crates(g) - seen, |queue|
    {
      var current := queue[0];
      assert queue == [current] + queue[1..];
      queue := queue[1..];
      if current !in seen {
        if current == crate {
          return true;
        }
        seen := seen + {current};
        if current in next {
          forall b | b in next[current] ensures Linked(g, b) && b in Crates(g) {
            LinkedExtends(g, current, b);
          }
          queue := Enqueue(queue, next[current], seen);
        }
      }
    }
    NotLinked(g, seen, crate);
    return false;
  }

  method Enqueue(queue: seq<Crate>, more: seq<Crate>, seen: set<Crate>) returns (r: seq<Crate>)
    ensures forall c :: c in r <==> c in queue || (c in more && c !in seen)
  {
    r := queue;
    for i := 0 to |more|
      invariant forall c :: c in r <==> c in queue || (c in more[..i] && c !in seen)
    {
      assert more[..i + 1] == more[..i] + [more[i]];
      if more[i] !in seen {
        r := r + [more[i]];
      }
    }
    assert more[..|more|] == more;
  }

  // ----- the edge check

  datatype Verdict = Pass | Fail(offenders: seq<Edge>) | Undecidable

  /** Every edge into the crate is a development dependency. */
  ghost predicate DevOnly(g: Graph, crate: Crate) {
    forall e :: e in g.edges && e.to == crate ==> !Ships(e)
  }

  method Offenders(g: Graph, crate: Crate) returns (r: seq<Edge>)
    ensures forall e :: e in r <==> e in g.edges && e.to == crate && Ships(e)
  {
    r := [];
    for i := 0 to |g.edges|
      invariant forall e :: e in r <==> e in g.edges[..i] && e.to == crate && Ships(e)
    {
      var e := g.edges[i];
      assert g.edges[..i + 1] == g.edges[..i] + [e];
      if e.to == crate && Ships(e) {
        r := r + [e];
      }
    }
    assert g.edges[..|g.edges|] == g.edges;
  }

  method CheckEdges(crate: Crate, pre: Option<Graph>, post: Option<Graph>) returns (v: Verdict)
    ensures v.Undecidable? <==> pre.None? || post.None?
    ensures v.Pass? <==> pre.Some? && post.Some? && DevOnly(pre.value, crate) && DevOnly(post.value, crate)
    ensures v.Fail? ==> forall e :: e in v.offenders <==>
              e.to == crate && Ships(e) && (e in pre.value.edges || e in post.value.edges)
  {
    if pre.None? || post.None? {
      return Undecidable;
    }
    var before := Offenders(pre.value, crate);
    var after := Offenders(post.value, crate);
    var offenders := before + after;
    if offenders == [] {
      assert forall e :: e !in before && e !in after;
      return Pass;
    }
    assert offenders[0] in before || offenders[0] in after;
    return Fail(offenders);
  }

  lemma LastEdge(g: Graph, path: seq<Crate>)
    requires Chain(g, path)
    ensures path[|path| - 1] in g.members || exists e :: e in g.edges && e.to == path[|path| - 1] && Ships(e)
  {
    if |path| > 1 {
      assert DependsOn(g, path[|path| - 2], path[|path| - 1]);
    }
  }

  /**
   A crate with development edges only is linked exactly when it is a workspace member: the
   edge check of a crate that is not one rules out that the search finds it.
   */
  lemma DevOnlyIsNotLinked(g: Graph, crate: Crate)
    requires DevOnly(g, crate)
    ensures Linked(g, crate) <==> crate in g.members
  {
    if crate in g.members {
      MembersAreLinked(g, crate);
    }
    forall path | Chain(g, path) && path[|path| - 1] == crate ensures crate in g.members {
      LastEdge(g, path);
    }
  }
}
