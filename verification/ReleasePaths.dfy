/**
 Archive-relative paths: how they are normalised, how they are resolved against a directory, and when they
 are read as names.
 */
module ReleasePaths {
  import opened Prelude
  import opened Strings
  import opened FileTree

  function WithoutLeadingSlashes(t: Text): Text {
    if t != [] && t[0] == SLASH then WithoutLeadingSlashes(t[1..]) else t
  }

  /** `normalizeArchiveRel`: forward slashes only, and none in front. */
  function Normalize(t: Text): Text {
    WithoutLeadingSlashes(Join(Split(t, BACKSLASH), SLASH))
  }

  /** Where an absolute path leads; going up from the root stays there. */
  function Resolve(at: Path, segments: seq<Text>): Path
    decreases |segments|
  {
    if segments == [] then at
    else if segments[0] == [] || segments[0] == [DOT] then Resolve(at, segments[1..])
    else if segments[0] == [DOT, DOT] then Resolve(if at == [] then [] else at[..|at| - 1], segments[1..])
    else Resolve(at + [segments[0]], segments[1..])
  }

  /** `safeJoinPath`: where the target leads, as a path below the base, or nothing when it throws. */
  function SafeJoin(base: Path, target: Text): Option<Path> {
    if NUL in target || BACKSLASH in target || (target != [] && target[0] == SLASH) then None
    else
      var resolved := Resolve(base, Split(target, SLASH));
      if base <= resolved then Some(resolved[|base|..]) else None
  }

  /** No segment is empty, `.` or `..`. */
  predicate IsTidy(t: Text) {
    forall i :: 0 <= i < |Split(t, SLASH)| ==> Tidy(Split(t, SLASH)[i])
  }

  /** Every segment names a directory entry. */
  predicate Names(t: Text) {
    IsPath(Split(t, SLASH))
  }

  function PathText(p: Path): Text {
    Join(p, SLASH)
  }

  /** Names are exactly tidy segments free of the two units no name may hold. */
  lemma NamesIffTidy(t: Text)
    ensures Names(t) <==> IsTidy(t) && NUL !in t && BACKSLASH !in t
  {
    var parts := Split(t, SLASH);
    SegmentsArePlain(t, SLASH);
    if IsTidy(t) && NUL !in t && BACKSLASH !in t {
      forall i | 0 <= i < |parts| ensures IsName(parts[i]) {
        if NUL in parts[i] {
          InSplit(t, SLASH, i, NUL);
        }
        if BACKSLASH in parts[i] {
          InSplit(t, SLASH, i, BACKSLASH);
        }
      }
    }
    if Names(t) {
      JoinSplit(t, SLASH);
      forall u | u in t ensures u != NUL && u != BACKSLASH {
        InJoin(parts, SLASH, u);
      }
    }
  }

  lemma FirstUnit(t: Text)
    ensures t != [] && t[0] == SLASH <==> t != [] && Split(t, SLASH)[0] == []
  {
  }

  lemma {:induction false} ResolveNames(at: Path, segments: seq<Text>)
    requires IsPath(segments)
    ensures Resolve(at, segments) == at + segments
    decreases |segments|
  {
    if segments != [] {
      assert IsName(segments[0]);
      assert IsPath(segments[1..]);
      ResolveNames(at + [segments[0]], segments[1..]);
      assert at + [segments[0]] + segments[1..] == at + segments;
    }
  }

  /** A text made of names leads exactly where its segments say, whatever the base. */
  lemma SafeJoinOfNames(base: Path, t: Text)
    requires Names(t)
    ensures SafeJoin(base, t) == Some(Split(t, SLASH))
    ensures Resolve(base, Split(t, SLASH)) == base + Split(t, SLASH)
  {
    var parts := Split(t, SLASH);
    NamesIffTidy(t);
    FirstUnit(t);
    assert IsName(parts[0]);
    ResolveNames(base, parts);
    assert (base + parts)[|base|..] == parts;
  }

  lemma {:induction false} ResolveIsPath(at: Path, segments: seq<Text>)
    requires IsPath(at)
    requires forall i :: 0 <= i < |segments| && Tidy(segments[i]) ==> IsName(segments[i])
    ensures IsPath(Resolve(at, segments))
    decreases |segments|
  {
    if segments != [] {
      var rest := segments[1..];
      assert forall i :: 0 <= i < |rest| ==> rest[i] == segments[i + 1];
      ResolveIsPath(if Tidy(segments[0]) then at + [segments[0]] else at, rest);
      if at != [] {
        ResolveIsPath(at[..|at| - 1], rest);
      }
    }
  }

  /** Whatever it leads through, a target that is not rejected leads to a path of names. */
  lemma SafeJoinIsPath(base: Path, target: Text)
    requires IsPath(base) && SafeJoin(base, target).Some?
    ensures IsPath(SafeJoin(base, target).value)
    ensures NUL !in target && BACKSLASH !in target
  {
    var parts := Split(target, SLASH);
    SegmentsArePlain(target, SLASH);
    forall i | 0 <= i < |parts| && Tidy(parts[i]) ensures IsName(parts[i]) {
      if NUL in parts[i] {
        InSplit(target, SLASH, i, NUL);
      }
      if BACKSLASH in parts[i] {
        InSplit(target, SLASH, i, BACKSLASH);
      }
    }
    ResolveIsPath(base, parts);
  }

  /** Paths of names and texts made of names are the same thing. */
  lemma PathTextNames(p: Path)
    requires IsPath(p) && p != []
    ensures Split(PathText(p), SLASH) == p && Names(PathText(p))
  {
    assert forall i :: 0 <= i < |p| ==> IsName(p[i]);
    SplitJoin(p, SLASH);
  }

  /** Normalising leaves no backslash and no slash in front, and does nothing more the second time. */
  lemma NormalizeSettles(t: Text)
    ensures BACKSLASH !in Normalize(t) && (Normalize(t) != [] ==> Normalize(t)[0] != SLASH)
    ensures Normalize(Normalize(t)) == Normalize(t)
  {
    var parts := Split(t, BACKSLASH);
    var slashed := Join(parts, SLASH);
    SegmentsArePlain(t, BACKSLASH);
    if BACKSLASH in slashed {
      InJoin(parts, SLASH, BACKSLASH);
    }
    DropsOnlySlashes(slashed);
    NormalizeFixed(Normalize(t));
  }

  lemma {:induction false} DropsOnlySlashes(t: Text)
    ensures var r := WithoutLeadingSlashes(t);
            (forall u :: u in r ==> u in t) && (r != [] ==> r[0] != SLASH)
  {
    if t != [] && t[0] == SLASH {
      DropsOnlySlashes(t[1..]);
    }
  }

  lemma NormalizeFixed(t: Text)
    requires BACKSLASH !in t && (t != [] ==> t[0] != SLASH)
    ensures Normalize(t) == t
  {
    SplitPlain(t, BACKSLASH);
  }

  lemma NormalizeNames(t: Text)
    requires Names(t)
    ensures Normalize(t) == t
  {
    NamesIffTidy(t);
    FirstUnit(t);
    assert IsName(Split(t, SLASH)[0]);
    NormalizeFixed(t);
  }

  // ----- what normalising and resolving do, said of the text

  lemma JoinCons(u: CodeUnit, rest: seq<Text>, sep: CodeUnit, glue: CodeUnit)
    requires |rest| > 0
    ensures Join(Cons(u, rest, sep), glue) == [if u == sep then glue else u] + Join(rest, glue)
  {
    if u == sep {
      assert ([[]] + rest)[1..] == rest;
    } else {
      var parts := [[u] + rest[0]] + rest[1..];
      assert parts[1..] == rest[1..];
    }
  }

  /** Splitting at one unit and joining with another replaces the one by the other. */
  lemma {:induction false} Replaces(t: Text, sep: CodeUnit, glue: CodeUnit)
    ensures var r := Join(Split(t, sep), glue);
            |r| == |t| && forall j :: 0 <= j < |t| ==> r[j] == if t[j] == sep then glue else t[j]
  {
    if t != [] {
      Replaces(t[1..], sep, glue);
      JoinCons(t[0], Split(t[1..], sep), sep, glue);
      var r, tail := Join(Split(t, sep), glue), Join(Split(t[1..], sep), glue);
      assert r == [if t[0] == sep then glue else t[0]] + tail;
      forall j | 0 < j < |t| ensures r[j] == if t[j] == sep then glue else t[j] {
        assert r[j] == tail[j - 1] && t[1..][j - 1] == t[j];
      }
    }
  }

  lemma {:induction false} DropsFront(t: Text) returns (k: nat)
    ensures k <= |t| && WithoutLeadingSlashes(t) == t[k..]
    ensures (forall j :: 0 <= j < k ==> t[j] == SLASH) && (k < |t| ==> t[k] != SLASH)
  {
    if t != [] && t[0] == SLASH {
      var n := DropsFront(t[1..]);
      k := n + 1;
      assert t[1..][n..] == t[k..];
    } else {
      k := 0;
    }
  }

  /** Normalising drops the slashes of either kind in front and turns every other backslash into a slash. */
  lemma NormalizesExactly(t: Text) returns (k: nat)
    ensures k <= |t| && |Normalize(t)| == |t| - k
    ensures (forall j :: 0 <= j < k ==> t[j] == 0x2f || t[j] == 0x5c) && (k < |t| ==> t[k] != 0x2f && t[k] != 0x5c)
    ensures forall j :: 0 <= j < |t| - k ==> Normalize(t)[j] == if t[k + j] == 0x5c then 0x2f else t[k + j]
  {
    Replaces(t, BACKSLASH, SLASH);
    k := DropsFront(Join(Split(t, BACKSLASH), SLASH));
  }

  /** A target is accepted exactly when it is relative, has neither NUL nor backslash, and leads into the base. */
  lemma JoinsIff(base: Path, target: Text, p: Path)
    ensures SafeJoin(base, target) == Some(p) <==>
            && (forall k :: 0 <= k < |target| ==> target[k] != 0 && target[k] != 0x5c)
            && (target == [] || target[0] != 0x2f)
            && Resolve(base, Split(target, 0x2f)) == base + p
  {
    hide Resolve, Split;
    assert (NUL in target || BACKSLASH in target) <==>
           exists k :: 0 <= k < |target| && (target[k] == 0 || target[k] == 0x5c);
  }

  /** No segments lead nowhere; of one more, an empty one or `.` stays, `..` goes up if it can, others go down. */
  lemma {:induction false} ResolvesSegment(at: Path, segments: seq<Text>, last: Text)
    ensures Resolve(at, []) == at
    ensures var so := Resolve(at, segments);
            Resolve(at, segments + [last]) ==
              if last == [] || last == [0x2e] then so
              else if last == [0x2e, 0x2e] then (if so == [] then [] else so[..|so| - 1])
              else so + [last]
    decreases |segments|
  {
    if segments == [] {
      assert segments + [last] == [last];
      assert [last][1..] == [];
      assert forall p: Path :: Resolve(p, []) == p;
    } else {
      assert (segments + [last])[1..] == segments[1..] + [last];
      ResolvesSegment(at, segments[1..], last);
      ResolvesSegment(if at == [] then [] else at[..|at| - 1], segments[1..], last);
      ResolvesSegment(at + [segments[0]], segments[1..], last);
    }
  }
}
