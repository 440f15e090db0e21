/**
 The classifier of retired identities in tracked text.
 */
module LegacyIdentity {

  /*
   Regular expressions are foreign code: what a pattern matches in a text comes in as a list of spans. A
   content digest is foreign as well.
   */

  import opened Prelude
  import opened Strings

  datatype Kind =
    | LegacyShaFull | RetiredShaFull | LegacyRootDirect | LegacyRootSplit | LegacyShaShort | RetiredShaShort

  /** A match: the half-open range of units it covers. */
  datatype Match = Match(kind: Kind, start: nat, end: nat)

  datatype Occurrence = Occurrence(kind: Kind, line: nat)

  const LABEL := Units("historical witness")

  predicate Overlap(a: Match, b: Match) {
    a.start < b.end && b.start < a.end
  }

  ghost predicate Covers(m: Match, i: nat) {
    m.start <= i < m.end
  }

  /** Two spans that are not empty overlap exactly when some position lies in both. */
  lemma OverlapIsShared(a: Match, b: Match)
    requires a.start < a.end && b.start < b.end
    ensures Overlap(a, b) <==> exists i :: Covers(a, i) && Covers(b, i)
  {
    if Overlap(a, b) {
      var i := if a.start < b.start then b.start else a.start;
      assert Covers(a, i) && Covers(b, i);
    }
  }

  // ----- which matches are recorded

  predicate Taken(occupied: seq<Match>, m: Match) {
    exists i :: 0 <= i < |occupied| && Overlap(occupied[i], m)
  }

  /** The matches recorded, earlier patterns first: each one that overlaps none recorded before it. */
  function Recorded(ms: seq<Match>): seq<Match> {
    if ms == [] then []
    else
      var before, m := Recorded(ms[..|ms| - 1]), ms[|ms| - 1];
      if Taken(before, m) then before else before + [m]
  }

  /** `lineAt`: one more than the newlines before the index. */
  function LineAt(content: Text, index: nat): (line: nat)
    requires index <= |content|
    ensures line > 0
  {
    |Split(content[..index], NEWLINE)|
  }

  ghost predicate InText(content: Text, ms: seq<Match>) {
    forall i :: 0 <= i < |ms| ==> ms[i].start <= ms[i].end <= |content|
  }

  function OccurrenceOf(content: Text, m: Match): Occurrence
    requires m.start <= |content|
  {
    Occurrence(m.kind, LineAt(content, m.start))
  }

  lemma RecordedInText(content: Text, ms: seq<Match>)
    requires InText(content, ms)
    ensures InText(content, Recorded(ms))
  {
  }

  function Occurrences(content: Text, ms: seq<Match>): seq<Occurrence>
    requires InText(content, ms)
  {
    seq(|ms|, i requires 0 <= i < |ms| => OccurrenceOf(content, ms[i]))
  }

  lemma OccurrencesSnoc(content: Text, ms: seq<Match>, m: Match)
    requires InText(content, ms) && m.start <= m.end <= |content|
    ensures InText(content, ms + [m])
    ensures Occurrences(content, ms + [m]) == Occurrences(content, ms) + [OccurrenceOf(content, m)]
  {
  }

  /** The scan: one loop over the patterns, one over the matches of each. */
  method Scan(content: Text, patterns: seq<seq<Match>>) returns (occurrences: seq<Occurrence>)
    requires forall p :: 0 <= p < |patterns| ==> InText(content, patterns[p])
    ensures InText(content, Recorded(Flat(patterns)))
    ensures occurrences == Occurrences(content, Recorded(Flat(patterns)))
  {
    hide Recorded, Flat, Taken, LineAt;
    occurrences := [];
    var occupied: seq<Match> := [];
    NothingYet();
    for p := 0 to |patterns|
      invariant occupied == Recorded(Flat(patterns[..p])) && InText(content, occupied)
      invariant occurrences == Occurrences(content, occupied)
    {
      ghost var before := Flat(patterns[..p]);
      var ms := patterns[p];
      assert before + ms[..0] == before;
      for i := 0 to |ms|
        invariant occupied == Recorded(before + ms[..i]) && InText(content, occupied)
        invariant occurrences == Occurrences(content, occupied)
      {
        assert before + ms[..i + 1] == (before + ms[..i]) + [ms[i]];
        RecordedSnoc(before + ms[..i], ms[i]);
        if !Taken(occupied, ms[i]) {
          OccurrencesSnoc(content, occupied, ms[i]);
          occupied := occupied + [ms[i]];
          occurrences := occurrences + [OccurrenceOf(content, ms[i])];
        }
      }
      assert ms[..|ms|] == ms;
      FlatSnoc(patterns, p);
    }
    assert patterns[..|patterns|] == patterns;
  }

  function Flat(patterns: seq<seq<Match>>): seq<Match> {
    if patterns == [] then [] else Flat(patterns[..|patterns| - 1]) + patterns[|patterns| - 1]
  }

  lemma NothingYet()
    ensures Recorded([]) == [] && Flat([]) == []
  {
  }

  lemma FlatSnoc(patterns: seq<seq<Match>>, p: nat)
    requires p < |patterns|
    ensures Flat(patterns[..p + 1]) == Flat(patterns[..p]) + patterns[p]
  {
    assert patterns[..p + 1][..p] == patterns[..p];
  }

  lemma RecordedSnoc(ms: seq<Match>, m: Match)
    ensures Recorded(ms + [m]) == if Taken(Recorded(ms), m) then Recorded(ms) else Recorded(ms) + [m]
  {
  }

  ghost predicate Disjoint(ms: seq<Match>) {
    forall i, j :: 0 <= i < j < |ms| ==> !Overlap(ms[i], ms[j])
  }

  /** Recorded spans never overlap. */
  lemma {:induction false} RecordedAreDisjoint(ms: seq<Match>)
    ensures Disjoint(Recorded(ms))
  {
    if ms != [] {
      RecordedAreDisjoint(ms[..|ms| - 1]);
    }
  }

  lemma {:induction false} RecordedGrows(ms: seq<Match>, n: nat)
    requires n <= |ms|
    ensures Recorded(ms[..n]) <= Recorded(ms)
  {
    if n < |ms| {
      RecordedGrows(ms[..|ms| - 1], n);
      assert ms[..|ms| - 1][..n] == ms[..n];
    } else {
      assert ms[..n] == ms;
    }
  }

  /**
   A match is recorded unless a match of an earlier pattern, or an earlier one of its own, that
   overlaps it is; a match that is not recorded always overlaps one that is.
   */
  lemma RecordedUnlessTaken(ms: seq<Match>, i: nat)
    requires i < |ms|
    ensures Taken(Recorded(ms[..i]), ms[i]) ==> Taken(Recorded(ms), ms[i])
    ensures !Taken(Recorded(ms[..i]), ms[i]) ==> ms[i] in Recorded(ms)
  {
    hide Recorded, Taken;
    assert ms[..i + 1] == ms[..i] + [ms[i]];
    RecordedSnoc(ms[..i], ms[i]);
    RecordedGrows(ms, i);
    RecordedGrows(ms, i + 1);
    if Taken(Recorded(ms[..i]), ms[i]) {
      TakenGrows(Recorded(ms[..i]), Recorded(ms), ms[i]);
    } else {
      assert ms[i] in Recorded(ms[..i]) + [ms[i]];
      InLonger(Recorded(ms[..i]) + [ms[i]], Recorded(ms), ms[i]);
    }
  }

  lemma TakenGrows(r: seq<Match>, longer: seq<Match>, m: Match)
    requires r <= longer && Taken(r, m)
    ensures Taken(longer, m)
  {
  }

  lemma InLonger(r: seq<Match>, longer: seq<Match>, m: Match)
    requires r <= longer && m in r
    ensures m in longer
  {
  }

  /** A choice of matches by priority: each is chosen unless an earlier chosen one overlaps it. */
  ghost predicate ByPriority(ms: seq<Match>, chosen: set<nat>) {
    && (forall i :: i in chosen ==> i < |ms|)
    && forall i :: 0 <= i < |ms| ==>
         (i in chosen <==> forall j :: j in chosen && j < i ==> !Overlap(ms[j], ms[i]))
  }

  ghost predicate Lists(ms: seq<Match>, chosen: set<nat>, r: seq<Match>) {
    forall m :: m in r <==> exists i :: i in chosen && i < |ms| && ms[i] == m
  }

  lemma TakenByChosen(ms: seq<Match>, chosen: set<nat>, m: Match, r: seq<Match>)
    requires Lists(ms, chosen, r) && forall i :: i in chosen ==> i < |ms|
    ensures Taken(r, m) <==> exists j :: j in chosen && Overlap(ms[j], m)
  {
    hide Overlap;
    if Taken(r, m) {
      var k :| 0 <= k < |r| && Overlap(r[k], m);
      assert r[k] in r;
    }
    forall j | j in chosen && Overlap(ms[j], m) ensures Taken(r, m) {
      assert ms[j] in r;
    }
  }

  /** The scan is the only choice by priority. */
  lemma {:induction false} OnlyChoiceByPriority(ms: seq<Match>, chosen: set<nat>)
    requires ByPriority(ms, chosen)
    ensures Lists(ms, chosen, Recorded(ms))
  {
    hide Recorded, Taken, Overlap;
    if ms == [] {
      NothingYet();
    }
    if ms != [] {
      var n := |ms| - 1;
      var front, rest := ms[..n], chosen - {n};
      forall i | 0 <= i < n
        ensures i in rest <==> forall j :: j in rest && j < i ==> !Overlap(front[j], front[i])
      {
        assert forall j :: j in rest && j < i <==> j in chosen && j < i;
      }
      OnlyChoiceByPriority(front, rest);
      TakenByChosen(front, rest, ms[n], Recorded(front));
      assert forall j :: j in rest ==> front[j] == ms[j];
      assert ms == front + [ms[n]];
      RecordedSnoc(front, ms[n]);
      ListsSnoc(front, rest, ms[n], n in chosen, Recorded(front));
    }
  }

  lemma ListsSnoc(ms: seq<Match>, chosen: set<nat>, m: Match, also: bool, r: seq<Match>)
    requires Lists(ms, chosen, r) && forall i :: i in chosen ==> i < |ms|
    ensures Lists(ms + [m], if also then chosen + {|ms|} else chosen, if also then r + [m] else r)
  {
  }

  // ----- lines

  /** The text a recorded line number points at is the line the match starts in. */
  lemma LineHolds(content: Text, index: nat)
    requires index <= |content|
    ensures var lines, parts := Split(content, NEWLINE), Split(content[..index], NEWLINE);
            LineAt(content, index) <= |lines| && parts[|parts| - 1] <= lines[LineAt(content, index) - 1]
  {
    var parts := Split(content[..index], NEWLINE);
    var last, rest := parts[|parts| - 1], content[index..];
    assert content == content[..index] + rest;
    SplitConcat(content[..index], rest, NEWLINE);
    SegmentsArePlain(content[..index], NEWLINE);
    SplitPlain(last, NEWLINE);
    SplitConcat(last, rest, NEWLINE);
    FirstSegment(last, rest, NEWLINE);
  }

  /** The line exists and carries the marker. */
  predicate Labelled(content: Text, line: nat)
    requires line > 0
  {
    var lines := Split(content, NEWLINE);
    Contains(if line <= |lines| then lines[line - 1] else [], LABEL)
  }

  ghost predicate Inside(s: Text, chunk: Text) {
    exists front, back :: s == front + chunk + back
  }

  lemma NothingInside(chunk: Text)
    requires chunk != []
    ensures !Inside([], chunk)
  {
  }

  /** A labelled line has the words `historical witness` somewhere. */
  lemma LabelledIff(content: Text, line: nat)
    requires line > 0
    ensures Labelled(content, line) <==>
            && line <= |Split(content, NEWLINE)|
            && Inside(Split(content, NEWLINE)[line - 1],
                      [0x68, 0x69, 0x73, 0x74, 0x6f, 0x72, 0x69, 0x63, 0x61, 0x6c,
                       0x20, 0x77, 0x69, 0x74, 0x6e, 0x65, 0x73, 0x73])
  {
    hide Split, Inside, Contains;
    LabelIsSpelled();
    if line <= |Split(content, NEWLINE)| {
      ContainsIff(Split(content, NEWLINE)[line - 1], LABEL);
    } else {
      ContainsIff([], LABEL);
      NothingInside(LABEL);
    }
  }

  lemma LabelIsSpelled()
    ensures LABEL == [0x68, 0x69, 0x73, 0x74, 0x6f, 0x72, 0x69, 0x63, 0x61, 0x6c,
                      0x20, 0x77, 0x69, 0x74, 0x6e, 0x65, 0x73, 0x73]
  {
  }

  lemma ContainsIff(s: Text, chunk: Text)
    ensures Contains(s, chunk) <==> Inside(s, chunk)
  {
    if Contains(s, chunk) {
      var at: nat :| at <= |s| && Placed(s, at, chunk);
      assert s == s[..at] + chunk + s[at + |chunk|..];
    }
    if Inside(s, chunk) {
      var front, back :| s == front + chunk + back;
      assert Placed(s, |front|, chunk);
    }
  }

  // ----- exact counts

  datatype Allowed = Allowed(kind: Kind, count: nat)

  datatype Problem =
    | NotAllowed(kind: Kind, line: nat)
    | Unlabelled(kind: Kind, line: nat)
    | Extra(kind: Kind, found: nat, allowed: nat)
    | Unused(kind: Kind, found: nat, allowed: nat)
    | Unclassified(kind: Kind, line: nat)
    | DigestDrift

  /** The keys of an object are distinct. */
  ghost predicate DistinctKinds(counts: seq<Allowed>) {
    forall i, j :: 0 <= i < j < |counts| ==> counts[i].kind != counts[j].kind
  }

  function Lookup(counts: seq<Allowed>, kind: Kind): Option<nat> {
    if counts == [] then None
    else if counts[0].kind == kind then Some(counts[0].count)
    else Lookup(counts[1..], kind)
  }

  function OfKind(kind: Kind, occs: seq<Occurrence>): (r: seq<Occurrence>)
    ensures forall o :: o in r <==> o in occs && o.kind == kind
  {
    if occs == [] then []
    else OfKind(kind, occs[..|occs| - 1]) + if occs[|occs| - 1].kind == kind then [occs[|occs| - 1]] else []
  }

  lemma OfKindSnoc(kind: Kind, occs: seq<Occurrence>, o: Occurrence)
    ensures OfKind(kind, occs + [o]) == OfKind(kind, occs) + if o.kind == kind then [o] else []
  {
  }

  ghost predicate Numbered(occs: seq<Occurrence>) {
    forall o :: o in occs ==> o.line > 0
  }

  /** What the count check is to report about one file. */
  ghost predicate Reported(p: Problem, content: Text, occs: seq<Occurrence>, counts: seq<Allowed>)
    requires Numbered(occs)
  {
    match p
    case NotAllowed(kind, line) =>
      var found := OfKind(kind, occs);
      Lookup(counts, kind).None? && found != [] && found[0].line == line
    case Unlabelled(kind, line) =>
      Lookup(counts, kind).Some? && Occurrence(kind, line) in occs && !Labelled(content, line)
    case Extra(kind, found, allowed) =>
      Lookup(counts, kind) == Some(allowed) && found == |OfKind(kind, occs)| && found > allowed
    case Unused(kind, found, allowed) =>
      Lookup(counts, kind) == Some(allowed) && found == |OfKind(kind, occs)| && found < allowed
    case _ => false
  }

  /** Each kind occurs exactly as often as it is allowed to, and always on a labelled line. */
  ghost predicate Exact(content: Text, occs: seq<Occurrence>, counts: seq<Allowed>)
    requires Numbered(occs)
  {
    && (forall kind :: |OfKind(kind, occs)| == if Lookup(counts, kind).Some? then Lookup(counts, kind).value else 0)
    && (forall o :: o in occs ==> Labelled(content, o.line))
  }

  /** The count check is silent exactly when the counts match and every line is labelled. */
  lemma SilentMeansExact(content: Text, occs: seq<Occurrence>, counts: seq<Allowed>)
    requires Numbered(occs)
    ensures (forall p :: !Reported(p, content, occs, counts)) <==> Exact(content, occs, counts)
  {
    if forall p :: !Reported(p, content, occs, counts) {
      forall kind ensures |OfKind(kind, occs)| == if Lookup(counts, kind).Some? then Lookup(counts, kind).value else 0 {
        var found := OfKind(kind, occs);
        if Lookup(counts, kind).Some? {
          var allowed := Lookup(counts, kind).value;
          assert !Reported(Extra(kind, |found|, allowed), content, occs, counts);
          assert !Reported(Unused(kind, |found|, allowed), content, occs, counts);
        } else if found != [] {
          assert Reported(NotAllowed(kind, found[0].line), content, occs, counts);
        }
      }
      forall o | o in occs ensures Labelled(content, o.line) {
        assert !Reported(Unlabelled(o.kind, o.line), content, occs, counts);
        assert o in OfKind(o.kind, occs);
      }
    }
  }

  lemma NoneOfKind(k: Kind)
    ensures OfKind(k, []) == []
  {
  }

  /** Buckets in order of first appearance. */
  method GroupByKind(occs: seq<Occurrence>) returns (order: seq<Kind>, buckets: map<Kind, seq<Occurrence>>)
    ensures forall k :: k in order <==> k in buckets
    ensures forall k :: k in buckets <==> OfKind(k, occs) != []
    ensures forall k :: k in buckets ==> buckets[k] == OfKind(k, occs)
  {
    hide OfKind;
    order, buckets := [], map[];
    forall k: Kind ensures OfKind(k, []) == [] {
      NoneOfKind(k);
    }
    for i := 0 to |occs|
      invariant forall k :: k in order <==> k in buckets
      invariant forall k :: k in buckets <==> OfKind(k, occs[..i]) != []
      invariant forall k :: k in buckets ==> buckets[k] == OfKind(k, occs[..i])
    {
      var o := occs[i];
      assert occs[..i + 1] == occs[..i] + [o];
      forall k {
        OfKindSnoc(k, occs[..i], o);
      }
      if o.kind !in buckets {
        order, buckets := order + [o.kind], buckets[o.kind := [o]];
      } else {
        buckets := buckets[o.kind := buckets[o.kind] + [o]];
      }
    }
    assert occs[..|occs|] == occs;
  }

  /** What one bucket adds to the problems. */
  ghost predicate BucketReports(p: Problem, content: Text, kind: Kind, found: seq<Occurrence>, allowed: Option<nat>)
    requires found != [] && Numbered(found)
  {
    match allowed
    case None => p == NotAllowed(kind, found[0].line)
    case Some(n) =>
      || (p.Unlabelled? && p.kind == kind && Occurrence(kind, p.line) in found && !Labelled(content, p.line))
      || (p == Extra(kind, |found|, n) && |found| > n)
  }

  method CheckBucket(content: Text, kind: Kind, found: seq<Occurrence>, allowed: Option<nat>)
    returns (problems: seq<Problem>)
    requires found != [] && Numbered(found) && forall o :: o in found ==> o.kind == kind
    ensures forall p :: p in problems <==> BucketReports(p, content, kind, found, allowed)
  {
    if allowed.None? {
      return [NotAllowed(kind, found[0].line)];
    }
    problems := [];
    for i := 0 to |found|
      invariant forall p :: p in problems <==>
                  p.Unlabelled? && p.kind == kind && Occurrence(kind, p.line) in found[..i]
                      && !Labelled(content, p.line)
    {
      assert found[i] in found;
      assert found[..i + 1] == found[..i] + [found[i]];
      if !Labelled(content, found[i].line) {
        problems := problems + [Unlabelled(kind, found[i].line)];
      }
    }
    assert found[..|found|] == found;
    if |found| > allowed.value {
      problems := problems + [Extra(kind, |found|, allowed.value)];
    }
  }

  ghost predicate UnusedBy(p: Problem, occs: seq<Occurrence>, a: Allowed) {
    p == Unused(a.kind, |OfKind(a.kind, occs)|, a.count) && |OfKind(a.kind, occs)| < a.count
  }

  lemma {:induction false} LookupAt(counts: seq<Allowed>, kind: Kind)
    requires DistinctKinds(counts)
    ensures forall n: nat :: Lookup(counts, kind) == Some(n) <==> Allowed(kind, n) in counts
  {
    if counts != [] {
      LookupAt(counts[1..], kind);
      assert counts == [counts[0]] + counts[1..];
      forall n: nat | Allowed(kind, n) in counts[1..] ensures counts[0].kind != kind {
        var j :| 0 <= j < |counts[1..]| && counts[1..][j] == Allowed(kind, n);
        assert counts[j + 1].kind == kind;
      }
    }
  }

  /** A problem is reported by the bucket of its kind or by an allowance of its kind. */
  lemma ReportedBy(p: Problem, content: Text, occs: seq<Occurrence>, counts: seq<Allowed>)
    requires Numbered(occs) && DistinctKinds(counts)
    ensures Reported(p, content, occs, counts) <==>
              || (exists k :: OfKind(k, occs) != [] && BucketReports(p, content, k, OfKind(k, occs), Lookup(counts, k)))
              || (exists a :: a in counts && UnusedBy(p, occs, a))
  {
    forall k {
      LookupAt(counts, k);
    }
    if Reported(p, content, occs, counts) {
      if p.Unused? {
        assert UnusedBy(p, occs, Allowed(p.kind, p.allowed));
      } else {
        if p.Unlabelled? {
          assert Occurrence(p.kind, p.line) in OfKind(p.kind, occs);
        }
        assert BucketReports(p, content, p.kind, OfKind(p.kind, occs), Lookup(counts, p.kind));
      }
    }
    forall k | OfKind(k, occs) != [] && BucketReports(p, content, k, OfKind(k, occs), Lookup(counts, k))
      ensures Reported(p, content, occs, counts)
    {
    }
    forall a | a in counts && UnusedBy(p, occs, a) ensures Reported(p, content, occs, counts) {
      assert a == Allowed(a.kind, a.count);
    }
  }

  /** The counts branch: the buckets first, then the allowances that are not used up. */
  method CheckCounts(content: Text, occs: seq<Occurrence>, counts: seq<Allowed>) returns (problems: seq<Problem>)
    requires Numbered(occs) && DistinctKinds(counts)
    ensures forall p :: p in problems <==> Reported(p, content, occs, counts)
    ensures problems == [] <==> Exact(content, occs, counts)
  {
    var order, buckets := GroupByKind(occs);
    problems := CheckBuckets(content, occs, counts, order, buckets);
    ghost var early := problems;
    for i := 0 to |counts|
      invariant forall p :: p in problems <==> p in early || exists a :: a in counts[..i] && UnusedBy(p, occs, a)
    {
      var a := counts[i];
      assert counts[..i + 1] == counts[..i] + [a];
      var found := if a.kind in buckets then |buckets[a.kind]| else 0;
      assert found == |OfKind(a.kind, occs)|;
      if found < a.count {
        assert UnusedBy(Unused(a.kind, found, a.count), occs, a);
        problems := problems + [Unused(a.kind, found, a.count)];
      }
    }
    assert counts[..|counts|] == counts;
    forall p ensures p in problems <==> Reported(p, content, occs, counts) {
      ReportedBy(p, content, occs, counts);
    }
    SilentMeansExact(content, occs, counts);
    assert problems != [] ==> problems[0] in problems;
  }

  method CheckBuckets(
      content: Text, occs: seq<Occurrence>, counts: seq<Allowed>, order: seq<Kind>, buckets: map<Kind, seq<Occurrence>>)
    returns (problems: seq<Problem>)
    requires Numbered(occs)
    requires forall k :: k in order <==> k in buckets
    requires forall k :: k in buckets <==> OfKind(k, occs) != []
    requires forall k :: k in buckets ==> buckets[k] == OfKind(k, occs)
    ensures forall p :: p in problems <==>
              exists k :: OfKind(k, occs) != [] && BucketReports(p, content, k, OfKind(k, occs), Lookup(counts, k))
  {
    problems := [];
    for i := 0 to |order|
      invariant forall p :: p in problems <==>
                  exists k :: k in order[..i] && OfKind(k, occs) != [] &&
                              BucketReports(p, content, k, OfKind(k, occs), Lookup(counts, k))
    {
      var kind := order[i];
      assert kind in order;
      assert order[..i + 1] == order[..i] + [kind];
      var more := CheckBucket(content, kind, buckets[kind], Lookup(counts, kind));
      ghost var before := problems;
      problems := problems + more;
      forall p ensures p in problems <==>
                         exists k :: k in order[..i + 1] && OfKind(k, occs) != [] &&
                                     BucketReports(p, content, k, OfKind(k, occs), Lookup(counts, k))
      {
        if p in before {
          var k :| k in order[..i] && OfKind(k, occs) != []
              && BucketReports(p, content, k, OfKind(k, occs), Lookup(counts, k));
          assert k in order[..i + 1];
        }
        if p in more {
          assert kind in order[..i + 1] && BucketReports(p, content, kind, OfKind(kind, occs), Lookup(counts, kind));
        }
      }
    }
    assert order[..|order|] == order;
  }

  // ----- whole files

  /** An allowance accepts exact counts, or the whole file by its digest. */
  datatype Allowance = ByCounts(counts: seq<Allowed>) | ByDigest(digest: Text)

  /** The foreign parts: what the patterns match, pattern by pattern, and the content digest. */
  datatype Foreign = Foreign(matches: Text -> seq<seq<Match>>, digest: Text -> Text) {
    ghost predicate Sound() {
      forall content :: forall p :: 0 <= p < |matches(content)| ==> InText(content, matches(content)[p])
    }

    ghost function Found(content: Text): (r: seq<Occurrence>)
      requires Sound()
      ensures Numbered(r)
    {
      FlatInText(content, matches(content));
      RecordedInText(content, Flat(matches(content)));
      Occurrences(content, Recorded(Flat(matches(content))))
    }
  }

  lemma FlatInText(content: Text, patterns: seq<seq<Match>>)
    requires forall p :: 0 <= p < |patterns| ==> InText(content, patterns[p])
    ensures InText(content, Flat(patterns))
  {
  }

  /** What an ordinary file must satisfy: no occurrence, or what its allowance says. */
  ghost predicate Clean(f: Foreign, content: Text, allowance: Option<Allowance>)
    requires f.Sound()
  {
    match allowance
    case None => f.Found(content) == []
    case Some(ByDigest(d)) => f.digest(content) == d
    case Some(ByCounts(counts)) => Exact(content, f.Found(content), counts)
  }

  /** What there is to say about an ordinary file. */
  ghost predicate Complaint(f: Foreign, content: Text, allowance: Option<Allowance>, p: Problem)
    requires f.Sound()
  {
    match allowance
    case None => p.Unclassified? && Occurrence(p.kind, p.line) in f.Found(content)
    case Some(ByDigest(d)) => p == DigestDrift && f.digest(content) != d
    case Some(ByCounts(counts)) => Reported(p, content, f.Found(content), counts)
  }

  method CheckFile(f: Foreign, content: Text, allowance: Option<Allowance>) returns (problems: seq<Problem>)
    requires f.Sound()
    requires allowance.Some? && allowance.value.ByCounts? ==> DistinctKinds(allowance.value.counts)
    ensures problems == [] <==> Clean(f, content, allowance)
    ensures forall p :: p in problems <==> Complaint(f, content, allowance, p)
  {
    var occs := Scan(content, f.matches(content));
    assert occs == f.Found(content);
    match allowance {
      case None =>
        problems := seq(|occs|, i requires 0 <= i < |occs| => Unclassified(occs[i].kind, occs[i].line));
        forall p ensures p in problems <==> Complaint(f, content, allowance, p) {
          if Complaint(f, content, allowance, p) {
            var i :| 0 <= i < |occs| && occs[i] == Occurrence(p.kind, p.line);
            assert problems[i] == p;
          }
        }
      case Some(ByDigest(d)) =>
        problems := if f.digest(content) == d then [] else [DigestDrift];
      case Some(ByCounts(counts)) =>
        problems := CheckCounts(content, occs, counts);
    }
  }

  datatype Report = InFile(path: Text, problem: Problem) | AbsentFile(path: Text)

  function AllowanceFor(allowances: map<Text, Allowance>, path: Text): Option<Allowance> {
    if path in allowances then Some(allowances[path]) else None
  }

  /** What there is to say about all of them: complaints about files, and allowances for files that are not there. */
  ghost predicate Says(f: Foreign, files: map<Text, Text>, allowances: map<Text, Allowance>, r: Report)
    requires f.Sound()
  {
    match r
    case InFile(path, problem) =>
      path in files &&
      Complaint(f, files[path], if path in allowances then Some(allowances[path]) else None, problem)
    case AbsentFile(path) => path in allowances && path !in files
  }

  /** The classifier over tracked ordinary files: it says exactly what there is to say. */
  method Verify(f: Foreign, files: map<Text, Text>, allowances: map<Text, Allowance>) returns (reports: seq<Report>)
    requires f.Sound()
    requires forall p :: p in allowances && allowances[p].ByCounts? ==> DistinctKinds(allowances[p].counts)
    ensures forall r :: r in reports <==> Says(f, files, allowances, r)
    ensures reports == [] <==>
              && (forall p :: p in files ==>
                    Clean(f, files[p], if p in allowances then Some(allowances[p]) else None))
              && (forall p :: p in allowances ==> p in files)
  {
    hide Complaint, Clean;
    reports := [];
    var todo := files.Keys;
    while todo != {}
      invariant todo <= files.Keys
      invariant reports == [] <==>
                forall p :: p in files.Keys - todo ==> Clean(f, files[p], AllowanceFor(allowances, p))
      invariant forall r :: r in reports <==>
                  r.InFile? && r.path in files.Keys - todo && Says(f, files, allowances, r)
    {
      var path :| path in todo;
      var problems := CheckFile(f, files[path], AllowanceFor(allowances, path));
      var more := InFileAll(path, problems);
      reports := reports + more;
      todo := todo - {path};
    }
    ghost var clean, early := reports == [], reports;
    var unseen := allowances.Keys;
    while unseen != {}
      invariant unseen <= allowances.Keys
      invariant reports == [] <==> clean && forall p :: p in allowances.Keys - unseen ==> p in files
      invariant forall r :: r in reports <==>
                  r in early || (r.AbsentFile? && r.path in allowances.Keys - unseen && r.path !in files)
    {
      var path :| path in unseen;
      if path !in files {
        reports := reports + [AbsentFile(path)];
      }
      unseen := unseen - {path};
    }
  }

  function InFileAll(path: Text, problems: seq<Problem>): (reports: seq<Report>)
    ensures |reports| == |problems|
    ensures forall r :: r in reports <==> r.InFile? && r.path == path && r.problem in problems
    decreases |problems|
  {
    if problems == [] then [] else [InFile(path, problems[0])] + InFileAll(path, problems[1..])
  }
}
