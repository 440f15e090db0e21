/**
 The splitter of argument lists at commas outside brackets and string literals.
 */
module TopLevelSplit {
  import opened Prelude
  import opened Strings

  predicate IsQuote(u: CodeUnit) {
    u == 0x22 || u == 0x27 || u == 0x60
  }

  predicate Opens(u: CodeUnit) {
    u == 0x28 || u == 0x5b || u == 0x7b
  }

  predicate Closes(u: CodeUnit) {
    u == 0x29 || u == 0x5d || u == 0x7d
  }

  /** Where a scan stands: how deep in brackets, and in which string literal. */
  datatype Place = Place(depth: int, quote: Option<CodeUnit>)

  const TOP := Place(0, None)

  function Advance(p: Place, u: CodeUnit): Place {
    if p.quote.Some? then (if u == p.quote.value then p.(quote := None) else p)
    else if IsQuote(u) then p.(quote := Some(u))
    else if Opens(u) then p.(depth := p.depth + 1)
    else if Closes(u) then p.(depth := p.depth - 1)
    else p
  }

  /** Where a scan stands after a text. */
  function After(p: Place, text: Text): Place
    decreases |text|
  {
    if text == [] then p else After(Advance(p, text[0]), text[1..])
  }

  /** The parts of a text scanned from a place. */
  function Parts(p: Place, text: Text): (parts: seq<Text>)
    ensures |parts| > 0
    decreases |text|
  {
    if text == [] then [[]]
    else if p == TOP && text[0] == COMMA then [[]] + Parts(TOP, text[1..])
    else
      var rest := Parts(Advance(p, text[0]), text[1..]);
      [[text[0]] + rest[0]] + rest[1..]
  }

  /** The loop of the source; it reads the same units whether it iterates them or code points. */
  method SplitTopLevel(text: Text) returns (parts: seq<Text>)
    ensures parts == Parts(TOP, text)
  {
    hide Glue;
    parts := [];
    var depth, inString: Option<CodeUnit>, current: Text := 0, None, [];
    assert text[0..] == text;
    GlueStarts(Parts(TOP, text));
    for i := 0 to |text|
      invariant Parts(TOP, text) == Glue(parts, current, Parts(Place(depth, inString), text[i..]))
    {
      var u := text[i];
      assert text[i..][1..] == text[i + 1..];
      GlueUnit(parts, current, u, Parts(Advance(Place(depth, inString), u), text[i + 1..]));
      GlueCut(parts, current, Parts(TOP, text[i + 1..]));
      if inString.Some? {
        current := current + [u];
        if Some(u) == inString {
          inString := None;
        }
      } else if IsQuote(u) {
        inString := Some(u);
        current := current + [u];
      } else {
        if Opens(u) {
          depth := depth + 1;
        }
        if Closes(u) {
          depth := depth - 1;
        }
        if u == COMMA && depth == 0 {
          parts, current := parts + [current], [];
        } else {
          current := current + [u];
        }
      }
    }
    assert text[|text|..] == [];
    GlueEnds(parts, current);
    parts := parts + [current];
  }

  /** What the loop has, followed by what the rest of the text gives. */
  ghost function Glue(parts: seq<Text>, current: Text, rest: seq<Text>): seq<Text>
    requires |rest| > 0
  {
    parts + [current + rest[0]] + rest[1..]
  }

  lemma GlueStarts(rest: seq<Text>)
    requires |rest| > 0
    ensures Glue([], [], rest) == rest
  {
    assert [] + rest[0] == rest[0];
  }

  lemma GlueEnds(parts: seq<Text>, current: Text)
    ensures Glue(parts, current, [[]]) == parts + [current]
  {
    assert current + [] == current;
  }

  lemma GlueUnit(parts: seq<Text>, current: Text, u: CodeUnit, rest: seq<Text>)
    requires |rest| > 0
    ensures Glue(parts, current, [[u] + rest[0]] + rest[1..]) == Glue(parts, current + [u], rest)
  {
    assert current + ([u] + rest[0]) == current + [u] + rest[0];
  }

  lemma GlueCut(parts: seq<Text>, current: Text, rest: seq<Text>)
    requires |rest| > 0
    ensures Glue(parts, current, [[]] + rest) == Glue(parts + [current], [], rest)
  {
    assert ([[]] + rest)[1..] == rest;
    assert current + [] == current && [] + rest[0] == rest[0];
    assert rest == [rest[0]] + rest[1..];
  }

  /** Joining the parts with commas gives the text back, whatever its brackets and quotes. */
  lemma {:induction false} JoinOfParts(p: Place, text: Text)
    ensures Join(Parts(p, text), COMMA) == text
    decreases |text|
  {
    if text != [] {
      assert text == [text[0]] + text[1..];
      if p == TOP && text[0] == COMMA {
        JoinOfParts(TOP, text[1..]);
        assert ([[]] + Parts(TOP, text[1..]))[1..] == Parts(TOP, text[1..]);
      } else {
        var rest := Parts(Advance(p, text[0]), text[1..]);
        JoinOfParts(Advance(p, text[0]), text[1..]);
        assert ([[text[0]] + rest[0]] + rest[1..])[1..] == rest[1..];
      }
    }
  }

  /** A part is whole: it has no comma to cut at. */
  predicate Whole(part: Text) {
    Parts(TOP, part) == [part]
  }

  /** Every part is whole and every part but the last closes what it opens. */
  ghost predicate WellCut(parts: seq<Text>) {
    && parts != []
    && (forall i :: 0 <= i < |parts| ==> Whole(parts[i]))
    && (forall i :: 0 <= i < |parts| - 1 ==> After(TOP, parts[i]) == TOP)
  }

  /** More text only touches the last part. */
  lemma {:induction false} PartsConcat(p: Place, a: Text, b: Text)
    requires |Parts(p, a)| == 1
    ensures Parts(p, a) == [a]
    ensures var rest := Parts(After(p, a), b);
            Parts(p, a + b) == [a + rest[0]] + rest[1..]
    decreases |a|
  {
    var rest := Parts(After(p, a), b);
    if a == [] {
      assert a + b == b && a + rest[0] == rest[0];
    } else {
      PartsConcat(Advance(p, a[0]), a[1..], b);
      assert [a[0]] + a[1..] == a;
      assert (a + b)[1..] == a[1..] + b;
      assert [a[0]] + (a[1..] + rest[0]) == a + rest[0];
    }
  }

  /** Cutting after a whole part that closes what it opens. */
  lemma CutAfter(part: Text, more: Text)
    requires Whole(part) && After(TOP, part) == TOP
    ensures Parts(TOP, part + [COMMA] + more) == [part] + Parts(TOP, more)
  {
    PartsConcat(TOP, part, [COMMA] + more);
    assert part + [COMMA] + more == part + ([COMMA] + more);
    assert ([COMMA] + more)[1..] == more;
    assert part + [] == part;
  }

  lemma {:induction false} WellCutComesBack(parts: seq<Text>)
    requires WellCut(parts)
    ensures Parts(TOP, Join(parts, COMMA)) == parts
  {
    assert Whole(parts[0]);
    if |parts| == 1 {
      assert parts == [parts[0]];
    } else {
      assert WellCut(parts[1..]);
      WellCutComesBack(parts[1..]);
      CutAfter(parts[0], Join(parts[1..], COMMA));
    }
  }

  /** The first part, scanned from the same place, ends where a cut is possible. */
  lemma {:induction false} FirstPart(p: Place, text: Text)
    ensures var parts := Parts(p, text);
            && Parts(p, parts[0]) == [parts[0]]
            && (|parts| > 1 ==> |parts[0]| < |text| && After(p, parts[0]) == TOP
                                && parts[1..] == Parts(TOP, text[|parts[0]| + 1..]))
    decreases |text|
  {
    var parts := Parts(p, text);
    if text != [] {
      if p == TOP && text[0] == COMMA {
        assert parts[1..] == Parts(TOP, text[1..]);
      } else {
        FirstPart(Advance(p, text[0]), text[1..]);
        var rest := Parts(Advance(p, text[0]), text[1..]);
        assert parts[0][1..] == rest[0];
        assert parts[1..] == rest[1..];
        if |rest| > 1 {
          assert text[1..][|rest[0]| + 1..] == text[|parts[0]| + 1..];
        }
      }
    }
  }

  lemma {:induction false} PartsAreWellCut(text: Text)
    ensures WellCut(Parts(TOP, text))
    decreases |text|
  {
    var parts := Parts(TOP, text);
    FirstPart(TOP, text);
    if |parts| > 1 {
      PartsAreWellCut(text[|parts[0]| + 1..]);
      var rest := parts[1..];
      forall i | 0 <= i < |parts| ensures Whole(parts[i]) && (i < |parts| - 1 ==> After(TOP, parts[i]) == TOP) {
        if i > 0 {
          assert parts[i] == rest[i - 1];
        }
      }
    }
  }

  /** The splitter is the one inverse of joining: it returns these parts of this text and no others. */
  lemma SplitsExactly(text: Text, parts: seq<Text>)
    ensures Parts(TOP, text) == parts <==> WellCut(parts) && Join(parts, COMMA) == text
  {
    JoinOfParts(TOP, text);
    PartsAreWellCut(text);
    if WellCut(parts) && Join(parts, COMMA) == text {
      WellCutComesBack(parts);
    }
  }

  // ----- where a text is cut

  /** The quote whose string literal the unit at `i` is in: one opened before it and not closed since. */
  ghost function QuoteAt(text: Text, i: nat): Option<CodeUnit>
    requires i <= |text|
  {
    if i == 0 then None
    else
      var before, u := QuoteAt(text, i - 1), text[i - 1];
      if before.Some? then (if u == before.value then None else before)
      else if u in {0x22, 0x27, 0x60} then Some(u)
      else None
  }

  /** How many of these units stand outside string literals before `i`. */
  ghost function CountBefore(text: Text, i: nat, units: set<CodeUnit>): nat
    requires i <= |text|
  {
    if i == 0 then 0
    else
      CountBefore(text, i - 1, units)
      + if QuoteAt(text, i - 1).None? && text[i - 1] in units then 1 else 0
  }

  /** A comma outside string literals with as many opening as closing brackets before it. */
  ghost predicate IsCut(text: Text, i: nat)
    requires i < |text|
  {
    && text[i] == 0x2c && QuoteAt(text, i).None?
    && CountBefore(text, i, {0x28, 0x5b, 0x7b}) == CountBefore(text, i, {0x29, 0x5d, 0x7d})
  }

  /** The scan keeps the difference of the brackets and the quote in force. */
  lemma {:induction false} ScanCounts(text: Text, i: nat)
    requires i <= |text|
    ensures After(TOP, text[..i]) ==
            Place(CountBefore(text, i, {0x28, 0x5b, 0x7b}) - CountBefore(text, i, {0x29, 0x5d, 0x7d}), QuoteAt(text, i))
  {
    if i > 0 {
      ScanCounts(text, i - 1);
      AfterSnoc(TOP, text[..i - 1], text[i - 1]);
      assert text[..i] == text[..i - 1] + [text[i - 1]];
    }
  }

  lemma {:induction false} AfterSnoc(p: Place, text: Text, u: CodeUnit)
    ensures After(p, text + [u]) == Advance(After(p, text), u)
    decreases |text|
  {
    if text == [] {
      assert text + [u] == [u];
      assert [u][1..] == [];
      assert After(Advance(p, u), []) == Advance(p, u);
    } else {
      assert (text + [u])[1..] == text[1..] + [u];
      AfterSnoc(Advance(p, text[0]), text[1..], u);
    }
  }

  /** Positions in a text that has one more unit in front. */
  ghost function Later(cuts: seq<nat>): seq<nat> {
    seq(|cuts|, j requires 0 <= j < |cuts| => cuts[j] + 1)
  }

  /** Where the `j`-th part begins and ends. */
  ghost function From(cuts: seq<nat>, j: nat): nat
    requires j <= |cuts|
  {
    if j == 0 then 0 else cuts[j - 1] + 1
  }

  ghost function To(cuts: seq<nat>, j: nat, length: nat): nat
    requires j <= |cuts|
  {
    if j == |cuts| then length else cuts[j]
  }

  ghost predicate Between(text: Text, part: Text, from: nat, to: nat) {
    from <= to <= |text| && part == text[from..to]
  }

  /** The parts lie between these positions, in order. */
  ghost predicate LiesBetween(text: Text, parts: seq<Text>, cuts: seq<nat>) {
    && |parts| == |cuts| + 1
    && forall j :: 0 <= j < |parts| ==> Between(text, parts[j], From(cuts, j), To(cuts, j, |text|))
  }

  lemma BetweenLater(text: Text, part: Text, from: nat, to: nat)
    requires text != [] && Between(text[1..], part, from, to)
    ensures Between(text, part, from + 1, to + 1)
    ensures from == 0 ==> Between(text, [text[0]] + part, 0, to + 1)
  {
  }

  lemma LiesBetweenCut(text: Text, rest: seq<Text>, cuts: seq<nat>)
    requires text != [] && LiesBetween(text[1..], rest, cuts)
    ensures LiesBetween(text, [[]] + rest, [0] + Later(cuts))
  {
    hide Between;
    var parts, all := [[]] + rest, [0] + Later(cuts);
    forall j | 0 <= j < |parts| ensures Between(text, parts[j], From(all, j), To(all, j, |text|)) {
      if j == 0 {
        EmptyBetween(text);
      } else {
        assert Between(text[1..], rest[j - 1], From(cuts, j - 1), To(cuts, j - 1, |text[1..]|));
        BetweenLater(text, rest[j - 1], From(cuts, j - 1), To(cuts, j - 1, |text[1..]|));
      }
    }
  }

  lemma EmptyBetween(text: Text)
    ensures Between(text, [], 0, 0)
  {
  }

  lemma LiesBetweenUnit(text: Text, rest: seq<Text>, cuts: seq<nat>)
    requires text != [] && |rest| > 0 && LiesBetween(text[1..], rest, cuts)
    ensures LiesBetween(text, [[text[0]] + rest[0]] + rest[1..], Later(cuts))
  {
    hide Between;
    var parts, all := [[text[0]] + rest[0]] + rest[1..], Later(cuts);
    forall j | 0 <= j < |parts| ensures Between(text, parts[j], From(all, j), To(all, j, |text|)) {
      assert Between(text[1..], rest[j], From(cuts, j), To(cuts, j, |text[1..]|));
      BetweenLater(text, rest[j], From(cuts, j), To(cuts, j, |text[1..]|));
    }
  }

  /** The positions at which a scan from a place cuts. */
  ghost function CutsFrom(p: Place, text: Text): seq<nat>
    decreases |text|
  {
    if text == [] then []
    else if p == TOP && text[0] == COMMA then [0] + Later(CutsFrom(TOP, text[1..]))
    else Later(CutsFrom(Advance(p, text[0]), text[1..]))
  }

  lemma {:induction false} PartsLieBetween(p: Place, text: Text)
    ensures LiesBetween(text, Parts(p, text), CutsFrom(p, text))
    decreases |text|
  {
    hide LiesBetween, Advance;
    if text == [] {
      NothingBetween();
    } else if p == TOP && text[0] == COMMA {
      PartsLieBetween(TOP, text[1..]);
      LiesBetweenCut(text, Parts(TOP, text[1..]), CutsFrom(TOP, text[1..]));
    } else {
      var next := Advance(p, text[0]);
      PartsLieBetween(next, text[1..]);
      LiesBetweenUnit(text, Parts(next, text[1..]), CutsFrom(next, text[1..]));
    }
  }

  lemma NothingBetween()
    ensures LiesBetween([], [[]], [])
  {
  }

  /** A scan cuts at a comma when it is back at the top. */
  lemma {:induction false} CutsAreAtTop(p: Place, text: Text, i: nat)
    requires i < |text|
    ensures i in CutsFrom(p, text) <==> text[i] == COMMA && After(p, text[..i]) == TOP
    decreases |text|
  {
    var next := if p == TOP && text[0] == COMMA then TOP else Advance(p, text[0]);
    var later := Later(CutsFrom(next, text[1..]));
    assert p == TOP && text[0] == COMMA ==> Advance(p, text[0]) == TOP;
    if i == 0 {
      assert text[..0] == [] && 0 !in later;
    } else {
      CutsAreAtTop(next, text[1..], i - 1);
      assert text[..i][1..] == text[1..][..i - 1];
      assert i in later <==> i - 1 in CutsFrom(next, text[1..]) by {
        if i - 1 in CutsFrom(next, text[1..]) {
          var j :| 0 <= j < |CutsFrom(next, text[1..])| && CutsFrom(next, text[1..])[j] == i - 1;
          assert later[j] == i;
        }
      }
    }
  }

  /**
   The splitter cuts exactly at the commas that stand outside string literals behind as many opening as closing
   brackets, and its parts are what lies between them.
   */
  lemma CutsExactly(text: Text) returns (cuts: seq<nat>)
    ensures LiesBetween(text, Parts(TOP, text), cuts)
    ensures forall i: nat :: i < |text| ==> (i in cuts <==> IsCut(text, i))
  {
    hide LiesBetween;
    cuts := CutsFrom(TOP, text);
    PartsLieBetween(TOP, text);
    forall i: nat | i < |text| ensures i in cuts <==> IsCut(text, i) {
      CutsAreAtTop(TOP, text, i);
      ScanCounts(text, i);
    }
  }
}
