/**
 The normaliser of session files and the downgrade of a normalised session to format 1.
 */
module SessionFixtures {

  /*
   A line is its parsed object: the fields the code reads or writes, and the rest as it is. Parsing and
   rendering JSON are foreign code, inverse to one another.
   */

  import opened Prelude
  import Decimal

  datatype Kind = Session | Message | Compaction | OtherKind(name: Text)

  /** A property of an object, told apart as `typeof` does. */
  datatype Field = Absent | Null | Str(text: Text) | Other(json: Text)

  datatype Line = Line(
    kind: Kind,
    id: Field,
    parentId: Field,
    timestamp: Field,
    cwd: Field,
    parentSession: Field,
    version: Field,
    firstKept: Field,
    target: Field,
    origin: Field,
    keptIndex: Option<nat>,
    messageTime: Option<nat>,
    rest: Text)

  /** The placeholders, and the rendering of the instant `k` seconds after the base. */
  datatype Options = Options(sessionId: Text, cwd: Text, parentSession: Option<Text>, iso: nat -> Text)

  datatype Problem = NoPlaceholder | UnknownId | UnknownParent | BadParent | UnknownKept | UnknownTarget

  const BASE_MS := 1_735_689_600_000

  const ROOT := Units("root")

  /** The letter e and the position in at least seven digits. */
  function EntryId(k: nat): Text {
    [0x65] + Decimal.PadZero(Decimal.Digits(k), 7)
  }

  lemma EntryIdsDiffer(j: nat, k: nat)
    ensures EntryId(j) == EntryId(k) ==> j == k
    ensures EntryId(k) != ROOT
  {
    Decimal.DigitsDiffer(j, k, 7);
    assert EntryId(j)[1..] == Decimal.PadZero(Decimal.Digits(j), 7);
    assert EntryId(k)[1..] == Decimal.PadZero(Decimal.Digits(k), 7);
    assert EntryId(k)[0] == 0x65 && ROOT[0] == 0x72;
  }

  /** An entry id is the letter e and the position in decimal, with zeros in front up to seven digits. */
  lemma EntryIdSpells(k: nat)
    ensures var id := EntryId(k);
            && |id| >= 8 && id[0] == 0x65 && (forall i :: 1 <= i < |id| ==> 0x30 <= id[i] <= 0x39)
            && Decimal.ValueOf(id[1..]) == k && (|Decimal.Digits(k)| <= 7 ==> |id| == 8)
  {
    Decimal.ValueOfDigits(k);
    Decimal.ValueOfPadded(Decimal.Digits(k), 7);
    Decimal.PadsTo(Decimal.Digits(k), 7);
    assert EntryId(k)[1..] == Decimal.PadZero(Decimal.Digits(k), 7);
  }

  // ----- normalising

  /** How many lines are entries; the position of the last line if it is one. */
  function Entries(lines: seq<Line>): nat {
    if lines == [] then 0
    else Entries(lines[..|lines| - 1]) + if lines[|lines| - 1].kind.Session? then 0 else 1
  }

  /** Pass 1: the new id of every entry id; of two entries with one id the later one counts. */
  function IdMap(lines: seq<Line>): map<Text, Text> {
    if lines == [] then map[]
    else
      var before, l := IdMap(lines[..|lines| - 1]), lines[|lines| - 1];
      if l.kind.Session? || !l.id.Str? then before else before[l.id.text := EntryId(Entries(lines))]
  }

  /** A reference that is a string is replaced by what it maps to. */
  function Mapped(f: Field, ids: map<Text, Text>): Field {
    if f.Str? && f.text in ids then Str(ids[f.text]) else f
  }

  predicate Dangles(f: Field, ids: map<Text, Text>) {
    f.Str? && f.text !in ids
  }

  function NormalHeader(l: Line, o: Options): Result<Line, Problem> {
    if l.parentSession.Str? && o.parentSession.None? then Err(NoPlaceholder)
    else Ok(l.(id := Str(o.sessionId), timestamp := Str(o.iso(0)),
               cwd := if l.cwd.Str? then Str(o.cwd) else l.cwd,
               parentSession := if l.parentSession.Str? then Str(o.parentSession.value) else l.parentSession))
  }

  /** Where a branch came from; an origin that is not in the file becomes the root. */
  function NormalOrigin(f: Field, ids: map<Text, Text>): Field {
    if !f.Str? || f.text == ROOT then f else if f.text in ids then Str(ids[f.text]) else Str(ROOT)
  }

  function NormalEntry(l: Line, pos: nat, ids: map<Text, Text>, o: Options): Result<Line, Problem> {
    if Dangles(l.id, ids) then Err(UnknownId)
    else if Dangles(l.parentId, ids) then Err(UnknownParent)
    else if l.parentId.Other? then Err(BadParent)
    else if Dangles(l.firstKept, ids) then Err(UnknownKept)
    else if Dangles(l.target, ids) then Err(UnknownTarget)
    else Ok(l.(id := Mapped(l.id, ids), parentId := Mapped(l.parentId, ids), timestamp := Str(o.iso(pos)),
               firstKept := Mapped(l.firstKept, ids), target := Mapped(l.target, ids),
               origin := NormalOrigin(l.origin, ids),
               messageTime :=
                 if l.kind.Message? && l.messageTime.Some? then Some(BASE_MS + pos * 1000) else l.messageTime))
  }

  function NormalLine(l: Line, pos: nat, ids: map<Text, Text>, o: Options): Result<Line, Problem> {
    if l.kind.Session? then NormalHeader(l, o) else NormalEntry(l, pos, ids, o)
  }

  /** Pass 2 over the first lines: it stops at the first line that fails. */
  function NormalLines(lines: seq<Line>, ids: map<Text, Text>, o: Options): (r: Result<seq<Line>, Problem>)
    ensures r.Ok? ==> |r.value| == |lines|
  {
    if lines == [] then Ok([])
    else
      match NormalLines(lines[..|lines| - 1], ids, o)
      case Err(e) => Err(e)
      case Ok(done) =>
        match NormalLine(lines[|lines| - 1], Entries(lines), ids, o)
        case Err(e) => Err(e)
        case Ok(l) => Ok(done + [l])
  }

  function Normalized(lines: seq<Line>, o: Options): (r: Result<seq<Line>, Problem>)
    ensures r.Ok? ==> |r.value| == |lines|
  {
    NormalLines(lines, IdMap(lines), o)
  }

  lemma PrefixStep(lines: seq<Line>, i: nat)
    requires i < |lines|
    ensures lines[..i + 1][..i] == lines[..i] && lines[..i + 1][i] == lines[i]
  {
  }

  lemma {:induction false} FailsEarly(lines: seq<Line>, n: nat, ids: map<Text, Text>, o: Options)
    requires n <= |lines| && NormalLines(lines[..n], ids, o).Err?
    ensures NormalLines(lines, ids, o) == NormalLines(lines[..n], ids, o)
  {
    if n < |lines| {
      var front := lines[..|lines| - 1];
      assert front[..n] == lines[..n];
      FailsEarly(front, n, ids, o);
    } else {
      assert lines[..n] == lines;
    }
  }

  /** Pass 1. */
  method CollectIds(objs: array<Line>) returns (ids: map<Text, Text>)
    ensures ids == IdMap(objs[..])
  {
    hide EntryId;
    var lines := objs[..];
    ids := map[];
    var pos := 0;
    for i := 0 to objs.Length
      invariant ids == IdMap(lines[..i]) && pos == Entries(lines[..i])
    {
      PrefixStep(lines, i);
      if !objs[i].kind.Session? {
        pos := pos + 1;
        if objs[i].id.Str? {
          ids := ids[objs[i].id.text := EntryId(pos)];
        }
      }
    }
    assert lines[..objs.Length] == lines;
  }

  /** Pass 2, rewriting the objects in place. */
  method Rewrite(objs: array<Line>, ids: map<Text, Text>, o: Options) returns (problem: Option<Problem>)
    modifies objs
    ensures NormalLines(old(objs[..]), ids, o) == if problem.Some? then Err(problem.value) else Ok(objs[..])
  {
    hide NormalLine;
    ghost var lines := objs[..];
    var pos := 0;
    for i := 0 to objs.Length
      invariant pos == Entries(lines[..i]) && objs[i..] == lines[i..]
      invariant NormalLines(lines[..i], ids, o) == Ok(objs[..i])
    {
      PrefixStep(lines, i);
      assert objs[i] == objs[i..][0] == lines[i];
      if !objs[i].kind.Session? {
        pos := pos + 1;
      }
      var next := NormalLine(objs[i], pos, ids, o);
      if next.Err? {
        FailsEarly(lines, i + 1, ids, o);
        return Some(next.error);
      }
      ghost var done := objs[..i];
      objs[i] := next.value;
      assert objs[..i + 1] == done + [next.value];
      assert objs[i + 1..] == lines[i..][1..];
    }
    assert lines[..objs.Length] == lines && objs[..objs.Length] == objs[..];
    return None;
  }

  method Normalize(objs: array<Line>, o: Options) returns (problem: Option<Problem>)
    modifies objs
    ensures Normalized(old(objs[..]), o) == if problem.Some? then Err(problem.value) else Ok(objs[..])
  {
    var ids := CollectIds(objs);
    problem := Rewrite(objs, ids, o);
  }

  /** A line normalised at its own position. */
  function Each(lines: seq<Line>, i: nat, ids: map<Text, Text>, o: Options): Result<Line, Problem>
    requires i < |lines|
  {
    NormalLine(lines[i], Entries(lines[..i + 1]), ids, o)
  }

  /** The whole normalises exactly when every line does. */
  lemma {:induction false} LineByLine(lines: seq<Line>, ids: map<Text, Text>, o: Options)
    ensures NormalLines(lines, ids, o).Ok? <==> forall i :: 0 <= i < |lines| ==> Each(lines, i, ids, o).Ok?
    ensures NormalLines(lines, ids, o).Ok? ==>
              forall i :: 0 <= i < |lines| ==> Each(lines, i, ids, o) == Ok(NormalLines(lines, ids, o).value[i])
  {
    hide NormalLine;
    if lines != [] {
      var n := |lines| - 1;
      var front := lines[..n];
      LineByLine(front, ids, o);
      forall i | 0 <= i < n ensures Each(front, i, ids, o) == Each(lines, i, ids, o) {
        assert front[..i + 1] == lines[..i + 1];
      }
      assert lines[..n + 1] == lines;
      assert Each(lines, n, ids, o) == NormalLine(lines[n], Entries(lines), ids, o);
    }
  }

  lemma {:induction false} SameLines(lines: seq<Line>, out: seq<Line>, ids: map<Text, Text>, o: Options)
    requires |out| == |lines| && forall i :: 0 <= i < |lines| ==> Each(lines, i, ids, o) == Ok(out[i])
    ensures NormalLines(lines, ids, o) == Ok(out)
  {
    LineByLine(lines, ids, o);
    assert NormalLines(lines, ids, o).value == out;
  }

  // ----- the map of ids

  /** Where an entry with this id stands last, counting from 1 among the entries. */
  ghost predicate StandsLast(lines: seq<Line>, id: Text, i: nat) {
    && i < |lines| && !lines[i].kind.Session? && lines[i].id == Str(id)
    && forall j :: i < j < |lines| && !lines[j].kind.Session? ==> lines[j].id != Str(id)
  }

  lemma {:induction false} IdMapIsLast(lines: seq<Line>, id: Text)
    ensures id in IdMap(lines) <==> exists i :: 0 <= i < |lines| && !lines[i].kind.Session? && lines[i].id == Str(id)
    ensures id in IdMap(lines) ==>
              exists i :: StandsLast(lines, id, i) && IdMap(lines)[id] == EntryId(Entries(lines[..i + 1]))
  {
    hide EntryId;
    if lines != [] {
      var n := |lines| - 1;
      var front := lines[..n];
      IdMapIsLast(front, id);
      assert lines[..n + 1] == lines;
      if !lines[n].kind.Session? && lines[n].id == Str(id) {
        assert StandsLast(lines, id, n);
      } else {
        if id in IdMap(front) {
          var i: nat :| StandsLast(front, id, i) && IdMap(front)[id] == EntryId(Entries(front[..i + 1]));
          assert front[..i + 1] == lines[..i + 1] && front[i] == lines[i];
          assert StandsLast(lines, id, i);
        }
        forall i | 0 <= i < |lines| && !lines[i].kind.Session? && lines[i].id == Str(id) ensures id in IdMap(front) {
          assert front[i] == lines[i];
        }
      }
    }
  }

  lemma {:induction false} EntriesGrow(lines: seq<Line>, i: nat, j: nat)
    requires i < j < |lines| && !lines[j].kind.Session?
    ensures Entries(lines[..i + 1]) < Entries(lines[..j + 1])
  {
    PrefixStep(lines, j);
    if i + 1 < j {
      EntriesMonotone(lines, i + 1, j);
    }
  }

  lemma {:induction false} EntriesMonotone(lines: seq<Line>, i: nat, j: nat)
    requires i <= j <= |lines|
    ensures Entries(lines[..i]) <= Entries(lines[..j])
    decreases j
  {
    if i < j {
      PrefixStep(lines, j - 1);
      EntriesMonotone(lines, i, j - 1);
    }
  }

  /** Different ids get different new ids. */
  lemma IdMapIsInjective(lines: seq<Line>, a: Text, b: Text)
    requires a in IdMap(lines) && b in IdMap(lines) && IdMap(lines)[a] == IdMap(lines)[b]
    ensures a == b
  {
    IdMapIsLast(lines, a);
    IdMapIsLast(lines, b);
    var i :| StandsLast(lines, a, i) && IdMap(lines)[a] == EntryId(Entries(lines[..i + 1]));
    var j :| StandsLast(lines, b, j) && IdMap(lines)[b] == EntryId(Entries(lines[..j + 1]));
    EntryIdsDiffer(Entries(lines[..i + 1]), Entries(lines[..j + 1]));
    if i < j {
      EntriesGrow(lines, i, j);
    } else if j < i {
      EntriesGrow(lines, j, i);
    }
  }

  lemma NewIdsAreNotRoot(lines: seq<Line>, id: Text)
    requires id in IdMap(lines)
    ensures IdMap(lines)[id] != ROOT
  {
    IdMapIsLast(lines, id);
    var i :| StandsLast(lines, id, i) && IdMap(lines)[id] == EntryId(Entries(lines[..i + 1]));
    EntryIdsDiffer(0, Entries(lines[..i + 1]));
  }

  // ----- what normalising succeeds on, and what it keeps

  /** A line whose references resolve. */
  predicate Resolves(l: Line, ids: map<Text, Text>, o: Options) {
    if l.kind.Session? then l.parentSession.Str? ==> o.parentSession.Some?
    else !Dangles(l.parentId, ids) && !l.parentId.Other? && !Dangles(l.firstKept, ids) && !Dangles(l.target, ids)
  }

  /** It succeeds exactly when every parent, kept entry and target names an entry of the file. */
  lemma NormalizesIffResolves(lines: seq<Line>, o: Options)
    ensures Normalized(lines, o).Ok? <==> forall i :: 0 <= i < |lines| ==> Resolves(lines[i], IdMap(lines), o)
  {
    LineByLine(lines, IdMap(lines), o);
    forall i | 0 <= i < |lines| ensures Each(lines, i, IdMap(lines), o).Ok? <==> Resolves(lines[i], IdMap(lines), o) {
      if lines[i].id.Str? {
        IdMapIsLast(lines, lines[i].id.text);
      }
    }
  }

  /** The references of an entry: its parent, the first entry it keeps, its target. */
  function References(l: Line): seq<Field> {
    [l.parentId, l.firstKept, l.target]
  }

  /**
   The new ids relate the entries as the old ones did: a reference names an entry exactly
   when it did before, and so does an origin that is not the root.
   */
  lemma ReferencesAreKept(lines: seq<Line>, o: Options, i: nat, j: nat)
    requires Normalized(lines, o).Ok? && i < |lines| && j < |lines|
    requires !lines[i].kind.Session? && !lines[j].kind.Session? && lines[j].id.Str?
    ensures var out := Normalized(lines, o).value;
            && out[j].id.Str?
            && (out[i].id == out[j].id <==> lines[i].id == lines[j].id)
            && (forall r :: 0 <= r < 3 ==>
                  (References(out[i])[r] == out[j].id <==> References(lines[i])[r] == lines[j].id))
            && (lines[i].origin != Str(ROOT) ==> (out[i].origin == out[j].id <==> lines[i].origin == lines[j].id))
  {
    var ids := IdMap(lines);
    LineByLine(lines, ids, o);
    assert Each(lines, i, ids, o) == Ok(Normalized(lines, o).value[i]);
    assert Each(lines, j, ids, o) == Ok(Normalized(lines, o).value[j]);
    var id := lines[j].id.text;
    IdMapIsLast(lines, id);
    NewIdsAreNotRoot(lines, id);
    forall a | a in ids && ids[a] == ids[id] ensures a == id {
      IdMapIsInjective(lines, a, id);
    }
  }

  /** The ids a normalised prefix collects, under the map of the whole. */
  lemma {:induction false} IdMapOfNormal(lines: seq<Line>, out: seq<Line>, all: map<Text, Text>, n: nat)
    requires |out| == |lines| && n <= |lines|
    requires forall i :: 0 <= i < |lines| ==> out[i].kind == lines[i].kind
    requires forall i :: 0 <= i < |lines| && !lines[i].kind.Session? ==>
               out[i].id == Mapped(lines[i].id, all) && !Dangles(lines[i].id, all)
    requires forall a, b :: a in all && b in all && all[a] == all[b] ==> a == b
    ensures Entries(out[..n]) == Entries(lines[..n])
    ensures forall id :: id in IdMap(lines[..n]) ==> id in all
    ensures forall id :: id in all ==> (id in IdMap(lines[..n]) <==> all[id] in IdMap(out[..n]))
    ensures forall id :: id in IdMap(lines[..n]) ==> IdMap(out[..n])[all[id]] == IdMap(lines[..n])[id]
  {
    hide EntryId;
    if n > 0 {
      IdMapOfNormal(lines, out, all, n - 1);
      PrefixStep(lines, n - 1);
      PrefixStep(out, n - 1);
    }
  }

  lemma NormalLineFacts(l: Line, out: Line, pos: nat, ids: map<Text, Text>, o: Options)
    requires NormalLine(l, pos, ids, o) == Ok(out)
    ensures out.kind == l.kind && out.keptIndex == l.keptIndex && out.version == l.version
    ensures l.kind.Session? ==> out.id == Str(o.sessionId)
    ensures !l.kind.Session? ==>
              && out.id == Mapped(l.id, ids) && !Dangles(l.id, ids)
              && out.parentId == Mapped(l.parentId, ids) && out.firstKept == Mapped(l.firstKept, ids)
  {
  }

  lemma NormalFacts(lines: seq<Line>, o: Options)
    requires Normalized(lines, o).Ok?
    ensures var out, ids := Normalized(lines, o).value, IdMap(lines);
            && (forall i :: 0 <= i < |lines| ==> out[i].kind == lines[i].kind && Each(lines, i, ids, o) == Ok(out[i]))
            && (forall i :: 0 <= i < |lines| && !lines[i].kind.Session? ==>
                  out[i].id == Mapped(lines[i].id, ids) && !Dangles(lines[i].id, ids))
            && (forall a, b :: a in ids && b in ids && ids[a] == ids[b] ==> a == b)
  {
    hide NormalLine, IdMap, NormalLines, Mapped;
    var out, ids := Normalized(lines, o).value, IdMap(lines);
    LineByLine(lines, ids, o);
    forall i | 0 <= i < |lines|
      ensures out[i].kind == lines[i].kind
      ensures !lines[i].kind.Session? ==> out[i].id == Mapped(lines[i].id, ids) && !Dangles(lines[i].id, ids)
    {
      assert Each(lines, i, ids, o) == Ok(out[i]);
      NormalLineFacts(lines[i], out[i], Entries(lines[..i + 1]), ids, o);
    }
    forall a, b | a in ids && b in ids && ids[a] == ids[b] ensures a == b {
      IdMapIsInjective(lines, a, b);
    }
  }

  /** New ids are fixed points of the map that the normalised lines give. */
  lemma NormalIdsAreFixed(lines: seq<Line>, o: Options)
    requires Normalized(lines, o).Ok?
    ensures var out, ids := Normalized(lines, o).value, IdMap(lines);
            && (forall i :: 0 <= i <= |lines| ==> Entries(out[..i]) == Entries(lines[..i]))
            && (forall id :: id in ids ==> ids[id] in IdMap(out) && IdMap(out)[ids[id]] == ids[id])
  {
    var out, ids := Normalized(lines, o).value, IdMap(lines);
    NormalFacts(lines, o);
    forall i | 0 <= i <= |lines| ensures Entries(out[..i]) == Entries(lines[..i]) {
      IdMapOfNormal(lines, out, ids, i);
    }
    IdMapOfNormal(lines, out, ids, |lines|);
    assert lines[..|lines|] == lines && out[..|out|] == out;
  }

  lemma NormalLineIsFixed(l: Line, out: Line, pos: nat, ids: map<Text, Text>, next: map<Text, Text>, o: Options)
    requires NormalLine(l, pos, ids, o) == Ok(out)
    requires forall id :: id in ids ==> ids[id] in next && next[ids[id]] == ids[id] && ids[id] != ROOT
    ensures NormalLine(out, pos, next, o) == Ok(out)
  {
  }

  /** Normalising what was normalised changes nothing, whatever the file was. */
  lemma Idempotent(lines: seq<Line>, o: Options)
    requires Normalized(lines, o).Ok?
    ensures Normalized(Normalized(lines, o).value, o) == Normalized(lines, o)
  {
    hide NormalLine, EntryId;
    var out, ids := Normalized(lines, o).value, IdMap(lines);
    NormalFacts(lines, o);
    NormalIdsAreFixed(lines, o);
    forall id | id in ids ensures ids[id] != ROOT {
      NewIdsAreNotRoot(lines, id);
    }
    forall i | 0 <= i < |out| ensures Each(out, i, IdMap(out), o) == Ok(out[i]) {
      assert Each(lines, i, ids, o) == Ok(out[i]);
      NormalLineIsFixed(lines[i], out[i], Entries(lines[..i + 1]), ids, IdMap(out), o);
    }
    SameLines(out, out, IdMap(out), o);
  }

  // ----- validation

  const VERSION_2 := Other(Units("2"))
  const VERSION_3 := Other(Units("3"))

  /** The header a format version asks for. */
  predicate VersionFits(version: Field, format: nat) {
    if format == 1 then version == Absent else version == if format == 2 then VERSION_2 else VERSION_3
  }

  /** Format 1 has no version field, format 2 and 3 the number 2 and 3. */
  lemma VersionsFit(version: Field)
    ensures VersionFits(version, 1) <==> version == Absent
    ensures VersionFits(version, 2) <==> version == Other([0x32])
    ensures VersionFits(version, 3) <==> version == Other([0x33])
  {
    assert Units("2") == [0x32] && Units("3") == [0x33];
  }

  ghost predicate Named(lines: seq<Line>, f: Field) {
    f.Str? ==> exists j :: 0 < j < |lines| && lines[j].id == f
  }

  ghost predicate EntryValid(lines: seq<Line>, i: nat, iso: nat -> Text)
    requires i < |lines|
  {
    var l := lines[i];
    && (l.timestamp.Str? ==> l.timestamp.text == iso(i))
    && (l.id.Str? ==> l.id.text == EntryId(i) && forall j :: 0 < j < i ==> lines[j].id != l.id)
    && Named(lines, l.parentId) && Named(lines, l.firstKept) && Named(lines, l.target)
    && (l.origin != Str(ROOT) ==> Named(lines, l.origin))
  }

  /** The header, id, reference and timestamp checks of `validateFixture` from format 2 on. */
  ghost predicate Validates(lines: seq<Line>, sessionId: Text, format: nat, iso: nat -> Text) {
    && lines != [] && lines[0].kind.Session? && lines[0].id == Str(sessionId)
    && lines[0].timestamp == Str(iso(0)) && VersionFits(lines[0].version, format)
    && forall i :: 0 < i < |lines| ==> EntryValid(lines, i, iso)
  }

  /** One header and it comes first; entries that have ids have different ones. */
  ghost predicate WellShaped(lines: seq<Line>, format: nat) {
    && lines != [] && lines[0].kind.Session? && VersionFits(lines[0].version, format)
    && (forall i :: 0 < i < |lines| ==> !lines[i].kind.Session?)
    && (forall i, j :: 0 < i < j < |lines| && lines[i].id.Str? ==> lines[i].id != lines[j].id)
  }

  lemma {:induction false} OneHeaderCounts(lines: seq<Line>, i: nat)
    requires lines != [] && lines[0].kind.Session? && i < |lines|
    requires forall j :: 0 < j < |lines| ==> !lines[j].kind.Session?
    ensures Entries(lines[..i + 1]) == i
  {
    PrefixStep(lines, i);
    if i > 0 {
      OneHeaderCounts(lines, i - 1);
    } else {
      assert lines[..0] == [];
    }
  }

  lemma NormalReference(lines: seq<Line>, out: seq<Line>, ids: map<Text, Text>, f: Field)
    requires |out| == |lines| && lines != [] && lines[0].kind.Session? && ids == IdMap(lines)
    requires forall i :: 0 < i < |lines| ==> out[i].id == Mapped(lines[i].id, ids)
    requires !Dangles(f, ids)
    ensures Named(out, Mapped(f, ids))
  {
    if f.Str? {
      IdMapIsLast(lines, f.text);
      var j :| 0 <= j < |lines| && !lines[j].kind.Session? && lines[j].id == Str(f.text);
      assert out[j].id == Mapped(f, ids);
    }
  }

  lemma NormalEntryValid(lines: seq<Line>, o: Options, format: nat, i: nat)
    requires Normalized(lines, o).Ok? && WellShaped(lines, format) && 0 < i < |lines|
    ensures EntryValid(Normalized(lines, o).value, i, o.iso)
  {
    hide NormalLines, IdMap, EntryId;
    var out, ids := Normalized(lines, o).value, IdMap(lines);
    NormalFacts(lines, o);
    OneHeaderCounts(lines, i);
    assert Each(lines, i, ids, o) == Ok(out[i]);
    NormalReference(lines, out, ids, lines[i].parentId);
    NormalReference(lines, out, ids, lines[i].firstKept);
    NormalReference(lines, out, ids, lines[i].target);
    if !Dangles(lines[i].origin, ids) {
      NormalReference(lines, out, ids, lines[i].origin);
    }
    if lines[i].id.Str? {
      NormalIdIsNew(lines, o, format, i);
    }
  }

  lemma NormalIdIsNew(lines: seq<Line>, o: Options, format: nat, i: nat)
    requires Normalized(lines, o).Ok? && WellShaped(lines, format) && 0 < i < |lines| && lines[i].id.Str?
    ensures var out := Normalized(lines, o).value;
            out[i].id == Str(EntryId(i)) && forall j :: 0 < j < i ==> out[j].id != out[i].id
  {
    hide NormalLines, IdMap, EntryId, NormalLine, Each;
    var out, ids := Normalized(lines, o).value, IdMap(lines);
    NormalFacts(lines, o);
    OneHeaderCounts(lines, i);
    IdMapIsLast(lines, lines[i].id.text);
    var k :| StandsLast(lines, lines[i].id.text, k) && ids[lines[i].id.text] == EntryId(Entries(lines[..k + 1]));
    assert k == i;
    forall j | 0 < j < i ensures out[j].id != out[i].id {
      assert lines[j].id != lines[i].id;
    }
  }

  lemma NormalIdIsPosition(lines: seq<Line>, o: Options, format: nat, i: nat)
    requires Normalized(lines, o).Ok? && WellShaped(lines, format) && 0 < i < |lines| && lines[i].id.Str?
    ensures Normalized(lines, o).value[i].id == Str(EntryId(i))
  {
    hide NormalLine, EntryId, IdMap, NormalLines, Entries;
    NormalFacts(lines, o);
    NormalEntryValid(lines, o, format, i);
  }

  /**
   What comes out passes every id, reference and timestamp check exactly when what went in
   had one leading header of the right version and no two entries with one id.
   */
  lemma ValidatesIffWellShaped(lines: seq<Line>, o: Options, format: nat)
    requires Normalized(lines, o).Ok? && format >= 2 && forall j, k :: o.iso(j) == o.iso(k) ==> j == k
    ensures Validates(Normalized(lines, o).value, o.sessionId, format, o.iso) <==> WellShaped(lines, format)
  {
    var out, ids := Normalized(lines, o).value, IdMap(lines);
    NormalFacts(lines, o);
    if lines != [] {
      assert Each(lines, 0, ids, o) == Ok(out[0]);
    }
    if WellShaped(lines, format) {
      forall i | 0 < i < |out| ensures EntryValid(out, i, o.iso) {
        NormalEntryValid(lines, o, format, i);
      }
    }
    if Validates(out, o.sessionId, format, o.iso) {
      forall i | 0 < i < |lines| ensures !lines[i].kind.Session? {
        assert EntryValid(out, i, o.iso) && Each(lines, i, ids, o) == Ok(out[i]);
      }
      forall i, j | 0 < i < j < |lines| && lines[i].id.Str? ensures lines[i].id != lines[j].id {
        assert EntryValid(out, j, o.iso);
      }
    }
  }

  // ----- format 1

  datatype DowngradeProblem = NoKeptEntry | KeptNotFound

  /** The first line, header included, with this id. */
  function FirstIndex(lines: seq<Line>, id: Field): (r: Option<nat>)
    ensures r.Some? ==>
              r.value < |lines| && lines[r.value].id == id && forall j :: 0 <= j < r.value ==> lines[j].id != id
    ensures r.None? ==> forall j :: 0 <= j < |lines| ==> lines[j].id != id
  {
    if lines == [] then None
    else
      match FirstIndex(lines[..|lines| - 1], id)
      case Some(j) => Some(j)
      case None => if lines[|lines| - 1].id == id then Some(|lines| - 1) else None
  }

  /** A compaction gets the index of the first entry it keeps in place of its id. */
  function Indexed(l: Line, lines: seq<Line>): Result<Line, DowngradeProblem> {
    if !l.kind.Compaction? then Ok(l)
    else if !l.firstKept.Str? then Err(NoKeptEntry)
    else
      match FirstIndex(lines, l.firstKept)
      case None => Err(KeptNotFound)
      case Some(j) => Ok(l.(keptIndex := Some(j), firstKept := Absent))
  }

  function Stripped(l: Line): Line {
    if l.kind.Session? then l.(version := Absent) else l.(id := Absent, parentId := Absent)
  }

  /** The session without version, ids and parents. */
  ghost predicate DowngradesTo(lines: seq<Line>, out: seq<Line>) {
    && |out| == |lines|
    && forall i :: 0 <= i < |lines| ==>
                     Indexed(lines[i], lines).Ok? && out[i] == Stripped(Indexed(lines[i], lines).value)
  }

  /** The first line that has no index to get. */
  ghost predicate FailsAt(lines: seq<Line>, i: nat, problem: DowngradeProblem) {
    && i < |lines| && Indexed(lines[i], lines) == Err(problem)
    && forall k :: 0 <= k < i ==> Indexed(lines[k], lines).Ok?
  }

  /** Both loops: indices are computed before any id is stripped. */
  method DowngradeToV1(objs: array<Line>) returns (problem: Option<DowngradeProblem>)
    modifies objs
    ensures problem.None? ==> DowngradesTo(old(objs[..]), objs[..])
    ensures problem.Some? ==>
              exists i :: FailsAt(old(objs[..]), i, problem.value)
  {
    ghost var lines := objs[..];
    for i := 0 to objs.Length
      invariant forall k :: i <= k < objs.Length ==> objs[k] == lines[k]
      invariant forall k :: 0 <= k < i ==> Indexed(lines[k], lines) == Ok(objs[k])
    {
      var l := objs[i];
      if l.kind.Compaction? {
        if !l.firstKept.Str? {
          assert FailsAt(lines, i, NoKeptEntry);
          return Some(NoKeptEntry);
        }
        forall j | 0 <= j < objs.Length ensures objs[j].id == lines[j].id {
          IndexedKeepsId(lines[j], lines);
        }
        var found := FindId(objs, l.firstKept);
        if found == objs.Length {
          assert FailsAt(lines, i, KeptNotFound);
          return Some(KeptNotFound);
        }
        objs[i] := l.(keptIndex := Some(found), firstKept := Absent);
      }
    }
    for i := 0 to objs.Length
      invariant forall k :: i <= k < objs.Length ==> Indexed(lines[k], lines) == Ok(objs[k])
      invariant forall k :: 0 <= k < i ==>
                  Indexed(lines[k], lines).Ok? && objs[k] == Stripped(Indexed(lines[k], lines).value)
    {
      objs[i] := Stripped(objs[i]);
    }
    return None;
  }

  method FindId(objs: array<Line>, id: Field) returns (found: nat)
    ensures found <= objs.Length && forall j :: 0 <= j < found ==> objs[j].id != id
    ensures found < objs.Length ==> objs[found].id == id
  {
    found := 0;
    while found < objs.Length && objs[found].id != id
      invariant found <= objs.Length && forall j :: 0 <= j < found ==> objs[j].id != id
    {
      found := found + 1;
    }
  }

  lemma IndexedKeepsId(l: Line, lines: seq<Line>)
    ensures Indexed(l, lines).Ok? ==> Indexed(l, lines).value.id == l.id
  {
  }

  /**
   The index a compaction gets is the position of the entry it kept in the original session,
   unless the session id happens to be that entry's new id: then it is the header's.
   */
  lemma KeptIndexIsPosition(lines: seq<Line>, o: Options, format: nat, out: seq<Line>, i: nat, k: nat)
    requires Normalized(lines, o).Ok? && WellShaped(lines, format) && DowngradesTo(Normalized(lines, o).value, out)
    requires 0 < i < |lines| && lines[i].kind.Compaction?
    requires 0 < k < |lines| && lines[k].id.Str? && lines[k].id == lines[i].firstKept
    ensures Normalized(lines, o).value[k].id == Str(EntryId(k))
    ensures out[i].keptIndex == Some(k) <==> o.sessionId != EntryId(k)
    ensures out[i].keptIndex == Some(0) <==> o.sessionId == EntryId(k)
  {
    hide NormalLine, EntryId, IdMap, NormalLines, Entries;
    var normal, ids := Normalized(lines, o).value, IdMap(lines);
    NormalFacts(lines, o);
    NormalLineFacts(lines[0], normal[0], Entries(lines[..1]), ids, o);
    NormalLineFacts(lines[i], normal[i], Entries(lines[..i + 1]), ids, o);
    assert Indexed(normal[i], normal).Ok?;
    NormalIdIsPosition(lines, o, format, k);
    forall j | 0 < j < |lines| && j != k ensures normal[j].id != normal[k].id {
      if lines[j].id.Str? {
        NormalIdIsPosition(lines, o, format, j);
        EntryIdsDiffer(j, k);
      }
    }
  }

  const A: Text := [0x61]
  const B: Text := [0x62]

  /** A header, a message, and a compaction that keeps the message. */
  const EXAMPLE: seq<Line> :=
    [Line(Session, Absent, Absent, Absent, Absent, Absent, VERSION_3, Absent, Absent, Absent, None, None, []),
     Line(Message, Str(A), Null, Absent, Absent, Absent, Absent, Absent, Absent, Absent, None, None, []),
     Line(Compaction, Str(B), Str(A), Absent, Absent, Absent, Absent, Str(A), Absent, Absent, None, None, [])]

  lemma ExampleResolves(o: Options)
    ensures forall i :: 0 <= i < |EXAMPLE| ==> Resolves(EXAMPLE[i], IdMap(EXAMPLE), o)
  {
  }

  /** With the new id of the message as session id, the compaction points at the header instead. */
  lemma KeptIndexOfHeader(iso: nat -> Text) returns (out: seq<Line>)
    ensures var o := Options(EntryId(1), [], None, iso);
            && Normalized(EXAMPLE, o).Ok? && DowngradesTo(Normalized(EXAMPLE, o).value, out)
            && EXAMPLE[2].firstKept == EXAMPLE[1].id && out[2].keptIndex == Some(0)
  {
    hide EntryId, IdMap, NormalLines, Normalized, Entries, Each, Mapped, NormalLine, Dangles;
    var o := Options(EntryId(1), [], None, iso);
    assert Normalized(EXAMPLE, o).Ok? by {
      ExampleResolves(o);
      NormalizesIffResolves(EXAMPLE, o);
    }
    var normal := Normalized(EXAMPLE, o).value;
    assert WellShaped(EXAMPLE, 3);
    ReferencesAreKept(EXAMPLE, o, 2, 1);
    assert References(EXAMPLE[2])[1] == EXAMPLE[1].id && References(normal[2])[1] == normal[1].id;
    NormalFacts(EXAMPLE, o);
    assert FirstIndex(normal, normal[2].firstKept).Some?;
    out := seq(3, i requires 0 <= i < 3 =>
      if i < 2 then Stripped(normal[i]) else Stripped(Indexed(normal[2], normal).value));
    KeptIndexIsPosition(EXAMPLE, o, 3, out, 2, 1);
  }

  /** A session of format 3 in normal form in which each entry continues the one before it. */
  ghost predicate Linear(lines: seq<Line>) {
    && lines != [] && lines[0].kind.Session? && lines[0].version == VERSION_3
    && (forall i :: 0 <= i < |lines| ==> lines[i].keptIndex == None)
    && forall i :: 0 < i < |lines| ==> Continues(lines[i], i)
  }

  ghost predicate Continues(l: Line, i: nat)
    requires i > 0
  {
    !l.kind.Session? && l.id == Str(EntryId(i)) && l.parentId == if i == 1 then Null else Str(EntryId(i - 1))
  }

  /** Linear sessions with one downgrade are one session: nothing that it strips is lost. */
  lemma DowngradeIsInjective(xs: seq<Line>, ys: seq<Line>, out: seq<Line>)
    requires Linear(xs) && Linear(ys) && DowngradesTo(xs, out) && DowngradesTo(ys, out)
    ensures xs == ys
  {
  }

  /** A session whose entries each continue the one before it, before normalising. */
  ghost predicate LinearRaw(lines: seq<Line>) {
    && WellShaped(lines, 3)
    && (forall i :: 0 <= i < |lines| ==> lines[i].keptIndex == None)
    && forall i :: 0 < i < |lines| ==> lines[i].id.Str? && lines[i].parentId == if i == 1 then Null else lines[i - 1].id
  }

  lemma LinearNormalizes(lines: seq<Line>, o: Options)
    requires LinearRaw(lines) && Normalized(lines, o).Ok?
    ensures Linear(Normalized(lines, o).value)
  {
    hide NormalLine, EntryId, IdMap, NormalLines, EntryValid;
    var out, ids := Normalized(lines, o).value, IdMap(lines);
    NormalFacts(lines, o);
    forall i | 0 <= i < |lines| ensures out[i].keptIndex == None && (i == 0 ==> out[i].version == VERSION_3) {
      NormalLineFacts(lines[i], out[i], Entries(lines[..i + 1]), ids, o);
    }
    forall i | 0 < i < |lines|
      ensures Continues(out[i], i)
    {
      NormalLineFacts(lines[i], out[i], Entries(lines[..i + 1]), ids, o);
      NormalIdIsPosition(lines, o, 3, i);
      if i > 1 {
        NormalIdIsPosition(lines, o, 3, i - 1);
      }
    }
  }

  // ----- the fields that arrive and the fields that go

  /** A header is given the placeholders and the base instant, and keeps all else. */
  lemma HeadersAreFilled(lines: seq<Line>, o: Options, i: nat)
    requires Normalized(lines, o).Ok? && i < |lines| && lines[i].kind.Session?
    ensures var l, out := lines[i], Normalized(lines, o).value[i];
            && out.id == Str(o.sessionId) && out.timestamp == Str(o.iso(0))
            && out.cwd == (if l.cwd.Str? then Str(o.cwd) else l.cwd)
            && (l.parentSession.Str? ==> o.parentSession.Some? && out.parentSession == Str(o.parentSession.value))
            && (!l.parentSession.Str? ==> out.parentSession == l.parentSession)
            && out == l.(id := out.id, timestamp := out.timestamp, cwd := out.cwd, parentSession := out.parentSession)
  {
    hide Entries, IdMap;
    NormalFacts(lines, o);
    assert Each(lines, i, IdMap(lines), o) == Ok(Normalized(lines, o).value[i]);
  }

  /**
   An entry is given the instant of its position, as its timestamp and as the time of its message if it has one;
   a branch whose origin is not in the file comes from the root; what is no reference stays as it is.
   */
  lemma EntriesAreTimed(lines: seq<Line>, o: Options, format: nat, i: nat)
    requires Normalized(lines, o).Ok? && WellShaped(lines, format) && 0 < i < |lines|
    ensures var l, out := lines[i], Normalized(lines, o).value[i];
            && out.timestamp == Str(o.iso(i))
            && out.messageTime == (if l.kind.Message? && l.messageTime.Some? then Some(1_735_689_600_000 + 1000 * i)
                                   else l.messageTime)
            && (l.origin.Str? && (forall j :: 0 < j < |lines| ==> lines[j].id != l.origin) ==>
                  out.origin == Str([0x72, 0x6f, 0x6f, 0x74]))
            && (!l.id.Str? ==> out.id == l.id) && (!l.parentId.Str? ==> out.parentId == l.parentId)
            && (!l.firstKept.Str? ==> out.firstKept == l.firstKept) && (!l.target.Str? ==> out.target == l.target)
            && (!l.origin.Str? || l.origin == Str([0x72, 0x6f, 0x6f, 0x74]) ==> out.origin == l.origin)
            && out == l.(id := out.id, parentId := out.parentId, timestamp := out.timestamp, firstKept := out.firstKept,
                         target := out.target, origin := out.origin, messageTime := out.messageTime)
  {
    hide IdMap, EntryId, NormalLines;
    var ids, l := IdMap(lines), lines[i];
    NormalFacts(lines, o);
    OneHeaderCounts(lines, i);
    assert Each(lines, i, ids, o) == Ok(Normalized(lines, o).value[i]);
    if l.origin.Str? {
      IdMapIsLast(lines, l.origin.text);
    }
  }

  /** What the downgrade makes of a line: the header loses its version, an entry its ids, a compaction its kept id. */
  lemma DowngradeStrips(lines: seq<Line>, out: seq<Line>, i: nat)
    requires DowngradesTo(lines, out) && i < |lines|
    ensures lines[i].kind.Session? ==> out[i] == lines[i].(version := Absent)
    ensures !lines[i].kind.Session? && !lines[i].kind.Compaction? ==>
              out[i] == lines[i].(id := Absent, parentId := Absent)
    ensures lines[i].kind.Compaction? ==>
              exists j: nat ::
                && j < |lines| && lines[j].id == lines[i].firstKept
                && (forall k :: 0 <= k < j ==> lines[k].id != lines[i].firstKept)
                && out[i] == lines[i].(id := Absent, parentId := Absent, firstKept := Absent, keptIndex := Some(j))
  {
    hide FirstIndex;
    assert Indexed(lines[i], lines).Ok? && out[i] == Stripped(Indexed(lines[i], lines).value);
    if lines[i].kind.Compaction? {
      var j := FirstIndex(lines, lines[i].firstKept).value;
      assert lines[j].id == lines[i].firstKept;
    }
  }

  /** A session can be downgraded exactly when every compaction names a line of it as the first that it keeps. */
  lemma DowngradesIff(lines: seq<Line>)
    ensures (exists out :: DowngradesTo(lines, out)) <==>
            forall i :: 0 <= i < |lines| && lines[i].kind.Compaction? ==>
                          lines[i].firstKept.Str? && exists j :: 0 <= j < |lines| && lines[j].id == lines[i].firstKept
  {
    hide FirstIndex;
    if forall i :: 0 <= i < |lines| && lines[i].kind.Compaction? ==>
                     lines[i].firstKept.Str? && exists j :: 0 <= j < |lines| && lines[j].id == lines[i].firstKept {
      forall i | 0 <= i < |lines| ensures Indexed(lines[i], lines).Ok? {
        if lines[i].kind.Compaction? {
          assert FirstIndex(lines, lines[i].firstKept).Some?;
        }
      }
      var out := seq(|lines|, i requires 0 <= i < |lines| => Stripped(Indexed(lines[i], lines).value));
      assert DowngradesTo(lines, out);
    }
    if out :| DowngradesTo(lines, out) {
      forall i | 0 <= i < |lines| && lines[i].kind.Compaction?
        ensures lines[i].firstKept.Str? && exists j :: 0 <= j < |lines| && lines[j].id == lines[i].firstKept
      {
        assert Indexed(lines[i], lines).Ok?;
        assert lines[FirstIndex(lines, lines[i].firstKept).value].id == lines[i].firstKept;
      }
    }
  }
}
