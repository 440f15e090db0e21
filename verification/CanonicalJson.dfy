/**
 Canonical JSON: sorted keys, no whitespace, members that are undefined dropped.
 */
module CanonicalJson {

  /*
   A finite number is identified with its JSON literal, which is foreign code's rendering of it.
   */

  import opened Prelude
  import opened Ordering

  const OPEN_LIST: CodeUnit := 0x5b
  const CLOSE_LIST: CodeUnit := 0x5d
  const OPEN_OBJECT: CodeUnit := 0x7b
  const CLOSE_OBJECT: CodeUnit := 0x7d
  const NULL: Text := [0x6e, 0x75, 0x6c, 0x6c]
  const TRUE: Text := [0x74, 0x72, 0x75, 0x65]
  const FALSE: Text := [0x66, 0x61, 0x6c, 0x73, 0x65]

  predicate IsNumeric(u: CodeUnit) {
    0x30 <= u <= 0x39 || u == 0x2b || u == 0x2d || u == 0x2e || u == 0x45 || u == 0x65
  }

  predicate IsLiteral(t: Text) {
    t != [] && (0x30 <= t[0] <= 0x39 || t[0] == 0x2d) && forall i :: 0 <= i < |t| ==> IsNumeric(t[i])
  }

  /** The literal of a finite number. */
  type Literal = t: Text | IsLiteral(t) witness [0x30]

  /** A JavaScript value as `canonicalJson` meets it; members are in insertion order. */
  datatype Value =
    | Undefined
    | Null
    | Bool(truth: bool)
    | NotFinite
    | Number(literal: Literal)
    | String(text: Text)
    | List(items: seq<Value>)
    | Object(members: seq<Member>)

  datatype Member = Member(key: Text, value: Value)

  /** What a value says as JSON: members in no order, the undefined ones gone. */
  datatype Json =
    | JNull
    | JBool(truth: bool)
    | JNumber(literal: Literal)
    | JString(text: Text)
    | JList(items: seq<Json>)
    | JObject(members: map<Text, Json>)

  function Meaning(v: Value): Json {
    match v
    case Undefined => JNull
    case Null => JNull
    case Bool(b) => JBool(b)
    case NotFinite => JNull
    case Number(n) => JNumber(n)
    case String(t) => JString(t)
    case List(items) => JList(MeaningAll(items))
    case Object(members) => JObject(MeaningMembers(members))
  }

  function MeaningAll(items: seq<Value>): (r: seq<Json>)
    ensures |r| == |items|
  {
    if items == [] then [] else [Meaning(items[0])] + MeaningAll(items[1..])
  }

  function MeaningMembers(members: seq<Member>): map<Text, Json> {
    if members == [] then map[]
    else
      var rest := MeaningMembers(members[1..]);
      if members[0].value.Undefined? then rest else rest[members[0].key := Meaning(members[0].value)]
  }

  /** Every object has distinct keys, as every JavaScript object does. */
  ghost predicate WellFormed(v: Value) {
    match v
    case List(items) => AllWellFormed(items)
    case Object(members) => MembersWellFormed(members)
    case _ => true
  }

  ghost predicate AllWellFormed(items: seq<Value>) {
    items == [] || (WellFormed(items[0]) && AllWellFormed(items[1..]))
  }

  ghost predicate MembersWellFormed(members: seq<Member>) {
    members == [] ||
    (WellFormed(members[0].value) && MembersWellFormed(members[1..]) && members[0].key !in KeysIn(members[1..]))
  }

  ghost function KeysIn(members: seq<Member>): set<Text> {
    set m | m in members :: m.key
  }

  // ----- strings

  function HexDigit(n: nat): CodeUnit
    requires n < 16
  {
    if n < 10 then 0x30 + n else 0x57 + n
  }

  /** A backslash, the letter u and four hexadecimal digits. */
  function UnicodeEscape(u: CodeUnit): Text {
    [BACKSLASH, 0x75, HexDigit(u / 0x1000), HexDigit(u / 0x100 % 16), HexDigit(u / 16 % 16), HexDigit(u % 16)]
  }

  function EscapeUnit(u: CodeUnit): (e: Text)
    ensures |e| > 0
  {
    if u == QUOTE || u == BACKSLASH then [BACKSLASH, u]
    else if u == 0x08 then [BACKSLASH, 0x62]
    else if u == 0x09 then [BACKSLASH, 0x74]
    else if u == 0x0a then [BACKSLASH, 0x6e]
    else if u == 0x0c then [BACKSLASH, 0x66]
    else if u == 0x0d then [BACKSLASH, 0x72]
    else if u < 0x20 || 0xd800 <= u < 0xe000 then UnicodeEscape(u)
    else [u]
  }

  predicate IsPair(t: Text) {
    |t| > 1 && 0xd800 <= t[0] < 0xdc00 && 0xdc00 <= t[1] < 0xe000
  }

  /** The inside of a JSON string: surrogate pairs stand as they are, lone surrogates are escaped. */
  function Escaped(t: Text): Text {
    if t == [] then []
    else if IsPair(t) then [t[0], t[1]] + Escaped(t[2..])
    else EscapeUnit(t[0]) + Escaped(t[1..])
  }

  function Quoted(t: Text): Text {
    [QUOTE] + Escaped(t) + [QUOTE]
  }

  // ----- values

  /** One member of an object, rendered. */
  datatype Line = Line(key: Text, text: Text)

  function KeyOf(l: Line): Text {
    l.key
  }

  function TextOf(v: Value): Text {
    match v
    case Undefined => NULL
    case Null => NULL
    case NotFinite => NULL
    case Bool(b) => if b then TRUE else FALSE
    case Number(n) => n
    case String(t) => Quoted(t)
    case List(items) => [OPEN_LIST] + ItemsText(items) + [CLOSE_LIST]
    case Object(members) => [OPEN_OBJECT] + LinesText(SortBy(KeyOf, Lines(members))) + [CLOSE_OBJECT]
  }

  /** Items rendered and joined with commas. */
  function ItemsText(items: seq<Value>): Text {
    if items == [] then []
    else if |items| == 1 then TextOf(items[0])
    else TextOf(items[0]) + [COMMA] + ItemsText(items[1..])
  }

  function LineOf(m: Member): Line {
    Line(m.key, Quoted(m.key) + [COLON] + TextOf(m.value))
  }

  /** The defined members, rendered; `RenderThenSort` shows that they may be sorted before or after. */
  function Lines(members: seq<Member>): seq<Line> {
    if members == [] then []
    else if members[0].value.Undefined? then Lines(members[1..])
    else [LineOf(members[0])] + Lines(members[1..])
  }

  function LinesText(lines: seq<Line>): Text {
    if lines == [] then []
    else if |lines| == 1 then lines[0].text
    else lines[0].text + [COMMA] + LinesText(lines[1..])
  }

  // ----- reading JSON back

  datatype Read<T> = Read(value: T, rest: Text)

  function HexValue(u: CodeUnit): Option<nat> {
    if 0x30 <= u <= 0x39 then Some(u - 0x30) else if 0x61 <= u <= 0x66 then Some(u - 0x57) else None
  }

  /** The unit a backslash and what follows it stand for. */
  function ReadEscape(t: Text): (r: Option<Read<CodeUnit>>)
    ensures r.Some? ==> |r.value.rest| < |t|
  {
    if t == [] then None
    else if t[0] == QUOTE || t[0] == BACKSLASH then Some(Read(t[0], t[1..]))
    else if t[0] == 0x62 then Some(Read(0x08, t[1..]))
    else if t[0] == 0x74 then Some(Read(0x09, t[1..]))
    else if t[0] == 0x6e then Some(Read(0x0a, t[1..]))
    else if t[0] == 0x66 then Some(Read(0x0c, t[1..]))
    else if t[0] == 0x72 then Some(Read(0x0d, t[1..]))
    else if t[0] == 0x75 && |t| >= 5 then
      var a, b, c, d := HexValue(t[1]), HexValue(t[2]), HexValue(t[3]), HexValue(t[4]);
      if a.Some? && b.Some? && c.Some? && d.Some? && a.value < 16 && b.value < 16 && c.value < 16 && d.value < 16 then
        Some(Read(0x1000 * a.value + 0x100 * b.value + 16 * c.value + d.value, t[5..]))
      else None
    else None
  }

  /** The rest of a string after its opening quote. */
  function ReadString(t: Text): (r: Option<Read<Text>>)
    ensures r.Some? ==> |r.value.rest| < |t|
    decreases |t|
  {
    if t == [] then None
    else if t[0] == QUOTE then Some(Read([], t[1..]))
    else
      var unit := if t[0] == BACKSLASH then ReadEscape(t[1..]) else Some(Read(t[0], t[1..]));
      if unit.None? then None
      else
        match ReadString(unit.value.rest)
        case None => None
        case Some(Read(text, rest)) => Some(Read([unit.value.value] + text, rest))
  }

  /** The longest run of units a number may consist of. */
  function Numeric(t: Text): (n: nat)
    ensures n <= |t| && forall i :: 0 <= i < n ==> IsNumeric(t[i])
    ensures n < |t| ==> !IsNumeric(t[n])
  {
    if t == [] || !IsNumeric(t[0]) then 0 else 1 + Numeric(t[1..])
  }

  function ReadValue(t: Text): (r: Option<Read<Json>>)
    ensures r.Some? ==> |r.value.rest| < |t|
    decreases |t|, 0
  {
    if t == [] then None
    else if NULL <= t then Some(Read(JNull, t[4..]))
    else if TRUE <= t then Some(Read(JBool(true), t[4..]))
    else if FALSE <= t then Some(Read(JBool(false), t[5..]))
    else if t[0] == QUOTE then
      match ReadString(t[1..])
      case None => None
      case Some(Read(text, rest)) => Some(Read(JString(text), rest))
    else if t[0] == OPEN_LIST then
      if |t| > 1 && t[1] == CLOSE_LIST then Some(Read(JList([]), t[2..]))
      else
        match ReadItems(t[1..])
        case None => None
        case Some(Read(items, rest)) => Some(Read(JList(items), rest))
    else if t[0] == OPEN_OBJECT then
      if |t| > 1 && t[1] == CLOSE_OBJECT then Some(Read(JObject(map[]), t[2..]))
      else
        match ReadMembers(t[1..])
        case None => None
        case Some(Read(members, rest)) => Some(Read(JObject(members), rest))
    else
      var n := Numeric(t);
      if IsLiteral(t[..n]) then Some(Read(JNumber(t[..n]), t[n..])) else None
  }

  /** Items up to the closing bracket. */
  function ReadItems(t: Text): (r: Option<Read<seq<Json>>>)
    ensures r.Some? ==> |r.value.rest| < |t|
    decreases |t|, 1
  {
    match ReadValue(t)
    case None => None
    case Some(Read(item, rest)) =>
      if rest == [] then None
      else if rest[0] == CLOSE_LIST then Some(Read([item], rest[1..]))
      else if rest[0] == COMMA then
        match ReadItems(rest[1..])
        case None => None
        case Some(Read(items, rest)) => Some(Read([item] + items, rest))
      else None
  }

  datatype Pair = Pair(key: Text, value: Json)

  function ReadMember(t: Text): (r: Option<Read<Pair>>)
    ensures r.Some? ==> |r.value.rest| < |t|
    decreases |t|, 0
  {
    if t == [] || t[0] != QUOTE then None
    else
      match ReadString(t[1..])
      case None => None
      case Some(Read(key, rest)) =>
        if rest == [] || rest[0] != COLON then None
        else
          match ReadValue(rest[1..])
          case None => None
          case Some(Read(value, rest)) => Some(Read(Pair(key, value), rest))
  }

  /** Members up to the closing brace; of two with one key the later one counts. */
  function ReadMembers(t: Text): (r: Option<Read<map<Text, Json>>>)
    ensures r.Some? ==> |r.value.rest| < |t|
    decreases |t|, 1
  {
    match ReadMember(t)
    case None => None
    case Some(Read(Pair(key, value), rest)) =>
      if rest == [] then None
      else if rest[0] == CLOSE_OBJECT then Some(Read(map[key := value], rest[1..]))
      else if rest[0] == COMMA then
        match ReadMembers(rest[1..])
        case None => None
        case Some(Read(members, rest)) => Some(Read(map[key := value] + members, rest))
      else None
  }

  // ----- what is written reads back

  lemma UnicodeReads(u: CodeUnit, more: Text)
    ensures ReadEscape(UnicodeEscape(u)[1..] + more) == Some(Read(u, more))
  {
    var t := UnicodeEscape(u)[1..] + more;
    assert t[5..] == more;
    assert u / 0x1000 < 16 && 0x1000 * (u / 0x1000) + 0x100 * (u / 0x100 % 16) + 16 * (u / 16 % 16) + u % 16 == u by {
      assert u / 0x1000 == u / 0x100 / 16 && u / 0x100 == u / 16 / 16;
    }
  }

  /** One unit read from its escape. */
  lemma UnitReads(u: CodeUnit, more: Text)
    ensures var t := EscapeUnit(u) + more;
            && t[0] != QUOTE
            && (if t[0] == BACKSLASH then ReadEscape(t[1..]) else Some(Read(t[0], t[1..]))) == Some(Read(u, more))
  {
    var t := EscapeUnit(u) + more;
    assert t[1..] == EscapeUnit(u)[1..] + more;
    if EscapeUnit(u) == UnicodeEscape(u) {
      UnicodeReads(u, more);
    }
  }

  function PrependUnit(u: CodeUnit, r: Option<Read<Text>>): Option<Read<Text>> {
    match r
    case None => None
    case Some(Read(text, rest)) => Some(Read([u] + text, rest))
  }

  lemma StringStep(u: CodeUnit, more: Text)
    ensures ReadString(EscapeUnit(u) + more) == PrependUnit(u, ReadString(more))
    ensures u != QUOTE && u != BACKSLASH ==> ReadString([u] + more) == PrependUnit(u, ReadString(more))
  {
    hide EscapeUnit, ReadEscape;
    UnitReads(u, more);
    assert ([u] + more)[1..] == more;
  }

  lemma StringEnds(rest: Text)
    ensures ReadString([QUOTE] + rest) == Some(Read([], rest))
  {
  }

  /** A string reads back from its escapes, whatever its units. */
  lemma {:induction false} StringReadsBack(t: Text, rest: Text)
    ensures ReadString(Escaped(t) + [QUOTE] + rest) == Some(Read(t, rest))
    decreases |t|
  {
    hide ReadString, ReadEscape, EscapeUnit;
    if t == [] {
      assert Escaped(t) + [QUOTE] + rest == [QUOTE] + rest;
      StringEnds(rest);
    } else if IsPair(t) {
      StringReadsBack(t[2..], rest);
      var more := Escaped(t[2..]) + [QUOTE] + rest;
      assert Escaped(t) + [QUOTE] + rest == [t[0]] + ([t[1]] + more);
      StringStep(t[0], [t[1]] + more);
      StringStep(t[1], more);
      assert [t[0]] + ([t[1]] + t[2..]) == t;
    } else {
      StringReadsBack(t[1..], rest);
      var more := Escaped(t[1..]) + [QUOTE] + rest;
      assert Escaped(t) + [QUOTE] + rest == EscapeUnit(t[0]) + more;
      StringStep(t[0], more);
      assert [t[0]] + t[1..] == t;
    }
  }

  /** What may follow a value. */
  predicate Ends(rest: Text) {
    rest == [] || rest[0] == COMMA || rest[0] == CLOSE_LIST || rest[0] == CLOSE_OBJECT
  }

  /** The text of a value never looks like the end of a list or an object. */
  lemma FirstUnit(v: Value)
    ensures TextOf(v) != [] && TextOf(v)[0] != CLOSE_LIST && TextOf(v)[0] != CLOSE_OBJECT
  {
  }

  lemma {:induction false} NumericRun(n: Text, rest: Text)
    requires (forall i :: 0 <= i < |n| ==> IsNumeric(n[i])) && Ends(rest)
    ensures Numeric(n + rest) == |n|
  {
    if n == [] {
      assert n + rest == rest;
    } else {
      NumericRun(n[1..], rest);
      assert (n + rest)[1..] == n[1..] + rest;
    }
  }

  lemma NumberReadsBack(n: Literal, rest: Text)
    requires Ends(rest)
    ensures ReadValue(n + rest) == Some(Read(JNumber(n), rest))
  {
    var t := n + rest;
    NumericRun(n, rest);
    assert t[0] == n[0] && t[..|n|] == n && t[|n|..] == rest;
  }

  lemma QuotedReadsBack(text: Text, rest: Text)
    ensures ReadValue(Quoted(text) + rest) == Some(Read(JString(text), rest))
    ensures (Quoted(text) + rest)[0] == QUOTE && ReadString((Quoted(text) + rest)[1..]) == Some(Read(text, rest))
  {
    hide ReadString, Escaped;
    var t := Quoted(text) + rest;
    assert t[1..] == Escaped(text) + [QUOTE] + rest;
    StringReadsBack(text, rest);
  }

  lemma KeywordsReadBack(rest: Text)
    ensures ReadValue(NULL + rest) == Some(Read(JNull, rest))
    ensures ReadValue(TRUE + rest) == Some(Read(JBool(true), rest))
    ensures ReadValue(FALSE + rest) == Some(Read(JBool(false), rest))
  {
    assert (NULL + rest)[4..] == rest && (TRUE + rest)[4..] == rest && (FALSE + rest)[5..] == rest;
    assert (NULL + rest)[..4] == NULL && (TRUE + rest)[..4] == TRUE && (FALSE + rest)[..5] == FALSE;
    assert NULL[0] != TRUE[0] && NULL[0] != FALSE[0] && TRUE[0] != FALSE[0];
    assert (TRUE + rest)[0] == TRUE[0] && (FALSE + rest)[0] == FALSE[0];
  }

  lemma PlainReadsBack(v: Value, rest: Text)
    requires Ends(rest) && !v.List? && !v.Object?
    ensures ReadValue(TextOf(v) + rest) == Some(Read(Meaning(v), rest))
  {
    hide ReadValue;
    match v
    case Number(n) => NumberReadsBack(n, rest);
    case String(t) => QuotedReadsBack(t, rest);
    case _ => KeywordsReadBack(rest);
  }

  function Open<T>(r: Option<Read<T>>, build: T -> Json): Option<Read<Json>> {
    match r
    case None => None
    case Some(Read(value, rest)) => Some(Read(build(value), rest))
  }

  lemma Bracketed(open: CodeUnit, body: Text, close: CodeUnit, rest: Text)
    ensures var t := [open] + body + [close] + rest;
            && |t| > 1 && t[0] == open && t[1..] == body + [close] + rest
            && (if body == [] then t[1] == close && t[2..] == rest else t[1] == body[0])
  {
  }

  /** Reading a list or an object that is not empty. */
  lemma OpensBracket(t: Text)
    requires |t| > 1
    ensures t[0] == OPEN_LIST && t[1] != CLOSE_LIST ==> ReadValue(t) == Open(ReadItems(t[1..]), items => JList(items))
    ensures t[0] == OPEN_OBJECT && t[1] != CLOSE_OBJECT ==>
              ReadValue(t) == Open(ReadMembers(t[1..]), members => JObject(members))
    ensures t[0] == OPEN_LIST && t[1] == CLOSE_LIST ==> ReadValue(t) == Some(Read(JList([]), t[2..]))
    ensures t[0] == OPEN_OBJECT && t[1] == CLOSE_OBJECT ==> ReadValue(t) == Some(Read(JObject(map[]), t[2..]))
  {
  }

  lemma ItemsStep(t: Text, item: Json, more: Text)
    ensures ReadValue(t) == Some(Read(item, [CLOSE_LIST] + more)) ==> ReadItems(t) == Some(Read([item], more))
    ensures forall items, rest ::
              ReadValue(t) == Some(Read(item, [COMMA] + more)) && ReadItems(more) == Some(Read(items, rest)) ==>
                ReadItems(t) == Some(Read([item] + items, rest))
  {
  }

  lemma MembersStep(t: Text, key: Text, value: Json, more: Text)
    ensures ReadMember(t) == Some(Read(Pair(key, value), [CLOSE_OBJECT] + more)) ==>
              ReadMembers(t) == Some(Read(map[key := value], more))
    ensures forall members, rest ::
              ReadMember(t) == Some(Read(Pair(key, value), [COMMA] + more))
                  && ReadMembers(more) == Some(Read(members, rest)) ==>
                ReadMembers(t) == Some(Read(map[key := value] + members, rest))
  {
  }

  /**
   Reading the text of a value gives what the value says and leaves what follows it: the text
   determines the value, up to the order of members and to members that are undefined.
   */
  lemma {:induction false} ReadsBack(v: Value, rest: Text)
    requires WellFormed(v) && Ends(rest)
    ensures ReadValue(TextOf(v) + rest) == Some(Read(Meaning(v), rest))
    decreases v, 1
  {
    match v
    case List(items) => ListReadsBack(items, rest);
    case Object(members) =>
      MembersSpell(members);
      ObjectReadsBack(members, rest);
    case _ => PlainReadsBack(v, rest);
  }

  lemma {:induction false} ListReadsBack(items: seq<Value>, rest: Text)
    requires AllWellFormed(items)
    ensures ReadValue(TextOf(List(items)) + rest) == Some(Read(JList(MeaningAll(items)), rest))
    decreases items, 2
  {
    hide ReadValue, ReadItems;
    Bracketed(OPEN_LIST, ItemsText(items), CLOSE_LIST, rest);
    OpensBracket(TextOf(List(items)) + rest);
    if items != [] {
      ItemsReadBack(items, rest);
      ItemsStart(items);
    }
  }

  lemma ItemsStart(items: seq<Value>)
    ensures ItemsText(items) == [] <==> items == []
    ensures items != [] ==> ItemsText(items)[0] != CLOSE_LIST
  {
  }

  lemma {:induction false} ItemsReadBack(items: seq<Value>, rest: Text)
    requires items != [] && AllWellFormed(items)
    ensures ReadItems(ItemsText(items) + [CLOSE_LIST] + rest) == Some(Read(MeaningAll(items), rest))
    decreases items, 1
  {
    hide ReadValue, ReadItems;
    var t := ItemsText(items) + [CLOSE_LIST] + rest;
    if |items| == 1 {
      ItemsStep(t, Meaning(items[0]), rest);
      ReadsBack(items[0], [CLOSE_LIST] + rest);
      assert TextOf(items[0]) + [CLOSE_LIST] + rest == TextOf(items[0]) + ([CLOSE_LIST] + rest);
      assert items[1..] == [] && MeaningAll(items) == [Meaning(items[0])];
    } else {
      var more := ItemsText(items[1..]) + [CLOSE_LIST] + rest;
      ItemsStep(t, Meaning(items[0]), more);
      ItemsReadBack(items[1..], rest);
      ReadsBack(items[0], [COMMA] + more);
      assert ItemsText(items) + [CLOSE_LIST] + rest == TextOf(items[0]) + ([COMMA] + more);
    }
  }

  // ----- objects

  /** Wherever a member may end, the line reads as its key with the value the object gives it. */
  ghost predicate Spells(l: Line, m: map<Text, Json>) {
    && l.text != [] && l.text[0] == QUOTE
    && l.key in m && forall rest :: Ends(rest) ==> SpelledBefore(l, m[l.key], rest)
  }

  ghost predicate SpelledBefore(l: Line, value: Json, rest: Text) {
    ReadMember(l.text + rest) == Some(Read(Pair(l.key, value), rest))
  }

  lemma {:induction false} LineReadsBack(key: Text, v: Value, rest: Text)
    requires WellFormed(v) && Ends(rest)
    ensures SpelledBefore(Line(key, Quoted(key) + [COLON] + TextOf(v)), Meaning(v), rest)
    decreases v, 2
  {
    hide ReadString, Quoted;
    var text, more := Quoted(key) + [COLON] + TextOf(v), [COLON] + (TextOf(v) + rest);
    assert text + rest == Quoted(key) + more;
    QuotedReadsBack(key, more);
    ReadsBack(v, rest);
  }

  lemma {:induction false} MembersSpell(members: seq<Member>)
    requires MembersWellFormed(members)
    ensures KeysOf(KeyOf, Lines(members)) == MeaningMembers(members).Keys <= KeysIn(members)
    ensures DistinctKeys(KeyOf, Lines(members))
    ensures forall l :: l in Lines(members) ==> Spells(l, MeaningMembers(members))
    decreases members, 3
  {
    if members != [] {
      var first, rest, m := members[0], members[1..], MeaningMembers(members);
      MembersSpell(rest);
      assert members == [first] + rest;
      if !first.value.Undefined? {
        var line := LineOf(first);
        KeysOfCons(KeyOf, line, Lines(rest));
        DistinctCons(KeyOf, line, Lines(rest));
        forall after | Ends(after) ensures SpelledBefore(line, Meaning(first.value), after) {
          LineReadsBack(first.key, first.value, after);
        }
        forall l | l in Lines(members) ensures Spells(l, m) {
          if l != line {
            assert l in Lines(rest) && l.key in KeysIn(rest);
          }
        }
      }
    }
  }

  /** The members that these lines spell. */
  ghost function Only(lines: seq<Line>, m: map<Text, Json>): map<Text, Json>
    requires forall i :: 0 <= i < |lines| ==> lines[i].key in m
  {
    if lines == [] then map[] else map[lines[0].key := m[lines[0].key]] + Only(lines[1..], m)
  }

  lemma {:induction false} LinesReadBack(lines: seq<Line>, m: map<Text, Json>, rest: Text)
    requires lines != [] && forall i :: 0 <= i < |lines| ==> lines[i].key in m && Spells(lines[i], m)
    ensures ReadMembers(LinesText(lines) + [CLOSE_OBJECT] + rest) == Some(Read(Only(lines, m), rest))
  {
    hide ReadMember, ReadMembers;
    var first, tail := lines[0], lines[1..];
    var t := LinesText(lines) + [CLOSE_OBJECT] + rest;
    if |lines| == 1 {
      MembersStep(t, first.key, m[first.key], rest);
      assert SpelledBefore(first, m[first.key], [CLOSE_OBJECT] + rest);
      assert first.text + [CLOSE_OBJECT] + rest == first.text + ([CLOSE_OBJECT] + rest);
      assert Only(tail, m) == map[] && Only(lines, m) == map[first.key := m[first.key]];
    } else {
      var more := LinesText(tail) + [CLOSE_OBJECT] + rest;
      MembersStep(t, first.key, m[first.key], more);
      LinesReadBack(tail, m, rest);
      assert SpelledBefore(first, m[first.key], [COMMA] + more);
      assert LinesText(lines) + [CLOSE_OBJECT] + rest == first.text + ([COMMA] + more);
    }
  }

  lemma ObjectReadsBack(members: seq<Member>, rest: Text)
    requires KeysOf(KeyOf, Lines(members)) == MeaningMembers(members).Keys
    requires forall l :: l in Lines(members) ==> Spells(l, MeaningMembers(members))
    ensures ReadValue(TextOf(Object(members)) + rest) == Some(Read(JObject(MeaningMembers(members)), rest))
  {
    hide ReadValue, ReadMembers, SpelledBefore, KeysOf;
    var unsorted, m := Lines(members), MeaningMembers(members);
    var lines := SortBy(KeyOf, unsorted);
    Bracketed(OPEN_OBJECT, LinesText(lines), CLOSE_OBJECT, rest);
    OpensBracket(TextOf(Object(members)) + rest);
    SortByDistinct(KeyOf, unsorted);
    forall i | 0 <= i < |lines| ensures Spells(lines[i], m) {
      SortByMembers(KeyOf, unsorted, lines[i]);
    }
    OnlyIsAll(lines, m);
    if lines != [] {
      LinesReadBack(lines, m, rest);
      LinesStart(lines);
    }
  }

  lemma {:induction false} OnlyHas(lines: seq<Line>, m: map<Text, Json>)
    requires forall i :: 0 <= i < |lines| ==> lines[i].key in m
    ensures Only(lines, m).Keys == KeysOf(KeyOf, lines)
    ensures forall k :: k in Only(lines, m) ==> k in m && Only(lines, m)[k] == m[k]
  {
    if lines != [] {
      OnlyHas(lines[1..], m);
      KeysOfCons(KeyOf, lines[0], lines[1..]);
      assert lines == [lines[0]] + lines[1..];
    }
  }

  lemma OnlyIsAll(lines: seq<Line>, m: map<Text, Json>)
    requires (forall i :: 0 <= i < |lines| ==> lines[i].key in m) && KeysOf(KeyOf, lines) == m.Keys
    ensures Only(lines, m) == m
  {
    OnlyHas(lines, m);
  }

  lemma LinesStart(lines: seq<Line>)
    requires lines != [] && lines[0].text != []
    ensures LinesText(lines) != [] && LinesText(lines)[0] == lines[0].text[0]
  {
  }

  // ----- what says the same is written the same

  lemma {:induction false} LinesOf(members: seq<Member>)
    ensures forall l :: l in Lines(members) <==> exists m :: m in members && !m.value.Undefined? && LineOf(m) == l
  {
    if members != [] {
      LinesOf(members[1..]);
      assert members == [members[0]] + members[1..];
      forall l | exists m :: m in members && !m.value.Undefined? && LineOf(m) == l ensures l in Lines(members) {
        var m :| m in members && !m.value.Undefined? && LineOf(m) == l;
      }
      forall l | l in Lines(members) ensures exists m :: m in members && !m.value.Undefined? && LineOf(m) == l {
        assert members[0] in members;
        if l in Lines(members[1..]) {
          var m :| m in members[1..] && !m.value.Undefined? && LineOf(m) == l;
          assert m in members;
        }
      }
    }
  }

  ghost predicate Says(members: seq<Member>, k: Text, j: Json) {
    exists m :: m in members && !m.value.Undefined? && m.key == k && Meaning(m.value) == j
  }

  lemma {:induction false} MeaningSays(members: seq<Member>)
    requires MembersWellFormed(members)
    ensures forall k, j :: k in MeaningMembers(members) && MeaningMembers(members)[k] == j <==> Says(members, k, j)
    ensures forall m :: m in members ==> WellFormed(m.value)
  {
    if members != [] {
      var first, rest := members[0], members[1..];
      MeaningSays(rest);
      assert members == [first] + rest;
      forall k, j ensures k in MeaningMembers(members) && MeaningMembers(members)[k] == j <==> Says(members, k, j) {
        SaysCons(first, rest, k, j);
        if Says(rest, k, j) {
          var m :| m in rest && !m.value.Undefined? && m.key == k && Meaning(m.value) == j;
          assert k in KeysIn(rest);
        }
      }
    }
  }

  lemma SaysCons(first: Member, rest: seq<Member>, k: Text, j: Json)
    ensures Says([first] + rest, k, j) <==>
              Says(rest, k, j) || (!first.value.Undefined? && first.key == k && Meaning(first.value) == j)
  {
  }

  lemma {:induction false} SameMeaningSameText(a: Value, b: Value)
    requires WellFormed(a) && WellFormed(b) && Meaning(a) == Meaning(b)
    ensures TextOf(a) == TextOf(b)
    decreases a, 1
  {
    match a
    case List(items) => SameItems(items, b.items);
    case Object(members) =>
      SameLines(members, b.members);
      SameSorted(members, b.members);
    case _ =>
  }

  lemma {:induction false} SameItems(xs: seq<Value>, ys: seq<Value>)
    requires AllWellFormed(xs) && AllWellFormed(ys) && MeaningAll(xs) == MeaningAll(ys)
    ensures ItemsText(xs) == ItemsText(ys)
    decreases xs, 0
  {
    if xs != [] {
      assert MeaningAll(xs)[0] == Meaning(xs[0]) && MeaningAll(ys)[0] == Meaning(ys[0]);
      assert MeaningAll(xs)[1..] == MeaningAll(xs[1..]) && MeaningAll(ys)[1..] == MeaningAll(ys[1..]);
      SameMeaningSameText(xs[0], ys[0]);
      SameItems(xs[1..], ys[1..]);
    }
  }

  /** Objects that say the same have the same lines, in some order. */
  lemma {:induction false} SameLines(xs: seq<Member>, ys: seq<Member>)
    requires MembersWellFormed(xs) && MembersWellFormed(ys) && MeaningMembers(xs) == MeaningMembers(ys)
    ensures forall l :: l in Lines(xs) <==> l in Lines(ys)
    decreases xs, 0
  {
    LinesOf(xs);
    LinesOf(ys);
    MeaningSays(xs);
    MeaningSays(ys);
    forall i, j | 0 <= i < |xs| && 0 <= j < |ys| && xs[i].key == ys[j].key
        && Meaning(xs[i].value) == Meaning(ys[j].value)
      ensures LineOf(xs[i]) == LineOf(ys[j])
    {
      SameMeaningSameText(xs[i].value, ys[j].value);
    }
    SameLinesEachWay(xs, ys);
  }

  ghost predicate LinesAgree(xs: seq<Member>, ys: seq<Member>) {
    forall i, j :: 0 <= i < |xs| && 0 <= j < |ys|
                   && xs[i].key == ys[j].key && Meaning(xs[i].value) == Meaning(ys[j].value)
                   ==> LineOf(xs[i]) == LineOf(ys[j])
  }

  lemma SameLinesEachWay(xs: seq<Member>, ys: seq<Member>)
    requires LinesAgree(xs, ys)
    requires forall k, j :: Says(xs, k, j) <==> Says(ys, k, j)
    ensures (forall l :: l in Lines(xs) <==> l in Lines(ys))
  {
    LinesOf(xs);
    LinesOf(ys);
    forall l | l in Lines(xs) ensures l in Lines(ys) {
      var x :| x in xs && !x.value.Undefined? && LineOf(x) == l;
      assert Says(xs, x.key, Meaning(x.value));
      var y :| y in ys && !y.value.Undefined? && y.key == x.key && Meaning(y.value) == Meaning(x.value);
    }
    forall l | l in Lines(ys) ensures l in Lines(xs) {
      var y :| y in ys && !y.value.Undefined? && LineOf(y) == l;
      assert Says(ys, y.key, Meaning(y.value));
      var x :| x in xs && !x.value.Undefined? && x.key == y.key && Meaning(x.value) == Meaning(y.value);
    }
  }

  lemma SameSorted(xs: seq<Member>, ys: seq<Member>)
    requires MembersWellFormed(xs) && MembersWellFormed(ys)
    requires forall l :: l in Lines(xs) <==> l in Lines(ys)
    ensures SortBy(KeyOf, Lines(xs)) == SortBy(KeyOf, Lines(ys))
  {
    var s, t := SortBy(KeyOf, Lines(xs)), SortBy(KeyOf, Lines(ys));
    MembersSpell(xs);
    MembersSpell(ys);
    SortBySorts(KeyOf, Lines(xs));
    SortBySorts(KeyOf, Lines(ys));
    SortByDistinct(KeyOf, Lines(xs));
    SortByDistinct(KeyOf, Lines(ys));
    forall l ensures l in s <==> l in t {
      SortByMembers(KeyOf, Lines(xs), l);
      SortByMembers(KeyOf, Lines(ys), l);
    }
    SortedIsUnique(KeyOf, s, t);
  }

  /** Two values are written the same exactly when they say the same. */
  lemma SameTextIffSameMeaning(a: Value, b: Value)
    requires WellFormed(a) && WellFormed(b)
    ensures TextOf(a) == TextOf(b) <==> Meaning(a) == Meaning(b)
  {
    ReadsBack(a, []);
    ReadsBack(b, []);
    assert TextOf(a) + [] == TextOf(a) && TextOf(b) + [] == TextOf(b);
    if Meaning(a) == Meaning(b) {
      SameMeaningSameText(a, b);
    }
  }

  /** The order of members does not matter. */
  lemma KeyOrderIsIrrelevant(xs: seq<Member>, ys: seq<Member>)
    requires MembersWellFormed(xs) && MembersWellFormed(ys) && multiset(xs) == multiset(ys)
    ensures TextOf(Object(xs)) == TextOf(Object(ys))
  {
    MeaningSays(xs);
    MeaningSays(ys);
    assert forall m :: m in xs <==> m in multiset(xs);
    assert forall m :: m in ys <==> m in multiset(ys);
    forall k, j ensures Says(xs, k, j) <==> Says(ys, k, j) {
    }
    var a, b := MeaningMembers(xs), MeaningMembers(ys);
    forall k ensures k in a <==> k in b {
      if k in a {
        assert Says(xs, k, a[k]);
      }
      if k in b {
        assert Says(ys, k, b[k]);
      }
    }
    forall k | k in a ensures a[k] == b[k] {
      assert Says(ys, k, a[k]);
    }
    assert a == b;
    SameMeaningSameText(Object(xs), Object(ys));
  }

  // ----- sorting before or after rendering

  function MemberKey(m: Member): Text {
    m.key
  }

  /** No line of sorted members comes before their first key. */
  lemma FirstLine(s: seq<Member>, k: Text)
    requires Sorted(MemberKey, s) && Lines(s) != [] && AtMost(k, s[0].key)
    ensures AtMost(k, Lines(s)[0].key)
  {
    LinesOf(s);
    assert Lines(s)[0] in Lines(s);
    var first :| first in s && !first.value.Undefined? && LineOf(first) == Lines(s)[0];
    var i :| 0 <= i < |s| && s[i] == first;
    if i > 0 {
      assert AtMost(MemberKey(s[0]), MemberKey(s[i]));
      AtMostTransitive(k, s[0].key, first.key);
    }
  }

  lemma LinesCons(m: Member, s: seq<Member>)
    ensures Lines([m] + s) == if m.value.Undefined? then Lines(s) else [LineOf(m)] + Lines(s)
  {
  }

  lemma {:induction false} LinesInsert(m: Member, s: seq<Member>)
    requires Sorted(MemberKey, s)
    ensures Lines(Insert(MemberKey, m, s)) ==
            if m.value.Undefined? then Lines(s) else Insert(KeyOf, LineOf(m), Lines(s))
  {
    hide LineOf, AtMost;
    if s == [] || AtMost(m.key, s[0].key) {
      LinesCons(m, s);
      if Lines(s) != [] {
        FirstLine(s, m.key);
      }
      assert LineOf(m).key == m.key by { KeyOfLine(m); }
    } else {
      LinesInsert(m, s[1..]);
      LinesCons(s[0], Insert(MemberKey, m, s[1..]));
      assert LineOf(m).key == m.key by { KeyOfLine(m); }
      KeyOfLine(s[0]);
      if !s[0].value.Undefined? {
        assert Lines(s)[1..] == Lines(s[1..]);
      }
    }
  }

  lemma KeyOfLine(m: Member)
    ensures LineOf(m).key == m.key
  {
  }

  /** Rendering the members and sorting the lines is sorting the members and rendering them. */
  lemma {:induction false} RenderThenSort(members: seq<Member>)
    ensures SortBy(KeyOf, Lines(members)) == Lines(SortBy(MemberKey, members))
  {
    if members != [] {
      RenderThenSort(members[1..]);
      SortBySorts(MemberKey, members[1..]);
      LinesInsert(members[0], SortBy(MemberKey, members[1..]));
      if !members[0].value.Undefined? {
        assert Lines(members)[1..] == Lines(members[1..]);
      }
    }
  }
}
