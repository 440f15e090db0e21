/** How canonical JSON is spelled, unit by unit, as any reader of JSON expects it. */
module JsonSpelling {
  import opened Prelude
  import opened Strings
  import opened Ordering
  import opened CanonicalJson

  /** The words, and the quotation marks around a string. */
  lemma WordsAreSpelled(t: Text)
    ensures TextOf(Null) == TextOf(Undefined) == TextOf(NotFinite) == [0x6e, 0x75, 0x6c, 0x6c]
    ensures TextOf(Bool(true)) == [0x74, 0x72, 0x75, 0x65] && TextOf(Bool(false)) == [0x66, 0x61, 0x6c, 0x73, 0x65]
    ensures TextOf(String(t)) == [0x22] + Escaped(t) + [0x22]
  {
  }

  // ----- lists and objects

  function Texts(items: seq<Value>): seq<Text> {
    seq(|items|, i requires 0 <= i < |items| => TextOf(items[i]))
  }

  lemma {:induction false} ItemsAreJoined(items: seq<Value>)
    ensures ItemsText(items) == Join(Texts(items), COMMA)
  {
    hide TextOf;
    if |items| > 1 {
      ItemsAreJoined(items[1..]);
      assert Texts(items)[1..] == Texts(items[1..]);
    }
  }

  /** A list is its items' texts between brackets, with commas between them. */
  lemma ListsAreSpelled(items: seq<Value>)
    ensures TextOf(List(items)) == [0x5b] + Join(Texts(items), 0x2c) + [0x5d]
  {
    ItemsAreJoined(items);
  }

  /** The members that are defined, in their order. */
  function Defined(members: seq<Member>): seq<Member> {
    if members == [] then []
    else (if members[0].value.Undefined? then [] else [members[0]]) + Defined(members[1..])
  }

  function Rendered(members: seq<Member>): seq<Text> {
    seq(|members|, i requires 0 <= i < |members| =>
      [0x22] + Escaped(members[i].key) + [0x22, 0x3a] + TextOf(members[i].value))
  }

  lemma {:induction false} LinesAreRendered(members: seq<Member>)
    requires forall m :: m in members ==> !m.value.Undefined?
    ensures LinesText(Lines(members)) == Join(Rendered(members), COMMA)
    ensures |Lines(members)| == |members|
  {
    hide TextOf, Escaped;
    if members != [] {
      LinesAreRendered(members[1..]);
      var m := members[0];
      assert Rendered(members)[1..] == Rendered(members[1..]);
      assert LineOf(m).text == Rendered(members)[0];
      assert Lines(members)[1..] == Lines(members[1..]);
    }
  }

  lemma {:induction false} DefinedCount(members: seq<Member>, m: Member)
    ensures multiset(Defined(members))[m] == if m.value.Undefined? then 0 else multiset(members)[m]
    ensures Lines(Defined(members)) == Lines(members)
  {
    hide LineOf;
    if members != [] {
      var first, rest := members[0], Defined(members[1..]);
      DefinedCount(members[1..], m);
      assert members == [first] + members[1..];
      if !first.value.Undefined? {
        assert Defined(members) == [first] + rest && ([first] + rest)[1..] == rest;
      } else {
        assert Defined(members) == rest;
      }
    }
  }

  /** An object is its defined members between braces, ordered by key, each a quoted key, a colon and a text. */
  lemma ObjectsAreSpelled(members: seq<Member>) returns (sorted: seq<Member>)
    ensures forall m :: multiset(sorted)[m] == if m.value.Undefined? then 0 else multiset(members)[m]
    ensures Sorted(MemberKey, sorted)
    ensures TextOf(Object(members)) == [0x7b] + Join(Rendered(sorted), 0x2c) + [0x7d]
  {
    hide LineOf, Sorted, Rendered, Join, LinesText, SortBy, Defined, Lines;
    sorted := SortBy(MemberKey, Defined(members));
    SortBySorts(MemberKey, Defined(members));
    forall m ensures multiset(sorted)[m] == if m.value.Undefined? then 0 else multiset(members)[m] {
      DefinedCount(members, m);
    }
    forall m | m in sorted ensures !m.value.Undefined? {
      assert multiset(sorted)[m] > 0;
    }
    RenderThenSort(Defined(members));
    DefinedCount(members, Member([], Null));
    LinesAreRendered(sorted);
  }

  // ----- strings

  /** A unit that stands for itself. */
  ghost predicate Plain(u: CodeUnit) {
    u >= 0x20 && u != 0x22 && u != 0x5c && !(0xd800 <= u < 0xe000)
  }

  lemma {:induction false} PlainIsKept(t: Text)
    requires forall i :: 0 <= i < |t| ==> Plain(t[i])
    ensures Escaped(t) == t
  {
    if t != [] {
      assert Plain(t[0]);
      PlainIsKept(t[1..]);
      assert t == [t[0]] + t[1..];
    }
  }

  /** A surrogate pair stands for itself as well, wherever it begins. */
  lemma PairIsKept(high: CodeUnit, low: CodeUnit, rest: Text)
    requires 0xd800 <= high < 0xdc00 && 0xdc00 <= low < 0xe000
    ensures Escaped([high, low] + rest) == [high, low] + Escaped(rest)
  {
    assert ([high, low] + rest)[2..] == rest;
  }

  ghost function HexOf(u: CodeUnit): int {
    if 0x30 <= u <= 0x39 then u - 0x30 else if 0x61 <= u <= 0x66 then u - 0x61 + 10 else -1
  }

  /**
   Any other unit is escaped: quotation mark and backslash by a backslash, five control units by their letters, the
   rest by their number in four lower-case hexadecimal digits.
   */
  lemma EscapesAreSpelled(u: CodeUnit)
    requires !Plain(u)
    ensures var e := Escaped([u]);
            && |e| >= 2 && e[0] == 0x5c
            && (u == 0x22 || u == 0x5c ==> e == [0x5c, u])
            && (u == 0x08 ==> e == [0x5c, 0x62]) && (u == 0x09 ==> e == [0x5c, 0x74])
            && (u == 0x0a ==> e == [0x5c, 0x6e]) && (u == 0x0c ==> e == [0x5c, 0x66])
            && (u == 0x0d ==> e == [0x5c, 0x72])
            && (u !in {0x08, 0x09, 0x0a, 0x0c, 0x0d, 0x22, 0x5c} ==>
                  && |e| == 6 && e[1] == 0x75
                  && (forall k :: 2 <= k < 6 ==> 0 <= HexOf(e[k]) < 16)
                  && 0x1000 * HexOf(e[2]) + 0x100 * HexOf(e[3]) + 0x10 * HexOf(e[4]) + HexOf(e[5]) == u)
  {
    hide Escaped, HexOf, UnicodeEscape;
    OneUnit(u);
    UnicodeIsSpelled(u);
  }

  lemma UnicodeIsSpelled(u: CodeUnit)
    ensures var e := UnicodeEscape(u);
            && |e| == 6 && e[0] == 0x5c && e[1] == 0x75
            && (forall k :: 2 <= k < 6 ==> 0 <= HexOf(e[k]) < 16)
            && 0x1000 * HexOf(e[2]) + 0x100 * HexOf(e[3]) + 0x10 * HexOf(e[4]) + HexOf(e[5]) == u
  {
    hide HexOf, HexDigit;
    var a, b, c, d := u / 0x1000, u / 0x100 % 16, u / 16 % 16, u % 16;
    DigitsAreHex(a);
    DigitsAreHex(b);
    DigitsAreHex(c);
    DigitsAreHex(d);
    assert u == 0x1000 * a + 0x100 * b + 0x10 * c + d by {
      assert u / 16 == u / 0x100 * 16 + c && u / 0x100 == a * 16 + b;
    }
  }

  lemma DigitsAreHex(n: nat)
    requires n < 16
    ensures HexOf(HexDigit(n)) == n
  {
  }

  /** A unit that begins no pair is escaped on its own. */
  lemma EscapesOneByOne(u: CodeUnit, rest: Text)
    requires !(0xd800 <= u < 0xdc00 && rest != [] && 0xdc00 <= rest[0] < 0xe000)
    ensures Escaped([u] + rest) == Escaped([u]) + Escaped(rest)
  {
    hide EscapeUnit;
    assert ([u] + rest)[1..] == rest;
    assert rest != [] ==> ([u] + rest)[1] == rest[0];
    OneUnit(u);
  }

  lemma OneUnit(u: CodeUnit)
    ensures Escaped([u]) == EscapeUnit(u)
  {
    hide EscapeUnit;
    assert [u][1..] == [];
  }
}
