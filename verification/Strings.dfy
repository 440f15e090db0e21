/**
 Splitting and joining strings at a separator, and what one does to the other; paths, lines and arguments
 are all cut this way.
 */
module Strings {
  import opened Prelude

  /** The segments of a text, given those of its tail. */
  function Cons(u: CodeUnit, rest: seq<Text>, sep: CodeUnit): (parts: seq<Text>)
    requires |rest| > 0
    ensures |parts| > 0
  {
    if u == sep then [[]] + rest else [[u] + rest[0]] + rest[1..]
  }

  /** `text.split(sep)`: one segment more than there are separators. */
  function Split(text: Text, sep: CodeUnit): (parts: seq<Text>)
    ensures |parts| > 0
  {
    if text == [] then [[]]
    else
      Cons(text[0], Split(text[1..], sep), sep)
  }

  /** `parts.join(sep)`. */
  function Join(parts: seq<Text>, sep: CodeUnit): Text {
    if parts == [] then []
    else if |parts| == 1 then parts[0]
    else parts[0] + [sep] + Join(parts[1..], sep)
  }

  lemma {:induction false} SplitLast(text: Text, sep: CodeUnit)
    requires text != [] && text[|text| - 1] == sep
    ensures Split(text, sep)[|Split(text, sep)| - 1] == []
    ensures |Split(text, sep)| > 1
  {
    if |text| > 1 {
      SplitLast(text[1..], sep);
    } else {
      assert text[1..] == [];
      assert Split(text, sep) == [[]] + [[]];
    }
  }

  lemma {:induction false} JoinSplit(text: Text, sep: CodeUnit)
    ensures Join(Split(text, sep), sep) == text
  {
    if text != [] {
      JoinSplit(text[1..], sep);
      var rest := Split(text[1..], sep);
      assert text == [text[0]] + text[1..];
      if text[0] == sep {
        assert ([[]] + rest)[1..] == rest;
        assert [] + [sep] + Join(rest, sep) == [sep] + text[1..];
      } else {
        var parts := [[text[0]] + rest[0]] + rest[1..];
        assert parts[1..] == rest[1..];
        if |rest| > 1 {
          assert Join(parts, sep) == [text[0]] + Join(rest, sep);
        }
      }
    }
  }

  lemma SplitCons(u: CodeUnit, text: Text, sep: CodeUnit)
    ensures Split([u] + text, sep) == Cons(u, Split(text, sep), sep)
  {
  }

  lemma SplitOneMore(u: CodeUnit, r: Text, b: Text, sep: CodeUnit)
    ensures var parts := Cons(u, [r], sep);
            Cons(u, Split(r + b, sep), sep) == parts[..|parts| - 1] + Split(parts[|parts| - 1] + b, sep)
  {
    if u != sep {
      assert [u] + r + b == [u] + (r + b);
      SplitCons(u, r + b, sep);
      assert [[u] + r] + [r][1..] == [[u] + r];
    }
  }

  lemma ConsLast(u: CodeUnit, rest: seq<Text>, tail: seq<Text>, sep: CodeUnit)
    requires |rest| > 1
    ensures var parts := Cons(u, rest, sep);
            && parts[|parts| - 1] == rest[|rest| - 1]
            && Cons(u, rest[..|rest| - 1] + tail, sep) == parts[..|parts| - 1] + tail
  {
    var n, front := |rest| - 1, rest[..|rest| - 1];
    if u == sep {
      assert ([[]] + rest)[..n + 1] == [[]] + front;
      assert [[]] + (front + tail) == [[]] + front + tail;
    } else {
      var first, middle := [[u] + rest[0]], rest[1..n];
      assert (first + rest[1..])[..n] == first + middle;
      assert (front + tail)[0] == rest[0] && (front + tail)[1..] == middle + tail;
      assert first + (middle + tail) == first + middle + tail;
    }
  }

  /** More text only touches the last segment. */
  lemma {:induction false} SplitConcat(a: Text, b: Text, sep: CodeUnit)
    ensures var parts := Split(a, sep);
            Split(a + b, sep) == parts[..|parts| - 1] + Split(parts[|parts| - 1] + b, sep)
  {
    if a == [] {
      assert a + b == b && [] + b == b;
    } else {
      SplitConcat(a[1..], b, sep);
      var rest := Split(a[1..], sep);
      assert a + b == [a[0]] + (a[1..] + b);
      SplitCons(a[0], a[1..] + b, sep);
      if |rest| == 1 {
        SplitOneMore(a[0], rest[0], b, sep);
        assert rest == [rest[0]];
      } else {
        ConsLast(a[0], rest, Split(rest[|rest| - 1] + b, sep), sep);
      }
    }
  }

  lemma {:induction false} SplitPlain(text: Text, sep: CodeUnit)
    ensures Split(text, sep) == [text] <==> sep !in text
  {
    if text != [] {
      SplitPlain(text[1..], sep);
      assert text == [text[0]] + text[1..];
    }
  }

  /** No segment contains the separator. */
  lemma {:induction false} SegmentsArePlain(text: Text, sep: CodeUnit)
    ensures forall i :: 0 <= i < |Split(text, sep)| ==> sep !in Split(text, sep)[i]
  {
    if text != [] {
      SegmentsArePlain(text[1..], sep);
    }
  }

  /** Segments without the separator come back from their join. */
  lemma {:induction false} SplitJoin(parts: seq<Text>, sep: CodeUnit)
    requires parts != [] && forall i :: 0 <= i < |parts| ==> sep !in parts[i]
    ensures Split(Join(parts, sep), sep) == parts
  {
    SplitPlain(parts[0], sep);
    if |parts| > 1 {
      SplitJoin(parts[1..], sep);
      var tail := [sep] + Join(parts[1..], sep);
      assert Join(parts, sep) == parts[0] + tail;
      SplitCut(parts[0], Join(parts[1..], sep), sep);
    }
  }

  lemma {:induction false} SplitCut(a: Text, b: Text, sep: CodeUnit)
    requires sep !in a
    ensures Split(a + [sep] + b, sep) == [a] + Split(b, sep)
  {
    if a == [] {
      assert a + [sep] + b == [sep] + b;
      SplitCons(sep, b, sep);
    } else {
      SplitCut(a[1..], b, sep);
      assert a + [sep] + b == [a[0]] + (a[1..] + [sep] + b);
      SplitCons(a[0], a[1..] + [sep] + b, sep);
      assert [a[0]] + a[1..] == a;
    }
  }

  /** Text without a separator begins the first segment of what it begins. */
  lemma {:induction false} FirstSegment(a: Text, b: Text, sep: CodeUnit)
    requires sep !in a
    ensures a <= Split(a + b, sep)[0]
  {
    if a != [] {
      FirstSegment(a[1..], b, sep);
      assert a + b == [a[0]] + (a[1..] + b);
      SplitCons(a[0], a[1..] + b, sep);
      assert [a[0]] + a[1..] == a;
    }
  }

  lemma {:induction false} InJoin(parts: seq<Text>, sep: CodeUnit, u: CodeUnit)
    requires u in Join(parts, sep)
    ensures u == sep || exists i :: 0 <= i < |parts| && u in parts[i]
  {
    if |parts| > 1 && u != sep && u !in parts[0] {
      InJoin(parts[1..], sep, u);
      var i :| 0 <= i < |parts[1..]| && u in parts[1..][i];
      assert u in parts[i + 1];
    } else if parts != [] && u != sep {
      assert u in parts[0];
    }
  }

  lemma {:induction false} InSplit(t: Text, sep: CodeUnit, i: nat, u: CodeUnit)
    requires i < |Split(t, sep)| && u in Split(t, sep)[i]
    ensures u in t
  {
    if t != [] {
      var rest := Split(t[1..], sep);
      if t[0] == sep {
        if i > 0 {
          InSplit(t[1..], sep, i - 1, u);
        }
      } else if i > 0 || u in rest[0] {
        InSplit(t[1..], sep, i, u);
      }
    }
  }
}
