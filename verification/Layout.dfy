/**
 Little-endian fields in byte buffers: writing a record field by field at its offsets, and reading a field
 back from where it stands.
 */
module Layout {
  import opened Prelude

  /** What `setUint16(…, v, true)` stores: the value wraps at the field's width. */
  function LE16(v: nat): Bytes {
    [v % 256, v / 256 % 256]
  }

  function LE32(v: nat): Bytes {
    [v % 256, v / 256 % 256, v / 0x1_0000 % 256, v / 0x100_0000 % 256]
  }

  function U16(s: Bytes, at: nat): nat
    requires at + 2 <= |s|
  {
    (s[at] as int) + 256 * (s[at + 1] as int)
  }

  function U32(s: Bytes, at: nat): nat
    requires at + 4 <= |s|
  {
    (s[at] as int) + 256 * (s[at + 1] as int) + 0x1_0000 * (s[at + 2] as int) + 0x100_0000 * (s[at + 3] as int)
  }

  lemma Read16(s: Bytes, at: nat, v: nat)
    requires v < 0x1_0000 && Placed(s, at, LE16(v))
    ensures U16(s, at) == v
  {
  }

  lemma Digits32(v: nat)
    requires v < 0x1_0000_0000
    ensures v % 256 + 256 * (v / 256 % 256) + 0x1_0000 * (v / 0x1_0000 % 256) + 0x100_0000 * (v / 0x100_0000 % 256) == v
  {
    assert v / 0x1_0000 == v / 256 / 256;
    assert v / 0x100_0000 == v / 0x1_0000 / 256;
  }

  lemma Read32(s: Bytes, at: nat, v: nat)
    requires v < 0x1_0000_0000 && Placed(s, at, LE32(v))
    ensures U32(s, at) == v
  {
    var c := s[at..at + 4];
    assert s[at] == c[0] && s[at + 1] == c[1] && s[at + 2] == c[2] && s[at + 3] == c[3];
    Digits32(v);
  }

  /** A part of something placed is itself placed. */
  lemma PlacedWithin(s: Bytes, at: nat, chunk: Bytes, inner: nat, part: Bytes)
    requires Placed(s, at, chunk) && Placed(chunk, inner, part)
    ensures Placed(s, at + inner, part)
  {
    var there := s[at..at + |chunk|];
    forall k | 0 <= k < |part| ensures s[at + inner + k] == part[k] {
      assert s[at + inner + k] == there[inner + k] == chunk[inner..inner + |part|][k];
    }
  }

  // ----- records made of fields

  function Concat(fields: seq<Bytes>): Bytes {
    if fields == [] then [] else Concat(fields[..|fields| - 1]) + fields[|fields| - 1]
  }

  /** `offsets[i]` is where field `i` starts, and the last offset is where the record ends. */
  predicate OffsetsOf(fields: seq<Bytes>, offsets: seq<nat>) {
    && |offsets| == |fields| + 1 && offsets[0] == 0
    && forall i :: 0 <= i < |fields| ==> offsets[i + 1] == offsets[i] + |fields[i]|
  }

  lemma {:induction false} ConcatLength(fields: seq<Bytes>, offsets: seq<nat>)
    requires OffsetsOf(fields, offsets)
    ensures |Concat(fields)| == offsets[|fields|]
  {
    if fields != [] {
      ConcatLength(fields[..|fields| - 1], offsets[..|fields|]);
    }
  }

  lemma ConcatNone()
    ensures Concat([]) == []
  {
  }

  lemma ConcatSnoc(fields: seq<Bytes>, i: nat)
    requires i < |fields|
    ensures Concat(fields[..i + 1]) == Concat(fields[..i]) + fields[i]
  {
    assert fields[..i + 1][..i] == fields[..i];
  }

  lemma ConcatAppend(fields: seq<Bytes>, field: Bytes)
    ensures Concat(fields + [field]) == Concat(fields) + field
  {
  }

  /** Where a field starts, by the lengths before it. */
  lemma {:induction false} FieldAt(fields: seq<Bytes>, i: nat)
    requires i < |fields|
    ensures Placed(Concat(fields), |Concat(fields[..i])|, fields[i])
    ensures |Concat(fields[..i + 1])| == |Concat(fields[..i])| + |fields[i]|
  {
    var front := fields[..|fields| - 1];
    ConcatSnoc(fields, i);
    if i < |front| {
      FieldAt(front, i);
      assert front[..i] == fields[..i];
      assert Concat(fields)[0..|Concat(front)|] == Concat(front);
      PlacedWithin(Concat(fields), 0, Concat(front), |Concat(fields[..i])|, fields[i]);
    } else {
      assert fields[..i] == front;
    }
  }

  lemma {:induction false} FieldPlaced(fields: seq<Bytes>, offsets: seq<nat>, i: nat)
    requires OffsetsOf(fields, offsets) && i < |fields|
    ensures Placed(Concat(fields), offsets[i], fields[i])
  {
    var front := fields[..|fields| - 1];
    ConcatLength(fields, offsets);
    ConcatLength(front, offsets[..|fields|]);
    var body := Concat(front);
    assert Concat(fields) == body + fields[|fields| - 1];
    if i < |front| {
      FieldPlaced(front, offsets[..|fields|], i);
      assert Concat(fields)[0..|body|] == body;
      PlacedWithin(Concat(fields), 0, body, offsets[i], fields[i]);
    } else {
      assert Concat(fields)[|body|..|body| + |fields[i]|] == fields[i];
    }
  }

  lemma SpliceAppend(s: Bytes, from: nat, chunk: Bytes, to: nat, tail: Bytes)
    requires from <= to <= |s|
    ensures s[..from] + chunk + s[to..] + tail == (s + tail)[..from] + chunk + (s + tail)[to..]
  {
  }

  /** Replacing one field by another of its length changes its bytes and no others. */
  lemma {:induction false} ReplaceField(fields: seq<Bytes>, offsets: seq<nat>, i: nat, chunk: Bytes)
    requires OffsetsOf(fields, offsets) && i < |fields| && |chunk| == |fields[i]|
    ensures |Concat(fields)| == offsets[|fields|] && offsets[i + 1] <= |Concat(fields)|
    ensures Concat(fields[i := chunk]) == Concat(fields)[..offsets[i]] + chunk + Concat(fields)[offsets[i + 1]..]
  {
    var n := |fields| - 1;
    var front := fields[..n];
    ConcatLength(fields, offsets);
    ConcatLength(front, offsets[..|fields|]);
    if i < n {
      ReplaceField(front, offsets[..|fields|], i, chunk);
      assert fields[i := chunk][..n] == front[i := chunk];
      SpliceAppend(Concat(front), offsets[i], chunk, offsets[i + 1], fields[n]);
    } else {
      assert fields[i := chunk][..n] == front;
      assert Concat(fields)[..offsets[i]] == Concat(front);
    }
  }

  /** Reading a numeric field of a record back. */
  lemma Field16(s: Bytes, at: nat, fields: seq<Bytes>, offsets: seq<nat>, i: nat, v: nat)
    requires OffsetsOf(fields, offsets) && Placed(s, at, Concat(fields))
    requires i < |fields| && v < 0x1_0000 && fields[i] == LE16(v)
    ensures at + offsets[i] + 2 <= |s| && U16(s, at + offsets[i]) == v
  {
    FieldPlaced(fields, offsets, i);
    PlacedWithin(s, at, Concat(fields), offsets[i], fields[i]);
    Read16(s, at + offsets[i], v);
  }

  lemma Field32(s: Bytes, at: nat, fields: seq<Bytes>, offsets: seq<nat>, i: nat, v: nat)
    requires OffsetsOf(fields, offsets) && Placed(s, at, Concat(fields))
    requires i < |fields| && v < 0x1_0000_0000 && fields[i] == LE32(v)
    ensures at + offsets[i] + 4 <= |s| && U32(s, at + offsets[i]) == v
  {
    FieldPlaced(fields, offsets, i);
    PlacedWithin(s, at, Concat(fields), offsets[i], fields[i]);
    Read32(s, at + offsets[i], v);
  }

  /** Write each field at its offset into a fresh buffer. */
  method WriteFields(fields: seq<Bytes>, offsets: seq<nat>) returns (record: array<byte>)
    requires OffsetsOf(fields, offsets)
    ensures fresh(record) && record[..] == Concat(fields)
  {
    OffsetsGrow(fields, offsets, 0);
    record := new byte[offsets[|fields|]];
    for i := 0 to |fields|
      invariant offsets[i] <= record.Length
      invariant record[..offsets[i]] == Concat(fields[..i])
    {
      OffsetsGrow(fields, offsets, i + 1);
      WriteBytes(record, offsets[i], fields[i]);
      assert fields[..i + 1][..i] == fields[..i];
    }
    assert fields[..|fields|] == fields;
  }

  lemma OffsetsGrow(fields: seq<Bytes>, offsets: seq<nat>, i: nat)
    requires OffsetsOf(fields, offsets) && i <= |fields|
    ensures offsets[i] <= offsets[|fields|]
    decreases |fields| - i
  {
    if i < |fields| {
      OffsetsGrow(fields, offsets, i + 1);
    }
  }

  method WriteBytes(buffer: array<byte>, at: nat, data: Bytes)
    requires at + |data| <= buffer.Length
    modifies buffer
    ensures buffer[..] == old(buffer[..])[..at] + data + old(buffer[..])[at + |data|..]
    ensures buffer[..at + |data|] == old(buffer[..at]) + data
  {
    for i := 0 to |data|
      invariant forall j :: 0 <= j < buffer.Length ==>
                  buffer[j] == if at <= j < at + i then data[j - at] else old(buffer[j])
    {
      buffer[at + i] := data[i];
    }
    assert buffer[..at + |data|] == buffer[..][..at + |data|];
    assert old(buffer[..at]) == old(buffer[..])[..at];
  }
}
