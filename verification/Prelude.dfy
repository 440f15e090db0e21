/**
 What every part of the model shares: results, bytes, text, and where one sequence stands in another.
 */
module Prelude {

  datatype Option<+T> = None | Some(value: T)

  datatype Result<+T, +E> = Ok(value: T) | Err(error: E)

  /** One element of a Uint8Array. */
  type byte = x: int | 0 <= x < 256

  type Bytes = seq<byte>

  /** One UTF-16 code unit, the element of a JavaScript string. */
  type CodeUnit = x: int | 0 <= x < 0x1_0000

  type Text = seq<CodeUnit>

  const NUL: CodeUnit := 0
  const NEWLINE: CodeUnit := 0x0a
  const QUOTE: CodeUnit := 0x22
  const COMMA: CodeUnit := 0x2c
  const DOT: CodeUnit := 0x2e
  const SLASH: CodeUnit := 0x2f
  const COLON: CodeUnit := 0x3a
  const BACKSLASH: CodeUnit := 0x5c

  /** A string constant as code units. */
  function Units(s: string): (t: Text)
    requires forall i :: 0 <= i < |s| ==> s[i] as int < 0x1_0000
    ensures |t| == |s|
  {
    seq(|s|, i requires 0 <= i < |s| => s[i] as int)
  }

  /** `chunk` stands at offset `at` of `s`. */
  predicate Placed<T(==)>(s: seq<T>, at: nat, chunk: seq<T>) {
    at + |chunk| <= |s| && s[at..at + |chunk|] == chunk
  }

  predicate Contains<T(==)>(s: seq<T>, chunk: seq<T>) {
    exists at: nat :: at <= |s| && Placed(s, at, chunk)
  }

  /** What a loop has gathered so far, in front of what the rest of it gathers. */
  function Prepend<T, E>(gathered: seq<T>, r: Result<seq<T>, E>): Result<seq<T>, E> {
    match r
    case Err(e) => Err(e)
    case Ok(rest) => Ok(gathered + rest)
  }

  lemma PrependTwice<T, E>(a: seq<T>, b: seq<T>, r: Result<seq<T>, E>)
    ensures Prepend(a, Prepend(b, r)) == Prepend(a + b, r)
  {
    if r.Ok? {
      assert a + (b + r.value) == a + b + r.value;
    }
  }
}
