/** Bytes, byte strings and the two result types shared by every module. */
module Bytes {

  type byte = b: int | 0 <= b < 256

  type Text = seq<byte>

  datatype Option<+T> = None | Some(value: T)

  datatype Result<+T, +E> = Ok(value: T) | Err(error: E)

  const U64_MAX: nat := 0xFFFF_FFFF_FFFF_FFFF
  const U32_MAX: nat := 0xFFFF_FFFF

  const HTAB: byte := 9
  const LF: byte := 10
  const CR: byte := 13
  const SP: byte := 32
  const SEMI: byte := 59

  const CRLF: Text := [CR, LF]

  function Min(a: nat, b: nat): nat {
    if a <= b then a else b
  }

  function Max(a: nat, b: nat): nat {
    if a <= b then b else a
  }

  /** Concatenation of a list of byte strings. */
  function Concat(parts: seq<Text>): Text {
    if parts == [] then [] else parts[0] + Concat(parts[1..])
  }

  /** Total length of a list of byte strings. */
  function TotalLength(parts: seq<Text>): (n: nat)
    ensures n == |Concat(parts)|
  {
    if parts == [] then 0 else |parts[0]| + TotalLength(parts[1..])
  }

  lemma {:induction false} ConcatAppend(a: seq<Text>, b: seq<Text>)
    ensures Concat(a + b) == Concat(a) + Concat(b)
  {
    if a == [] {
      assert a + b == b;
    } else {
      assert (a + b)[1..] == a[1..] + b;
      ConcatAppend(a[1..], b);
    }
  }

  lemma ConcatSnoc(a: seq<Text>, x: Text)
    ensures Concat(a + [x]) == Concat(a) + x
  {
    ConcatAppend(a, [x]);
    assert Concat([x]) == x + Concat([]) == x;
  }

  /** Index of the first `b` in `s`, or `|s|` when there is none. */
  function IndexOf(s: Text, b: byte): (k: nat)
    ensures k <= |s|
    ensures b !in s[..k]
    ensures k < |s| ==> s[k] == b
  {
    if s == [] then 0
    else if s[0] == b then 0
    else
      var k := 1 + IndexOf(s[1..], b);
      assert s[..k] == [s[0]] + s[1..][..k - 1];
      k
  }

  /** The first occurrence is determined by the text before it. */
  lemma {:induction false} IndexOfUnique(before: Text, b: byte, after: Text)
    requires b !in before
    ensures IndexOf(before + [b] + after, b) == |before|
  {
    var s := before + [b] + after;
    var k := IndexOf(s, b);
    assert s[|before|] == b;
    assert forall i :: 0 <= i < |before| ==> s[i] == before[i];
    assert forall i :: 0 <= i < k ==> s[i] in s[..k];
  }

  /** No occurrence at all: the index is the length. */
  lemma IndexOfAbsent(s: Text, b: byte)
    requires b !in s
    ensures IndexOf(s, b) == |s|
  {
  }
}
