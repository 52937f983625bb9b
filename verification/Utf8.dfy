/** UTF-8 (RFC 3629): what the parser's byte-wise check accepts, in terms of code points. */
module Utf8 {
  import opened Bytes
  import opened RequestHeads

  /** A Unicode scalar value: a code point that is no surrogate. */
  predicate Scalar(cp: nat) {
    cp < 0xD800 || 0xE000 <= cp < 0x110000
  }

  function Encoded(cp: nat): (s: Text)
    requires Scalar(cp)
    ensures 1 <= |s| <= 4
  {
    if cp < 0x80 then [cp]
    else if cp < 0x800 then [0xC0 + cp / 0x40, 0x80 + cp % 0x40]
    else if cp < 0x10000 then [0xE0 + cp / 0x1000, 0x80 + cp / 0x40 % 0x40, 0x80 + cp % 0x40]
    else [0xF0 + cp / 0x40000, 0x80 + cp / 0x1000 % 0x40, 0x80 + cp / 0x40 % 0x40, 0x80 + cp % 0x40]
  }

  /** An encoded code point is recognised, with its length. */
  lemma EncodedIsChar(cp: nat, rest: Text)
    requires Scalar(cp)
    ensures Utf8Width(Encoded(cp) + rest) == |Encoded(cp)|
  {
    var s := Encoded(cp) + rest;
    assert forall i :: 0 <= i < |Encoded(cp)| ==> s[i] == Encoded(cp)[i];
  }

  /** The code point of two bytes. */
  lemma TwoBytes(b0: int, b1: int) returns (cp: nat)
    requires 0xC2 <= b0 <= 0xDF && 0x80 <= b1 <= 0xBF
    ensures Scalar(cp) && Encoded(cp) == [b0, b1]
  {
    cp := (b0 - 0xC0) * 0x40 + (b1 - 0x80);
  }

  /** The code point of three bytes, overlong forms and surrogates shut out. */
  lemma ThreeBytes(b0: int, b1: int, b2: int) returns (cp: nat)
    requires 0xE0 <= b0 <= 0xEF && 0x80 <= b1 <= 0xBF && 0x80 <= b2 <= 0xBF
    requires (b0 == 0xE0 ==> b1 >= 0xA0) && (b0 == 0xED ==> b1 <= 0x9F)
    ensures Scalar(cp) && Encoded(cp) == [b0, b1, b2]
  {
    cp := (b0 - 0xE0) * 0x1000 + (b1 - 0x80) * 0x40 + (b2 - 0x80);
    assert cp / 0x40 == (b0 - 0xE0) * 0x40 + (b1 - 0x80);
  }

  /** The code point of four bytes, overlong forms and too large values shut out. */
  lemma FourBytes(b0: int, b1: int, b2: int, b3: int) returns (cp: nat)
    requires 0xF0 <= b0 <= 0xF4 && 0x80 <= b1 <= 0xBF && 0x80 <= b2 <= 0xBF && 0x80 <= b3 <= 0xBF
    requires (b0 == 0xF0 ==> b1 >= 0x90) && (b0 == 0xF4 ==> b1 <= 0x8F)
    ensures Scalar(cp) && Encoded(cp) == [b0, b1, b2, b3]
  {
    var x1: nat := (b0 - 0xF0) * 0x40 + (b1 - 0x80);
    var x2: nat := x1 * 0x40 + (b2 - 0x80);
    cp := x2 * 0x40 + (b3 - 0x80);
    SixBits(x2, b3 - 0x80);
    SixBits(x1, b2 - 0x80);
    SixBits(b0 - 0xF0, b1 - 0x80);
    DivideTwice(cp);
    DivideTwice(cp / 0x40);
  }

  /** A number, and six bits behind it. */
  lemma SixBits(n: nat, d: nat)
    requires d < 0x40
    ensures (n * 0x40 + d) / 0x40 == n && (n * 0x40 + d) % 0x40 == d
  {
  }

  lemma DivideTwice(n: nat)
    ensures n / 0x1000 == n / 0x40 / 0x40 && n / 0x40000 == n / 0x1000 / 0x40
  {
  }

  /** Whatever is recognised is an encoded code point. */
  lemma CharHasScalar(s: Text) returns (cp: nat)
    requires s != [] && Utf8Width(s) > 0
    ensures Scalar(cp) && s[..Utf8Width(s)] == Encoded(cp)
  {
    var n := Utf8Width(s);
    if n == 1 {
      cp := s[0];
      return;
    }
    hide Encoded;
    if n == 2 {
      cp := TwoBytes(s[0], s[1]);
    } else if n == 3 {
      cp := ThreeBytes(s[0], s[1], s[2]);
    } else {
      cp := FourBytes(s[0], s[1], s[2], s[3]);
    }
  }

  predicate AllScalars(cps: seq<nat>) {
    forall i :: 0 <= i < |cps| ==> Scalar(cps[i])
  }

  function EncodedAll(cps: seq<nat>): Text
    requires AllScalars(cps)
  {
    if cps == [] then [] else Encoded(cps[0]) + EncodedAll(cps[1..])
  }

  lemma {:induction false} EncodedIsValid(cps: seq<nat>)
    requires AllScalars(cps)
    ensures ValidUtf8(EncodedAll(cps))
  {
    hide Encoded;
    hide Utf8Width;
    if cps != [] {
      var c, rest := Encoded(cps[0]), EncodedAll(cps[1..]);
      EncodedIsChar(cps[0], rest);
      assert (c + rest)[|c|..] == rest;
      EncodedIsValid(cps[1..]);
    }
  }

  lemma {:induction false} ValidIsEncoded(s: Text) returns (cps: seq<nat>)
    requires ValidUtf8(s)
    ensures AllScalars(cps) && s == EncodedAll(cps)
    decreases |s|
  {
    hide Encoded;
    hide Utf8Width;
    if s == [] {
      cps := [];
    } else {
      var n := Utf8Width(s);
      var cp := CharHasScalar(s);
      var rest := ValidIsEncoded(s[n..]);
      cps := [cp] + rest;
      assert s == s[..n] + s[n..] && cps[1..] == rest;
    }
  }

  /** A text passes the check if and only if it encodes a sequence of code points. */
  lemma ValidUtf8Exactly(s: Text)
    ensures ValidUtf8(s) <==> exists cps: seq<nat> :: AllScalars(cps) && s == EncodedAll(cps)
  {
    hide ValidUtf8;
    hide EncodedAll;
    if ValidUtf8(s) {
      var cps := ValidIsEncoded(s);
    }
    if cps: seq<nat> :| AllScalars(cps) && s == EncodedAll(cps) {
      EncodedIsValid(cps);
    }
  }
}
