// UTF-8 as the decoder checks it, byte range by byte range, and as RFC 3629
// defines it: the encodings of scalar values and nothing else.
module Utf8 {

  predicate Within(c: char, lo: int, hi: int) {
    lo <= c as int <= hi
  }

  // Bytes of the well-formed sequence that starts s, 0 if there is none
  // (section 4 of RFC 3629).
  function SequenceLength(s: string): (n: nat)
    requires s != ""
    ensures n <= |s|
  {
    if Within(s[0], 0, 0x7F) then 1
    else if Within(s[0], 0xC2, 0xDF) then
      if |s| >= 2 && Within(s[1], 0x80, 0xBF) then 2 else 0
    else if Within(s[0], 0xE0, 0xEF) then
      if |s| >= 3 && Within(s[2], 0x80, 0xBF)
         && Within(s[1], if s[0] as int == 0xE0 then 0xA0 else 0x80, if s[0] as int == 0xED then 0x9F else 0xBF)
      then 3 else 0
    else if Within(s[0], 0xF0, 0xF4) then
      if |s| >= 4 && Within(s[2], 0x80, 0xBF) && Within(s[3], 0x80, 0xBF)
         && Within(s[1], if s[0] as int == 0xF0 then 0x90 else 0x80, if s[0] as int == 0xF4 then 0x8F else 0xBF)
      then 4 else 0
    else 0
  }

  predicate ValidUtf8(s: string)
    decreases |s|
  {
    s == "" || (var n := SequenceLength(s); n > 0 && ValidUtf8(s[n..]))
  }

  // ----- the definition -----

  // A code point that is not a surrogate.
  type Scalar = v: nat | v <= 0xD7FF || 0xE000 <= v <= 0x10FFFF

  function Follower(bits: nat): char {
    (0x80 + bits % 0x40) as char
  }

  function Leader(mark: nat, bits: nat): char
    requires mark + bits < 256
  {
    (mark + bits) as char
  }

  // Section 3 of RFC 3629.
  function EncodeScalar(v: Scalar): (s: string)
    ensures 1 <= |s| <= 4
  {
    if v < 0x80 then [Leader(0, v)]
    else if v < 0x800 then [Leader(0xC0, v / 0x40), Follower(v)]
    else if v < 0x1_0000 then [Leader(0xE0, v / 0x1000), Follower(v / 0x40), Follower(v)]
    else [Leader(0xF0, v / 0x4_0000), Follower(v / 0x1000), Follower(v / 0x40), Follower(v)]
  }

  function EncodeAll(vs: seq<Scalar>): string {
    if vs == [] then "" else EncodeScalar(vs[0]) + EncodeAll(vs[1..])
  }

  // ----- the check is the definition -----

  lemma ScalarIsSequence(v: Scalar, rest: string)
    ensures SequenceLength(EncodeScalar(v) + rest) == |EncodeScalar(v)|
  {
    var s := EncodeScalar(v) + rest;
    if v >= 0x1_0000 {
      LongScalar(v);
      assert s[0] == EncodeScalar(v)[0] && s[1] == EncodeScalar(v)[1];
    } else if v >= 0x800 {
      assert s[0] == Leader(0xE0, v / 0x1000) && s[1] == Follower(v / 0x40) && s[2] == Follower(v);
    }
  }

  lemma LongScalar(v: Scalar)
    requires v >= 0x1_0000
    ensures v / 0x4_0000 <= 4
    ensures v / 0x4_0000 == 0 ==> v / 0x1000 % 0x40 >= 0x10
    ensures v / 0x4_0000 == 4 ==> v / 0x1000 % 0x40 <= 0xF
  {
    var q := v / 0x1000;
    assert q / 0x40 == v / 0x4_0000 && 0x10 <= q <= 0x10F;
  }

  function SixBits(c: char): nat
    requires Within(c, 0x80, 0xBF)
  {
    c as int - 0x80
  }

  lemma TwoBytes(a: char, b: char) returns (v: Scalar)
    requires Within(a, 0xC2, 0xDF) && Within(b, 0x80, 0xBF)
    ensures EncodeScalar(v) == [a, b]
  {
    v := (a as int - 0xC0) * 0x40 + SixBits(b);
  }

  lemma ThreeBytes(a: char, b: char, c: char) returns (v: Scalar)
    requires Within(a, 0xE0, 0xEF) && Within(b, 0x80, 0xBF) && Within(c, 0x80, 0xBF)
    requires (a as int == 0xE0 ==> b as int >= 0xA0) && (a as int == 0xED ==> b as int <= 0x9F)
    ensures EncodeScalar(v) == [a, b, c]
  {
    v := ThreeDigits(a as int - 0xE0, SixBits(b), SixBits(c));
    assert Leader(0xE0, v / 0x1000) == a && Follower(v / 0x40) == b && Follower(v) == c;
  }

  lemma ThreeDigits(p: nat, q: nat, r: nat) returns (v: nat)
    requires p <= 0xF && q < 0x40 && r < 0x40 && (p == 0 ==> q >= 0x20) && (p == 0xD ==> q <= 0x1F)
    ensures 0x800 <= v <= 0xD7FF || 0xE000 <= v <= 0xFFFF
    ensures v / 0x1000 == p && v / 0x40 % 0x40 == q && v % 0x40 == r
  {
    var top := p * 0x40 + q;
    v := top * 0x40 + r;
    assert v / 0x40 == top;
  }

  lemma FourBytes(a: char, b: char, c: char, d: char) returns (v: Scalar)
    requires Within(a, 0xF0, 0xF4) && Within(b, 0x80, 0xBF) && Within(c, 0x80, 0xBF) && Within(d, 0x80, 0xBF)
    requires (a as int == 0xF0 ==> b as int >= 0x90) && (a as int == 0xF4 ==> b as int <= 0x8F)
    ensures EncodeScalar(v) == [a, b, c, d]
  {
    v := FourDigits(a as int - 0xF0, SixBits(b), SixBits(c), SixBits(d));
    assert Leader(0xF0, v / 0x4_0000) == a && Follower(v / 0x1000) == b && Follower(v / 0x40) == c && Follower(v) == d;
  }

  lemma FourDigits(p: nat, q: nat, r: nat, t: nat) returns (v: nat)
    requires p <= 4 && q < 0x40 && r < 0x40 && t < 0x40 && (p == 0 ==> q >= 0x10) && (p == 4 ==> q <= 0xF)
    ensures 0x1_0000 <= v <= 0x10_FFFF
    ensures v / 0x4_0000 == p && v / 0x1000 % 0x40 == q && v / 0x40 % 0x40 == r && v % 0x40 == t
  {
    var top := p * 0x40 + q;
    var mid := top * 0x40 + r;
    v := mid * 0x40 + t;
    assert v / 0x40 == mid;
    assert v / 0x1000 == top;
  }

  lemma SequenceIsScalar(s: string) returns (v: Scalar)
    requires s != "" && SequenceLength(s) > 0
    ensures EncodeScalar(v) == s[..SequenceLength(s)]
  {
    var n := SequenceLength(s);
    if n == 1 {
      v := s[0] as int;
    } else if n == 2 {
      v := TwoBytes(s[0], s[1]);
    } else if n == 3 {
      v := ThreeBytes(s[0], s[1], s[2]);
    } else {
      v := FourBytes(s[0], s[1], s[2], s[3]);
    }
  }

  lemma {:induction false} EncodedIsValid(vs: seq<Scalar>)
    ensures ValidUtf8(EncodeAll(vs))
  {
    if vs != [] {
      EncodedIsValid(vs[1..]);
      ScalarIsSequence(vs[0], EncodeAll(vs[1..]));
      assert EncodeAll(vs)[|EncodeScalar(vs[0])|..] == EncodeAll(vs[1..]);
    }
  }

  lemma {:induction false} ValidIsEncoded(s: string) returns (vs: seq<Scalar>)
    requires ValidUtf8(s)
    ensures EncodeAll(vs) == s
    decreases |s|
  {
    if s == "" {
      vs := [];
    } else {
      var n := SequenceLength(s);
      var v := SequenceIsScalar(s);
      var rest := ValidIsEncoded(s[n..]);
      vs := [v] + rest;
      assert vs[1..] == rest;
    }
  }

  // The encoding of some scalar values.
  ghost predicate IsUtf8(s: string) {
    exists vs :: EncodeAll(vs) == s
  }

  // A text passes the check exactly when it is.
  lemma ValidUtf8Iff(s: string)
    ensures ValidUtf8(s) <==> IsUtf8(s)
  {
    if ValidUtf8(s) {
      var vs := ValidIsEncoded(s);
    }
    if vs :| EncodeAll(vs) == s {
      EncodedIsValid(vs);
    }
  }
}
