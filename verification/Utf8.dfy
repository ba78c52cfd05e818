// Texts and their characters: the well-formed byte sequences are exactly the encodings of the
// sequences of Unicode scalar values (section 3 of RFC 3629).
module Utf8 {
  import opened Net
  import opened Text

  // The surrogates are not scalar values.
  predicate IsScalar(x: nat) { x < 0xD800 || 0xE000 <= x < 0x11_0000 }

  // Six bits a byte after the first, most significant first.
  function Encoded(x: nat): (b: Bytes)
    requires IsScalar(x)
    ensures 1 <= |b| <= 4
  {
    var q := x / 0x40;
    var r := q / 0x40;
    if x < 0x80 then [x]
    else if x < 0x800 then [0xC0 + q, 0x80 + x % 0x40]
    else if x < 0x1_0000 then [0xE0 + r, 0x80 + q % 0x40, 0x80 + x % 0x40]
    else [0xF0 + r / 0x40, 0x80 + r % 0x40, 0x80 + q % 0x40, 0x80 + x % 0x40]
  }

  function EncodedAll(xs: seq<nat>): Bytes
    requires forall x :: x in xs ==> IsScalar(x)
  {
    if xs == [] then [] else Encoded(xs[0]) + EncodedAll(xs[1..])
  }

  // A scalar value is read back from its encoding, whatever follows.
  lemma ScalarIsRead(x: nat, rest: Bytes)
    requires IsScalar(x)
    ensures CharWidth(Encoded(x) + rest) == |Encoded(x)| && FirstScalar(Encoded(x) + rest) == x
  {
    var q := x / 0x40;
    var r := q / 0x40;
    var e, s := Encoded(x), Encoded(x) + rest;
    assert x == q * 0x40 + x % 0x40 && q == r * 0x40 + q % 0x40 && r == r / 0x40 * 0x40 + r % 0x40;
    assert forall i :: 0 <= i < |e| ==> s[i] == e[i];
    if x >= 0x1_0000 {
      FourBytes(r / 0x40, r % 0x40, q % 0x40, x % 0x40, s);
    } else if x >= 0x800 {
      ThreeBytes(r, q % 0x40, x % 0x40, s);
    }
  }

  lemma ThreeBytes(a: nat, b: nat, c: nat, s: Bytes)
    requires a < 0x10 && b < 0x40 && c < 0x40 && 0x800 <= a * 0x1000 + b * 0x40 + c
    requires IsScalar(a * 0x1000 + b * 0x40 + c)
    requires |s| >= 3 && s[0] == 0xE0 + a && s[1] == 0x80 + b && s[2] == 0x80 + c
    ensures CharWidth(s) == 3 && FirstScalar(s) == a * 0x1000 + b * 0x40 + c
  {
  }

  lemma FourBytes(a: nat, b: nat, c: nat, d: nat, s: Bytes)
    requires a < 8 && b < 0x40 && c < 0x40 && d < 0x40
    requires 0x1_0000 <= a * 0x4_0000 + b * 0x1000 + c * 0x40 + d < 0x11_0000
    requires |s| >= 4 && s[0] == 0xF0 + a && s[1] == 0x80 + b && s[2] == 0x80 + c && s[3] == 0x80 + d
    ensures CharWidth(s) == 4 && FirstScalar(s) == a * 0x4_0000 + b * 0x1000 + c * 0x40 + d
  {
  }

  lemma Digit(q: nat, d: nat)
    requires d < 0x40
    ensures (q * 0x40 + d) / 0x40 == q && (q * 0x40 + d) % 0x40 == d
  {
  }

  // And nothing else is read.
  lemma ReadIsScalar(s: Bytes)
    requires CharWidth(s) > 0
    ensures IsScalar(FirstScalar(s)) && s[..CharWidth(s)] == Encoded(FirstScalar(s))
  {
    var x := FirstScalar(s);
    match CharWidth(s)
    case 1 => assert s[..1] == [s[0]];
    case 2 =>
      Digit(s[0] - 0xC0, s[1] - 0x80);
      assert s[..2] == [s[0], s[1]];
    case 3 => ReadThree(s[0] - 0xE0, s[1] - 0x80, s[2] - 0x80, s);
    case _ => ReadFour(s[0] - 0xF0, s[1] - 0x80, s[2] - 0x80, s[3] - 0x80, s);
  }

  lemma ReadThree(a: nat, b: nat, c: nat, s: Bytes)
    requires CharWidth(s) == 3 && s[0] == 0xE0 + a && s[1] == 0x80 + b && s[2] == 0x80 + c
    ensures IsScalar(FirstScalar(s)) && s[..3] == Encoded(FirstScalar(s))
  {
    Digit(a * 0x40 + b, c);
    Digit(a, b);
    assert FirstScalar(s) == (a * 0x40 + b) * 0x40 + c;
    assert s[..3] == [s[0], s[1], s[2]];
  }

  lemma ReadFour(a: nat, b: nat, c: nat, d: nat, s: Bytes)
    requires CharWidth(s) == 4 && s[0] == 0xF0 + a && s[1] == 0x80 + b && s[2] == 0x80 + c && s[3] == 0x80 + d
    ensures IsScalar(FirstScalar(s)) && s[..4] == Encoded(FirstScalar(s))
  {
    Digit((a * 0x40 + b) * 0x40 + c, d);
    Digit(a * 0x40 + b, c);
    Digit(a, b);
    assert FirstScalar(s) == ((a * 0x40 + b) * 0x40 + c) * 0x40 + d;
    assert s[..4] == [s[0], s[1], s[2], s[3]];
  }

  lemma OneMore(x: nat, xs: seq<nat>)
    requires IsScalar(x) && forall y :: y in xs ==> IsScalar(y)
    ensures forall y :: y in [x] + xs ==> IsScalar(y)
    ensures EncodedAll([x] + xs) == Encoded(x) + EncodedAll(xs)
  {
    assert ([x] + xs)[1..] == xs;
  }

  lemma Rejoined(s: Bytes, w: nat, a: Bytes, b: Bytes)
    requires w <= |s| && s[..w] == a && s[w..] == b
    ensures a + b == s
  {
  }

  // A text is the encoding of its characters, and they are scalar values.
  lemma {:induction false} TextIsScalars(s: Str)
    ensures (forall x :: x in Chars(s) ==> IsScalar(x)) && EncodedAll(Chars(s)) == s
    decreases |s|
  {
    if s != [] {
      var w, x := CharWidth(s), FirstScalar(s);
      var rest := s[w..];
      ReadIsScalar(s);
      TextIsScalars(rest);
      assert Chars(s) == [x] + Chars(rest);
      OneMore(x, Chars(rest));
      Rejoined(s, w, Encoded(x), EncodedAll(Chars(rest)));
    }
  }

  // And the encoding of any scalar values is a text with those characters.
  lemma {:induction false} ScalarsAreText(xs: seq<nat>)
    requires forall x :: x in xs ==> IsScalar(x)
    ensures ValidUtf8(EncodedAll(xs)) && Chars(EncodedAll(xs)) == xs
  {
    if xs != [] {
      var s, rest := EncodedAll(xs), EncodedAll(xs[1..]);
      ScalarIsRead(xs[0], rest);
      ScalarsAreText(xs[1..]);
      assert s[CharWidth(s)..] == rest;
    }
  }

}
