// Strings as the programs hold them: byte sequences that are well-formed UTF-8 (RFC 3629,
// section 4). The characters of a string are its Unicode scalar values.
module Text {
  import opened Net

  predicate Tail(b: uint8) { 0x80 <= b <= 0xBF }

  // The length of the well-formed character that s starts with, or 0 when there is none.
  function CharWidth(s: Bytes): (w: nat)
    ensures w <= |s| && w <= 4
  {
    if |s| == 0 then 0
    else if s[0] <= 0x7F then 1
    else if 0xC2 <= s[0] <= 0xDF then
      if |s| >= 2 && Tail(s[1]) then 2 else 0
    else if 0xE0 <= s[0] <= 0xEF then
      if |s| >= 3 && Tail(s[1]) && Tail(s[2])
         && (s[0] == 0xE0 ==> s[1] >= 0xA0) && (s[0] == 0xED ==> s[1] <= 0x9F)
      then 3 else 0
    else if 0xF0 <= s[0] <= 0xF4 then
      if |s| >= 4 && Tail(s[1]) && Tail(s[2]) && Tail(s[3])
         && (s[0] == 0xF0 ==> s[1] >= 0x90) && (s[0] == 0xF4 ==> s[1] <= 0x8F)
      then 4 else 0
    else 0
  }

  predicate ValidUtf8(s: Bytes)
  {
    s == [] || (CharWidth(s) > 0 && ValidUtf8(s[CharWidth(s)..]))
  }

  type Str = s: Bytes | ValidUtf8(s)

  // What a byte carries below its marker bits.
  function Payload(b: uint8, marker: nat): nat
    requires marker <= b
  {
    b - marker
  }

  function FirstScalar(s: Bytes): nat
    requires CharWidth(s) > 0
  {
    match CharWidth(s)
    case 1 => s[0]
    case 2 => Payload(s[0], 0xC0) * 0x40 + Payload(s[1], 0x80)
    case 3 => Payload(s[0], 0xE0) * 0x1000 + Payload(s[1], 0x80) * 0x40 + Payload(s[2], 0x80)
    case _ =>
      Payload(s[0], 0xF0) * 0x4_0000 + Payload(s[1], 0x80) * 0x1000 + Payload(s[2], 0x80) * 0x40
      + Payload(s[3], 0x80)
  }

  function Chars(s: Str): seq<nat>
    decreases |s|
  {
    if s == [] then [] else [FirstScalar(s)] + Chars(s[CharWidth(s)..])
  }

  // A set of ASCII characters is found in the characters of a string exactly when it is found
  // in its bytes: no byte of a longer character is an ASCII byte.
  lemma {:induction false} AsciiScan(s: Str, ascii: set<nat>)
    requires forall c :: c in ascii ==> c <= 0x7F
    ensures (forall c :: c in Chars(s) ==> c in ascii) <==> (forall b :: b in s ==> b in ascii)
    decreases |s|
  {
    if s != [] {
      var w := CharWidth(s);
      AsciiScan(s[w..], ascii);
      assert s == s[..w] + s[w..];
      assert s[0] in s && FirstScalar(s) in Chars(s);
      assert Chars(s)[1..] == Chars(s[w..]);
      forall c | c in Chars(s) ensures c == FirstScalar(s) || c in Chars(s[w..]) {}
      if w == 1 {
        assert s[..1] == [s[0]];
      } else {
        assert s[0] !in ascii && FirstScalar(s) !in ascii;
      }
    }
  }

}
