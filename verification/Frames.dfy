// What each side reads, in terms of the bytes that arrive.
module Frames {
  import opened Net
  import opened Protocol
  import opened Postcard
  import opened Wire

  // The number in the length field.
  function LengthField(b: Bytes): nat
    requires |b| >= 8
  {
    var w: nat, x: nat, y: nat, z: nat := b[4], b[5], b[6], b[7];
    w + 0x100 * x + 0x1_0000 * y + 0x100_0000 * z
  }

  predicate HasMagic(b: Bytes) {
    |b| >= 4 && b[0] == 0xFD && b[1] == 0xAC && b[2] == 0xAF
  }

  predicate HasHeader(b: Bytes) { HasMagic(b) && b[3] == 1 }

  lemma HeaderBytes(b: Bytes)
    requires |b| >= 4
    ensures b[..3] == MAGIC <==> HasMagic(b)
    ensures b[3..4] == VERSION <==> b[3] == 1
  {
    assert b[..3] == [b[0], b[1], b[2]] && b[3..4] == [b[3]];
    assert MAGIC[0] == 0xFD && MAGIC[1] == 0xAC && MAGIC[2] == 0xAF && VERSION[0] == 1;
  }

  lemma LengthBytes(b: Bytes)
    requires |b| >= 8
    ensures DecLittleEndian(b[4..8]) == LengthField(b)
  {
    var f := b[4..8];
    assert f == [b[4], b[5], b[6], b[7]];
    assert f[1..] == [b[5], b[6], b[7]] && f[1..][1..] == [b[6], b[7]] && f[1..][1..][1..] == [b[7]];
    assert DecLittleEndian([b[7]]) == b[7];
    assert DecLittleEndian([b[6], b[7]]) == b[6] as int + 0x100 * b[7] as int;
    assert DecLittleEndian([b[5], b[6], b[7]]) == b[5] as int + 0x100 * DecLittleEndian([b[6], b[7]]);
  }

  // What becomes of every input, by its bytes: the checks are made in this order, and a message is
  // the bytes after the header that the length field counts, 4096 at most.
  lemma UnframeByBytes(b: Bytes)
    ensures Unframe(b) == ShortRead <==>
              || |b| < 4
              || (HasHeader(b) && |b| < 8)
              || (HasHeader(b) && LengthField(b) <= 4096 && |b| < 8 + LengthField(b))
    ensures Unframe(b) == WrongMagic <==> |b| >= 4 && !HasMagic(b)
    ensures Unframe(b) == WrongVersion <==> HasMagic(b) && b[3] != 1
    ensures Unframe(b) == Oversized <==> HasHeader(b) && |b| >= 8 && LengthField(b) > 4096
    ensures Unframe(b).Body? <==>
              HasHeader(b) && |b| >= 8 && LengthField(b) <= 4096 && |b| >= 8 + LengthField(b)
    ensures Unframe(b).Body? ==> Unframe(b).body == b[8..8 + LengthField(b)]
  {
    if |b| >= 4 {
      HeaderBytes(b);
    }
    if |b| >= 8 {
      LengthBytes(b);
    }
  }

  // The bytes of a frame.
  lemma FrameBytes(body: Bytes)
    requires |body| < 0x1_0000_0000
    ensures |Frame(body)| == 8 + |body| && HasHeader(Frame(body)) && LengthField(Frame(body)) == |body|
    ensures Frame(body)[8..] == body
  {
    var f := Frame(body);
    assert f[..3] == MAGIC && f[3..4] == VERSION && f[4..8] == EncLittleEndian(|body|, 4);
    HeaderBytes(f);
    LengthBytes(f);
    OctetBounds();
    LittleEndianRoundTrip(|body|, 4);
  }

  // A message is taken from nothing but a frame of it.
  lemma BodyIsFramed(b: Bytes)
    requires Unframe(b).Body?
    ensures Frame(Unframe(b).body) <= b
  {
    var body := Unframe(b).body;
    var f, n := Frame(body), |body|;
    UnframeByBytes(b);
    FrameBytes(body);
    LengthIsUnique(f, b);
    forall i | 0 <= i < |f| ensures f[i] == b[i] {
      if i >= 8 {
        assert f[i] == f[8..][i - 8] == body[i - 8] == b[8..8 + n][i - 8];
      }
    }
    assert f == b[..|f|];
  }

  // The digits of a number, least significant first.
  lemma LowDigit(x: nat, q: nat, y: nat, r: nat)
    requires x < 0x100 && y < 0x100 && x + 0x100 * q == y + 0x100 * r
    ensures x == y && q == r
  {
  }

  lemma LengthIsUnique(a: Bytes, b: Bytes)
    requires |a| >= 8 && |b| >= 8 && LengthField(a) == LengthField(b)
    ensures a[4] == b[4] && a[5] == b[5] && a[6] == b[6] && a[7] == b[7]
  {
    var a6, b6 := a[6] as nat + 0x100 * a[7] as nat, b[6] as nat + 0x100 * b[7] as nat;
    var a5, b5 := a[5] as nat + 0x100 * a6, b[5] as nat + 0x100 * b6;
    LowDigit(a[4], a5, b[4], b5);
    LowDigit(a[5], a6, b[5], b6);
    LowDigit(a[6], a[7], b[6], b[7]);
  }

}
