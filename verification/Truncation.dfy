// What the zeros behind a short body can stand for. The server decodes a buffer that was zero
// before, so a frame that leaves out the end of its body may still be read; as what the full body
// says exactly when the bytes left out are all zero.
module Truncation {
  import opened Wrappers
  import opened Net
  import opened Text
  import opened Protocol
  import opened Postcard
  import opened Wire

  predicate AllZero(b: Bytes) { forall i :: 0 <= i < |b| ==> b[i] == 0 }

  // The first n bytes of code e, then zeros.
  function Cut(e: Bytes, n: nat, k: nat): Bytes
    requires n <= |e|
  {
    e[..n] + Zeros(k)
  }

  // However code e of v is cut, and filled up with zeros to its length or beyond: if it still
  // decodes to v, only zeros were cut.
  ghost predicate Tight<T>(v: T, e: Bytes, dec: Bytes -> Parse<T>) {
    forall n: nat, k: nat :: n <= |e| && k >= |e| - n && dec(Cut(e, n, k)).Good? && dec(Cut(e, n, k)).value == v ==>
      AllZero(e[n..])
  }

  ghost predicate Undone<T>(v: T, e: Bytes, dec: Bytes -> Parse<T>) {
    forall rest :: dec(e + rest) == Good(v, rest)
  }

  // A cut code of two parts, of which the first still decodes, leaves a cut code of the second.
  lemma CutHead<T>(v: T, e1: Bytes, dec: Bytes -> Parse<T>, e2: Bytes, n: nat, k: nat) returns (n2: nat, k2: nat)
    requires Undone(v, e1, dec) && Tight(v, e1, dec) && n <= |e1 + e2| && k >= |e1 + e2| - n
    requires dec(Cut(e1 + e2, n, k)).Good? && dec(Cut(e1 + e2, n, k)).value == v
    ensures n2 <= |e2| && k2 >= |e2| - n2 && dec(Cut(e1 + e2, n, k)).rest == Cut(e2, n2, k2)
    ensures AllZero(e2[n2..]) ==> AllZero((e1 + e2)[n..])
  {
    if n >= |e1| {
      n2, k2 := n - |e1|, k;
      assert Cut(e1 + e2, n, k) == e1 + Cut(e2, n2, k2);
      assert (e1 + e2)[n..] == e2[n2..];
    } else {
      n2, k2 := 0, k - (|e1| - n);
      assert Cut(e1 + e2, n, k) == Cut(e1, n, k);
      assert AllZero(e1[n..]);
      assert Cut(e1, n, k) == e1 + Zeros(k2);
      assert e2[..0] + Zeros(k2) == Zeros(k2);
      assert (e1 + e2)[n..] == e1[n..] + e2;
      assert e2[0..] == e2;
    }
  }

  // ---------- Numbers ----------

  lemma {:induction false} VarintCut(v: nat, bytes: nat, last: uint8, n: nat, k: nat)
    requires n <= |EncVarint(v)| && DecVarint(Cut(EncVarint(v), n, k), bytes, last).Good?
    requires DecVarint(Cut(EncVarint(v), n, k), bytes, last).value == v
    ensures AllZero(EncVarint(v)[n..])
  {
    var e := EncVarint(v);
    var y := Cut(e, n, k);
    if n == 0 {
      assert y[0] == 0;
    } else if v >= 0x80 {
      var rest := EncVarint(v / 0x80);
      assert e[1..] == rest && y[0] == e[0] && y[1..] == Cut(rest, n - 1, k);
      var q := DecVarint(y[1..], bytes - 1, last);
      assert q.Good? && v % 0x80 + 0x80 * q.value == v;
      assert q.value == v / 0x80;
      VarintCut(v / 0x80, bytes - 1, last, n - 1, k);
      assert e[n..] == rest[n - 1..];
    }
  }

  lemma Tight16(v: uint16)
    ensures Tight(v, EncVarint(v), Dec16) && Undone(v, EncVarint(v), Dec16)
  {
    forall n: nat, k: nat | n <= |EncVarint(v)| && Dec16(Cut(EncVarint(v), n, k)).Good?
        && Dec16(Cut(EncVarint(v), n, k)).value == v
      ensures AllZero(EncVarint(v)[n..])
    {
      VarintCut(v, 3, 3, n, k);
    }
    forall rest ensures Dec16(EncVarint(v) + rest) == Good(v, rest) { RoundTrip16(v, rest); }
  }

  lemma Tight32(v: uint32)
    ensures Tight(v, EncVarint(v), Dec32) && Undone(v, EncVarint(v), Dec32)
  {
    forall n: nat, k: nat | n <= |EncVarint(v)| && Dec32(Cut(EncVarint(v), n, k)).Good?
        && Dec32(Cut(EncVarint(v), n, k)).value == v
      ensures AllZero(EncVarint(v)[n..])
    {
      VarintCut(v, 5, 15, n, k);
    }
    forall rest ensures Dec32(EncVarint(v) + rest) == Good(v, rest) { RoundTrip32(v, rest); }
  }

  lemma Tight64(v: uint64)
    ensures Tight(v, EncVarint(v), Dec64) && Undone(v, EncVarint(v), Dec64)
  {
    forall n: nat, k: nat | n <= |EncVarint(v)| && Dec64(Cut(EncVarint(v), n, k)).Good?
        && Dec64(Cut(EncVarint(v), n, k)).value == v
      ensures AllZero(EncVarint(v)[n..])
    {
      VarintCut(v, 10, 1, n, k);
    }
    forall rest ensures Dec64(EncVarint(v) + rest) == Good(v, rest) { RoundTrip64(v, rest); }
  }

  // Octets are determined by their value.
  lemma {:induction false} OctetsOf(b: Bytes)
    ensures EncBigEndian(DecBigEndian(b), |b|) == b
  {
    if b != [] {
      var n := |b| - 1;
      OctetsOf(b[..n]);
      var x: nat := DecBigEndian(b[..n]);
      assert (x * 0x100 + b[n]) / 0x100 == x && (x * 0x100 + b[n]) % 0x100 == b[n];
    }
  }

  lemma TightIpv4(x: Ipv4Addr)
    ensures Tight(x, EncBigEndian(x, 4), DecIpv4) && Undone(x, EncBigEndian(x, 4), DecIpv4)
  {
    var e := EncBigEndian(x, 4);
    forall n: nat, k: nat | n <= |e| && k >= |e| - n && DecIpv4(Cut(e, n, k)).Good? && DecIpv4(Cut(e, n, k)).value == x
      ensures AllZero(e[n..])
    {
      var y := Cut(e, n, k);
      OctetsOf(y[..4]);
      assert forall i :: n <= i < 4 ==> y[i] == 0;
    }
    forall rest ensures DecIpv4(e + rest) == Good(x, rest) { RoundTripIpv4(x, rest); }
  }

  lemma TightIpv6(x: Ipv6Addr)
    ensures Tight(x, EncBigEndian(x, 16), DecIpv6) && Undone(x, EncBigEndian(x, 16), DecIpv6)
  {
    var e := EncBigEndian(x, 16);
    forall n: nat, k: nat | n <= |e| && k >= |e| - n && DecIpv6(Cut(e, n, k)).Good? && DecIpv6(Cut(e, n, k)).value == x
      ensures AllZero(e[n..])
    {
      var y := Cut(e, n, k);
      OctetsOf(y[..16]);
      assert forall i :: n <= i < 16 ==> y[i] == 0;
    }
    forall rest ensures DecIpv6(e + rest) == Good(x, rest) { RoundTripIpv6(x, rest); }
  }

  lemma TightBool(x: bool)
    ensures Tight(x, EncBool(x), DecBool)
  {
    forall n: nat, k: nat | n <= 1 && k >= 1 - n && DecBool(Cut(EncBool(x), n, k)).Good?
        && DecBool(Cut(EncBool(x), n, k)).value == x
      ensures AllZero(EncBool(x)[n..])
    {
      if n == 0 {
        assert Cut(EncBool(x), n, k)[0] == 0;
      }
    }
  }

  // ---------- Texts, options and addresses ----------

  lemma TightStr(s: Str)
    requires |s| < USIZE
    ensures Tight(s, EncStr(s), DecStr) && Undone(s, EncStr(s), DecStr)
  {
    var e := EncStr(s);
    forall n: nat, k: nat | n <= |e| && k >= |e| - n && DecStr(Cut(e, n, k)).Good? && DecStr(Cut(e, n, k)).value == s
      ensures AllZero(e[n..])
    {
      var length: uint64 := |s|;
      Tight64(length);
      var n2, k2 := CutHead(length, EncVarint(|s|), Dec64, s, n, k);
      var y := Cut(s, n2, k2);
      assert y[..|s|] == s;
      assert forall i :: n2 <= i < |s| ==> y[i] == 0 && y[..|s|][i] == y[i];
    }
    forall rest ensures DecStr(e + rest) == Good(s, rest) { RoundTripStr(s, rest); }
  }

  // A cut option still holds its address only when its tag is there.
  lemma SomeIpv6Cut(a: Ipv6Addr, n: nat, k: nat)
    requires n <= 17 && k >= 17 - n
    requires DecOptIpv6(Cut(EncOptIpv6(Some(a)), n, k)).Good?
        && DecOptIpv6(Cut(EncOptIpv6(Some(a)), n, k)).value == Some(a)
    ensures AllZero(EncOptIpv6(Some(a))[n..])
  {
    var e, octets := EncOptIpv6(Some(a)), EncBigEndian(a, 16);
    var y := Cut(e, n, k);
    if n == 0 {
      assert false;
    } else {
      assert y[1..] == Cut(octets, n - 1, k) && y[0] == 1;
      TightIpv6(a);
      assert DecIpv6(y[1..]).Good? && DecIpv6(y[1..]).value == a;
      assert e[n..] == octets[n - 1..];
    }
  }

  lemma TightOptIpv6(x: Option<Ipv6Addr>)
    ensures Tight(x, EncOptIpv6(x), DecOptIpv6) && Undone(x, EncOptIpv6(x), DecOptIpv6)
  {
    var e := EncOptIpv6(x);
    forall n: nat, k: nat | n <= |e| && k >= |e| - n && DecOptIpv6(Cut(e, n, k)).Good?
        && DecOptIpv6(Cut(e, n, k)).value == x
      ensures AllZero(e[n..])
    {
      match x
      case None =>
      case Some(a) => SomeIpv6Cut(a, n, k);
    }
    forall rest ensures DecOptIpv6(e + rest) == Good(x, rest) { RoundTripOptIpv6(x, rest); }
  }

  lemma PrefixCut(p: uint8, n: nat, k: nat)
    requires n <= 1 && k >= 1 - n && Cut([p], n, k)[0] == p
    ensures AllZero([p][n..])
  {
    if n == 0 {
      assert Cut([p], n, k) == Zeros(k);
    }
  }

  lemma IpNetCut(x: IpNet, n: nat, k: nat)
    requires n <= |EncIpNet(x)| && k >= |EncIpNet(x)| - n
    requires DecIpNet(Cut(EncIpNet(x), n, k)).Good? && DecIpNet(Cut(EncIpNet(x), n, k)).value == x
    ensures AllZero(EncIpNet(x)[n..])
  {
    match x
    case Net4(a, p) =>
      var octets := EncBigEndian(a, 4);
      assert EncIpNet(x) == EncVarint(0) + (octets + [p]);
      Tight32(0);
      var n2, k2 := CutHead(0, EncVarint(0), Dec32, octets + [p], n, k);
      TightIpv4(a);
      var n3, k3 := CutHead(a, octets, DecIpv4, [p], n2, k2);
      PrefixCut(p, n3, k3);
    case Net6(a, p) =>
      var octets := EncBigEndian(a, 16);
      assert EncIpNet(x) == EncVarint(1) + (octets + [p]);
      Tight32(1);
      var n2, k2 := CutHead(1, EncVarint(1), Dec32, octets + [p], n, k);
      TightIpv6(a);
      var n3, k3 := CutHead(a, octets, DecIpv6, [p], n2, k2);
      PrefixCut(p, n3, k3);
  }

  // ---------- Sequences ----------

  ghost predicate TightAll<T(!new)>(xs: seq<T>, enc: T -> Bytes, dec: Bytes -> Parse<T>) {
    forall x :: x in xs ==> Tight(x, enc(x), dec) && Undone(x, enc(x), dec)
  }

  lemma {:induction false} ManyCut<T(!new)>(xs: seq<T>, enc: T -> Bytes, dec: Bytes -> Parse<T>, n: nat, k: nat)
    requires TightAll(xs, enc, dec) && n <= |EncMany(xs, enc)| && k >= |EncMany(xs, enc)| - n
    requires DecMany(Cut(EncMany(xs, enc), n, k), |xs|, dec).Good?
    requires DecMany(Cut(EncMany(xs, enc), n, k), |xs|, dec).value == xs
    ensures AllZero(EncMany(xs, enc)[n..])
  {
    if xs != [] {
      assert xs[0] in xs && forall x :: x in xs[1..] ==> x in xs;
      var head := dec(Cut(EncMany(xs, enc), n, k));
      var tail := DecMany(head.rest, |xs| - 1, dec);
      assert [head.value] + tail.value == xs;
      assert head.value == xs[0] && tail.value == xs[1..];
      var n2, k2 := CutHead(xs[0], enc(xs[0]), dec, EncMany(xs[1..], enc), n, k);
      ManyCut(xs[1..], enc, dec, n2, k2);
    }
  }

  lemma SeqCut<T(!new)>(xs: seq<T>, enc: T -> Bytes, dec: Bytes -> Parse<T>, n: nat, k: nat)
    requires TightAll(xs, enc, dec) && n <= |EncSeq(xs, enc)| && k >= |EncSeq(xs, enc)| - n && |xs| < USIZE
    requires DecSeq(Cut(EncSeq(xs, enc), n, k), dec).Good? && DecSeq(Cut(EncSeq(xs, enc), n, k), dec).value == xs
    ensures AllZero(EncSeq(xs, enc)[n..])
  {
    var length: uint64 := |xs|;
    Tight64(length);
    var y := Cut(EncSeq(xs, enc), n, k);
    ManyTakes(Dec64(y).rest, Dec64(y).value, dec);
    var n2, k2 := CutHead(length, EncVarint(|xs|), Dec64, EncMany(xs, enc), n, k);
    ManyCut(xs, enc, dec, n2, k2);
  }

  lemma {:induction false} ManyTakes<T>(b: Bytes, n: nat, dec: Bytes -> Parse<T>)
    requires DecMany(b, n, dec).Good?
    ensures |DecMany(b, n, dec).value| == n
    decreases n
  {
    if n > 0 {
      ManyTakes(dec(b).rest, n - 1, dec);
    }
  }

  lemma TightPeers(xs: seq<Str>)
    requires |EncSeq(xs, EncStr)| < USIZE
    ensures Tight(xs, EncSeq(xs, EncStr), (b: Bytes) => DecSeq(b, DecStr))
    ensures Undone(xs, EncSeq(xs, EncStr), (b: Bytes) => DecSeq(b, DecStr))
  {
    UndoesStr(xs);
    ManyLength(xs, EncStr);
    forall x | x in xs ensures Tight(x, EncStr(x), DecStr) && Undone(x, EncStr(x), DecStr) { TightStr(x); }
    var e := EncSeq(xs, EncStr);
    forall n: nat, k: nat | n <= |e| && k >= |e| - n && DecSeq(Cut(e, n, k), DecStr).Good?
        && DecSeq(Cut(e, n, k), DecStr).value == xs
      ensures AllZero(e[n..])
    {
      SeqCut(xs, EncStr, DecStr, n, k);
    }
    forall rest ensures DecSeq(e + rest, DecStr) == Good(xs, rest) { SeqRoundTrip(xs, EncStr, DecStr, rest); }
  }

  lemma TightLan(xs: seq<IpNet>)
    requires |EncSeq(xs, EncIpNet)| < USIZE
    ensures Tight(xs, EncSeq(xs, EncIpNet), (b: Bytes) => DecSeq(b, DecIpNet))
    ensures Undone(xs, EncSeq(xs, EncIpNet), (b: Bytes) => DecSeq(b, DecIpNet))
  {
    UndoesIpNet(xs);
    ManyLength(xs, EncIpNet);
    forall x | x in xs ensures Tight(x, EncIpNet(x), DecIpNet) && Undone(x, EncIpNet(x), DecIpNet) {
      forall n: nat, k: nat | n <= |EncIpNet(x)| && k >= |EncIpNet(x)| - n
        && DecIpNet(Cut(EncIpNet(x), n, k)).Good? && DecIpNet(Cut(EncIpNet(x), n, k)).value == x
        ensures AllZero(EncIpNet(x)[n..])
      {
        IpNetCut(x, n, k);
      }
    }
    var e := EncSeq(xs, EncIpNet);
    forall n: nat, k: nat | n <= |e| && k >= |e| - n && DecSeq(Cut(e, n, k), DecIpNet).Good?
        && DecSeq(Cut(e, n, k), DecIpNet).value == xs
      ensures AllZero(e[n..])
    {
      SeqCut(xs, EncIpNet, DecIpNet, n, k);
    }
    forall rest ensures DecSeq(e + rest, DecIpNet) == Good(xs, rest) { LanRoundTrip(xs, rest); }
  }

  // ---------- Announcements ----------

  // The decoder's way through an announcement.
  lemma Parts(b: Bytes) returns (b1: Bytes, b2: Bytes, b3: Bytes, b4: Bytes, b5: Bytes)
    requires DecAnnouncement(b).Good?
    ensures var a := DecAnnouncement(b).value;
            && DecStr(b) == Good(a.initiator, b1) && DecSeq(b1, DecStr) == Good(a.peers, b2)
            && DecOptIpv6(b2) == Good(a.ipv6, b3) && Dec16(b3) == Good(a.wgPort, b4)
            && DecSeq(b4, DecIpNet) == Good(a.lanAddrs, b5)
            && DecBool(b5).Good? && DecBool(b5).value == a.needsRelay
  {
    b1 := DecStr(b).rest;
    b2 := DecSeq(b1, DecStr).rest;
    b3 := DecOptIpv6(b2).rest;
    b4 := Dec16(b3).rest;
    b5 := DecSeq(b4, DecIpNet).rest;
  }

  // The last three fields.
  lemma TailCut(port: uint16, lan: seq<IpNet>, relay: bool, n: nat, k: nat, b4: Bytes, b5: Bytes)
    requires |EncSeq(lan, EncIpNet)| < USIZE
    requires n <= |EncVarint(port) + (EncSeq(lan, EncIpNet) + EncBool(relay))| <= n + k
    requires Dec16(Cut(EncVarint(port) + (EncSeq(lan, EncIpNet) + EncBool(relay)), n, k)) == Good(port, b4)
    requires DecSeq(b4, DecIpNet) == Good(lan, b5) && DecBool(b5).Good? && DecBool(b5).value == relay
    ensures AllZero((EncVarint(port) + (EncSeq(lan, EncIpNet) + EncBool(relay)))[n..])
  {
    Tight16(port);
    var n2, k2 := CutHead(port, EncVarint(port), Dec16, EncSeq(lan, EncIpNet) + EncBool(relay), n, k);
    TightLan(lan);
    var n3, k3 := CutHead(lan, EncSeq(lan, EncIpNet), (b: Bytes) => DecSeq(b, DecIpNet), EncBool(relay), n2, k2);
    TightBool(relay);
  }

  ghost predicate Says(y: Bytes, a: Announcement) {
    DecAnnouncement(y).Good? && DecAnnouncement(y).value == a
  }

  lemma AnnouncementCut(a: Announcement, e: Bytes, n: nat, k: nat, y: Bytes)
    requires e == EncAnnouncement(a) && |e| < USIZE && n <= |e| && k >= |e| - n && y == Cut(e, n, k) && Says(y, a)
    ensures AllZero(e[n..])
  {
    var b1, b2, b3, b4, b5 := Parts(y);
    var tail := EncVarint(a.wgPort) + (EncSeq(a.lanAddrs, EncIpNet) + EncBool(a.needsRelay));
    var e3, e2 := EncOptIpv6(a.ipv6), EncSeq(a.peers, EncStr);
    TightStr(a.initiator);
    var n2, k2 := CutHead(a.initiator, EncStr(a.initiator), DecStr, e2 + (e3 + tail), n, k);
    TightPeers(a.peers);
    var n3, k3 := CutHead(a.peers, e2, (b: Bytes) => DecSeq(b, DecStr), e3 + tail, n2, k2);
    TightOptIpv6(a.ipv6);
    var n4, k4 := CutHead(a.ipv6, e3, DecOptIpv6, tail, n3, k3);
    TailCut(a.wgPort, a.lanAddrs, a.needsRelay, n4, k4, b4, b5);
  }

  lemma FrameIsRead(body: Bytes, a: Announcement)
    requires |body| <= MAX_MESSAGE_SIZE
    ensures ParseRequest(Frame(body)) == (if Valid(a) then Accepted(a) else Invalid(a)) <==>
            Says(Padded(body), a)
  {
    assert Frame(body) + [] == Frame(body);
    UnframeFrame(body, []);
  }

  lemma ZerosAreRead(a: Announcement, e: Bytes, n: nat, y: Bytes)
    requires e == EncAnnouncement(a) && n <= |e| <= MAX_MESSAGE_SIZE && AllZero(e[n..])
    requires y == Cut(e, n, MAX_MESSAGE_SIZE - n)
    ensures DecAnnouncement(y).Good? && DecAnnouncement(y).value == a
  {
    assert y == e + Zeros(MAX_MESSAGE_SIZE - |e|) by {
      assert forall i :: n <= i < |e| ==> e[i] == e[n..][i - n];
    }
    AnnouncementRoundTrip(a, Zeros(MAX_MESSAGE_SIZE - |e|));
  }

  lemma SaysIfZeros(a: Announcement, e: Bytes, n: nat, y: Bytes)
    requires e == EncAnnouncement(a) && n <= |e| <= MAX_MESSAGE_SIZE && y == Cut(e, n, MAX_MESSAGE_SIZE - n)
    ensures AllZero(e[n..]) ==> Says(y, a)
  {
    if AllZero(e[n..]) {
      ZerosAreRead(a, e, n, y);
    }
  }

  lemma SaysOnlyIfZeros(a: Announcement, e: Bytes, n: nat, y: Bytes)
    requires e == EncAnnouncement(a) && n <= |e| <= MAX_MESSAGE_SIZE && y == Cut(e, n, MAX_MESSAGE_SIZE - n)
    ensures Says(y, a) ==> AllZero(e[n..])
  {
    if Says(y, a) {
      AnnouncementCut(a, e, n, MAX_MESSAGE_SIZE - n, y);
    }
  }

  lemma PaddedIsCut(e: Bytes, n: nat)
    requires n <= |e| <= MAX_MESSAGE_SIZE
    ensures Padded(e[..n]) == Cut(e, n, MAX_MESSAGE_SIZE - n)
  {
  }

  // A frame that leaves out the end of an announcement's body is read as that announcement exactly
  // when all it leaves out is zero.
  lemma CutFrameIsRead(a: Announcement, n: nat)
    requires n <= |EncAnnouncement(a)| <= MAX_MESSAGE_SIZE
    ensures ParseRequest(Frame(EncAnnouncement(a)[..n])) == (if Valid(a) then Accepted(a) else Invalid(a))
            <==> AllZero(EncAnnouncement(a)[n..])
  {
    FrameIsRead(EncAnnouncement(a)[..n], a);
    PaddedIsCut(EncAnnouncement(a), n);
    var y := Cut(EncAnnouncement(a), n, MAX_MESSAGE_SIZE - n);
    SaysIfZeros(a, EncAnnouncement(a), n, y);
    SaysOnlyIfZeros(a, EncAnnouncement(a), n, y);
  }

}
