// The body format of every message: the Postcard Wire Format ("Varint Encoded Integers" and
// "Serde Data Model Types"), for the types of Protocol, in the field order of their
// declarations. A decoder returns the value and the bytes it did not use.
module Postcard {
  import opened Wrappers
  import opened Net
  import opened Text
  import opened Protocol

  datatype Parse<+T> = Bad | Good(value: T, rest: Bytes) {
    predicate IsFailure() { Bad? }
    function PropagateFailure<U>(): Parse<U> requires Bad? { Bad }
    function Extract(): (T, Bytes) requires Good? { (value, rest) }
  }

  // ---------- Varints: seven bits a byte, least significant first ----------

  function EncVarint(v: nat): (b: Bytes)
    ensures |b| >= 1
  {
    if v < 0x80 then [v] else [v % 0x80 + 0x80] + EncVarint(v / 0x80)
  }

  // At most n bytes, of which the n-th may be at most last.
  function DecVarint(b: Bytes, n: nat, last: uint8): (p: Parse<nat>)
    ensures p.Good? && last < 0x80 ==> n >= 1 && p.value < VarintBound(n, last)
    ensures p.Good? ==> |p.rest| < |b|
  {
    if n == 0 || b == [] then Bad
    else if b[0] < 0x80 then
      if n == 1 && b[0] > last then Bad else Good(b[0], b[1..])
    else
      var (v, rest) :- DecVarint(b[1..], n - 1, last);
      Good(b[0] - 0x80 + 0x80 * v, rest)
  }

  function VarintBound(n: nat, last: uint8): (r: nat)
    requires n >= 1
    ensures r >= 1
    ensures n >= 2 ==> r >= 0x80
  {
    if n == 1 then last + 1 else 0x80 * VarintBound(n - 1, last)
  }

  lemma {:induction false} VarintRoundTrip(v: nat, n: nat, last: uint8, rest: Bytes)
    requires n >= 1 && last < 0x80 && v < VarintBound(n, last)
    ensures DecVarint(EncVarint(v) + rest, n, last) == Good(v, rest)
  {
    var e := EncVarint(v);
    if v < 0x80 {
      assert (e + rest)[1..] == rest;
    } else {
      assert n >= 2;
      VarintRoundTrip(v / 0x80, n - 1, last, rest);
      assert (e + rest)[1..] == EncVarint(v / 0x80) + rest;
    }
  }

  // The number that b carries, seven bits a byte from the least significant: the reference
  // the encoder is held to.
  function SevenBits(b: Bytes): nat {
    if b == [] then 0 else b[0] % 0x80 + 0x80 * SevenBits(b[1..])
  }

  // Exactly the last byte has its top bit clear, and a longer code does not end in a zero.
  ghost predicate CanonicalVarint(b: Bytes) {
    && |b| >= 1
    && b[|b| - 1] < 0x80
    && (forall i :: 0 <= i < |b| - 1 ==> b[i] >= 0x80)
    && (|b| > 1 ==> b[|b| - 1] != 0)
  }

  lemma {:induction false} VarintMeaning(v: nat)
    ensures CanonicalVarint(EncVarint(v)) && SevenBits(EncVarint(v)) == v
  {
    if v >= 0x80 {
      VarintMeaning(v / 0x80);
      assert EncVarint(v)[1..] == EncVarint(v / 0x80);
    }
  }

  lemma EncodeStep(low: nat, high: nat)
    requires low < 0x80
    ensures EncVarint(low + 0x80 * high) == if high == 0 then [low] else [low + 0x80] + EncVarint(high)
  {
    assert (low + 0x80 * high) % 0x80 == low && (low + 0x80 * high) / 0x80 == high;
  }

  // Decoding also takes codes that no encoder writes: re-encoding gives back the bytes read
  // exactly when they are one byte, or do not end in a zero byte.
  lemma {:induction false} DecodeThenEncode(b: Bytes, n: nat, last: uint8)
    requires last < 0x80 && DecVarint(b, n, last).Good?
    ensures var p := DecVarint(b, n, last); var used := |b| - |p.rest|;
            && used >= 1 && b[used..] == p.rest
            && (b[..used] == EncVarint(p.value) <==> used == 1 || b[used - 1] != 0)
  {
    var p := DecVarint(b, n, last);
    var used := |b| - |p.rest|;
    if b[0] >= 0x80 {
      DecodeThenEncode(b[1..], n - 1, last);
      var q := DecVarint(b[1..], n - 1, last);
      assert b[1..][..used - 1] == b[1..used];
      assert b[..used] == [b[0]] + b[1..used];
      EncodeStep(b[0] - 0x80, q.value);
      if q.value == 0 {
        assert EncVarint(0) == [0];
      } else {
        assert EncVarint(p.value)[1..] == EncVarint(q.value);
      }
    }
  }

  // The varints of the four widths in use; usize has 64 bits.
  function Dec16(b: Bytes): (p: Parse<uint16>) {
    var (v, rest) :- DecVarint(b, 3, 3);
    Bounds();
    Good(v, rest)
  }

  function Dec32(b: Bytes): (p: Parse<uint32>) {
    var (v, rest) :- DecVarint(b, 5, 15);
    Bounds();
    Good(v, rest)
  }

  function Dec64(b: Bytes): (p: Parse<uint64>) {
    var (v, rest) :- DecVarint(b, 10, 1);
    Bounds();
    Good(v, rest)
  }

  lemma Bounds()
    ensures VarintBound(3, 3) == 0x1_0000
    ensures VarintBound(5, 15) == 0x1_0000_0000
    ensures VarintBound(10, 1) == 0x1_0000_0000_0000_0000
  {
    assert VarintBound(2, 3) == 0x200;
    assert VarintBound(2, 15) == 0x800;
    assert VarintBound(4, 15) == 0x200_0000;
    assert VarintBound(2, 1) == 0x100;
    assert VarintBound(4, 1) == 0x40_0000;
    assert VarintBound(6, 1) == 0x10_0000_0000;
    assert VarintBound(8, 1) == 0x4_0000_0000_0000;
  }

  lemma RoundTrip16(v: uint16, rest: Bytes)
    ensures Dec16(EncVarint(v) + rest) == Good(v, rest)
  {
    Bounds();
    VarintRoundTrip(v, 3, 3, rest);
  }

  lemma RoundTrip32(v: uint32, rest: Bytes)
    ensures Dec32(EncVarint(v) + rest) == Good(v, rest)
  {
    Bounds();
    VarintRoundTrip(v, 5, 15, rest);
  }

  lemma RoundTrip64(v: uint64, rest: Bytes)
    ensures Dec64(EncVarint(v) + rest) == Good(v, rest)
  {
    Bounds();
    VarintRoundTrip(v, 10, 1, rest);
  }

  // ---------- Fixed-width octets ----------

  function EncBigEndian(x: nat, n: nat): (b: Bytes)
    ensures |b| == n
  {
    if n == 0 then [] else EncBigEndian(x / 0x100, n - 1) + [x % 0x100]
  }

  function DecBigEndian(b: Bytes): (x: nat)
    ensures x < Pow256(|b|)
  {
    if b == [] then 0 else DecBigEndian(b[..|b| - 1]) * 0x100 + b[|b| - 1]
  }

  function Pow256(n: nat): (r: nat)
    ensures r >= 1
  {
    if n == 0 then 1 else 0x100 * Pow256(n - 1)
  }

  lemma {:induction false} BigEndianRoundTrip(x: nat, n: nat)
    requires x < Pow256(n)
    ensures DecBigEndian(EncBigEndian(x, n)) == x
  {
    if n > 0 {
      BigEndianRoundTrip(x / 0x100, n - 1);
      assert EncBigEndian(x, n)[..n - 1] == EncBigEndian(x / 0x100, n - 1);
    }
  }

  lemma OctetBounds()
    ensures Pow256(4) == 0x1_0000_0000
    ensures Pow256(16) == 0x1_0000_0000_0000_0000_0000_0000_0000_0000
  {
  }

  function DecIpv4(b: Bytes): Parse<Ipv4Addr> {
    if |b| < 4 then Bad else OctetBounds(); Good(DecBigEndian(b[..4]), b[4..])
  }

  function DecIpv6(b: Bytes): Parse<Ipv6Addr> {
    if |b| < 16 then Bad else OctetBounds(); Good(DecBigEndian(b[..16]), b[16..])
  }

  lemma RoundTripIpv4(x: Ipv4Addr, rest: Bytes)
    ensures DecIpv4(EncBigEndian(x, 4) + rest) == Good(x, rest)
  {
    OctetBounds();
    BigEndianRoundTrip(x, 4);
    var e := EncBigEndian(x, 4);
    assert (e + rest)[..4] == e && (e + rest)[4..] == rest;
  }

  lemma RoundTripIpv6(x: Ipv6Addr, rest: Bytes)
    ensures DecIpv6(EncBigEndian(x, 16) + rest) == Good(x, rest)
  {
    OctetBounds();
    BigEndianRoundTrip(x, 16);
    var e := EncBigEndian(x, 16);
    assert (e + rest)[..16] == e && (e + rest)[16..] == rest;
  }

  // ---------- Booleans, options, strings, sequences ----------

  function EncBool(x: bool): Bytes { if x then [1] else [0] }

  function DecBool(b: Bytes): Parse<bool> {
    if b == [] || b[0] > 1 then Bad else Good(b[0] == 1, b[1..])
  }

  function EncOption<T>(x: Option<T>, enc: T -> Bytes): Bytes {
    match x
    case None => [0]
    case Some(v) => [1] + enc(v)
  }

  function DecOption<T>(b: Bytes, dec: Bytes -> Parse<T>): Parse<Option<T>> {
    if b == [] || b[0] > 1 then Bad
    else if b[0] == 0 then Good(None, b[1..])
    else
      var (v, rest) :- dec(b[1..]);
      Good(Some(v), rest)
  }

  function EncStr(s: Str): Bytes { EncVarint(|s|) + s }

  function DecStr(b: Bytes): Parse<Str> {
    var (n, b1) :- Dec64(b);
    if n > |b1| || !ValidUtf8(b1[..n]) then Bad
    else Good(b1[..n], b1[n..])
  }

  lemma RoundTripStr(s: Str, rest: Bytes)
    requires |s| < 0x1_0000_0000_0000_0000
    ensures DecStr(EncStr(s) + rest) == Good(s, rest)
  {
    assert EncStr(s) + rest == EncVarint(|s|) + (s + rest);
    RoundTrip64(|s|, s + rest);
    assert (s + rest)[..|s|] == s && (s + rest)[|s|..] == rest;
  }

  function EncMany<T>(xs: seq<T>, enc: T -> Bytes): Bytes {
    if xs == [] then [] else enc(xs[0]) + EncMany(xs[1..], enc)
  }

  function DecMany<T>(b: Bytes, n: nat, dec: Bytes -> Parse<T>): Parse<seq<T>>
    decreases n
  {
    if n == 0 then Good([], b)
    else
      var (x, b1) :- dec(b);
      var (xs, b2) :- DecMany(b1, n - 1, dec);
      Good([x] + xs, b2)
  }

  function EncSeq<T>(xs: seq<T>, enc: T -> Bytes): Bytes { EncVarint(|xs|) + EncMany(xs, enc) }

  function DecSeq<T>(b: Bytes, dec: Bytes -> Parse<T>): Parse<seq<T>> {
    var (n, b1) :- Dec64(b);
    DecMany(b1, n, dec)
  }

  // dec undoes enc on the elements of xs, whatever follows.
  ghost predicate Undoes<T(!new)>(xs: seq<T>, enc: T -> Bytes, dec: Bytes -> Parse<T>) {
    forall x, rest :: x in xs ==> dec(enc(x) + rest) == Good(x, rest)
  }

  lemma {:induction false} ManyRoundTrip<T(!new)>(xs: seq<T>, enc: T -> Bytes, dec: Bytes -> Parse<T>, rest: Bytes)
    requires Undoes(xs, enc, dec)
    ensures DecMany(EncMany(xs, enc) + rest, |xs|, dec) == Good(xs, rest)
  {
    if xs == [] {
      assert EncMany(xs, enc) + rest == rest;
    } else {
      assert EncMany(xs, enc) + rest == enc(xs[0]) + (EncMany(xs[1..], enc) + rest);
      assert xs[0] in xs && forall x :: x in xs[1..] ==> x in xs;
      ManyRoundTrip(xs[1..], enc, dec, rest);
      assert [xs[0]] + xs[1..] == xs;
    }
  }

  lemma SeqRoundTrip<T(!new)>(xs: seq<T>, enc: T -> Bytes, dec: Bytes -> Parse<T>, rest: Bytes)
    requires |xs| < 0x1_0000_0000_0000_0000 && Undoes(xs, enc, dec)
    ensures DecSeq(EncSeq(xs, enc) + rest, dec) == Good(xs, rest)
  {
    assert EncSeq(xs, enc) + rest == EncVarint(|xs|) + (EncMany(xs, enc) + rest);
    RoundTrip64(|xs|, EncMany(xs, enc) + rest);
    ManyRoundTrip(xs, enc, dec, rest);
  }

  // ---------- IpNet, an enum of two octet tuples ----------

  function EncIpNet(x: IpNet): Bytes {
    match x
    case Net4(a, p) => EncVarint(0) + EncBigEndian(a, 4) + [p]
    case Net6(a, p) => EncVarint(1) + EncBigEndian(a, 16) + [p]
  }

  function DecIpNet(b: Bytes): Parse<IpNet> {
    var (tag, b1) :- Dec32(b);
    if tag == 0 then
      var (a, b2) :- DecIpv4(b1);
      if b2 == [] || b2[0] > 32 then Bad else Good(Net4(a, b2[0]), b2[1..])
    else if tag == 1 then
      var (a, b2) :- DecIpv6(b1);
      if b2 == [] || b2[0] > 128 then Bad else Good(Net6(a, b2[0]), b2[1..])
    else Bad
  }

  lemma RoundTripIpNet(x: IpNet, rest: Bytes)
    ensures DecIpNet(EncIpNet(x) + rest) == Good(x, rest)
  {
    match x
    case Net4(a, p) =>
      var tail := EncBigEndian(a, 4) + ([p] + rest);
      assert EncIpNet(x) + rest == EncVarint(0) + tail;
      RoundTrip32(0, tail);
      RoundTripIpv4(a, [p] + rest);
    case Net6(a, p) =>
      var tail := EncBigEndian(a, 16) + ([p] + rest);
      assert EncIpNet(x) + rest == EncVarint(1) + tail;
      RoundTrip32(1, tail);
      RoundTripIpv6(a, [p] + rest);
  }

  lemma UndoesIpNet(xs: seq<IpNet>)
    ensures Undoes(xs, EncIpNet, DecIpNet)
  {
    forall x, rest | x in xs ensures DecIpNet(EncIpNet(x) + rest) == Good(x, rest) {
      RoundTripIpNet(x, rest);
    }
  }

  function EncOptIpv6(x: Option<Ipv6Addr>): Bytes { EncOption(x, (a: Ipv6Addr) => EncBigEndian(a, 16)) }
  function EncOptIpv4(x: Option<Ipv4Addr>): Bytes { EncOption(x, (a: Ipv4Addr) => EncBigEndian(a, 4)) }
  function DecOptIpv6(b: Bytes): Parse<Option<Ipv6Addr>> { DecOption(b, DecIpv6) }
  function DecOptIpv4(b: Bytes): Parse<Option<Ipv4Addr>> { DecOption(b, DecIpv4) }

  lemma RoundTripOptIpv6(x: Option<Ipv6Addr>, rest: Bytes)
    ensures DecOptIpv6(EncOptIpv6(x) + rest) == Good(x, rest)
  {
    match x
    case None =>
    case Some(a) =>
      RoundTripIpv6(a, rest);
      assert (EncOptIpv6(x) + rest)[1..] == EncBigEndian(a, 16) + rest;
  }

  lemma RoundTripOptIpv4(x: Option<Ipv4Addr>, rest: Bytes)
    ensures DecOptIpv4(EncOptIpv4(x) + rest) == Good(x, rest)
  {
    match x
    case None =>
    case Some(a) =>
      RoundTripIpv4(a, rest);
      assert (EncOptIpv4(x) + rest)[1..] == EncBigEndian(a, 4) + rest;
  }

  // ---------- Messages ----------

  function EncAnnouncement(a: Announcement): Bytes {
    EncStr(a.initiator) + (EncSeq(a.peers, EncStr) + (EncOptIpv6(a.ipv6)
    + (EncVarint(a.wgPort) + (EncSeq(a.lanAddrs, EncIpNet) + EncBool(a.needsRelay)))))
  }

  function DecAnnouncement(b: Bytes): Parse<Announcement> {
    var (initiator, b1) :- DecStr(b);
    var (peers, b2) :- DecSeq(b1, DecStr);
    var (ipv6, b3) :- DecOptIpv6(b2);
    var (port, b4) :- Dec16(b3);
    var (lan, b5) :- DecSeq(b4, DecIpNet);
    var (relay, b6) :- DecBool(b5);
    Good(Announcement(initiator, peers, ipv6, port, lan, relay), b6)
  }

  function EncEndpoint(e: Endpoint): Bytes {
    match e
    case Unknown => EncVarint(0)
    case LocalNetwork(v6, lan, port) =>
      EncVarint(1) + (EncOptIpv6(v6) + (EncSeq(lan, EncIpNet) + EncVarint(port)))
    case RemoteNetwork(v4, v6, port) =>
      EncVarint(2) + (EncOptIpv4(v4) + (EncOptIpv6(v6) + EncVarint(port)))
    case Relay(id, port) => EncVarint(3) + (EncVarint(id) + EncVarint(port))
  }

  function DecLocalNetwork(b: Bytes): Parse<Endpoint> {
    var (v6, b1) :- DecOptIpv6(b);
    var (lan, b2) :- DecSeq(b1, DecIpNet);
    var (port, b3) :- Dec16(b2);
    Good(LocalNetwork(v6, lan, port), b3)
  }

  function DecRemoteNetwork(b: Bytes): Parse<Endpoint> {
    var (v4, b1) :- DecOptIpv4(b);
    var (v6, b2) :- DecOptIpv6(b1);
    var (port, b3) :- Dec16(b2);
    Good(RemoteNetwork(v4, v6, port), b3)
  }

  function DecRelay(b: Bytes): Parse<Endpoint> {
    var (id, b1) :- Dec64(b);
    var (port, b2) :- Dec16(b1);
    Good(Relay(id, port), b2)
  }

  function DecEndpoint(b: Bytes): Parse<Endpoint> {
    var (tag, b1) :- Dec32(b);
    match tag
    case 0 => Good(Unknown, b1)
    case 1 => DecLocalNetwork(b1)
    case 2 => DecRemoteNetwork(b1)
    case 3 => DecRelay(b1)
    case _ => Bad
  }

  function EncEntry(e: (Str, Endpoint)): Bytes { EncStr(e.0) + EncEndpoint(e.1) }

  function DecEntry(b: Bytes): Parse<(Str, Endpoint)> {
    var (k, b1) :- DecStr(b);
    var (e, b2) :- DecEndpoint(b1);
    Good((k, e), b2)
  }

  // A hash map is written in its iteration order, and read back by inserting pair by pair.
  function Collect(entries: seq<(Str, Endpoint)>): Response {
    if entries == [] then map[]
    else Collect(entries[..|entries| - 1])[entries[|entries| - 1].0 := entries[|entries| - 1].1]
  }

  // entries lists m, in some order, each key once.
  ghost predicate Enumerates(entries: seq<(Str, Endpoint)>, m: Response) {
    && (forall i, j :: 0 <= i < j < |entries| ==> entries[i].0 != entries[j].0)
    && (forall e :: e in entries ==> e.0 in m && m[e.0] == e.1)
    && (forall k :: k in m ==> (k, m[k]) in entries)
  }

  // Lists the entries of a hash map, in no particular order.
  method Entries(m: Response) returns (entries: seq<(Str, Endpoint)>)
    ensures Enumerates(entries, m)
  {
    entries := [];
    var left := m.Keys;
    while left != {}
      invariant left <= m.Keys
      invariant forall i, j :: 0 <= i < j < |entries| ==> entries[i].0 != entries[j].0
      invariant forall e :: e in entries ==> e.0 in m && m[e.0] == e.1 && e.0 !in left
      invariant forall k :: k in m && k !in left ==> (k, m[k]) in entries
      decreases left
    {
      var k :| k in left;
      forall i | 0 <= i < |entries| ensures entries[i].0 != k { assert entries[i] in entries; }
      entries := entries + [(k, m[k])];
      left := left - {k};
    }
  }

  function EncResponse(entries: seq<(Str, Endpoint)>): Bytes { EncSeq(entries, EncEntry) }

  function DecResponse(b: Bytes): Parse<Response> {
    var (entries, b1) :- DecSeq(b, DecEntry);
    Good(Collect(entries), b1)
  }

  function EncStunRequest(port: uint16): Bytes { EncVarint(port) }

  function DecStunRequest(b: Bytes): Parse<uint16> { Dec16(b) }

  function EncStunResponse(r: StunResult): Bytes {
    match r
    case SamePort => EncVarint(0)
    case DifferentPort(p) => EncVarint(1) + EncVarint(p)
  }

  function DecStunResponse(b: Bytes): Parse<StunResult> {
    var (tag, b1) :- Dec32(b);
    match tag
    case 0 => Good(SamePort, b1)
    case 1 =>
      var (p, b2) :- Dec16(b1);
      Good(DifferentPort(p), b2)
    case _ => Bad
  }

  // ---------- Lengths: what fits in memory has lengths that fit in a usize ----------

  const USIZE := 0x1_0000_0000_0000_0000

  lemma {:induction false} ManyLength<T>(xs: seq<T>, enc: T -> Bytes)
    requires forall x :: x in xs ==> |enc(x)| >= 1
    ensures |EncMany(xs, enc)| >= |xs|
    ensures forall x :: x in xs ==> |enc(x)| <= |EncMany(xs, enc)|
  {
    if xs != [] {
      assert xs[0] in xs && forall x :: x in xs[1..] ==> x in xs;
      ManyLength(xs[1..], enc);
      forall x | x in xs ensures |enc(x)| <= |EncMany(xs, enc)| {
        assert x == xs[0] || x in xs[1..];
      }
    }
  }

  lemma UndoesStr(xs: seq<Str>)
    requires |EncMany(xs, EncStr)| < USIZE
    ensures |xs| < USIZE && Undoes(xs, EncStr, DecStr)
  {
    ManyLength(xs, EncStr);
    forall x, rest | x in xs ensures DecStr(EncStr(x) + rest) == Good(x, rest) {
      RoundTripStr(x, rest);
    }
  }

  // ---------- Round trips with any suffix ----------

  lemma AnnouncementTail(a: Announcement, rest: Bytes)
    requires |EncSeq(a.lanAddrs, EncIpNet)| < USIZE
    ensures DecOptIpv6(EncOptIpv6(a.ipv6)
                       + (EncVarint(a.wgPort) + (EncSeq(a.lanAddrs, EncIpNet) + (EncBool(a.needsRelay) + rest))))
         == Good(a.ipv6, EncVarint(a.wgPort) + (EncSeq(a.lanAddrs, EncIpNet) + (EncBool(a.needsRelay) + rest)))
    ensures Dec16(EncVarint(a.wgPort) + (EncSeq(a.lanAddrs, EncIpNet) + (EncBool(a.needsRelay) + rest)))
         == Good(a.wgPort, EncSeq(a.lanAddrs, EncIpNet) + (EncBool(a.needsRelay) + rest))
    ensures DecSeq(EncSeq(a.lanAddrs, EncIpNet) + (EncBool(a.needsRelay) + rest), DecIpNet)
         == Good(a.lanAddrs, EncBool(a.needsRelay) + rest)
    ensures DecBool(EncBool(a.needsRelay) + rest) == Good(a.needsRelay, rest)
  {
    var e6 := EncBool(a.needsRelay) + rest;
    var e5 := EncSeq(a.lanAddrs, EncIpNet) + e6;
    var e4 := EncVarint(a.wgPort) + e5;
    RoundTripOptIpv6(a.ipv6, e4);
    RoundTrip16(a.wgPort, e5);
    LanRoundTrip(a.lanAddrs, e6);
  }

  lemma AnnouncementRoundTrip(a: Announcement, rest: Bytes)
    requires |EncAnnouncement(a)| < USIZE
    ensures DecAnnouncement(EncAnnouncement(a) + rest) == Good(a, rest)
  {
    var e6 := EncBool(a.needsRelay) + rest;
    var e3 := EncOptIpv6(a.ipv6) + (EncVarint(a.wgPort) + (EncSeq(a.lanAddrs, EncIpNet) + e6));
    var e2 := EncSeq(a.peers, EncStr) + e3;
    assert EncAnnouncement(a) + rest == EncStr(a.initiator) + e2;
    RoundTripStr(a.initiator, e2);
    UndoesStr(a.peers);
    SeqRoundTrip(a.peers, EncStr, DecStr, e3);
    AnnouncementTail(a, rest);
  }

  lemma LanRoundTrip(lan: seq<IpNet>, rest: Bytes)
    requires |EncSeq(lan, EncIpNet)| < USIZE
    ensures DecSeq(EncSeq(lan, EncIpNet) + rest, DecIpNet) == Good(lan, rest)
  {
    UndoesIpNet(lan);
    ManyLength(lan, EncIpNet);
    SeqRoundTrip(lan, EncIpNet, DecIpNet, rest);
  }

  lemma LocalNetworkRoundTrip(v6: Option<Ipv6Addr>, lan: seq<IpNet>, port: uint16, rest: Bytes)
    requires |EncSeq(lan, EncIpNet)| < USIZE
    ensures DecLocalNetwork(EncOptIpv6(v6) + (EncSeq(lan, EncIpNet) + (EncVarint(port) + rest)))
         == Good(LocalNetwork(v6, lan, port), rest)
  {
    RoundTripOptIpv6(v6, EncSeq(lan, EncIpNet) + (EncVarint(port) + rest));
    LanRoundTrip(lan, EncVarint(port) + rest);
    RoundTrip16(port, rest);
  }

  lemma RemoteNetworkRoundTrip(v4: Option<Ipv4Addr>, v6: Option<Ipv6Addr>, port: uint16, rest: Bytes)
    ensures DecRemoteNetwork(EncOptIpv4(v4) + (EncOptIpv6(v6) + (EncVarint(port) + rest)))
         == Good(RemoteNetwork(v4, v6, port), rest)
  {
    RoundTripOptIpv4(v4, EncOptIpv6(v6) + (EncVarint(port) + rest));
    RoundTripOptIpv6(v6, EncVarint(port) + rest);
    RoundTrip16(port, rest);
  }

  lemma RelayRoundTrip(id: uint64, port: uint16, rest: Bytes)
    ensures DecRelay(EncVarint(id) + (EncVarint(port) + rest)) == Good(Relay(id, port), rest)
  {
    RoundTrip64(id, EncVarint(port) + rest);
    RoundTrip16(port, rest);
  }

  // The bytes of an endpoint after its tag, followed by rest.
  function EndpointBody(e: Endpoint, rest: Bytes): Bytes {
    match e
    case Unknown => rest
    case LocalNetwork(v6, lan, port) => EncOptIpv6(v6) + (EncSeq(lan, EncIpNet) + (EncVarint(port) + rest))
    case RemoteNetwork(v4, v6, port) => EncOptIpv4(v4) + (EncOptIpv6(v6) + (EncVarint(port) + rest))
    case Relay(id, port) => EncVarint(id) + (EncVarint(port) + rest)
  }

  function EndpointTag(e: Endpoint): uint32 {
    match e
    case Unknown => 0
    case LocalNetwork(_, _, _) => 1
    case RemoteNetwork(_, _, _) => 2
    case Relay(_, _) => 3
  }

  lemma Regroup3(a: Bytes, b: Bytes, c: Bytes, rest: Bytes)
    ensures (a + (b + c)) + rest == a + (b + (c + rest))
  {
  }

  lemma Regroup4(a: Bytes, b: Bytes, c: Bytes, d: Bytes, rest: Bytes)
    ensures (a + (b + (c + d))) + rest == a + (b + (c + (d + rest)))
  {
  }

  lemma EndpointSplits(e: Endpoint, rest: Bytes)
    ensures EncEndpoint(e) + rest ==
            EncVarint(EndpointTag(e)) + EndpointBody(e, rest)
  {
    match e
    case Unknown =>
    case LocalNetwork(v6, lan, port) =>
      Regroup4(EncVarint(1), EncOptIpv6(v6), EncSeq(lan, EncIpNet), EncVarint(port), rest);
    case RemoteNetwork(v4, v6, port) => Regroup4(EncVarint(2), EncOptIpv4(v4), EncOptIpv6(v6), EncVarint(port), rest);
    case Relay(id, port) => Regroup3(EncVarint(3), EncVarint(id), EncVarint(port), rest);
  }

  lemma EndpointRoundTrip(e: Endpoint, rest: Bytes)
    requires |EncEndpoint(e)| < USIZE
    ensures DecEndpoint(EncEndpoint(e) + rest) == Good(e, rest)
  {
    EndpointSplits(e, rest);
    match e
    case Unknown =>
      RoundTrip32(0, rest);
    case LocalNetwork(v6, lan, port) =>
      RoundTrip32(1, EndpointBody(e, rest));
      LocalNetworkRoundTrip(v6, lan, port, rest);
    case RemoteNetwork(v4, v6, port) =>
      RoundTrip32(2, EndpointBody(e, rest));
      RemoteNetworkRoundTrip(v4, v6, port, rest);
    case Relay(id, port) =>
      RoundTrip32(3, EndpointBody(e, rest));
      RelayRoundTrip(id, port, rest);
  }

  lemma EntryRoundTrip(e: (Str, Endpoint), rest: Bytes)
    requires |EncEntry(e)| < USIZE
    ensures DecEntry(EncEntry(e) + rest) == Good(e, rest)
  {
    assert EncEntry(e) + rest == EncStr(e.0) + (EncEndpoint(e.1) + rest);
    RoundTripStr(e.0, EncEndpoint(e.1) + rest);
    EndpointRoundTrip(e.1, rest);
  }

  // Reading back an enumeration of a map gives the map, whatever the order was.
  lemma {:induction false} CollectEnumeration(entries: seq<(Str, Endpoint)>, m: Response)
    requires Enumerates(entries, m)
    ensures Collect(entries) == m
  {
    if entries != [] {
      var n := |entries| - 1;
      var last := entries[n];
      assert last in entries;
      var m' := m - {last.0};
      forall e | e in entries[..n] ensures e.0 in m' && m'[e.0] == e.1 {
        assert e in entries;
      }
      forall k | k in m' ensures (k, m'[k]) in entries[..n] {
        var i :| 0 <= i < |entries| && entries[i] == (k, m[k]);
        assert i != n;
        assert entries[..n][i] == (k, m[k]);
      }
      CollectEnumeration(entries[..n], m');
    } else {
      assert forall k :: k !in m;
    }
  }

  lemma ResponseRoundTrip(entries: seq<(Str, Endpoint)>, m: Response, rest: Bytes)
    requires Enumerates(entries, m) && |EncResponse(entries)| < USIZE
    ensures DecResponse(EncResponse(entries) + rest) == Good(m, rest)
  {
    ManyLength(entries, EncEntry);
    forall e, tail | e in entries ensures DecEntry(EncEntry(e) + tail) == Good(e, tail) {
      EntryRoundTrip(e, tail);
    }
    SeqRoundTrip(entries, EncEntry, DecEntry, rest);
    CollectEnumeration(entries, m);
  }

  lemma StunRequestRoundTrip(port: uint16, rest: Bytes)
    ensures DecStunRequest(EncStunRequest(port) + rest) == Good(port, rest)
  {
    RoundTrip16(port, rest);
  }

  lemma StunResponseRoundTrip(r: StunResult, rest: Bytes)
    ensures DecStunResponse(EncStunResponse(r) + rest) == Good(r, rest)
  {
    match r
    case SamePort =>
      RoundTrip32(0, rest);
    case DifferentPort(p) =>
      assert EncStunResponse(r) + rest == EncVarint(1) + (EncVarint(p) + rest);
      RoundTrip32(1, EncVarint(p) + rest);
      RoundTrip16(p, rest);
  }

  // No announcement's encoding is the beginning of another's: the code is self-delimiting.
  lemma SelfDelimiting(a: Announcement, s: Bytes, b: Announcement, t: Bytes)
    requires |EncAnnouncement(a)| < USIZE && |EncAnnouncement(b)| < USIZE
    requires EncAnnouncement(a) + s == EncAnnouncement(b) + t
    ensures a == b && s == t
  {
    AnnouncementRoundTrip(a, s);
    AnnouncementRoundTrip(b, t);
  }

}
