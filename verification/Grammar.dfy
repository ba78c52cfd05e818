// The messages as a grammar: which bytes are a code of which value, and that every decoder reads
// exactly the codes of its type.
module Grammar {
  import opened Wrappers
  import opened Net
  import opened Text
  import opened Protocol
  import opened Postcard

  // ---------- Codes ----------

  // A number in at most n bytes, seven bits a byte from the least significant: the top bit says that
  // more follows, and an n-th byte is at most last.
  predicate IsNumber(c: Bytes, n: nat, last: uint8, v: nat) {
    && 1 <= |c| <= n
    && (forall i :: 0 <= i < |c| - 1 ==> c[i] >= 0x80) && c[|c| - 1] < 0x80
    && (|c| == n ==> c[|c| - 1] <= last)
    && v == SevenBits(c)
  }

  predicate IsU16(c: Bytes, v: uint16) { IsNumber(c, 3, 3, v) }
  predicate IsU32(c: Bytes, v: uint32) { IsNumber(c, 5, 15, v) }
  predicate IsU64(c: Bytes, v: uint64) { IsNumber(c, 10, 1, v) }

  predicate IsBool(c: Bytes, v: bool) { c == if v then [1] else [0] }

  // Addresses are their octets in network order.
  predicate IsIpv4(c: Bytes, a: Ipv4Addr) {
    |c| == 4 && Octets(c) == a
  }

  predicate IsIpv6(c: Bytes, a: Ipv6Addr) {
    |c| == 16 && Octets(c[..8]) * 0x1_0000_0000_0000_0000 + Octets(c[8..]) == a
  }

  // Four octets, or eight.
  function Octets(c: Bytes): nat
    requires |c| == 4 || |c| == 8
  {
    var w: nat, x: nat, y: nat, z: nat := c[0], c[1], c[2], c[3];
    var high := w * 0x100_0000 + x * 0x1_0000 + y * 0x100 + z;
    if |c| == 4 then high else high * 0x1_0000_0000 + Octets(c[4..])
  }

  ghost predicate IsOption<T>(c: Bytes, v: Option<T>, code: (Bytes, T) -> bool) {
    match v
    case None => c == [0]
    case Some(x) => |c| >= 1 && c[0] == 1 && code(c[1..], x)
  }

  ghost predicate IsOptIpv4(c: Bytes, v: Option<Ipv4Addr>) { IsOption(c, v, IsIpv4) }
  ghost predicate IsOptIpv6(c: Bytes, v: Option<Ipv6Addr>) { IsOption(c, v, IsIpv6) }

  // A text is its length and its bytes.
  ghost predicate IsStr(c: Bytes, s: Str) {
    |s| < USIZE && exists n :: c == n + s && IsU64(n, |s|)
  }

  // The codes of xs, one after the other.
  ghost predicate IsMany<T>(c: Bytes, xs: seq<T>, code: (Bytes, T) -> bool)
    decreases |xs|
  {
    if xs == [] then c == []
    else exists d, e :: c == d + e && code(d, xs[0]) && IsMany(e, xs[1..], code)
  }

  ghost predicate IsSeq<T>(c: Bytes, xs: seq<T>, code: (Bytes, T) -> bool) {
    |xs| < USIZE && exists n, e :: c == n + e && IsU64(n, |xs|) && IsMany(e, xs, code)
  }

  ghost predicate IsNet4(c: Bytes, a: Ipv4Addr, p: Prefix4) {
    exists t: Bytes, d: Bytes :: c == t + (d + [p]) && IsU32(t, 0) && IsIpv4(d, a)
  }

  ghost predicate IsNet6(c: Bytes, a: Ipv6Addr, p: Prefix6) {
    exists t: Bytes, d: Bytes :: c == t + (d + [p]) && IsU32(t, 1) && IsIpv6(d, a)
  }

  ghost predicate IsIpNet(c: Bytes, v: IpNet) {
    match v
    case Net4(a, p) => IsNet4(c, a, p)
    case Net6(a, p) => IsNet6(c, a, p)
  }

  ghost predicate IsAnnouncement(c: Bytes, a: Announcement) {
    exists c1, c2, c3, c4, c5, c6 ::
      && c == c1 + (c2 + (c3 + (c4 + (c5 + c6))))
      && IsStr(c1, a.initiator) && IsSeq(c2, a.peers, IsStr) && IsOptIpv6(c3, a.ipv6) && IsU16(c4, a.wgPort)
      && IsSeq(c5, a.lanAddrs, IsIpNet) && IsBool(c6, a.needsRelay)
  }

  ghost predicate IsLocalNetwork(c: Bytes, v6: Option<Ipv6Addr>, lan: seq<IpNet>, port: uint16) {
    exists c1, c2, c3 ::
      c == c1 + (c2 + c3) && IsOptIpv6(c1, v6) && IsSeq(c2, lan, IsIpNet) && IsU16(c3, port)
  }

  ghost predicate IsRemoteNetwork(c: Bytes, v4: Option<Ipv4Addr>, v6: Option<Ipv6Addr>, port: uint16) {
    exists c1, c2, c3 ::
      c == c1 + (c2 + c3) && IsOptIpv4(c1, v4) && IsOptIpv6(c2, v6) && IsU16(c3, port)
  }

  ghost predicate IsRelay(c: Bytes, id: uint64, port: uint16) {
    exists c1, c2 :: c == c1 + c2 && IsU64(c1, id) && IsU16(c2, port)
  }

  // What follows the tag of an endpoint.
  ghost predicate IsEndpointBody(c: Bytes, e: Endpoint) {
    match e
    case Unknown => c == []
    case LocalNetwork(v6, lan, port) => IsLocalNetwork(c, v6, lan, port)
    case RemoteNetwork(v4, v6, port) => IsRemoteNetwork(c, v4, v6, port)
    case Relay(id, port) => IsRelay(c, id, port)
  }

  function TagOf(e: Endpoint): uint32 {
    match e
    case Unknown => 0
    case LocalNetwork(_, _, _) => 1
    case RemoteNetwork(_, _, _) => 2
    case Relay(_, _) => 3
  }

  ghost predicate IsEndpoint(c: Bytes, e: Endpoint) {
    exists t, d :: c == t + d && IsU32(t, TagOf(e)) && IsEndpointBody(d, e)
  }

  ghost predicate IsEntry(c: Bytes, e: (Str, Endpoint)) {
    exists k, d :: c == k + d && IsStr(k, e.0) && IsEndpoint(d, e.1)
  }

  // The entry i is the last one with its key.
  predicate LastOne(entries: seq<(Str, Endpoint)>, i: nat) {
    i < |entries| && forall j :: i < j < |entries| ==> entries[j].0 != entries[i].0
  }

  // m is what entries say, a later one overriding an earlier one with the same key.
  ghost predicate SaysOf(entries: seq<(Str, Endpoint)>, m: Response) {
    && (forall k :: k in m ==> exists i :: 0 <= i < |entries| && entries[i].0 == k)
    && (forall i: nat :: LastOne(entries, i) ==> entries[i].0 in m && m[entries[i].0] == entries[i].1)
  }

  ghost predicate IsResponse(c: Bytes, m: Response) {
    exists entries :: IsSeq(c, entries, IsEntry) && SaysOf(entries, m)
  }

  ghost predicate IsDifferentPort(c: Bytes, port: uint16) {
    exists t, d :: c == t + d && IsU32(t, 1) && IsU16(d, port)
  }

  ghost predicate IsStunResponse(c: Bytes, r: StunResult) {
    match r
    case SamePort => IsU32(c, 0)
    case DifferentPort(port) => IsDifferentPort(c, port)
  }

  // ---------- Reading ----------

  // dec reads the codes that code describes, and nothing else.
  ghost predicate Reads<T(!new)>(dec: Bytes -> Parse<T>, code: (Bytes, T) -> bool) {
    && (forall c, v, rest {:trigger code(c, v), dec(c + rest)} :: code(c, v) ==> dec(c + rest) == Good(v, rest))
    && (forall b {:trigger dec(b)} :: dec(b).Good? ==> exists c :: code(c, dec(b).value) && b == c + dec(b).rest)
  }

  // So a value is read exactly when the bytes begin with a code of it.
  lemma ReadsPrefix<T(!new)>(dec: Bytes -> Parse<T>, code: (Bytes, T) -> bool, b: Bytes, v: T)
    requires Reads(dec, code)
    ensures dec(b).Good? && dec(b).value == v <==> exists c :: code(c, v) && c <= b
  {
    if dec(b).Good? && dec(b).value == v {
      var c :| code(c, v) && b == c + dec(b).rest;
      assert c <= b;
    }
    forall c | code(c, v) && c <= b ensures dec(b) == Good(v, b[|c|..]) {
      assert b == c + b[|c|..];
    }
  }

  // ---------- Numbers ----------

  lemma {:induction false} NumberIsRead(c: Bytes, n: nat, last: uint8, v: nat, rest: Bytes)
    requires IsNumber(c, n, last, v)
    ensures DecVarint(c + rest, n, last) == Good(v, rest)
  {
    var b := c + rest;
    if |c| == 1 {
      assert b[1..] == rest;
      assert SevenBits(c) == c[0] % 0x80 + 0x80 * SevenBits(c[1..]);
    } else {
      assert b[1..] == c[1..] + rest;
      assert c[1..][|c| - 2] == c[|c| - 1];
      NumberIsRead(c[1..], n - 1, last, SevenBits(c[1..]), rest);
    }
  }

  lemma {:induction false} ReadIsNumber(b: Bytes, n: nat, last: uint8) returns (c: Bytes)
    requires DecVarint(b, n, last).Good?
    ensures IsNumber(c, n, last, DecVarint(b, n, last).value) && b == c + DecVarint(b, n, last).rest
  {
    if b[0] < 0x80 {
      c := b[..1];
    } else {
      var d := ReadIsNumber(b[1..], n - 1, last);
      c := [b[0]] + d;
      assert c[1..] == d;
      forall i | 0 <= i < |c| - 1 ensures c[i] >= 0x80 {
        assert i > 0 ==> c[i] == d[i - 1];
      }
    }
  }

  lemma U16IsRead(c: Bytes, v: uint16, rest: Bytes)
    requires IsU16(c, v)
    ensures Dec16(c + rest) == Good(v, rest)
  {
    Bounds();
    NumberIsRead(c, 3, 3, v, rest);
  }

  lemma ReadIsU16(b: Bytes) returns (c: Bytes)
    requires Dec16(b).Good?
    ensures IsU16(c, Dec16(b).value) && b == c + Dec16(b).rest
  {
    Bounds();
    c := ReadIsNumber(b, 3, 3);
  }

  lemma U32IsRead(c: Bytes, v: uint32, rest: Bytes)
    requires IsU32(c, v)
    ensures Dec32(c + rest) == Good(v, rest)
  {
    Bounds();
    NumberIsRead(c, 5, 15, v, rest);
  }

  lemma ReadIsU32(b: Bytes) returns (c: Bytes)
    requires Dec32(b).Good?
    ensures IsU32(c, Dec32(b).value) && b == c + Dec32(b).rest
  {
    Bounds();
    c := ReadIsNumber(b, 5, 15);
  }

  lemma U64IsRead(c: Bytes, v: uint64, rest: Bytes)
    requires IsU64(c, v)
    ensures Dec64(c + rest) == Good(v, rest)
  {
    Bounds();
    NumberIsRead(c, 10, 1, v, rest);
  }

  lemma ReadIsU64(b: Bytes) returns (c: Bytes)
    requires Dec64(b).Good?
    ensures IsU64(c, Dec64(b).value) && b == c + Dec64(b).rest
  {
    Bounds();
    c := ReadIsNumber(b, 10, 1);
  }

  // ---------- Bytes, addresses and options ----------

  lemma {:induction false} BigEndianJoins(a: Bytes, b: Bytes)
    ensures DecBigEndian(a + b) == DecBigEndian(a) * Pow256(|b|) + DecBigEndian(b)
  {
    if b == [] {
      assert a + b == a;
    } else {
      var n := |b| - 1;
      BigEndianJoins(a, b[..n]);
      assert (a + b)[..|a + b| - 1] == a + b[..n];
      Scale(DecBigEndian(a), Pow256(n), DecBigEndian(b[..n]), b[n]);
    }
  }

  lemma Scale(x: nat, p: nat, y: nat, z: nat)
    ensures (x * p + y) * 0x100 + z == x * (0x100 * p) + (y * 0x100 + z)
  {
  }

  lemma FourOctets(c: Bytes)
    requires |c| == 4
    ensures DecBigEndian(c) == Octets(c)
  {
    assert c[..3][..2] == c[..2] && c[..2][..1] == c[..1] && c[..1][..0] == [];
    assert DecBigEndian(c[..1]) == c[0];
    assert DecBigEndian(c[..2]) == DecBigEndian(c[..1]) * 0x100 + c[1] as nat;
    assert DecBigEndian(c[..3]) == DecBigEndian(c[..2]) * 0x100 + c[2] as nat;
  }

  lemma EightOctets(c: Bytes)
    requires |c| == 8
    ensures DecBigEndian(c) == Octets(c)
  {
    OctetBounds();
    assert c == c[..4] + c[4..];
    BigEndianJoins(c[..4], c[4..]);
    FourOctets(c[..4]);
    FourOctets(c[4..]);
  }

  lemma SixteenOctets(c: Bytes)
    requires |c| == 16
    ensures DecBigEndian(c) == Octets(c[..8]) * 0x1_0000_0000_0000_0000 + Octets(c[8..])
  {
    assert Pow256(8) == 0x1_0000_0000_0000_0000;
    assert c == c[..8] + c[8..];
    BigEndianJoins(c[..8], c[8..]);
    EightOctets(c[..8]);
    EightOctets(c[8..]);
  }

  lemma AddressesAreRead()
    ensures Reads(DecIpv4, IsIpv4) && Reads(DecIpv6, IsIpv6)
  {
    forall c, a: Ipv4Addr, rest | IsIpv4(c, a) ensures DecIpv4(c + rest) == Good(a, rest) {
      FourOctets(c);
      assert (c + rest)[..4] == c && (c + rest)[4..] == rest;
    }
    forall b | DecIpv4(b).Good? ensures exists c :: IsIpv4(c, DecIpv4(b).value) && b == c + DecIpv4(b).rest {
      FourOctets(b[..4]);
      assert IsIpv4(b[..4], DecIpv4(b).value) && b == b[..4] + DecIpv4(b).rest;
    }
    forall c, a: Ipv6Addr, rest | IsIpv6(c, a) ensures DecIpv6(c + rest) == Good(a, rest) {
      SixteenOctets(c);
      assert (c + rest)[..16] == c && (c + rest)[16..] == rest;
    }
    forall b | DecIpv6(b).Good? ensures exists c :: IsIpv6(c, DecIpv6(b).value) && b == c + DecIpv6(b).rest {
      SixteenOctets(b[..16]);
      assert IsIpv6(b[..16], DecIpv6(b).value) && b == b[..16] + DecIpv6(b).rest;
    }
  }

  lemma BoolIsRead()
    ensures Reads(DecBool, IsBool)
  {
    forall b | DecBool(b).Good? ensures exists c :: IsBool(c, DecBool(b).value) && b == c + DecBool(b).rest {
      assert IsBool(b[..1], DecBool(b).value) && b == b[..1] + DecBool(b).rest;
    }
    forall c, v, rest | IsBool(c, v) ensures DecBool(c + rest) == Good(v, rest) {
      assert (c + rest)[1..] == rest;
    }
  }

  lemma OptionIsRead<T(!new)>(c: Bytes, v: Option<T>, rest: Bytes, dec: Bytes -> Parse<T>, code: (Bytes, T) -> bool)
    requires Reads(dec, code) && IsOption(c, v, code)
    ensures DecOption(c + rest, dec) == Good(v, rest)
  {
    assert (c + rest)[1..] == c[1..] + rest;
    if v.None? {
      assert c[1..] + rest == rest;
    }
  }

  lemma ReadIsOption<T(!new)>(b: Bytes, dec: Bytes -> Parse<T>, code: (Bytes, T) -> bool) returns (c: Bytes)
    requires Reads(dec, code) && DecOption(b, dec).Good?
    ensures IsOption(c, DecOption(b, dec).value, code) && b == c + DecOption(b, dec).rest
  {
    if b[0] == 0 {
      c := [0];
    } else {
      var p := dec(b[1..]);
      var d :| code(d, p.value) && b[1..] == d + p.rest;
      c := [1] + d;
      assert c[1..] == d && b == [b[0]] + b[1..];
    }
  }

  lemma OptionsAreRead()
    ensures Reads(DecOptIpv4, IsOptIpv4) && Reads(DecOptIpv6, IsOptIpv6)
  {
    AddressesAreRead();
    forall c, v, rest | IsOptIpv4(c, v) ensures DecOptIpv4(c + rest) == Good(v, rest) {
      OptionIsRead(c, v, rest, DecIpv4, IsIpv4);
    }
    forall b | DecOptIpv4(b).Good?
      ensures exists c :: IsOptIpv4(c, DecOptIpv4(b).value) && b == c + DecOptIpv4(b).rest
    {
      var c := ReadIsOption(b, DecIpv4, IsIpv4);
      assert IsOptIpv4(c, DecOptIpv4(b).value);
    }
    forall c, v, rest | IsOptIpv6(c, v) ensures DecOptIpv6(c + rest) == Good(v, rest) {
      OptionIsRead(c, v, rest, DecIpv6, IsIpv6);
    }
    forall b | DecOptIpv6(b).Good?
      ensures exists c :: IsOptIpv6(c, DecOptIpv6(b).value) && b == c + DecOptIpv6(b).rest
    {
      var c := ReadIsOption(b, DecIpv6, IsIpv6);
      assert IsOptIpv6(c, DecOptIpv6(b).value);
    }
  }

  // ---------- Texts and lists ----------

  // Two codes, one after the other.
  lemma Joined(b: Bytes, c: Bytes, b1: Bytes, d: Bytes, rest: Bytes)
    requires b == c + b1 && b1 == d + rest
    ensures b == c + d + rest
  {
  }

  lemma TextIsRead(c: Bytes, s: Str, rest: Bytes)
    requires IsStr(c, s)
    ensures DecStr(c + rest) == Good(s, rest)
  {
    var n :| c == n + s && IsU64(n, |s|);
    assert c + rest == n + (s + rest);
    U64IsRead(n, |s|, s + rest);
    assert (s + rest)[..|s|] == s && (s + rest)[|s|..] == rest;
  }

  lemma TextCode(n: Bytes, s: Str) returns (c: Bytes)
    requires |s| < USIZE && IsU64(n, |s|)
    ensures IsStr(c, s) && c == n + s
  {
    c := n + s;
  }

  lemma TextFollows(b: Bytes, k: nat)
    requires k <= |b|
    ensures b == b[..k] + b[k..]
  {
  }

  lemma ReadIsText(b: Bytes) returns (c: Bytes)
    requires DecStr(b).Good?
    ensures IsStr(c, DecStr(b).value) && b == c + DecStr(b).rest
  {
    var n := ReadIsU64(b);
    var s, rest := DecStr(b).value, DecStr(b).rest;
    c := TextCode(n, s);
    TextFollows(Dec64(b).rest, Dec64(b).value);
    Joined(b, n, Dec64(b).rest, s, rest);
  }

  lemma TextsAreRead()
    ensures Reads(DecStr, IsStr)
  {
    forall c, s: Str, rest | IsStr(c, s) ensures DecStr(c + rest) == Good(s, rest) {
      TextIsRead(c, s, rest);
    }
    forall b | DecStr(b).Good? ensures exists c :: IsStr(c, DecStr(b).value) && b == c + DecStr(b).rest {
      var c := ReadIsText(b);
    }
  }

  lemma {:induction false} ManyAreRead<T(!new)>(c: Bytes, xs: seq<T>, rest: Bytes, dec: Bytes -> Parse<T>,
                                                code: (Bytes, T) -> bool)
    requires Reads(dec, code) && IsMany(c, xs, code)
    ensures DecMany(c + rest, |xs|, dec) == Good(xs, rest)
    decreases |xs|
  {
    if xs == [] {
      assert c + rest == rest;
    } else {
      var d, e :| c == d + e && code(d, xs[0]) && IsMany(e, xs[1..], code);
      assert c + rest == d + (e + rest);
      ManyAreRead(e, xs[1..], rest, dec, code);
      assert xs == [xs[0]] + xs[1..];
    }
  }

  lemma FirstCode<T(!new)>(b: Bytes, dec: Bytes -> Parse<T>, code: (Bytes, T) -> bool) returns (c: Bytes)
    requires Reads(dec, code) && dec(b).Good?
    ensures code(c, dec(b).value) && b == c + dec(b).rest
  {
    c :| code(c, dec(b).value) && b == c + dec(b).rest;
  }

  lemma ManyExtends<T>(d: Bytes, x: T, e: Bytes, xs: seq<T>, code: (Bytes, T) -> bool)
    requires code(d, x) && IsMany(e, xs, code)
    ensures IsMany(d + e, [x] + xs, code)
  {
    assert ([x] + xs)[1..] == xs;
  }

  lemma {:induction false} ReadIsMany<T(!new)>(b: Bytes, n: nat, dec: Bytes -> Parse<T>, code: (Bytes, T) -> bool)
    returns (c: Bytes)
    requires Reads(dec, code) && DecMany(b, n, dec).Good?
    ensures var p := DecMany(b, n, dec); |p.value| == n && IsMany(c, p.value, code) && b == c + p.rest
    decreases n
  {
    if n == 0 {
      c := [];
    } else {
      var p := dec(b);
      var q := DecMany(p.rest, n - 1, dec);
      var d := FirstCode(b, dec, code);
      var e := ReadIsMany(p.rest, n - 1, dec, code);
      c := d + e;
      ManyExtends(d, p.value, e, q.value, code);
      Joined(b, d, p.rest, e, q.rest);
    }
  }

  lemma ListIsRead<T(!new)>(c: Bytes, xs: seq<T>, rest: Bytes, dec: Bytes -> Parse<T>, code: (Bytes, T) -> bool)
    requires Reads(dec, code) && IsSeq(c, xs, code)
    ensures DecSeq(c + rest, dec) == Good(xs, rest)
  {
    var n, e :| c == n + e && IsU64(n, |xs|) && IsMany(e, xs, code);
    assert c + rest == n + (e + rest);
    U64IsRead(n, |xs|, e + rest);
    ManyAreRead(e, xs, rest, dec, code);
  }

  lemma ReadIsList<T(!new)>(b: Bytes, dec: Bytes -> Parse<T>, code: (Bytes, T) -> bool) returns (c: Bytes)
    requires Reads(dec, code) && DecSeq(b, dec).Good?
    ensures IsSeq(c, DecSeq(b, dec).value, code) && b == c + DecSeq(b, dec).rest
  {
    var p := Dec64(b);
    var n := ReadIsU64(b);
    var e := ReadIsMany(p.rest, p.value, dec, code);
    c := n + e;
    Joined(b, n, p.rest, e, DecSeq(b, dec).rest);
  }

}
