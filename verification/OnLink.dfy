// Which of a peer's local addresses are reachable directly: CIDR arithmetic on the addresses.
module OnLink {
  import opened Wrappers
  import opened Net

  function Pow2(n: nat): (r: nat)
    ensures r >= 1
  {
    if n == 0 then 1 else 2 * Pow2(n - 1)
  }

  // The first and the last address of the network of x (section 3.1 of RFC 4632), size being the
  // number of its addresses.
  function Network(x: nat, size: nat): nat
    requires size >= 1
  {
    x / size * size
  }

  function Broadcast(x: nat, size: nat): nat
    requires size >= 1
  {
    x / size * size + size - 1
  }

  predicate Contains(net: IpNet, ip: IpAddr) {
    match (net, ip)
    case (Net4(a, p), V4(x)) => Network(a, Pow2(32 - p)) <= x <= Broadcast(a, Pow2(32 - p))
    case (Net6(a, p), V6(x)) => Network(a, Pow2(128 - p)) <= x <= Broadcast(a, Pow2(128 - p))
    case _ => false
  }

  predicate AddrsOnLink(a: IpNet, b: IpNet) {
    Contains(a, b.Addr()) && Contains(b, a.Addr())
  }

  // ---------- In terms of bits ----------

  function Width(a: IpNet): nat { if a.Net4? then 32 else 128 }
  function Value(a: IpNet): nat { match a case Net4(x, _) => x case Net6(x, _) => x }
  function PrefixLen(a: IpNet): (p: nat)
    ensures p <= Width(a)
  {
    match a case Net4(_, p) => p case Net6(_, p) => p
  }

  // Bit i of x, counted from the most significant of width bits.
  function Bit(x: nat, width: nat, i: nat): nat
    requires i < width
  {
    x / Pow2(width - 1 - i) % 2
  }

  ghost predicate AgreeOnFirst(x: nat, y: nat, width: nat, n: nat)
    requires n <= width
  {
    forall i :: 0 <= i < n ==> Bit(x, width, i) == Bit(y, width, i)
  }

  lemma DivBounds(x: nat, d: nat)
    requires d >= 1
    ensures x / d * d <= x < x / d * d + d
  {
  }

  lemma SameQuotient(x: nat, q: nat, d: nat)
    requires d >= 1
    ensures q * d <= x < q * d + d <==> x / d == q
  {
    DivBounds(x, d);
    var p := x / d;
    if p < q {
      assert (p + 1) * d <= q * d;
    } else if p > q {
      assert (q + 1) * d <= p * d;
    }
  }

  lemma HalfQuotient(x: nat, d: nat)
    requires d >= 1
    ensures x / (2 * d) == x / d / 2
  {
    var p := x / d;
    DivBounds(x, d);
    var q := p / 2;
    assert p == 2 * q + p % 2;
    assert q * (2 * d) == 2 * q * d;
    assert p * d == 2 * q * d + (p % 2) * d;
    assert (p % 2) * d <= d;
    assert q * (2 * d) <= x < q * (2 * d) + 2 * d;
    SameQuotient(x, q, 2 * d);
  }

  // The quotients by a power of two are equal exactly when the bits above it are.
  lemma {:induction false} QuotientIsPrefix(x: nat, y: nat, width: nat, n: nat)
    requires n <= width && x < Pow2(width) && y < Pow2(width)
    ensures x / Pow2(width - n) == y / Pow2(width - n) <==> AgreeOnFirst(x, y, width, n)
  {
    if n == 0 {
      SameQuotient(x, 0, Pow2(width));
      SameQuotient(y, 0, Pow2(width));
    } else {
      QuotientIsPrefix(x, y, width, n - 1);
      var d := Pow2(width - n);
      assert Pow2(width - (n - 1)) == 2 * d;
      HalfQuotient(x, d);
      HalfQuotient(y, d);
      assert Bit(x, width, n - 1) == x / d % 2 && Bit(y, width, n - 1) == y / d % 2;
      assert x / d == x / d / 2 * 2 + x / d % 2 && y / d == y / d / 2 * 2 + y / d % 2;
    }
  }

  lemma PowSquare(n: nat, v: nat)
    requires Pow2(n) == v
    ensures Pow2(2 * n) == v * v
  {
    PowSum(n, n);
  }

  lemma Widths()
    ensures Pow2(32) == 0x1_0000_0000
    ensures Pow2(128) == 0x1_0000_0000_0000_0000_0000_0000_0000_0000
  {
    assert Pow2(2) == 4;
    PowSquare(2, 4);
    PowSquare(4, 16);
    PowSquare(8, 0x100);
    PowSquare(16, 0x1_0000);
    PowSquare(32, 0x1_0000_0000);
    PowSquare(64, 0x1_0000_0000_0000_0000);
  }

  lemma {:induction false} PowSum(m: nat, n: nat)
    ensures Pow2(m + n) == Pow2(m) * Pow2(n)
  {
    if m > 0 {
      PowSum(m - 1, n);
      assert 2 * (Pow2(m - 1) * Pow2(n)) == 2 * Pow2(m - 1) * Pow2(n);
    }
  }

  lemma ValueFits(a: IpNet)
    ensures Value(a) < Pow2(Width(a))
  {
    Widths();
  }

  lemma InNetworkIsQuotient(x: nat, y: nat, size: nat)
    requires size >= 1
    ensures Network(x, size) <= y <= Broadcast(x, size) <==> x / size == y / size
  {
    SameQuotient(y, x / size, size);
  }

  lemma InNetworkIsPrefix(x: nat, y: nat, width: nat, p: nat)
    requires p <= width && x < Pow2(width) && y < Pow2(width)
    ensures Network(x, Pow2(width - p)) <= y <= Broadcast(x, Pow2(width - p)) <==> AgreeOnFirst(x, y, width, p)
  {
    InNetworkIsQuotient(x, y, Pow2(width - p));
    QuotientIsPrefix(x, y, width, p);
  }

  // A network contains an address exactly when they agree on the bits of its prefix.
  lemma ContainsIsPrefix(a: IpNet, b: IpNet)
    ensures Contains(a, b.Addr()) <==>
            a.Net4? == b.Net4? && AgreeOnFirst(Value(a), Value(b), Width(a), PrefixLen(a))
  {
    if a.Net4? == b.Net4? {
      ValueFits(a);
      ValueFits(b);
      InNetworkIsPrefix(Value(a), Value(b), Width(a), PrefixLen(a));
    }
  }

  function MaxPrefix(a: IpNet, b: IpNet): nat { if PrefixLen(a) >= PrefixLen(b) then PrefixLen(a) else PrefixLen(b) }

  // Two addresses are on one link exactly when they are of the same family and agree on the
  // longer of the two prefixes.
  lemma OnLinkIsLongerPrefix(a: IpNet, b: IpNet)
    ensures AddrsOnLink(a, b) <==>
            a.Net4? == b.Net4? && MaxPrefix(a, b) <= Width(a)
                && AgreeOnFirst(Value(a), Value(b), Width(a), MaxPrefix(a, b))
  {
    ContainsIsPrefix(a, b);
    ContainsIsPrefix(b, a);
    if a.Net4? == b.Net4? {
      assert AgreeOnFirst(Value(a), Value(b), Width(a), PrefixLen(b))
          <==> AgreeOnFirst(Value(b), Value(a), Width(a), PrefixLen(b));
    }
  }

  lemma OnLinkIsEquivalence(a: IpNet, b: IpNet, c: IpNet)
    ensures AddrsOnLink(a, a)
    ensures AddrsOnLink(a, b) <==> AddrsOnLink(b, a)
    ensures PrefixLen(a) == PrefixLen(b) == PrefixLen(c) && AddrsOnLink(a, b) && AddrsOnLink(b, c) ==> AddrsOnLink(a, c)
  {
    OnLinkIsLongerPrefix(a, a);
    OnLinkIsLongerPrefix(a, b);
    OnLinkIsLongerPrefix(b, c);
    OnLinkIsLongerPrefix(a, c);
  }

  // ---------- Candidates ----------

  // The addresses of peer on link with l, in their order.
  function OnLinkWith(l: IpNet, peer: seq<IpNet>): seq<IpNet> {
    if peer == [] then []
    else OnLinkWith(l, peer[..|peer| - 1]) + (if AddrsOnLink(l, peer[|peer| - 1]) then [peer[|peer| - 1]] else [])
  }

  function Candidates(ours: seq<IpNet>, peer: seq<IpNet>): seq<IpNet> {
    if ours == [] then []
    else Candidates(ours[..|ours| - 1], peer) + OnLinkWith(ours[|ours| - 1], peer)
  }

  // Our addresses come from the system; an error there counts as none.
  method FindLanCandidates(ours: Option<seq<IpNet>>, peer: seq<IpNet>) returns (candidates: seq<IpNet>)
    ensures candidates == Candidates(if ours.Some? then ours.value else [], peer)
  {
    candidates := [];
    match ours {
      case None =>
      case Some(addrs) =>
        for i := 0 to |addrs|
          invariant candidates == Candidates(addrs[..i], peer)
        {
          for j := 0 to |peer|
            invariant candidates == Candidates(addrs[..i], peer) + OnLinkWith(addrs[i], peer[..j])
          {
            assert peer[..j + 1][..j] == peer[..j];
            if AddrsOnLink(addrs[i], peer[j]) {
              candidates := candidates + [peer[j]];
            }
          }
          assert peer[..|peer|] == peer;
          assert addrs[..i + 1][..i] == addrs[..i];
        }
        assert addrs[..|addrs|] == addrs;
    }
  }

  // The candidates are in local-major order: one for each pair of one of our addresses and one
  // of the peer's that are on link, listed by our address first and then by the peer's.
  ghost predicate Precedes(p: (nat, nat), q: (nat, nat)) { p.0 < q.0 || (p.0 == q.0 && p.1 < q.1) }

  predicate Relates(ours: seq<IpNet>, peer: seq<IpNet>, p: (nat, nat)) {
    p.0 < |ours| && p.1 < |peer| && AddrsOnLink(ours[p.0], peer[p.1])
  }

  ghost predicate Lists(pairs: seq<(nat, nat)>, ours: seq<IpNet>, peer: seq<IpNet>) {
    && (forall p :: p in pairs <==> Relates(ours, peer, p))
    && (forall k, m :: 0 <= k < m < |pairs| ==> Precedes(pairs[k], pairs[m]))
  }

  // The indices in peer of what OnLinkWith gives, each with i in front.
  lemma {:induction false} OnLinkWithIndices(l: IpNet, i: nat, peer: seq<IpNet>) returns (pairs: seq<(nat, nat)>)
    ensures forall p :: p in pairs <==> p.0 == i && p.1 < |peer| && AddrsOnLink(l, peer[p.1])
    ensures forall k, m :: 0 <= k < m < |pairs| ==> Precedes(pairs[k], pairs[m])
    ensures |pairs| == |OnLinkWith(l, peer)|
    ensures forall k :: 0 <= k < |pairs| ==> pairs[k] in pairs && OnLinkWith(l, peer)[k] == peer[pairs[k].1]
  {
    if peer == [] {
      pairs := [];
    } else {
      var n := |peer| - 1;
      var before := OnLinkWithIndices(l, i, peer[..n]);
      pairs := before + (if AddrsOnLink(l, peer[n]) then [(i, n)] else []);
    }
  }

  lemma {:induction false} CandidatesInOrder(ours: seq<IpNet>, peer: seq<IpNet>) returns (pairs: seq<(nat, nat)>)
    ensures Lists(pairs, ours, peer)
    ensures |pairs| == |Candidates(ours, peer)|
    ensures forall k :: 0 <= k < |pairs| ==> pairs[k] in pairs && Candidates(ours, peer)[k] == peer[pairs[k].1]
  {
    if ours == [] {
      pairs := [];
    } else {
      var n := |ours| - 1;
      var before := CandidatesInOrder(ours[..n], peer);
      var here := OnLinkWithIndices(ours[n], n, peer);
      pairs := before + here;
      forall p: (nat, nat) ensures p in pairs <==> Relates(ours, peer, p) {
        assert p in pairs <==> p in before || p in here;
        assert p in before <==> Relates(ours[..n], peer, p);
        assert Relates(ours, peer, p) <==> Relates(ours[..n], peer, p) || (p.0 == n && Relates(ours, peer, p));
      }
      OrderedAppend(before, here, n);
    }
  }

  lemma OrderedAppend(before: seq<(nat, nat)>, here: seq<(nat, nat)>, n: nat)
    requires forall k, m :: 0 <= k < m < |before| ==> Precedes(before[k], before[m])
    requires forall k, m :: 0 <= k < m < |here| ==> Precedes(here[k], here[m])
    requires (forall p :: p in before ==> p.0 < n) && (forall p :: p in here ==> p.0 == n)
    ensures forall k, m :: 0 <= k < m < |before + here| ==> Precedes((before + here)[k], (before + here)[m])
  {
  }

}
