// A client bounds what it reads at 4096 bytes, and the server bounds what it reads alike, but
// not what it writes: peers with many addresses make an answer that the asking client refuses,
// however small each announcement is. By then the server has written it and goes on to store.
module Limits {
  import opened Wrappers
  import opened Net
  import opened Text
  import opened Protocol
  import opened Postcard
  import opened Wire
  import opened Peering
  import opened History
  import opened Server
  import opened HandledAlone

  lemma {:induction false} AsciiIsUtf8(s: Bytes)
    requires forall b :: b in s ==> b <= 0x7F
    ensures ValidUtf8(s)
  {
    if s != [] {
      assert s[0] in s && forall b :: b in s[1..] ==> b in s;
      AsciiIsUtf8(s[1..]);
    }
  }

  lemma Distributes(n: nat, k: nat)
    ensures n * (k + 1) == n + n * k
  {
  }

  lemma {:induction false} EqualLengths<T>(xs: seq<T>, enc: T -> Bytes, n: nat)
    requires forall x :: x in xs ==> |enc(x)| == n
    ensures |EncMany(xs, enc)| == n * |xs|
  {
    if xs != [] {
      assert xs[0] in xs && forall x :: x in xs[1..] ==> x in xs;
      EqualLengths(xs[1..], enc, n);
      assert n * |xs| == n + n * |xs[1..]| by { Distributes(n, |xs[1..]|); }
    }
  }

  // A key text of 44 times the same letter.
  function KeyText(letter: uint8): (s: Str)
    requires 'a' as int <= letter <= 'z' as int
    ensures ValidWgKey(s) && s[0] == letter
  {
    var s: Bytes := seq(44, _ => letter);
    AsciiIsUtf8(s);
    s
  }

  // 400 addresses, of six bytes each.
  function ManyAddrs(): seq<IpNet> { seq(400, _ => Net4(0, 0)) }

  lemma ManyAddrsLength()
    ensures |EncSeq(ManyAddrs(), EncIpNet)| == 2402
  {
    EqualLengths(ManyAddrs(), EncIpNet, 6);
    assert EncVarint(400) == [144] + EncVarint(3);
  }

  function Bulky(key: Str, peer: Str): Announcement {
    Announcement(key, [peer], None, 51820, ManyAddrs(), false)
  }

  function Asking(key: Str, first: Str, second: Str): Announcement {
    Announcement(key, [first, second], None, 51820, [], false)
  }

  lemma PortLength()
    ensures |EncVarint(51820)| == 3
  {
  }

  lemma AnnouncementsFit(a: Str, b: Str, d: Str)
    requires ValidWgKey(a) && ValidWgKey(b) && ValidWgKey(d)
    ensures Valid(Bulky(b, a)) && |EncAnnouncement(Bulky(b, a))| <= MAX_MESSAGE_SIZE
    ensures Valid(Asking(a, b, d)) && |EncAnnouncement(Asking(a, b, d))| <= MAX_MESSAGE_SIZE
  {
    ManyAddrsLength();
    PortLength();
    EqualLengths([a], EncStr, 45);
    EqualLengths([b, d], EncStr, 45);
    EqualLengths<IpNet>([], EncIpNet, 6);
  }

  lemma {:induction false} DistinctFit(keys: seq<Str>, within: set<Str>)
    requires forall i, j :: 0 <= i < j < |keys| ==> keys[i] != keys[j]
    requires forall k :: k in keys ==> k in within
    ensures |keys| <= |within|
  {
    if keys != [] {
      var n := |keys| - 1;
      DistinctFit(keys[..n], within - {keys[n]});
    }
  }

  lemma TwoEntries(entries: seq<(Str, Endpoint)>, m: Response, b: Str, d: Str)
    requires Enumerates(entries, m) && m.Keys == {b, d} && b != d
    ensures |entries| == 2
  {
    assert (b, m[b]) in entries && (d, m[d]) in entries;
    var keys := seq(|entries|, i requires 0 <= i < |entries| => entries[i].0);
    forall k | k in keys ensures k in {b, d} {
      var i :| 0 <= i < |keys| && keys[i] == k;
      assert entries[i] in entries;
    }
    DistinctFit(keys, {b, d});
  }

  function BulkyAnswer(b: Str, d: Str): Response {
    map[b := LocalNetwork(None, ManyAddrs(), 51820), d := LocalNetwork(None, ManyAddrs(), 51820)]
  }

  function BulkyRecords(ip: Ipv4Addr, s1: Time, s2: Time, a: Str, b: Str, d: Str): Records {
    StoreAll(StoreAll(map[], Bulky(b, a), ip, [s1]), Bulky(d, a), ip, [s2])
  }

  // What the third peer is told of each of the two.
  lemma BulkyIsAnswered(ip: Ipv4Addr, s1: Time, s2: Time, a: Str, b: Str, d: Str)
    requires b != d
    ensures AnswersAll(false, BulkyAnswer(b, d), Asking(a, b, d), V4(ip), BulkyRecords(ip, s1, s2, a, b, d))
  {
    var one := StoreAll(map[], Bulky(b, a), ip, [s1]);
    StoreAllAt(map[], Bulky(b, a), ip, [s1], (b, a));
    StoreAllAt(one, Bulky(d, a), ip, [s2], (b, a));
    StoreAllAt(one, Bulky(d, a), ip, [s2], (d, a));
  }

  lemma BulkyAnswerIsLong(entries: seq<(Str, Endpoint)>, m: Response, b: Str, d: Str)
    requires b != d && ValidWgKey(b) && ValidWgKey(d)
    requires m == BulkyAnswer(b, d) && Enumerates(entries, m)
    ensures |EncResponse(entries)| == 4905
  {
    assert m.Keys == {b, d};
    TwoEntries(entries, m, b, d);
    ManyAddrsLength();
    PortLength();
    forall e | e in entries ensures |EncEntry(e)| == 2452 {
      assert |EncStr(e.0)| == 45;
    }
    EqualLengths(entries, EncEntry, 2452);
  }

  predicate AreKeys(a: Str, b: Str, d: Str) {
    a == KeyText('a' as int) && b == KeyText('b' as int) && d == KeyText('d' as int)
  }

  lemma ReadsBulky(a: Str, b: Str, d: Str)
    requires ValidWgKey(a) && ValidWgKey(b) && ValidWgKey(d)
    ensures ParseRequest(RequestFrame(Bulky(b, a))) == Accepted(Bulky(b, a))
    ensures ParseRequest(RequestFrame(Asking(a, b, d))) == Accepted(Asking(a, b, d))
  {
    AnnouncementsFit(a, b, d);
    ServerReadsAnnouncement(Bulky(b, a), []);
    ServerReadsAnnouncement(Asking(a, b, d), []);
    assert RequestFrame(Bulky(b, a)) + [] == RequestFrame(Bulky(b, a));
    assert RequestFrame(Asking(a, b, d)) + [] == RequestFrame(Asking(a, b, d));
  }

  // Whatever answer the third peer may get, the client takes it for no answer.
  lemma BulkyAnswerIsRefused(ip: Ipv4Addr, s1: Time, s2: Time, a: Str, b: Str, d: Str, m: Response,
                             entries: seq<(Str, Endpoint)>)
    requires b != d && ValidWgKey(b) && ValidWgKey(d)
    requires AnswersAll(false, m, Asking(a, b, d), V4(ip), BulkyRecords(ip, s1, s2, a, b, d)) && Enumerates(entries, m)
    ensures |EncResponse(entries)| == 4905 && ParseResponse(ResponseFrame(entries)) == NoReply(Oversized)
  {
    BulkyIsAnswered(ip, s1, s2, a, b, d);
    OneAnswer(Asking(a, b, d), V4(ip), BulkyRecords(ip, s1, s2, a, b, d), m, BulkyAnswer(b, d));
    BulkyAnswerIsLong(entries, m, b, d);
    ClientReadsResponse(entries, m, []);
    assert ResponseFrame(entries) + [] == ResponseFrame(entries);
  }

  lemma FirstBulky(ip: Ipv4Addr, s1: Time, a: Str, b: Str, d: Str)
    requires a != b && b != d
    ensures AnswersAll(false, map[a := Unknown], Bulky(b, a), V4(ip), map[])
    ensures AnswersAll(false, map[a := Unknown], Bulky(d, a), V4(ip), StoreAll(map[], Bulky(b, a), ip, [s1]))
  {
    StoreAllAt(map[], Bulky(b, a), ip, [s1], (a, d));
  }

  // The two peers announce themselves to a server that has just started.
  lemma BulkyPeersVisit(c: Config, s0: State, ip: Ipv4Addr, s1: Time, s2: Time, a: Str, b: Str, d: Str)
    returns (s: State)
    requires Initial(s0) && !c.relayOn && a != b && b != d && ValidWgKey(a) && ValidWgKey(b) && ValidWgKey(d)
    ensures Reaches(c, s0, s) && s.locks == NOBODY && s.records == BulkyRecords(ip, s1, s2, a, b, d)
    ensures |s.tasks| == |s0.tasks| + 2
  {
    ReadsBulky(a, b, d);
    ReadsBulky(a, d, b);
    FirstBulky(ip, s1, a, b, d);
    var entries := UnknownFits(a);
    var one := Visits(c, s0, ip, RequestFrame(Bulky(b, a)), Bulky(b, a), [s1], map[a := Unknown], entries);
    s := Visits(c, one, ip, RequestFrame(Bulky(d, a)), Bulky(d, a), [s2], map[a := Unknown], entries);
    Onward(c, s0, one, s);
  }

  // Two peers announce for a third from behind one public address, to a server that has just
  // started; then the third one asks. All three announcements are valid, fit in a message and are
  // stored. But the third one's answer does not fit, in any order of its entries, and the client
  // refuses it.
  lemma AnswerCanBeTooLong(c: Config, s0: State, ip: Ipv4Addr, s1: Time, s2: Time, s3: Time, a: Str, b: Str, d: Str,
                           entries: seq<(Str, Endpoint)>)
    returns (before: State, after: State)
    requires Initial(s0) && !c.relayOn && AreKeys(a, b, d) && Enumerates(entries, BulkyAnswer(b, d))
    ensures forall x :: x in {Bulky(b, a), Bulky(d, a), Asking(a, b, d)} ==>
              ParseRequest(RequestFrame(x)) == Accepted(x)
    ensures Reaches(c, s0, before) && Reaches(c, before, after)
    ensures after.records == StoreAll(before.records, Asking(a, b, d), ip, [s3, s3])
    ensures Replied(|s0.tasks| + 2, ResponseFrame(entries)) in after.history
    ensures forall m, es :: AnswersAll(false, m, Asking(a, b, d), V4(ip), before.records) && Enumerates(es, m) ==>
              ParseResponse(ResponseFrame(es)) == NoReply(Oversized)
  {
    assert a[0] != b[0] && b[0] != d[0];
    ReadsBulky(a, b, d);
    ReadsBulky(a, d, b);
    before := BulkyPeersVisit(c, s0, ip, s1, s2, a, b, d);
    forall m, es | AnswersAll(false, m, Asking(a, b, d), V4(ip), before.records) && Enumerates(es, m)
      ensures ParseResponse(ResponseFrame(es)) == NoReply(Oversized)
    {
      BulkyAnswerIsRefused(ip, s1, s2, a, b, d, m, es);
    }
    BulkyIsAnswered(ip, s1, s2, a, b, d);
    BulkyAnswerIsRefused(ip, s1, s2, a, b, d, BulkyAnswer(b, d), entries);
    after := Visits(c, before, ip, RequestFrame(Asking(a, b, d)), Asking(a, b, d), [s3, s3], BulkyAnswer(b, d),
        entries);
  }

}
