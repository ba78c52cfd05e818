// The messages of the wireplug protocol and the checks the server makes on them.
module Protocol {
  import opened Wrappers
  import opened Net
  import opened Text

  const MAGIC: Bytes := [0xFD, 0xAC, 0xAF]
  const VERSION: Bytes := [0x1]
  const MAX_MESSAGE_SIZE := 4096

  datatype Announcement = Announcement(
    initiator: Str,
    peers: seq<Str>,
    ipv6: Option<Ipv6Addr>,
    wgPort: uint16,
    lanAddrs: seq<IpNet>,
    needsRelay: bool)

  datatype Endpoint =
    | Unknown
    | LocalNetwork(lipv6: Option<Ipv6Addr>, lanAddrs: seq<IpNet>, lport: uint16)
    | RemoteNetwork(ripv4: Option<Ipv4Addr>, ripv6: Option<Ipv6Addr>, rport: uint16)
    | Relay(id: uint64, relayPort: uint16)

  type Response = map<Str, Endpoint>

  datatype StunResult = SamePort | DifferentPort(port: uint16)

  // The characters of a base64 text.
  predicate KeyChar(c: nat) {
    || 'a' as int <= c <= 'z' as int
    || 'A' as int <= c <= 'Z' as int
    || '0' as int <= c <= '9' as int
    || c == '+' as int || c == '/' as int || c == '=' as int
  }

  const UPPER := "ABCDEFGHIJKLMNOPQRSTUVWXYZ"
  const LOWER := "abcdefghijklmnopqrstuvwxyz"
  const DIGITS := "0123456789"

  // These are the letters of base64 (section 4 of RFC 4648) and its padding, all of them ASCII.
  lemma KeyCharIsBase64(c: char)
    ensures KeyChar(c as nat) <==> c in UPPER + LOWER + DIGITS + "+/="
    ensures forall n: nat :: KeyChar(n) ==> n <= 0x7F
  {
    assert c in UPPER <==> 'A' <= c <= 'Z' by {
      IsUpper(c);
    }
    assert c in LOWER <==> 'a' <= c <= 'z' by {
      IsLower(c);
    }
  }

  lemma IsUpper(c: char)
    ensures c in UPPER <==> 'A' <= c <= 'Z'
  {
  }

  lemma IsLower(c: char)
    ensures c in LOWER <==> 'a' <= c <= 'z'
  {
  }

  // A WireGuard key in text form: 44 bytes, each of them a base64 character.
  predicate ValidWgKey(s: Str) {
    |s| == 44 && forall i :: 0 <= i < |s| ==> KeyChar(s[i])
  }

  // The server scans the characters of the string; the answer is about its bytes.
  method IsValidWgKey(s: Str) returns (ok: bool)
    ensures ok <==> ValidWgKey(s)
  {
    if |s| != 44 {
      return false;
    }
    ghost var alphabet := set c: nat | c <= 0x7F && KeyChar(c);
    AsciiScan(s, alphabet);
    var chars := Chars(s);
    for i := 0 to |chars|
      invariant forall c :: c in chars[..i] ==> KeyChar(c)
    {
      if !KeyChar(chars[i]) {
        assert chars[i] in chars && chars[i] !in alphabet;
        return false;
      }
    }
    assert chars[..|chars|] == chars;
    forall k | 0 <= k < |s| ensures KeyChar(s[k]) {
      assert s[k] in s;
    }
    return true;
  }

  predicate Valid(a: Announcement) {
    && ValidWgKey(a.initiator)
    && (forall p :: p in a.peers ==> ValidWgKey(p))
    && a.wgPort >= 1024
  }

}
