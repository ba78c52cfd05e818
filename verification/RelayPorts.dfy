// The relay manager: which port a pair of peers is told to meet on. The byte form of a key and
// the choice of a free port are not written yet in the server, so both are parameters here.
module RelayPorts {
  import opened Wrappers
  import opened Net
  import opened Text

  datatype Kind = Proto(p: uint16) | Pending(q: uint16) | Established(e: uint16)

  type KeyBytes = b: Bytes | |b| == 32 witness seq(32, _ => 0)

  // ---------- Normalized keys ----------

  predicate LexLeq(a: Bytes, b: Bytes)
    requires |a| == |b|
  {
    a == [] || a[0] < b[0] || (a[0] == b[0] && LexLeq(a[1..], b[1..]))
  }

  function Normalized(a: KeyBytes, b: KeyBytes): (r: Bytes)
    ensures |r| == 64
  {
    if LexLeq(a, b) then a + b else b + a
  }

  lemma {:induction false} LexTotal(a: Bytes, b: Bytes)
    requires |a| == |b|
    ensures LexLeq(a, b) || LexLeq(b, a)
    ensures LexLeq(a, b) && LexLeq(b, a) ==> a == b
  {
    if a != [] {
      LexTotal(a[1..], b[1..]);
      assert a == [a[0]] + a[1..] && b == [b[0]] + b[1..];
    }
  }

  // The normalized key does not depend on the order of the two keys, and tells every two
  // unordered pairs apart.
  lemma NormalizedIsUnorderedPair(a: KeyBytes, b: KeyBytes, c: KeyBytes, d: KeyBytes)
    ensures Normalized(a, b) == Normalized(b, a)
    ensures Normalized(a, b) == Normalized(c, d) <==> (a == c && b == d) || (a == d && b == c)
  {
    LexTotal(a, b);
    LexTotal(c, d);
    var x, y := Normalized(a, b), Normalized(c, d);
    assert x[..32] == if LexLeq(a, b) then a else b;
    assert x[32..] == if LexLeq(a, b) then b else a;
    assert y[..32] == if LexLeq(c, d) then c else d;
    assert y[32..] == if LexLeq(c, d) then d else c;
  }

  // Copies the two keys into place, the smaller one first.
  method GetNormalized(a: KeyBytes, b: KeyBytes) returns (out: array<uint8>)
    ensures fresh(out) && out[..] == Normalized(a, b)
  {
    out := new uint8[64](_ => 0);
    var first, second := if LexLeq(a, b) then a else b, if LexLeq(a, b) then b else a;
    for i := 0 to 32
      invariant out[..i] == first[..i]
    {
      out[i] := first[i];
    }
    for i := 0 to 32
      invariant out[..32] == first && out[32..32 + i] == second[..i]
    {
      out[32 + i] := second[i];
    }
    assert out[32..] == out[32..64] == second;
    assert out[..] == out[..32] + out[32..];
  }

  // ---------- The manager's tables, reduced to their ports ----------

  datatype Tables = Tables(
    proto: map<(Str, Str), uint16>,
    pending: map<(Str, Str), uint16>,
    established: map<Bytes, uint16>)

  datatype Call = Call(a: Str, b: Str, free: uint16)

  // The entry that already fixes the answer for the ordered pair, if there is one.
  function Known(t: Tables, a: Str, b: Str, bytes: Str -> KeyBytes): Option<Kind> {
    var n := Normalized(bytes(a), bytes(b));
    if n in t.established then Some(Established(t.established[n]))
    else if (a, b) in t.pending then Some(Pending(t.pending[(a, b)]))
    else if (a, b) in t.proto then Some(Proto(t.proto[(a, b)]))
    else None
  }

  function Allocated(t: Tables, a: Str, b: Str, free: uint16): uint16 {
    if (b, a) in t.pending then t.pending[(b, a)] else free
  }

  function Ask(t: Tables, c: Call, bytes: Str -> KeyBytes): (r: (Tables, Kind)) {
    match Known(t, c.a, c.b, bytes)
    case Some(kind) => (t, kind)
    case None =>
      var port := Allocated(t, c.a, c.b, c.free);
      (t.(proto := t.proto[(c.a, c.b) := port]), Proto(port))
  }

  function AskAll(t: Tables, calls: seq<Call>, bytes: Str -> KeyBytes): Tables
    decreases |calls|
  {
    if calls == [] then t else AskAll(Ask(t, calls[0], bytes).0, calls[1..], bytes)
  }

  lemma {:induction false} AskAllKeeps(t: Tables, calls: seq<Call>, bytes: Str -> KeyBytes)
    ensures var t' := AskAll(t, calls, bytes);
            && t'.pending == t.pending && t'.established == t.established
            && t.proto.Keys <= t'.proto.Keys
            && (forall k :: k in t.proto ==> t'.proto[k] == t.proto[k])
            && |t'.proto| <= |t.proto| + |calls|
    decreases |calls|
  {
    if calls != [] {
      var t1 := Ask(t, calls[0], bytes).0;
      AskAllKeeps(t1, calls[1..], bytes);
      assert |t1.proto| <= |t.proto| + 1;
    }
  }

  // A pair once answered keeps its kind and port, whatever is asked in between and whichever
  // port is free by then.
  lemma RelayPortsAreStable(t: Tables, c: Call, calls: seq<Call>, again: uint16, bytes: Str -> KeyBytes)
    ensures var (t1, kind) := Ask(t, c, bytes);
            Ask(AskAll(t1, calls, bytes), Call(c.a, c.b, again), bytes) == (AskAll(t1, calls, bytes), kind)
  {
    AskAllKeeps(Ask(t, c, bytes).0, calls, bytes);
  }

  // A direction without any entry of its own meets its pending reverse on the reverse's port;
  // a later answer to the reverse is that same port.
  lemma PendingReverseSharesPort(t: Tables, c: Call, calls: seq<Call>, free: uint16, bytes: Str -> KeyBytes)
    requires Known(t, c.a, c.b, bytes) == None && (c.b, c.a) in t.pending
    ensures var (t1, kind) := Ask(t, c, bytes);
            && kind == Proto(t.pending[(c.b, c.a)])
            && Ask(AskAll(t1, calls, bytes), Call(c.b, c.a, free), bytes).1 == Pending(t.pending[(c.b, c.a)])
  {
    var t1 := Ask(t, c, bytes).0;
    AskAllKeeps(t1, calls, bytes);
    NormalizedIsUnorderedPair(bytes(c.a), bytes(c.b), bytes(c.b), bytes(c.a));
  }

  class RelayManager {
    var proto: map<(Str, Str), (IpAddr, uint16)>
    var pending: map<(Str, Str), uint16>
    var established: map<Bytes, uint16>

    ghost function Contents(): Tables
      reads this
    {
      Tables(map k | k in proto :: proto[k].1, pending, established)
    }

    constructor ()
      ensures Contents() == Tables(map[], map[], map[])
    {
      proto, pending, established := map[], map[], map[];
    }

    method GetRelayPort(a: Str, b: Str, announcing: IpAddr, free: uint16, bytes: Str -> KeyBytes)
      returns (kind: Kind)
      modifies `proto
      ensures (Contents(), kind) == Ask(old(Contents()), Call(a, b, free), bytes)
      ensures forall k :: k in old(proto) ==> k in proto && proto[k] == old(proto)[k]
      ensures (a, b) in proto && (a, b) !in old(proto) ==> proto[(a, b)].0 == announcing
    {
      var normalized := GetNormalized(bytes(a), bytes(b));
      if normalized[..] in established {
        return Established(established[normalized[..]]);
      }
      if (a, b) in pending {
        return Pending(pending[(a, b)]);
      }
      if (a, b) in proto {
        return Proto(proto[(a, b)].1);
      }
      var port := if (b, a) in pending then pending[(b, a)] else free;
      proto := proto[(a, b) := (announcing, port)];
      assert Contents().proto == old(Contents()).proto[(a, b) := port];
      return Proto(port);
    }
  }

}
