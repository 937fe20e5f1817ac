/** The console's server inventory (apps/parent/src/servers.rs): the built-in regions, the
    self-hosted servers the user saved, and the endpoint a saved choice resolves to. */
module Servers {
  import opened Base
  import opened Text
  import Hex

  datatype SavedServer = SavedServer(id: string, caption: string, endpoint: string, builtin: bool)

  const DEFAULT_REGION_ID := "uk"

  const BUILTIN: seq<SavedServer> := [
    SavedServer("uk", "PH Bulwark Cloud \U{2014} UK (London)", "https://api.predatorhunters.co.uk:8443", true),
    SavedServer("us", "PH Bulwark Cloud \U{2014} US", "https://us.cloud.phbulwark.app", true)
  ]

  predicate IsEndpointUrl(s: string) {
    "http://" <= Trim(s) || "https://" <= Trim(s)
  }

  // ----- Session keys -----

  const FNV_OFFSET := 0xcbf29ce484222325
  const FNV_PRIME := 0x100000001b3

  /** `hash ^ b` for one byte: only the low eight bits can change. */
  function XorByte(hash: nat, b: byte): nat {
    hash - hash % 256 + (((hash % 256) as bv8) ^ (b as bv8)) as int
  }

  /** 64-bit FNV-1a; the multiplication wraps. */
  function Fnv(bytes: Bytes): nat {
    if bytes == [] then FNV_OFFSET
    else XorByte(Fnv(Front(bytes)), Last(bytes)) * FNV_PRIME % USIZE_RANGE
  }

  lemma FnvRange(bytes: Bytes)
    ensures Fnv(bytes) < USIZE_RANGE
  {
  }

  /** `format!("{hash:016x}")`. */
  function Hex16(v: nat): string {
    var s := Hex.Unpadded(v);
    if |s| >= 16 then s else seq(16 - |s|, _ => '0') + s
  }

  function SessionKey(endpoint: string): string {
    Hex16(Fnv(AsBytes(Trim(endpoint))))
  }

  method ServerSessionKey(endpoint: string) returns (key: string)
    ensures key == SessionKey(endpoint)
  {
    var bytes := AsBytes(Trim(endpoint));
    var hash := FNV_OFFSET;
    for i := 0 to |bytes|
      invariant hash == Fnv(bytes[..i])
    {
      assert Front(bytes[..i + 1]) == bytes[..i];
      hash := XorByte(hash, bytes[i]);
      hash := hash * FNV_PRIME % USIZE_RANGE;
    }
    assert bytes[..|bytes|] == bytes;
    key := Hex16(hash);
  }

  function CustomServerId(endpoint: string): string {
    "self-" + SessionKey(endpoint)
  }

  function Pow16(w: nat): nat {
    if w == 0 then 1 else 16 * Pow16(w - 1)
  }

  lemma {:induction false} UnpaddedFits(v: nat, w: nat)
    requires 1 <= w && v < Pow16(w)
    ensures |Hex.Unpadded(v)| <= w && Hex.AllLower(Hex.Unpadded(v))
  {
    if v >= 16 { UnpaddedFits(v / 16, w - 1); }
  }

  lemma Pow16Of16()
    ensures Pow16(16) == 0x1_0000_0000_0000_0000
  {
    assert Pow16(4) == 0x1_0000;
    assert Pow16(8) == 0x1_0000_0000;
    assert Pow16(12) == 0x1_0000_0000_0000;
  }

  lemma Hex16Shape(v: nat)
    requires v < USIZE_RANGE
    ensures |Hex16(v)| == 16 && Hex.AllLower(Hex16(v))
  {
    Pow16Of16();
    UnpaddedFits(v, 16);
  }

  /** A key is sixteen lower-case hex digits and does not see white space around the endpoint. */
  lemma SessionKeyShape(endpoint: string)
    ensures |SessionKey(endpoint)| == 16 && Hex.AllLower(SessionKey(endpoint))
    ensures SessionKey(Trim(endpoint)) == SessionKey(endpoint)
  {
    FnvRange(AsBytes(Trim(endpoint)));
    Hex16Shape(Fnv(AsBytes(Trim(endpoint))));
    TrimShape(endpoint);
  }

  function HexValue(s: string): nat
    requires Hex.AllLower(s)
  {
    if s == [] then 0 else 16 * HexValue(Front(s)) + Hex.DigitValue(Last(s)).value
  }

  lemma {:induction false} UnpaddedReads(v: nat)
    ensures Hex.AllLower(Hex.Unpadded(v)) && HexValue(Hex.Unpadded(v)) == v
  {
    if v >= 16 {
      UnpaddedReads(v / 16);
      assert Front(Hex.Unpadded(v)) == Hex.Unpadded(v / 16);
    } else {
      assert Front([Hex.LowerDigit(v)]) == [];
    }
  }

  lemma {:induction false} ZerosInFront(zeros: string, s: string)
    requires (forall i :: 0 <= i < |zeros| ==> zeros[i] == '0') && Hex.AllLower(s)
    ensures Hex.AllLower(zeros + s) && HexValue(zeros + s) == HexValue(s)
  {
    if s == [] {
      assert zeros + s == zeros;
      if zeros != [] {
        ZerosInFront(Front(zeros), s);
        assert Front(zeros) + s == Front(zeros);
      }
    } else {
      assert Front(zeros + s) == zeros + Front(s);
      ZerosInFront(zeros, Front(s));
    }
  }

  /** A key is the hash in hexadecimal: endpoints have one key exactly if they have one hash. */
  lemma SessionKeyReads(endpoint: string, other: string)
    ensures Hex.AllLower(SessionKey(endpoint)) && HexValue(SessionKey(endpoint)) == Fnv(AsBytes(Trim(endpoint)))
    ensures SessionKey(endpoint) == SessionKey(other) <==> Fnv(AsBytes(Trim(endpoint))) == Fnv(AsBytes(Trim(other)))
  {
    Hex16Reads(Fnv(AsBytes(Trim(endpoint))));
    Hex16Reads(Fnv(AsBytes(Trim(other))));
  }

  lemma Hex16Reads(v: nat)
    ensures Hex.AllLower(Hex16(v)) && HexValue(Hex16(v)) == v
  {
    var s := Hex.Unpadded(v);
    UnpaddedReads(v);
    if |s| < 16 { ZerosInFront(seq(16 - |s|, _ => '0'), s); }
  }

  /** Published values of 64-bit FNV-1a, of nothing and of `a`. */
  lemma FnvVectors()
    ensures Fnv([]) == 0xcbf29ce484222325 && Fnv([0x61]) == 0xaf63dc4c8601ec8c
  {
    assert Front([0x61 as byte]) == [];
    assert (0x25 as bv8) ^ (0x61 as bv8) == 0x44;
    assert XorByte(0xcbf29ce484222325, 0x61) == 0xcbf29ce484222344;
    assert 0xcbf29ce484222344 * 0x100000001b3 % 0x1_0000_0000_0000_0000 == 0xaf63dc4c8601ec8c;
  }

  // ----- The custom list -----

  function Cleaned(s: SavedServer): SavedServer {
    SavedServer(Trim(s.id), Trim(s.caption), Trim(s.endpoint), false)
  }

  predicate Acceptable(s: SavedServer) {
    s.id != [] && IsEndpointUrl(s.endpoint)
  }

  predicate Conflict(a: SavedServer, b: SavedServer) {
    a.id == b.id || a.endpoint == b.endpoint
  }

  predicate ConflictsWithAny(list: seq<SavedServer>, s: SavedServer) {
    exists k :: 0 <= k < |list| && Conflict(list[k], s)
  }

  function Normalize(servers: seq<SavedServer>): seq<SavedServer> {
    if servers == [] then []
    else
      var out, server := Normalize(Front(servers)), Cleaned(Last(servers));
      if Acceptable(server) && !ConflictsWithAny(out, server) then out + [server] else out
  }

  method NormalizeCustomServers(servers: seq<SavedServer>) returns (out: seq<SavedServer>)
    ensures out == Normalize(servers)
  {
    out := [];
    for i := 0 to |servers|
      invariant out == Normalize(servers[..i])
    {
      var server := servers[i];
      assert Front(servers[..i + 1]) == servers[..i];
      server := server.(id := Trim(server.id));
      server := server.(caption := Trim(server.caption));
      server := server.(endpoint := Trim(server.endpoint));
      server := server.(builtin := false);
      if server.id == [] || !IsEndpointUrl(server.endpoint) { continue; }
      if ConflictsWithAny(out, server) { continue; }
      out := out + [server];
    }
    assert servers[..|servers|] == servers;
  }

  /** What every normalized list is. */
  predicate Normal(list: seq<SavedServer>) {
    && (forall i :: 0 <= i < |list| ==> Cleaned(list[i]) == list[i] && Acceptable(list[i]))
    && (forall i, j :: 0 <= i < j < |list| ==> !Conflict(list[i], list[j]))
  }

  lemma CleanedOnce(s: SavedServer)
    ensures Cleaned(Cleaned(s)) == Cleaned(s)
  {
    TrimShape(s.id);
    TrimShape(s.caption);
    TrimShape(s.endpoint);
  }

  lemma NormalLonger(list: seq<SavedServer>, s: SavedServer)
    ensures Normal(list + [s]) <==> Normal(list) && Cleaned(s) == s && Acceptable(s) && !ConflictsWithAny(list, s)
  {
    var longer := list + [s];
    if Normal(longer) {
      assert forall i :: 0 <= i < |list| ==> longer[i] == list[i];
      assert longer[|list|] == s;
    }
  }

  lemma {:induction false} NormalizeIsNormal(servers: seq<SavedServer>)
    ensures Normal(Normalize(servers))
  {
    if servers != [] {
      NormalizeIsNormal(Front(servers));
      CleanedOnce(Last(servers));
      NormalLonger(Normalize(Front(servers)), Cleaned(Last(servers)));
    }
  }

  lemma {:induction false} NormalIsKept(list: seq<SavedServer>)
    requires Normal(list)
    ensures Normalize(list) == list
  {
    if list != [] {
      assert list == Front(list) + [Last(list)];
      NormalLonger(Front(list), Last(list));
      NormalIsKept(Front(list));
    }
  }

  /** Normalizing again changes nothing. */
  lemma NormalizeIdempotent(servers: seq<SavedServer>)
    ensures Normalize(Normalize(servers)) == Normalize(servers)
  {
    NormalizeIsNormal(servers);
    NormalIsKept(Normalize(servers));
  }

  /** The places of the servers that are kept. */
  function Kept(servers: seq<SavedServer>): seq<nat> {
    if servers == [] then []
    else
      var out, server := Normalize(Front(servers)), Cleaned(Last(servers));
      if Acceptable(server) && !ConflictsWithAny(out, server) then Kept(Front(servers)) + [|servers| - 1]
      else Kept(Front(servers))
  }

  predicate Increasing(places: seq<nat>, bound: nat) {
    && (forall a, b :: 0 <= a < b < |places| ==> places[a] < places[b])
    && (forall a :: 0 <= a < |places| ==> places[a] < bound)
  }

  /** `out` is the cleaned servers at increasing places, each once. */
  predicate PickedAt(servers: seq<SavedServer>, places: seq<nat>, out: seq<SavedServer>) {
    && Increasing(places, |servers|)
    && |out| == |places|
    && forall a :: 0 <= a < |places| ==> out[a] == Cleaned(servers[places[a]])
  }

  lemma PickedLonger(servers: seq<SavedServer>, places: seq<nat>, out: seq<SavedServer>)
    requires servers != [] && PickedAt(Front(servers), places, out)
    ensures PickedAt(servers, places, out)
    ensures PickedAt(servers, places + [|servers| - 1], out + [Cleaned(Last(servers))])
  {
    forall a | 0 <= a < |places| ensures out[a] == Cleaned(servers[places[a]]) {
      assert Front(servers)[places[a]] == servers[places[a]];
    }
  }

  /** The result is a subsequence, up to trimming. */
  lemma {:induction false} NormalizeIsSubsequence(servers: seq<SavedServer>)
    ensures PickedAt(servers, Kept(servers), Normalize(servers))
  {
    if servers != [] {
      NormalizeIsSubsequence(Front(servers));
      PickedLonger(servers, Kept(Front(servers)), Normalize(Front(servers)));
    }
  }

  lemma {:induction false} KeptBelow(servers: seq<SavedServer>, i: nat)
    ensures i in Kept(servers) ==> i < |servers|
  {
    if servers != [] { KeptBelow(Front(servers), i); }
  }

  /** Whether a server after these ones is kept. */
  predicate Keeps(before: seq<SavedServer>, s: SavedServer) {
    Acceptable(Cleaned(s)) && !ConflictsWithAny(Normalize(before), Cleaned(s))
  }

  /** One server more decides about its own place only. */
  lemma KeptStep(servers: seq<SavedServer>, i: nat)
    requires servers != []
    ensures i in Kept(servers)
       <==> if i == |servers| - 1 then Keeps(Front(servers), Last(servers)) else i in Kept(Front(servers))
  {
    KeptBelow(Front(servers), i);
  }

  /** A place left out holds an unacceptable server, or one in conflict with a server kept from
      an earlier place; a place kept holds neither. */
  lemma {:induction false} KeptExactly(servers: seq<SavedServer>, i: nat)
    requires i < |servers|
    ensures i in Kept(servers) <==> Keeps(servers[..i], servers[i])
  {
    KeptStep(servers, i);
    if i < |servers| - 1 {
      KeptExactly(Front(servers), i);
      assert Front(servers)[..i] == servers[..i] && Front(servers)[i] == servers[i];
    } else {
      assert servers[..i] == Front(servers);
    }
  }

  /** What is kept of the beginning of a list is the beginning of what is kept. */
  lemma {:induction false} NormalizePrefix(servers: seq<SavedServer>, i: nat)
    requires i <= |servers|
    ensures Normalize(servers[..i]) <= Normalize(servers)
  {
    if i < |servers| {
      NormalizePrefix(Front(servers), i);
      assert Front(servers)[..i] == servers[..i];
    } else {
      assert servers[..i] == servers;
    }
  }

  // ----- Upsert and remove -----

  /** `retain`: everything in conflict with neither the id nor the endpoint. */
  function Without(list: seq<SavedServer>, id: string, endpoint: string): seq<SavedServer> {
    if list == [] then []
    else if Last(list).id != id && Last(list).endpoint != endpoint then
      Without(Front(list), id, endpoint) + [Last(list)]
    else
      Without(Front(list), id, endpoint)
  }

  function WithoutId(list: seq<SavedServer>, id: string): seq<SavedServer> {
    if list == [] then []
    else if Last(list).id != id then WithoutId(Front(list), id) + [Last(list)]
    else WithoutId(Front(list), id)
  }

  function NewServer(caption: string, endpoint: string): SavedServer {
    var e := Trim(endpoint);
    SavedServer(CustomServerId(e), if Trim(caption) == [] then "Self-hosted" else Trim(caption), e, false)
  }

  /** A saved server has the key of its trimmed endpoint as its id, and the trimmed caption if there is one. */
  lemma NewServerIs(caption: string, endpoint: string)
    ensures var s := NewServer(caption, endpoint);
            && s.id == "self-" + SessionKey(endpoint) && s.endpoint == Trim(endpoint) && !s.builtin
            && (Trim(caption) != "" ==> s.caption == Trim(caption))
            && (Trim(caption) == "" ==> s.caption == "Self-hosted")
  {
    TrimShape(endpoint);
  }

  /** The list after a successful upsert. */
  function Upserted(custom: seq<SavedServer>, caption: string, endpoint: string): seq<SavedServer> {
    var server := NewServer(caption, endpoint);
    Normalize(Without(Normalize(custom), server.id, server.endpoint) + [server])
  }

  function Removed(custom: seq<SavedServer>, id: string): seq<SavedServer> {
    Normalize(WithoutId(Normalize(custom), id))
  }

  /** A sublist of a normal list, one element longer on both sides. */
  lemma NormalSnoc(list: seq<SavedServer>, rest: seq<SavedServer>)
    requires list != [] && Normal(list) && Normal(rest) && forall s :: s in rest ==> s in Front(list)
    ensures Normal(Front(list)) && Normal(rest + [Last(list)])
  {
    forall k | 0 <= k < |rest| ensures !Conflict(rest[k], Last(list)) {
      assert rest[k] in Front(list);
      var j :| 0 <= j < |Front(list)| && Front(list)[j] == rest[k];
      assert !Conflict(list[j], list[|list| - 1]);
    }
  }

  lemma {:induction false} WithoutMembers(list: seq<SavedServer>, id: string, endpoint: string, s: SavedServer)
    ensures s in Without(list, id, endpoint) <==> s in list && s.id != id && s.endpoint != endpoint
    ensures s in WithoutId(list, id) <==> s in list && s.id != id
  {
    if list != [] {
      WithoutMembers(Front(list), id, endpoint, s);
      assert s in list <==> s in Front(list) || s == Last(list);
    }
  }

  lemma {:induction false} WithoutIsNormal(list: seq<SavedServer>, id: string, endpoint: string)
    requires Normal(list)
    ensures Normal(Without(list, id, endpoint)) && Normal(WithoutId(list, id))
  {
    if list != [] {
      assert list == Front(list) + [Last(list)];
      assert Normal(Front(list));
      WithoutIsNormal(Front(list), id, endpoint);
      forall s ensures s in Without(Front(list), id, endpoint) ==> s in Front(list) {
        WithoutMembers(Front(list), id, endpoint, s);
      }
      forall s ensures s in WithoutId(Front(list), id) ==> s in Front(list) {
        WithoutMembers(Front(list), id, endpoint, s);
      }
      NormalSnoc(list, Without(Front(list), id, endpoint));
      NormalSnoc(list, WithoutId(Front(list), id));
    }
  }

  lemma NewServerIsClean(caption: string, endpoint: string)
    requires IsEndpointUrl(endpoint)
    ensures var s := NewServer(caption, endpoint); Cleaned(s) == s && Acceptable(s) && s.endpoint == Trim(endpoint)
    ensures |NewServer(caption, endpoint).id| == 21 && NewServer(caption, endpoint).id[0] == 's'
  {
    TrimShape(endpoint);
    TrimShape(caption);
    SessionKeyShape(Trim(endpoint));
    TrimmedIsKept(CustomServerId(Trim(endpoint)));
    TrimmedIsKept("Self-hosted");
  }

  /** An upsert puts its server last and keeps exactly the servers it does not conflict with,
      in their order; saving loses none of them again. */
  lemma UpsertKeepsTheOthers(custom: seq<SavedServer>, caption: string, endpoint: string)
    requires IsEndpointUrl(endpoint)
    ensures var server := NewServer(caption, endpoint);
            && Upserted(custom, caption, endpoint) == Without(Normalize(custom), server.id, server.endpoint) + [server]
            && Normal(Upserted(custom, caption, endpoint))
  {
    var server := NewServer(caption, endpoint);
    var others := Without(Normalize(custom), server.id, server.endpoint);
    NormalizeIsNormal(custom);
    WithoutIsNormal(Normalize(custom), server.id, server.endpoint);
    NewServerIsClean(caption, endpoint);
    forall k | 0 <= k < |others| ensures !Conflict(others[k], server) {
      assert others[k] in others;
      WithoutMembers(Normalize(custom), server.id, server.endpoint, others[k]);
    }
    NormalIsKept(others + [server]);
  }

  /** What is kept stays in order: of two kept servers the one that stood first still does. */
  lemma {:induction false} WithoutKeepsOrder(list: seq<SavedServer>, id: string, endpoint: string, a: nat, b: nat)
    requires a < b < |Without(list, id, endpoint)|
    ensures var kept := Without(list, id, endpoint);
            exists i, j :: 0 <= i < j < |list| && list[i] == kept[a] && list[j] == kept[b]
  {
    var front, rest := Front(list), Without(Front(list), id, endpoint);
    if b < |rest| {
      WithoutKeepsOrder(front, id, endpoint, a, b);
      var i, j :| 0 <= i < j < |front| && front[i] == rest[a] && front[j] == rest[b];
      assert list[i] == rest[a] && list[j] == rest[b];
    } else {
      WithoutMembers(front, id, endpoint, rest[a]);
      var i :| 0 <= i < |front| && front[i] == rest[a];
      assert list[i] == rest[a] && list[|list| - 1] == Without(list, id, endpoint)[b];
    }
  }

  lemma {:induction false} WithoutAbsent(list: seq<SavedServer>, id: string, endpoint: string)
    requires forall s :: s in list ==> s.id != id && s.endpoint != endpoint
    ensures Without(list, id, endpoint) == list && WithoutId(list, id) == list
  {
    if list != [] {
      assert list == Front(list) + [Last(list)];
      WithoutAbsent(Front(list), id, endpoint);
    }
  }

  /** Upserting the same endpoint again only changes the caption, in place at the end. */
  lemma UpsertTwice(custom: seq<SavedServer>, caption: string, caption2: string, endpoint: string)
    requires IsEndpointUrl(endpoint)
    ensures Upserted(Upserted(custom, caption, endpoint), caption2, endpoint) == Upserted(custom, caption2, endpoint)
  {
    var once := Upserted(custom, caption, endpoint);
    var server, server2 := NewServer(caption, endpoint), NewServer(caption2, endpoint);
    var others := Without(Normalize(custom), server.id, server.endpoint);
    NormalizeIsNormal(custom);
    WithoutIsNormal(Normalize(custom), server.id, server.endpoint);
    UpsertKeepsTheOthers(custom, caption, endpoint);
    UpsertKeepsTheOthers(custom, caption2, endpoint);
    UpsertKeepsTheOthers(once, caption2, endpoint);
    NormalIsKept(once);
    assert Front(once) == others && Last(once) == server;
    forall s | s in others ensures !Conflict(s, server) {
      WithoutMembers(Normalize(custom), server.id, server.endpoint, s);
    }
    WithoutAbsent(others, server.id, server.endpoint);
  }

  /** Removing what was just added leaves the servers it did not displace. */
  lemma RemoveUndoesUpsert(custom: seq<SavedServer>, caption: string, endpoint: string)
    requires IsEndpointUrl(endpoint)
    ensures var server := NewServer(caption, endpoint);
            && Removed(Upserted(custom, caption, endpoint), server.id)
               == Without(Normalize(custom), server.id, server.endpoint)
            && (!ConflictsWithAny(Normalize(custom), server) ==>
                  Removed(Upserted(custom, caption, endpoint), server.id) == Normalize(custom))
  {
    var once := Upserted(custom, caption, endpoint);
    var server := NewServer(caption, endpoint);
    var others := Without(Normalize(custom), server.id, server.endpoint);
    NormalizeIsNormal(custom);
    WithoutIsNormal(Normalize(custom), server.id, server.endpoint);
    UpsertKeepsTheOthers(custom, caption, endpoint);
    NormalIsKept(once);
    assert Front(once) == others && Last(once) == server;
    forall s | s in others ensures !Conflict(s, server) {
      WithoutMembers(Normalize(custom), server.id, server.endpoint, s);
    }
    WithoutAbsent(others, server.id, server.endpoint);
    NormalIsKept(others);
    if !ConflictsWithAny(Normalize(custom), server) {
      forall s | s in Normalize(custom) ensures !Conflict(s, server) {
        var k :| 0 <= k < |Normalize(custom)| && Normalize(custom)[k] == s;
      }
      WithoutAbsent(Normalize(custom), server.id, server.endpoint);
    }
  }
}
