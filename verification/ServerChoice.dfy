/** Which endpoint a saved choice resolves to (apps/parent/src/servers.rs), and the two files
    behind it. */
module ServerChoice {
  import opened Base
  import opened Text
  import opened Servers

  function FindId(inventory: seq<SavedServer>, id: string): Option<SavedServer> {
    if inventory == [] then None
    else if inventory[0].id == id then Some(inventory[0])
    else FindId(inventory[1..], id)
  }

  function FindEndpoint(inventory: seq<SavedServer>, endpoint: string): Option<SavedServer> {
    if inventory == [] then None
    else if inventory[0].endpoint == endpoint then Some(inventory[0])
    else FindEndpoint(inventory[1..], endpoint)
  }

  function SelfHosted(endpoint: string): SavedServer {
    SavedServer(CustomServerId(endpoint), "Self-hosted", endpoint, false)
  }

  /** `server_inventory_for_choice`: a saved URL that no custom server has is listed too. */
  function InventoryFor(saved: string, custom: seq<SavedServer>): seq<SavedServer> {
    var list, choice := Normalize(custom), Trim(saved);
    if IsEndpointUrl(choice) && FindEndpoint(list, choice).None? then BUILTIN + (list + [SelfHosted(choice)])
    else BUILTIN + list
  }

  /** `server_for_choice_from`. */
  function ServerFor(saved: string, inventory: seq<SavedServer>): SavedServer {
    var choice := Trim(saved);
    if IsEndpointUrl(choice) then
      var found := FindEndpoint(inventory, choice);
      if found.Some? then found.value else SelfHosted(choice)
    else
      var id := if choice == [] || Lower(choice) == "cloud" then DEFAULT_REGION_ID else choice;
      var found := FindId(inventory, id);
      if found.Some? then found.value
      else
        var fallback := FindId(inventory, DEFAULT_REGION_ID);
        if fallback.Some? then fallback.value else SavedServer(DEFAULT_REGION_ID, "PH Bulwark Cloud", "", false)
  }

  /** `server_for_choice_from(saved, server_inventory())`. */
  function Resolve(saved: string, custom: seq<SavedServer>): SavedServer {
    ServerFor(saved, InventoryFor(saved, custom))
  }

  /** What `save_server_choice` writes. */
  function Stored(value: string): string {
    if Trim(value) == [] then DEFAULT_REGION_ID else Trim(value)
  }

  // ----- Searching -----

  lemma {:induction false} FindIdSplit(a: seq<SavedServer>, b: seq<SavedServer>, id: string)
    ensures FindId(a + b, id) == if FindId(a, id).Some? then FindId(a, id) else FindId(b, id)
  {
    if a == [] {
      assert a + b == b;
    } else {
      assert (a + b)[1..] == a[1..] + b;
      FindIdSplit(a[1..], b, id);
    }
  }

  lemma {:induction false} FindEndpointSplit(a: seq<SavedServer>, b: seq<SavedServer>, endpoint: string)
    ensures FindEndpoint(a + b, endpoint)
         == if FindEndpoint(a, endpoint).Some? then FindEndpoint(a, endpoint) else FindEndpoint(b, endpoint)
  {
    if a == [] {
      assert a + b == b;
    } else {
      assert (a + b)[1..] == a[1..] + b;
      FindEndpointSplit(a[1..], b, endpoint);
    }
  }

  lemma {:induction false} FoundIds(list: seq<SavedServer>, id: string)
    ensures var found := FindId(list, id);
            if found.Some? then found.value in list && found.value.id == id else forall s :: s in list ==> s.id != id
  {
    if list != [] { FoundIds(list[1..], id); }
  }

  lemma {:induction false} FoundEndpoints(list: seq<SavedServer>, endpoint: string)
    ensures var found := FindEndpoint(list, endpoint);
            if found.Some? then found.value in list && found.value.endpoint == endpoint
            else forall s :: s in list ==> s.endpoint != endpoint
  {
    if list != [] { FoundEndpoints(list[1..], endpoint); }
  }

  lemma BuiltinById(id: string)
    ensures FindId(BUILTIN, id)
         == if id == "uk" then Some(BUILTIN[0]) else if id == "us" then Some(BUILTIN[1]) else None
  {
    assert BUILTIN[1..] == [BUILTIN[1]] && BUILTIN[1..][1..] == [];
    assert FindId(BUILTIN[1..], id) == if id == "us" then Some(BUILTIN[1]) else None;
  }

  lemma NormalApart(list: seq<SavedServer>, a: SavedServer, b: SavedServer)
    requires Normal(list) && a in list && b in list && a != b
    ensures !Conflict(a, b)
  {
    var j :| 0 <= j < |list| && list[j] == a;
    var k :| 0 <= k < |list| && list[k] == b;
    if j < k {
      assert !Conflict(list[j], list[k]);
    } else {
      assert !Conflict(list[k], list[j]);
    }
  }

  /** In a normal list each id and each endpoint finds its own server. */
  lemma NormalFinds(list: seq<SavedServer>, s: SavedServer)
    requires Normal(list) && s in list
    ensures FindId(list, s.id) == Some(s) && FindEndpoint(list, s.endpoint) == Some(s)
  {
    FoundIds(list, s.id);
    FoundEndpoints(list, s.endpoint);
    var byId, byEndpoint := FindId(list, s.id).value, FindEndpoint(list, s.endpoint).value;
    if byId != s { NormalApart(list, byId, s); }
    if byEndpoint != s { NormalApart(list, byEndpoint, s); }
  }

  // ----- What a choice resolves to -----

  /** A saved URL is used as it is, whether or not a server is known under it. */
  lemma UrlResolvesToItself(saved: string, custom: seq<SavedServer>)
    requires IsEndpointUrl(saved)
    ensures Resolve(saved, custom).endpoint == Trim(saved)
  {
    TrimShape(saved);
    FoundEndpoints(InventoryFor(saved, custom), Trim(saved));
  }

  /** A URL no region and no saved server has stands for a server of its own. */
  lemma UnknownUrl(saved: string, custom: seq<SavedServer>)
    requires "http://" <= Trim(saved) || "https://" <= Trim(saved)
    requires forall s :: s in BUILTIN || s in Normalize(custom) ==> s.endpoint != Trim(saved)
    ensures Resolve(saved, custom) == SavedServer("self-" + SessionKey(saved), "Self-hosted", Trim(saved), false)
  {
    TrimShape(saved);
    var choice, list := Trim(saved), Normalize(custom);
    FoundEndpoints(list, choice);
    FoundEndpoints(BUILTIN, choice);
    FindEndpointSplit(BUILTIN, list + [SelfHosted(choice)], choice);
    FindEndpointSplit(list, [SelfHosted(choice)], choice);
  }

  lemma NonUrl(saved: string, custom: seq<SavedServer>, id: string)
    requires !IsEndpointUrl(saved)
    requires id == if Trim(saved) == [] || Lower(Trim(saved)) == "cloud" then DEFAULT_REGION_ID else Trim(saved)
    ensures Resolve(saved, custom)
         == if id == "uk" then BUILTIN[0]
            else if id == "us" then BUILTIN[1]
            else if FindId(Normalize(custom), id).Some? then FindId(Normalize(custom), id).value
            else BUILTIN[0]
  {
    TrimShape(saved);
    BuiltinById(id);
    BuiltinById("uk");
    FindIdSplit(BUILTIN, Normalize(custom), id);
    FindIdSplit(BUILTIN, Normalize(custom), DEFAULT_REGION_ID);
  }

  /** The two regions, and what stands for the default one. */
  lemma RegionsResolve(saved: string, custom: seq<SavedServer>)
    ensures Trim(saved) == "us" ==> Resolve(saved, custom).endpoint == "https://us.cloud.phbulwark.app"
    ensures Trim(saved) == "uk" || Trim(saved) == "" || Lower(Trim(saved)) == "cloud" ==>
              Resolve(saved, custom).endpoint == "https://api.predatorhunters.co.uk:8443"
  {
    TrimShape(saved);
    LowerLength(Trim(saved));
    var id := if Trim(saved) == [] || Lower(Trim(saved)) == "cloud" then DEFAULT_REGION_ID else Trim(saved);
    if |Trim(saved)| <= 5 {
      assert !IsEndpointUrl(saved);
      NonUrl(saved, custom, id);
    }
  }

  lemma BuiltinEndpoints()
    ensures forall b :: b in BUILTIN ==> IsEndpointUrl(b.endpoint)
  {
    TrimmedIsKept(BUILTIN[0].endpoint);
    TrimmedIsKept(BUILTIN[1].endpoint);
  }

  /** Every choice resolves to an http(s) endpoint: the empty one written for an inventory
      without the default region is never reached. */
  lemma AlwaysAnEndpoint(saved: string, custom: seq<SavedServer>)
    ensures IsEndpointUrl(Resolve(saved, custom).endpoint)
  {
    if IsEndpointUrl(saved) {
      UrlResolvesToItself(saved, custom);
      TrimShape(saved);
    } else {
      var id := if Trim(saved) == [] || Lower(Trim(saved)) == "cloud" then DEFAULT_REGION_ID else Trim(saved);
      NonUrl(saved, custom, id);
      BuiltinEndpoints();
      FoundIds(Normalize(custom), id);
      NormalizeIsNormal(custom);
      if FindId(Normalize(custom), id).Some? {
        var k :| 0 <= k < |Normalize(custom)| && Normalize(custom)[k] == FindId(Normalize(custom), id).value;
        assert Acceptable(Normalize(custom)[k]);
      }
    }
  }

  /** What the id of a saved server must be for a choice of it to reach the server: it names no
      region and is not the legacy word; or it is the server's own URL, and no region has that. */
  predicate Reachable(s: SavedServer) {
    if IsEndpointUrl(s.id) then s.endpoint == s.id && forall b :: b in BUILTIN ==> b.endpoint != s.id
    else s.id != "uk" && s.id != "us" && Lower(s.id) != "cloud"
  }

  lemma ReachedByWord(s: SavedServer, custom: seq<SavedServer>)
    requires s in Normalize(custom) && Trim(s.id) == s.id != [] && !s.builtin && !IsEndpointUrl(s.id)
    requires FindId(Normalize(custom), s.id) == Some(s)
    ensures Resolve(s.id, custom) == s <==> Reachable(s)
  {
    NonUrl(s.id, custom, if Lower(s.id) == "cloud" then "uk" else s.id);
  }

  lemma ReachedByUrl(s: SavedServer, custom: seq<SavedServer>)
    requires s in Normalize(custom) && Trim(s.id) == s.id && !s.builtin && IsEndpointUrl(s.id)
    requires FindEndpoint(Normalize(custom), s.endpoint) == Some(s)
    ensures Resolve(s.id, custom) == s <==> Reachable(s)
  {
    UrlResolvesToItself(s.id, custom);
    if s.endpoint == s.id {
      FindEndpointSplit(BUILTIN, Normalize(custom), s.id);
      FoundEndpoints(BUILTIN, s.id);
    }
  }

  /** Choosing a saved server by its id reaches it exactly then. */
  lemma ReachedById(s: SavedServer, custom: seq<SavedServer>)
    requires s in Normalize(custom)
    ensures Resolve(s.id, custom) == s <==> Reachable(s)
  {
    NormalizeIsNormal(custom);
    NormalFinds(Normalize(custom), s);
    var k :| 0 <= k < |Normalize(custom)| && Normalize(custom)[k] == s;
    assert Cleaned(s) == s && Acceptable(s);
    if IsEndpointUrl(s.id) { ReachedByUrl(s, custom); } else { ReachedByWord(s, custom); }
  }

  lemma KeyIsNoWord(id: string)
    requires |id| == 21 && id[0] == 's' && Trim(id) == id
    ensures !IsEndpointUrl(id) && id != "uk" && id != "us" && Lower(id) != "cloud"
  {
    LowerLength(id);
  }

  lemma {:induction false} LowerLength(s: string)
    ensures |Lower(s)| == |s|
  {
    if s != [] { LowerLength(s[1..]); }
  }

  /** Adding a server and saving the id it came back with resolves to exactly its endpoint. */
  lemma UpsertThenResolve(custom: seq<SavedServer>, caption: string, endpoint: string)
    requires IsEndpointUrl(endpoint)
    ensures var server := NewServer(caption, endpoint);
            && Resolve(Stored(server.id), Upserted(custom, caption, endpoint)) == server
            && server.endpoint == Trim(endpoint)
  {
    var server := NewServer(caption, endpoint);
    var list := Upserted(custom, caption, endpoint);
    UpsertKeepsTheOthers(custom, caption, endpoint);
    NewServerIsClean(caption, endpoint);
    NormalIsKept(list);
    assert server == Last(list) && server in list;
    KeyIsNoWord(server.id);
    ReachedById(server, list);
  }

  lemma {:induction false} NothingWithout(list: seq<SavedServer>, id: string)
    requires forall s :: s in list ==> s.id != id
    ensures WithoutId(list, id) == list
  {
    if list != [] {
      assert list == Front(list) + [Last(list)];
      NothingWithout(Front(list), id);
    }
  }

  /** Saved ids have no space at their ends, so such an id removes nothing. */
  lemma UntrimmedRemovesNothing(custom: seq<SavedServer>, id: string)
    requires Trim(id) != id
    ensures Removed(custom, id) == Normalize(custom) && Resolve(id, Removed(custom, id)) == Resolve(id, custom)
  {
    var list := Normalize(custom);
    NormalizeIsNormal(custom);
    forall s | s in list ensures s.id != id {
      var k :| 0 <= k < |list| && list[k] == s;
      assert Cleaned(list[k]) == list[k];
    }
    NothingWithout(list, id);
    NormalIsKept(list);
  }

  lemma RemovedWordFallsBack(custom: seq<SavedServer>, id: string)
    requires !IsEndpointUrl(id) && Trim(id) == id
    ensures Resolve(id, Removed(custom, id)) == if id == "us" then BUILTIN[1] else BUILTIN[0]
  {
    var list := Removed(custom, id);
    NormalizeIsNormal(custom);
    WithoutIsNormal(Normalize(custom), id, "");
    NormalIsKept(WithoutId(Normalize(custom), id));
    NormalIsKept(list);
    var wanted := if id == [] || Lower(id) == "cloud" then "uk" else id;
    NonUrl(id, list, wanted);
    FoundIds(list, id);
    if FindId(list, id).Some? { WithoutMembers(Normalize(custom), id, "", FindId(list, id).value); }
  }

  /** After a removal, choosing the id falls back to the default region, unless the id is that of
      the other region or a URL; an id with space at its ends has removed nothing. */
  lemma RemovedFallsBack(custom: seq<SavedServer>, id: string)
    ensures IsEndpointUrl(id) ==> Resolve(id, Removed(custom, id)).endpoint == Trim(id)
    ensures Trim(id) != id ==>
              Removed(custom, id) == Normalize(custom) && Resolve(id, Removed(custom, id)) == Resolve(id, custom)
    ensures !IsEndpointUrl(id) && Trim(id) == id ==>
              Resolve(id, Removed(custom, id)) == if id == "us" then BUILTIN[1] else BUILTIN[0]
  {
    if Trim(id) != id { UntrimmedRemovesNothing(custom, id); }
    if IsEndpointUrl(id) {
      UrlResolvesToItself(id, Removed(custom, id));
    } else if Trim(id) == id {
      RemovedWordFallsBack(custom, id);
    }
  }

  // ----- The two files -----

  datatype SaveError = NotAnEndpoint | NotSaved

  class ServerFiles {
    /** `servers.json` as decoded, and the line of `server.txt`. */
    var inventory: Option<seq<SavedServer>>
    var choice: Option<string>

    constructor (inventory: Option<seq<SavedServer>>, choice: Option<string>)
      ensures this.inventory == inventory && this.choice == choice
    {
      this.inventory, this.choice := inventory, choice;
    }

    /** `load_custom_servers`. */
    function Custom(): seq<SavedServer>
      reads this
    {
      if inventory.Some? then Normalize(inventory.value) else []
    }

    function SavedChoice(): string
      reads this
    {
      if choice.Some? then Trim(choice.value) else []
    }

    /** The server the console connects to. */
    function Selected(): SavedServer
      reads this
    {
      Resolve(SavedChoice(), Custom())
    }

    method SaveServerChoice(value: string, writes: bool) returns (ok: bool)
      modifies this`choice
      ensures ok == writes && choice == if ok then Some(Stored(value)) else old(choice)
      ensures ok && Trim(value) == "" ==> SavedChoice() == "uk"
      ensures ok && Trim(value) != "" ==> SavedChoice() == Trim(value)
      ensures ok ==> Selected() == Resolve(Stored(value), Custom())
    {
      TrimShape(value);
      TrimmedIsKept(DEFAULT_REGION_ID);
      TrimShape(DEFAULT_REGION_ID);
      if writes { choice := Some(if Trim(value) == [] then DEFAULT_REGION_ID else Trim(value)); }
      ok := writes;
    }

    method UpsertCustomServer(caption: string, endpoint: string, writes: bool)
      returns (r: Result<SavedServer, SaveError>)
      modifies this`inventory
      ensures r.Ok? <==> ("http://" <= Trim(endpoint) || "https://" <= Trim(endpoint)) && writes
      ensures r.Err? ==> inventory == old(inventory)
      ensures r.Ok? ==> r.value.endpoint == Trim(endpoint) && r.value.id == "self-" + SessionKey(endpoint)
      ensures r.Ok? ==> r.value.caption == if Trim(caption) == "" then "Self-hosted" else Trim(caption)
      ensures r.Ok? ==> Custom() == Without(old(Custom()), r.value.id, r.value.endpoint) + [r.value]
      ensures r.Ok? ==> Resolve(Stored(r.value.id), Custom()) == r.value
    {
      if !IsEndpointUrl(Trim(endpoint)) {
        TrimShape(endpoint);
        return Err(NotAnEndpoint);
      }
      TrimShape(endpoint);
      ghost var before := Custom();
      var server := NewServer(caption, endpoint);
      NewServerIs(caption, endpoint);
      var servers := Without(Custom(), server.id, server.endpoint);
      servers := servers + [server];
      if !writes { return Err(NotSaved); }
      var normal := NormalizeCustomServers(servers);
      inventory := Some(normal);
      if old(inventory).Some? { NormalizeIdempotent(old(inventory).value); }
      UpsertKeepsTheOthers(before, caption, endpoint);
      NormalIsKept(normal);
      UpsertThenResolve(before, caption, endpoint);
      NormalIsKept(Upserted(before, caption, endpoint));
      r := Ok(server);
    }

    /** The list is written first; the choice is only reset when it named the removed server. */
    method RemoveCustomServer(id: string, writesList: bool, writesChoice: bool) returns (ok: bool)
      modifies this
      ensures ok <==> writesList && (old(SavedChoice()) == id ==> writesChoice)
      ensures Custom() == if writesList then WithoutId(old(Custom()), id) else old(Custom())
      ensures ok ==> SavedChoice() == if old(SavedChoice()) == id then DEFAULT_REGION_ID else old(SavedChoice())
      ensures !ok ==> choice == old(choice)
      ensures ok && old(SavedChoice()) == id ==> Selected() == BUILTIN[0]
    {
      ghost var before := Custom();
      NonUrl(DEFAULT_REGION_ID, WithoutId(before, id), DEFAULT_REGION_ID);
      TrimmedIsKept(DEFAULT_REGION_ID);
      var servers := WithoutId(Custom(), id);
      if !writesList { return false; }
      var normal := NormalizeCustomServers(servers);
      inventory := Some(normal);
      if old(inventory).Some? { NormalizeIsNormal(old(inventory).value); }
      WithoutIsNormal(before, id, "");
      NormalIsKept(servers);
      NormalIsKept(normal);
      ok := true;
      if SavedChoice() == id {
        ok := SaveServerChoice(DEFAULT_REGION_ID, writesChoice);
        TrimmedIsKept(DEFAULT_REGION_ID);
      }
    }
  }
}
