/** The share import and export as the commands run them, step by step. */
module ShareCommand {
  import opened Records
  import opened Core
  import opened BackupImport
  import opened BackupCommand
  import opened Share
  import opened ShareExport

  /** The first pass over one bucket: every blank id is replaced, every id gets a new one. */
  method AssignNewIds<T(0)>(items: seq<Item<T>>, ensure: nat -> Id, mint: nat -> Id, base: map<Id, Id>)
    returns (ensured: seq<Item<T>>, idMap: map<Id, Id>)
    ensures ensured == EnsureIds(items, ensure)
    ensures idMap == AssignIds(IdsOf(ensured), mint, base)
  {
    ghost var all := EnsureIds(items, ensure);
    ensured, idMap := [], base;
    var k := 0;
    while k < |items|
      invariant 0 <= k <= |items| && ensured == all[..k]
      invariant idMap == AssignIds(IdsOf(ensured), mint, base)
    {
      var item := if Blank(items[k].id) then items[k].(id := ensure(k)) else items[k];
      assert item == all[k];
      assert IdsOf(ensured + [item])[..k] == IdsOf(ensured);
      ensured := ensured + [item];
      idMap := idMap[item.id := mint(k)];
      k := k + 1;
    }
    assert all[..k] == all;
  }

  /** `addIfValid` over a bucket, with the ids that landed and the tally. */
  method AddIfValid<T(0)>(items: seq<Item<T>>, valid: T -> bool, clean: T -> T, bucket: map<Id, T>)
    returns (after: map<Id, T>, landed: set<Id>, imported: nat, skipped: nat)
    ensures after == Added(items, {}, valid, clean, bucket)
    ensures landed == LandedIds(items, valid)
    ensures imported == |AcceptedIds(items, {}, valid)| && imported + skipped == |items|
  {
    after, landed, imported, skipped := bucket, {}, 0, 0;
    var k := 0;
    while k < |items|
      invariant 0 <= k <= |items|
      invariant Added(items[k..], {}, valid, clean, after) == Added(items, {}, valid, clean, bucket)
      invariant landed + LandedIds(items[k..], valid) == LandedIds(items, valid)
      invariant imported + |AcceptedIds(items[k..], {}, valid)| == |AcceptedIds(items, {}, valid)|
      invariant imported + skipped == k
    {
      ghost var rest := items[k..];
      assert rest[0] == items[k] && rest[1..] == items[k + 1..];
      assert LandedIds(rest, valid) == (if valid(items[k].value) then {items[k].id} else {}) + LandedIds(rest[1..], valid);
      if valid(items[k].value) {
        after := after[items[k].id := clean(items[k].value)];
        landed := landed + {items[k].id};
        imported := imported + 1;
      } else {
        skipped := skipped + 1;
      }
      k := k + 1;
    }
    assert LandedIds(items[k..], valid) == {};
  }

  /** Builds every remapped server, and with it the full set of survivors. */
  method RemapServers(servers: seq<Item<Server>>, idMap: map<Id, Id>, profiles: set<Id>, valid: Server -> bool)
    returns (remapped: seq<Item<Server>>, survivors: set<Id>)
    requires forall i | 0 <= i < |servers| :: servers[i].id in idMap
    ensures remapped == RemappedAll(servers, idMap, profiles)
    ensures survivors == LandedIds(remapped, valid)
  {
    ghost var all := RemappedAll(servers, idMap, profiles);
    remapped, survivors := [], {};
    var k := 0;
    while k < |servers|
      invariant 0 <= k <= |servers| && remapped == all[..k]
      invariant survivors + LandedIds(all[k..], valid) == LandedIds(all, valid)
    {
      var next := Item(idMap[servers[k].id], Remapped(servers[k].value, idMap, profiles));
      ghost var rest := all[k..];
      assert rest[0] == next && rest[1..] == all[k + 1..];
      assert LandedIds(rest, valid) == (if valid(next.value) then {next.id} else {}) + LandedIds(rest[1..], valid);
      remapped := remapped + [next];
      if valid(next.value) {
        survivors := survivors + {next.id};
      }
      k := k + 1;
    }
    assert all[..k] == all && LandedIds(all[k..], valid) == {};
  }

  method FinalizeServers(remapped: seq<Item<Server>>, survivors: set<Id>) returns (final: seq<Item<Server>>)
    ensures final == FinalizedAll(remapped, survivors)
  {
    final := [];
    var k := 0;
    while k < |remapped|
      invariant 0 <= k <= |remapped| && final == FinalizedAll(remapped, survivors)[..k]
    {
      final := final + [Item(remapped[k].id, Finalized(remapped[k].value, survivors))];
      k := k + 1;
    }
  }

  /** The profiles of a share file, each under its new id. */
  method ImportProfiles(core: NexusCore, profiles: seq<Item<Profile>>, idMap: map<Id, Id>, valid: Profile -> bool)
    returns (landed: set<Id>, imported: nat, skipped: nat)
    requires forall i | 0 <= i < |profiles| :: profiles[i].id in idMap
    modifies core`profiles
    ensures core.profiles == Added(Renamed(profiles, idMap), {}, valid, Same(), old(core.profiles))
    ensures landed == LandedIds(Renamed(profiles, idMap), valid) && imported + skipped == |profiles|
  {
    var after;
    after, landed, imported, skipped := AddIfValid(Renamed(profiles, idMap), valid, Same(), core.profiles);
    core.profiles := after;
  }

  /** The tunnels, already remapped. */
  method ImportTunnelsOf(core: NexusCore, tunnels: seq<Item<Tunnel>>, valid: Tunnel -> bool)
    returns (imported: nat, skipped: nat)
    modifies core`tunnels
    ensures core.tunnels == Added(tunnels, {}, valid, Same(), old(core.tunnels)) && imported + skipped == |tunnels|
  {
    var after, _, n, s := AddIfValid(tunnels, valid, Same(), core.tunnels);
    core.tunnels := after;
    imported, skipped := n, s;
  }

  /** The servers: remapped, narrowed to the survivors, and put in. */
  method ImportServersOf(core: NexusCore, servers: seq<Item<Server>>, idMap: map<Id, Id>, landed: set<Id>, valid: Server -> bool)
    returns (imported: nat, skipped: nat)
    requires core.Valid() && forall i | 0 <= i < |servers| :: servers[i].id in idMap
    modifies core`servers
    ensures core.Valid()
    ensures var remapped := RemappedAll(servers, idMap, landed);
            core.servers == AddedServers(FinalizedAll(remapped, LandedIds(remapped, valid)), {}, valid, old(core.servers))
    ensures imported + skipped == |servers|
  {
    var remapped, survivors := RemapServers(servers, idMap, landed, valid);
    var final := FinalizeServers(remapped, survivors);
    var ids;
    ids, skipped := AddServers(core, final, {}, valid, None);
    imported := |ids|;
  }

  /** `importShareData`, up to the buckets that hold no references. */
  method ImportShareData(core: NexusCore, p: Payload, checks: Checks, mint: Mint) returns (imported: nat, skipped: nat)
    requires core.Valid()
    modifies core
    ensures core.Valid() && WorldOf(core) == ShareImported(old(WorldOf(core)), p, checks, mint)
    ensures imported + skipped == |p.profiles| + |p.servers| + |p.tunnels|
  {
    ghost var q := EnsuredShare(p, mint);
    var profiles, profileMap := AssignNewIds(p.profiles, For(mint, 0), For(mint, 1), map[]);
    var servers, idMap := AssignNewIds(p.servers, For(mint, 2), For(mint, 3), profileMap);
    assert idMap == ShareIdMap(q, mint);
    ShareIdMapCovers(q, mint);
    var landed, n, s := ImportProfiles(core, profiles, idMap, checks.profile);
    var n', s' := ImportServersOf(core, servers, idMap, landed, checks.server);
    var n'', s'' := ImportTunnelsOf(core, SharedTunnels(p.tunnels, idMap, For(mint, 4)), checks.tunnel);
    imported, skipped := n + n' + n'', s + s' + s'';
  }

  method AssignAll(ids: seq<Id>, mint: nat -> Id, base: map<Id, Id>) returns (idMap: map<Id, Id>)
    ensures idMap == AssignIds(ids, mint, base)
  {
    idMap := base;
    var k := 0;
    while k < |ids|
      invariant 0 <= k <= |ids| && idMap == AssignIds(ids[..k], mint, base)
    {
      assert ids[..k + 1][..k] == ids[..k];
      idMap := idMap[ids[k] := mint(k)];
      k := k + 1;
    }
    assert ids[..k] == ids;
  }

  /** Each tunnel enters the id map before its own link is looked up in it. */
  method ExportTunnelList(tunnels: seq<Item<Tunnel>>, shared: map<Id, Id>, mint: nat -> Id) returns (exported: seq<Item<Tunnel>>)
    ensures exported == ExportTunnels(tunnels, shared, mint)
  {
    var idMap := shared;
    exported := [];
    var k := 0;
    while k < |tunnels|
      invariant 0 <= k <= |tunnels|
      invariant idMap == TunnelIdMap(tunnels, k, shared, mint)
      invariant exported == ExportTunnels(tunnels, shared, mint)[..k]
    {
      assert IdsOf(tunnels[..k + 1])[..k] == IdsOf(tunnels[..k]);
      idMap := idMap[tunnels[k].id := mint(k)];
      exported := exported + [Item(mint(k), ExportedTunnel(tunnels[k].value, idMap))];
      k := k + 1;
    }
  }

  /** `sanitizeForSharing` on the buckets with references. */
  method SanitizeForSharing(src: Snapshot, mint: Mint) returns (p: Payload)
    ensures p == Exported(src, mint)
  {
    var idMap := AssignAll(IdsOf(src.profiles), For(mint, 1), map[]);
    idMap := AssignAll(IdsOf(Addressed(src.servers)), For(mint, 3), idMap);
    ExportIdMapCovers(src, mint);
    var tunnels := ExportTunnelList(src.tunnels, idMap, For(mint, 4));
    p := Payload(ExportServers(Addressed(src.servers), idMap), tunnels, [], ExportProfiles(SharedProfiles(src), idMap), []);
  }
}
