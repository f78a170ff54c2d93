/**
 What a share import makes of every record of a payload, whatever else the payload holds: which
 of them land, under which ids, and how they look then.
 */
module ShareArrival {
  import opened Records
  import opened BackupArrival
  import opened BackupImport
  import opened Share

  /** The new id of an id of the payload: minted for its last occurrence, among servers first. */
  ghost predicate NewIdOf(p: Payload, mint: Mint, id: Id, newId: Id) {
    || (exists i: nat :: LastAt(p.servers, i, id) && newId == mint(3, i))
    || ((forall i | 0 <= i < |p.servers| :: p.servers[i].id != id) && exists i: nat :: LastAt(p.profiles, i, id) && newId == mint(1, i))
  }

  ghost predicate LastAt<T>(items: seq<Item<T>>, i: nat, id: Id) {
    i < |items| && items[i].id == id && forall j | i < j < |items| :: items[j].id != id
  }

  lemma {:induction false} AssignedLast(ids: seq<Id>, mint: nat -> Id, base: map<Id, Id>, i: nat)
    requires i < |ids| && forall j | i < j < |ids| :: ids[j] != ids[i]
    ensures ids[i] in AssignIds(ids, mint, base) && AssignIds(ids, mint, base)[ids[i]] == mint(i)
    decreases |ids|
  {
    if i < |ids| - 1 {
      AssignedLast(ids[..|ids| - 1], mint, base, i);
    }
  }

  lemma LastOccurs<T>(items: seq<Item<T>>, j: nat)
    requires j < |items|
    ensures exists i: nat :: LastAt(items, i, items[j].id)
    decreases |items| - j
  {
    if n :| j < n < |items| && items[n].id == items[j].id {
      LastOccurs(items, n);
    } else {
      assert LastAt(items, j, items[j].id);
    }
  }

  lemma MappedIds(p: Payload, mint: Mint, id: Id)
    ensures id in ShareIdMap(p, mint) <==>
              (exists i :: 0 <= i < |p.servers| && p.servers[i].id == id) || exists i :: 0 <= i < |p.profiles| && p.profiles[i].id == id
  {
    IdMapFrom(IdsOf(p.profiles), IdsOf(p.servers), mint);
    ShareIdMapCovers(p, mint);
  }

  /** Every id that occurs in the payload has its new id, and no other id has one. */
  lemma NewIds(p: Payload, mint: Mint, id: Id)
    ensures id in ShareIdMap(p, mint) <==>
              (exists i :: 0 <= i < |p.servers| && p.servers[i].id == id) || exists i :: 0 <= i < |p.profiles| && p.profiles[i].id == id
    ensures id in ShareIdMap(p, mint) ==> NewIdOf(p, mint, id, ShareIdMap(p, mint)[id])
  {
    var base := AssignIds(IdsOf(p.profiles), For(mint, 1), map[]);
    MappedIds(p, mint, id);
    if i :| 0 <= i < |p.servers| && p.servers[i].id == id {
      LastOccurs(p.servers, i);
      var n: nat :| LastAt(p.servers, n, id);
      AssignedLast(IdsOf(p.servers), For(mint, 3), base, n);
    } else if i :| 0 <= i < |p.profiles| && p.profiles[i].id == id {
      LastOccurs(p.profiles, i);
      var n: nat :| LastAt(p.profiles, n, id);
      AssignedLast(IdsOf(p.profiles), For(mint, 1), map[], n);
      AssignedFrom(IdsOf(p.servers), For(mint, 3), base);
    }
  }

  // ---- how a server looks -------------------------------------------------------------

  /** A link goes to the new id of what it names, if that landed, and is dropped otherwise. */
  ghost predicate LinksFollow(before: map<Link, Id>, after: map<Link, Id>, idMap: map<Id, Id>, profiles: set<Id>, servers: set<Id>) {
    forall l ::
      var there := if l == Gateway then servers else profiles;
      && (l in after <==> l in before && before[l] != "" && before[l] in idMap && idMap[before[l]] in there)
      && (l in after ==> after[l] == idMap[before[l]])
  }

  /** A jump host goes to its new id, and without one the proxy goes; any other proxy stays. */
  ghost predicate ProxyFollows(before: Option<Proxy>, after: Option<Proxy>, idMap: map<Id, Id>) {
    match before
    case Some(Ssh(jump)) => after == if jump in idMap && idMap[jump] != "" then Some(Ssh(idMap[jump])) else None
    case _ => after == before
  }

  /** The server as a share import brings it in: links, link stamps and jump host follow, nothing else changes. */
  ghost predicate SharedAs(item: Server, server: Server, idMap: map<Id, Id>, profiles: set<Id>, servers: set<Id>) {
    && server.(proxy := item.proxy, links := item.links, origin := item.origin, formerlySynced := item.formerlySynced,
               opensExplorer := item.opensExplorer) == item
    && server.formerlySynced == Absent
    && ProxyFollows(item.proxy, server.proxy, idMap)
    && LinksFollow(item.links, server.links, idMap, profiles, servers)
    && match item.origin
       case Present(o) =>
         && server.origin.Present?
         && server.origin.value.(stamps := o.stamps) == o
         && server.origin.value.stamps.(links := o.stamps.links) == o.stamps
         && LinksFollow(o.stamps.links, server.origin.value.stamps.links, idMap, profiles, servers)
       case _ => server.origin == Absent
  }

  lemma LinksGoThroughTheLens(links: map<Link, Id>, idMap: map<Id, Id>, profiles: set<Id>, servers: set<Id>)
    ensures LinksFollow(links, NarrowGateway(RemapLinks(links, idMap, profiles), servers), idMap, profiles, servers)
  {
  }

  lemma RemapExactly(item: Server, idMap: map<Id, Id>, profiles: set<Id>, servers: set<Id>)
    ensures SharedAs(item, SanitizeOrigin(Finalized(Remapped(item, idMap, profiles), servers)), idMap, profiles, servers)
  {
    LinksGoThroughTheLens(item.links, idMap, profiles, servers);
    if item.origin.Present? {
      LinksGoThroughTheLens(item.origin.value.stamps.links, idMap, profiles, servers);
    }
  }

  // ---- which records land -------------------------------------------------------------

  /** The new ids of the profiles, and of the servers, that pass their checks. */
  function LandedProfiles(q: Payload, checks: Checks, mint: Mint): set<Id> {
    LandedIds(NewProfiles(q, mint), checks.profile)
  }

  function LandedServers(q: Payload, checks: Checks, mint: Mint): set<Id> {
    LandedIds(NewServers(q, checks, mint), checks.server)
  }

  lemma LandedMeans<T>(items: seq<Item<T>>, valid: T -> bool, id: Id)
    ensures id in LandedIds(items, valid) <==> exists i :: 0 <= i < |items| && items[i].id == id && valid(items[i].value)
  {
    AcceptedIdsAre(items, {}, valid);
    if i :| 0 <= i < |items| && items[i].id == id && valid(items[i].value) {
      assert Accepted(items[i], {}, valid);
    }
  }

  /**
   A server of the payload that passes the check, the last under its id that does, is in the core
   under its new id, and looks as a shared one does; it opens the file explorer exactly when it
   did and no later one that passes does.
   */
  lemma SharedServerArrives(w: World, p: Payload, checks: Checks, mint: Mint, i: nat)
    requires LastAdded(LandingServers(p, checks, mint), {}, checks.server, i)
    ensures
      var q, after := EnsuredShare(p, mint), ShareImported(w, p, checks, mint);
      var idMap := ShareIdMap(q, mint);
      && i < |p.servers| && q.servers[i].id in idMap
      && var id := idMap[q.servers[i].id];
         && id in after.servers
         && SharedAs(p.servers[i].value, after.servers[id], idMap, LandedProfiles(q, checks, mint), LandedServers(q, checks, mint))
         && (after.servers[id].opensExplorer <==> LastFlag(LandingServers(p, checks, mint), {}, checks.server, i))
  {
    var q, after, final := EnsuredShare(p, mint), ShareImported(w, p, checks, mint), LandingServers(p, checks, mint);
    var idMap, profiles, servers := ShareIdMap(q, mint), LandedProfiles(q, checks, mint), LandedServers(q, checks, mint);
    ShareIdMapCovers(q, mint);
    var id, clean := final[i].id, SanitizeOrigin(final[i].value);
    AddedLast(final, {}, checks.server, SanitizeOrigin, w.servers, i);
    LastOpenerExactly(final, {}, checks.server, i);
    RemapExactly(q.servers[i].value, idMap, profiles, servers);
    assert final[i].value == Finalized(Remapped(q.servers[i].value, idMap, profiles), servers);
    assert after.servers == AddedServers(final, {}, checks.server, w.servers);
    assert Quiet(after.servers[id]) == Quiet(clean);
    FlagAside(p.servers[i].value, clean, after.servers[id], idMap, profiles, servers);
  }

  /** How a server looks does not depend on the flag. */
  lemma FlagAside(item: Server, a: Server, b: Server, idMap: map<Id, Id>, profiles: set<Id>, servers: set<Id>)
    requires SharedAs(item, a, idMap, profiles, servers) && Quiet(a) == Quiet(b)
    ensures SharedAs(item, b, idMap, profiles, servers)
  {
    assert b == a.(opensExplorer := b.opensExplorer);
  }

  /** One server for each of the payload, in its order, and it passes the check as it would without its gateway and stamps. */
  lemma LandingServersAre(p: Payload, checks: Checks, mint: Mint, i: nat)
    requires LinkBlind(checks.server) && i < |p.servers|
    ensures
      var q, final := EnsuredShare(p, mint), LandingServers(p, checks, mint);
      && |final| == |p.servers| == |NewServers(q, checks, mint)|
      && q.servers[i].id in ShareIdMap(q, mint) && final[i].id == ShareIdMap(q, mint)[q.servers[i].id]
      && (checks.server(final[i].value) <==> checks.server(NewServers(q, checks, mint)[i].value))
  {
    var q := EnsuredShare(p, mint);
    ShareIdMapCovers(q, mint);
    FinalizingKeepsValidity(NewServers(q, checks, mint)[i].value, LandedServers(q, checks, mint), checks.server);
  }

  /** The new profiles: each of the payload under its new id, otherwise as it was. */
  lemma NewProfilesAre(q: Payload, mint: Mint, i: nat)
    requires i < |q.profiles|
    ensures |NewProfiles(q, mint)| == |q.profiles| && q.profiles[i].id in ShareIdMap(q, mint)
    ensures NewProfiles(q, mint)[i] == Item(ShareIdMap(q, mint)[q.profiles[i].id], q.profiles[i].value)
  {
    ShareIdMapCovers(q, mint);
  }

  /** Profiles and tunnels that pass their checks are in the core, and everything else there is as it was. */
  lemma SharedPlainlyArrive(w: World, p: Payload, checks: Checks, mint: Mint)
    ensures
      var q, after := EnsuredShare(p, mint), ShareImported(w, p, checks, mint);
      && ArrivedPlainly(NewProfiles(q, mint), {}, checks.profile, w.profiles, after.profiles)
      && ArrivedPlainly(SharedTunnels(p.tunnels, ShareIdMap(q, mint), For(mint, 4)), {}, checks.tunnel, w.tunnels, after.tunnels)
      && after.sources == w.sources && after.templates == w.templates
  {
    var q := EnsuredShare(p, mint);
    BucketArrives(NewProfiles(q, mint), {}, checks.profile, w.profiles);
    BucketArrives(SharedTunnels(p.tunnels, ShareIdMap(q, mint), For(mint, 4)), {}, checks.tunnel, w.tunnels);
  }

  /** A tunnel gets a new id and its link the new id of what it names, or none. */
  lemma SharedTunnelsAre(p: Payload, mint: Mint, i: nat)
    requires i < |p.tunnels|
    ensures
      var idMap := ShareIdMap(EnsuredShare(p, mint), mint);
      var tunnels, before := SharedTunnels(p.tunnels, idMap, For(mint, 4)), p.tunnels[i].value;
      && |tunnels| == |p.tunnels| && tunnels[i].id == mint(4, i)
      && tunnels[i].value.(defaultServerId := before.defaultServerId) == before
      && tunnels[i].value.defaultServerId
         == (if before.defaultServerId.Some? && before.defaultServerId.value != "" && before.defaultServerId.value in idMap
             then Some(idMap[before.defaultServerId.value]) else None)
  {
    var idMap := ShareIdMap(EnsuredShare(p, mint), mint);
    var before := p.tunnels[i].value;
    assert SharedTunnels(p.tunnels, idMap, For(mint, 4))[i]
        == Item(For(mint, 4)(i), before.(defaultServerId := RemapServerLink(before.defaultServerId, idMap)));
  }
}
