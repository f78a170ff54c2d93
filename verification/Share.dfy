/**
 Sharing: an export that carries no identity and no credential, and the import that gives
 every record a fresh id and narrows each link to the records that survived.
 */
module Share {
  import opened Records
  import opened BackupImport
  import opened Text

  type Mint = (nat, nat) -> Id

  /** A supply of ids: never blank, never the same twice. */
  ghost predicate Supply(mint: Mint) {
    && (forall p: nat, i: nat :: !Blank(mint(p, i)))
    && (forall p: nat, i: nat, q: nat, j: nat :: mint(p, i) == mint(q, j) ==> p == q && i == j)
  }

  // ---- the id map ---------------------------------------------------------------------

  /** `idMap.set` in a loop: a later occurrence of an id wins. */
  function AssignIds(ids: seq<Id>, mint: nat -> Id, base: map<Id, Id>): map<Id, Id>
    decreases |ids|
  {
    if ids == [] then base
    else AssignIds(ids[..|ids| - 1], mint, base)[ids[|ids| - 1] := mint(|ids| - 1)]
  }

  function IdsOf<T>(items: seq<Item<T>>): seq<Id> {
    seq(|items|, i requires 0 <= i < |items| => items[i].id)
  }

  function IdMap(profiles: seq<Id>, servers: seq<Id>, mint: Mint): map<Id, Id> {
    AssignIds(servers, For(mint, 3), AssignIds(profiles, For(mint, 1), map[]))
  }

  predicate IdAt(ids: seq<Id>, i: nat, id: Id) {
    i < |ids| && ids[i] == id
  }

  lemma {:induction false} AssignedFrom(ids: seq<Id>, mint: nat -> Id, base: map<Id, Id>)
    ensures var m := AssignIds(ids, mint, base);
      && m.Keys == base.Keys + (set id | id in ids)
      && (forall id | id in m && id !in ids :: m[id] == base[id])
      && (forall id | id in ids :: exists i: nat :: IdAt(ids, i, id) && m[id] == mint(i))
    decreases |ids|
  {
    if ids != [] {
      var n := |ids| - 1;
      AssignedFrom(ids[..n], mint, base);
      assert ids == ids[..n] + [ids[n]];
      var m := AssignIds(ids, mint, base);
      forall id | id in ids ensures exists i: nat :: IdAt(ids, i, id) && m[id] == mint(i) {
        if id == ids[n] {
          assert IdAt(ids, n, id);
        } else {
          var i: nat :| IdAt(ids[..n], i, id) && AssignIds(ids[..n], mint, base)[id] == mint(i);
          assert IdAt(ids, i, id);
        }
      }
    }
  }

  /** Every id that occurs is mapped, to an id minted for one of its occurrences. */
  lemma IdMapFrom(profiles: seq<Id>, servers: seq<Id>, mint: Mint)
    ensures var m := IdMap(profiles, servers, mint);
      && m.Keys == (set id | id in profiles) + (set id | id in servers)
      && (forall id | id in servers :: exists i: nat :: IdAt(servers, i, id) && m[id] == mint(3, i))
      && (forall id | id in profiles && id !in servers :: exists i: nat :: IdAt(profiles, i, id) && m[id] == mint(1, i))
  {
    var base := AssignIds(profiles, For(mint, 1), map[]);
    AssignedFrom(profiles, For(mint, 1), map[]);
    AssignedFrom(servers, For(mint, 3), base);
    var m := IdMap(profiles, servers, mint);
    forall id | id in servers ensures exists i: nat :: IdAt(servers, i, id) && m[id] == mint(3, i) {
      var i: nat :| IdAt(servers, i, id) && m[id] == For(mint, 3)(i);
    }
    forall id | id in profiles && id !in servers ensures exists i: nat :: IdAt(profiles, i, id) && m[id] == mint(1, i) {
      var i: nat :| IdAt(profiles, i, id) && base[id] == For(mint, 1)(i);
    }
  }

  ghost predicate Injective(m: map<Id, Id>) {
    forall a, b | a in m && b in m :: m[a] == m[b] ==> a == b
  }

  /** No two ids are mapped to one. */
  lemma IdMapInjective(profiles: seq<Id>, servers: seq<Id>, mint: Mint)
    requires Supply(mint)
    ensures Injective(IdMap(profiles, servers, mint))
    ensures forall id | id in IdMap(profiles, servers, mint) :: !Blank(IdMap(profiles, servers, mint)[id])
  {
    IdMapFrom(profiles, servers, mint);
  }

  // ---- importing ----------------------------------------------------------------------

  function Renamed<T>(items: seq<Item<T>>, idMap: map<Id, Id>): seq<Item<T>>
    requires forall i | 0 <= i < |items| :: items[i].id in idMap
  {
    seq(|items|, i requires 0 <= i < |items| => Item(idMap[items[i].id], items[i].value))
  }

  /** The lens of every profile reference: remapped, and kept only if that profile landed. */
  function LinkToImported(id: Id, idMap: map<Id, Id>, landed: set<Id>): Option<Id> {
    if id != "" && id in idMap && idMap[id] in landed then Some(idMap[id]) else None
  }

  /** The gateway is remapped first and narrowed once all survivors are known. */
  function RawLink(id: Id, idMap: map<Id, Id>): Option<Id> {
    if id != "" && id in idMap then Some(idMap[id]) else None
  }

  function RemapLink(l: Link, id: Id, idMap: map<Id, Id>, profiles: set<Id>): Option<Id> {
    if l == Gateway then RawLink(id, idMap) else LinkToImported(id, idMap, profiles)
  }

  function RemapLinks(links: map<Link, Id>, idMap: map<Id, Id>, profiles: set<Id>): map<Link, Id> {
    map l | l in links && RemapLink(l, links[l], idMap, profiles).Some? :: RemapLink(l, links[l], idMap, profiles).value
  }

  function RemapOrigin(o: Claim<Origin>, idMap: map<Id, Id>, profiles: set<Id>): Claim<Origin> {
    if o.Present?
    then Present(o.value.(stamps := o.value.stamps.(links := RemapLinks(o.value.stamps.links, idMap, profiles))))
    else o
  }

  function RemapJump(proxy: Option<Proxy>, idMap: map<Id, Id>): Option<Proxy> {
    if proxy.Some? && proxy.value.Ssh? then
      if proxy.value.jumpHostId in idMap && idMap[proxy.value.jumpHostId] != ""
      then Some(Ssh(idMap[proxy.value.jumpHostId])) else None
    else proxy
  }

  function Remapped(server: Server, idMap: map<Id, Id>, profiles: set<Id>): Server {
    server.(proxy := RemapJump(server.proxy, idMap),
            links := RemapLinks(server.links, idMap, profiles),
            origin := RemapOrigin(server.origin, idMap, profiles),
            formerlySynced := Absent)
  }

  function RemappedAll(servers: seq<Item<Server>>, idMap: map<Id, Id>, profiles: set<Id>): seq<Item<Server>>
    requires forall i | 0 <= i < |servers| :: servers[i].id in idMap
  {
    seq(|servers|, i requires 0 <= i < |servers| => Item(idMap[servers[i].id], Remapped(servers[i].value, idMap, profiles)))
  }

  function NarrowGateway(links: map<Link, Id>, survivors: set<Id>): map<Link, Id> {
    if Gateway in links && links[Gateway] !in survivors then links - {Gateway} else links
  }

  function Finalized(server: Server, survivors: set<Id>): Server {
    server.(links := NarrowGateway(server.links, survivors),
            origin := if server.origin.Present?
                      then Present(server.origin.value.(stamps := server.origin.value.stamps.(
                                     links := NarrowGateway(server.origin.value.stamps.links, survivors))))
                      else server.origin)
  }

  function FinalizedAll(servers: seq<Item<Server>>, survivors: set<Id>): seq<Item<Server>> {
    seq(|servers|, i requires 0 <= i < |servers| => Item(servers[i].id, Finalized(servers[i].value, survivors)))
  }

  function SharedTunnels(tunnels: seq<Item<Tunnel>>, idMap: map<Id, Id>, mint: nat -> Id): seq<Item<Tunnel>> {
    seq(|tunnels|, i requires 0 <= i < |tunnels| =>
      Item(mint(i), tunnels[i].value.(defaultServerId := RemapServerLink(tunnels[i].value.defaultServerId, idMap))))
  }

  function RemapServerLink(id: Option<Id>, idMap: map<Id, Id>): Option<Id> {
    if id.Some? then RawLink(id.value, idMap) else None
  }

  /** Where the blank ids of the payload are replaced before anything is mapped. */
  function EnsuredShare(p: Payload, mint: Mint): Payload {
    p.(profiles := EnsureIds(p.profiles, For(mint, 0)), servers := EnsureIds(p.servers, For(mint, 2)))
  }

  function ShareIdMap(p: Payload, mint: Mint): map<Id, Id> {
    IdMap(IdsOf(p.profiles), IdsOf(p.servers), mint)
  }

  lemma ShareIdMapCovers(p: Payload, mint: Mint)
    ensures forall i | 0 <= i < |p.profiles| :: p.profiles[i].id in ShareIdMap(p, mint)
    ensures forall i | 0 <= i < |p.servers| :: p.servers[i].id in ShareIdMap(p, mint)
  {
    IdMapFrom(IdsOf(p.profiles), IdsOf(p.servers), mint);
    forall i | 0 <= i < |p.profiles| ensures p.profiles[i].id in ShareIdMap(p, mint) {
      assert IdsOf(p.profiles)[i] in IdsOf(p.profiles);
    }
    forall i | 0 <= i < |p.servers| ensures p.servers[i].id in ShareIdMap(p, mint) {
      assert IdsOf(p.servers)[i] in IdsOf(p.servers);
    }
  }

  function NewProfiles(p: Payload, mint: Mint): seq<Item<Profile>> {
    ShareIdMapCovers(p, mint);
    Renamed(p.profiles, ShareIdMap(p, mint))
  }

  function LandedIds<T>(items: seq<Item<T>>, valid: T -> bool): set<Id> {
    set id | id in AcceptedIds(items, {}, valid)
  }

  function NewServers(p: Payload, checks: Checks, mint: Mint): seq<Item<Server>> {
    ShareIdMapCovers(p, mint);
    RemappedAll(p.servers, ShareIdMap(p, mint), LandedIds(NewProfiles(p, mint), checks.profile))
  }

  /** The share import of a payload whose ids are all given. */
  function SharedInto(w: World, p: Payload, checks: Checks, mint: Mint): World {
    var servers := NewServers(p, checks, mint);
    w.(profiles := Added(NewProfiles(p, mint), {}, checks.profile, Same(), w.profiles),
       servers := AddedServers(FinalizedAll(servers, LandedIds(servers, checks.server)), {}, checks.server, w.servers),
       tunnels := Added(SharedTunnels(p.tunnels, ShareIdMap(p, mint), For(mint, 4)), {}, checks.tunnel, Same(), w.tunnels))
  }

  function ShareImported(w: World, p: Payload, checks: Checks, mint: Mint): World {
    SharedInto(w, EnsuredShare(p, mint), checks, mint)
  }

  // ---- what a share import leaves -----------------------------------------------------

  predicate SameButGateway(a: Server, b: Server) {
    a.(links := a.links - {Gateway}, origin := b.origin) == b.(links := b.links - {Gateway})
  }

  /** The server validator does not look at the gateway link or at the origin. */
  ghost predicate LinkBlind(valid: Server -> bool) {
    forall a, b | SameButGateway(a, b) :: valid(a) == valid(b)
  }

  lemma FinalizingKeepsValidity(server: Server, survivors: set<Id>, valid: Server -> bool)
    requires LinkBlind(valid)
    ensures valid(Finalized(server, survivors)) == valid(server)
  {
    var f := Finalized(server, survivors);
    assert f.links - {Gateway} == server.links - {Gateway};
    assert SameButGateway(f, server);
  }

  lemma SurvivorsLand(items: seq<Item<Server>>, survivors: set<Id>, valid: Server -> bool)
    requires LinkBlind(valid)
    ensures LandedIds(FinalizedAll(items, survivors), valid) == LandedIds(items, valid)
  {
    AcceptedIdsAre(items, {}, valid);
    AcceptedIdsAre(FinalizedAll(items, survivors), {}, valid);
    forall i | 0 <= i < |items| ensures Accepted(FinalizedAll(items, survivors)[i], {}, valid) == Accepted(items[i], {}, valid) {
      FinalizingKeepsValidity(items[i].value, survivors, valid);
    }
    forall id ensures id in LandedIds(FinalizedAll(items, survivors), valid) <==> id in LandedIds(items, valid) {
      if id in LandedIds(items, valid) {
        var i :| 0 <= i < |items| && Accepted(items[i], {}, valid) && items[i].id == id;
        assert FinalizedAll(items, survivors)[i].id == id;
      }
      if id in LandedIds(FinalizedAll(items, survivors), valid) {
        var i :| 0 <= i < |items| && Accepted(FinalizedAll(items, survivors)[i], {}, valid) && FinalizedAll(items, survivors)[i].id == id;
        assert items[i].id == id;
      }
    }
  }

  /** Links that are there and resolve. */
  predicate AllResolve(links: map<Link, Id>, profiles: set<Id>, servers: set<Id>) {
    forall l | l in links :: links[l] in Bucket(l, profiles, servers)
  }

  /** Every link and stamp resolves, nothing is malformed and no marker is left. */
  predicate Narrowed(s: Server, profiles: set<Id>, servers: set<Id>) {
    && AllResolve(s.links, profiles, servers)
    && !s.origin.Malformed? && s.formerlySynced.Absent?
    && (s.origin.Present? ==> AllResolve(s.origin.value.stamps.links, profiles, servers))
  }

  lemma LensResolves(server: Server, idMap: map<Id, Id>, profiles: set<Id>, survivors: set<Id>)
    ensures Narrowed(SanitizeOrigin(Finalized(Remapped(server, idMap, profiles), survivors)), profiles, survivors)
  {
  }

  lemma AddedHas<T>(items: seq<Item<T>>, valid: T -> bool, clean: T -> T, bucket: map<Id, T>)
    ensures Added(items, {}, valid, clean, bucket).Keys == bucket.Keys + LandedIds(items, valid)
  {
    AddedKeys(items, {}, valid, clean, bucket);
    AcceptedIdsAre(items, {}, valid);
  }

  /** Every server the remap built is narrowed once finalized. */
  lemma NewServersNarrowed(q: Payload, checks: Checks, mint: Mint, survivors: set<Id>, i: nat)
    requires i < |NewServers(q, checks, mint)|
    ensures Narrowed(SanitizeOrigin(FinalizedAll(NewServers(q, checks, mint), survivors)[i].value),
                     LandedIds(NewProfiles(q, mint), checks.profile), survivors)
  {
    ShareIdMapCovers(q, mint);
    LensResolves(q.servers[i].value, ShareIdMap(q, mint), LandedIds(NewProfiles(q, mint), checks.profile), survivors);
  }

  lemma NarrowedWidens(s: Server, profiles: set<Id>, servers: set<Id>, profiles': set<Id>, servers': set<Id>)
    requires Narrowed(s, profiles, servers) && profiles <= profiles' && servers <= servers'
    ensures Narrowed(s, profiles', servers')
  {
  }

  lemma AddedNarrowed(final: seq<Item<Server>>, valid: Server -> bool, bucket: map<Id, Server>, profiles: set<Id>, servers: set<Id>, id: Id)
    requires forall i | 0 <= i < |final| :: Narrowed(SanitizeOrigin(final[i].value), profiles, servers)
    requires id in AddedServers(final, {}, valid, bucket)
    ensures var s := AddedServers(final, {}, valid, bucket)[id];
            (id in bucket && Quiet(s) == Quiet(bucket[id])) || Narrowed(s, profiles, servers)
  {
    AddedServerFrom(final, {}, valid, bucket, id);
    var s := AddedServers(final, {}, valid, bucket)[id];
    if !(id in bucket && Quiet(s) == Quiet(bucket[id])) {
      var i :| 0 <= i < |final| && Accepted(final[i], {}, valid) && final[i].id == id && Quiet(s) == Quiet(SanitizeOrigin(final[i].value));
      assert Narrowed(SanitizeOrigin(final[i].value), profiles, servers);
      SameButFlagNarrowed(s, SanitizeOrigin(final[i].value), profiles, servers);
    }
  }

  lemma SameButFlagNarrowed(a: Server, b: Server, profiles: set<Id>, servers: set<Id>)
    requires Quiet(a) == Quiet(b) && Narrowed(b, profiles, servers)
    ensures Narrowed(a, profiles, servers)
  {
    assert a == b.(opensExplorer := a.opensExplorer);
  }

  /**
   After a share import of any payload, a server this import brought in holds no link and no
   stamp that does not resolve - forward references, rejected targets and ids reused across
   buckets included - and it claims no earlier source. Any other server is as it was, but for
   the flag that it opens the file explorer.
   */
  lemma SharedServersResolve(w: World, p: Payload, checks: Checks, mint: Mint, id: Id)
    requires LinkBlind(checks.server)
    requires id in ShareImported(w, p, checks, mint).servers
    ensures
      var after := ShareImported(w, p, checks, mint);
      || (id in w.servers && Quiet(after.servers[id]) == Quiet(w.servers[id]))
      || Narrowed(after.servers[id], after.profiles.Keys, after.servers.Keys)
  {
    var q := EnsuredShare(p, mint);
    var profiles := LandedIds(NewProfiles(q, mint), checks.profile);
    var servers := NewServers(q, checks, mint);
    var survivors := LandedIds(servers, checks.server);
    var final := FinalizedAll(servers, survivors);
    SurvivorsLand(servers, survivors, checks.server);
    AddedHas(NewProfiles(q, mint), checks.profile, Same(), w.profiles);
    AddedHas(final, checks.server, SanitizeOrigin, w.servers);
    forall i | 0 <= i < |final| ensures Narrowed(SanitizeOrigin(final[i].value), profiles, survivors) {
      NewServersNarrowed(q, checks, mint, survivors, i);
    }
    AddedNarrowed(final, checks.server, w.servers, profiles, survivors, id);
    var after := ShareImported(w, p, checks, mint);
    if Narrowed(after.servers[id], profiles, survivors) {
      NarrowedWidens(after.servers[id], profiles, survivors, after.profiles.Keys, after.servers.Keys);
    }
  }

  /** The value and the stamp of a link pass through one lens. */
  function Lens(l: Link, id: Id, idMap: map<Id, Id>, profiles: set<Id>, survivors: set<Id>): Option<Id> {
    LinkToImported(id, idMap, if l == Gateway then survivors else profiles)
  }

  /**
   Who owns a field survives the remap: a stamp equal to its value stays equal to it (or both
   go), and a stamp the user had diverged from never comes to look like the value.
   */
  lemma OwnershipSurvivesRemap(server: Server, idMap: map<Id, Id>, profiles: set<Id>, survivors: set<Id>, l: Link)
    requires Injective(idMap) && server.origin.Present?
    ensures
      var s := SanitizeOrigin(Finalized(Remapped(server, idMap, profiles), survivors));
      var before, stamped := server.links, server.origin.value.stamps.links;
      && s.origin.Present?
      && var after, restamped := s.links, s.origin.value.stamps.links;
      && (l in after <==> l in before && Lens(l, before[l], idMap, profiles, survivors).Some?)
      && (l in after ==> Some(after[l]) == Lens(l, before[l], idMap, profiles, survivors))
      && (l in before && l in stamped && before[l] == stamped[l] ==>
            (l in after <==> l in restamped) && (l in after ==> after[l] == restamped[l]))
      && (l in after && l in restamped && after[l] == restamped[l] ==>
            l in before && l in stamped && before[l] == stamped[l])
  {
  }

  lemma AddedElsewhere<T>(items: seq<Item<T>>, valid: T -> bool, clean: T -> T, bucket: map<Id, T>)
    requires forall i | 0 <= i < |items| :: items[i].id !in bucket
    ensures forall id | id in bucket :: id in Added(items, {}, valid, clean, bucket) && Added(items, {}, valid, clean, bucket)[id] == bucket[id]
  {
    AddedKeys(items, {}, valid, clean, bucket);
  }

  lemma NewIdsAreMinted(q: Payload, checks: Checks, mint: Mint, taken: set<Id>)
    requires Fresh(mint, taken)
    ensures forall i | 0 <= i < |NewProfiles(q, mint)| :: NewProfiles(q, mint)[i].id !in taken
    ensures forall i | 0 <= i < |NewServers(q, checks, mint)| :: NewServers(q, checks, mint)[i].id !in taken
  {
    ShareIdMapCovers(q, mint);
    IdMapFrom(IdsOf(q.profiles), IdsOf(q.servers), mint);
    forall id | id in ShareIdMap(q, mint) ensures ShareIdMap(q, mint)[id] !in taken {
    }
  }

  /** The servers a share import puts into the core. */
  function LandingServers(p: Payload, checks: Checks, mint: Mint): seq<Item<Server>> {
    var servers := NewServers(EnsuredShare(p, mint), checks, mint);
    FinalizedAll(servers, LandedIds(servers, checks.server))
  }

  /**
   What was here stays: no local record is relinked or removed, and none is rewritten, but that
   a server which opened the file explorer no longer does, exactly when one that lands does.
   */
  lemma ShareTouchesNothingLocal(w: World, p: Payload, checks: Checks, mint: Mint)
    requires Fresh(mint, AllIds(w))
    ensures var after := ShareImported(w, p, checks, mint);
      && after.sources == w.sources && after.templates == w.templates
      && (forall id | id in w.profiles :: id in after.profiles && after.profiles[id] == w.profiles[id])
      && (forall id | id in w.tunnels :: id in after.tunnels && after.tunnels[id] == w.tunnels[id])
      && (forall id | id in w.servers ::
            && id in after.servers
            && after.servers[id] == if BringsOpener(LandingServers(p, checks, mint), {}, checks.server)
                                    then Quiet(w.servers[id]) else w.servers[id])
  {
    var q := EnsuredShare(p, mint);
    NewIdsAreMinted(q, checks, mint, AllIds(w));
    var servers, final := NewServers(q, checks, mint), LandingServers(p, checks, mint);
    var tunnels := SharedTunnels(q.tunnels, ShareIdMap(q, mint), For(mint, 4));
    assert forall i | 0 <= i < |final| :: final[i].id == servers[i].id;
    AddedElsewhere(NewProfiles(q, mint), checks.profile, Same(), w.profiles);
    AcceptedIdsAre(final, {}, checks.server);
    forall id | id in w.servers ensures id !in AcceptedIds(final, {}, checks.server) {
    }
    forall id | id in w.servers
      ensures id in AddedServers(final, {}, checks.server, w.servers)
      ensures AddedServers(final, {}, checks.server, w.servers)[id]
           == if BringsOpener(final, {}, checks.server) then Quiet(w.servers[id]) else w.servers[id]
    {
      AddingSilencesOthers(final, {}, checks.server, w.servers, id);
    }
    assert forall i | 0 <= i < |tunnels| :: tunnels[i].id == mint(4, i);
    AddedElsewhere(tunnels, checks.tunnel, Same(), w.tunnels);
  }

  /** A share file brings in an opener exactly when a server of it that lands is one. */
  lemma LandingKeepsFlag(p: Payload, checks: Checks, mint: Mint, i: nat)
    requires i < |LandingServers(p, checks, mint)|
    ensures i < |p.servers| && LandingServers(p, checks, mint)[i].value.opensExplorer == p.servers[i].value.opensExplorer
  {
    ShareIdMapCovers(EnsuredShare(p, mint), mint);
  }

  /** A share file with one server that opens the file explorer takes the flag from the local server that had it. */
  lemma SharedOpenerSilencesLocal(server: Server, mint: Mint)
    requires server.opensExplorer
    requires Fresh(mint, {"local"})
    ensures
      var w := World(map["local" := server], map[], map[], map[], map[]);
      var p := Payload([Item("shared", server)], [], [], [], []);
      var after := ShareImported(w, p, ANYTHING, mint);
      "local" in after.servers && after.servers["local"] == Quiet(server) != server
  {
    var w := World(map["local" := server], map[], map[], map[], map[]);
    var p := Payload([Item("shared", server)], [], [], [], []);
    assert AllIds(w) == {"local"};
    ShareTouchesNothingLocal(w, p, ANYTHING, mint);
    ShareIdMapCovers(EnsuredShare(p, mint), mint);
    LandingKeepsFlag(p, ANYTHING, mint, 0);
    assert Accepted(LandingServers(p, ANYTHING, mint)[0], {}, ANYTHING.server);
  }
}
