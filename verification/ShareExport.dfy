/**
 A share export, and what it becomes on another machine: a copy of the addressed servers and
 of the profiles they reference, under fresh ids, with every link in its place.
 */
module ShareExport {
  import opened Records
  import opened BackupImport
  import opened BackupSecrets
  import opened Share

  /** What the exporting machine hands over: its records, each under its own id. */
  datatype Snapshot = Snapshot(servers: seq<Item<Server>>, tunnels: seq<Item<Tunnel>>, profiles: seq<Item<Profile>>)

  // ---- exporting ----------------------------------------------------------------------

  /** Placeholders without an address are not shared. */
  function Addressed(servers: seq<Item<Server>>): seq<Item<Server>> {
    if servers == [] then []
    else Addressed(servers[..|servers| - 1]) + (if servers[|servers| - 1].value.addressless then [] else [servers[|servers| - 1]])
  }

  function LinkedProfiles(server: Server): set<Id> {
    set l | l in server.links && l != Gateway && server.links[l] != "" :: server.links[l]
  }

  function ReferencedIds(servers: seq<Item<Server>>): set<Id> {
    set i, id | 0 <= i < |servers| && id in LinkedProfiles(servers[i].value) :: id
  }

  function Among(profiles: seq<Item<Profile>>, ids: set<Id>): seq<Item<Profile>> {
    if profiles == [] then []
    else Among(profiles[..|profiles| - 1], ids) + (if profiles[|profiles| - 1].id in ids then [profiles[|profiles| - 1]] else [])
  }

  /** `remapProxy`: an SSH jump is remapped or dropped, a proxy loses its user name. */
  function ExportedProxy(proxy: Option<Proxy>, idMap: map<Id, Id>): Option<Proxy> {
    if proxy.None? then None
    else match proxy.value
      case Ssh(_) => RemapJump(proxy, idMap)
      case Socks5(host, port, _) => Some(Socks5(host, port, None))
      case Http(host, port, _) => Some(Http(host, port, None))
  }

  function ExportedServer(s: Server, idMap: map<Id, Id>): Server {
    s.(username := "user", keyPath := "",
       proxy := ExportedProxy(s.proxy, idMap),
       links := map l | l in s.links && RawLink(s.links[l], idMap).Some? :: RawLink(s.links[l], idMap).value,
       origin := Absent, formerlySynced := Absent)
  }

  function ExportedProfile(p: Profile): Profile {
    p.(username := "user", keyPath := None)
  }

  function ExportServers(servers: seq<Item<Server>>, idMap: map<Id, Id>): seq<Item<Server>>
    requires forall i | 0 <= i < |servers| :: servers[i].id in idMap
  {
    seq(|servers|, i requires 0 <= i < |servers| => Item(idMap[servers[i].id], ExportedServer(servers[i].value, idMap)))
  }

  function ExportProfiles(profiles: seq<Item<Profile>>, idMap: map<Id, Id>): seq<Item<Profile>>
    requires forall i | 0 <= i < |profiles| :: profiles[i].id in idMap
  {
    seq(|profiles|, i requires 0 <= i < |profiles| => Item(idMap[profiles[i].id], ExportedProfile(profiles[i].value)))
  }

  /** The id map as the tunnels see it: each enters its own id before it is remapped. */
  function TunnelIdMap(tunnels: seq<Item<Tunnel>>, k: nat, idMap: map<Id, Id>, mint: nat -> Id): map<Id, Id>
    requires k <= |tunnels|
  {
    AssignIds(IdsOf(tunnels[..k]), mint, idMap)
  }

  function ExportedTunnel(t: Tunnel, idMap: map<Id, Id>): Tunnel {
    if t.defaultServerId.Some? && t.defaultServerId.value != ""
    then t.(defaultServerId := RawLink(t.defaultServerId.value, idMap)) else t
  }

  function ExportTunnels(tunnels: seq<Item<Tunnel>>, idMap: map<Id, Id>, mint: nat -> Id): seq<Item<Tunnel>> {
    seq(|tunnels|, k requires 0 <= k < |tunnels| =>
      Item(mint(k), ExportedTunnel(tunnels[k].value, TunnelIdMap(tunnels, k + 1, idMap, mint))))
  }

  function ExportIdMap(src: Snapshot, mint: Mint): map<Id, Id> {
    IdMap(IdsOf(src.profiles), IdsOf(Addressed(src.servers)), mint)
  }

  lemma {:induction false} AmongAre(profiles: seq<Item<Profile>>, ids: set<Id>)
    ensures forall p :: p in Among(profiles, ids) <==> p in profiles && p.id in ids
    ensures DistinctIds(profiles) ==> DistinctIds(Among(profiles, ids))
    decreases |profiles|
  {
    if profiles != [] {
      var front := profiles[..|profiles| - 1];
      AmongAre(front, ids);
      assert profiles == front + [profiles[|profiles| - 1]];
      var kept := Among(front, ids);
      assert forall i | 0 <= i < |kept| :: kept[i] in front;
    }
  }

  lemma {:induction false} AddressedAre(servers: seq<Item<Server>>)
    ensures forall s :: s in Addressed(servers) <==> s in servers && !s.value.addressless
    ensures DistinctIds(servers) ==> DistinctIds(Addressed(servers))
    decreases |servers|
  {
    if servers != [] {
      var front := servers[..|servers| - 1];
      AddressedAre(front);
      assert servers == front + [servers[|servers| - 1]];
      var kept := Addressed(front);
      assert forall i | 0 <= i < |kept| :: kept[i] in front;
    }
  }

  function SharedProfiles(src: Snapshot): seq<Item<Profile>> {
    Among(src.profiles, ReferencedIds(Addressed(src.servers)))
  }

  lemma ExportIdMapCovers(src: Snapshot, mint: Mint)
    ensures forall i | 0 <= i < |Addressed(src.servers)| :: Addressed(src.servers)[i].id in ExportIdMap(src, mint)
    ensures forall i | 0 <= i < |SharedProfiles(src)| :: SharedProfiles(src)[i].id in ExportIdMap(src, mint)
  {
    var servers, profiles := Addressed(src.servers), SharedProfiles(src);
    IdMapFrom(IdsOf(src.profiles), IdsOf(servers), mint);
    AmongAre(src.profiles, ReferencedIds(servers));
    forall i | 0 <= i < |servers| ensures servers[i].id in ExportIdMap(src, mint) {
      assert IdsOf(servers)[i] in IdsOf(servers);
    }
    forall i | 0 <= i < |profiles| ensures profiles[i].id in ExportIdMap(src, mint) {
      assert profiles[i] in profiles;
      var j :| 0 <= j < |src.profiles| && src.profiles[j] == profiles[i];
      assert IdsOf(src.profiles)[j] in IdsOf(src.profiles);
    }
  }

  /** `sanitizeForSharing`. */
  function Exported(src: Snapshot, mint: Mint): Payload {
    ExportIdMapCovers(src, mint);
    var idMap := ExportIdMap(src, mint);
    Payload(ExportServers(Addressed(src.servers), idMap),
            ExportTunnels(src.tunnels, idMap, For(mint, 4)), [],
            ExportProfiles(SharedProfiles(src), idMap), [])
  }

  // ---- the copy -----------------------------------------------------------------------

  /** Where a shared record ends up: its id, through the export's map and then the import's. */
  function Image(src: Snapshot, mint: Mint, mint': Mint): map<Id, Id> {
    var first := ExportIdMap(src, mint);
    var second := ShareIdMap(Exported(src, mint), mint');
    map id | id in first && first[id] in second :: second[first[id]]
  }

  ghost predicate Accepting(checks: Checks) {
    && (forall s :: checks.server(s)) && (forall t :: checks.tunnel(t)) && (forall p :: checks.profile(p))
  }

  ghost predicate GoodSnapshot(src: Snapshot) {
    && DistinctIds(src.servers) && DistinctIds(src.tunnels) && DistinctIds(src.profiles)
    && (forall s | s in src.servers :: s.id != "")
    && (forall p | p in src.profiles :: p.id != "")
    && OneOpener(src.servers)
  }

  /** At most one of these servers opens the file explorer; so it is in every core. */
  ghost predicate OneOpener(servers: seq<Item<Server>>) {
    forall i, j | 0 <= i < j < |servers| :: !(servers[i].value.opensExplorer && servers[j].value.opensExplorer)
  }

  ghost predicate RenamedTo(ids: seq<Id>, ids': seq<Id>, m: map<Id, Id>) {
    && |ids| == |ids'|
    && forall i | 0 <= i < |ids| :: ids[i] in m && ids'[i] == m[ids[i]]
  }

  /** Under an injective map, a renamed id occurs exactly where the id does. */
  lemma RenamedOccurs(ids: seq<Id>, ids': seq<Id>, m: map<Id, Id>, id: Id)
    requires Injective(m) && RenamedTo(ids, ids', m) && id in m
    ensures m[id] in ids' <==> id in ids
  {
    if id in ids {
      var i :| 0 <= i < |ids| && ids[i] == id;
      assert ids'[i] == m[id];
    }
    if m[id] in ids' {
      var i :| 0 <= i < |ids'| && ids'[i] == m[id];
      assert ids[i] == id;
    }
  }

  lemma ExportRenames(src: Snapshot, mint: Mint)
    ensures RenamedTo(IdsOf(Addressed(src.servers)), IdsOf(Exported(src, mint).servers), ExportIdMap(src, mint))
    ensures RenamedTo(IdsOf(SharedProfiles(src)), IdsOf(Exported(src, mint).profiles), ExportIdMap(src, mint))
  {
    ExportIdMapCovers(src, mint);
  }

  /** The image is defined exactly on what is shared, and keeps different records apart. */
  lemma ImageOfShared(src: Snapshot, mint: Mint, mint': Mint)
    requires Supply(mint) && Supply(mint')
    ensures forall id :: id in Image(src, mint, mint') <==>
              id in IdsOf(Addressed(src.servers)) || id in IdsOf(SharedProfiles(src))
    ensures Injective(Image(src, mint, mint'))
  {
    var first, payload := ExportIdMap(src, mint), Exported(src, mint);
    var servers, profiles := IdsOf(Addressed(src.servers)), IdsOf(SharedProfiles(src));
    ExportRenames(src, mint);
    IdMapInjective(IdsOf(src.profiles), servers, mint);
    IdMapInjective(IdsOf(payload.profiles), IdsOf(payload.servers), mint');
    IdMapFrom(IdsOf(payload.profiles), IdsOf(payload.servers), mint');
    forall id | id in first
      ensures first[id] in ShareIdMap(payload, mint') <==> id in servers || id in profiles
    {
      RenamedOccurs(servers, IdsOf(payload.servers), first, id);
      RenamedOccurs(profiles, IdsOf(payload.profiles), first, id);
    }
    forall id | id in servers || id in profiles ensures id in first {
    }
  }

  // ---- what arrives -------------------------------------------------------------------

  function ProxyCopy(proxy: Option<Proxy>, image: map<Id, Id>): Option<Proxy> {
    if proxy.None? then None
    else match proxy.value
      case Ssh(jump) => if jump in image then Some(Ssh(image[jump])) else None
      case Socks5(host, port, _) => Some(Socks5(host, port, None))
      case Http(host, port, _) => Some(Http(host, port, None))
  }

  /** A link arrives exactly when it names a shared record of its bucket, and then names its image. */
  predicate LinksCopied(links: map<Link, Id>, after: map<Link, Id>, image: map<Id, Id>, profiles: set<Id>, servers: set<Id>) {
    && (forall l: Link :: l in after <==> l in links && links[l] in Bucket(l, profiles, servers))
    && (forall l | l in after :: l in links && links[l] in image && after[l] == image[links[l]])
  }

  /** The same server, without its credentials and its provenance, its references carried over. */
  predicate ServerCopied(s: Server, after: Server, image: map<Id, Id>, profiles: set<Id>, servers: set<Id>) {
    && LinksCopied(s.links, after.links, image, profiles, servers)
    && after == s.(username := "user", keyPath := "", proxy := ProxyCopy(s.proxy, image), links := after.links,
                   origin := Absent, formerlySynced := Absent)
  }

  ghost function IdSet<T>(items: seq<Item<T>>): set<Id> {
    set id | id in IdsOf(items)
  }

  lemma AddedAll<T>(items: seq<Item<T>>, valid: T -> bool, clean: T -> T)
    requires DistinctIds(items) && forall i | 0 <= i < |items| :: valid(items[i].value)
    ensures LandedIds(items, valid) == IdSet(items)
    ensures Added(items, {}, valid, clean, map[]).Keys == IdSet(items)
    ensures forall i | 0 <= i < |items| ::
      items[i].id in Added(items, {}, valid, clean, map[]) && Added(items, {}, valid, clean, map[])[items[i].id] == clean(items[i].value)
  {
    AllLand(items, valid);
    AddedHas(items, valid, clean, map[]);
    forall i | 0 <= i < |items|
      ensures items[i].id in Added(items, {}, valid, clean, map[])
      ensures Added(items, {}, valid, clean, map[])[items[i].id] == clean(items[i].value)
    {
      AddedItem(items, valid, clean, i);
    }
  }

  lemma AllLand<T>(items: seq<Item<T>>, valid: T -> bool)
    requires forall i | 0 <= i < |items| :: valid(items[i].value)
    ensures LandedIds(items, valid) == IdSet(items)
  {
    AcceptedIdsAre(items, {}, valid);
    forall id | id in IdSet(items) ensures id in LandedIds(items, valid) {
      var i :| 0 <= i < |items| && IdsOf(items)[i] == id;
      assert Accepted(items[i], {}, valid);
    }
    forall id | id in LandedIds(items, valid) ensures id in IdSet(items) {
      var i :| 0 <= i < |items| && Accepted(items[i], {}, valid) && items[i].id == id;
      assert IdsOf(items)[i] == id;
    }
  }

  lemma AddedItem<T>(items: seq<Item<T>>, valid: T -> bool, clean: T -> T, i: nat)
    requires DistinctIds(items) && i < |items| && valid(items[i].value)
    ensures items[i].id in Added(items, {}, valid, clean, map[])
    ensures Added(items, {}, valid, clean, map[])[items[i].id] == clean(items[i].value)
  {
    AddedKeys(items, {}, valid, clean, map[]);
    assert Accepted(items[i], {}, valid);
    var id := items[i].id;
    assert id in (set j | 0 <= j < |items| && Accepted(items[j], {}, valid) :: items[j].id);
    var j :| 0 <= j < |items| && Accepted(items[j], {}, valid) && items[j].id == id
             && Added(items, {}, valid, clean, map[])[id] == clean(items[j].value);
    assert i == j;
  }

  /** Renaming distinct ids injectively keeps them distinct. */
  lemma RenamedDistinct<T, U>(items: seq<Item<T>>, items': seq<Item<U>>, m: map<Id, Id>)
    requires DistinctIds(items) && Injective(m) && RenamedTo(IdsOf(items), IdsOf(items'), m)
    ensures DistinctIds(items')
  {
    forall i, j | 0 <= i < j < |items'| ensures items'[i].id != items'[j].id {
      assert IdsOf(items')[i] == m[IdsOf(items)[i]] && IdsOf(items')[j] == m[IdsOf(items)[j]];
    }
  }

  /** The links of a server after export, remap and narrowing. */
  lemma LinkTravels(s: Server, m: map<Id, Id>, m': map<Id, Id>, profiles: set<Id>, survivors: set<Id>, l: Link)
    requires forall id | id in m :: m[id] != ""
    ensures
      var after := Finalized(Remapped(ExportedServer(s, m), m', profiles), survivors).links;
      && (l in after <==>
            l in s.links && s.links[l] != "" && s.links[l] in m && m[s.links[l]] in m'
            && m'[m[s.links[l]]] in Bucket(l, profiles, survivors))
      && (l in after ==> after[l] == m'[m[s.links[l]]])
  {
  }

  /** Export leaves every exported id non-blank, so the import mints none in their place. */
  lemma NothingToEnsure(src: Snapshot, mint: Mint, mint': Mint)
    requires Supply(mint)
    ensures EnsuredShare(Exported(src, mint), mint') == Exported(src, mint)
  {
    var payload := Exported(src, mint);
    ExportIdMapCovers(src, mint);
    IdMapInjective(IdsOf(src.profiles), IdsOf(Addressed(src.servers)), mint);
    assert EnsureIds(payload.profiles, For(mint', 0)) == payload.profiles;
    assert EnsureIds(payload.servers, For(mint', 2)) == payload.servers;
  }

  /** The records the import builds carry the images of the ids of the records they came from. */
  lemma NewIdsAreImages(src: Snapshot, checks: Checks, mint: Mint, mint': Mint)
    requires Supply(mint) && Supply(mint')
    ensures RenamedTo(IdsOf(SharedProfiles(src)), IdsOf(NewProfiles(Exported(src, mint), mint')), Image(src, mint, mint'))
    ensures RenamedTo(IdsOf(Addressed(src.servers)), IdsOf(NewServers(Exported(src, mint), checks, mint')), Image(src, mint, mint'))
  {
    var payload, image := Exported(src, mint), Image(src, mint, mint');
    ImageOfShared(src, mint, mint');
    ExportIdMapCovers(src, mint);
    ShareIdMapCovers(payload, mint');
    forall i | 0 <= i < |SharedProfiles(src)|
      ensures SharedProfiles(src)[i].id in image && NewProfiles(payload, mint')[i].id == image[SharedProfiles(src)[i].id]
    {
      assert IdsOf(SharedProfiles(src))[i] == SharedProfiles(src)[i].id;
      assert payload.profiles[i].id == ExportIdMap(src, mint)[SharedProfiles(src)[i].id];
    }
    var servers := Addressed(src.servers);
    forall i | 0 <= i < |servers|
      ensures servers[i].id in image && NewServers(payload, checks, mint')[i].id == image[servers[i].id]
    {
      assert IdsOf(servers)[i] == servers[i].id;
      assert payload.servers[i].id == ExportIdMap(src, mint)[servers[i].id];
    }
  }

  /** Every profile an addressed server names travels along. */
  lemma NamedProfilesShared(src: Snapshot, i: nat, l: Link)
    requires i < |Addressed(src.servers)| && l != Gateway && l in Addressed(src.servers)[i].value.links
    requires Addressed(src.servers)[i].value.links[l] != ""
    ensures var id := Addressed(src.servers)[i].value.links[l];
            id in IdSet(SharedProfiles(src)) <==> id in IdSet(src.profiles)
  {
    var servers := Addressed(src.servers);
    assert servers[i].value.links[l] in LinkedProfiles(servers[i].value);
    AmongIds(src.profiles, ReferencedIds(servers), servers[i].value.links[l]);
  }

  lemma AmongIds(profiles: seq<Item<Profile>>, ids: set<Id>, id: Id)
    requires id in ids
    ensures id in IdSet(Among(profiles, ids)) <==> id in IdSet(profiles)
  {
    var among := Among(profiles, ids);
    AmongAre(profiles, ids);
    if id in IdSet(profiles) {
      var j :| 0 <= j < |profiles| && IdsOf(profiles)[j] == id;
      assert profiles[j] in among;
      var k :| 0 <= k < |among| && among[k] == profiles[j];
      assert IdsOf(among)[k] == id;
    }
    if id in IdSet(among) {
      var k :| 0 <= k < |among| && IdsOf(among)[k] == id;
      assert among[k] in profiles;
      var j :| 0 <= j < |profiles| && profiles[j] == among[k];
      assert IdsOf(profiles)[j] == id;
    }
  }

  /** One server's links, all the way. */
  lemma LinksArrive(src: Snapshot, mint: Mint, mint': Mint, profiles: set<Id>, survivors: set<Id>, i: nat)
    requires Supply(mint) && Supply(mint') && GoodSnapshot(src) && i < |Addressed(src.servers)|
    requires forall id | id in Image(src, mint, mint') ::
      && (Image(src, mint, mint')[id] in profiles <==> id in IdSet(SharedProfiles(src)))
      && (Image(src, mint, mint')[id] in survivors <==> id in IdSet(Addressed(src.servers)))
    ensures
      var s := Addressed(src.servers)[i].value;
      var second := ShareIdMap(Exported(src, mint), mint');
      var after := Finalized(Remapped(ExportedServer(s, ExportIdMap(src, mint)), second, profiles), survivors);
      LinksCopied(s.links, after.links, Image(src, mint, mint'), IdSet(src.profiles), IdSet(Addressed(src.servers)))
  {
    var s := Addressed(src.servers)[i].value;
    var first, second, image := ExportIdMap(src, mint), ShareIdMap(Exported(src, mint), mint'), Image(src, mint, mint');
    var after := Finalized(Remapped(ExportedServer(s, first), second, profiles), survivors).links;
    IdMapInjective(IdsOf(src.profiles), IdsOf(Addressed(src.servers)), mint);
    ImageOfShared(src, mint, mint');
    NoBlankShared(src);
    forall l: Link
      ensures l in after <==> l in s.links && s.links[l] in Bucket(l, IdSet(src.profiles), IdSet(Addressed(src.servers)))
      ensures l in after ==> s.links[l] in image && after[l] == image[s.links[l]]
    {
      LinkTravels(s, first, second, profiles, survivors, l);
      if l in s.links && s.links[l] != "" && l != Gateway {
        NamedProfilesShared(src, i, l);
      }
    }
  }

  lemma NoBlankShared(src: Snapshot)
    requires GoodSnapshot(src)
    ensures "" !in IdSet(src.profiles) && "" !in IdSet(Addressed(src.servers))
  {
    AddressedAre(src.servers);
    forall i | 0 <= i < |Addressed(src.servers)| ensures Addressed(src.servers)[i].id != "" {
      assert Addressed(src.servers)[i] in src.servers;
    }
    forall i | 0 <= i < |src.profiles| ensures src.profiles[i].id != "" {
      assert src.profiles[i] in src.profiles;
    }
  }

  ghost predicate ServerArrived(src: Snapshot, after: map<Id, Server>, image: map<Id, Id>, i: nat)
    requires i < |Addressed(src.servers)|
  {
    var item := Addressed(src.servers)[i];
    && item.id in image && image[item.id] in after
    && ServerCopied(item.value, after[image[item.id]], image, IdSet(src.profiles), IdSet(Addressed(src.servers)))
  }

  ghost predicate ProfileArrived(src: Snapshot, after: World, image: map<Id, Id>, i: nat)
    requires i < |SharedProfiles(src)|
  {
    var item := SharedProfiles(src)[i];
    && item.id in image && image[item.id] in after.profiles
    && after.profiles[image[item.id]] == ExportedProfile(item.value)
  }

  /** A tunnel's server link arrives when it names a shared record, unless a tunnel hides it. */
  function TunnelCopy(t: Tunnel, hidden: seq<Id>, image: map<Id, Id>): Tunnel {
    t.(defaultServerId :=
         if t.defaultServerId.Some? && t.defaultServerId.value != "" && t.defaultServerId.value in image && t.defaultServerId.value !in hidden
         then Some(image[t.defaultServerId.value]) else None)
  }

  ghost predicate TunnelArrived(src: Snapshot, after: World, image: map<Id, Id>, mint': Mint, k: nat)
    requires k < |src.tunnels|
  {
    && mint'(4, k) in after.tunnels
    && after.tunnels[mint'(4, k)] == TunnelCopy(src.tunnels[k].value, IdsOf(src.tunnels[..k + 1]), image)
  }

  /** What the importing machine holds is the images of what was shared, and nothing else. */
  ghost predicate ArrivedUnder(ids: seq<Id>, after: set<Id>, image: map<Id, Id>) {
    forall id :: id in after <==> exists i :: 0 <= i < |ids| && ids[i] in image && image[ids[i]] == id
  }

  ghost predicate Arrived(src: Snapshot, after: World, image: map<Id, Id>, mint': Mint) {
    && Injective(image)
    && (forall id :: id in image <==> id in IdsOf(Addressed(src.servers)) || id in IdsOf(SharedProfiles(src)))
    && ArrivedUnder(IdsOf(Addressed(src.servers)), after.servers.Keys, image)
    && ArrivedUnder(IdsOf(SharedProfiles(src)), after.profiles.Keys, image)
    && (forall i: nat | i < |Addressed(src.servers)| :: ServerArrived(src, after.servers, image, i))
    && (forall i: nat | i < |SharedProfiles(src)| :: ProfileArrived(src, after, image, i))
    && (forall k: nat | k < |src.tunnels| :: TunnelArrived(src, after, image, mint', k))
    && |after.tunnels| == |src.tunnels|
  }

  lemma UnderFromRenamed(ids: seq<Id>, ids': seq<Id>, image: map<Id, Id>)
    requires RenamedTo(ids, ids', image)
    ensures ArrivedUnder(ids, (set id | id in ids'), image)
  {
    forall id ensures id in ids' <==> exists i :: 0 <= i < |ids| && ids[i] in image && image[ids[i]] == id {
      if id in ids' {
        var i :| 0 <= i < |ids'| && ids'[i] == id;
        assert ids[i] in image;
      }
    }
  }

  /** What is added under renamed ids is found under the images of the ids it came from. */
  lemma ImagesArrive<T, U>(shared: seq<Item<T>>, items: seq<Item<U>>, valid: U -> bool, clean: U -> U, image: map<Id, Id>)
    requires RenamedTo(IdsOf(shared), IdsOf(items), image) && DistinctIds(items)
    requires forall i | 0 <= i < |items| :: valid(items[i].value)
    ensures ArrivedUnder(IdsOf(shared), Added(items, {}, valid, clean, map[]).Keys, image)
    ensures |shared| == |items|
    ensures forall i: nat | i < |shared| ::
      && shared[i].id in image && image[shared[i].id] in Added(items, {}, valid, clean, map[])
      && Added(items, {}, valid, clean, map[])[image[shared[i].id]] == clean(items[i].value)
  {
    AddedAll(items, valid, clean);
    UnderFromRenamed(IdsOf(shared), IdsOf(items), image);
    forall i: nat | i < |shared| ensures shared[i].id in image && items[i].id == image[shared[i].id] {
      assert IdsOf(shared)[i] == shared[i].id && IdsOf(items)[i] == items[i].id;
    }
  }

  lemma ProfilesArrive(src: Snapshot, checks: Checks, mint: Mint, mint': Mint)
    requires Supply(mint) && Supply(mint') && GoodSnapshot(src) && Accepting(checks)
    ensures var after := ShareImported(EMPTY_WORLD, Exported(src, mint), checks, mint');
      && ArrivedUnder(IdsOf(SharedProfiles(src)), after.profiles.Keys, Image(src, mint, mint'))
      && forall i: nat | i < |SharedProfiles(src)| :: ProfileArrived(src, after, Image(src, mint, mint'), i)
  {
    var image, shared := Image(src, mint, mint'), SharedProfiles(src);
    var items := NewProfiles(Exported(src, mint), mint');
    NothingToEnsure(src, mint, mint');
    NewIdsAreImages(src, checks, mint, mint');
    ImageOfShared(src, mint, mint');
    AmongAre(src.profiles, ReferencedIds(Addressed(src.servers)));
    RenamedDistinct(shared, items, image);
    ImagesArrive(shared, items, checks.profile, Same(), image);
    ProfileValues(src, mint, mint');
  }

  lemma ProfileValues(src: Snapshot, mint: Mint, mint': Mint)
    ensures |NewProfiles(Exported(src, mint), mint')| == |SharedProfiles(src)|
    ensures forall i: nat | i < |SharedProfiles(src)| ::
      NewProfiles(Exported(src, mint), mint')[i].value == ExportedProfile(SharedProfiles(src)[i].value)
  {
    ExportIdMapCovers(src, mint);
    ShareIdMapCovers(Exported(src, mint), mint');
  }

  /** Every shared server and no other is among the survivors. */
  lemma Survive(src: Snapshot, checks: Checks, mint: Mint, mint': Mint)
    requires Supply(mint) && Supply(mint') && GoodSnapshot(src) && Accepting(checks)
    ensures var payload := Exported(src, mint);
      && DistinctIds(NewServers(payload, checks, mint'))
      && forall id | id in Image(src, mint, mint') ::
           && (Image(src, mint, mint')[id] in LandedIds(NewProfiles(payload, mint'), checks.profile) <==> id in IdSet(SharedProfiles(src)))
           && (Image(src, mint, mint')[id] in LandedIds(NewServers(payload, checks, mint'), checks.server) <==> id in IdSet(Addressed(src.servers)))
  {
    var payload, image := Exported(src, mint), Image(src, mint, mint');
    var profiles, servers := NewProfiles(payload, mint'), NewServers(payload, checks, mint');
    NewIdsAreImages(src, checks, mint, mint');
    ImageOfShared(src, mint, mint');
    AmongAre(src.profiles, ReferencedIds(Addressed(src.servers)));
    AddressedAre(src.servers);
    RenamedDistinct(SharedProfiles(src), profiles, image);
    RenamedDistinct(Addressed(src.servers), servers, image);
    AddedAll(profiles, checks.profile, Same());
    AddedAll(servers, checks.server, Same());
    forall id | id in image
      ensures image[id] in IdSet(profiles) <==> id in IdSet(SharedProfiles(src))
      ensures image[id] in IdSet(servers) <==> id in IdSet(Addressed(src.servers))
    {
      RenamedOccurs(IdsOf(SharedProfiles(src)), IdsOf(profiles), image, id);
      RenamedOccurs(IdsOf(Addressed(src.servers)), IdsOf(servers), image, id);
    }
  }

  /** An SSH jump is dropped or mapped twice; what is dropped or mapped is what the image says. */
  lemma JumpArrives(proxy: Option<Proxy>, m: map<Id, Id>, m': map<Id, Id>, image: map<Id, Id>)
    requires forall id | id in m :: m[id] != ""
    requires forall id | id in m' :: m'[id] != ""
    requires forall id :: id in image <==> id in m && m[id] in m'
    requires forall id | id in image :: image[id] == m'[m[id]]
    ensures RemapJump(ExportedProxy(proxy, m), m') == ProxyCopy(proxy, image)
  {
  }

  lemma ServerArrives(src: Snapshot, checks: Checks, mint: Mint, mint': Mint, i: nat)
    requires Supply(mint) && Supply(mint') && GoodSnapshot(src) && Accepting(checks) && i < |Addressed(src.servers)|
    ensures
      var payload := Exported(src, mint);
      var servers := NewServers(payload, checks, mint');
      ServerCopied(Addressed(src.servers)[i].value,
                   SanitizeOrigin(FinalizedAll(servers, LandedIds(servers, checks.server))[i].value),
                   Image(src, mint, mint'), IdSet(src.profiles), IdSet(Addressed(src.servers)))
  {
    var payload, image := Exported(src, mint), Image(src, mint, mint');
    var first, second := ExportIdMap(src, mint), ShareIdMap(payload, mint');
    var servers := NewServers(payload, checks, mint');
    ExportIdMapCovers(src, mint);
    ShareIdMapCovers(payload, mint');
    Survive(src, checks, mint, mint');
    LinksArrive(src, mint, mint', LandedIds(NewProfiles(payload, mint'), checks.profile), LandedIds(servers, checks.server), i);
    IdMapInjective(IdsOf(src.profiles), IdsOf(Addressed(src.servers)), mint);
    IdMapInjective(IdsOf(payload.profiles), IdsOf(payload.servers), mint');
    JumpArrives(Addressed(src.servers)[i].value.proxy, first, second, image);
  }

  lemma FinalIds(items: seq<Item<Server>>, survivors: set<Id>)
    ensures IdsOf(FinalizedAll(items, survivors)) == IdsOf(items)
    ensures DistinctIds(items) ==> DistinctIds(FinalizedAll(items, survivors))
  {
  }

  lemma SoloOfQuiet(servers: map<Id, Server>, owner: Option<Id>)
    requires forall id | id in servers && owner != Some(id) :: !servers[id].opensExplorer
    ensures Solo(servers, owner) == servers
  {
    forall id | id in servers && owner != Some(id) ensures Quiet(servers[id]) == servers[id] {
    }
  }

  /** Where at most one server opens the explorer, adding them all changes no flag. */
  lemma OneOpenerAdded(items: seq<Item<Server>>, valid: Server -> bool)
    requires DistinctIds(items) && OneOpener(items) && forall i | 0 <= i < |items| :: valid(items[i].value)
    ensures AddedServers(items, {}, valid, map[]) == Added(items, {}, valid, SanitizeOrigin, map[])
  {
    var added, owner := Added(items, {}, valid, SanitizeOrigin, map[]), LastOpener(items, {}, valid);
    LastOpenerIs(items, {}, valid);
    AddedKeys(items, {}, valid, SanitizeOrigin, map[]);
    if owner.Some? {
      LastOpenerOpens(items, valid);
    }
    forall id | id in added && owner != Some(id) ensures !added[id].opensExplorer {
      var i :| 0 <= i < |items| && Accepted(items[i], {}, valid) && items[i].id == id && added[id] == SanitizeOrigin(items[i].value);
    }
    SoloOfQuiet(added, owner);
  }

  lemma {:induction false} LastOpenerOpens(items: seq<Item<Server>>, valid: Server -> bool)
    requires LastOpener(items, {}, valid).Some?
    ensures exists i :: 0 <= i < |items| && items[i].id == LastOpener(items, {}, valid).value && items[i].value.opensExplorer
    decreases |items|
  {
    if LastOpener(items[1..], {}, valid).Some? {
      LastOpenerOpens(items[1..], valid);
      var i :| 0 <= i < |items[1..]| && items[1..][i].id == LastOpener(items[1..], {}, valid).value && items[1..][i].value.opensExplorer;
      assert items[i + 1] == items[1..][i];
    } else {
      assert items[0].value.opensExplorer;
    }
  }

  lemma {:induction false} AddressedOneOpener(servers: seq<Item<Server>>)
    requires OneOpener(servers)
    ensures OneOpener(Addressed(servers))
    decreases |servers|
  {
    if servers != [] {
      var front, last := servers[..|servers| - 1], servers[|servers| - 1];
      AddressedOneOpener(front);
      AddressedAre(front);
      var kept := Addressed(front);
      forall i | 0 <= i < |kept| ensures !(kept[i].value.opensExplorer && last.value.opensExplorer) {
        assert kept[i] in front;
        var j :| 0 <= j < |front| && front[j] == kept[i];
        assert servers[j] == kept[i];
      }
    }
  }

  /** The flag travels with each server. */
  lemma FlagsTravel(src: Snapshot, checks: Checks, mint: Mint, mint': Mint)
    requires OneOpener(src.servers)
    ensures OneOpener(NewServers(Exported(src, mint), checks, mint'))
  {
    ExportIdMapCovers(src, mint);
    ShareIdMapCovers(Exported(src, mint), mint');
    AddressedOneOpener(src.servers);
    var servers := NewServers(Exported(src, mint), checks, mint');
    forall i | 0 <= i < |servers| ensures servers[i].value.opensExplorer == Addressed(src.servers)[i].value.opensExplorer {
    }
  }

  /** What the importing machine ends up with, item by item. */
  lemma ServersLand(src: Snapshot, checks: Checks, mint: Mint, mint': Mint)
    requires Supply(mint) && Supply(mint') && GoodSnapshot(src) && Accepting(checks)
    ensures
      var final := FinalServers(src, checks, mint, mint');
      && DistinctIds(final)
      && ShareImported(EMPTY_WORLD, Exported(src, mint), checks, mint').servers == Added(final, {}, checks.server, SanitizeOrigin, map[])
  {
    var items := NewServers(Exported(src, mint), checks, mint');
    NothingToEnsure(src, mint, mint');
    Survive(src, checks, mint, mint');
    FinalIds(items, LandedIds(items, checks.server));
    FlagsTravel(src, checks, mint, mint');
    OneOpenerAdded(FinalizedAll(items, LandedIds(items, checks.server)), checks.server);
  }

  function FinalServers(src: Snapshot, checks: Checks, mint: Mint, mint': Mint): seq<Item<Server>> {
    var items := NewServers(Exported(src, mint), checks, mint');
    FinalizedAll(items, LandedIds(items, checks.server))
  }

  lemma FinalServersCopied(src: Snapshot, checks: Checks, mint: Mint, mint': Mint)
    requires Supply(mint) && Supply(mint') && GoodSnapshot(src) && Accepting(checks)
    ensures |FinalServers(src, checks, mint, mint')| == |Addressed(src.servers)|
    ensures forall i: nat | i < |Addressed(src.servers)| ::
      ServerCopied(Addressed(src.servers)[i].value, SanitizeOrigin(FinalServers(src, checks, mint, mint')[i].value),
                   Image(src, mint, mint'), IdSet(src.profiles), IdSet(Addressed(src.servers)))
  {
    NewIdsAreImages(src, checks, mint, mint');
    FinalIds(NewServers(Exported(src, mint), checks, mint'), LandedIds(NewServers(Exported(src, mint), checks, mint'), checks.server));
    forall i: nat | i < |Addressed(src.servers)|
      ensures ServerCopied(Addressed(src.servers)[i].value, SanitizeOrigin(FinalServers(src, checks, mint, mint')[i].value),
                           Image(src, mint, mint'), IdSet(src.profiles), IdSet(Addressed(src.servers)))
    {
      ServerArrives(src, checks, mint, mint', i);
    }
  }

  lemma FinalServersArrive(src: Snapshot, checks: Checks, mint: Mint, mint': Mint)
    requires Supply(mint) && Supply(mint') && GoodSnapshot(src) && Accepting(checks)
    requires DistinctIds(FinalServers(src, checks, mint, mint'))
    ensures var after := Added(FinalServers(src, checks, mint, mint'), {}, checks.server, SanitizeOrigin, map[]);
      && ArrivedUnder(IdsOf(Addressed(src.servers)), after.Keys, Image(src, mint, mint'))
      && forall i: nat | i < |Addressed(src.servers)| :: ServerArrived(src, after, Image(src, mint, mint'), i)
  {
    var items := NewServers(Exported(src, mint), checks, mint');
    NewIdsAreImages(src, checks, mint, mint');
    FinalIds(items, LandedIds(items, checks.server));
    ImagesArrive(Addressed(src.servers), FinalServers(src, checks, mint, mint'), checks.server, SanitizeOrigin, Image(src, mint, mint'));
    FinalServersCopied(src, checks, mint, mint');
  }

  lemma ServersArrive(src: Snapshot, checks: Checks, mint: Mint, mint': Mint)
    requires Supply(mint) && Supply(mint') && GoodSnapshot(src) && Accepting(checks)
    ensures var after := ShareImported(EMPTY_WORLD, Exported(src, mint), checks, mint').servers;
      && ArrivedUnder(IdsOf(Addressed(src.servers)), after.Keys, Image(src, mint, mint'))
      && forall i: nat | i < |Addressed(src.servers)| :: ServerArrived(src, after, Image(src, mint, mint'), i)
  {
    ServersLand(src, checks, mint, mint');
    FinalServersArrive(src, checks, mint, mint');
  }

  /** One tunnel's link, through the export's growing map and the import's. */
  lemma TunnelLink(t: Tunnel, hidden: seq<Id>, first: map<Id, Id>, seen: map<Id, Id>, second: map<Id, Id>, image: map<Id, Id>)
    requires forall id :: id in seen <==> id in first || id in hidden
    requires forall id | id in seen && id !in hidden :: seen[id] == first[id] != ""
    requires forall id | id in hidden :: seen[id] !in second
    requires forall id :: id in image <==> id in first && first[id] in second
    requires forall id | id in image :: image[id] == second[first[id]]
    ensures RemapServerLink(ExportedTunnel(t, seen).defaultServerId, second) == TunnelCopy(t, hidden, image).defaultServerId
  {
  }

  /** An id hidden by a tunnel leads nowhere on the importing machine. */
  lemma HiddenLeadsNowhere(src: Snapshot, mint: Mint, mint': Mint, hidden: seq<Id>)
    requires Supply(mint)
    ensures
      var first, second := ExportIdMap(src, mint), ShareIdMap(Exported(src, mint), mint');
      var seen := AssignIds(hidden, For(mint, 4), first);
      && (forall id :: id in seen <==> id in first || id in hidden)
      && (forall id | id in seen && id !in hidden :: seen[id] == first[id])
      && (forall id | id in hidden :: seen[id] !in second)
  {
    var payload := Exported(src, mint);
    var first := ExportIdMap(src, mint);
    var seen := AssignIds(hidden, For(mint, 4), first);
    AssignedFrom(hidden, For(mint, 4), first);
    IdMapFrom(IdsOf(payload.profiles), IdsOf(payload.servers), mint');
    forall id | id in hidden ensures seen[id] !in ShareIdMap(payload, mint') {
      var i: nat :| IdAt(hidden, i, id) && seen[id] == For(mint, 4)(i);
      TunnelIdsAreNotShared(src, mint, i);
    }
  }

  lemma TunnelTravels(src: Snapshot, mint: Mint, mint': Mint, k: nat)
    requires Supply(mint) && Supply(mint') && k < |src.tunnels|
    ensures
      var payload := Exported(src, mint);
      SharedTunnels(payload.tunnels, ShareIdMap(payload, mint'), For(mint', 4))[k]
      == Item(mint'(4, k), TunnelCopy(src.tunnels[k].value, IdsOf(src.tunnels[..k + 1]), Image(src, mint, mint')))
  {
    var payload := Exported(src, mint);
    var first, second := ExportIdMap(src, mint), ShareIdMap(payload, mint');
    var hidden := IdsOf(src.tunnels[..k + 1]);
    HiddenLeadsNowhere(src, mint, mint', hidden);
    IdMapInjective(IdsOf(src.profiles), IdsOf(Addressed(src.servers)), mint);
    TunnelLink(src.tunnels[k].value, hidden, first, AssignIds(hidden, For(mint, 4), first), second, Image(src, mint, mint'));
  }

  /** No record of the export has an id minted for a tunnel. */
  lemma TunnelIdsAreNotShared(src: Snapshot, mint: Mint, i: nat)
    requires Supply(mint)
    ensures mint(4, i) !in IdsOf(Exported(src, mint).profiles) && mint(4, i) !in IdsOf(Exported(src, mint).servers)
  {
    ExportRenames(src, mint);
    IdMapFrom(IdsOf(src.profiles), IdsOf(Addressed(src.servers)), mint);
    var m := ExportIdMap(src, mint);
    assert forall id | id in m :: m[id] != mint(4, i);
  }

  lemma TunnelsArrive(src: Snapshot, checks: Checks, mint: Mint, mint': Mint)
    requires Supply(mint) && Supply(mint') && Accepting(checks)
    ensures var after := ShareImported(EMPTY_WORLD, Exported(src, mint), checks, mint');
      && |after.tunnels| == |src.tunnels|
      && forall k: nat | k < |src.tunnels| :: TunnelArrived(src, after, Image(src, mint, mint'), mint', k)
  {
    var payload := Exported(src, mint);
    NothingToEnsure(src, mint, mint');
    var items := SharedTunnels(payload.tunnels, ShareIdMap(payload, mint'), For(mint', 4));
    assert DistinctIds(items);
    AddedAll(items, checks.tunnel, Same());
    DistinctCount(items);
    forall k: nat | k < |src.tunnels|
      ensures TunnelArrived(src, ShareImported(EMPTY_WORLD, payload, checks, mint'), Image(src, mint, mint'), mint', k)
    {
      TunnelTravels(src, mint, mint', k);
    }
    var after := ShareImported(EMPTY_WORLD, payload, checks, mint').tunnels;
    assert after.Keys == IdSet(items);
  }

  lemma {:induction false} DistinctCount<T>(items: seq<Item<T>>)
    requires DistinctIds(items)
    ensures |IdSet(items)| == |items|
    decreases |items|
  {
    if items != [] {
      var front, last := items[..|items| - 1], items[|items| - 1];
      DistinctCount(front);
      assert IdsOf(items) == IdsOf(front) + [last.id];
      assert IdSet(items) == IdSet(front) + {last.id};
      assert last.id !in IdSet(front);
    }
  }

  /**
   Exporting for sharing and importing the file on an empty machine gives a copy of the graph:
   the addressed servers and the profiles they reference, one to one under an injective
   renaming, with every SSH, IPMI and gateway link where it was, and a jump host or a tunnel
   link present exactly when it names something that was shared.
   */
  lemma ShareRoundTrip(src: Snapshot, checks: Checks, mint: Mint, mint': Mint)
    requires Supply(mint) && Supply(mint') && GoodSnapshot(src) && Accepting(checks)
    ensures Arrived(src, ShareImported(EMPTY_WORLD, Exported(src, mint), checks, mint'), Image(src, mint, mint'), mint')
  {
    ImageOfShared(src, mint, mint');
    ProfilesArrive(src, checks, mint, mint');
    ServersArrive(src, checks, mint, mint');
    TunnelsArrive(src, checks, mint, mint');
  }
}
