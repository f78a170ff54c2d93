/**
 The in-memory core the commands write through. Every deletion sweeps the links that named
 the deleted record, together with the stamps that mirror those links.
 */
module Core {
  import opened Records

  /** The links of a server that name this profile. */
  function LinksToProfile(server: Server, profileId: Id): set<Link> {
    set l | l in server.links && l != Gateway && server.links[l] == profileId
  }

  /** The gateway link of a server, when it names one of these servers. */
  function LinksToServers(server: Server, deleted: set<Id>): set<Link> {
    set l | l in server.links && l == Gateway && server.links[l] in deleted
  }

  function WithoutProfile(server: Server, profileId: Id): Server {
    WithoutLinks(server, LinksToProfile(server, profileId))
  }

  function WithoutServers(server: Server, deleted: set<Id>): Server {
    WithoutLinks(server, LinksToServers(server, deleted))
  }

  function SweptOfProfile(servers: map<Id, Server>, profileId: Id): map<Id, Server> {
    map id | id in servers :: WithoutProfile(servers[id], profileId)
  }

  function SweptOfServers(servers: map<Id, Server>, deleted: set<Id>): map<Id, Server> {
    map id | id in servers :: WithoutServers(servers[id], deleted)
  }

  /**
   What other commands may do to the servers while a save is pending: delete, edit single fields
   of a live record, or save a whole record as a form does, new or over an existing one.
   */
  datatype ServerEvent =
    | ServersRemoved(ids: set<Id>)
    | ProfileRemoved(profileId: Id)
    | Edited(id: Id, name: string, group: Option<string>, rest: string)
    | Saved(id: Id, server: Server)

  function ServersAfter(servers: map<Id, Server>, e: ServerEvent): map<Id, Server> {
    match e
    case ServersRemoved(ids) => SweptOfServers(servers - ids, ids)
    case ProfileRemoved(p) => SweptOfProfile(servers, p)
    case Edited(id, name, group, rest) =>
      if id in servers then servers[id := servers[id].(name := name, group := group, rest := rest)] else servers
    case Saved(id, server) => Placed(servers, id, server)
  }

  function UnlinkSource(source: Source, profileId: Id): Source {
    if source.authProfileId == Some(profileId) then source.(authProfileId := None) else source
  }

  function UnlinkTemplate(template: Template, profileId: Id): Template {
    template.(links := map l | l in template.links && !(l != Gateway && template.links[l] == profileId) :: template.links[l])
  }

  /** The records as loaded; of two under one id the later wins. */
  function Loaded(stored: seq<Item<Server>>): map<Id, Server> {
    if stored == [] then map[]
    else Loaded(stored[..|stored| - 1])[stored[|stored| - 1].id := stored[|stored| - 1].value]
  }

  /** `normalizeFileExplorerAutoOpenOwner`: the last stored record that opens the file explorer. */
  function OpenerOf(stored: seq<Item<Server>>): Option<Id> {
    if stored == [] then None
    else if stored[|stored| - 1].value.opensExplorer then Some(stored[|stored| - 1].id)
    else OpenerOf(stored[..|stored| - 1])
  }

  lemma {:induction false} NoOpener(stored: seq<Item<Server>>)
    requires OpenerOf(stored).None?
    ensures forall id | id in Loaded(stored) :: !Loaded(stored)[id].opensExplorer
    decreases |stored|
  {
    if stored != [] {
      NoOpener(stored[..|stored| - 1]);
    }
  }

  lemma SoloIsSole(stored: seq<Item<Server>>)
    ensures SoleOpener(Solo(Loaded(stored), OpenerOf(stored)))
  {
    if OpenerOf(stored).None? {
      NoOpener(stored);
    }
  }

  class NexusCore {
    var servers: map<Id, Server>
    var tunnels: map<Id, Tunnel>
    var profiles: map<Id, Profile>
    var sources: map<Id, Source>
    var templates: map<Id, Template>

    ghost predicate Valid()
      reads this
    {
      SoleOpener(servers)
    }

    constructor ()
      ensures Valid()
      ensures servers == map[] && tunnels == map[] && profiles == map[] && sources == map[] && templates == map[]
    {
      servers, tunnels, profiles, sources, templates := map[], map[], map[], map[], map[];
    }

    /** `initialize`: of the stored records that open the file explorer, the last keeps the flag. */
    method Initialize(stored: seq<Item<Server>>)
      modifies this`servers
      ensures Valid() && servers == Solo(Loaded(stored), OpenerOf(stored))
    {
      var owner: Option<Id> := None;
      var loaded: map<Id, Server> := map[];
      var k := 0;
      while k < |stored|
        invariant 0 <= k <= |stored|
        invariant loaded == Loaded(stored[..k]) && owner == OpenerOf(stored[..k])
      {
        assert stored[..k + 1][..k] == stored[..k];
        loaded := loaded[stored[k].id := stored[k].value];
        if stored[k].value.opensExplorer {
          owner := Some(stored[k].id);
        }
        k := k + 1;
      }
      assert stored[..k] == stored;
      servers := Solo(loaded, owner);
      SoloIsSole(stored);
    }

    method AddOrUpdateServer(id: Id, server: Server)
      modifies this`servers
      ensures servers == Placed(old(servers), id, server)
      ensures old(Valid()) ==> Valid()
    {
      if server.opensExplorer {
        var todo := servers.Keys;
        while todo != {}
          invariant todo <= servers.Keys == old(servers).Keys
          invariant forall k | k in servers && k != id ::
            servers[k] == if k in todo then old(servers)[k] else Quiet(old(servers)[k])
          decreases |todo|
        {
          var k :| k in todo;
          if k != id && servers[k].opensExplorer {
            servers := servers[k := Quiet(servers[k])];
          }
          todo := todo - {k};
        }
      }
      servers := servers[id := server];
      assert servers == Placed(old(servers), id, server);
      if old(Valid()) {
        PlacedKeepsSole(old(servers), id, server);
      }
    }

    method ClearGatewayReferencesTo(deleted: set<Id>)
      modifies this`servers
      ensures servers == SweptOfServers(old(servers), deleted)
      ensures old(Valid()) ==> Valid()
    {
      var todo := servers.Keys;
      while todo != {}
        invariant todo <= servers.Keys == old(servers).Keys
        invariant forall id | id in servers :: 
          servers[id] == if id in todo then old(servers)[id] else WithoutServers(old(servers)[id], deleted)
        decreases |todo|
      {
        var id :| id in todo;
        var server := servers[id];
        if Gateway in server.links && server.links[Gateway] in deleted {
          servers := servers[id := WithoutLinks(server, LinksToServers(server, deleted))];
        } else {
          assert LinksToServers(server, deleted) == {};
          WithoutNoLinks(server);
        }
        todo := todo - {id};
      }
    }

    /** `removeServer`, and the server half of a folder cascade: drop the records, sweep the gateways. */
    method RemoveServers(ids: set<Id>)
      modifies this`servers
      ensures servers == SweptOfServers(old(servers) - ids, ids)
      ensures old(Valid()) ==> Valid()
    {
      servers := servers - ids;
      ClearGatewayReferencesTo(ids);
    }

    method ClearProfileLinks(profileId: Id)
      modifies this`servers
      ensures servers == SweptOfProfile(old(servers), profileId)
      ensures old(Valid()) ==> Valid()
    {
      var todo := servers.Keys;
      while todo != {}
        invariant todo <= servers.Keys == old(servers).Keys
        invariant forall id | id in servers :: 
          servers[id] == if id in todo then old(servers)[id] else WithoutProfile(old(servers)[id], profileId)
        decreases |todo|
      {
        var id :| id in todo;
        var server := servers[id];
        var lost := LinksToProfile(server, profileId);
        if lost != {} {
          servers := servers[id := WithoutLinks(server, lost)];
        } else {
          WithoutNoLinks(server);
        }
        todo := todo - {id};
      }
    }

    /** A removal whose save rejects puts the record back. */
    method RemoveInventorySource(id: Id, saved: bool) returns (removed: bool)
      modifies this`sources
      ensures removed == saved
      ensures sources == if saved then old(sources) - {id} else old(sources)
    {
      var previous := sources;
      sources := sources - {id};
      if !saved {
        sources := previous;
      }
      removed := saved;
    }

    method RemoveAuthProfile(profileId: Id)
      modifies this`servers, this`profiles, this`sources, this`templates
      ensures profiles == old(profiles) - {profileId}
      ensures servers == SweptOfProfile(old(servers), profileId)
      ensures old(Valid()) ==> Valid()
      ensures sources == map id | id in old(sources) :: UnlinkSource(old(sources)[id], profileId)
      ensures templates == map id | id in old(templates) :: UnlinkTemplate(old(templates)[id], profileId)
    {
      profiles := profiles - {profileId};
      ClearProfileLinks(profileId);
      sources := map id | id in sources :: UnlinkSource(sources[id], profileId);
      templates := map id | id in templates :: UnlinkTemplate(templates[id], profileId);
    }

    /** Another command, as it is performed here. */
    method Perform(e: ServerEvent)
      requires Valid()
      modifies this
      ensures Valid() && servers == ServersAfter(old(servers), e)
      ensures profiles == if e.ProfileRemoved? then old(profiles) - {e.profileId} else old(profiles)
    {
      match e {
        case ServersRemoved(ids) => RemoveServers(ids);
        case ProfileRemoved(p) => RemoveAuthProfile(p);
        case Edited(id, name, group, rest) =>
          if id in servers {
            var next := servers[id].(name := name, group := group, rest := rest);
            PlacedAlone(servers, id, next);
            AddOrUpdateServer(id, next);
          }
        case Saved(id, server) => AddOrUpdateServer(id, server);
      }
    }
  }

  /** Deleting servers leaves no gateway naming one of them, and breaks no other link. */
  lemma RemovingServersKeepsLinks(servers: map<Id, Server>, profiles: set<Id>, ids: set<Id>)
    requires NoDanglingServers(servers, profiles)
    ensures NoDanglingServers(SweptOfServers(servers - ids, ids), profiles)
  {
    var after := SweptOfServers(servers - ids, ids);
    forall id | id in after ensures LinksResolve(after[id].links, profiles, after.Keys) {
      assert LinksResolve(servers[id].links, profiles, servers.Keys);
    }
  }

  /** Deleting a profile leaves no link naming it, and breaks no other link. */
  lemma RemovingProfileKeepsLinks(servers: map<Id, Server>, profiles: set<Id>, profileId: Id)
    requires NoDanglingServers(servers, profiles)
    ensures NoDanglingServers(SweptOfProfile(servers, profileId), profiles - {profileId})
  {
    var after := SweptOfProfile(servers, profileId);
    forall id | id in after ensures LinksResolve(after[id].links, profiles - {profileId}, after.Keys) {
      assert LinksResolve(servers[id].links, profiles, servers.Keys);
    }
  }

  // ---- what each operation leaves -----------------------------------------------------

  function GatewayAmong(links: map<Link, Id>, ids: set<Id>): set<Link> {
    if Gateway in links && links[Gateway] in ids then {Gateway} else {}
  }

  function AuthLinksTo(links: map<Link, Id>, profileId: Id): set<Link> {
    set l | l in links && (l == Auth || l == IpmiAuth) && links[l] == profileId
  }

  lemma WithoutServersExactly(server: Server, ids: set<Id>)
    ensures LinksCleared(server, WithoutServers(server, ids), GatewayAmong(server.links, ids))
  {
    assert LinksToServers(server, ids) == GatewayAmong(server.links, ids);
    WithoutLinksClears(server, LinksToServers(server, ids));
  }

  lemma WithoutProfileExactly(server: Server, profileId: Id)
    ensures LinksCleared(server, WithoutProfile(server, profileId), AuthLinksTo(server.links, profileId))
  {
    assert LinksToProfile(server, profileId) == AuthLinksTo(server.links, profileId);
    WithoutLinksClears(server, LinksToProfile(server, profileId));
  }

  /**
   Deleting servers takes exactly those, and from a remaining one exactly a gateway that names
   one of them, with the stamps that name it too.
   */
  lemma ServersRemovedExactly(servers: map<Id, Server>, ids: set<Id>, id: Id)
    ensures
      var after := SweptOfServers(servers - ids, ids);
      && (id in after <==> id in servers && id !in ids)
      && (id in after ==> LinksCleared(servers[id], after[id], GatewayAmong(servers[id].links, ids)))
  {
    if id in servers && id !in ids {
      WithoutServersExactly(servers[id], ids);
    }
  }

  /** Deleting a profile takes from a server exactly the two auth links that name it, with their stamps. */
  lemma ProfileRemovedFromServers(servers: map<Id, Server>, profileId: Id, id: Id)
    ensures
      var after := SweptOfProfile(servers, profileId);
      && (id in after <==> id in servers)
      && (id in after ==> LinksCleared(servers[id], after[id], AuthLinksTo(servers[id].links, profileId)))
  {
    if id in servers {
      WithoutProfileExactly(servers[id], profileId);
    }
  }

  /** And from a source or a template exactly the links that name it. */
  lemma ProfileRemovedElsewhere(source: Source, template: Template, profileId: Id)
    ensures
      var s, t := UnlinkSource(source, profileId), UnlinkTemplate(template, profileId);
      && s.(authProfileId := source.authProfileId) == source
      && s.authProfileId == (if source.authProfileId == Some(profileId) then None else source.authProfileId)
      && t.(links := template.links) == template
      && (forall l :: l in t.links <==>
            l in template.links && !((l == Auth || l == IpmiAuth) && template.links[l] == profileId))
      && (forall l | l in t.links :: t.links[l] == template.links[l])
  {
  }

  /** Putting a record in puts it in whole; of the others only the flag of an opener goes, and only to another opener. */
  lemma PlacedExactly(servers: map<Id, Server>, id: Id, server: Server)
    ensures
      var after := Placed(servers, id, server);
      && (forall k :: k in after <==> k == id || k in servers)
      && after[id] == server
      && forall k | k in servers && k != id ::
           && after[k].(opensExplorer := servers[k].opensExplorer) == servers[k]
           && (after[k].opensExplorer <==> servers[k].opensExplorer && !server.opensExplorer)
  {
  }

  /** The last record stored under an id. */
  ghost predicate LastUnder(stored: seq<Item<Server>>, i: nat) {
    i < |stored| && forall j | i < j < |stored| :: stored[j].id != stored[i].id
  }

  lemma {:induction false} LoadedLast(stored: seq<Item<Server>>, i: nat)
    requires LastUnder(stored, i)
    ensures stored[i].id in Loaded(stored) && Loaded(stored)[stored[i].id] == stored[i].value
    decreases |stored|
  {
    if i < |stored| - 1 {
      LoadedLast(stored[..|stored| - 1], i);
    }
  }

  lemma {:induction false} LoadedKeys(stored: seq<Item<Server>>, id: Id)
    ensures id in Loaded(stored) <==> exists i :: 0 <= i < |stored| && stored[i].id == id
    decreases |stored|
  {
    if stored != [] {
      var front, last := stored[..|stored| - 1], stored[|stored| - 1];
      LoadedKeys(front, id);
      assert last.id == id ==> stored[|stored| - 1].id == id;
      if i :| 0 <= i < |front| && front[i].id == id {
        assert stored[i].id == id;
      }
    }
  }

  /** This one opens the file explorer and no later one does. */
  ghost predicate LastFlagged(stored: seq<Item<Server>>, i: nat) {
    i < |stored| && stored[i].value.opensExplorer && forall j | i < j < |stored| :: !stored[j].value.opensExplorer
  }

  lemma {:induction false} OpenerIsLast(stored: seq<Item<Server>>, i: nat)
    requires LastFlagged(stored, i)
    ensures OpenerOf(stored) == Some(stored[i].id)
    decreases |stored|
  {
    if i < |stored| - 1 {
      assert !stored[|stored| - 1].value.opensExplorer;
      OpenerIsLast(stored[..|stored| - 1], i);
    }
  }

  lemma SomeLastFlagged(stored: seq<Item<Server>>, i: nat)
    requires i < |stored| && stored[i].value.opensExplorer
    ensures exists n: nat :: n >= i && LastFlagged(stored, n)
    decreases |stored| - i
  {
    if j :| i < j < |stored| && stored[j].value.opensExplorer {
      SomeLastFlagged(stored, j);
    } else {
      assert LastFlagged(stored, i);
    }
  }

  /** The record opens the file explorer as stored, and nothing stored later does. */
  ghost predicate KeepsFlag(stored: seq<Item<Server>>, i: nat)
    requires i < |stored|
  {
    stored[i].value.opensExplorer && forall j | i < j < |stored| :: !stored[j].value.opensExplorer
  }

  lemma OpenerKeepsFlag(stored: seq<Item<Server>>, i: nat)
    requires LastUnder(stored, i) && stored[i].value.opensExplorer
    ensures OpenerOf(stored).Some? && (OpenerOf(stored).value == stored[i].id <==> KeepsFlag(stored, i))
  {
    SomeLastFlagged(stored, i);
    var n: nat :| n >= i && LastFlagged(stored, n);
    OpenerIsLast(stored, n);
    assert n > i ==> stored[n].id != stored[i].id;
  }

  /**
   Loading keeps the last record of each id, whole but for the flag: it opens the file explorer
   exactly when it was stored so and nothing stored later was.
   */
  lemma InitializedExactly(stored: seq<Item<Server>>, i: nat)
    requires LastUnder(stored, i)
    ensures
      var id, after := stored[i].id, Solo(Loaded(stored), OpenerOf(stored));
      && id in after && Quiet(after[id]) == Quiet(stored[i].value)
      && (after[id].opensExplorer <==> KeepsFlag(stored, i))
  {
    LoadedLast(stored, i);
    if stored[i].value.opensExplorer {
      OpenerKeepsFlag(stored, i);
    }
  }

  /** Nothing else is loaded. */
  lemma InitializedKeys(stored: seq<Item<Server>>, id: Id)
    ensures id in Solo(Loaded(stored), OpenerOf(stored)) <==> exists i :: 0 <= i < |stored| && stored[i].id == id
  {
    LoadedKeys(stored, id);
  }
}
