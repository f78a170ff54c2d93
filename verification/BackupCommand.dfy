/**
 The import command itself, working step by step on the core and the vault, each step proved
 against the function that says what the whole of it does.
 */
module BackupCommand {
  import opened Records
  import opened Core
  import opened BackupImport
  import opened BackupSecrets
  import opened BackupStopped

  function WorldOf(core: NexusCore): World
    reads core
  {
    World(core.servers, core.tunnels, core.profiles, core.sources, core.templates)
  }

  class SecretVault {
    var entries: Vault

    constructor ()
      ensures entries == map[]
    {
      entries := map[];
    }

    method Store(key: SecretKey, secret: string, failing: set<SecretKey>) returns (ok: bool)
      modifies this
      ensures ok == (key !in failing)
      ensures entries == if ok then old(entries)[key := secret] else old(entries)
    {
      ok := key !in failing;
      if ok {
        entries := entries[key := secret];
      }
    }

    method Delete(key: SecretKey, failing: set<SecretKey>) returns (ok: bool)
      modifies this
      ensures ok == (key !in failing)
      ensures entries == if ok then old(entries) - {key} else old(entries)
    {
      ok := key !in failing;
      if ok {
        entries := entries - {key};
      }
    }
  }

  function HoldOf(core: NexusCore, vault: SecretVault): Hold
    reads core, vault
  {
    Hold(WorldOf(core), vault.entries)
  }

  // ---- the wipe -----------------------------------------------------------------------

  method WipeProfile(core: NexusCore, vault: SecretVault, id: Id)
    modifies core, vault
    ensures core.profiles == old(core.profiles) - {id}
    ensures core.servers.Keys == old(core.servers).Keys && core.templates.Keys == old(core.templates).Keys
    ensures core.tunnels == old(core.tunnels) && SourceKeys(core.sources) == SourceKeys(old(core.sources))
    ensures vault.entries == old(vault.entries) - ProfileKeys({id})
  {
    var _ := vault.Delete(RecordSecret(ProfilePassword, id), {});
    var _ := vault.Delete(RecordSecret(ProfilePassphrase, id), {});
    assert ProfileKeys({id}) == {RecordSecret(ProfilePassword, id), RecordSecret(ProfilePassphrase, id)};
    core.RemoveAuthProfile(id);
  }

  lemma ProfileKeysSplit(vault: Vault, wiped: set<SecretKey>, todo: set<Id>, id: Id)
    requires id in todo
    ensures vault - wiped - ProfileKeys({id}) == vault - (wiped + ProfileKeys({id}))
    ensures wiped + ProfileKeys({id}) + ProfileKeys(todo - {id}) == wiped + ProfileKeys(todo)
  {
    assert ProfileKeys(todo) == ProfileKeys({id}) + ProfileKeys(todo - {id});
  }

  method WipeProfiles(core: NexusCore, vault: SecretVault)
    modifies core, vault
    ensures core.profiles == map[]
    ensures core.servers.Keys == old(core.servers).Keys && core.templates.Keys == old(core.templates).Keys
    ensures core.tunnels == old(core.tunnels) && SourceKeys(core.sources) == SourceKeys(old(core.sources))
    ensures vault.entries == old(vault.entries) - ProfileKeys(old(core.profiles).Keys)
  {
    var todo := core.profiles.Keys;
    ghost var all, wiped: set<SecretKey> := ProfileKeys(todo), {};
    ghost var sourceKeys := SourceKeys(core.sources);
    while todo != {}
      invariant core.profiles.Keys == todo
      invariant core.servers.Keys == old(core.servers).Keys && core.templates.Keys == old(core.templates).Keys
      invariant core.tunnels == old(core.tunnels) && SourceKeys(core.sources) == sourceKeys
      invariant vault.entries == old(vault.entries) - wiped
      invariant wiped + ProfileKeys(todo) == all
      decreases |todo|
    {
      var id :| id in todo;
      ProfileKeysSplit(old(vault.entries), wiped, todo, id);
      WipeProfile(core, vault, id);
      wiped := wiped + ProfileKeys({id});
      todo := todo - {id};
    }
    assert ProfileKeys(todo) == {};
    assert wiped + {} == wiped;
  }

  function FieldKeys(id: Id, fields: set<string>): set<SecretKey> {
    set f | f in fields :: SourceSecret(id, f)
  }

  method WipeSourceSecrets(vault: SecretVault, sourceId: Id, fields: set<string>)
    modifies vault
    ensures vault.entries == old(vault.entries) - FieldKeys(sourceId, fields)
  {
    var todo := fields;
    while todo != {}
      invariant todo <= fields
      invariant vault.entries == old(vault.entries) - FieldKeys(sourceId, fields - todo)
      decreases |todo|
    {
      var f :| f in todo;
      var _ := vault.Delete(SourceSecret(sourceId, f), {});
      todo := todo - {f};
    }
    assert fields - todo == fields;
  }

  lemma SourceKeysSplit(vault: Vault, wiped: set<SecretKey>, sources: map<Id, Source>, id: Id)
    requires id in sources
    ensures var fields := FieldKeys(id, sources[id].secretFieldIds);
            && vault - wiped - fields == vault - (wiped + fields)
            && wiped + SourceKeys(sources) == wiped + fields + SourceKeys(sources - {id})
  {
    var fields := FieldKeys(id, sources[id].secretFieldIds);
    assert SourceKeys(sources) == fields + SourceKeys(sources - {id});
  }

  method WipeSource(core: NexusCore, vault: SecretVault, id: Id)
    requires id in core.sources
    modifies vault, core`sources
    ensures core.sources == old(core.sources) - {id}
    ensures vault.entries == old(vault.entries) - FieldKeys(id, old(core.sources)[id].secretFieldIds)
  {
    WipeSourceSecrets(vault, id, core.sources[id].secretFieldIds);
    var _ := core.RemoveInventorySource(id, true);
  }

  method WipeSources(core: NexusCore, vault: SecretVault)
    modifies vault, core`sources
    ensures core.sources == map[]
    ensures vault.entries == old(vault.entries) - SourceKeys(old(core.sources))
  {
    var todo := core.sources.Keys;
    ghost var all, wiped: set<SecretKey> := SourceKeys(core.sources), {};
    while todo != {}
      invariant core.sources.Keys == todo
      invariant vault.entries == old(vault.entries) - wiped
      invariant wiped + SourceKeys(core.sources) == all
      decreases |todo|
    {
      var id :| id in todo;
      SourceKeysSplit(old(vault.entries), wiped, core.sources, id);
      wiped := wiped + FieldKeys(id, core.sources[id].secretFieldIds);
      WipeSource(core, vault, id);
      todo := todo - {id};
    }
    NoSourceKeys(core.sources, wiped);
  }

  lemma NoSourceKeys(sources: map<Id, Source>, wiped: set<SecretKey>)
    requires sources.Keys == {}
    ensures wiped + SourceKeys(sources) == wiped && sources == map[]
  {
  }

  method WipeServers(core: NexusCore)
    modifies core
    ensures core.Valid() && core.servers == map[] && core.tunnels == old(core.tunnels) && core.profiles == old(core.profiles)
    ensures core.sources == old(core.sources) && core.templates == old(core.templates)
  {
    var todo := core.servers.Keys;
    while todo != {}
      invariant core.servers.Keys == todo
      invariant core.tunnels == old(core.tunnels) && core.profiles == old(core.profiles)
      invariant core.sources == old(core.sources) && core.templates == old(core.templates)
      decreases |todo|
    {
      var id :| id in todo;
      core.RemoveServers({id});
      todo := todo - {id};
    }
  }

  /** Replace mode: every record goes, and with it the secrets of profiles and sources. */
  method Wipe(core: NexusCore, vault: SecretVault)
    modifies core, vault
    ensures core.Valid() && HoldOf(core, vault) == Hold(EMPTY_WORLD, Wiped(old(HoldOf(core, vault)), Replace))
  {
    WipeServers(core);
    core.tunnels := map[];
    WipeProfiles(core, vault);
    WipeSources(core, vault);
    core.templates := map[];
  }

  // ---- adding -------------------------------------------------------------------------

  /** One item further: what is accepted of the rest. */
  lemma AcceptedIdsStep<T>(items: seq<Item<T>>, k: nat, existing: set<Id>, valid: T -> bool)
    requires k < |items|
    ensures AcceptedIds(items[k..], existing, valid)
         == (if Accepted(items[k], existing, valid) then [items[k].id] else []) + AcceptedIds(items[k + 1..], existing, valid)
  {
    assert items[k..][0] == items[k] && items[k..][1..] == items[k + 1..];
  }

  lemma AddedStep<T>(items: seq<Item<T>>, k: nat, existing: set<Id>, valid: T -> bool, clean: T -> T, bucket: map<Id, T>)
    requires k < |items|
    ensures Added(items[k..], existing, valid, clean, bucket)
         == Added(items[k + 1..], existing, valid, clean,
                  if Accepted(items[k], existing, valid) then bucket[items[k].id := clean(items[k].value)] else bucket)
  {
    assert items[k..][0] == items[k] && items[k..][1..] == items[k + 1..];
  }

  lemma AddedServersNext(items: seq<Item<Server>>, k: nat, existing: set<Id>, valid: Server -> bool, bucket: map<Id, Server>)
    requires k < |items|
    ensures AddedServers(items[k..], existing, valid, bucket)
         == AddedServers(items[k + 1..], existing, valid,
              if Accepted(items[k], existing, valid) then Placed(bucket, items[k].id, SanitizeOrigin(items[k].value)) else bucket)
  {
    assert items[k..][0] == items[k] && items[k..][1..] == items[k + 1..];
    AddedServersStep(items[k..], existing, valid, bucket);
  }

  /** `ensureId` on every item of a bucket. */
  method EnsureAllIds<T(0)>(items: seq<Item<T>>, mint: nat -> Id) returns (ensured: seq<Item<T>>)
    ensures ensured == EnsureIds(items, mint)
  {
    ensured := [];
    var k := 0;
    while k < |items|
      invariant 0 <= k <= |items| && ensured == EnsureIds(items, mint)[..k]
    {
      ensured := ensured + [if Blank(items[k].id) then items[k].(id := mint(k)) else items[k]];
      k := k + 1;
    }
  }

  /**
   `importPreservingIds` on one bucket; also the items with their final ids. Where it is cut,
   a validator or an `add` throws after so many items.
   */
  method ImportPreservingIds<T(0)>(items: seq<Item<T>>, existing: set<Id>, valid: T -> bool, clean: T -> T,
                                   bucket: map<Id, T>, mint: nat -> Id, cut: Option<nat>)
    returns (after: map<Id, T>, imported: seq<Id>, skipped: nat, ensured: seq<Item<T>>)
    ensures ensured == EnsureIds(items, mint)
    ensures after == Added(Part(ensured, cut), existing, valid, clean, bucket)
    ensures imported == AcceptedIds(Part(ensured, cut), existing, valid)
    ensures skipped + |imported| == |Part(items, cut)|
  {
    ensured := EnsureAllIds(items, mint);
    after, imported, skipped := AddAccepted(ensured, existing, valid, clean, bucket, cut);
  }

  method AddAccepted<T>(items: seq<Item<T>>, existing: set<Id>, valid: T -> bool, clean: T -> T, bucket: map<Id, T>, cut: Option<nat>)
    returns (after: map<Id, T>, imported: seq<Id>, skipped: nat)
    ensures after == Added(Part(items, cut), existing, valid, clean, bucket)
    ensures imported == AcceptedIds(Part(items, cut), existing, valid) && skipped + |imported| == |Part(items, cut)|
  {
    ghost var dealt := Part(items, cut);
    after, imported, skipped := bucket, [], 0;
    var k := 0;
    while k < |items| && cut != Some(k)
      invariant 0 <= k <= |dealt|
      invariant Added(dealt[k..], existing, valid, clean, after) == Added(dealt, existing, valid, clean, bucket)
      invariant imported + AcceptedIds(dealt[k..], existing, valid) == AcceptedIds(dealt, existing, valid)
      invariant skipped + |imported| == k
    {
      assert k < |dealt| && dealt[k] == items[k];
      AcceptedIdsStep(dealt, k, existing, valid);
      AddedStep(dealt, k, existing, valid, clean, after);
      if items[k].id in existing || !valid(items[k].value) {
        skipped := skipped + 1;
      } else {
        after := after[items[k].id := clean(items[k].value)];
        imported := imported + [items[k].id];
      }
      k := k + 1;
    }
    assert k == |dealt| && dealt[k..] == [];
  }

  /** The same over the servers, each put into the core sanitized. */
  method ImportServers(core: NexusCore, items: seq<Item<Server>>, existing: set<Id>, valid: Server -> bool, mint: nat -> Id, cut: Option<nat>)
    returns (imported: seq<Id>, skipped: nat)
    requires core.Valid()
    modifies core`servers
    ensures core.Valid()
    ensures core.servers == AddedServers(Part(EnsureIds(items, mint), cut), existing, valid, old(core.servers))
    ensures imported == AcceptedIds(Part(EnsureIds(items, mint), cut), existing, valid)
    ensures skipped + |imported| == |Part(items, cut)|
  {
    var ensured := EnsureAllIds(items, mint);
    imported, skipped := AddServers(core, ensured, existing, valid, cut);
  }

  method AddServers(core: NexusCore, items: seq<Item<Server>>, existing: set<Id>, valid: Server -> bool, cut: Option<nat>)
    returns (imported: seq<Id>, skipped: nat)
    requires core.Valid()
    modifies core`servers
    ensures core.Valid() && core.servers == AddedServers(Part(items, cut), existing, valid, old(core.servers))
    ensures imported == AcceptedIds(Part(items, cut), existing, valid) && skipped + |imported| == |Part(items, cut)|
  {
    ghost var dealt := Part(items, cut);
    imported, skipped := [], 0;
    var k := 0;
    while k < |items| && cut != Some(k)
      invariant 0 <= k <= |dealt| && core.Valid()
      invariant AddedServers(dealt[k..], existing, valid, core.servers) == AddedServers(dealt, existing, valid, old(core.servers))
      invariant imported + AcceptedIds(dealt[k..], existing, valid) == AcceptedIds(dealt, existing, valid)
      invariant skipped + |imported| == k
    {
      assert k < |dealt| && dealt[k] == items[k];
      AcceptedIdsStep(dealt, k, existing, valid);
      AddedServersNext(dealt, k, existing, valid, core.servers);
      if items[k].id in existing || !valid(items[k].value) {
        skipped := skipped + 1;
      } else {
        core.AddOrUpdateServer(items[k].id, SanitizeOrigin(items[k].value));
        imported := imported + [items[k].id];
      }
      k := k + 1;
    }
    assert k == |dealt| && dealt[k..] == [];
    NothingMoreToAdd(dealt[k..], existing, valid, core.servers);
  }

  lemma NothingMoreToAdd(items: seq<Item<Server>>, existing: set<Id>, valid: Server -> bool, bucket: map<Id, Server>)
    requires items == []
    ensures AddedServers(items, existing, valid, bucket) == bucket
  {
  }

  // ---- the sweep ----------------------------------------------------------------------

  /** One stamp, dropped when it names the id being cleared. */
  function DropStamp(s: Stamps, l: Link, id: Id): Stamps {
    if l in s.links && s.links[l] == id then s.(links := s.links - {l}) else s
  }

  function DropOriginStamp(o: Claim<Origin>, l: Link, id: Id): Claim<Origin> {
    if o.Present? then Present(o.value.(stamps := DropStamp(o.value.stamps, l, id))) else o
  }

  function DropMarkerStamp(d: Claim<Detached>, l: Link, id: Id): Claim<Detached> {
    if d.Present? then Present(d.value.(stamps := DropStamp(d.value.stamps, l, id))) else d
  }

  predicate Dangles(server: Server, l: Link, known: set<Id>) {
    l in server.links && server.links[l] != "" && server.links[l] !in known
  }

  /** One clear of the chain: the link of `cleared`, and the stamps naming what it named. */
  method ClearOne(server: Server, cleared: Server, l: Link) returns (next: Server)
    requires l in server.links
    ensures next == cleared.(links := cleared.links - {l},
                             origin := DropOriginStamp(cleared.origin, l, server.links[l]),
                             formerlySynced := DropMarkerStamp(cleared.formerlySynced, l, server.links[l]))
  {
    next := cleared.(links := cleared.links - {l});
    if next.origin.Present? && l in next.origin.value.stamps.links && next.origin.value.stamps.links[l] == server.links[l] {
      var base := next.origin.value;
      next := next.(origin := Present(base.(stamps := base.stamps.(links := base.stamps.links - {l}))));
    }
    if next.formerlySynced.Present? && l in next.formerlySynced.value.stamps.links && next.formerlySynced.value.stamps.links[l] == server.links[l] {
      var base := next.formerlySynced.value;
      next := next.(formerlySynced := Present(base.(stamps := base.stamps.(links := base.stamps.links - {l}))));
    }
  }

  function DropStampIf(s: Stamps, links: map<Link, Id>, l: Link, lost: set<Link>): Stamps {
    if l in lost && l in links then DropStamp(s, l, links[l]) else s
  }

  lemma ChainedStamps(s: Stamps, links: map<Link, Id>, lost: set<Link>)
    ensures DropStampIf(DropStampIf(DropStampIf(s, links, Auth, lost), links, IpmiAuth, lost), links, Gateway, lost)
            == Unstamp(s, links, lost)
  {
    var one := DropStampIf(s, links, Auth, lost);
    var two := DropStampIf(one, links, IpmiAuth, lost);
    var three := DropStampIf(two, links, Gateway, lost);
    forall l: Link ensures l in three.links <==> l in Unstamp(s, links, lost).links {
      DroppedStamp(s, links, Auth, lost, l);
      DroppedStamp(one, links, IpmiAuth, lost, l);
      DroppedStamp(two, links, Gateway, lost, l);
    }
    assert three.links == Unstamp(s, links, lost).links;
  }

  lemma DroppedStamp(s: Stamps, links: map<Link, Id>, dropped: Link, lost: set<Link>, l: Link)
    ensures var after := DropStampIf(s, links, dropped, lost);
      && after.(links := s.links) == s
      && (l in after.links <==> l in s.links && !(l == dropped && l in lost && l in links && links[l] == s.links[l]))
      && (l in after.links ==> after.links[l] == s.links[l])
  {
  }

  function OriginIf(o: Claim<Origin>, links: map<Link, Id>, l: Link, lost: set<Link>): Claim<Origin> {
    if l in lost && l in links then DropOriginStamp(o, l, links[l]) else o
  }

  function MarkerIf(d: Claim<Detached>, links: map<Link, Id>, l: Link, lost: set<Link>): Claim<Detached> {
    if l in lost && l in links then DropMarkerStamp(d, l, links[l]) else d
  }

  lemma ChainedOrigin(o: Claim<Origin>, links: map<Link, Id>, lost: set<Link>)
    ensures OriginIf(OriginIf(OriginIf(o, links, Auth, lost), links, IpmiAuth, lost), links, Gateway, lost)
            == UnstampOrigin(o, links, lost)
  {
    if o.Present? {
      ChainedStamps(o.value.stamps, links, lost);
    }
  }

  lemma ChainedMarker(d: Claim<Detached>, links: map<Link, Id>, lost: set<Link>)
    ensures MarkerIf(MarkerIf(MarkerIf(d, links, Auth, lost), links, IpmiAuth, lost), links, Gateway, lost)
            == UnstampMarker(d, links, lost)
  {
    if d.Present? {
      ChainedStamps(d.value.stamps, links, lost);
    }
  }

  function ClearedIf(server: Server, cleared: Server, l: Link, lost: set<Link>): Server {
    cleared.(links := if l in lost then cleared.links - {l} else cleared.links,
             origin := OriginIf(cleared.origin, server.links, l, lost),
             formerlySynced := MarkerIf(cleared.formerlySynced, server.links, l, lost))
  }

  /** Clears chained off one another come to the same as clearing everything at once. */
  lemma ChainedClearsAtOnce(server: Server, lost: set<Link>)
    ensures ClearedIf(server, ClearedIf(server, ClearedIf(server, server, Auth, lost), IpmiAuth, lost), Gateway, lost)
            == WithoutLinks(server, lost)
  {
    ChainedOrigin(server.origin, server.links, lost);
    ChainedMarker(server.formerlySynced, server.links, lost);
    var auth := if Auth in lost then server.links - {Auth} else server.links;
    var ipmi := if IpmiAuth in lost then auth - {IpmiAuth} else auth;
    var gateway := if Gateway in lost then ipmi - {Gateway} else ipmi;
    forall l: Link ensures l in gateway <==> l in server.links - lost {
      match l case Auth => case IpmiAuth => case Gateway =>
    }
    assert gateway == server.links - lost;
  }

  method ClearDangling(server: Server, profiles: set<Id>, servers: set<Id>) returns (cleared: Server)
    ensures cleared == SweptServer(server, profiles, servers)
  {
    ghost var lost := DanglingLinks(server.links, profiles, servers);
    cleared := server;
    if Dangles(server, Auth, profiles) {
      cleared := ClearOne(server, cleared, Auth);
    }
    assert cleared == ClearedIf(server, server, Auth, lost);
    if Dangles(server, IpmiAuth, profiles) {
      cleared := ClearOne(server, cleared, IpmiAuth);
    }
    if Dangles(server, Gateway, servers) {
      cleared := ClearOne(server, cleared, Gateway);
    }
    ChainedClearsAtOnce(server, lost);
  }

  method SweepServers(core: NexusCore)
    requires core.Valid()
    modifies core`servers
    ensures core.Valid() && core.servers == map id | id in old(core.servers) ::
              SweptServer(old(core.servers)[id], core.profiles.Keys, old(core.servers).Keys)
  {
    var profiles, servers := core.profiles.Keys, core.servers.Keys;
    var todo := servers;
    while todo != {}
      invariant core.Valid() && todo <= servers == core.servers.Keys
      invariant forall id | id in servers ::
        core.servers[id] == if id in todo then old(core.servers)[id] else SweptServer(old(core.servers)[id], profiles, servers)
      decreases |todo|
    {
      var id :| id in todo;
      SweepServer(core, id, profiles, servers);
      todo := todo - {id};
    }
  }

  method SweepServer(core: NexusCore, id: Id, profiles: set<Id>, servers: set<Id>)
    requires core.Valid() && id in core.servers
    modifies core`servers
    ensures core.Valid() && core.servers == old(core.servers)[id := SweptServer(old(core.servers)[id], profiles, servers)]
  {
    var cleared := ClearDangling(core.servers[id], profiles, servers);
    PlacedAlone(core.servers, id, cleared);
    core.AddOrUpdateServer(id, cleared);
  }

  function ProfileSwept(source: Source, profiles: set<Id>): Source {
    if source.authProfileId.Some? && source.authProfileId.value != "" && source.authProfileId.value !in profiles
    then source.(authProfileId := None) else source
  }

  method SweepSourceProfiles(core: NexusCore)
    modifies core`sources
    ensures core.sources == map id | id in old(core.sources) :: ProfileSwept(old(core.sources)[id], core.profiles.Keys)
  {
    var todo := core.sources.Keys;
    while todo != {}
      invariant todo <= core.sources.Keys == old(core.sources).Keys
      invariant forall id | id in core.sources ::
        core.sources[id] == if id in todo then old(core.sources)[id] else ProfileSwept(old(core.sources)[id], core.profiles.Keys)
      decreases |todo|
    {
      var id :| id in todo;
      var link := core.sources[id].authProfileId;
      if link.Some? && link.value != "" && link.value !in core.profiles {
        core.sources := core.sources[id := core.sources[id].(authProfileId := None)];
      }
      todo := todo - {id};
    }
  }

  method SweepTemplates(core: NexusCore)
    modifies core`templates
    ensures core.templates == map id | id in old(core.templates) :: SweptTemplate(old(core.templates)[id], core.profiles.Keys)
  {
    var todo := core.templates.Keys;
    while todo != {}
      invariant todo <= core.templates.Keys == old(core.templates).Keys
      invariant forall id | id in core.templates ::
        core.templates[id] == if id in todo then old(core.templates)[id] else SweptTemplate(old(core.templates)[id], core.profiles.Keys)
      decreases |todo|
    {
      var id :| id in todo;
      var swept := SweepTemplate(core.templates[id], core.profiles.Keys);
      core.templates := core.templates[id := swept];
      todo := todo - {id};
    }
  }

  method SweepTemplate(template: Template, profiles: set<Id>) returns (swept: Template)
    ensures swept == SweptTemplate(template, profiles)
  {
    var links := template.links;
    if Auth in links && links[Auth] !in profiles {
      links := links - {Auth};
    }
    if IpmiAuth in links && links[IpmiAuth] !in profiles {
      links := links - {IpmiAuth};
    }
    forall l: Link ensures l in links <==> l in SweptTemplate(template, profiles).links {
      match l case Auth => case IpmiAuth => case Gateway =>
    }
    assert links == SweptTemplate(template, profiles).links;
    swept := template.(links := links);
  }

  lemma KnownRulesStep(kept: seq<Rule>, rules: seq<Rule>, k: nat, templates: set<Id>)
    requires k < |rules|
    ensures kept + KnownRules(rules[k..], templates)
         == (if rules[k].templateId in templates then kept + [rules[k]] else kept) + KnownRules(rules[k + 1..], templates)
  {
    assert rules[k..][1..] == rules[k + 1..];
  }

  method FilterRules(rules: seq<Rule>, templates: set<Id>) returns (kept: seq<Rule>)
    ensures kept == KnownRules(rules, templates)
  {
    kept := [];
    var k := 0;
    while k < |rules|
      invariant 0 <= k <= |rules|
      invariant kept + KnownRules(rules[k..], templates) == KnownRules(rules, templates)
    {
      KnownRulesStep(kept, rules, k, templates);
      if rules[k].templateId in templates {
        kept := kept + [rules[k]];
      }
      k := k + 1;
    }
  }

  function RulesSwept(source: Source, templates: set<Id>): Source {
    source.(templateRules := if source.templateRules.Some? then Some(KnownRules(source.templateRules.value, templates)) else None)
  }

  method SweepSourceRules(core: NexusCore)
    modifies core`sources
    ensures core.sources == map id | id in old(core.sources) :: RulesSwept(old(core.sources)[id], core.templates.Keys)
  {
    var todo := core.sources.Keys;
    while todo != {}
      invariant todo <= core.sources.Keys == old(core.sources).Keys
      invariant forall id | id in core.sources ::
        core.sources[id] == if id in todo then old(core.sources)[id] else RulesSwept(old(core.sources)[id], core.templates.Keys)
      decreases |todo|
    {
      var id :| id in todo;
      var source := core.sources[id];
      if source.templateRules.Some? {
        var kept := FilterRules(source.templateRules.value, core.templates.Keys);
        core.sources := core.sources[id := source.(templateRules := Some(kept))];
      }
      todo := todo - {id};
    }
  }

  lemma SourceSweepsCompose(source: Source, profiles: set<Id>, templates: set<Id>)
    ensures RulesSwept(ProfileSwept(source, profiles), templates) == SweptSource(source, profiles, templates)
  {
  }

  /** The two passes over the sources come to one sweep. */
  lemma SourcePassesCompose(sources: map<Id, Source>, profiles: set<Id>, templates: set<Id>)
    ensures
      var relinked := map id | id in sources :: ProfileSwept(sources[id], profiles);
      (map id | id in relinked :: RulesSwept(relinked[id], templates))
      == map id | id in sources :: SweptSource(sources[id], profiles, templates)
  {
    forall id | id in sources
      ensures RulesSwept(ProfileSwept(sources[id], profiles), templates) == SweptSource(sources[id], profiles, templates)
    {
      SourceSweepsCompose(sources[id], profiles, templates);
    }
  }

  method SweepDangling(core: NexusCore)
    requires core.Valid()
    modifies core
    ensures core.Valid() && WorldOf(core) == Swept(old(WorldOf(core)))
  {
    SweepServers(core);
    SweepSourceProfiles(core);
    SweepTemplates(core);
    assert core.templates.Keys == old(core.templates).Keys;
    SweepSourceRules(core);
    SourcePassesCompose(old(core.sources), core.profiles.Keys, core.templates.Keys);
  }

  // ---- the secrets --------------------------------------------------------------------

  /** The store loop of one bucket; stops at the first store that rejects. */
  method StoreBucket(vault: SecretVault, entries: seq<Entry>, wanted: set<SecretKey>, failing: set<SecretKey>)
    returns (stored: set<SecretKey>, ok: bool)
    modifies vault
    ensures Attempt(vault.entries, stored, ok) == StoreEntries(entries, wanted, failing, Attempt(old(vault.entries), {}, true))
  {
    stored, ok := {}, true;
    var k := 0;
    while k < |entries|
      invariant 0 <= k <= |entries|
      invariant StoreEntries(entries[k..], wanted, failing, Attempt(vault.entries, stored, true))
             == StoreEntries(entries, wanted, failing, Attempt(old(vault.entries), {}, true))
    {
      assert entries[k..][1..] == entries[k + 1..];
      if entries[k].key in wanted {
        ok := vault.Store(entries[k].key, entries[k].secret, failing);
        if !ok {
          return;
        }
        stored := stored + {entries[k].key};
      }
      k := k + 1;
    }
  }

  method DeleteStored(vault: SecretVault, stored: set<SecretKey>, faults: Faults)
    modifies vault
    ensures vault.entries == TakenBack(Attempt(old(vault.entries), stored, false), faults)
  {
    var todo := stored;
    while todo != {}
      invariant todo <= stored
      invariant vault.entries == old(vault.entries) - (stored - todo - faults.deletes)
      decreases |todo|
    {
      var key :| key in todo;
      var _ := vault.Delete(key, faults.deletes);
      todo := todo - {key};
    }
    assert stored - todo - faults.deletes == stored - faults.deletes;
  }

  /** A server already converted has no origin, so the next one is rewritten if it has. */
  lemma ConvertOneMore(servers: map<Id, Server>, imported: seq<Id>, k: nat, sourceId: Id, tally: Tally, clock: Id -> int)
    requires k < |imported|
    ensures
      var now, next := ConvertServers(servers, imported[..k], sourceId, tally, clock), ConvertServers(servers, imported[..k + 1], sourceId, tally, clock);
      var id := imported[k];
      if id in now && OriginNames(now[id], sourceId) then next == now[id := Converted(now[id], tally, clock)] else next == now
  {
    var now, next := ConvertServers(servers, imported[..k], sourceId, tally, clock), ConvertServers(servers, imported[..k + 1], sourceId, tally, clock);
    var id := imported[k];
    assert imported[..k + 1] == imported[..k] + [id];
    forall x | x in servers && x != id ensures next[x] == now[x] {
    }
  }

  /** Turns the servers this run imported for a removed source into plain ones with a receipt. */
  method ConvertImported(core: NexusCore, sourceId: Id, tally: Tally, clock: Id -> int)
    requires core.Valid()
    modifies core`servers
    ensures core.Valid() && core.servers == ConvertServers(old(core.servers), tally.servers, sourceId, tally, clock)
  {
    var k := 0;
    while k < |tally.servers|
      invariant 0 <= k <= |tally.servers| && core.Valid()
      invariant core.servers == ConvertServers(old(core.servers), tally.servers[..k], sourceId, tally, clock)
    {
      var id := tally.servers[k];
      ConvertOneMore(old(core.servers), tally.servers, k, sourceId, tally, clock);
      if id in core.servers && OriginNames(core.servers[id], sourceId) {
        var converted := Converted(core.servers[id], tally, clock);
        PlacedAlone(core.servers, id, converted);
        core.AddOrUpdateServer(id, converted);
      }
      k := k + 1;
    }
    assert tally.servers[..k] == tally.servers;
  }

  method RestoreSourceSecrets(core: NexusCore, vault: SecretVault, bucket: SourceBucket, tally: Tally, faults: Faults, clock: Id -> int)
    requires core.Valid()
    modifies core, vault
    ensures core.Valid() && HoldOf(core, vault) == RestoreSource(old(HoldOf(core, vault)), bucket, tally, faults, clock)
  {
    if bucket.sourceId !in tally.sources {
      return;
    }
    var stored, ok := StoreBucket(vault, EntriesOf(bucket), Declared(bucket.sourceId, tally), faults.stores);
    if !ok {
      DeleteStored(vault, stored, faults);
      var removed := core.RemoveInventorySource(bucket.sourceId, bucket.sourceId !in faults.removes);
      if removed {
        ConvertImported(core, bucket.sourceId, tally, clock);
      }
    }
  }

  /** A kind's bucket stores into the vault what the chain of buckets is specified to store. */
  lemma StoredSoFar(entries: seq<Entry>, wanted: set<SecretKey>, failing: set<SecretKey>, vault: Vault, stored: set<SecretKey>)
    ensures var alone := StoreEntries(entries, wanted, failing, Attempt(vault, {}, true));
            var onTop := StoreEntries(entries, wanted, failing, Attempt(vault, stored, true));
            onTop == Attempt(alone.vault, stored + alone.stored, alone.ok)
  {
    StoredShift(entries, wanted, failing, Attempt(vault, {}, true), stored);
    assert stored + {} == stored;
  }

  lemma {:induction false} StoredShift(entries: seq<Entry>, wanted: set<SecretKey>, failing: set<SecretKey>, a: Attempt, more: set<SecretKey>)
    ensures StoreEntries(entries, wanted, failing, a.(stored := more + a.stored))
         == (var r := StoreEntries(entries, wanted, failing, a); r.(stored := more + r.stored))
    decreases |entries|
  {
    if entries != [] {
      var a' := a.(vault := a.vault[entries[0].key := entries[0].secret], stored := a.stored + {entries[0].key});
      assert more + a'.stored == (more + a.stored) + {entries[0].key};
      StoredShift(entries[1..], wanted, failing, if entries[0].key in wanted then a' else a, more);
    }
  }

  method RestoreFlat(vault: SecretVault, secrets: Secrets, tally: Tally, faults: Faults) returns (ok: bool)
    modifies vault
    ensures var r := RestoreKinds(KINDS, secrets, tally, faults, Attempt(old(vault.entries), {}, true));
            vault.entries == r.vault && ok == r.ok
  {
    ghost var stored: set<SecretKey> := {};
    ghost var start := Attempt(vault.entries, {}, true);
    ok := true;
    var k := 0;
    while k < |KINDS| && ok
      invariant 0 <= k <= |KINDS|
      invariant RestoreKinds(KINDS[k..], secrets, tally, faults, Attempt(vault.entries, stored, ok))
             == RestoreKinds(KINDS, secrets, tally, faults, start)
      decreases |KINDS| - k
    {
      assert KINDS[k..][1..] == KINDS[k + 1..];
      StoredSoFar(KindEntries(KINDS[k], secrets), Wanted(KINDS[k], tally), faults.stores, vault.entries, stored);
      var these;
      these, ok := StoreBucket(vault, KindEntries(KINDS[k], secrets), Wanted(KINDS[k], tally), faults.stores);
      stored := stored + these;
      k := k + 1;
    }
  }

  method RestoreAllSecrets(core: NexusCore, vault: SecretVault, secrets: Secrets, tally: Tally, faults: Faults, clock: Id -> int)
    returns (completed: bool)
    requires core.Valid()
    modifies core, vault
    ensures core.Valid()
    ensures Outcome(HoldOf(core, vault), completed) == SecretsRestored(old(HoldOf(core, vault)), Some(secrets), tally, faults, clock)
  {
    completed := RestoreFlat(vault, secrets, tally, faults);
    if completed {
      ghost var start := HoldOf(core, vault);
      var k := 0;
      while k < |secrets.sources|
        invariant 0 <= k <= |secrets.sources| && core.Valid()
        invariant RestoreSources(HoldOf(core, vault), secrets.sources[k..], tally, faults, clock)
               == RestoreSources(start, secrets.sources, tally, faults, clock)
      {
        assert secrets.sources[k..][1..] == secrets.sources[k + 1..];
        RestoreSourceSecrets(core, vault, secrets.sources[k], tally, faults, clock);
        k := k + 1;
      }
    }
  }

  // ---- the command --------------------------------------------------------------------

  method SourcesById(items: seq<Item<Source>>) returns (byId: map<Id, Source>)
    ensures byId == ById(items)
  {
    byId := map[];
    var k := 0;
    while k < |items|
      invariant 0 <= k <= |items| && byId == ById(items[..k])
    {
      assert items[..k + 1][..k] == items[..k];
      byId := byId[items[k].id := items[k].value];
      k := k + 1;
    }
    assert items[..k] == items;
  }

  /** The buckets in order, up to where the import is cut; then the sweep, if it is not. */
  method ImportRecords(core: NexusCore, p: Payload, existing: set<Id>, checks: Checks, mint: (nat, nat) -> Id, cut: Option<Cut>)
    returns (tally: Tally, imported: nat, skipped: nat)
    requires core.Valid()
    modifies core
    ensures core.Valid() && WorldOf(core) == Reached(old(WorldOf(core)), existing, Prepared(p, mint), checks, cut)
    ensures cut.None? ==> tally == TallyOfItems(Prepared(p, mint), existing, checks)
    ensures cut.None? ==> imported + skipped == |p.servers| + |p.tunnels| + |p.sources| + |p.profiles| + |p.templates|
  {
    tally, imported, skipped := Tally([], [], [], map[]), 0, 0;
    ghost var q := Prepared(p, mint);
    ghost var base := WorldOf(core);
    var serverIds, s0 := ImportServers(core, p.servers, existing, checks.server, For(mint, 0), CutAt(cut, 0));
    if CutIn(cut, 0) {
      NothingBeyond(base, existing, q, checks, cut.value);
      return;
    }
    var tunnels, tunnelIds, s1, q1 :=
      ImportPreservingIds(p.tunnels, existing, checks.tunnel, Same(), core.tunnels, For(mint, 1), CutAt(cut, 1));
    core.tunnels := tunnels;
    if CutIn(cut, 1) {
      NothingBeyond(base, existing, q, checks, cut.value);
      return;
    }
    var sources, sourceIds, s2, kept :=
      ImportPreservingIds(StripManagedFolders(p.sources), existing, checks.source, Same(), core.sources, For(mint, 2), CutAt(cut, 2));
    core.sources := sources;
    if CutIn(cut, 2) {
      NothingBeyond(base, existing, q, checks, cut.value);
      return;
    }
    var profiles, profileIds, s3, q3 :=
      ImportPreservingIds(p.profiles, existing, checks.profile, Same(), core.profiles, For(mint, 3), CutAt(cut, 3));
    core.profiles := profiles;
    if CutIn(cut, 3) {
      NothingBeyond(base, existing, q, checks, cut.value);
      return;
    }
    var templates, templateIds, s4, q4 :=
      ImportPreservingIds(p.templates, existing, checks.template, Same(), core.templates, For(mint, 4), CutAt(cut, 4));
    core.templates := templates;
    if CutIn(cut, 4) {
      return;
    }
    SweepDangling(core);
    var byId := SourcesById(kept);
    tally := Tally(serverIds, profileIds, sourceIds, byId);
    imported := |serverIds| + |tunnelIds| + |sourceIds| + |profileIds| + |templateIds|;
    skipped := s0 + s1 + s2 + s3 + s4;
  }

  /** `importMergeReplaceLocked`: wipe, add, sweep, then restore the secrets; it may be cut short while adding. */
  method ImportMergeReplace(core: NexusCore, vault: SecretVault, run: Run, cut: Option<Cut>) returns (completed: bool)
    requires core.Valid()
    modifies core, vault
    ensures core.Valid()
    ensures Outcome(HoldOf(core, vault), completed) == ImportedOrStopped(old(HoldOf(core, vault)), run, cut)
  {
    var existing: set<Id> := {};
    if run.mode.Merge? {
      existing := AllIds(WorldOf(core));
    } else {
      Wipe(core, vault);
    }
    var tally, imported, skipped := ImportRecords(core, run.payload, existing, run.checks, run.mint, cut);
    if cut.Some? {
      return false;
    }
    assert HoldOf(core, vault) == RecordsImported(old(HoldOf(core, vault)), run);
    assert tally == RunTally(old(HoldOf(core, vault)), run);
    completed := true;
    if run.secrets.Some? {
      completed := RestoreAllSecrets(core, vault, run.secrets.value, tally, run.faults, run.clock);
    }
  }
}
