/**
 Importing a backup, in merge or in replace mode: records keep their ids, and afterwards the
 links that came to point at nothing are swept together with the stamps that mirror them.
 */
module BackupImport {
  import opened Records
  import opened Core
  import opened Text

  datatype Mode = Merge | Replace

  /** The reference-bearing buckets of the core; tunnels stand for the buckets without references. */
  datatype World = World(
    servers: map<Id, Server>,
    tunnels: map<Id, Tunnel>,
    profiles: map<Id, Profile>,
    sources: map<Id, Source>,
    templates: map<Id, Template>)

  datatype Payload = Payload(
    servers: seq<Item<Server>>,
    tunnels: seq<Item<Tunnel>>,
    sources: seq<Item<Source>>,
    profiles: seq<Item<Profile>>,
    templates: seq<Item<Template>>)

  /** The record validators, taken as given. */
  datatype Checks = Checks(
    server: Server -> bool,
    tunnel: Tunnel -> bool,
    source: Source -> bool,
    profile: Profile -> bool,
    template: Template -> bool)

  // ---- adding records -----------------------------------------------------------------

  predicate Blank(id: Id) {
    Trim(id) == ""
  }

  /** `ensureId` on every item: a blank id is replaced by a minted one. */
  function EnsureIds<T>(items: seq<Item<T>>, mint: nat -> Id): seq<Item<T>> {
    seq(|items|, i requires 0 <= i < |items| => if Blank(items[i].id) then items[i].(id := mint(i)) else items[i])
  }

  predicate Accepted<T>(item: Item<T>, existing: set<Id>, valid: T -> bool) {
    item.id !in existing && valid(item.value)
  }

  /** The bucket after the accepted items have been added in order. */
  function Added<T>(items: seq<Item<T>>, existing: set<Id>, valid: T -> bool, clean: T -> T, bucket: map<Id, T>): map<Id, T>
    decreases |items|
  {
    if items == [] then bucket
    else Added(items[1..], existing, valid, clean,
               if Accepted(items[0], existing, valid) then bucket[items[0].id := clean(items[0].value)] else bucket)
  }

  function AcceptedIds<T>(items: seq<Item<T>>, existing: set<Id>, valid: T -> bool): seq<Id> {
    if items == [] then []
    else (if Accepted(items[0], existing, valid) then [items[0].id] else []) + AcceptedIds(items[1..], existing, valid)
  }

  /** A malformed origin or marker is stripped; so is a sound marker beside a malformed origin. */
  function SanitizeOrigin(server: Server): Server {
    server.(
      origin := if server.origin.Malformed? then Absent else server.origin,
      formerlySynced :=
        if server.formerlySynced.Malformed? || server.origin.Malformed? then Absent else server.formerlySynced)
  }

  /** Folder ownership is never taken from a file, whatever shape it arrives in. */
  function StripManagedFolders(items: seq<Item<Source>>): seq<Item<Source>> {
    seq(|items|, i requires 0 <= i < |items| => items[i].(value := items[i].value.(managedFolders := Absent)))
  }

  lemma {:induction false} AddedKeys<T>(items: seq<Item<T>>, existing: set<Id>, valid: T -> bool, clean: T -> T, bucket: map<Id, T>)
    ensures var after := Added(items, existing, valid, clean, bucket);
            && after.Keys == bucket.Keys + (set i | 0 <= i < |items| && Accepted(items[i], existing, valid) :: items[i].id)
            && forall id | id in after ::
                 || (id in bucket && after[id] == bucket[id])
                 || exists i :: 0 <= i < |items| && Accepted(items[i], existing, valid)
                      && items[i].id == id && after[id] == clean(items[i].value)
    decreases |items|
  {
    if items != [] {
      var next := if Accepted(items[0], existing, valid) then bucket[items[0].id := clean(items[0].value)] else bucket;
      AddedKeys(items[1..], existing, valid, clean, next);
      assert forall i :: 0 <= i < |items[1..]| ==> items[1..][i] == items[i + 1];
      var after := Added(items, existing, valid, clean, bucket);
      var ids := set i | 0 <= i < |items| && Accepted(items[i], existing, valid) :: items[i].id;
      var ids' := set i | 0 <= i < |items[1..]| && Accepted(items[1..][i], existing, valid) :: items[1..][i].id;
      assert ids == ids' + (if Accepted(items[0], existing, valid) then {items[0].id} else {}) by {
        forall id | id in ids ensures id in ids' + (if Accepted(items[0], existing, valid) then {items[0].id} else {}) {
          var i :| 0 <= i < |items| && Accepted(items[i], existing, valid) && items[i].id == id;
          if i > 0 {
            assert items[1..][i - 1].id == id;
          }
        }
        forall id | id in ids' ensures id in ids {
          var i :| 0 <= i < |items[1..]| && Accepted(items[1..][i], existing, valid) && items[1..][i].id == id;
          assert items[i + 1].id == id;
        }
      }
      forall id | id in after
        ensures || (id in bucket && after[id] == bucket[id])
                || exists i :: 0 <= i < |items| && Accepted(items[i], existing, valid)
                     && items[i].id == id && after[id] == clean(items[i].value)
      {
        if !(id in next && after[id] == next[id]) {
          var i :| 0 <= i < |items[1..]| && Accepted(items[1..][i], existing, valid)
                   && items[1..][i].id == id && after[id] == clean(items[1..][i].value);
          assert items[i + 1] == items[1..][i];
        }
      }
    }
  }

  lemma {:induction false} AcceptedIdsAre<T>(items: seq<Item<T>>, existing: set<Id>, valid: T -> bool)
    ensures forall id :: id in AcceptedIds(items, existing, valid) <==>
              exists i :: 0 <= i < |items| && Accepted(items[i], existing, valid) && items[i].id == id
  {
    if items != [] {
      AcceptedIdsAre(items[1..], existing, valid);
      assert forall i :: 0 <= i < |items[1..]| ==> items[1..][i] == items[i + 1];
      forall id
        ensures id in AcceptedIds(items, existing, valid) <==>
              exists i :: 0 <= i < |items| && Accepted(items[i], existing, valid) && items[i].id == id
      {
        if id in AcceptedIds(items[1..], existing, valid) {
          var i :| 0 <= i < |items[1..]| && Accepted(items[1..][i], existing, valid) && items[1..][i].id == id;
          assert items[i + 1].id == id;
        }
        if i :| 0 <= i < |items| && Accepted(items[i], existing, valid) && items[i].id == id {
          if i > 0 {
            assert items[1..][i - 1].id == id;
          }
        }
      }
    }
  }

  /** Once every item is either rejected or already there, adding changes nothing. */
  lemma {:induction false} AddedNothing<T>(items: seq<Item<T>>, existing: set<Id>, valid: T -> bool, clean: T -> T, bucket: map<Id, T>)
    requires forall i | 0 <= i < |items| :: !Accepted(items[i], existing, valid)
    ensures Added(items, existing, valid, clean, bucket) == bucket
    decreases |items|
  {
    if items != [] {
      AddedNothing(items[1..], existing, valid, clean, bucket);
    }
  }

  // ---- adding servers -----------------------------------------------------------------

  /** The last accepted server that opens the file explorer. */
  function LastOpener(items: seq<Item<Server>>, existing: set<Id>, valid: Server -> bool): Option<Id> {
    if items == [] then None
    else
      var later := LastOpener(items[1..], existing, valid);
      if later.Some? then later
      else if Accepted(items[0], existing, valid) && items[0].value.opensExplorer then Some(items[0].id)
      else None
  }

  /** The servers after the accepted ones have been put in: of those that open the explorer, the last one does. */
  function AddedServers(items: seq<Item<Server>>, existing: set<Id>, valid: Server -> bool, bucket: map<Id, Server>): map<Id, Server> {
    Solo(Added(items, existing, valid, SanitizeOrigin, bucket), LastOpener(items, existing, valid))
  }

  /** Some accepted item opens the file explorer. */
  ghost predicate BringsOpener(items: seq<Item<Server>>, existing: set<Id>, valid: Server -> bool) {
    exists i :: 0 <= i < |items| && Accepted(items[i], existing, valid) && items[i].value.opensExplorer
  }

  lemma {:induction false} LastOpenerIs(items: seq<Item<Server>>, existing: set<Id>, valid: Server -> bool)
    ensures LastOpener(items, existing, valid).Some? <==> BringsOpener(items, existing, valid)
    ensures LastOpener(items, existing, valid).Some? ==> LastOpener(items, existing, valid).value in AcceptedIds(items, existing, valid)
    decreases |items|
  {
    if items != [] {
      LastOpenerIs(items[1..], existing, valid);
      assert forall i :: 0 <= i < |items[1..]| ==> items[1..][i] == items[i + 1];
      if BringsOpener(items, existing, valid) {
        var i :| 0 <= i < |items| && Accepted(items[i], existing, valid) && items[i].value.opensExplorer;
        assert i > 0 ==> items[1..][i - 1] == items[i];
      }
      if BringsOpener(items[1..], existing, valid) {
        var i :| 0 <= i < |items[1..]| && Accepted(items[1..][i], existing, valid) && items[1..][i].value.opensExplorer;
        assert items[i + 1] == items[1..][i];
      }
    }
  }

  /** What adding leaves under an id depends on the bucket only where no item has that id. */
  lemma {:induction false} AddedOver<T>(items: seq<Item<T>>, existing: set<Id>, valid: T -> bool, clean: T -> T,
                                        a: map<Id, T>, b: map<Id, T>, id: Id)
    requires a.Keys == b.Keys
    ensures
      var x, y := Added(items, existing, valid, clean, a), Added(items, existing, valid, clean, b);
      && x.Keys == y.Keys
      && (id in AcceptedIds(items, existing, valid) ==> id in x && x[id] == y[id])
      && (id !in AcceptedIds(items, existing, valid) ==>
            (id in x <==> id in a) && (id in x ==> x[id] == a[id] && y[id] == b[id]))
    decreases |items|
  {
    if items != [] {
      var accepted := Accepted(items[0], existing, valid);
      var a' := if accepted then a[items[0].id := clean(items[0].value)] else a;
      var b' := if accepted then b[items[0].id := clean(items[0].value)] else b;
      AddedOver(items[1..], existing, valid, clean, a', b', id);
    }
  }

  /** Putting the servers in one by one, each opener silencing the others, comes to the last one alone opening. */
  lemma AddedServersStep(items: seq<Item<Server>>, existing: set<Id>, valid: Server -> bool, bucket: map<Id, Server>)
    requires items != []
    ensures
      AddedServers(items, existing, valid, bucket)
      == AddedServers(items[1..], existing, valid,
           if Accepted(items[0], existing, valid) then Placed(bucket, items[0].id, SanitizeOrigin(items[0].value)) else bucket)
  {
    var id, server, rest := items[0].id, SanitizeOrigin(items[0].value), items[1..];
    if Accepted(items[0], existing, valid) && server.opensExplorer {
      var plain, placed := bucket[id := server], Placed(bucket, id, server);
      var left, right := AddedServers(items, existing, valid, bucket), AddedServers(rest, existing, valid, placed);
      LastOpenerIs(rest, existing, valid);
      AddedOver(rest, existing, valid, SanitizeOrigin, plain, placed, id);
      assert left.Keys == right.Keys;
      forall k | k in left ensures left[k] == right[k] {
        AddedOver(rest, existing, valid, SanitizeOrigin, plain, placed, k);
        if LastOpener(rest, existing, valid).None? && k in AcceptedIds(rest, existing, valid) {
          AddedQuietly(rest, existing, valid, placed, k);
        }
      }
    }
  }

  /** Where no opener is added, what is added does not open. */
  lemma AddedQuietly(items: seq<Item<Server>>, existing: set<Id>, valid: Server -> bool, bucket: map<Id, Server>, id: Id)
    requires LastOpener(items, existing, valid).None? && id in AcceptedIds(items, existing, valid)
    ensures id in Added(items, existing, valid, SanitizeOrigin, bucket)
    ensures !Added(items, existing, valid, SanitizeOrigin, bucket)[id].opensExplorer
  {
    LastOpenerIs(items, existing, valid);
    AddedOver(items, existing, valid, SanitizeOrigin, bucket, QuietAll(bucket), id);
    AddedKeys(items, existing, valid, SanitizeOrigin, QuietAll(bucket));
  }

  /** Flag aside, a server there was there before or is an accepted item. */
  lemma AddedServerFrom(items: seq<Item<Server>>, existing: set<Id>, valid: Server -> bool, bucket: map<Id, Server>, id: Id)
    requires id in AddedServers(items, existing, valid, bucket)
    ensures
      var server := Quiet(AddedServers(items, existing, valid, bucket)[id]);
      || (id in bucket && server == Quiet(bucket[id]))
      || exists i :: 0 <= i < |items| && Accepted(items[i], existing, valid) && items[i].id == id
           && server == Quiet(SanitizeOrigin(items[i].value))
  {
    AddedKeys(items, existing, valid, SanitizeOrigin, bucket);
    var plain := Added(items, existing, valid, SanitizeOrigin, bucket)[id];
    if !(id in bucket && plain == bucket[id]) {
      var i :| 0 <= i < |items| && Accepted(items[i], existing, valid) && items[i].id == id && plain == SanitizeOrigin(items[i].value);
      assert Quiet(plain) == Quiet(SanitizeOrigin(items[i].value));
    }
  }

  /** Of the servers there at most one opens the file explorer, if that was so before. */
  lemma AddingKeepsSole(items: seq<Item<Server>>, existing: set<Id>, valid: Server -> bool, bucket: map<Id, Server>)
    requires SoleOpener(bucket)
    ensures SoleOpener(AddedServers(items, existing, valid, bucket))
  {
    if LastOpener(items, existing, valid).None? {
      LastOpenerIs(items, existing, valid);
      AddedKeys(items, existing, valid, SanitizeOrigin, bucket);
    }
  }

  /** A server under an id nothing was added under keeps all but the flag, which it loses to an opener. */
  lemma AddingSilencesOthers(items: seq<Item<Server>>, existing: set<Id>, valid: Server -> bool, bucket: map<Id, Server>, id: Id)
    requires id in bucket && id !in AcceptedIds(items, existing, valid)
    ensures id in AddedServers(items, existing, valid, bucket)
    ensures AddedServers(items, existing, valid, bucket)[id]
         == if BringsOpener(items, existing, valid) then Quiet(bucket[id]) else bucket[id]
  {
    LastOpenerIs(items, existing, valid);
    AddedOver(items, existing, valid, SanitizeOrigin, bucket, bucket, id);
  }

  // ---- sweeping -----------------------------------------------------------------------

  function SweptServer(server: Server, profiles: set<Id>, servers: set<Id>): Server {
    WithoutLinks(server, DanglingLinks(server.links, profiles, servers))
  }

  function SweptSource(source: Source, profiles: set<Id>, templates: set<Id>): Source {
    source.(
      authProfileId :=
        if source.authProfileId.Some? && source.authProfileId.value != "" && source.authProfileId.value !in profiles
        then None else source.authProfileId,
      templateRules :=
        if source.templateRules.Some? then Some(KnownRules(source.templateRules.value, templates)) else None)
  }

  function KnownRules(rules: seq<Rule>, templates: set<Id>): seq<Rule> {
    if rules == [] then []
    else (if rules[0].templateId in templates then [rules[0]] else []) + KnownRules(rules[1..], templates)
  }

  /** Only the two profile links of a template are swept; its gateway is resolved at sync time. */
  function SweptTemplate(template: Template, profiles: set<Id>): Template {
    template.(links := map l | l in template.links && (l == Gateway || template.links[l] in profiles) :: template.links[l])
  }

  function Swept(w: World): World {
    w.(
      servers := map id | id in w.servers :: SweptServer(w.servers[id], w.profiles.Keys, w.servers.Keys),
      sources := map id | id in w.sources :: SweptSource(w.sources[id], w.profiles.Keys, w.templates.Keys),
      templates := map id | id in w.templates :: SweptTemplate(w.templates[id], w.profiles.Keys))
  }

  predicate TemplatesKnown(source: Source, templates: set<Id>) {
    source.templateRules.Some? ==> RulesKnown(source.templateRules.value, templates)
  }

  predicate SourceResolves(source: Source, profiles: set<Id>) {
    source.authProfileId.Some? && source.authProfileId.value != "" ==> source.authProfileId.value in profiles
  }

  predicate TemplateResolves(template: Template, profiles: set<Id>) {
    forall l | l in template.links && l != Gateway :: template.links[l] in profiles
  }

  /** Nothing names a missing profile, gateway server or template. */
  ghost predicate ReferencesResolve(w: World) {
    && NoDanglingServers(w.servers, w.profiles.Keys)
    && (forall id | id in w.sources ::
          SourceResolves(w.sources[id], w.profiles.Keys) && TemplatesKnown(w.sources[id], w.templates.Keys))
    && (forall id | id in w.templates :: TemplateResolves(w.templates[id], w.profiles.Keys))
  }

  lemma {:induction false} KnownRulesAreKnown(rules: seq<Rule>, templates: set<Id>)
    ensures forall r :: r in KnownRules(rules, templates) <==> r in rules && r.templateId in templates
    ensures (forall i | 0 <= i < |rules| :: rules[i].templateId in templates) ==> KnownRules(rules, templates) == rules
  {
    if rules != [] {
      assert rules == [rules[0]] + rules[1..];
      KnownRulesAreKnown(rules[1..], templates);
    }
  }

  /** From any world at all, the sweep leaves no reference dangling. */
  lemma SweepResolvesEverything(w: World)
    ensures ReferencesResolve(Swept(w))
  {
    var s := Swept(w);
    assert s.servers.Keys == w.servers.Keys && s.templates.Keys == w.templates.Keys;
    forall id | id in s.servers ensures LinksResolve(s.servers[id].links, s.profiles.Keys, s.servers.Keys) {
    }
    forall id | id in s.sources
      ensures SourceResolves(s.sources[id], s.profiles.Keys) && TemplatesKnown(s.sources[id], s.templates.Keys)
    {
      if w.sources[id].templateRules.Some? {
        var rules := w.sources[id].templateRules.value;
        KnownRulesAreKnown(rules, w.templates.Keys);
        var kept := KnownRules(rules, w.templates.Keys);
        forall i | 0 <= i < |kept| ensures kept[i].templateId in s.templates.Keys {
          assert kept[i] in kept;
        }
      }
    }
  }

  /**
   The sweep takes no more than it must from a server: a link that resolves stays, and a stamp
   goes only together with the link naming the same id.
   */
  lemma ServerSweepTakesOnlyDangling(server: Server, profiles: set<Id>, servers: set<Id>, l: Link)
    ensures var after := SweptServer(server, profiles, servers);
      && (l in after.links <==> l in server.links && (server.links[l] == "" || server.links[l] in Bucket(l, profiles, servers)))
      && (l in after.links ==> after.links[l] == server.links[l])
      && after.(links := server.links, origin := server.origin, formerlySynced := server.formerlySynced) == server
      && (server.origin.Present? ==>
            && after.origin.Present?
            && var before, now := server.origin.value.stamps.links, after.origin.value.stamps.links;
               if l in server.links && l !in after.links && l in before && before[l] == server.links[l]
               then l !in now
               else (l in now <==> l in before) && (l in now ==> now[l] == before[l]))
      && (server.formerlySynced.Present? ==>
            && after.formerlySynced.Present?
            && var before, now := server.formerlySynced.value.stamps.links, after.formerlySynced.value.stamps.links;
               if l in server.links && l !in after.links && l in before && before[l] == server.links[l]
               then l !in now
               else (l in now <==> l in before) && (l in now ==> now[l] == before[l]))
  {
  }

  lemma {:induction false} KnownRulesInOrder(rules: seq<Rule>, templates: set<Id>)
    ensures Sublist(KnownRules(rules, templates), rules)
    decreases |rules|
  {
    if rules != [] {
      KnownRulesInOrder(rules[1..], templates);
      var rest := KnownRules(rules[1..], templates);
      if rules[0].templateId in templates {
        assert KnownRules(rules, templates)[1..] == rest;
      } else {
        assert KnownRules(rules, templates) == rest;
        KnownRulesAreKnown(rules[1..], templates);
        assert rest != [] ==> rest[0] in rest;
      }
    }
  }

  /** From a source only a profile link that dangles goes, and only the rules naming no template. */
  ghost predicate SourceKeeps(before: Source, after: Source, profiles: set<Id>, templates: set<Id>) {
    && after.(authProfileId := before.authProfileId, templateRules := before.templateRules) == before
    && (after.authProfileId == before.authProfileId
        || (after.authProfileId.None? && before.authProfileId.Some? && before.authProfileId.value !in profiles + {""}))
    && (before.templateRules.None? <==> after.templateRules.None?)
    && (before.templateRules.Some? ==>
          forall r :: r in after.templateRules.value <==> r in before.templateRules.value && r.templateId in templates)
  }

  /** From a template only a profile link that dangles goes. */
  ghost predicate TemplateKeeps(before: Template, after: Template, profiles: set<Id>) {
    && after.(links := before.links) == before
    && (forall l: Link :: l in after.links <==> l in before.links && (l == Gateway || before.links[l] in profiles))
    && (forall l | l in after.links :: after.links[l] == before.links[l])
  }

  /**
   No link that resolves is cleared anywhere: not on a server, a source or a template, nor is a
   rule dropped whose template is there; no record comes or goes, and rules keep their order.
   */
  lemma SweepTakesOnlyDangling(w: World)
    ensures var s := Swept(w);
      && s.servers.Keys == w.servers.Keys && s.sources.Keys == w.sources.Keys && s.templates.Keys == w.templates.Keys
      && s.tunnels == w.tunnels && s.profiles == w.profiles
      && (forall id, l | id in w.servers && l in w.servers[id].links && l !in s.servers[id].links ::
            w.servers[id].links[l] !in Bucket(l, w.profiles.Keys, w.servers.Keys) + {""})
      && (forall id, l | id in w.servers && l in s.servers[id].links ::
            l in w.servers[id].links && s.servers[id].links[l] == w.servers[id].links[l])
      && (forall id | id in w.sources :: SourceKeeps(w.sources[id], s.sources[id], w.profiles.Keys, w.templates.Keys))
      && (forall id | id in w.sources && w.sources[id].templateRules.Some? ::
            Sublist(s.sources[id].templateRules.value, w.sources[id].templateRules.value))
      && (forall id | id in w.templates :: TemplateKeeps(w.templates[id], s.templates[id], w.profiles.Keys))
  {
    var s := Swept(w);
    forall id | id in w.sources
      ensures SourceKeeps(w.sources[id], s.sources[id], w.profiles.Keys, w.templates.Keys)
      ensures w.sources[id].templateRules.Some? ==> Sublist(s.sources[id].templateRules.value, w.sources[id].templateRules.value)
    {
      if w.sources[id].templateRules.Some? {
        KnownRulesAreKnown(w.sources[id].templateRules.value, w.templates.Keys);
        KnownRulesInOrder(w.sources[id].templateRules.value, w.templates.Keys);
      }
    }
  }

  /** Where everything resolves already, the sweep rewrites nothing. */
  lemma SweepOfResolved(w: World)
    requires ReferencesResolve(w)
    ensures Swept(w) == w
  {
    var s := Swept(w);
    forall id | id in w.servers ensures s.servers[id] == w.servers[id] {
      assert DanglingLinks(w.servers[id].links, w.profiles.Keys, w.servers.Keys) == {};
      WithoutNoLinks(w.servers[id]);
    }
    forall id | id in w.sources ensures s.sources[id] == w.sources[id] {
      if w.sources[id].templateRules.Some? {
        KnownRulesAreKnown(w.sources[id].templateRules.value, w.templates.Keys);
      }
    }
    forall id | id in w.templates ensures s.templates[id] == w.templates[id] {
      assert s.templates[id].links == w.templates[id].links;
    }
  }

  // ---- the import ---------------------------------------------------------------------

  function AllIds(w: World): set<Id> {
    w.servers.Keys + w.tunnels.Keys + w.profiles.Keys + w.sources.Keys + w.templates.Keys
  }

  const EMPTY_WORLD := World(map[], map[], map[], map[], map[])

  function Base(w: World, mode: Mode): World {
    if mode.Merge? then w else EMPTY_WORLD
  }

  function Existing(w: World, mode: Mode): set<Id> {
    if mode.Merge? then AllIds(w) else {}
  }

  /** The ids minted for the blanks of bucket `b`. */
  function For(mint: (nat, nat) -> Id, b: nat): nat -> Id {
    (i: nat) => mint(b, i)
  }

  /** `ensureId` and the folder-ownership strip, over the whole payload. */
  function Prepared(p: Payload, mint: (nat, nat) -> Id): Payload {
    Payload(
      EnsureIds(p.servers, For(mint, 0)),
      EnsureIds(p.tunnels, For(mint, 1)),
      EnsureIds(StripManagedFolders(p.sources), For(mint, 2)),
      EnsureIds(p.profiles, For(mint, 3)),
      EnsureIds(p.templates, For(mint, 4)))
  }

  function Same<T>(): T -> T { x => x }

  /** The buckets after every accepted record of a prepared payload has been added. */
  function WithPayload(base: World, existing: set<Id>, p: Payload, checks: Checks): World {
    World(
      AddedServers(p.servers, existing, checks.server, base.servers),
      Added(p.tunnels, existing, checks.tunnel, Same(), base.tunnels),
      Added(p.profiles, existing, checks.profile, Same(), base.profiles),
      Added(p.sources, existing, checks.source, Same(), base.sources),
      Added(p.templates, existing, checks.template, Same(), base.templates))
  }

  function Imported(w: World, p: Payload, mode: Mode, checks: Checks, mint: (nat, nat) -> Id): World {
    Swept(WithPayload(Base(w, mode), Existing(w, mode), Prepared(p, mint), checks))
  }

  /** A completed import leaves nothing dangling, from any core and for any payload. */
  lemma ImportResolvesEverything(w: World, p: Payload, mode: Mode, checks: Checks, mint: (nat, nat) -> Id)
    ensures ReferencesResolve(Imported(w, p, mode, checks, mint))
  {
    SweepResolvesEverything(WithPayload(Base(w, mode), Existing(w, mode), Prepared(p, mint), checks));
  }

  /** A blank id is given only to items that are not valid anyway. */
  ghost predicate IdsGiven<T>(items: seq<Item<T>>, valid: T -> bool) {
    forall i | 0 <= i < |items| :: Blank(items[i].id) ==> !valid(items[i].value)
  }

  /** No importable record of the payload has a blank id. */
  ghost predicate EveryIdGiven(p: Payload, checks: Checks) {
    && IdsGiven(p.servers, checks.server) && IdsGiven(p.tunnels, checks.tunnel)
    && IdsGiven(StripManagedFolders(p.sources), checks.source)
    && IdsGiven(p.profiles, checks.profile) && IdsGiven(p.templates, checks.template)
  }

  /** Every item of a bucket is rejected or its id is taken. */
  ghost predicate Settled<T>(items: seq<Item<T>>, existing: set<Id>, valid: T -> bool) {
    forall i | 0 <= i < |items| :: !Accepted(items[i], existing, valid)
  }

  /** Minted ids are new. */
  ghost predicate Fresh(mint: (nat, nat) -> Id, taken: set<Id>) {
    forall b: nat, i: nat :: mint(b, i) !in taken
  }

  /** What one import added, a second one finds taken, except where it mints again. */
  lemma AddingSettles<T>(items: seq<Item<T>>, existing: set<Id>, valid: T -> bool, clean: T -> T, bucket: map<Id, T>,
                         later: set<Id>, mint: nat -> Id, mint': nat -> Id)
    requires existing <= later && Added(EnsureIds(items, mint), existing, valid, clean, bucket).Keys <= later
    requires forall i: nat :: mint'(i) !in later
    ensures Settled(EnsureIds(items, mint'), later, valid) <==> IdsGiven(items, valid)
  {
    var first, second := EnsureIds(items, mint), EnsureIds(items, mint');
    AddedKeys(first, existing, valid, clean, bucket);
    forall i | 0 <= i < |items| ensures !Accepted(second[i], later, valid) <==> (Blank(items[i].id) ==> !valid(items[i].value)) {
      if !Blank(items[i].id) && Accepted(first[i], existing, valid) {
        assert first[i].id in (set j | 0 <= j < |first| && Accepted(first[j], existing, valid) :: first[j].id);
      }
    }
  }

  /** An accepted item shows among the ids afterwards. */
  lemma AcceptedShows<T>(items: seq<Item<T>>, existing: set<Id>, valid: T -> bool, clean: T -> T, bucket: map<Id, T>)
    ensures Settled(items, existing, valid) ==> Added(items, existing, valid, clean, bucket) == bucket
    ensures bucket.Keys <= existing && Added(items, existing, valid, clean, bucket).Keys <= existing ==>
              Settled(items, existing, valid)
    ensures bucket.Keys <= Added(items, existing, valid, clean, bucket).Keys
  {
    AddedKeys(items, existing, valid, clean, bucket);
    if Settled(items, existing, valid) {
      AddedNothing(items, existing, valid, clean, bucket);
    } else {
      var i :| 0 <= i < |items| && Accepted(items[i], existing, valid);
      assert items[i].id in (set j | 0 <= j < |items| && Accepted(items[j], existing, valid) :: items[j].id);
    }
  }

  /** No bucket of a prepared payload has anything left to add. */
  ghost predicate AllSettled(p: Payload, existing: set<Id>, checks: Checks) {
    && Settled(p.servers, existing, checks.server) && Settled(p.tunnels, existing, checks.tunnel)
    && Settled(p.sources, existing, checks.source) && Settled(p.profiles, existing, checks.profile)
    && Settled(p.templates, existing, checks.template)
  }

  /** Adding to a world changes it exactly when some item of the payload is accepted. */
  lemma AddingIsSeen(w: World, p: Payload, checks: Checks)
    ensures WithPayload(w, AllIds(w), p, checks) == w <==> AllSettled(p, AllIds(w), checks)
    ensures AllIds(WithPayload(w, AllIds(w), p, checks)) == AllIds(w) <==> AllSettled(p, AllIds(w), checks)
    ensures AllIds(w) <= AllIds(WithPayload(w, AllIds(w), p, checks))
  {
    var ids := AllIds(w);
    AcceptedShows(p.servers, ids, checks.server, SanitizeOrigin, w.servers);
    LastOpenerIs(p.servers, ids, checks.server);
    if Settled(p.servers, ids, checks.server) {
      assert AddedServers(p.servers, ids, checks.server, w.servers) == w.servers;
    }
    AcceptedShows(p.tunnels, ids, checks.tunnel, Same(), w.tunnels);
    AcceptedShows(p.profiles, ids, checks.profile, Same(), w.profiles);
    AcceptedShows(p.sources, ids, checks.source, Same(), w.sources);
    AcceptedShows(p.templates, ids, checks.template, Same(), w.templates);
  }

  /** After one merge, a second finds nothing to add exactly when no importable record lacks an id. */
  lemma SecondMergeSettled(w: World, p: Payload, checks: Checks, mint: (nat, nat) -> Id, mint': (nat, nat) -> Id)
    requires Fresh(mint', AllIds(WithPayload(w, AllIds(w), Prepared(p, mint), checks)))
    ensures AllSettled(Prepared(p, mint'), AllIds(WithPayload(w, AllIds(w), Prepared(p, mint), checks)), checks)
            <==> EveryIdGiven(p, checks)
  {
    var ids := AllIds(w);
    var later := AllIds(WithPayload(w, ids, Prepared(p, mint), checks));
    AddingIsSeen(w, Prepared(p, mint), checks);
    AddingSettles(p.servers, ids, checks.server, SanitizeOrigin, w.servers, later, For(mint, 0), For(mint', 0));
    AddingSettles(p.tunnels, ids, checks.tunnel, Same(), w.tunnels, later, For(mint, 1), For(mint', 1));
    AddingSettles(StripManagedFolders(p.sources), ids, checks.source, Same(), w.sources, later, For(mint, 2), For(mint', 2));
    AddingSettles(p.profiles, ids, checks.profile, Same(), w.profiles, later, For(mint, 3), For(mint', 3));
    AddingSettles(p.templates, ids, checks.template, Same(), w.templates, later, For(mint, 4), For(mint', 4));
  }

  /**
   Merging the same payload again changes no record in any bucket - not one is added,
   overwritten or swept - exactly when no importable record has a blank id.
   */
  lemma MergeAgainChangesNothing(w: World, p: Payload, checks: Checks, mint: (nat, nat) -> Id, mint': (nat, nat) -> Id)
    requires Fresh(mint', AllIds(Imported(w, p, Merge, checks, mint)))
    ensures var once := Imported(w, p, Merge, checks, mint);
            Imported(once, p, Merge, checks, mint') == once <==> EveryIdGiven(p, checks)
  {
    var added := WithPayload(w, AllIds(w), Prepared(p, mint), checks);
    var once := Swept(added);
    SweepKeepsIds(added);
    SecondMergeSettled(w, p, checks, mint, mint');
    AddingIsSeen(once, Prepared(p, mint'), checks);
    SweepKeepsIds(WithPayload(once, AllIds(once), Prepared(p, mint'), checks));
    SweepResolvesEverything(added);
    SweepOfResolved(once);
  }

  const ANYTHING := Checks((_: Server) => true, (_: Tunnel) => true, (_: Source) => true, (_: Profile) => true, (_: Template) => true)

  /** One tunnel without an id, merged twice, is there twice. */
  lemma BlankIdMergesTwice(mint: (nat, nat) -> Id, mint': (nat, nat) -> Id)
    requires Fresh(mint', AllIds(Imported(EMPTY_WORLD, BLANK_TUNNEL, Merge, ANYTHING, mint)))
    ensures
      var once := Imported(EMPTY_WORLD, BLANK_TUNNEL, Merge, ANYTHING, mint);
      var twice := Imported(once, BLANK_TUNNEL, Merge, ANYTHING, mint');
      && once.tunnels.Keys == {mint(1, 0)}
      && twice.tunnels.Keys == {mint(1, 0), mint'(1, 0)} && mint(1, 0) != mint'(1, 0)
  {
    var once := Imported(EMPTY_WORLD, BLANK_TUNNEL, Merge, ANYTHING, mint);
    BlankTunnelAdded(EMPTY_WORLD, mint);
    BlankTunnelAdded(once, mint');
  }

  const BLANK_TUNNEL := Payload([], [Item("", Tunnel(None, ""))], [], [], [])

  lemma BlankTunnelAdded(w: World, mint: (nat, nat) -> Id)
    requires mint(1, 0) !in AllIds(w)
    ensures Imported(w, BLANK_TUNNEL, Merge, ANYTHING, mint).tunnels == w.tunnels[mint(1, 0) := Tunnel(None, "")]
  {
    var items := EnsureIds(BLANK_TUNNEL.tunnels, For(mint, 1));
    assert Blank("");
    assert items == [Item(mint(1, 0), Tunnel(None, ""))];
    assert items[1..] == [] && Accepted(items[0], AllIds(w), ANYTHING.tunnel);
    assert Added(items, AllIds(w), ANYTHING.tunnel, Same(), w.tunnels) == w.tunnels[mint(1, 0) := Same()(Tunnel(None, ""))];
  }

  lemma SweepKeepsIds(w: World)
    ensures Swept(w).servers.Keys == w.servers.Keys && Swept(w).sources.Keys == w.sources.Keys
    ensures Swept(w).templates.Keys == w.templates.Keys
    ensures AllIds(Swept(w)) == AllIds(w)
  {
  }
}
