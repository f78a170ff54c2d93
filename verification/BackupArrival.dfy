/**
 What an import leaves of every record, bucket by bucket: the items of the payload as they
 arrive, and the local records as they stay.
 */
module BackupArrival {
  import opened Records
  import opened Core
  import opened BackupImport

  /** The last item that is added under its id: the id is not taken, and the item is valid. */
  ghost predicate LastAdded<T>(items: seq<Item<T>>, taken: set<Id>, valid: T -> bool, i: nat) {
    && i < |items| && items[i].id !in taken && valid(items[i].value)
    && forall j | i < j < |items| && valid(items[j].value) :: items[j].id != items[i].id
  }

  ghost predicate NoneAdded<T>(items: seq<Item<T>>, taken: set<Id>, valid: T -> bool, id: Id) {
    id in taken || forall j | 0 <= j < |items| && valid(items[j].value) :: items[j].id != id
  }

  /** The ids that are taken: every local one when merging, none when replacing. */
  function Taken(w: World, mode: Mode): set<Id> {
    match mode
    case Merge => w.servers.Keys + w.tunnels.Keys + w.sources.Keys + w.profiles.Keys + w.templates.Keys
    case Replace => {}
  }

  lemma TakenIsExisting(w: World, mode: Mode)
    ensures Taken(w, mode) == Existing(w, mode)
  {
  }

  lemma {:induction false} AddedLast<T>(items: seq<Item<T>>, taken: set<Id>, valid: T -> bool, clean: T -> T, bucket: map<Id, T>, i: nat)
    requires LastAdded(items, taken, valid, i)
    ensures var after := Added(items, taken, valid, clean, bucket);
            items[i].id in after && after[items[i].id] == clean(items[i].value)
    decreases |items|
  {
    var next := if Accepted(items[0], taken, valid) then bucket[items[0].id := clean(items[0].value)] else bucket;
    if i == 0 {
      assert forall j | 0 <= j < |items[1..]| :: items[1..][j] == items[j + 1];
      AddedNone(items[1..], taken, valid, clean, next, items[0].id);
    } else {
      assert items[1..][i - 1] == items[i];
      AddedLast(items[1..], taken, valid, clean, next, i - 1);
    }
  }

  lemma {:induction false} AddedNone<T>(items: seq<Item<T>>, taken: set<Id>, valid: T -> bool, clean: T -> T, bucket: map<Id, T>, id: Id)
    requires NoneAdded(items, taken, valid, id)
    ensures var after := Added(items, taken, valid, clean, bucket);
            (id in after <==> id in bucket) && (id in after ==> after[id] == bucket[id])
    decreases |items|
  {
    if items != [] {
      assert forall j | 0 <= j < |items[1..]| :: items[1..][j] == items[j + 1];
      AddedNone(items[1..], taken, valid, clean,
                if Accepted(items[0], taken, valid) then bucket[items[0].id := clean(items[0].value)] else bucket, id);
    }
  }

  /** Every id either has a last item added under it or none. */
  lemma {:induction false} LastOrNone<T>(items: seq<Item<T>>, taken: set<Id>, valid: T -> bool, id: Id)
    ensures NoneAdded(items, taken, valid, id) <==> forall i: nat | LastAdded(items, taken, valid, i) :: items[i].id != id
    decreases |items|
  {
    if !NoneAdded(items, taken, valid, id) {
      var j :| 0 <= j < |items| && valid(items[j].value) && items[j].id == id;
      LastExists(items, taken, valid, j);
    }
  }

  lemma LastExists<T>(items: seq<Item<T>>, taken: set<Id>, valid: T -> bool, j: nat)
    requires j < |items| && valid(items[j].value) && items[j].id !in taken
    ensures exists i: nat :: LastAdded(items, taken, valid, i) && items[i].id == items[j].id
    decreases |items| - j
  {
    if n :| j < n < |items| && valid(items[n].value) && items[n].id == items[j].id {
      LastExists(items, taken, valid, n);
    } else {
      assert LastAdded(items, taken, valid, j);
    }
  }

  // ---- the payload as it is prepared --------------------------------------------------

  /** Nothing is left out or reordered; an id is replaced when it is blank, and a source's folder ownership is dropped. */
  lemma PreparedExactly(p: Payload, mint: (nat, nat) -> Id)
    ensures
      var q := Prepared(p, mint);
      && GivenIds(p.servers, q.servers) && GivenIds(p.tunnels, q.tunnels) && GivenIds(p.sources, q.sources)
      && GivenIds(p.profiles, q.profiles) && GivenIds(p.templates, q.templates)
      && (forall i | 0 <= i < |p.servers| :: q.servers[i].value == p.servers[i].value)
      && (forall i | 0 <= i < |p.tunnels| :: q.tunnels[i].value == p.tunnels[i].value)
      && (forall i | 0 <= i < |p.profiles| :: q.profiles[i].value == p.profiles[i].value)
      && (forall i | 0 <= i < |p.templates| :: q.templates[i].value == p.templates[i].value)
      && forall i | 0 <= i < |p.sources| ::
           q.sources[i].value.managedFolders == Absent
           && q.sources[i].value.(managedFolders := p.sources[i].value.managedFolders) == p.sources[i].value
  {
  }

  ghost predicate GivenIds<T>(given: seq<Item<T>>, prepared: seq<Item<T>>) {
    |given| == |prepared| && forall i | 0 <= i < |given| && !Blank(given[i].id) :: prepared[i].id == given[i].id
  }

  // ---- tunnels and profiles -----------------------------------------------------------

  /** A bucket without references: its last added item per id, and the local records. */
  ghost predicate ArrivedPlainly<T>(items: seq<Item<T>>, taken: set<Id>, valid: T -> bool, local: map<Id, T>, after: map<Id, T>) {
    && (forall i: nat | LastAdded(items, taken, valid, i) :: items[i].id in after && after[items[i].id] == items[i].value)
    && forall id | NoneAdded(items, taken, valid, id) :: (id in after <==> id in local) && (id in after ==> after[id] == local[id])
  }

  lemma BucketArrives<T>(items: seq<Item<T>>, taken: set<Id>, valid: T -> bool, local: map<Id, T>)
    ensures ArrivedPlainly(items, taken, valid, local, Added(items, taken, valid, Same(), local))
  {
    forall i: nat | LastAdded(items, taken, valid, i)
      ensures items[i].id in Added(items, taken, valid, Same(), local)
           && Added(items, taken, valid, Same(), local)[items[i].id] == items[i].value
    {
      AddedLast(items, taken, valid, Same(), local, i);
    }
    forall id | NoneAdded(items, taken, valid, id)
      ensures var after := Added(items, taken, valid, Same(), local);
              (id in after <==> id in local) && (id in after ==> after[id] == local[id])
    {
      AddedNone(items, taken, valid, Same(), local, id);
    }
  }

  /** The records that are there before the items are added: the local ones, or after a wipe none. */
  function Kept<T>(local: map<Id, T>, mode: Mode): map<Id, T> {
    if mode.Merge? then local else map[]
  }

  /** Tunnels and profiles arrive as they are, and local ones stay as they were. */
  lemma PlainBucketsArrive(w: World, p: Payload, mode: Mode, checks: Checks, mint: (nat, nat) -> Id)
    ensures
      var q, after := Prepared(p, mint), Imported(w, p, mode, checks, mint);
      && ArrivedPlainly(q.tunnels, Taken(w, mode), checks.tunnel, Kept(w.tunnels, mode), after.tunnels)
      && ArrivedPlainly(q.profiles, Taken(w, mode), checks.profile, Kept(w.profiles, mode), after.profiles)
  {
    TakenIsExisting(w, mode);
    BucketArrives(Prepared(p, mint).tunnels, Taken(w, mode), checks.tunnel, Kept(w.tunnels, mode));
    BucketArrives(Prepared(p, mint).profiles, Taken(w, mode), checks.profile, Kept(w.profiles, mode));
  }

  // ---- servers ------------------------------------------------------------------------

  /** The links of a server that name nothing there. */
  function Lost(links: map<Link, Id>, after: World): set<Link> {
    set l | l in links && links[l] != "" && links[l] !in (if l == Gateway then after.servers.Keys else after.profiles.Keys)
  }

  /** A malformed origin is dropped and takes the marker along; so is a malformed marker. */
  ghost predicate Sanitized(item: Server, server: Server) {
    && server.(origin := item.origin, formerlySynced := item.formerlySynced) == item
    && server.origin == (if item.origin.Malformed? then Absent else item.origin)
    && server.formerlySynced == (if item.origin.Malformed? || item.formerlySynced.Malformed? then Absent else item.formerlySynced)
  }

  /** But for the flag, the server is the sanitized item with exactly its dangling links cleared. */
  ghost predicate ServerArrivedAs(item: Server, server: Server, after: World) {
    exists clean: Server ::
      Sanitized(item, clean) && LinksCleared(clean.(opensExplorer := server.opensExplorer), server, Lost(item.links, after))
  }

  /** Item `i` opens the file explorer and no server added later does. */
  ghost predicate LastFlag(items: seq<Item<Server>>, taken: set<Id>, valid: Server -> bool, i: nat)
    requires i < |items|
  {
    && items[i].value.opensExplorer
    && forall j | i < j < |items| && items[j].id !in taken && valid(items[j].value) :: !items[j].value.opensExplorer
  }

  lemma {:induction false} LastOpenerExactly(items: seq<Item<Server>>, taken: set<Id>, valid: Server -> bool, i: nat)
    requires LastAdded(items, taken, valid, i)
    ensures var owner := LastOpener(items, taken, valid);
      && (owner.None? ==> !items[i].value.opensExplorer)
      && (items[i].value.opensExplorer && owner == Some(items[i].id) <==> LastFlag(items, taken, valid, i))
    decreases |items|
  {
    var rest := items[1..];
    assert forall j | 0 <= j < |rest| :: rest[j] == items[j + 1];
    LastOpenerIs(rest, taken, valid);
    if i > 0 {
      assert LastAdded(rest, taken, valid, i - 1);
      LastOpenerExactly(rest, taken, valid, i - 1);
      assert LastFlag(items, taken, valid, i) <==> LastFlag(rest, taken, valid, i - 1);
    } else if LastOpener(rest, taken, valid).Some? {
      AcceptedIdsAre(rest, taken, valid);
      var j :| 0 <= j < |rest| && Accepted(rest[j], taken, valid) && rest[j].value.opensExplorer;
      assert items[j + 1] == rest[j];
    }
  }

  lemma ServerArrives(w: World, p: Payload, mode: Mode, checks: Checks, mint: (nat, nat) -> Id, i: nat)
    requires LastAdded(Prepared(p, mint).servers, Taken(w, mode), checks.server, i)
    ensures
      var items, after := Prepared(p, mint).servers, Imported(w, p, mode, checks, mint);
      var id := items[i].id;
      && id in after.servers && ServerArrivedAs(items[i].value, after.servers[id], after)
      && (after.servers[id].opensExplorer <==> LastFlag(items, Taken(w, mode), checks.server, i))
  {
    var items, after := Prepared(p, mint).servers, Imported(w, p, mode, checks, mint);
    var id, clean := items[i].id, SanitizeOrigin(items[i].value);
    var before := WithPayload(Base(w, mode), Existing(w, mode), Prepared(p, mint), checks);
    TakenIsExisting(w, mode);
    AddedLast(items, Taken(w, mode), checks.server, SanitizeOrigin, Base(w, mode).servers, i);
    LastOpenerExactly(items, Taken(w, mode), checks.server, i);
    assert Sanitized(items[i].value, clean);
    SweptExactly(before, id);
    assert Quiet(before.servers[id]) == Quiet(clean);
    assert before.servers[id] == clean.(opensExplorer := after.servers[id].opensExplorer);
  }

  /** The sweep clears from a server exactly the links that name nothing. */
  lemma SweptExactly(w: World, id: Id)
    requires id in w.servers
    ensures LinksCleared(w.servers[id], Swept(w).servers[id], Lost(w.servers[id].links, Swept(w)))
  {
    assert DanglingLinks(w.servers[id].links, w.profiles.Keys, w.servers.Keys) == Lost(w.servers[id].links, Swept(w));
    WithoutLinksClears(w.servers[id], DanglingLinks(w.servers[id].links, w.profiles.Keys, w.servers.Keys));
  }

  /** Some added server opens the file explorer. */
  ghost predicate FlagTaken(items: seq<Item<Server>>, taken: set<Id>, valid: Server -> bool) {
    exists j :: 0 <= j < |items| && items[j].id !in taken && valid(items[j].value) && items[j].value.opensExplorer
  }

  /** Under any other id there is what was there, with its dangling links cleared and without the flag if an added server took it. */
  lemma LocalServerStays(w: World, p: Payload, mode: Mode, checks: Checks, mint: (nat, nat) -> Id, id: Id)
    requires NoneAdded(Prepared(p, mint).servers, Taken(w, mode), checks.server, id)
    ensures
      var items, after, local := Prepared(p, mint).servers, Imported(w, p, mode, checks, mint), Kept(w.servers, mode);
      && (id in after.servers <==> id in local)
      && (id in local ==>
            && LinksCleared(local[id].(opensExplorer := after.servers[id].opensExplorer), after.servers[id], Lost(local[id].links, after))
            && (after.servers[id].opensExplorer <==>
                  local[id].opensExplorer && !FlagTaken(items, Taken(w, mode), checks.server)))
  {
    var items, local := Prepared(p, mint).servers, Kept(w.servers, mode);
    var before := WithPayload(Base(w, mode), Existing(w, mode), Prepared(p, mint), checks);
    TakenIsExisting(w, mode);
    AddedNone(items, Taken(w, mode), checks.server, SanitizeOrigin, local, id);
    assert before.servers == AddedServers(items, Taken(w, mode), checks.server, local);
    if id in local {
      NotAccepted(items, Taken(w, mode), checks.server, id);
      AddingSilencesOthers(items, Taken(w, mode), checks.server, local, id);
      FlagTakenMeans(items, Taken(w, mode), checks.server);
      SweptExactly(before, id);
    }
  }

  lemma NotAccepted<T>(items: seq<Item<T>>, taken: set<Id>, valid: T -> bool, id: Id)
    requires NoneAdded(items, taken, valid, id)
    ensures id !in AcceptedIds(items, taken, valid)
  {
    AcceptedIdsAre(items, taken, valid);
  }

  lemma FlagTakenMeans(items: seq<Item<Server>>, taken: set<Id>, valid: Server -> bool)
    ensures BringsOpener(items, taken, valid) <==> FlagTaken(items, taken, valid)
  {
    if FlagTaken(items, taken, valid) {
      var j :| 0 <= j < |items| && items[j].id !in taken && valid(items[j].value) && items[j].value.opensExplorer;
      assert Accepted(items[j], taken, valid);
    }
  }

  // ---- sources and templates ----------------------------------------------------------

  function Known(templates: set<Id>): Rule -> bool {
    (r: Rule) => r.templateId in templates
  }

  /** The source with a profile link that names nothing cleared, and exactly the rules naming a template there. */
  ghost predicate SourceArrivedAs(item: Source, source: Source, after: World) {
    && source.(authProfileId := item.authProfileId, templateRules := item.templateRules) == item
    && source.authProfileId == (if item.authProfileId.Some? && item.authProfileId.value != "" && item.authProfileId.value !in after.profiles
                                then None else item.authProfileId)
    && match item.templateRules
       case None => source.templateRules.None?
       case Some(rules) => source.templateRules.Some? && KeptInOrder(rules, source.templateRules.value, Known(after.templates.Keys))
  }

  ghost predicate TemplateArrivedAs(item: Template, template: Template, after: World) {
    && template.(links := item.links) == item
    && (forall l :: l in template.links <==> l in item.links && (l == Gateway || item.links[l] in after.profiles))
    && (forall l | l in template.links :: template.links[l] == item.links[l])
  }

  lemma {:induction false} KnownRulesKept(rules: seq<Rule>, templates: set<Id>)
    ensures KeptInOrder(rules, KnownRules(rules, templates), Known(templates))
    decreases |rules|
  {
    if rules != [] {
      KnownRulesKept(rules[1..], templates);
      KeptBehind(rules[0], rules[1..], KnownRules(rules[1..], templates), Known(templates));
      assert rules == [rules[0]] + rules[1..];
      assert [] + KnownRules(rules[1..], templates) == KnownRules(rules[1..], templates);
    }
  }

  lemma SweptSourceExactly(source: Source, w: World)
    ensures SourceArrivedAs(source, SweptSource(source, w.profiles.Keys, w.templates.Keys), Swept(w))
  {
    if source.templateRules.Some? {
      KnownRulesKept(source.templateRules.value, w.templates.Keys);
    }
    assert Swept(w).templates.Keys == w.templates.Keys && Swept(w).profiles == w.profiles;
  }

  lemma SweptTemplateExactly(template: Template, w: World)
    ensures TemplateArrivedAs(template, SweptTemplate(template, w.profiles.Keys), Swept(w))
  {
  }

  /** Sources arrive without folder ownership, swept; local ones stay, swept. */
  lemma SourcesArrive(w: World, p: Payload, mode: Mode, checks: Checks, mint: (nat, nat) -> Id)
    ensures
      var items, after, local := Prepared(p, mint).sources, Imported(w, p, mode, checks, mint), Kept(w.sources, mode);
      && (forall i: nat | LastAdded(items, Taken(w, mode), checks.source, i) ::
            items[i].id in after.sources && SourceArrivedAs(items[i].value, after.sources[items[i].id], after))
      && forall id | NoneAdded(items, Taken(w, mode), checks.source, id) ::
           (id in after.sources <==> id in local) && (id in after.sources ==> SourceArrivedAs(local[id], after.sources[id], after))
  {
    var items, after, local := Prepared(p, mint).sources, Imported(w, p, mode, checks, mint), Kept(w.sources, mode);
    var before := WithPayload(Base(w, mode), Existing(w, mode), Prepared(p, mint), checks);
    TakenIsExisting(w, mode);
    BucketArrives(items, Taken(w, mode), checks.source, local);
    assert before.sources == Added(items, Taken(w, mode), checks.source, Same(), local);
    forall id | id in before.sources ensures SourceArrivedAs(before.sources[id], after.sources[id], after) {
      SweptSourceExactly(before.sources[id], before);
    }
  }

  /** Templates likewise. */
  lemma TemplatesArrive(w: World, p: Payload, mode: Mode, checks: Checks, mint: (nat, nat) -> Id)
    ensures
      var items, after, local := Prepared(p, mint).templates, Imported(w, p, mode, checks, mint), Kept(w.templates, mode);
      && (forall i: nat | LastAdded(items, Taken(w, mode), checks.template, i) ::
            items[i].id in after.templates && TemplateArrivedAs(items[i].value, after.templates[items[i].id], after))
      && forall id | NoneAdded(items, Taken(w, mode), checks.template, id) ::
           (id in after.templates <==> id in local) && (id in after.templates ==> TemplateArrivedAs(local[id], after.templates[id], after))
  {
    var items, after, local := Prepared(p, mint).templates, Imported(w, p, mode, checks, mint), Kept(w.templates, mode);
    var before := WithPayload(Base(w, mode), Existing(w, mode), Prepared(p, mint), checks);
    TakenIsExisting(w, mode);
    BucketArrives(items, Taken(w, mode), checks.template, local);
    assert before.templates == Added(items, Taken(w, mode), checks.template, Same(), local);
    forall id | id in before.templates ensures TemplateArrivedAs(before.templates[id], after.templates[id], after) {
      SweptTemplateExactly(before.templates[id], before);
    }
  }
}
