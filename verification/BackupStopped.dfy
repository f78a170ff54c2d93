/**
 An import that ends on the way: a validator throws, or the save behind an `add` rejects. What
 was added before stays, nothing is swept, and no secret is restored.
 */
module BackupStopped {
  import opened Records
  import opened Core
  import opened BackupImport
  import opened BackupSecrets

  /** The buckets in the order they are imported: servers, tunnels, sources, profiles, templates. */
  type Place = n: nat | n < 5

  /**
   Where the import ends: so many items of one bucket have been dealt with. A record whose save
   rejects is one of them where it stays in memory; a source or template is put back.
   */
  datatype Cut = Cut(place: Place, taken: nat)

  /** The items of a bucket that are dealt with before the import ends. */
  function Part<T>(items: seq<Item<T>>, cut: Option<nat>): seq<Item<T>> {
    if cut.Some? && cut.value < |items| then items[..cut.value] else items
  }

  predicate CutIn(cut: Option<Cut>, place: Place) {
    cut.Some? && cut.value.place == place
  }

  function CutAt(cut: Option<Cut>, place: Place): Option<nat> {
    if CutIn(cut, place) then Some(cut.value.taken) else None
  }

  function PartOf<T>(items: seq<Item<T>>, cut: Option<Cut>, place: Place): seq<Item<T>> {
    if cut.Some? && place > cut.value.place then [] else Part(items, CutAt(cut, place))
  }

  function UpTo(p: Payload, cut: Option<Cut>): Payload {
    Payload(PartOf(p.servers, cut, 0), PartOf(p.tunnels, cut, 1), PartOf(p.sources, cut, 2),
            PartOf(p.profiles, cut, 3), PartOf(p.templates, cut, 4))
  }

  /** The records an import has brought in when it ends; only one that gets through them is swept. */
  function Reached(base: World, existing: set<Id>, p: Payload, checks: Checks, cut: Option<Cut>): World {
    var w := WithPayload(base, existing, UpTo(p, cut), checks);
    if cut.None? then Swept(w) else w
  }

  function StoppedWorld(w: World, p: Payload, mode: Mode, checks: Checks, mint: (nat, nat) -> Id, cut: Cut): World {
    Reached(Base(w, mode), Existing(w, mode), Prepared(p, mint), checks, Some(cut))
  }

  function StoppedHold(h: Hold, run: Run, cut: Cut): Hold {
    Hold(StoppedWorld(h.world, run.payload, run.mode, run.checks, run.mint, cut), Wiped(h, run.mode))
  }

  /** The whole command, whether it gets through the records or not. */
  function ImportedOrStopped(h: Hold, run: Run, cut: Option<Cut>): Outcome {
    if cut.None? then ImportedHold(h, run) else Outcome(StoppedHold(h, run, cut.value), false)
  }

  /** Buckets past the cut are as they were. */
  lemma NothingBeyond(base: World, existing: set<Id>, p: Payload, checks: Checks, cut: Cut)
    ensures
      var w := Reached(base, existing, p, checks, Some(cut));
      && (cut.place < 1 ==> w.tunnels == base.tunnels) && (cut.place < 2 ==> w.sources == base.sources)
      && (cut.place < 3 ==> w.profiles == base.profiles) && (cut.place < 4 ==> w.templates == base.templates)
  {
  }

  /** Of the buckets before the cut every item is dealt with, of the one it falls in the first few, of later ones none. */
  ghost predicate DealtWith<T>(items: seq<Item<T>>, dealt: seq<Item<T>>, place: Place, cut: Cut) {
    && dealt <= items
    && |dealt| == if place < cut.place then |items| else if place > cut.place then 0 else if cut.taken < |items| then cut.taken else |items|
  }

  /** What a stopped import has brought in: the items dealt with so far are added, and nothing is swept. */
  lemma StoppedExactly(w: World, p: Payload, mode: Mode, checks: Checks, mint: (nat, nat) -> Id, cut: Cut)
    ensures
      var q := Prepared(p, mint);
      exists u: Payload ::
        && DealtWith(q.servers, u.servers, 0, cut) && DealtWith(q.tunnels, u.tunnels, 1, cut) && DealtWith(q.sources, u.sources, 2, cut)
        && DealtWith(q.profiles, u.profiles, 3, cut) && DealtWith(q.templates, u.templates, 4, cut)
        && StoppedWorld(w, p, mode, checks, mint, cut) == WithPayload(Base(w, mode), Existing(w, mode), u, checks)
  {
    var q := Prepared(p, mint);
    var u := UpTo(q, Some(cut));
    assert DealtWith(q.servers, u.servers, 0, cut) && DealtWith(q.tunnels, u.tunnels, 1, cut) && DealtWith(q.sources, u.sources, 2, cut);
    assert DealtWith(q.profiles, u.profiles, 3, cut) && DealtWith(q.templates, u.templates, 4, cut);
  }

  // ---- what a stopped import leaves ---------------------------------------------------

  lemma StoppedMergeKeepsOwners(h: Hold, run: Run, cut: Cut, k: SecretKey)
    requires run.mode.Merge? && Owned(h.world, k)
    ensures Owned(StoppedHold(h, run, cut).world, k)
  {
    var q, existing := UpTo(Prepared(run.payload, run.mint), Some(cut)), Existing(h.world, run.mode);
    AddedKeys(q.profiles, existing, run.checks.profile, Same(), h.world.profiles);
    AddedKeys(q.sources, existing, run.checks.source, Same(), h.world.sources);
  }

  /** However far it got: every profile and source secret in the vault still has its owner. */
  lemma StoppedKeepsVaultOwned(h: Hold, run: Run, cut: Cut)
    requires VaultOwned(h, {})
    ensures VaultOwned(StoppedHold(h, run, cut), {})
  {
    var after := StoppedHold(h, run, cut);
    forall k | k in after.vault ensures Owned(after.world, k) {
      assert Owned(h.world, k);
      if run.mode.Merge? {
        StoppedMergeKeepsOwners(h, run, cut, k);
      } else {
        assert k !in WipedKeys(h.world);
      }
    }
  }

  lemma AddedKeepsLocal<T>(items: seq<Item<T>>, existing: set<Id>, valid: T -> bool, bucket: map<Id, T>, id: Id)
    requires id in bucket && id in existing
    ensures var after := Added(items, existing, valid, Same(), bucket); id in after && after[id] == bucket[id]
  {
    AddedKeys(items, existing, valid, Same(), bucket);
  }

  /** Stopped in merge mode it has rewritten no local record, but for the flag an imported server takes. */
  lemma StoppedMergeKeepsLocalRecords(w: World, p: Payload, checks: Checks, mint: (nat, nat) -> Id, cut: Cut, id: Id)
    ensures
      var s := StoppedWorld(w, p, Merge, checks, mint, cut);
      var brings := BringsOpener(PartOf(Prepared(p, mint).servers, Some(cut), 0), AllIds(w), checks.server);
      && (id in w.servers ==> id in s.servers && s.servers[id] == if brings then Quiet(w.servers[id]) else w.servers[id])
      && (id in w.tunnels ==> id in s.tunnels && s.tunnels[id] == w.tunnels[id])
      && (id in w.profiles ==> id in s.profiles && s.profiles[id] == w.profiles[id])
      && (id in w.sources ==> id in s.sources && s.sources[id] == w.sources[id])
      && (id in w.templates ==> id in s.templates && s.templates[id] == w.templates[id])
  {
    var q := UpTo(Prepared(p, mint), Some(cut));
    if id in w.servers {
      AcceptedIdsAre(q.servers, AllIds(w), checks.server);
      AddingSilencesOthers(q.servers, AllIds(w), checks.server, w.servers, id);
    }
    if id in w.tunnels {
      AddedKeepsLocal(q.tunnels, AllIds(w), checks.tunnel, w.tunnels, id);
    }
    if id in w.profiles {
      AddedKeepsLocal(q.profiles, AllIds(w), checks.profile, w.profiles, id);
    }
    if id in w.sources {
      AddedKeepsLocal(q.sources, AllIds(w), checks.source, w.sources, id);
    }
    if id in w.templates {
      AddedKeepsLocal(q.templates, AllIds(w), checks.template, w.templates, id);
    }
  }

  // ---- trying again -------------------------------------------------------------------

  lemma {:induction false} AddedJoin<T>(a: seq<Item<T>>, b: seq<Item<T>>, existing: set<Id>, valid: T -> bool, clean: T -> T, bucket: map<Id, T>)
    ensures Added(a + b, existing, valid, clean, bucket) == Added(b, existing, valid, clean, Added(a, existing, valid, clean, bucket))
    decreases |a|
  {
    if a == [] {
      assert a + b == b;
    } else {
      assert (a + b)[0] == a[0] && (a + b)[1..] == a[1..] + b;
      AddedJoin(a[1..], b, existing, valid, clean,
                if Accepted(a[0], existing, valid) then bucket[a[0].id := clean(a[0].value)] else bucket);
    }
  }

  lemma NoServersAdded(items: seq<Item<Server>>, existing: set<Id>, valid: Server -> bool, bucket: map<Id, Server>)
    requires forall i | 0 <= i < |items| :: !Accepted(items[i], existing, valid)
    ensures AddedServers(items, existing, valid, bucket) == bucket
  {
    AddedNothing(items, existing, valid, SanitizeOrigin, bucket);
    LastOpenerIs(items, existing, valid);
  }

  lemma {:induction false} AddedServersJoin(a: seq<Item<Server>>, b: seq<Item<Server>>, existing: set<Id>, valid: Server -> bool, bucket: map<Id, Server>)
    ensures AddedServers(a + b, existing, valid, bucket) == AddedServers(b, existing, valid, AddedServers(a, existing, valid, bucket))
    decreases |a|
  {
    if a == [] {
      assert a + b == b;
      NoServersAdded(a, existing, valid, bucket);
    } else {
      assert (a + b)[0] == a[0] && (a + b)[1..] == a[1..] + b;
      AddedServersStep(a + b, existing, valid, bucket);
      AddedServersStep(a, existing, valid, bucket);
      AddedServersJoin(a[1..], b, existing, valid,
                       if Accepted(a[0], existing, valid) then Placed(bucket, a[0].id, SanitizeOrigin(a[0].value)) else bucket);
    }
  }

  lemma {:induction false} AddedAlike<T>(items: seq<Item<T>>, a: set<Id>, b: set<Id>, valid: T -> bool, clean: T -> T, bucket: map<Id, T>)
    requires forall i | 0 <= i < |items| :: items[i].id in a <==> items[i].id in b
    ensures Added(items, a, valid, clean, bucket) == Added(items, b, valid, clean, bucket)
    decreases |items|
  {
    if items != [] {
      AddedAlike(items[1..], a, b, valid, clean,
                 if Accepted(items[0], a, valid) then bucket[items[0].id := clean(items[0].value)] else bucket);
    }
  }

  lemma {:induction false} OpenersAlike(items: seq<Item<Server>>, a: set<Id>, b: set<Id>, valid: Server -> bool)
    requires forall i | 0 <= i < |items| :: items[i].id in a <==> items[i].id in b
    ensures LastOpener(items, a, valid) == LastOpener(items, b, valid)
    decreases |items|
  {
    if items != [] {
      OpenersAlike(items[1..], a, b, valid);
    }
  }

  /** What a bucket is taken on with: its first items are known by now, the others are as they were. */
  ghost predicate Resumes<T>(first: seq<Item<T>>, rest: seq<Item<T>>, existing: set<Id>, known: set<Id>, valid: T -> bool) {
    && (forall i | 0 <= i < |first| :: Accepted(first[i], existing, valid) ==> first[i].id in known)
    && existing <= known
    && (forall i | 0 <= i < |rest| :: rest[i].id in known ==> rest[i].id in existing)
  }

  lemma BucketResumes<T>(first: seq<Item<T>>, rest: seq<Item<T>>, existing: set<Id>, known: set<Id>, valid: T -> bool, bucket: map<Id, T>)
    requires Resumes(first, rest, existing, known, valid)
    ensures Added(first + rest, known, valid, Same(), Added(first, existing, valid, Same(), bucket))
         == Added(first + rest, existing, valid, Same(), bucket)
  {
    var there := Added(first, existing, valid, Same(), bucket);
    AddedJoin(first, rest, known, valid, Same(), there);
    AddedJoin(first, rest, existing, valid, Same(), bucket);
    AddedNothing(first, known, valid, Same(), there);
    AddedAlike(rest, known, existing, valid, Same(), there);
  }

  lemma ServersResume(first: seq<Item<Server>>, rest: seq<Item<Server>>, existing: set<Id>, known: set<Id>, valid: Server -> bool, bucket: map<Id, Server>)
    requires Resumes(first, rest, existing, known, valid)
    ensures AddedServers(first + rest, known, valid, AddedServers(first, existing, valid, bucket))
         == AddedServers(first + rest, existing, valid, bucket)
  {
    var there := AddedServers(first, existing, valid, bucket);
    AddedServersJoin(first, rest, known, valid, there);
    AddedServersJoin(first, rest, existing, valid, bucket);
    NoServersAdded(first, known, valid, there);
    AddedAlike(rest, known, existing, valid, SanitizeOrigin, there);
    OpenersAlike(rest, known, existing, valid);
  }

  function Ids<T>(items: seq<Item<T>>): set<Id> {
    set i | 0 <= i < |items| :: items[i].id
  }

  function AcceptedSet<T>(items: seq<Item<T>>, existing: set<Id>, valid: T -> bool): set<Id> {
    set i | 0 <= i < |items| && Accepted(items[i], existing, valid) :: items[i].id
  }

  /** No id of the payload is blank, and none is there twice. */
  ghost predicate OneIdEach(p: Payload) {
    && (forall i | 0 <= i < |p.servers| :: !Blank(p.servers[i].id)) && (forall i | 0 <= i < |p.tunnels| :: !Blank(p.tunnels[i].id))
    && (forall i | 0 <= i < |p.sources| :: !Blank(p.sources[i].id)) && (forall i | 0 <= i < |p.profiles| :: !Blank(p.profiles[i].id))
    && (forall i | 0 <= i < |p.templates| :: !Blank(p.templates[i].id))
    && DistinctIds(p.servers) && DistinctIds(p.tunnels) && DistinctIds(p.sources) && DistinctIds(p.profiles) && DistinctIds(p.templates)
    && Ids(p.servers) !! Ids(p.tunnels) !! Ids(p.sources) !! Ids(p.profiles) !! Ids(p.templates)
  }

  lemma SameIds<T>(a: seq<Item<T>>, b: seq<Item<T>>)
    requires |a| == |b| && forall i | 0 <= i < |a| :: a[i].id == b[i].id
    ensures Ids(a) == Ids(b)
  {
    forall i | 0 <= i < |a| ensures b[i].id in Ids(a) && a[i].id in Ids(b) {
      assert a[i].id == b[i].id;
    }
  }

  /** Where ids are not blank, nothing is minted. */
  lemma PreparedAsGiven(p: Payload, mint: (nat, nat) -> Id)
    requires OneIdEach(p)
    ensures Prepared(p, mint) == p.(sources := StripManagedFolders(p.sources))
    ensures OneIdEach(Prepared(p, mint))
  {
    var stripped := StripManagedFolders(p.sources);
    assert EnsureIds(p.servers, For(mint, 0)) == p.servers && EnsureIds(p.tunnels, For(mint, 1)) == p.tunnels;
    assert EnsureIds(stripped, For(mint, 2)) == stripped;
    assert EnsureIds(p.profiles, For(mint, 3)) == p.profiles && EnsureIds(p.templates, For(mint, 4)) == p.templates;
    SameIds(stripped, p.sources);
  }

  /** What was not dealt with has ids that the stopped import has not brought in. */
  lemma PartResumes<T>(items: seq<Item<T>>, cut: Cut, place: Place, existing: set<Id>, known: set<Id>, others: set<Id>, valid: T -> bool)
    requires DistinctIds(items) && Ids(items) !! others && existing <= known
    requires AcceptedSet(PartOf(items, Some(cut), place), existing, valid) <= known
    requires known <= existing + Ids(PartOf(items, Some(cut), place)) + others
    ensures
      var first := PartOf(items, Some(cut), place);
      first <= items && Resumes(first, items[|first|..], existing, known, valid)
  {
    var first := PartOf(items, Some(cut), place);
    assert first <= items;
    var rest := items[|first|..];
    forall i | 0 <= i < |first| && Accepted(first[i], existing, valid) ensures first[i].id in known {
      assert first[i].id in AcceptedSet(first, existing, valid);
    }
    forall i | 0 <= i < |rest| && rest[i].id in known ensures rest[i].id in existing {
      assert rest[i] == items[|first| + i] && rest[i].id in Ids(items);
      assert forall j | 0 <= j < |first| :: first[j] == items[j] && items[j].id != items[|first| + i].id;
    }
  }

  lemma BucketKeys<T>(items: seq<Item<T>>, existing: set<Id>, valid: T -> bool, clean: T -> T, bucket: map<Id, T>)
    ensures Added(items, existing, valid, clean, bucket).Keys == bucket.Keys + AcceptedSet(items, existing, valid)
    ensures AcceptedSet(items, existing, valid) <= Ids(items)
  {
    AddedKeys(items, existing, valid, clean, bucket);
    assert AcceptedSet(items, existing, valid) == set i | 0 <= i < |items| && Accepted(items[i], existing, valid) :: items[i].id;
  }

  lemma PartIds<T>(items: seq<Item<T>>, cut: Cut, place: Place)
    ensures Ids(PartOf(items, Some(cut), place)) <= Ids(items)
  {
    var first := PartOf(items, Some(cut), place);
    forall i | 0 <= i < |first| ensures first[i].id in Ids(items) {
      assert first[i] == items[i];
    }
  }

  /** The accepted ids of all buckets. */
  function BroughtIn(u: Payload, existing: set<Id>, checks: Checks): set<Id> {
    AcceptedSet(u.servers, existing, checks.server) + AcceptedSet(u.tunnels, existing, checks.tunnel)
    + AcceptedSet(u.sources, existing, checks.source) + AcceptedSet(u.profiles, existing, checks.profile)
    + AcceptedSet(u.templates, existing, checks.template)
  }

  /** The ids known when a merge is tried again: those from before, and those it had brought in. */
  lemma KnownAfterStop(w: World, existing: set<Id>, u: Payload, checks: Checks)
    ensures AllIds(WithPayload(w, existing, u, checks)) == AllIds(w) + BroughtIn(u, existing, checks)
  {
    BucketKeys(u.servers, existing, checks.server, SanitizeOrigin, w.servers);
    BucketKeys(u.tunnels, existing, checks.tunnel, Same(), w.tunnels);
    BucketKeys(u.sources, existing, checks.source, Same(), w.sources);
    BucketKeys(u.profiles, existing, checks.profile, Same(), w.profiles);
    BucketKeys(u.templates, existing, checks.template, Same(), w.templates);
    Regroup(w.servers.Keys, AcceptedSet(u.servers, existing, checks.server), w.tunnels.Keys, AcceptedSet(u.tunnels, existing, checks.tunnel),
            w.profiles.Keys, AcceptedSet(u.profiles, existing, checks.profile), w.sources.Keys, AcceptedSet(u.sources, existing, checks.source),
            w.templates.Keys, AcceptedSet(u.templates, existing, checks.template));
  }

  lemma Regroup(a: set<Id>, a': set<Id>, b: set<Id>, b': set<Id>, c: set<Id>, c': set<Id>, d: set<Id>, d': set<Id>, e: set<Id>, e': set<Id>)
    ensures (a + a') + (b + b') + (c + c') + (d + d') + (e + e') == (a + b + c + d + e) + (a' + b' + d' + c' + e')
  {
  }

  /** Added to a stopped merge, the whole payload comes to what it comes to at once. */
  lemma PayloadResumes(w: World, q: Payload, checks: Checks, cut: Cut)
    requires OneIdEach(q)
    ensures var s := Reached(w, AllIds(w), q, checks, Some(cut));
            WithPayload(s, AllIds(s), q, checks) == WithPayload(w, AllIds(w), q, checks)
  {
    var e, u, s := AllIds(w), UpTo(q, Some(cut)), Reached(w, AllIds(w), q, checks, Some(cut));
    KnownAfterStop(w, e, u, checks);
    AcceptedIsPart(u, q, e, checks, cut);
    PartResumes(q.servers, cut, 0, e, AllIds(s), Ids(q.tunnels) + Ids(q.sources) + Ids(q.profiles) + Ids(q.templates), checks.server);
    PartResumes(q.tunnels, cut, 1, e, AllIds(s), Ids(q.servers) + Ids(q.sources) + Ids(q.profiles) + Ids(q.templates), checks.tunnel);
    PartResumes(q.sources, cut, 2, e, AllIds(s), Ids(q.servers) + Ids(q.tunnels) + Ids(q.profiles) + Ids(q.templates), checks.source);
    PartResumes(q.profiles, cut, 3, e, AllIds(s), Ids(q.servers) + Ids(q.tunnels) + Ids(q.sources) + Ids(q.templates), checks.profile);
    PartResumes(q.templates, cut, 4, e, AllIds(s), Ids(q.servers) + Ids(q.tunnels) + Ids(q.sources) + Ids(q.profiles), checks.template);
    Halves(q.servers, cut, 0);
    Halves(q.tunnels, cut, 1);
    Halves(q.sources, cut, 2);
    Halves(q.profiles, cut, 3);
    Halves(q.templates, cut, 4);
    ServersResume(u.servers, q.servers[|u.servers|..], e, AllIds(s), checks.server, w.servers);
    BucketResumes(u.tunnels, q.tunnels[|u.tunnels|..], e, AllIds(s), checks.tunnel, w.tunnels);
    BucketResumes(u.sources, q.sources[|u.sources|..], e, AllIds(s), checks.source, w.sources);
    BucketResumes(u.profiles, q.profiles[|u.profiles|..], e, AllIds(s), checks.profile, w.profiles);
    BucketResumes(u.templates, q.templates[|u.templates|..], e, AllIds(s), checks.template, w.templates);
  }

  lemma Halves<T>(items: seq<Item<T>>, cut: Cut, place: Place)
    ensures var first := PartOf(items, Some(cut), place); first <= items && first + items[|first|..] == items
  {
  }

  lemma AcceptedIsPart(u: Payload, q: Payload, existing: set<Id>, checks: Checks, cut: Cut)
    requires u == UpTo(q, Some(cut))
    ensures AcceptedSet(u.servers, existing, checks.server) <= Ids(u.servers) <= Ids(q.servers)
    ensures AcceptedSet(u.tunnels, existing, checks.tunnel) <= Ids(u.tunnels) <= Ids(q.tunnels)
    ensures AcceptedSet(u.sources, existing, checks.source) <= Ids(u.sources) <= Ids(q.sources)
    ensures AcceptedSet(u.profiles, existing, checks.profile) <= Ids(u.profiles) <= Ids(q.profiles)
    ensures AcceptedSet(u.templates, existing, checks.template) <= Ids(u.templates) <= Ids(q.templates)
  {
    PartIds(q.servers, cut, 0);
    PartIds(q.tunnels, cut, 1);
    PartIds(q.sources, cut, 2);
    PartIds(q.profiles, cut, 3);
    PartIds(q.templates, cut, 4);
  }

  /**
   A merge that was stopped, tried again and completed, leaves the records one run would have
   left: for every payload in which no id is blank or there twice, wherever it was stopped.
   */
  lemma RetryCompletesRecords(w: World, p: Payload, checks: Checks, mint: (nat, nat) -> Id, mint': (nat, nat) -> Id, cut: Cut)
    requires OneIdEach(p)
    ensures var s := StoppedWorld(w, p, Merge, checks, mint, cut);
            Imported(s, p, Merge, checks, mint') == Imported(w, p, Merge, checks, mint)
  {
    PreparedAsGiven(p, mint);
    PreparedAsGiven(p, mint');
    PayloadResumes(w, Prepared(p, mint), checks, cut);
  }

  /**
   Its secrets do not follow: a record the stopped run has brought in is a local one to the
   next, which writes no secret of it.
   */
  lemma RetryRestoresNoSecretOfStopped(h: Hold, run: Run, cut: Cut, retry: Run, k: SecretKey)
    requires retry.mode.Merge? && k.id in AllIds(StoppedHold(h, run, cut).world)
    ensures var after := ImportedHold(StoppedHold(h, run, cut), retry).hold.vault;
            (k in after <==> k in Wiped(h, run.mode)) && (k in after ==> after[k] == Wiped(h, run.mode)[k])
  {
    MergeLeavesLocalSecretsAlone(StoppedHold(h, run, cut), retry, k);
  }

  /** The one server of a payload, added to nothing. */
  lemma OneServerAdded(item: Item<Server>, valid: Server -> bool)
    requires valid(item.value)
    ensures var after := AddedServers([item], {}, valid, map[]);
            item.id in after && after[item.id].links == item.value.links
  {
    var items := [item];
    AddedKeys(items, {}, valid, SanitizeOrigin, map[]);
    assert Accepted(items[0], {}, valid);
    AddedServerFrom(items, {}, valid, map[], item.id);
  }

  /** Nothing is swept either: stopped after its servers, an import can leave a link to a profile it would have brought. */
  lemma StoppedMayDangle(p: Payload, checks: Checks, mint: (nat, nat) -> Id, server: Server, profile: Profile)
    requires p.servers == [Item("s", server)] && p.profiles == [Item("p", profile)]
    requires server.links == map[Auth := "p"] && checks.server(server)
    ensures !ReferencesResolve(StoppedWorld(EMPTY_WORLD, p, Merge, checks, mint, Cut(1, 0)))
  {
    var q := Prepared(p, mint);
    var w, item := StoppedWorld(EMPTY_WORLD, p, Merge, checks, mint, Cut(1, 0)), q.servers[0];
    assert q.servers == [item] && item.value == server;
    OneServerAdded(item, checks.server);
    assert AllIds(EMPTY_WORLD) == {} && UpTo(q, Some(Cut(1, 0))).servers == q.servers;
    assert w.servers == AddedServers([item], {}, checks.server, map[]) && w.profiles == map[];
    assert w.servers[item.id].links[Auth] == "p";
  }
}
