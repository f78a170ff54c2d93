/**
 Restoring the secrets of a backup. A source whose secrets cannot be stored is taken back out,
 and the servers this import brought along for it become plain servers with a receipt.
 */
module BackupSecrets {
  import opened Records
  import opened BackupImport

  datatype Kind = Password | Passphrase | ProxyPassword | ProfilePassword | ProfilePassphrase

  datatype SecretKey = RecordSecret(kind: Kind, id: Id) | SourceSecret(id: Id, field: string)

  type Vault = map<SecretKey, string>

  datatype Entry = Entry(key: SecretKey, secret: string)

  /** The secrets of one source: field id to secret. */
  datatype SourceBucket = SourceBucket(sourceId: Id, fields: seq<(string, string)>)

  /** A decrypted secrets bundle; each flat bucket maps record ids to secrets. */
  datatype Secrets = Secrets(flat: map<Kind, seq<(Id, string)>>, sources: seq<SourceBucket>)

  /** The storage operations that reject. */
  datatype Faults = Faults(stores: set<SecretKey>, deletes: set<SecretKey>, removes: set<Id>)

  /** What the record phase of this import did: ids added, and the payload's sources by id. */
  datatype Tally = Tally(servers: seq<Id>, profiles: seq<Id>, sources: seq<Id>, declared: map<Id, Source>)

  datatype Hold = Hold(world: World, vault: Vault)

  // ---- storing entries ----------------------------------------------------------------

  datatype Attempt = Attempt(vault: Vault, stored: set<SecretKey>, ok: bool)

  /** Stores the wanted entries in order, up to the first store that rejects. */
  function StoreEntries(entries: seq<Entry>, wanted: set<SecretKey>, failing: set<SecretKey>, a: Attempt): Attempt
    decreases |entries|
  {
    if entries == [] then a
    else if entries[0].key !in wanted then StoreEntries(entries[1..], wanted, failing, a)
    else if entries[0].key in failing then a.(ok := false)
    else StoreEntries(entries[1..], wanted, failing,
                      a.(vault := a.vault[entries[0].key := entries[0].secret], stored := a.stored + {entries[0].key}))
  }

  /** Some wanted entry cannot be stored. */
  ghost predicate Blocked(entries: seq<Entry>, wanted: set<SecretKey>, failing: set<SecretKey>) {
    exists i :: 0 <= i < |entries| && entries[i].key in wanted && entries[i].key in failing
  }

  lemma {:induction false} StoreEntriesFrame(entries: seq<Entry>, wanted: set<SecretKey>, failing: set<SecretKey>, a: Attempt)
    requires a.ok
    ensures
      var r := StoreEntries(entries, wanted, failing, a);
      && (r.ok <==> !Blocked(entries, wanted, failing))
      && a.stored <= r.stored <= a.stored + wanted
      && a.vault.Keys <= r.vault.Keys <= a.vault.Keys + r.stored
      && (forall k | k in a.vault && k !in wanted :: r.vault[k] == a.vault[k])
    decreases |entries|
  {
    if entries != [] {
      assert entries == [entries[0]] + entries[1..];
      if entries[0].key !in wanted {
        StoreEntriesFrame(entries[1..], wanted, failing, a);
        BlockedLater(entries, wanted, failing);
      } else if entries[0].key !in failing {
        StoreEntriesFrame(entries[1..], wanted, failing,
                          a.(vault := a.vault[entries[0].key := entries[0].secret], stored := a.stored + {entries[0].key}));
        BlockedLater(entries, wanted, failing);
      }
    }
  }

  lemma BlockedLater(entries: seq<Entry>, wanted: set<SecretKey>, failing: set<SecretKey>)
    requires entries != [] && !(entries[0].key in wanted && entries[0].key in failing)
    ensures Blocked(entries, wanted, failing) <==> Blocked(entries[1..], wanted, failing)
  {
    if Blocked(entries, wanted, failing) {
      var i :| 0 <= i < |entries| && entries[i].key in wanted && entries[i].key in failing;
      assert entries[1..][i - 1] == entries[i];
    }
    if Blocked(entries[1..], wanted, failing) {
      var i :| 0 <= i < |entries[1..]| && entries[1..][i].key in wanted && entries[1..][i].key in failing;
      assert entries[i + 1] == entries[1..][i];
    }
  }

  // ---- one source ---------------------------------------------------------------------

  function EntriesOf(b: SourceBucket): seq<Entry> {
    seq(|b.fields|, i requires 0 <= i < |b.fields| => Entry(SourceSecret(b.sourceId, b.fields[i].0), b.fields[i].1))
  }

  /** The vault keys of the fields the imported record itself declares. */
  function Declared(sourceId: Id, tally: Tally): set<SecretKey> {
    if sourceId in tally.declared then set f | f in tally.declared[sourceId].secretFieldIds :: SourceSecret(sourceId, f)
    else {}
  }

  /**
   The marker a kept server gets in place of its origin. It names the source and its provider
   and carries the instance, the device and the receipts of the BMC, alternate host, transport
   and templates; the receipts of the user name, the host and the port are not carried.
   */
  function Receipt(o: Origin, source: Source, at: int): Detached {
    Detached(o.sourceId, source.name, source.providerId, o.externalId, o.syncedInstanceKey,
             o.syncedIpmiHost, o.syncedAltHost, o.syncedProtocol, o.stamps, at)
  }

  /** The origin a marker can give back: what it does not carry is absent. */
  function Rebuilt(d: Detached, syncedAt: int): Origin {
    Origin(d.sourceId, d.externalId, syncedAt, None, d.instanceKey, d.syncedIpmiHost, d.syncedAltHost, d.syncedProtocol,
           None, None, d.stamps)
  }

  /** The receipts a conversion leaves behind. */
  predicate LeavesNothing(o: Origin) {
    o.syncedUsername.None? && o.syncedHost.None? && o.syncedPort.None?
  }

  /**
   An origin can be had back from its marker exactly when it held no receipt of a user name, a
   host or a port; and two origins leave one marker exactly when they differ in nothing else.
   */
  lemma ReceiptRecovers(o: Origin, source: Source, at: int)
    ensures Rebuilt(Receipt(o, source, at), o.syncedAt) == o <==> LeavesNothing(o)
    ensures forall p: Origin :: Receipt(p, source, at) == Receipt(o, source, at) <==>
      p.(syncedAt := o.syncedAt, syncedUsername := o.syncedUsername, syncedHost := o.syncedHost, syncedPort := o.syncedPort) == o
  {
  }

  /** An origin with a receipt of its host: the marker does not give it back. */
  lemma HostReceiptIsLost(source: Source, at: int)
    ensures var o := Origin("s", "device", 0, None, None, None, None, None, Some("10.0.0.1"), None, Stamps(None, map[], map[]));
            Rebuilt(Receipt(o, source, at), o.syncedAt).syncedHost.None?
  {
  }

  /** Origin and marker both go; the marker is assigned, never merged. */
  function Converted(server: Server, tally: Tally, clock: Id -> int): Server
    requires server.origin.Present?
  {
    var id := server.origin.value.sourceId;
    server.(
      origin := Absent,
      formerlySynced :=
        if id in tally.declared then Present(Receipt(server.origin.value, tally.declared[id], clock(id))) else Absent)
  }

  predicate OriginNames(server: Server, sourceId: Id) {
    server.origin.Present? && server.origin.value.sourceId == sourceId
  }

  function ConvertServers(servers: map<Id, Server>, imported: seq<Id>, sourceId: Id, tally: Tally, clock: Id -> int): map<Id, Server> {
    map id | id in servers ::
      if id in imported && OriginNames(servers[id], sourceId) then Converted(servers[id], tally, clock) else servers[id]
  }

  /** What is left after the keys stored this run have been deleted again, best effort. */
  function TakenBack(a: Attempt, faults: Faults): Vault {
    a.vault - (a.stored - faults.deletes)
  }

  function RestoreSource(h: Hold, b: SourceBucket, tally: Tally, faults: Faults, clock: Id -> int): Hold {
    if b.sourceId !in tally.sources then h
    else
      var a := StoreEntries(EntriesOf(b), Declared(b.sourceId, tally), faults.stores, Attempt(h.vault, {}, true));
      if a.ok then h.(vault := a.vault)
      else if b.sourceId in faults.removes then h.(vault := TakenBack(a, faults))
      else
        Hold(h.world.(sources := h.world.sources - {b.sourceId},
                      servers := ConvertServers(h.world.servers, tally.servers, b.sourceId, tally, clock)),
             TakenBack(a, faults))
  }

  function RestoreSources(h: Hold, buckets: seq<SourceBucket>, tally: Tally, faults: Faults, clock: Id -> int): Hold
    decreases |buckets|
  {
    if buckets == [] then h
    else RestoreSources(RestoreSource(h, buckets[0], tally, faults, clock), buckets[1..], tally, faults, clock)
  }

  // ---- the loop, all at once ----------------------------------------------------------

  ghost predicate Fails(b: SourceBucket, tally: Tally, faults: Faults) {
    b.sourceId in tally.sources && Blocked(EntriesOf(b), Declared(b.sourceId, tally), faults.stores)
  }

  ghost predicate SomeRestored(buckets: seq<SourceBucket>, sourceId: Id, tally: Tally, faults: Faults) {
    exists i :: 0 <= i < |buckets| && buckets[i].sourceId == sourceId && !Fails(buckets[i], tally, faults)
  }

  /** The sources the restore takes back out. */
  ghost function RolledBack(buckets: seq<SourceBucket>, tally: Tally, faults: Faults): set<Id> {
    set i | 0 <= i < |buckets| && Fails(buckets[i], tally, faults) && buckets[i].sourceId !in faults.removes
      :: buckets[i].sourceId
  }

  ghost function ConvertedAll(servers: map<Id, Server>, removed: set<Id>, tally: Tally, clock: Id -> int): map<Id, Server> {
    map id | id in servers ::
      if id in tally.servers && servers[id].origin.Present? && servers[id].origin.value.sourceId in removed
      then Converted(servers[id], tally, clock) else servers[id]
  }

  /** The world with these sources taken out and their imported servers converted. */
  ghost function WithoutSources(w: World, removed: set<Id>, tally: Tally, clock: Id -> int): World {
    w.(sources := w.sources - removed, servers := ConvertedAll(w.servers, removed, tally, clock))
  }

  lemma WithoutNoSources(w: World, tally: Tally, clock: Id -> int)
    ensures WithoutSources(w, {}, tally, clock) == w
  {
    assert w.sources - {} == w.sources;
    assert ConvertedAll(w.servers, {}, tally, clock) == w.servers;
  }

  /** Taking sources out in two goes is taking them out in one: a converted server has no origin left. */
  lemma WithoutSourcesJoin(w: World, first: set<Id>, rest: set<Id>, tally: Tally, clock: Id -> int)
    ensures WithoutSources(WithoutSources(w, first, tally, clock), rest, tally, clock) == WithoutSources(w, first + rest, tally, clock)
  {
    assert w.sources - (first + rest) == w.sources - first - rest;
    assert ConvertedAll(w.servers, first + rest, tally, clock)
        == ConvertedAll(ConvertedAll(w.servers, first, tally, clock), rest, tally, clock);
  }

  lemma RestoreSourceFrame(h: Hold, b: SourceBucket, tally: Tally, faults: Faults, clock: Id -> int)
    ensures
      var h' := RestoreSource(h, b, tally, faults, clock);
      var removed := RolledBack([b], tally, faults);
      && h'.world == WithoutSources(h.world, removed, tally, clock)
      && (forall k | k in h'.vault :: k in h.vault || (k in Declared(b.sourceId, tally) && b.sourceId in tally.sources))
      && (forall k | k in h.vault && !(k in Declared(b.sourceId, tally) && b.sourceId in tally.sources) ::
            k in h'.vault && h'.vault[k] == h.vault[k])
      && (Fails(b, tally, faults) ==>
            forall k | k in h'.vault && k in Declared(b.sourceId, tally) :: k in h.vault || k in faults.deletes)
  {
    StoreEntriesFrame(EntriesOf(b), Declared(b.sourceId, tally), faults.stores, Attempt(h.vault, {}, true));
    RolledBackOne(b, tally, faults);
    WithoutNoSources(h.world, tally, clock);
    assert ConvertedAll(h.world.servers, {b.sourceId}, tally, clock)
        == ConvertServers(h.world.servers, tally.servers, b.sourceId, tally, clock);
  }

  lemma RolledBackOne(b: SourceBucket, tally: Tally, faults: Faults)
    ensures RolledBack([b], tally, faults) == if Fails(b, tally, faults) && b.sourceId !in faults.removes then {b.sourceId} else {}
  {
    assert [b][0] == b;
  }

  /** Rolling sources back one after another is converting their servers all at once. */
  lemma {:induction false} RestoreSourcesAtOnce(h: Hold, buckets: seq<SourceBucket>, tally: Tally, faults: Faults, clock: Id -> int)
    ensures
      var h' := RestoreSources(h, buckets, tally, faults, clock);
      var removed := RolledBack(buckets, tally, faults);
      h'.world == WithoutSources(h.world, removed, tally, clock)
    decreases |buckets|
  {
    var removed := RolledBack(buckets, tally, faults);
    if buckets == [] {
      WithoutNoSources(h.world, tally, clock);
    } else {
      var h1 := RestoreSource(h, buckets[0], tally, faults, clock);
      RestoreSourceFrame(h, buckets[0], tally, faults, clock);
      RestoreSourcesAtOnce(h1, buckets[1..], tally, faults, clock);
      RolledBackSplits(buckets, tally, faults);
      var first, rest := RolledBack([buckets[0]], tally, faults), RolledBack(buckets[1..], tally, faults);
      WithoutSourcesJoin(h.world, first, rest, tally, clock);
    }
  }

  lemma RolledBackSplits(buckets: seq<SourceBucket>, tally: Tally, faults: Faults)
    requires buckets != []
    ensures RolledBack(buckets, tally, faults)
         == RolledBack([buckets[0]], tally, faults) + RolledBack(buckets[1..], tally, faults)
  {
    var all, first, rest :=
      RolledBack(buckets, tally, faults), RolledBack([buckets[0]], tally, faults), RolledBack(buckets[1..], tally, faults);
    forall id | id in all ensures id in first + rest {
      var i :| 0 <= i < |buckets| && Fails(buckets[i], tally, faults) && buckets[i].sourceId !in faults.removes && buckets[i].sourceId == id;
      if i == 0 {
        assert [buckets[0]][0] == buckets[0];
      } else {
        assert buckets[1..][i - 1] == buckets[i];
      }
    }
    forall id | id in rest ensures id in all {
      var i :| 0 <= i < |buckets[1..]| && Fails(buckets[1..][i], tally, faults) && buckets[1..][i].sourceId !in faults.removes && buckets[1..][i].sourceId == id;
      assert buckets[i + 1] == buckets[1..][i];
    }
  }

  /** What the source loop does to the vault: a field-by-field frame, and nothing left of a failure. */
  lemma {:induction false} RestoreSourcesVault(h: Hold, buckets: seq<SourceBucket>, tally: Tally, faults: Faults, clock: Id -> int, k: SecretKey)
    ensures
      var h' := RestoreSources(h, buckets, tally, faults, clock);
      && (k in h'.vault ==>
            || k in h.vault
            || (k.SourceSecret? && k.id in tally.sources && k in Declared(k.id, tally)
                && (k !in faults.deletes ==> SomeRestored(buckets, k.id, tally, faults))))
      && (k in h.vault && !(k.SourceSecret? && k.id in tally.sources) ==> k in h'.vault && h'.vault[k] == h.vault[k])
    decreases |buckets|
  {
    if buckets != [] {
      var b := buckets[0];
      var h1 := RestoreSource(h, b, tally, faults, clock);
      RestoreSourceFrame(h, b, tally, faults, clock);
      RestoreSourcesVault(h1, buckets[1..], tally, faults, clock, k);
      assert forall i :: 0 <= i < |buckets[1..]| ==> buckets[1..][i] == buckets[i + 1];
      var h' := RestoreSources(h, buckets, tally, faults, clock);
      if k in h'.vault && k !in h.vault && k !in faults.deletes {
        if k in h1.vault {
          assert buckets[0].sourceId == k.id && !Fails(buckets[0], tally, faults);
        } else {
          var i :| 0 <= i < |buckets[1..]| && buckets[1..][i].sourceId == k.id && !Fails(buckets[1..][i], tally, faults);
          assert buckets[i + 1].sourceId == k.id;
        }
      }
    }
  }

  // ---- the whole import ---------------------------------------------------------------

  function ProfileKeys(ids: set<Id>): set<SecretKey> {
    (set id | id in ids :: RecordSecret(ProfilePassword, id)) + (set id | id in ids :: RecordSecret(ProfilePassphrase, id))
  }

  function SourceKeys(sources: map<Id, Source>): set<SecretKey> {
    set id, f | id in sources && f in sources[id].secretFieldIds :: SourceSecret(id, f)
  }

  /** What the replace-mode wipe deletes: the secrets of profiles and of sources. */
  function WipedKeys(w: World): set<SecretKey> {
    ProfileKeys(w.profiles.Keys) + SourceKeys(w.sources)
  }

  function Wiped(h: Hold, mode: Mode): Vault {
    if mode.Merge? then h.vault else h.vault - WipedKeys(h.world)
  }

  /** The payload's sources by id; a later one wins. */
  function ById<T>(items: seq<Item<T>>): map<Id, T> {
    if items == [] then map[] else ById(items[..|items| - 1])[items[|items| - 1].id := items[|items| - 1].value]
  }

  function TallyOf(w: World, p: Payload, mode: Mode, checks: Checks, mint: (nat, nat) -> Id): Tally {
    TallyOfItems(Prepared(p, mint), Existing(w, mode), checks)
  }

  function TallyOfItems(q: Payload, existing: set<Id>, checks: Checks): Tally {
    Tally(AcceptedIds(q.servers, existing, checks.server), AcceptedIds(q.profiles, existing, checks.profile),
          AcceptedIds(q.sources, existing, checks.source), ById(q.sources))
  }

  function Owners(kind: Kind, tally: Tally): seq<Id> {
    if kind.ProfilePassword? || kind.ProfilePassphrase? then tally.profiles else tally.servers
  }

  function Wanted(kind: Kind, tally: Tally): set<SecretKey> {
    set id | id in Owners(kind, tally) :: RecordSecret(kind, id)
  }

  function KindEntries(kind: Kind, secrets: Secrets): seq<Entry> {
    if kind in secrets.flat
    then seq(|secrets.flat[kind]|, i requires 0 <= i < |secrets.flat[kind]| =>
               Entry(RecordSecret(kind, secrets.flat[kind][i].0), secrets.flat[kind][i].1))
    else []
  }

  const KINDS := [Password, Passphrase, ProxyPassword, ProfilePassword, ProfilePassphrase]

  /** The flat buckets in order; a store that rejects ends the import. */
  function RestoreKinds(kinds: seq<Kind>, secrets: Secrets, tally: Tally, faults: Faults, a: Attempt): Attempt
    decreases |kinds|
  {
    if kinds == [] || !a.ok then a
    else RestoreKinds(kinds[1..], secrets, tally, faults,
                      StoreEntries(KindEntries(kinds[0], secrets), Wanted(kinds[0], tally), faults.stores, a))
  }

  datatype Outcome = Outcome(hold: Hold, completed: bool)

  function SecretsRestored(h: Hold, secrets: Option<Secrets>, tally: Tally, faults: Faults, clock: Id -> int): Outcome {
    if secrets.None? then Outcome(h, true)
    else
      var flat := RestoreKinds(KINDS, secrets.value, tally, faults, Attempt(h.vault, {}, true));
      if !flat.ok then Outcome(h.(vault := flat.vault), false)
      else Outcome(RestoreSources(h.(vault := flat.vault), secrets.value.sources, tally, faults, clock), true)
  }

  /** What one import run is given. */
  datatype Run = Run(payload: Payload, mode: Mode, secrets: Option<Secrets>, checks: Checks,
                     mint: (nat, nat) -> Id, faults: Faults, clock: Id -> int)

  function RecordsImported(h: Hold, run: Run): Hold {
    Hold(Imported(h.world, run.payload, run.mode, run.checks, run.mint), Wiped(h, run.mode))
  }

  function RunTally(h: Hold, run: Run): Tally {
    TallyOf(h.world, run.payload, run.mode, run.checks, run.mint)
  }

  function ImportedHold(h: Hold, run: Run): Outcome {
    SecretsRestored(RecordsImported(h, run), run.secrets, RunTally(h, run), run.faults, run.clock)
  }

  // ---- whose secrets the vault holds --------------------------------------------------

  /** Profile and source secrets belong to a live record, and to a field it declares. */
  predicate Owned(w: World, k: SecretKey) {
    match k
    case RecordSecret(kind, id) => kind.ProfilePassword? || kind.ProfilePassphrase? ==> id in w.profiles
    case SourceSecret(id, field) => id in w.sources && field in w.sources[id].secretFieldIds
  }

  /** Every such secret has its owner, except those whose rollback delete failed. */
  ghost predicate VaultOwned(h: Hold, residue: set<SecretKey>) {
    forall k | k in h.vault :: k in residue || Owned(h.world, k)
  }

  ghost predicate DistinctIds<T>(items: seq<Item<T>>) {
    forall i, j | 0 <= i < j < |items| :: items[i].id != items[j].id
  }

  ghost predicate UniqueSources(run: Run) {
    && DistinctIds(Prepared(run.payload, run.mint).sources)
    && (run.secrets.Some? ==>
          forall i, j | 0 <= i < j < |run.secrets.value.sources| ::
            run.secrets.value.sources[i].sourceId != run.secrets.value.sources[j].sourceId)
  }

  lemma {:induction false} ByIdFinds<T>(items: seq<Item<T>>, i: nat)
    requires DistinctIds(items) && i < |items|
    ensures items[i].id in ById(items) && ById(items)[items[i].id] == items[i].value
    decreases |items|
  {
    if i < |items| - 1 {
      ByIdFinds(items[..|items| - 1], i);
    }
  }

  lemma {:induction false} ByIdFrom<T>(items: seq<Item<T>>, id: Id)
    ensures id in ById(items) <==> exists i :: 0 <= i < |items| && items[i].id == id
    decreases |items|
  {
    if items != [] {
      ByIdFrom(items[..|items| - 1], id);
      assert items[|items| - 1].id in ById(items);
      if id in ById(items[..|items| - 1]) {
        var i :| 0 <= i < |items[..|items| - 1]| && items[..|items| - 1][i].id == id;
        assert items[i].id == id;
      }
    }
  }

  /** Among distinct ids, what is added under an id is the one item that has it. */
  lemma AddedIsTheItem<T>(items: seq<Item<T>>, existing: set<Id>, valid: T -> bool, clean: T -> T, bucket: map<Id, T>, id: Id)
    requires DistinctIds(items) && id in AcceptedIds(items, existing, valid) && id !in bucket
    ensures id in Added(items, existing, valid, clean, bucket) && id in ById(items)
    ensures Added(items, existing, valid, clean, bucket)[id] == clean(ById(items)[id])
  {
    AcceptedIdsAre(items, existing, valid);
    AddedKeys(items, existing, valid, clean, bucket);
    var i :| 0 <= i < |items| && Accepted(items[i], existing, valid) && items[i].id == id;
    assert items[i].id in (set j | 0 <= j < |items| && Accepted(items[j], existing, valid) :: items[j].id);
    ByIdFinds(items, i);
  }

  /** The imported record of a source is the one its declared fields are read from. */
  lemma SourcesAsDeclared(h: Hold, run: Run, id: Id)
    requires DistinctIds(Prepared(run.payload, run.mint).sources) && id in RunTally(h, run).sources
    ensures var w := RecordsImported(h, run).world;
            && id in w.sources && id in RunTally(h, run).declared
            && w.sources[id].secretFieldIds == RunTally(h, run).declared[id].secretFieldIds
            && w.sources[id].name == RunTally(h, run).declared[id].name
            && w.sources[id].providerId == RunTally(h, run).declared[id].providerId
  {
    TallyIsImported(h, run, id);
    AddedIsTheItem(Prepared(run.payload, run.mint).sources, Existing(h.world, run.mode), run.checks.source, Same(),
                   Base(h.world, run.mode).sources, id);
  }

  /** Ids counted as imported are there, and in merge mode were nowhere before. */
  lemma TallyIsImported(h: Hold, run: Run, id: Id)
    ensures var w := RecordsImported(h, run).world;
            var t := RunTally(h, run);
            && (id in t.servers ==> id in w.servers)
            && (id in t.profiles ==> id in w.profiles)
            && (id in t.sources ==> id in w.sources)
            && (id in t.servers + t.profiles + t.sources && run.mode.Merge? ==> id !in AllIds(h.world))
  {
    var q := Prepared(run.payload, run.mint);
    var existing := Existing(h.world, run.mode);
    var base := Base(h.world, run.mode);
    AcceptedIdsAre(q.servers, existing, run.checks.server);
    AcceptedIdsAre(q.profiles, existing, run.checks.profile);
    AcceptedIdsAre(q.sources, existing, run.checks.source);
    AddedKeys(q.servers, existing, run.checks.server, SanitizeOrigin, base.servers);
    AddedKeys(q.profiles, existing, run.checks.profile, Same(), base.profiles);
    AddedKeys(q.sources, existing, run.checks.source, Same(), base.sources);
  }

  /** What merge mode had, it keeps: profiles stay, and sources keep their declared fields. */
  lemma MergeKeepsOwners(h: Hold, run: Run, k: SecretKey)
    requires run.mode.Merge? && Owned(h.world, k)
    ensures Owned(RecordsImported(h, run).world, k)
  {
    var q := Prepared(run.payload, run.mint);
    var existing := Existing(h.world, run.mode);
    AddedKeys(q.profiles, existing, run.checks.profile, Same(), h.world.profiles);
    AddedKeys(q.sources, existing, run.checks.source, Same(), h.world.sources);
  }

  lemma {:induction false} RestoreKindsFrame(kinds: seq<Kind>, secrets: Secrets, tally: Tally, faults: Faults, a: Attempt, k: SecretKey)
    ensures
      var r := RestoreKinds(kinds, secrets, tally, faults, a);
      var mine := k.RecordSecret? && k.id in Owners(k.kind, tally);
      && (k in r.vault ==> k in a.vault || mine)
      && (k in a.vault && !mine ==> k in r.vault && r.vault[k] == a.vault[k])
    decreases |kinds|
  {
    if kinds != [] && a.ok {
      var next := StoreEntries(KindEntries(kinds[0], secrets), Wanted(kinds[0], tally), faults.stores, a);
      StoreEntriesFrame(KindEntries(kinds[0], secrets), Wanted(kinds[0], tally), faults.stores, a);
      StoredStay(KindEntries(kinds[0], secrets), Wanted(kinds[0], tally), faults.stores, a);
      RestoreKindsFrame(kinds[1..], secrets, tally, faults, next, k);
    }
  }

  lemma {:induction false} StoredStay(entries: seq<Entry>, wanted: set<SecretKey>, failing: set<SecretKey>, a: Attempt)
    ensures var r := StoreEntries(entries, wanted, failing, a);
            a.vault.Keys <= r.vault.Keys && r.vault.Keys <= a.vault.Keys + wanted
    decreases |entries|
  {
    if entries != [] && entries[0].key !in wanted {
      StoredStay(entries[1..], wanted, failing, a);
    } else if entries != [] && entries[0].key !in failing {
      StoredStay(entries[1..], wanted, failing,
                 a.(vault := a.vault[entries[0].key := entries[0].secret], stored := a.stored + {entries[0].key}));
    }
  }

  /** After the records have been imported, nothing in the vault has lost its owner. */
  lemma RecordsKeepVaultOwned(h: Hold, run: Run)
    requires VaultOwned(h, {})
    ensures VaultOwned(RecordsImported(h, run), {})
  {
    var after := RecordsImported(h, run);
    forall k | k in after.vault ensures Owned(after.world, k) {
      assert Owned(h.world, k);
      if run.mode.Merge? {
        MergeKeepsOwners(h, run, k);
      } else {
        assert k !in WipedKeys(h.world);
      }
    }
  }

  /** Where a secret found after the import comes from. */
  lemma SecretComesFrom(h: Hold, run: Run, k: SecretKey)
    requires k in ImportedHold(h, run).hold.vault
    ensures
      var tally := RunTally(h, run);
      || k in Wiped(h, run.mode)
      || (k.RecordSecret? && k.id in Owners(k.kind, tally))
      || (k.SourceSecret? && k.id in tally.sources && k in Declared(k.id, tally)
          && (k !in run.faults.deletes ==>
                run.secrets.Some? && SomeRestored(run.secrets.value.sources, k.id, tally, run.faults)))
  {
    if run.secrets.Some? {
      var before, tally := RecordsImported(h, run), RunTally(h, run);
      var a := Attempt(before.vault, {}, true);
      var flat := RestoreKinds(KINDS, run.secrets.value, tally, run.faults, a);
      RestoreKindsFrame(KINDS, run.secrets.value, tally, run.faults, a, k);
      if flat.ok {
        RestoreSourcesVault(before.(vault := flat.vault), run.secrets.value.sources, tally, run.faults, run.clock, k);
      }
    }
  }

  /** How the secrets phase changes the records: the rolled-back sources, all at once. */
  ghost function TakenOut(h: Hold, run: Run): set<Id> {
    if run.secrets.Some? && ImportedHold(h, run).completed
    then RolledBack(run.secrets.value.sources, RunTally(h, run), run.faults) else {}
  }

  lemma RecordsAfterSecrets(h: Hold, run: Run)
    ensures
      ImportedHold(h, run).hold.world
      == WithoutSources(RecordsImported(h, run).world, TakenOut(h, run), RunTally(h, run), run.clock)
  {
    var before, tally := RecordsImported(h, run), RunTally(h, run);
    WithoutNoSources(before.world, tally, run.clock);
    if run.secrets.Some? {
      var flat := RestoreKinds(KINDS, run.secrets.value, tally, run.faults, Attempt(before.vault, {}, true));
      if flat.ok {
        RestoreSourcesAtOnce(before.(vault := flat.vault), run.secrets.value.sources, tally, run.faults, run.clock);
      }
    }
  }

  /**
   If every profile and source secret had its owner before, it does afterwards: in merge and in
   replace mode, whichever stores fail, whether the import completes or is cut short. Only a
   rollback delete that itself failed can leave something behind.
   */
  lemma ImportKeepsVaultOwned(h: Hold, run: Run)
    requires VaultOwned(h, {}) && UniqueSources(run)
    ensures VaultOwned(ImportedHold(h, run).hold, run.faults.deletes)
  {
    var before, after, tally := RecordsImported(h, run), ImportedHold(h, run).hold, RunTally(h, run);
    RecordsKeepVaultOwned(h, run);
    RecordsAfterSecrets(h, run);
    forall k | k in after.vault && k !in run.faults.deletes ensures Owned(after.world, k) {
      SecretComesFrom(h, run, k);
      TallyIsImported(h, run, k.id);
      if k.SourceSecret? {
        if k in before.vault {
          assert Owned(before.world, k);
        } else {
          SourcesAsDeclared(h, run, k.id);
        }
        NoSecretOfTakenOut(h, run, k);
      } else if k in before.vault {
        assert Owned(before.world, k);
      }
    }
  }

  /** A source taken back out holds no secret the import stored, so none at all. */
  lemma NoSecretOfTakenOut(h: Hold, run: Run, k: SecretKey)
    requires VaultOwned(h, {}) && UniqueSources(run)
    requires k.SourceSecret? && k in ImportedHold(h, run).hold.vault && k !in run.faults.deletes
    ensures k.id !in TakenOut(h, run)
  {
    var tally := RunTally(h, run);
    if k.id in TakenOut(h, run) {
      var buckets := run.secrets.value.sources;
      var i :| 0 <= i < |buckets| && Fails(buckets[i], tally, run.faults) && buckets[i].sourceId == k.id;
      FreshSourceHasNoSecret(h, run, k);
      SecretComesFrom(h, run, k);
    }
  }

  /** A source this import brings in starts with an empty part of the vault. */
  lemma FreshSourceHasNoSecret(h: Hold, run: Run, k: SecretKey)
    requires VaultOwned(h, {}) && k.SourceSecret? && k.id in RunTally(h, run).sources
    ensures k !in Wiped(h, run.mode)
  {
    TallyIsImported(h, run, k.id);
    if k in h.vault {
      assert Owned(h.world, k);
    }
  }

  /**
   A source whose restore fails leaves its part of the vault as it found it: in merge mode as
   before the import, in replace mode as the wipe left it.
   */
  lemma FailedSourceLeavesVaultAlone(h: Hold, run: Run, i: nat, field: string)
    requires VaultOwned(h, {}) && UniqueSources(run)
    requires run.secrets.Some? && i < |run.secrets.value.sources|
    requires Fails(run.secrets.value.sources[i], RunTally(h, run), run.faults)
    requires SourceSecret(run.secrets.value.sources[i].sourceId, field) !in run.faults.deletes
    ensures var k := SourceSecret(run.secrets.value.sources[i].sourceId, field);
            k in ImportedHold(h, run).hold.vault <==> k in Wiped(h, run.mode)
    ensures SourceSecret(run.secrets.value.sources[i].sourceId, field) !in ImportedHold(h, run).hold.vault
  {
    var buckets := run.secrets.value.sources;
    var k := SourceSecret(buckets[i].sourceId, field);
    FreshSourceHasNoSecret(h, run, k);
    if k in ImportedHold(h, run).hold.vault {
      SecretComesFrom(h, run, k);
      NoneRestored(buckets, i, RunTally(h, run), run.faults);
    }
  }

  /** Among buckets of different sources, a failing one is all there is of its source. */
  lemma NoneRestored(buckets: seq<SourceBucket>, i: nat, tally: Tally, faults: Faults)
    requires forall a, b | 0 <= a < b < |buckets| :: buckets[a].sourceId != buckets[b].sourceId
    requires i < |buckets| && Fails(buckets[i], tally, faults)
    ensures !SomeRestored(buckets, buckets[i].sourceId, tally, faults)
  {
  }

  /** Merge mode never writes, changes or removes a secret of a record that was already here. */
  lemma MergeLeavesLocalSecretsAlone(h: Hold, run: Run, k: SecretKey)
    requires run.mode.Merge? && k.id in AllIds(h.world)
    ensures var after := ImportedHold(h, run).hold.vault;
            (k in after <==> k in h.vault) && (k in after ==> after[k] == h.vault[k])
  {
    var tally := RunTally(h, run);
    TallyIsImported(h, run, k.id);
    if k in ImportedHold(h, run).hold.vault {
      SecretComesFrom(h, run, k);
    }
    if run.secrets.Some? {
      var before := RecordsImported(h, run);
      var a := Attempt(before.vault, {}, true);
      var flat := RestoreKinds(KINDS, run.secrets.value, tally, run.faults, a);
      RestoreKindsFrame(KINDS, run.secrets.value, tally, run.faults, a, k);
      if flat.ok {
        RestoreSourcesVault(before.(vault := flat.vault), run.secrets.value.sources, tally, run.faults, run.clock, k);
      }
    }
  }
}
