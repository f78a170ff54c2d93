/**
 What an import leaves in the vault, text by text: the secrets of the file for the records it
 brought in, and what was there for everything else.
 */
module BackupRestored {
  import opened Records
  import opened BackupImport
  import opened BackupSecrets

  // ---- the texts of a file ------------------------------------------------------------

  /** The text a record of a file gives for a name; of two the later counts. */
  function LastPair(pairs: seq<(string, string)>, name: string): Option<string> {
    if pairs == [] then None
    else if pairs[|pairs| - 1].0 == name then Some(pairs[|pairs| - 1].1)
    else LastPair(pairs[..|pairs| - 1], name)
  }

  /** The text a list of entries gives for a key. */
  function LastText(entries: seq<Entry>, k: SecretKey): Option<string> {
    if entries == [] then None
    else if entries[|entries| - 1].key == k then Some(entries[|entries| - 1].secret)
    else LastText(entries[..|entries| - 1], k)
  }

  lemma {:induction false} LastTextBehind(first: Entry, rest: seq<Entry>, k: SecretKey)
    ensures LastText([first] + rest, k)
         == if LastText(rest, k).Some? then LastText(rest, k) else if first.key == k then Some(first.secret) else None
    decreases |rest|
  {
    var all := [first] + rest;
    if rest != [] {
      assert all[..|all| - 1] == [first] + rest[..|rest| - 1];
      LastTextBehind(first, rest[..|rest| - 1], k);
    } else {
      assert all == [first];
    }
  }

  function TextAt(vault: Vault, k: SecretKey): Option<string> {
    if k in vault then Some(vault[k]) else None
  }

  /** What a key holds after entries have been stored: the last text given for it, if it was wanted and given one. */
  function TextAfter(entries: seq<Entry>, wanted: set<SecretKey>, vault: Vault, k: SecretKey): Option<string> {
    if k in wanted && LastText(entries, k).Some? then LastText(entries, k) else TextAt(vault, k)
  }

  /** Where no store rejects, every key holds that. */
  lemma {:induction false} EntriesAreStored(entries: seq<Entry>, wanted: set<SecretKey>, failing: set<SecretKey>, a: Attempt, k: SecretKey)
    requires a.ok && !Blocked(entries, wanted, failing)
    ensures StoreEntries(entries, wanted, failing, a).ok
    ensures TextAt(StoreEntries(entries, wanted, failing, a).vault, k) == TextAfter(entries, wanted, a.vault, k)
    decreases |entries|
  {
    if entries != [] {
      var rest := entries[1..];
      assert entries == [entries[0]] + rest;
      LastTextBehind(entries[0], rest, k);
      if entries[0].key in wanted {
        assert entries[0].key !in failing;
      }
      BlockedLater(entries, wanted, failing);
      EntriesAreStored(rest, wanted, failing,
                       if entries[0].key !in wanted then a
                       else a.(vault := a.vault[entries[0].key := entries[0].secret], stored := a.stored + {entries[0].key}), k);
    }
  }

  // ---- the flat buckets ---------------------------------------------------------------

  function PairsOf(secrets: Secrets, kind: Kind): seq<(Id, string)> {
    if kind in secrets.flat then secrets.flat[kind] else []
  }

  lemma {:induction false} LastOfEntries(entries: seq<Entry>, pairs: seq<(string, string)>, keys: seq<SecretKey>, name: string, k: SecretKey)
    requires |entries| == |pairs| == |keys|
    requires forall i | 0 <= i < |entries| :: entries[i] == Entry(keys[i], pairs[i].1) && (keys[i] == k <==> pairs[i].0 == name)
    ensures LastText(entries, k) == LastPair(pairs, name)
    decreases |entries|
  {
    if entries != [] {
      var n := |entries| - 1;
      LastOfEntries(entries[..n], pairs[..n], keys[..n], name, k);
    }
  }

  lemma KindText(kind: Kind, secrets: Secrets, k: SecretKey)
    ensures LastText(KindEntries(kind, secrets), k)
         == if k.RecordSecret? && k.kind == kind then LastPair(PairsOf(secrets, kind), k.id) else None
  {
    var entries, pairs := KindEntries(kind, secrets), PairsOf(secrets, kind);
    if k.RecordSecret? && k.kind == kind {
      LastOfEntries(entries, pairs, seq(|entries|, i requires 0 <= i < |entries| => entries[i].key), k.id, k);
    } else {
      NoText(entries, k);
    }
  }

  lemma {:induction false} NoText(entries: seq<Entry>, k: SecretKey)
    requires forall i | 0 <= i < |entries| :: entries[i].key != k
    ensures LastText(entries, k).None?
    decreases |entries|
  {
    if entries != [] {
      NoText(entries[..|entries| - 1], k);
    }
  }

  /** No store of a flat bucket rejects. */
  ghost predicate FlatAccepted(kinds: seq<Kind>, secrets: Secrets, tally: Tally, failing: set<SecretKey>) {
    forall kind | kind in kinds :: !Blocked(KindEntries(kind, secrets), Wanted(kind, tally), failing)
  }

  lemma {:induction false} KindsAreStored(kinds: seq<Kind>, secrets: Secrets, tally: Tally, faults: Faults, a: Attempt, k: SecretKey)
    requires a.ok && FlatAccepted(kinds, secrets, tally, faults.stores)
    ensures RestoreKinds(kinds, secrets, tally, faults, a).ok
    ensures TextAt(RestoreKinds(kinds, secrets, tally, faults, a).vault, k)
         == if k.RecordSecret? && k.kind in kinds && k in Wanted(k.kind, tally) && LastPair(PairsOf(secrets, k.kind), k.id).Some?
            then LastPair(PairsOf(secrets, k.kind), k.id) else TextAt(a.vault, k)
    decreases |kinds|
  {
    if kinds != [] {
      var kind, entries, wanted := kinds[0], KindEntries(kinds[0], secrets), Wanted(kinds[0], tally);
      assert kinds == [kind] + kinds[1..] && kind in kinds;
      EntriesAreStored(entries, wanted, faults.stores, a, k);
      KindText(kind, secrets, k);
      assert k in wanted ==> k.RecordSecret? && k.kind == kind;
      KindsAreStored(kinds[1..], secrets, tally, faults, StoreEntries(entries, wanted, faults.stores, a), k);
    }
  }

  /** A store that rejects ends the flat buckets. */
  lemma {:induction false} KindsBlocked(kinds: seq<Kind>, secrets: Secrets, tally: Tally, faults: Faults, a: Attempt)
    ensures RestoreKinds(kinds, secrets, tally, faults, a).ok <==> a.ok && FlatAccepted(kinds, secrets, tally, faults.stores)
    decreases |kinds|
  {
    if kinds != [] && a.ok {
      assert kinds == [kinds[0]] + kinds[1..] && kinds[0] in kinds;
      var next := StoreEntries(KindEntries(kinds[0], secrets), Wanted(kinds[0], tally), faults.stores, a);
      StoreEntriesFrame(KindEntries(kinds[0], secrets), Wanted(kinds[0], tally), faults.stores, a);
      KindsBlocked(kinds[1..], secrets, tally, faults, next);
    }
  }

  // ---- the sources --------------------------------------------------------------------

  lemma SourceText(b: SourceBucket, k: SecretKey)
    ensures LastText(EntriesOf(b), k) == if k.SourceSecret? && k.id == b.sourceId then LastPair(b.fields, k.field) else None
  {
    var entries := EntriesOf(b);
    if k.SourceSecret? && k.id == b.sourceId {
      LastOfEntries(entries, b.fields, seq(|entries|, i requires 0 <= i < |entries| => entries[i].key), k.field, k);
    } else {
      NoText(entries, k);
    }
  }

  /** A bucket of another source leaves the key alone. */
  lemma OtherSourceKeeps(h: Hold, b: SourceBucket, tally: Tally, faults: Faults, clock: Id -> int, k: SecretKey)
    requires !(k.SourceSecret? && k.id == b.sourceId)
    ensures TextAt(RestoreSource(h, b, tally, faults, clock).vault, k) == TextAt(h.vault, k)
  {
    RestoreSourceFrame(h, b, tally, faults, clock);
    assert k !in Declared(b.sourceId, tally);
  }

  lemma {:induction false} OtherSourcesKeep(h: Hold, buckets: seq<SourceBucket>, tally: Tally, faults: Faults, clock: Id -> int, k: SecretKey)
    requires forall i | 0 <= i < |buckets| :: !(k.SourceSecret? && k.id == buckets[i].sourceId)
    ensures TextAt(RestoreSources(h, buckets, tally, faults, clock).vault, k) == TextAt(h.vault, k)
    decreases |buckets|
  {
    if buckets != [] {
      OtherSourceKeeps(h, buckets[0], tally, faults, clock, k);
      OtherSourcesKeep(RestoreSource(h, buckets[0], tally, faults, clock), buckets[1..], tally, faults, clock, k);
    }
  }

  ghost predicate OneBucketEach(buckets: seq<SourceBucket>) {
    forall i, j | 0 <= i < j < |buckets| :: buckets[i].sourceId != buckets[j].sourceId
  }

  /** Where no store of a source rejects, its declared fields hold the texts of the file. */
  lemma {:induction false} SourceIsStored(h: Hold, buckets: seq<SourceBucket>, tally: Tally, faults: Faults, clock: Id -> int, i: nat, field: string)
    requires OneBucketEach(buckets) && i < |buckets| && buckets[i].sourceId in tally.sources && !Fails(buckets[i], tally, faults)
    ensures var k := SourceSecret(buckets[i].sourceId, field);
            TextAt(RestoreSources(h, buckets, tally, faults, clock).vault, k)
            == TextAfter(EntriesOf(buckets[i]), Declared(buckets[i].sourceId, tally), h.vault, k)
    decreases |buckets|
  {
    var b, k := buckets[0], SourceSecret(buckets[i].sourceId, field);
    var next := RestoreSource(h, b, tally, faults, clock);
    if i == 0 {
      EntriesAreStored(EntriesOf(b), Declared(b.sourceId, tally), faults.stores, Attempt(h.vault, {}, true), k);
      OtherSourcesKeep(next, buckets[1..], tally, faults, clock, k);
    } else {
      OtherSourceKeeps(h, b, tally, faults, clock, k);
      assert buckets[1..][i - 1] == buckets[i];
      SourceIsStored(next, buckets[1..], tally, faults, clock, i - 1, field);
    }
  }

  // ---- the whole import ---------------------------------------------------------------

  /** The import adds an item under this id: it was not there, and it is valid. */
  ghost predicate Brings<T>(items: seq<Item<T>>, there: set<Id>, valid: T -> bool, id: Id) {
    exists i :: 0 <= i < |items| && items[i].id == id && id !in there && valid(items[i].value)
  }

  /** The ids that are taken: every local one when merging, none when replacing. */
  function Taken(h: Hold, run: Run): set<Id> {
    match run.mode
    case Merge =>
      h.world.servers.Keys + h.world.tunnels.Keys + h.world.sources.Keys + h.world.profiles.Keys + h.world.templates.Keys
    case Replace => {}
  }

  /** The import brings the record this kind of secret is filed for: a server, or an auth profile. */
  ghost predicate BringsOwner(h: Hold, run: Run, kind: Kind, id: Id) {
    var q := Prepared(run.payload, run.mint);
    match kind
    case ProfilePassword => Brings(q.profiles, Taken(h, run), run.checks.profile, id)
    case ProfilePassphrase => Brings(q.profiles, Taken(h, run), run.checks.profile, id)
    case Password => Brings(q.servers, Taken(h, run), run.checks.server, id)
    case Passphrase => Brings(q.servers, Taken(h, run), run.checks.server, id)
    case ProxyPassword => Brings(q.servers, Taken(h, run), run.checks.server, id)
  }

  ghost predicate BringsSource(h: Hold, run: Run, id: Id) {
    Brings(Prepared(run.payload, run.mint).sources, Taken(h, run), run.checks.source, id)
  }

  lemma TakenIsExisting(h: Hold, run: Run)
    ensures Taken(h, run) == Existing(h.world, run.mode)
  {
  }

  lemma OwnersAreBrought(h: Hold, run: Run, kind: Kind, id: Id)
    ensures id in Owners(kind, RunTally(h, run)) <==> BringsOwner(h, run, kind, id)
    ensures id in RunTally(h, run).sources <==> BringsSource(h, run, id)
  {
    var q, existing := Prepared(run.payload, run.mint), Existing(h.world, run.mode);
    TakenIsExisting(h, run);
    AcceptedIdsAre(q.servers, existing, run.checks.server);
    AcceptedIdsAre(q.profiles, existing, run.checks.profile);
    AcceptedIdsAre(q.sources, existing, run.checks.source);
    BroughtIsAccepted(q.servers, existing, run.checks.server, id);
    BroughtIsAccepted(q.profiles, existing, run.checks.profile, id);
    BroughtIsAccepted(q.sources, existing, run.checks.source, id);
  }

  lemma BroughtIsAccepted<T>(items: seq<Item<T>>, existing: set<Id>, valid: T -> bool, id: Id)
    ensures Brings(items, existing, valid, id)
            <==> exists i :: 0 <= i < |items| && Accepted(items[i], existing, valid) && items[i].id == id
  {
    if Brings(items, existing, valid, id) {
      var i :| 0 <= i < |items| && items[i].id == id && id !in existing && valid(items[i].value);
      assert Accepted(items[i], existing, valid);
    }
  }

  /** No secret the file has for a record the import brings is rejected. */
  ghost predicate FlatStoresAccepted(h: Hold, run: Run) {
    run.secrets.Some? ==>
      forall kind, i | kind in run.secrets.value.flat && 0 <= i < |run.secrets.value.flat[kind]|
        && BringsOwner(h, run, kind, run.secrets.value.flat[kind][i].0) ::
        RecordSecret(kind, run.secrets.value.flat[kind][i].0) !in run.faults.stores
  }

  lemma FlatAcceptedMeans(h: Hold, run: Run)
    requires run.secrets.Some?
    ensures FlatAccepted(KINDS, run.secrets.value, RunTally(h, run), run.faults.stores) <==> FlatStoresAccepted(h, run)
  {
    var secrets, tally, failing := run.secrets.value, RunTally(h, run), run.faults.stores;
    if FlatStoresAccepted(h, run) {
      forall kind | kind in KINDS ensures !Blocked(KindEntries(kind, secrets), Wanted(kind, tally), failing) {
        forall i | 0 <= i < |KindEntries(kind, secrets)|
          ensures !(KindEntries(kind, secrets)[i].key in Wanted(kind, tally) && KindEntries(kind, secrets)[i].key in failing)
        {
          OwnersAreBrought(h, run, kind, secrets.flat[kind][i].0);
        }
      }
    } else {
      var kind, i :| kind in secrets.flat && 0 <= i < |secrets.flat[kind]|
        && BringsOwner(h, run, kind, secrets.flat[kind][i].0) && RecordSecret(kind, secrets.flat[kind][i].0) in failing;
      OwnersAreBrought(h, run, kind, secrets.flat[kind][i].0);
      var entries := KindEntries(kind, secrets);
      assert entries[i].key in Wanted(kind, tally) && entries[i].key in failing;
      EveryKind(kind);
    }
  }

  lemma EveryKind(kind: Kind)
    ensures kind in KINDS
  {
    assert KINDS[0] == Password && KINDS[1] == Passphrase && KINDS[2] == ProxyPassword;
    assert KINDS[3] == ProfilePassword && KINDS[4] == ProfilePassphrase;
  }

  /** An import that gets through its records completes exactly when no such store rejects. */
  lemma ImportCompletesExactly(h: Hold, run: Run)
    ensures ImportedHold(h, run).completed <==> FlatStoresAccepted(h, run)
  {
    if run.secrets.Some? {
      FlatAcceptedMeans(h, run);
      KindsBlocked(KINDS, run.secrets.value, RunTally(h, run), run.faults, Attempt(RecordsImported(h, run).vault, {}, true));
    }
  }

  /**
   After an import that completes, for every kind of secret and every id: where the import brought
   the record and the file has a secret for it, the vault holds that secret, the last one if there
   are several; everywhere else it holds what it held, in replace mode what the wipe left.
   */
  lemma RecordSecretsAreTheFiles(h: Hold, run: Run, kind: Kind, id: Id)
    requires run.secrets.Some? && FlatStoresAccepted(h, run)
    ensures
      var given := LastPair(PairsOf(run.secrets.value, kind), id);
      TextAt(ImportedHold(h, run).hold.vault, RecordSecret(kind, id))
      == if BringsOwner(h, run, kind, id) && given.Some? then given else TextAt(Wiped(h, run.mode), RecordSecret(kind, id))
  {
    var before, tally, k := RecordsImported(h, run), RunTally(h, run), RecordSecret(kind, id);
    var a := Attempt(before.vault, {}, true);
    var flat := RestoreKinds(KINDS, run.secrets.value, tally, run.faults, a);
    FlatAcceptedMeans(h, run);
    EveryKind(kind);
    KindsAreStored(KINDS, run.secrets.value, tally, run.faults, a, k);
    OwnersAreBrought(h, run, kind, id);
    OtherSourcesKeep(before.(vault := flat.vault), run.secrets.value.sources, tally, run.faults, run.clock, k);
  }

  /** A store of a declared field of this source rejects. */
  ghost predicate FieldRejected(b: SourceBucket, fields: set<string>, failing: set<SecretKey>) {
    exists n :: 0 <= n < |b.fields| && b.fields[n].0 in fields && SourceSecret(b.sourceId, b.fields[n].0) in failing
  }

  /** The import brings the source of this bucket, and this item of the payload is its record. */
  ghost predicate BroughtAs(h: Hold, run: Run, i: nat, j: nat) {
    var q := Prepared(run.payload, run.mint);
    && run.secrets.Some? && i < |run.secrets.value.sources| && j < |q.sources|
    && q.sources[j].id == run.secrets.value.sources[i].sourceId && BringsSource(h, run, q.sources[j].id)
  }

  lemma FailsMeans(h: Hold, run: Run, i: nat, j: nat)
    requires UniqueSources(run) && BroughtAs(h, run, i, j)
    ensures
      var b, source, tally := run.secrets.value.sources[i], Prepared(run.payload, run.mint).sources[j].value, RunTally(h, run);
      && b.sourceId in tally.sources
      && (forall f :: SourceSecret(b.sourceId, f) in Declared(b.sourceId, tally) <==> f in source.secretFieldIds)
      && (Fails(b, tally, run.faults) <==> FieldRejected(b, source.secretFieldIds, run.faults.stores))
  {
    var b, tally, q := run.secrets.value.sources[i], RunTally(h, run), Prepared(run.payload, run.mint);
    OwnersAreBrought(h, run, Password, b.sourceId);
    ByIdFinds(q.sources, j);
    assert tally.declared[b.sourceId] == q.sources[j].value;
    BlockedMeans(b, q.sources[j].value.secretFieldIds, Declared(b.sourceId, tally), run.faults.stores);
  }

  lemma BlockedMeans(b: SourceBucket, fields: set<string>, declared: set<SecretKey>, failing: set<SecretKey>)
    requires forall f :: SourceSecret(b.sourceId, f) in declared <==> f in fields
    ensures Blocked(EntriesOf(b), declared, failing) <==> FieldRejected(b, fields, failing)
  {
    var entries := EntriesOf(b);
    assert forall n | 0 <= n < |entries| :: entries[n].key == SourceSecret(b.sourceId, b.fields[n].0);
    if Blocked(entries, declared, failing) {
      var n :| 0 <= n < |entries| && entries[n].key in declared && entries[n].key in failing;
      assert b.fields[n].0 in fields;
    }
    if FieldRejected(b, fields, failing) {
      var n :| 0 <= n < |b.fields| && b.fields[n].0 in fields && SourceSecret(b.sourceId, b.fields[n].0) in failing;
      assert entries[n].key in declared && entries[n].key in failing;
    }
  }

  /**
   A source the import brought, and none of whose declared fields is rejected, stays, and each of
   its declared fields holds the text of the file; a field it does not declare is not restored.
   */
  lemma SourceSecretsAreTheFiles(h: Hold, run: Run, i: nat, j: nat, field: string)
    requires UniqueSources(run) && BroughtAs(h, run, i, j) && FlatStoresAccepted(h, run)
    requires !FieldRejected(run.secrets.value.sources[i], Prepared(run.payload, run.mint).sources[j].value.secretFieldIds, run.faults.stores)
    ensures
      var b, source := run.secrets.value.sources[i], Prepared(run.payload, run.mint).sources[j].value;
      var k, given := SourceSecret(b.sourceId, field), LastPair(b.fields, field);
      && TextAt(ImportedHold(h, run).hold.vault, k)
         == (if field in source.secretFieldIds && given.Some? then given else TextAt(Wiped(h, run.mode), k))
      && b.sourceId in ImportedHold(h, run).hold.world.sources
  {
    var b, tally, secrets := run.secrets.value.sources[i], RunTally(h, run), run.secrets.value;
    var before, k := RecordsImported(h, run), SourceSecret(b.sourceId, field);
    var a := Attempt(before.vault, {}, true);
    var flat := RestoreKinds(KINDS, secrets, tally, run.faults, a);
    FailsMeans(h, run, i, j);
    FlatAcceptedMeans(h, run);
    KindsAreStored(KINDS, secrets, tally, run.faults, a, k);
    SourceIsStored(before.(vault := flat.vault), secrets.sources, tally, run.faults, run.clock, i, field);
    SourceText(b, k);
    SourceStays(h, run, i);
  }

  lemma SourceStays(h: Hold, run: Run, i: nat)
    requires UniqueSources(run) && FlatStoresAccepted(h, run) && run.secrets.Some? && i < |run.secrets.value.sources|
    requires run.secrets.value.sources[i].sourceId in RunTally(h, run).sources
    ensures
      var b := run.secrets.value.sources[i];
      b.sourceId in ImportedHold(h, run).hold.world.sources
      <==> !Fails(b, RunTally(h, run), run.faults) || b.sourceId in run.faults.removes
  {
    var b, buckets := run.secrets.value.sources[i], run.secrets.value.sources;
    RecordsAfterSecrets(h, run);
    ImportCompletesExactly(h, run);
    TallyIsImported(h, run, b.sourceId);
    BucketRolledBack(buckets, i, RunTally(h, run), run.faults);
  }

  /** Among buckets of different sources, one decides alone whether its source is taken back out. */
  lemma BucketRolledBack(buckets: seq<SourceBucket>, i: nat, tally: Tally, faults: Faults)
    requires OneBucketEach(buckets) && i < |buckets|
    ensures buckets[i].sourceId in RolledBack(buckets, tally, faults)
            <==> Fails(buckets[i], tally, faults) && buckets[i].sourceId !in faults.removes
  {
    if buckets[i].sourceId in RolledBack(buckets, tally, faults) {
      var j :| 0 <= j < |buckets| && Fails(buckets[j], tally, faults) && buckets[j].sourceId !in faults.removes
        && buckets[j].sourceId == buckets[i].sourceId;
      assert i == j;
    }
  }

  /** One with a rejected field goes, unless its removal is rejected as well. */
  lemma RejectedSourceGoes(h: Hold, run: Run, i: nat, j: nat)
    requires UniqueSources(run) && BroughtAs(h, run, i, j) && FlatStoresAccepted(h, run)
    ensures
      var b, source := run.secrets.value.sources[i], Prepared(run.payload, run.mint).sources[j].value;
      b.sourceId !in ImportedHold(h, run).hold.world.sources
      <==> FieldRejected(b, source.secretFieldIds, run.faults.stores) && b.sourceId !in run.faults.removes
  {
    FailsMeans(h, run, i, j);
    SourceStays(h, run, i);
  }

  /** The wipe of replace mode takes the secrets of the auth profiles there and of the fields the sources there declare, and no other. */
  lemma WipedExactly(h: Hold, mode: Mode, k: SecretKey)
    ensures
      var goes := mode.Replace? && match k
        case RecordSecret(kind, id) => (kind == ProfilePassword || kind == ProfilePassphrase) && id in h.world.profiles
        case SourceSecret(id, field) => id in h.world.sources && field in h.world.sources[id].secretFieldIds;
      TextAt(Wiped(h, mode), k) == if goes then None else TextAt(h.vault, k)
  {
    assert k in WipedKeys(h.world) <==> match k
      case RecordSecret(kind, id) => (kind == ProfilePassword || kind == ProfilePassphrase) && id in h.world.profiles
      case SourceSecret(id, field) => id in h.world.sources && field in h.world.sources[id].secretFieldIds;
  }

  // ---- imports whose stores reject ----------------------------------------------------

  ghost predicate GivenText(entries: seq<Entry>, k: SecretKey, text: string) {
    exists i :: 0 <= i < |entries| && entries[i] == Entry(k, text)
  }

  /** Wherever the stores stop, a key holds what it held or a text given for it. */
  lemma {:induction false} OnlyGivenTexts(entries: seq<Entry>, wanted: set<SecretKey>, failing: set<SecretKey>, a: Attempt, k: SecretKey)
    ensures var r := TextAt(StoreEntries(entries, wanted, failing, a).vault, k);
            r == TextAt(a.vault, k) || (k in wanted && r.Some? && GivenText(entries, k, r.value))
    decreases |entries|
  {
    if entries != [] {
      var rest := entries[1..];
      assert forall i | 0 <= i < |rest| :: rest[i] == entries[i + 1];
      if entries[0].key !in wanted {
        OnlyGivenTexts(rest, wanted, failing, a, k);
      } else if entries[0].key !in failing {
        var next := a.(vault := a.vault[entries[0].key := entries[0].secret], stored := a.stored + {entries[0].key});
        OnlyGivenTexts(rest, wanted, failing, next, k);
        assert entries[0].key == k ==> entries[0] == Entry(k, entries[0].secret);
      }
    }
  }

  lemma {:induction false} KindsGiveTexts(kinds: seq<Kind>, secrets: Secrets, tally: Tally, faults: Faults, a: Attempt, k: SecretKey)
    ensures var r := TextAt(RestoreKinds(kinds, secrets, tally, faults, a).vault, k);
            r == TextAt(a.vault, k)
            || (k.RecordSecret? && k in Wanted(k.kind, tally) && r.Some? && GivenText(KindEntries(k.kind, secrets), k, r.value))
    decreases |kinds|
  {
    if kinds != [] && a.ok {
      var entries, wanted := KindEntries(kinds[0], secrets), Wanted(kinds[0], tally);
      OnlyGivenTexts(entries, wanted, faults.stores, a, k);
      assert k in wanted ==> k.RecordSecret? && k.kind == kinds[0];
      KindsGiveTexts(kinds[1..], secrets, tally, faults, StoreEntries(entries, wanted, faults.stores, a), k);
    }
  }

  /** Also of an import cut short by a store: a record's secret is as it was, or the import brought the record and the file has that text for it. */
  lemma CutShortHoldsOnlyTheFiles(h: Hold, run: Run, kind: Kind, id: Id)
    requires run.secrets.Some?
    ensures
      var text := TextAt(ImportedHold(h, run).hold.vault, RecordSecret(kind, id));
      || text == TextAt(Wiped(h, run.mode), RecordSecret(kind, id))
      || (BringsOwner(h, run, kind, id) && text.Some? && (id, text.value) in PairsOf(run.secrets.value, kind))
  {
    var before, tally, k := RecordsImported(h, run), RunTally(h, run), RecordSecret(kind, id);
    var a := Attempt(before.vault, {}, true);
    var flat := RestoreKinds(KINDS, run.secrets.value, tally, run.faults, a);
    KindsGiveTexts(KINDS, run.secrets.value, tally, run.faults, a, k);
    OwnersAreBrought(h, run, kind, id);
    if flat.ok {
      OtherSourcesKeep(before.(vault := flat.vault), run.secrets.value.sources, tally, run.faults, run.clock, k);
    }
    if TextAt(flat.vault, k) != TextAt(before.vault, k) {
      var entries := KindEntries(kind, run.secrets.value);
      var i :| 0 <= i < |entries| && entries[i] == Entry(k, TextAt(flat.vault, k).value);
      assert PairsOf(run.secrets.value, kind)[i] == (id, entries[i].secret);
    }
  }
}
