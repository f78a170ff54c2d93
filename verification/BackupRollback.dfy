/**
 What an import and its rollbacks leave behind: no dangling reference, no authority to be
 adopted that a server did not arrive with, and nothing more to do for the same file.
 */
module BackupRollback {
  import opened Records
  import opened BackupImport
  import opened BackupSecrets

  /** A server a source may claim whole: no origin, but a marker saying who kept it. */
  predicate Adoptable(server: Server) {
    server.origin.Absent? && server.formerlySynced.Present?
  }

  /** What adoption matches a source's device against. */
  datatype Match = Match(providerId: string, instanceKey: Option<string>, externalId: string)

  function MatchOf(d: Detached): Match {
    Match(d.providerId, d.instanceKey, d.externalId)
  }

  /** Adoptable, as this device of this provider and instance. */
  predicate AdoptableAs(server: Server, m: Match) {
    Adoptable(server) && MatchOf(server.formerlySynced.value) == m
  }

  /** What a source would match for this origin, were it kept as a marker. */
  predicate OriginMatches(o: Origin, providerId: string, m: Match) {
    m == Match(providerId, o.syncedInstanceKey, o.externalId)
  }

  /** Some payload item under this id was adoptable so as it arrived. */
  ghost predicate ArrivedAdoptable(items: seq<Item<Server>>, id: Id, m: Match) {
    exists i :: 0 <= i < |items| && items[i].id == id && AdoptableAs(items[i].value, m)
  }

  /** Some payload item under this id came with this origin. */
  ghost predicate ArrivedFrom(items: seq<Item<Server>>, id: Id, o: Origin) {
    exists i :: 0 <= i < |items| && items[i].id == id && items[i].value.origin.Present?
      && SameButLinkStamps(items[i].value.origin.value, o)
  }

  /** The sweep may take link stamps from an origin, and nothing else. */
  predicate SameButLinkStamps(a: Origin, b: Origin) {
    a.(stamps := b.stamps) == b
  }

  /** Taking sources out and converting their servers breaks no reference. */
  lemma TakingOutKeepsReferences(w: World, removed: set<Id>, tally: Tally, clock: Id -> int)
    requires ReferencesResolve(w)
    ensures ReferencesResolve(WithoutSources(w, removed, tally, clock))
  {
    var after := WithoutSources(w, removed, tally, clock);
    assert after.servers.Keys == w.servers.Keys;
    forall id | id in after.servers ensures LinksResolve(after.servers[id].links, after.profiles.Keys, after.servers.Keys) {
      assert LinksResolve(w.servers[id].links, w.profiles.Keys, w.servers.Keys);
    }
  }

  /** A completed import leaves nothing dangling, rolled-back sources included. */
  lemma ReferencesResolveAfterRollback(h: Hold, run: Run)
    ensures ReferencesResolve(ImportedHold(h, run).hold.world)
  {
    ImportResolvesEverything(h.world, run.payload, run.mode, run.checks, run.mint);
    RecordsAfterSecrets(h, run);
    TakingOutKeepsReferences(RecordsImported(h, run).world, TakenOut(h, run), RunTally(h, run), run.clock);
  }

  /** Sweeping a server touches neither whether it has an origin or a marker, nor what they name. */
  lemma SweepKeepsProvenance(server: Server, profiles: set<Id>, servers: set<Id>)
    ensures var after := SweptServer(server, profiles, servers);
      && Adoptable(after) == Adoptable(server)
      && (Adoptable(server) ==> MatchOf(after.formerlySynced.value) == MatchOf(server.formerlySynced.value))
      && after.origin.Present? == server.origin.Present?
      && (after.origin.Present? ==> SameButLinkStamps(server.origin.value, after.origin.value))
  {
  }

  /** Sanitizing gives no authority away: what is adoptable once added was so in the bucket or in the file. */
  lemma AddingGivesNoAuthority(items: seq<Item<Server>>, existing: set<Id>, valid: Server -> bool, bucket: map<Id, Server>, id: Id)
    requires id in AddedServers(items, existing, valid, bucket)
    ensures
      var server := AddedServers(items, existing, valid, bucket)[id];
      var kept := id in bucket && Quiet(server) == Quiet(bucket[id]);
      && (Adoptable(server) ==> kept || ArrivedAdoptable(items, id, MatchOf(server.formerlySynced.value)))
      && (server.origin.Present? ==> kept || ArrivedFrom(items, id, server.origin.value))
  {
    AddedServerFrom(items, existing, valid, bucket, id);
    var server := AddedServers(items, existing, valid, bucket)[id];
    if !(id in bucket && Quiet(server) == Quiet(bucket[id])) {
      var i :| 0 <= i < |items| && Accepted(items[i], existing, valid) && items[i].id == id
               && Quiet(server) == Quiet(SanitizeOrigin(items[i].value));
      assert server.origin == SanitizeOrigin(items[i].value).origin;
      assert server.formerlySynced == SanitizeOrigin(items[i].value).formerlySynced;
    }
  }

  /** The same over a whole records phase, sweep included. */
  lemma RecordsGiveNoAuthority(h: Hold, run: Run, id: Id)
    requires id in RecordsImported(h, run).world.servers
    ensures
      var server := RecordsImported(h, run).world.servers[id];
      var items := Prepared(run.payload, run.mint).servers;
      && (Adoptable(server) ==>
            var m := MatchOf(server.formerlySynced.value);
            || (run.mode.Merge? && id in h.world.servers && AdoptableAs(h.world.servers[id], m))
            || ArrivedAdoptable(items, id, m))
      && (server.origin.Present? ==>
            (run.mode.Merge? && id in h.world.servers) || ArrivedFrom(items, id, server.origin.value))
  {
    var items := Prepared(run.payload, run.mint).servers;
    var existing, base := Existing(h.world, run.mode), Base(h.world, run.mode);
    var added := WithPayload(base, existing, Prepared(run.payload, run.mint), run.checks);
    AddingGivesNoAuthority(items, existing, run.checks.server, base.servers, id);
    SweepKeepsProvenance(added.servers[id], added.profiles.Keys, added.servers.Keys);
    if added.servers[id].origin.Present? && ArrivedFrom(items, id, added.servers[id].origin.value) {
      ArrivedSwept(items, id, added.servers[id].origin.value, RecordsImported(h, run).world.servers[id].origin.value);
    }
  }

  lemma ArrivedSwept(items: seq<Item<Server>>, id: Id, o: Origin, swept: Origin)
    requires ArrivedFrom(items, id, o) && SameButLinkStamps(o, swept)
    ensures ArrivedFrom(items, id, swept)
  {
    var i :| 0 <= i < |items| && items[i].id == id && items[i].value.origin.Present? && SameButLinkStamps(items[i].value.origin.value, o);
    assert SameButLinkStamps(items[i].value.origin.value, swept);
  }

  /** Some payload item under this id came with an origin that names a source this run took out, and matches so. */
  ghost predicate DetachedByRun(h: Hold, run: Run, id: Id, m: Match) {
    exists o :: ArrivedFrom(Prepared(run.payload, run.mint).servers, id, o) && o.sourceId in TakenOut(h, run)
      && o.sourceId in RunTally(h, run).declared && OriginMatches(o, RunTally(h, run).declared[o.sourceId].providerId, m)
  }

  /**
   No server gains the authority to be adopted, nor to be adopted as anything else: one that is
   adoptable afterwards was adoptable as the same device of the same provider and instance
   before in this core, arrived so in the file, or arrived as that device of a source this very
   run took out.
   */
  lemma NoAdoptionGained(h: Hold, run: Run, id: Id)
    requires id in ImportedHold(h, run).hold.world.servers && Adoptable(ImportedHold(h, run).hold.world.servers[id])
    ensures
      var items := Prepared(run.payload, run.mint).servers;
      var m := MatchOf(ImportedHold(h, run).hold.world.servers[id].formerlySynced.value);
      || (run.mode.Merge? && id in h.world.servers && AdoptableAs(h.world.servers[id], m))
      || ArrivedAdoptable(items, id, m)
      || (id in RunTally(h, run).servers && DetachedByRun(h, run, id, m))
  {
    RecordsAfterSecrets(h, run);
    RecordsGiveNoAuthority(h, run, id);
    TallyIsImported(h, run, id);
    assert run.mode.Merge? && id in h.world.servers ==> id in AllIds(h.world);
    var before, after := RecordsImported(h, run).world.servers[id], ImportedHold(h, run).hold.world.servers[id];
    if after != before {
      var o := before.origin.value;
      assert ArrivedFrom(Prepared(run.payload, run.mint).servers, id, o);
      assert OriginMatches(o, RunTally(h, run).declared[o.sourceId].providerId, MatchOf(after.formerlySynced.value));
    }
  }

  /** A source taken out is one this run imported. */
  lemma TakenOutWasImported(h: Hold, run: Run, id: Id)
    requires id in TakenOut(h, run)
    ensures id in RunTally(h, run).sources && id in RunTally(h, run).declared
    ensures exists i :: 0 <= i < |Prepared(run.payload, run.mint).sources| && Prepared(run.payload, run.mint).sources[i].id == id
  {
    var items := Prepared(run.payload, run.mint).sources;
    AcceptedIdsAre(items, Existing(h.world, run.mode), run.checks.source);
    ByIdFrom(items, id);
  }

  /**
   A server imported for a source that had to be taken out loses its origin, and its marker
   names that source and its provider as imported and holds exactly the receipts a marker
   carries. Nothing else about the server changes; what of its origin is lost with it is what
   `ReceiptRecovers` says.
   */
  lemma ConvertedCarriesItsReceipts(h: Hold, run: Run, id: Id)
    requires id in RunTally(h, run).servers
    requires id in RecordsImported(h, run).world.servers
    requires RecordsImported(h, run).world.servers[id].origin.Present?
    requires RecordsImported(h, run).world.servers[id].origin.value.sourceId in TakenOut(h, run)
    ensures
      var before := RecordsImported(h, run).world.servers[id];
      var o := before.origin.value;
      && id in ImportedHold(h, run).hold.world.servers
      && var after := ImportedHold(h, run).hold.world.servers[id];
      && after.origin.Absent? && after.formerlySynced.Present?
      && after.(origin := before.origin, formerlySynced := before.formerlySynced) == before
      && var d := after.formerlySynced.value;
         && d.sourceId == o.sourceId && d.externalId == o.externalId && d.instanceKey == o.syncedInstanceKey
         && d.syncedIpmiHost == o.syncedIpmiHost && d.syncedAltHost == o.syncedAltHost
         && d.syncedProtocol == o.syncedProtocol && d.stamps == o.stamps
         && d.detachedAt == run.clock(o.sourceId)
         && (Rebuilt(d, o.syncedAt) == o <==> LeavesNothing(o))
         && (DistinctIds(Prepared(run.payload, run.mint).sources) ==>
               && o.sourceId in RecordsImported(h, run).world.sources
               && d.sourceName == RecordsImported(h, run).world.sources[o.sourceId].name
               && d.providerId == RecordsImported(h, run).world.sources[o.sourceId].providerId)
  {
    RecordsAfterSecrets(h, run);
    var o := RecordsImported(h, run).world.servers[id].origin.value;
    TakenOutWasImported(h, run, o.sourceId);
    ReceiptRecovers(o, RunTally(h, run).declared[o.sourceId], run.clock(o.sourceId));
    if DistinctIds(Prepared(run.payload, run.mint).sources) {
      SourcesAsDeclared(h, run, o.sourceId);
    }
  }

  /** After a rollback no imported server names a removed source, and no other server changed. */
  lemma RollbackStaysWithTheImport(h: Hold, run: Run, id: Id)
    requires id in ImportedHold(h, run).hold.world.servers
    ensures
      var after := ImportedHold(h, run).hold.world;
      && id in RecordsImported(h, run).world.servers
      && (id in RunTally(h, run).servers && after.servers[id].origin.Present? ==>
            after.servers[id].origin.value.sourceId !in TakenOut(h, run))
      && (id !in RunTally(h, run).servers ==> after.servers[id] == RecordsImported(h, run).world.servers[id])
      && after.sources.Keys !! TakenOut(h, run)
  {
    RecordsAfterSecrets(h, run);
  }

  /** The payload brings a server that opens the file explorer. */
  ghost predicate OpenerImported(h: Hold, run: Run) {
    BringsOpener(Prepared(run.payload, run.mint).servers, Existing(h.world, run.mode), run.checks.server)
  }

  /**
   In merge mode a server that was already here is swept of dangling links and, exactly when an
   imported server opens the file explorer, no longer opens it; nothing else happens to it.
   */
  lemma MergeOnlySweepsLocalServers(h: Hold, run: Run, id: Id)
    requires run.mode.Merge? && id in h.world.servers
    ensures
      var after := ImportedHold(h, run).hold.world;
      var before := if OpenerImported(h, run) then Quiet(h.world.servers[id]) else h.world.servers[id];
      && id in after.servers
      && after.servers[id] == SweptServer(before, after.profiles.Keys, after.servers.Keys)
  {
    RecordsAfterSecrets(h, run);
    TallyIsImported(h, run, id);
    AddedBesideLocal(h, run, id);
    var added := WithPayload(h.world, Existing(h.world, run.mode), Prepared(run.payload, run.mint), run.checks);
    assert ImportedHold(h, run).hold.world.servers.Keys == added.servers.Keys;
    assert RecordsImported(h, run).world.servers[id] == SweptServer(added.servers[id], added.profiles.Keys, added.servers.Keys);
  }

  /** Before the sweep a local server is as it was, but for the flag. */
  lemma AddedBesideLocal(h: Hold, run: Run, id: Id)
    requires run.mode.Merge? && id in h.world.servers
    ensures
      var added := WithPayload(h.world, Existing(h.world, run.mode), Prepared(run.payload, run.mint), run.checks);
      && id in added.servers
      && added.servers[id] == if OpenerImported(h, run) then Quiet(h.world.servers[id]) else h.world.servers[id]
  {
    TallyIsImported(h, run, id);
    AddingSilencesOthers(Prepared(run.payload, run.mint).servers, Existing(h.world, run.mode), run.checks.server, h.world.servers, id);
  }

  /** At most one server opens the file explorer, through any import and its rollbacks. */
  lemma ImportKeepsSoleOpener(h: Hold, run: Run)
    requires SoleOpener(h.world.servers)
    ensures SoleOpener(ImportedHold(h, run).hold.world.servers)
  {
    RecordsAfterSecrets(h, run);
    AddingKeepsSole(Prepared(run.payload, run.mint).servers, Existing(h.world, run.mode), run.checks.server,
                    Base(h.world, run.mode).servers);
  }

  // ---- merging the same file twice ----------------------------------------------------

  lemma {:induction false} SettledCountsNothing<T>(items: seq<Item<T>>, existing: set<Id>, valid: T -> bool)
    requires Settled(items, existing, valid)
    ensures AcceptedIds(items, existing, valid) == []
    decreases |items|
  {
    if items != [] {
      SettledCountsNothing(items[1..], existing, valid);
    }
  }

  lemma {:induction false} NothingWanted(entries: seq<Entry>, failing: set<SecretKey>, a: Attempt)
    ensures StoreEntries(entries, {}, failing, a) == a
    decreases |entries|
  {
    if entries != [] {
      NothingWanted(entries[1..], failing, a);
    }
  }

  lemma {:induction false} NothingForKinds(kinds: seq<Kind>, secrets: Secrets, tally: Tally, faults: Faults, a: Attempt)
    requires tally.servers == [] && tally.profiles == []
    ensures RestoreKinds(kinds, secrets, tally, faults, a) == a
    decreases |kinds|
  {
    if kinds != [] && a.ok {
      assert Wanted(kinds[0], tally) == {};
      NothingWanted(KindEntries(kinds[0], secrets), faults.stores, a);
      NothingForKinds(kinds[1..], secrets, tally, faults, a);
    }
  }

  lemma {:induction false} NothingForSources(h: Hold, buckets: seq<SourceBucket>, tally: Tally, faults: Faults, clock: Id -> int)
    requires tally.sources == []
    ensures RestoreSources(h, buckets, tally, faults, clock) == h
    decreases |buckets|
  {
    if buckets != [] {
      NothingForSources(h, buckets[1..], tally, faults, clock);
    }
  }

  /**
   After a merge that had to take nothing back, merging the same file again changes no record
   and no secret - not even when every store of the second run would reject, for none is tried.
   */
  lemma MergeAgainChangesNoSecret(h: Hold, run: Run, again: Run)
    requires run.mode.Merge? && again.mode.Merge?
    requires again.payload == run.payload && again.checks == run.checks
    requires EveryIdGiven(run.payload, run.checks) && TakenOut(h, run) == {}
    requires Fresh(again.mint, AllIds(Imported(h.world, run.payload, Merge, run.checks, run.mint)))
    ensures var once := ImportedHold(h, run).hold;
            ImportedHold(once, again) == Outcome(once, true)
  {
    var once := ImportedHold(h, run).hold;
    RecordsAfterSecrets(h, run);
    WithoutNoSources(RecordsImported(h, run).world, RunTally(h, run), run.clock);
    MergeAgainChangesNothing(h.world, run.payload, run.checks, run.mint, again.mint);
    assert RecordsImported(once, again) == once;
    SecondMergeTally(h.world, run, again);
    NothingToRestore(once, again.secrets, RunTally(once, again), again.faults, again.clock);
  }

  lemma NothingToRestore(h: Hold, secrets: Option<Secrets>, tally: Tally, faults: Faults, clock: Id -> int)
    requires tally.servers == [] && tally.profiles == [] && tally.sources == []
    ensures SecretsRestored(h, secrets, tally, faults, clock) == Outcome(h, true)
  {
    if secrets.Some? {
      NothingForKinds(KINDS, secrets.value, tally, faults, Attempt(h.vault, {}, true));
      NothingForSources(h, secrets.value.sources, tally, faults, clock);
    }
  }

  lemma SecondMergeTally(w: World, run: Run, again: Run)
    requires run.mode.Merge? && again.mode.Merge?
    requires again.payload == run.payload && again.checks == run.checks && EveryIdGiven(run.payload, run.checks)
    requires Fresh(again.mint, AllIds(Imported(w, run.payload, Merge, run.checks, run.mint)))
    ensures var tally := TallyOf(Imported(w, run.payload, Merge, run.checks, run.mint), again.payload, Merge, again.checks, again.mint);
            tally.servers == [] && tally.profiles == [] && tally.sources == []
  {
    var added := WithPayload(w, AllIds(w), Prepared(run.payload, run.mint), run.checks);
    SweepKeepsIds(added);
    SecondMergeSettled(w, run.payload, run.checks, run.mint, again.mint);
    var q, later := Prepared(run.payload, again.mint), AllIds(added);
    SettledCountsNothing(q.servers, later, run.checks.server);
    SettledCountsNothing(q.profiles, later, run.checks.profile);
    SettledCountsNothing(q.sources, later, run.checks.source);
  }
}
