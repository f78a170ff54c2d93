# Verified model of the Nexus configuration commands

This project models the parts of the Nexus extension that move and rewrite its configuration, and
proves what they keep. Each module follows one component of the source.

- **Records, Core** - servers, auth profiles, tunnels, inventory sources and device templates; the
  links between them; the ownership stamps in `origin` and `formerlySynced` that mirror those
  links; the deletions of the in-memory core, which sweep both, and the one server that opens the
  file explorer on first connect.
- **TemplateApply, ProxySecrets** - applying a device template while other commands run between
  the awaited saves, and the capture, delete, publish and restore protocol for stored proxy
  passwords, as a transition system in which any step can fail.
- **BackupImport, BackupArrival, BackupSecrets, BackupRestored, VaultKeys, BackupRollback,
  BackupStopped, BackupCommand** - merge and replace imports that preserve ids: the sweep of dangling
  references, what every record and every secret is afterwards, the secrets vault with its per-source
  rollback and its key texts, the adoption rules, imports that end on the way, and the command itself
  on a mutable core and vault.
- **Share, ShareArrival, ShareExport, ShareCommand** - the share export, which drops identity and credentials, and
  the share import, which gives every record a new id and narrows links to the survivors.
- **RelativePath, FolderBackup** - a folder tree flattened into two lists and rebuilt.
- **Numbers, Json, Macros, MacroKey, MacroMeaning, MacroSanitize, MacroStorage, MacroRest,
  MacroRemerge** - the host's numbers and their JSON text, the content key of a macro and what running
  it can observe, the imports that skip what they
  have, the sanitizer with its normal form, what the store does to a list it is given, and when a
  file merged twice adds something the second time.
- **FolderPaths, MacroFolders, MacroOrder** - folder paths as text and as names, folder rename and
  removal, moves in the macro list and the ownership of shortcuts.
- **Words, Dhcp, DhcpEdits** - 32-bit address arithmetic with the host language's signed
  conversions, the pool check and its advice, and runs of edits.
- **AuthApply, TemplateRules, PathCover** - disclosed changes re-checked under the lock, and the
  reduction of a path selection.

Records of one kind are a map from id to record. Missing optional members are missing map keys;
an untrusted object is `Absent`, `Malformed` or `Present`. Validators, `randomUUID`, regular
expression safety, number printing and the order in which a store lists its records are
parameters; what is assumed of them is stated where they are used (`Supply`, `Fresh`,
`GoodMints`, `LinkBlind`, `Accepting`, `Prints`, `Enumerates`). A loop of the source is a Dafny loop
proved against a function, and the properties are proved about that function.

## What turned out not to hold

- `computePoolSize` is described as the inverse of `computeRangeEnd`. `ipToInt` yields signed
  numbers, so a pool that crosses 128.0.0.0 reads as empty: `Dhcp.CrossingPoolReadsEmpty`. The two
  are inverse exactly for pools that do not cross it: `Dhcp.CountOfEnd`.
- Under a subnet mask of 0.0.0.0 `computeBroadcastAddress` returns the packaged broadcast, so pools
  that fit are refused (`Dhcp.ZeroMaskRefusesFittingPool`); `Dhcp.FittingPoolsAccepted` says exactly
  which are accepted. Only under that mask can an accepted start move make the size unreadable
  (`DhcpEdits.StartMovePreservesSize`).
- A second merge of a payload adds records again exactly when an importable record has a blank id:
  `BackupImport.MergeAgainChangesNothing`; for instance `BackupImport.BlankIdMergesTwice`.
- A collected folder does not always come back under its own names: `RelativePath.PathSurvives` and
  `FolderBackup.FolderRoundTrip` give the exact condition, `RelativePath.BackslashBecomesFolder` and
  `RelativePath.DriveFolderIsRefused` two names.
- Something can remain under the name of a removed folder, exactly when a macro was in a subfolder
  of the same name: `MacroFolders.RemovedNameMayReappear`, `MacroFolders.RemovedNameReappears`.
- A folder rename is described as atomic. It is two saves, and the macros are read again after the
  first: `MacroFolders.RenameWholeExactly`, `MacroFolders.RenameHalfDone`.
- The content key does not tell every two macros apart. An interval whose milliseconds overflow is
  written `null`, as if there were none (the comment at `src/storage/macroStore.ts` lines 400-402 takes
  an infinite number to be out of reach; a product, or `JSON.parse("1e999")`, reaches it), so such a
  macro is dropped as known: `MacroKey.KeyUnambiguous`, `MacroKey.DedupRightExactlyWithoutOverflow`,
  `MacroKey.HugeIntervalIsDropped`.
- Merging a file after restoring it adds a macro again exactly when a legacy slot stands for a
  binding the store respells: `MacroStorage.MergeAfterReplaceExactly`,
  `MacroStorage.RespelledSlotComesAgain`.
- Importing a file twice is described as idempotent. A second merge adds a macro again when its slot
  stands for a binding the store respells and no id holds it, or when an unusable record of the same
  content took its place the first time: `MacroRemerge.RemergeExactly` and
  `MacroRemerge.UsableRemergeExactly` say exactly when, `MacroRemerge.UnsettledSlotMergesTwice`,
  `MacroRemerge.TwinComesLater` and `MacroRemerge.UnusableTwinComesLater` are three files.
- An import that ends on the way leaves links unswept, and a second one completes the records but not
  their secrets: `BackupStopped.StoppedMayDangle`, `BackupStopped.RetryCompletesRecords`,
  `BackupStopped.RetryRestoresNoSecretOfStopped`.
- On disk a rule can name a deleted template, exactly after the second save of a deletion was
  rejected: `TemplateRules.DiskAgreesExactly`, `TemplateRules.LostSweepLeavesRules`.
- Imports do rewrite local servers in one respect: an imported server that opens the file explorer
  takes that flag from the local one: `Share.ShareTouchesNothingLocal`,
  `BackupRollback.MergeOnlySweepsLocalServers`, `Share.SharedOpenerSilencesLocal`.
- The marker of a server taken over from a removed source does not hold every receipt of its
  origin: `BackupSecrets.ReceiptRecovers`, `BackupSecrets.HostReceiptIsLost`.

## Model

| member | source | states |
|---|---|---|
| `Core.NexusCore.ClearGatewayReferencesTo` | src/core/nexusCore.ts:2227-2270 | every server loses a gateway naming a deleted server together with the stamps naming it; every other record stays |
| `Core.NexusCore.RemoveServers` | src/core/nexusCore.ts:2299-2311 | the servers are gone and every remaining one is swept of gateways naming them |
| `Core.NexusCore.RemoveAuthProfile` | src/core/nexusCore.ts:441-560 | the profile is gone and servers, sources and templates no longer link to it; matching stamps go with the server links |
| `Core.NexusCore.AddOrUpdateServer` | src/core/nexusCore.ts:2145-2159 | the record is in; when it opens the file explorer on first connect, no other does any more; no other record changes in anything else |
| `Core.NexusCore.Initialize` | src/core/nexusCore.ts:234-237 | of the stored servers that open the file explorer the last keeps the flag, so at most one has it |
| `Core.InitializedExactly` | src/core/nexusCore.ts:234-237 | loading keeps the last record stored under each id, whole but for the flag: it opens the file explorer exactly when it was stored so and nothing stored later was |
| `Core.ServersRemovedExactly` | src/core/nexusCore.ts:2220-2311 | deleting servers takes exactly those, and from a remaining one exactly a gateway naming one of them, with the stamps naming it too |
| `Core.ProfileRemovedFromServers` | src/core/nexusCore.ts:441-560 | deleting a profile takes from a server exactly the two auth links naming it, with their stamps |
| `Core.ProfileRemovedElsewhere` | src/core/nexusCore.ts:441-560 | and from a source or a template exactly the links naming it |
| `Core.RemovingServersKeepsLinks` | src/core/nexusCore.ts:2220-2311 | a fleet without dangling links has none after any set of servers is deleted |
| `Core.RemovingProfileKeepsLinks` | src/core/nexusCore.ts:441-560 | the same for a profile deletion |
| `TemplateApply.DropFirstRemoves` | src/commands/deviceTemplateCommands.ts:577-584 | `dropWritten` takes out exactly the one field and keeps the rest distinct |
| `TemplateApply.KeptIsWhatPersists` | src/commands/deviceTemplateCommands.ts:597-617 | what remains of the written fields is exactly what the plan sets and whose reference still resolves |
| `TemplateApply.WriteTakesOverExactlyItsFields` | src/commands/deviceTemplateCommands.ts:585-650 | per field: it takes the planned value and loses its stamp in `origin` and in `formerlySynced`, or value and both stamps stay; which one is decided by whether the reference still resolves; nothing else changes |
| `TemplateApply.NoLinkDanglesAtAnyYield` | src/commands/deviceTemplateCommands.ts:545-566 | at every yield of every interleaving with deletions, edits and whole-record saves no auth, IPMI-auth or gateway link dangles, and the servers are those the other commands alone leave: none deleted is back |
| `TemplateApply.OtherWritersKeepTheirWork` | src/commands/deviceTemplateCommands.ts:545-566 | a run leaves which servers there are, all that is not templated, and every field and stamp it does not set exactly as the other commands alone would have, whole-record saves included |
| `TemplateApply.ReportedCountIsServersWritten` | src/commands/deviceTemplateCommands.ts:567-653 | the count the loop reports is the number of distinct servers it wrote |
| `TemplateApply.EveryWriteHasItsTurn` | src/commands/deviceTemplateCommands.ts:567-653 | the loop gets through the plan in order and ends early only after the write whose save rejects |
| `TemplateApply.LandsExactly` | src/commands/deviceTemplateCommands.ts:569-630 | a write is made exactly when its server is there and some field it sets may be persisted |
| `TemplateApply.UndisturbedRunWritesThePlan` | src/commands/deviceTemplateCommands.ts:567-653 | with no other command and no rejected save every planned server ends with what its write makes of it, and no other server changes |
| `TemplateApply.ResolveLink` | src/commands/deviceTemplateCommands.ts:597-617 | one reference: set on the record if it resolves, otherwise dropped from the written fields |
| `TemplateApply.PrepareWrite` | src/commands/deviceTemplateCommands.ts:574-648 | the record and the field list one turn builds from the live server |
| `TemplateApply.ApplyPlanWrites` | src/commands/deviceTemplateCommands.ts:567-653 | the loop, with other commands during each awaited save and a save that may reject, performs exactly the specified run and returns its count |
| `ProxySecrets.RestorableIsExact` | src/commands/deviceTemplateCommands.ts:1177-1189 | after a failed write exactly the captured secrets whose server is still on the endpoint they were captured for are put back |
| `ProxySecrets.NextKeepsInv` | src/commands/deviceTemplateCommands.ts:1107-1192 | every atomic step of capture, delete, write, save and restore, failing or not, and every step of another command, also while a save is pending that then rejects, keeps the protocol invariant |
| `ProxySecrets.PasswordStaysWithItsEndpoint` | src/commands/deviceTemplateCommands.ts:1107-1192 | in every reachable state a stored proxy password is beside the endpoint it was entered for, whatever fails and whatever runs in between |
| `ProxySecrets.UnchangedProxyKeepsItsPassword` | src/services/inventory/proxySecretHygiene.ts:134-215 | however the command ends, a server still on its old authenticated endpoint has its password, unless putting it back failed |
| `ProxySecrets.PublishedMovedEveryCapture` | src/commands/deviceTemplateCommands.ts:1125-1149 | once everything is published every server whose password was captured is on another endpoint |
| `ProxySecrets.FailureExactly` | src/commands/deviceTemplateCommands.ts:1107-1192 | a failed read or delete ends the capture with everything captured to be put back, a failed save ends the writing with exactly what still belongs to be put back |
| `ProxySecrets.NothingPublishedAfterFailure` | src/commands/deviceTemplateCommands.ts:1107-1192 | after a failure no more record is written, and the command ends unpublished |
| `ProxySecrets.PutBackExactly` | src/commands/deviceTemplateCommands.ts:1175-1190 | while secrets are put back a success stores exactly the next one, and a failure stores nothing and is noted |
| `ProxySecrets.PasswordIsPutBack` | src/services/inventory/proxySecretHygiene.ts:134-215 | whatever else fails and whatever else runs, where putting back succeeds every server still on the authenticated endpoint it had holds its password when the command has ended |
| `ProxySecrets.SuccessPublishes` | src/commands/deviceTemplateCommands.ts:1107-1192 | where nothing fails and nothing else runs, every planned write is published, and of the stored passwords exactly those of servers moved off, onto or between authenticated endpoints are gone |
| `ProxySecrets.CommandEnds` | src/commands/deviceTemplateCommands.ts:1107-1192 | whatever fails and whatever else runs, the command ends within a bounded number of its own steps |
| `BackupImport.AddedKeys` | src/commands/configCommands.ts:798-816 | after the loop a bucket holds exactly the old ids and the accepted ones, each record from the bucket or from an accepted item |
| `BackupImport.AddedServersStep` | src/core/nexusCore.ts:2145-2159 | adding servers one by one, each that opens the file explorer silencing the others, comes to the last such one alone opening it |
| `BackupImport.SweepResolvesEverything` | src/commands/configCommands.ts:2472-2634 | from any world the sweep leaves no server, source, template or rule naming a missing profile, gateway server or template |
| `BackupImport.ServerSweepTakesOnlyDangling` | src/commands/configCommands.ts:2476-2572 | on a server a link goes exactly when it dangles, and a stamp only together with the link naming the same id |
| `BackupImport.SweepTakesOnlyDangling` | src/commands/configCommands.ts:2472-2634 | on servers, sources and templates no link that resolves is cleared and no rule naming a template that is there is dropped; rules keep their order and nothing else changes |
| `BackupImport.SweepOfResolved` | src/commands/configCommands.ts:2472-2634 | where everything resolves the sweep rewrites nothing |
| `BackupImport.ImportResolvesEverything` | src/commands/configCommands.ts:2438-2634 | the first statement for whole imports: any core, any payload, merge or replace |
| `BackupArrival.PreparedExactly` | src/commands/configCommands.ts:778-782 | no item is left out or reordered, only blank ids are replaced, and every source loses its folder ownership |
| `BackupArrival.ServerArrives` | src/commands/configCommands.ts:2442 | the last valid server of the payload under an id that is free is there afterwards as it was in the file, sanitized, with exactly its dangling links cleared and with the explorer flag exactly when no later one has it |
| `BackupArrival.LocalServerStays` | src/commands/configCommands.ts:2421-2444 | under any other id there is what was there, with exactly its dangling links cleared and without the flag exactly when an added server took it; after a wipe nothing |
| `BackupArrival.PlainBucketsArrive` | src/commands/configCommands.ts:2443-2465 | tunnels and profiles: the last valid item under a free id as it is in the file, every other record as it was |
| `BackupArrival.SourcesArrive` | src/commands/configCommands.ts:2443-2456 | sources likewise, with a dangling profile link cleared and exactly the rules kept, in order, whose template is there |
| `BackupArrival.TemplatesArrive` | src/commands/configCommands.ts:2457-2465 | templates likewise, with exactly their dangling profile links cleared |
| `BackupImport.MergeAgainChangesNothing` | src/commands/configCommands.ts:2421-2467 | merging the same payload again changes no record exactly when no importable record has a blank id |
| `BackupImport.BlankIdMergesTwice` | src/commands/configCommands.ts:778-782 | one tunnel without an id, merged twice, is there twice |
| `BackupCommand.ChainedClearsAtOnce` | src/commands/configCommands.ts:2499-2570 | the clears chained off one another equal clearing all the dangling links at once |
| `BackupCommand.ClearDangling` | src/commands/configCommands.ts:2476-2572 | the step-by-step clear of one server computes the swept server |
| `BackupCommand.ImportPreservingIds` | src/commands/configCommands.ts:778-816 | the loop computes the new bucket, the ids added, the items with their final ids and a tally that adds up |
| `BackupCommand.ImportServers` | src/commands/configCommands.ts:2442 | the same loop over the servers, each sanitized and put into the core, computes the specified servers, ids and tally |
| `BackupCommand.Wipe` | src/commands/configCommands.ts:2371-2415 | replace mode leaves no record, and a vault without the secrets of profiles and of declared source fields |
| `BackupCommand.SweepDangling` | src/commands/configCommands.ts:2472-2634 | the four sweeps in their order compute the swept world |
| `BackupCommand.StoreBucket` | src/commands/configCommands.ts:2944-2951 | stores the secrets of the wanted entries up to the first that rejects, and says which |
| `BackupCommand.ConvertImported` | src/commands/configCommands.ts:3027-3118 | turns the servers this run imported for the removed source, and no others, into plain ones |
| `BackupCommand.RestoreSourceSecrets` | src/commands/configCommands.ts:2940-3120 | one source: its secrets stored, or its keys deleted again, the source removed and its servers converted |
| `BackupCommand.ImportMergeReplace` | src/commands/configCommands.ts:2364-3120 | the whole command on core and vault computes the specified result and whether it completed, also when a validator or an add throws on the way, and leaves at most one server opening the file explorer |
| `BackupStopped.StoppedExactly` | src/commands/configCommands.ts:789-816 | a stopped import has added the items it dealt with, bucket by bucket in order, and swept nothing |
| `BackupStopped.StoppedKeepsVaultOwned` | src/commands/configCommands.ts:2384-2467 | wherever an import is stopped while adding, every profile and source secret in the vault has its live record and declared field |
| `BackupStopped.StoppedMergeKeepsLocalRecords` | src/commands/configCommands.ts:2421-2467 | a merge stopped while adding has rewritten no local record but for the explorer flag an imported server takes |
| `BackupStopped.RetryCompletesRecords` | src/commands/configCommands.ts:789-816 | a stopped merge, tried again and completed, leaves the records one run would have left, for every payload without a blank or repeated id |
| `BackupStopped.RetryRestoresNoSecretOfStopped` | src/commands/configCommands.ts:965-990 | the next merge writes no secret of a record the stopped run had brought in |
| `BackupStopped.StoppedMayDangle` | src/commands/configCommands.ts:2472-2475 | stopped after its servers an import leaves a link to a profile it would have brought |
| `BackupSecrets.RestoreSourcesAtOnce` | src/commands/configCommands.ts:2940-3120 | rolling sources back one after another equals taking them all out and converting their servers at once |
| `BackupSecrets.ImportKeepsVaultOwned` | src/commands/configCommands.ts:2384-2400 | if every profile and source secret had its live record and declared field before, it has afterwards: both modes, any failed stores, also when the import is cut short |
| `BackupRestored.ImportCompletesExactly` | src/commands/configCommands.ts:2889-2903 | an import that gets through its records completes exactly when no secret the file has for a record it brought is rejected |
| `BackupRestored.RecordSecretsAreTheFiles` | src/commands/configCommands.ts:979-990 | for every kind of secret and every id: where the import brought the record and the file has a secret for it, the vault holds that very text, the last one given; everywhere else what it held |
| `BackupRestored.SourceSecretsAreTheFiles` | src/commands/configCommands.ts:2940-2951 | a source the import brought and none of whose declared fields is rejected stays, and each declared field holds the text of the file; no other field is restored |
| `BackupRestored.RejectedSourceGoes` | src/commands/configCommands.ts:2952-2985 | a source goes exactly when a store of one of its declared fields is rejected and its removal is not |
| `BackupRestored.CutShortHoldsOnlyTheFiles` | src/commands/configCommands.ts:979-990 | also after a rejected store a record secret is what it was, or the import brought the record and the file has that text for it |
| `BackupRestored.WipedExactly` | src/commands/configCommands.ts:2384-2407 | the wipe takes the secrets of the auth profiles there and of the fields the sources there declare, and no other |
| `VaultKeys.KeyTextsTell` | src/services/ssh/silentAuth.ts:8-26 | two secrets are filed under one key text only if they are of one kind and of one record, or of one source and field |
| `VaultKeys.SourceKeyTells` | src/models/inventory.ts:811-830 | the length written before the source id tells id and field apart, whatever characters they have |
| `BackupSecrets.FailedSourceLeavesVaultAlone` | src/commands/configCommands.ts:2921-2966 | a source whose restore fails leaves its part of the vault as it found it |
| `BackupSecrets.MergeLeavesLocalSecretsAlone` | src/commands/configCommands.ts:965-990 | merge mode never writes, changes or removes a secret of a record that was already here |
| `BackupRollback.ReferencesResolveAfterRollback` | src/commands/configCommands.ts:2438-3120 | references still resolve after sources have been rolled back |
| `BackupRollback.NoAdoptionGained` | src/commands/configCommands.ts:818-888 | a server adoptable afterwards was adoptable before, arrived so, or was detached by this run, each time as the same device of the same provider and instance |
| `BackupRollback.ConvertedCarriesItsReceipts` | src/commands/configCommands.ts:3027-3110 | a converted server has no origin; its marker names the source and the provider as imported and holds the instance, the device and the receipts of BMC, alternate host, transport, profile and templates; nothing else about it changes |
| `BackupSecrets.ReceiptRecovers` | src/commands/configCommands.ts:3038-3107 | an origin can be had back from its marker exactly when it held no receipt of a user name, a host or a port; two origins leave one marker exactly when they differ in nothing else but the time |
| `BackupSecrets.HostReceiptIsLost` | src/commands/configCommands.ts:3038-3107 | a receipt of the host is not in the marker |
| `BackupRollback.RollbackStaysWithTheImport` | src/commands/configCommands.ts:2985-3035 | no imported server names a removed source, and no other server changed |
| `BackupRollback.MergeOnlySweepsLocalServers` | src/commands/configCommands.ts:2421-2444 | in merge mode a local server is swept of dangling links and, exactly when an imported server opens the file explorer, no longer opens it; nothing else happens to it |
| `BackupRollback.ImportKeepsSoleOpener` | src/core/nexusCore.ts:2145-2159 | at most one server opens the file explorer, through any import and its rollbacks |
| `BackupRollback.MergeAgainChangesNoSecret` | src/commands/configCommands.ts:2890-2979 | after a merge that took nothing back, merging the file again changes no record and no secret, even if every store would reject |
| `Share.IdMapInjective` | src/commands/configCommands.ts:1971-1980 | no two ids of a payload are mapped to one, and none to a blank |
| `Share.SharedServersResolve` | src/commands/configCommands.ts:1999-2249 | after a share import of any payload every imported server link and stamp resolves, no origin is malformed and no marker is left; any other server is as it was but for the file explorer flag |
| `Share.OwnershipSurvivesRemap` | src/commands/configCommands.ts:2043-2118 | a stamp equal to its value stays equal or both go, and a diverged one never comes to look equal |
| `Share.SurvivorsLand` | src/commands/configCommands.ts:2109-2126 | narrowing the gateway changes no verdict of the validator, so the survivor set is the set that lands |
| `Share.ShareTouchesNothingLocal` | src/commands/configCommands.ts:1999-2010 | no record that was here is relinked or removed, and none is rewritten, but that a server which opened the file explorer no longer does exactly when one that lands does |
| `Share.SharedOpenerSilencesLocal` | src/core/nexusCore.ts:2149-2155 | a share file with one server that opens the file explorer takes the flag from the local server that had it |
| `ShareArrival.NewIds` | src/commands/configCommands.ts:1988-2040 | every id of the payload has the id minted for its last occurrence, servers before profiles, and no other id has one |
| `ShareArrival.SharedServerArrives` | src/commands/configCommands.ts:1962-2330 | the last server under its id that passes the check is there under its new id as it was in the file, but that links, link stamps and jump host go to new ids or are dropped and the marker is gone |
| `ShareArrival.SharedPlainlyArrive` | src/commands/configCommands.ts:1962-2330 | profiles and tunnels that pass their checks are there under their new ids, and every other record is as it was |
| `ShareArrival.SharedTunnelsAre` | src/commands/configCommands.ts:1962-2330 | a tunnel gets a minted id, and its link the new id of what it names or none |
| `ShareCommand.AssignNewIds` | src/commands/configCommands.ts:1971-1980 | the first pass over a bucket: blanks replaced, every id mapped, a later duplicate winning |
| `ShareCommand.RemapServers` | src/commands/configCommands.ts:2127-2200 | builds every remapped server and the full survivor set before any link is finalized |
| `BackupCommand.AddServers` | src/commands/configCommands.ts:2242 | servers sanitized and put into the core one by one, as both imports do, come to the specified servers, ids and tally |
| `ShareCommand.ImportShareData` | src/commands/configCommands.ts:1962-2249 | the command computes the specified world, and its tally adds up |
| `ShareCommand.SanitizeForSharing` | src/commands/configCommands.ts:1018-1157 | the export, with the id map growing as the tunnels go by |
| `ShareExport.ImageOfShared` | src/commands/configCommands.ts:1018-1060 | export and import together rename exactly the addressed servers and the referenced profiles, injectively |
| `ShareExport.NamedProfilesShared` | src/commands/configCommands.ts:1044-1060 | every profile an addressed server names by SSH or IPMI travels along |
| `ShareExport.ServerArrives` | src/commands/configCommands.ts:1062-1107 | a shared server arrives with every link at its image or absent, its jump host mapped or dropped, and without credentials and provenance |
| `ShareExport.TunnelTravels` | src/commands/configCommands.ts:1109-1117 | a tunnel arrives with its server link at the image when it names something shared that no tunnel hides |
| `ShareExport.ShareRoundTrip` | src/commands/configCommands.ts:1018-1157 | exporting and share-importing into an empty core gives a graph isomorphic to the addressed servers and referenced profiles |
| `RelativePath.SafeStaysUnderRoot` | src/commands/configCommands.ts:632-642 | any string that passes the check resolves strictly under the root |
| `RelativePath.SafeExactly` | src/commands/configCommands.ts:632-642 | any string comes to the pieces between its slashes and backslashes, and is refused exactly when it is absolute, holds a NUL, has no piece or a dot for one |
| `RelativePath.PathSurvives` | src/commands/configCommands.ts:632-642 | a collected path is restored under the same names exactly when no name holds a backslash or NUL and it does not begin like a drive |
| `RelativePath.BackslashBecomesFolder` | src/commands/configCommands.ts:632-642 | a file whose name holds a backslash comes back in a folder |
| `RelativePath.DriveFolderIsRefused` | src/commands/configCommands.ts:632-642 | a file in a folder named like a drive does not come back |
| `FolderBackup.CollectFolderBackup` | src/commands/configCommands.ts:545-590 | the walk pushes the two lists of the tree, links passed over |
| `FolderBackup.RestoreBackupFolder` | src/commands/configCommands.ts:677-739 | the two restore loops compute the specified file system and exactly the counts of files restored and skipped |
| `FolderBackup.RestoreTouchesOnlyBackedUpPaths` | src/commands/configCommands.ts:677-739 | nothing is removed, what is new lies on a backed-up path, and only replace mode changes an existing entry, which is then a backed-up file |
| `FolderBackup.MergeChangesNoExistingEntry` | src/commands/configCommands.ts:718-722 | merging changes nothing that was there, whatever fails |
| `FolderBackup.BackedUpFilesLand` | src/commands/configCommands.ts:700-735 | onto any root: a backed-up path with nothing in its way and no failing operation holds the contents of the last entry for it in replace mode, and in merge mode those of the first entry where nothing was there |
| `FolderBackup.BackedUpFolderAppears` | src/commands/configCommands.ts:690-700 | a backed-up folder is there unless making it fails or a file is on the way |
| `FolderBackup.CountIsOfFiles` | src/commands/configCommands.ts:715-735 | the two counts are the numbers of files that come to this, each on what the ones before it left |
| `FolderBackup.ReportMeans` | src/commands/configCommands.ts:700-735 | a file counted as restored holds its contents, one counted as skipped was there, and for any other nothing changed |
| `FolderBackup.RestoredPathsStayUnderRoot` | src/commands/configCommands.ts:632-642 | every path a restore makes appear resolves strictly under the root, whatever the file claims |
| `FolderBackup.FolderRoundTrip` | src/commands/configCommands.ts:545-739 | restoring a collected folder into an empty one gives the same tree without links, in either mode, exactly when all its names are plain and no path begins like a drive |
| `Json.PutUnambiguous` | src/commands/configCommands.ts:1235-1248 | a JSON text followed by a delimiter determines what it shows and what follows (section 7 of RFC 8259); an infinite number shows as null |
| `Json.EncodeInjective` | src/commands/configCommands.ts:1220-1224 | two values have one text exactly when it shows one value |
| `Json.DecimalPrints` | src/commands/configCommands.ts:1220-1224 | a printing of numbers as it is asked of the host exists |
| `MacroKey.KeyShowsTerms` | src/commands/configCommands.ts:1235-1248 | two macros have one key exactly when their canonical terms are equal with every infinite number read as null, whatever the records hold |
| `MacroKey.KeyUnambiguous` | src/commands/configCommands.ts:1235-1248 | a macro shares its key exactly with the macros whose canonical terms are all equal to its own, if and only if its interval in milliseconds does not overflow |
| `MacroKey.KeyIgnoresIdentity` | src/commands/configCommands.ts:1226-1234 | the key does not depend on id, folder or capability fields |
| `MacroMeaning.SameMacroRunsAlike` | src/services/macroAutoTrigger.ts:266-314 | two macros have the same terms exactly when name, masking, text, compiled rule, shortcut, prompts and run target are the same |
| `MacroKey.MergeMacros` | src/commands/configCommands.ts:2728-2746 | the merge loop with its two skips computes the specified list |
| `MacroKey.ShareMacros` | src/commands/configCommands.ts:2312-2332 | the share loop computes the specified list |
| `MacroKey.DedupKeepsExactlyDistinct` | src/commands/configCommands.ts:2735-2745 | where no interval overflows, what is added differs in its terms from everything there and from each other; what is not added has its id taken or its equal present |
| `MacroKey.UnseenInOrder` | src/commands/configCommands.ts:2735-2745 | what is added is in the order of the file |
| `MacroKey.FirstsAreAdded` | src/commands/configCommands.ts:2735-2745 | of the records of one new content the first that no id skips is added |
| `MacroKey.DedupRightExactlyWithoutOverflow` | src/commands/configCommands.ts:2735-2745 | a macro is dropped where its equal is known and added where not, whatever sound list it comes to, if and only if its interval does not overflow |
| `MacroKey.HugeIntervalIsDropped` | src/storage/macroStore.ts:487-506 | a trigger every 2^1016 seconds or more is dropped beside the same macro without an interval |
| `MacroStorage.StoredBinding` | src/storage/macroStore.ts:250-255 | storing a sanitized macro keeps its effective binding exactly when its slot stands for a binding in normal spelling |
| `MacroStorage.StoredShortcut` | src/storage/macroStore.ts:250-255 | where there is no binding a slot becomes the binding it stands for; otherwise slot and binding stay |
| `MacroStorage.StoredDeclaration` | src/storage/vscodeMacroStore.ts:225-232 | a declaration that is no list goes; in a list exactly the masked entries lose default and remember |
| `MacroStorage.StoredRest` | src/storage/vscodeMacroStore.ts:218-232 | a folder that is no text goes, and every other field stays |
| `MacroStorage.ReplacedIs` | src/storage/macroStore.ts:128-150 | a replace leaves the usable records of the file in their order, each stored under a new id |
| `MacroStorage.MergeAfterReplaceAddsNothing` | src/commands/configCommands.ts:2702-2718 | merging a sanitized file after it was restored, with every id replaced and every record rewritten by the store, leaves the store as it was when no slot is one the restore respells |
| `MacroStorage.MergeAfterReplaceExactly` | src/commands/configCommands.ts:2702-2718 | for usable macros that is if and only if |
| `MacroStorage.RespelledSlotComesAgain` | src/storage/macroStore.ts:250-255 | a macro whose slot is the text "A" is added again |
| `MacroRest.SavedIsAtRest` | src/storage/vscodeMacroStore.ts:225-232 | whatever list is saved, the store then holds usable records only, each under a string id of its own and spelled as the store spells it |
| `MacroRest.RestIsKept` | src/storage/macroStore.ts:49-57 | saving such a list changes nothing |
| `MacroRemerge.MergeKeepsTheStore` | src/commands/configCommands.ts:2728-2746 | a saved merge leaves what was there as it was and in order, and behind it each new usable record of the file in order, as the store spells it |
| `MacroRemerge.RemergeExactly` | src/commands/configCommands.ts:2728-2746 | merging a file again, each merge saved, leaves the store as it was exactly when every usable record of it is known by then by its id or content, or an unusable record before it, with its content and no id held, takes its place in the loop again |
| `MacroRemerge.RemergeAddsNothing` | src/commands/configCommands.ts:2710-2726 | for sanitized files of usable records whose slots are all settled it always does |
| `MacroRemerge.UsableRemergeExactly` | src/commands/configCommands.ts:2728-2746 | for sanitized files of usable records: exactly when each has a settled slot, or its content was held before, or its id was or is that of a record the first merge adds |
| `MacroRemerge.UnsettledSlotMergesTwice` | src/storage/macroStore.ts:250-255 | a macro with the slot text "A" and no id, merged twice into an empty store, is there twice |
| `MacroRemerge.TwinComesLater` | src/commands/configCommands.ts:2739-2745 | two records of that content under two ids: the first merge adds one, the second the other |
| `MacroRemerge.UnusableTwinComesLater` | src/storage/macroStore.ts:222-224 | a usable record dropped for having the content of an unusable one, which the store then drops, is added by the second merge, although every slot is settled |
| `MacroKey.FoldersMergeOnce` | src/commands/configCommands.ts:2674-2684 | merging a folder list twice adds no folder the second time |
| `MacroSanitize.SanitizeVariables` | src/commands/configCommands.ts:1291-1336 | the variable loop: at most ten valid entries, no name twice, each rebuilt from what is usable |
| `MacroSanitize.SanitizeImportedMacro` | src/commands/configCommands.ts:1338-1438 | the record edited step by step ends up field by field as specified |
| `MacroSanitize.SanitizingLands` | src/commands/configCommands.ts:1338-1438 | whatever the file held, the result is in normal form |
| `MacroSanitize.SanitizingSettles` | src/commands/configCommands.ts:1338-1438 | the macros sanitizing leaves alone are exactly those in normal form; sanitizing is idempotent |
| `MacroSanitize.DeclaringCostsTheTrigger` | src/commands/configCommands.ts:1286-1290 | a macro that declared anything as variables, however invalid, keeps no trigger field |
| `MacroSanitize.SecretVariablesAreBare` | src/commands/configCommands.ts:1317-1330 | a secret variable in normal form has no default and no remember |
| `MacroSanitize.SanitizingKeepsTheRest` | src/commands/configCommands.ts:1338-1437 | id, name, text, slot, masking and run target stay as they are, whatever else the record holds; capabilities go |
| `MacroSanitize.BindingAndFolderSurvive` | src/commands/configCommands.ts:1338-1437 | a key binding stays exactly when it is one, and a folder exactly when it names one, tidied |
| `MacroSanitize.TriggerSurvivesExactly` | src/commands/configCommands.ts:1338-1437 | each trigger field is kept, trimmed or as the compiler takes it, exactly when pattern, scope and profile are sound and no variable is declared |
| `MacroSanitize.FirstTenVariables` | src/commands/configCommands.ts:1338-1437 | exactly the first ten declared variables are kept that have a valid name no earlier one has, in order, each rebuilt |
| `MacroSanitize.CleanedProperties` | src/commands/configCommands.ts:1291-1336 | a rebuilt variable has its name, a label that says something, and if it is masked nothing else, otherwise its text default and a remember that is off |
| `FolderPaths.NormalIsFixed` | src/utils/folderPaths.ts:37-77 | the paths in normal form are exactly those sanitizing leaves as they are |
| `FolderPaths.NormalizedExactly` | src/utils/folderPaths.ts:37-77 | any path comes to its pieces trimmed and without the blank ones, and to nothing exactly when it is too long, too deep, blank or has a dot or a backslash for a name |
| `FolderPaths.DescendantIsPrefix` | src/utils/folderPaths.ts:84-86 | one path lies under another exactly when its names begin with the other's |
| `FolderPaths.ParentDropsLast` | src/utils/folderPaths.ts:92-95 | the parent of a path drops its last name |
| `MacroFolders.MacroStore.EnsureMacroFolderExists` | src/commands/macroCommands.ts:470-474 | the list gains the path and its ancestors |
| `MacroFolders.EnsuringKeepsClosure` | src/commands/macroCommands.ts:464-474 | an ancestor-closed list stays closed and holds the path |
| `MacroFolders.EnsuredExactly` | src/commands/macroCommands.ts:464-474 | creating a folder adds it and the folders above it and no other |
| `MacroFolders.MacroStore.RenameMacroFolder` | src/commands/macroCommands.ts:568-613 | refused, nothing is written; otherwise the folders are saved and then the macros there by then, either save may reject, and which is said |
| `MacroFolders.RenameWholeExactly` | src/commands/macroCommands.ts:598-611 | once the folders are saved every macro is where the rename is to take it exactly when the save of the macros is accepted, or none is inside, and the new path of each one inside by then is one the readers keep |
| `MacroFolders.UndisturbedRenameIsWhole` | src/commands/macroCommands.ts:584-586 | where nothing runs in between and no save rejects, an accepted rename is whole |
| `MacroFolders.RenameHalfDone` | src/commands/macroCommands.ts:598-611 | the folders renamed and the second save rejected: the macro is still in the old folder |
| `MacroFolders.RenameMovesDescendants` | src/commands/macroCommands.ts:600-611 | exactly the macros under the folder move, each to its renamed path; the rest and all other fields stay |
| `MacroFolders.RenamedFoldersExactly` | src/commands/macroCommands.ts:587-598 | a rename keeps the listed folders elsewhere, takes along those inside with the new names in front, and adds the new one and those above it |
| `MacroFolders.RefusedExactlyWhenTooLong` | src/commands/macroCommands.ts:568-586 | a rename is refused exactly when the new path of a folder or macro inside would be too long or too deep |
| `MacroFolders.RenameKeepsDescendants` | src/commands/macroCommands.ts:543-546 | who is under whom is the same before and after |
| `MacroFolders.RenameKeepsClosure` | src/commands/macroCommands.ts:587-598 | an ancestor-closed list of normal paths stays so |
| `MacroFolders.RenameAndBack` | src/commands/macroCommands.ts:568-613 | a rename to an unused name can be taken back: the way back is accepted, every macro has its folder again, and the list is what it was with the folders above the two names |
| `FolderPaths.PrefixIsNotDescendant` | src/utils/folderPaths.ts:80-86 | a sibling that merely shares a name prefix is not inside |
| `MacroFolders.MacroStore.RemoveMacroFolder` | src/commands/macroCommands.ts:622-691 | nothing is written unless confirmed; the macros rewritten are those there after the question and the folders those there after the macros are saved, either save may reject, and how it ended is said |
| `MacroFolders.RemovalKeepsClosure` | src/commands/macroCommands.ts:674-690 | an ancestor-closed list of normal paths stays so when a folder is removed |
| `MacroFolders.RemovedFoldersExactly` | src/commands/macroCommands.ts:674-690 | a removal keeps the listed folders elsewhere, lifts those inside by one level and drops the folder itself |
| `MacroFolders.RemovingLiftsByOne` | src/commands/macroCommands.ts:655-672 | every macro is kept in order; one inside loses exactly one level of its path and keeps the rest |
| `MacroFolders.ReappearsExactly` | src/commands/macroCommands.ts:655-672 | a macro of a removed folder is in a folder of that name again exactly when it was in a subfolder named as the folder itself |
| `MacroFolders.RemovedNameMayReappear` | src/commands/macroCommands.ts:655-672 | nothing remains under the removed name exactly when nothing lay in such a subfolder |
| `MacroFolders.RemovedNameReappears` | src/commands/macroCommands.ts:655-672 | removing "a" takes a macro of "a/a" to "a" |
| `MacroOrder.FindPreviousInGroup` | src/commands/macroCommands.ts:694-701 | the scan finds the nearest earlier macro of the folder, or none |
| `MacroOrder.FindNextInGroup` | src/commands/macroCommands.ts:703-710 | the same downwards |
| `MacroOrder.MoveUp` | src/commands/macroCommands.ts:1015-1035 | the in-place swap is the specified move |
| `MacroOrder.MoveDown` | src/commands/macroCommands.ts:1037-1058 | the same downwards |
| `MacroOrder.MoveIsAdjacentTransposition` | src/commands/macroCommands.ts:1015-1059 | a move permutes the list, transposes two adjacent members of one folder and leaves every other folder's order alone |
| `MacroOrder.MovesUpExactly` | src/commands/macroCommands.ts:1015-1035 | moving up trades places with the nearest macro before it in its folder, and does nothing exactly when there is none |
| `MacroOrder.MovesDownExactly` | src/commands/macroCommands.ts:1038-1059 | moving down trades places with the nearest one after it |
| `MacroOrder.MovesUndoEachOther` | src/commands/macroCommands.ts:1015-1059 | a move is undone by the opposite move of the same macro |
| `MacroOrder.FindBindingOwner` | src/macroBindingHelpers.ts:47-57 | the first other owner of a binding, or none exactly when there is none |
| `MacroOrder.AssignBinding` | src/macroBindingHelpers.ts:59-76 | the in-place loop is the specified assignment |
| `MacroOrder.AssignmentTakesOver` | src/macroBindingHelpers.ts:59-76 | the target has exactly the binding asked for; every other macro has what it had, or nothing if it owned that one |
| `MacroOrder.RunsKeepOneOwner` | src/macroBindingHelpers.ts:43-76 | over any run of moves and assignments every effective binding has at most one owner |
| `MacroOrder.RunsPermuteContents` | src/commands/macroCommands.ts:1015-1059 | a run only reorders: apart from shortcuts no macro is changed, lost or added |
| `Words.SuccessorSharesNoBit` | src/services/networkServers/dhcp/engine/dhcpNetworkUtils.ts:46-50 | the bit trick of the mask test holds exactly for all-ones numbers |
| `Dhcp.ContiguousIsPrefix` | src/services/networkServers/dhcp/engine/dhcpNetworkUtils.ts:46-50 | the mask test accepts exactly the prefixes of section 3.1 of RFC 4632 |
| `Dhcp.CompareByValue` | src/services/networkServers/dhcp/engine/dhcpNetworkUtils.ts:36-43 | octet-wise comparison is comparison of the addresses as numbers |
| `Dhcp.CountOfEnd` | src/services/networkServers/dhcp/engine/dhcpNetworkUtils.ts:66-87 | count and range end are inverse exactly when the pool does not cross 128.0.0.0 |
| `Dhcp.CrossingPoolReadsEmpty` | src/services/networkServers/dhcp/engine/dhcpNetworkUtils.ts:66-71 | a pool across 128.0.0.0 reads as empty |
| `Dhcp.EndOfCount` | src/services/networkServers/dhcp/engine/dhcpNetworkUtils.ts:66-87 | a pool with a size has the end that size implies exactly when it is not inverted |
| `Dhcp.BroadcastValue` | src/services/networkServers/dhcp/engine/dhcpNetworkUtils.ts:124-130 | the computed broadcast is the last address of the subnet, except under a mask of zero |
| `Dhcp.AcceptedExactly` | src/commands/networkServerSettings.ts:109-134 | a pool is accepted exactly when its count is in bounds, its start is not 0.0.0.0 and it ends below the computed broadcast |
| `Dhcp.AcceptedPoolStaysInSubnet` | src/commands/networkServerSettings.ts:95-134 | every address of an accepted pool is in the subnet of its start and below its last address |
| `Dhcp.AdviceIsMaximal` | src/commands/networkServerSettings.ts:131-134 | the sizes accepted from that start are those up to the advised one and no other |
| `Dhcp.FittingPoolsAccepted` | src/commands/networkServerSettings.ts:109-134 | every pool that fits its subnet is accepted when the mask has a prefix bit; under a mask of zero, those below the packaged broadcast |
| `Dhcp.ZeroMaskRefusesFittingPool` | src/services/networkServers/dhcp/engine/dhcpNetworkUtils.ts:124-130 | under a mask of zero one address at 200.0.0.1 is refused although it fits |
| `Dhcp.AcceptedPoolKeepsCount` | src/commands/networkServerSettings.ts:81-93 | an accepted pool reads back with its count, except across 128.0.0.0 under a mask of zero |
| `Dhcp.DerivedExactly` | src/commands/networkServerSettings.ts:176-214 | a gateway is suggested exactly for /30 or wider and a start other than 0.0.0.0 (always under a mask of zero); it is one below the computed broadcast, in the subnet, and neither its first address nor the broadcast (sections 3.3, 3.5 and 5.3 of RFC 2132) |
| `DhcpEdits.QuickEditor.EditPoolStart` | src/commands/networkServerQuickAdjust.ts:386-417 | a refused entry changes nothing; an accepted one moves start and end and offers the derived addresses |
| `DhcpEdits.QuickEditor.EditPoolCount` | src/commands/networkServerQuickAdjust.ts:425-450 | the same for the count, stored as the end it implies |
| `DhcpEdits.QuickEditor.EditSubnetMask` | src/commands/networkServerQuickAdjust.ts:480-500 | a mask is refused when the existing pool would reach its broadcast |
| `DhcpEdits.QuickEditor.OfferPoolAutoFill` | src/commands/networkServerQuickAdjust.ts:338-376 | writes the derived addresses only on confirmation and only where they may be replaced |
| `DhcpEdits.RunsStayConsistent` | src/commands/networkServerQuickAdjust.ts:386-500 | over any run of non-blank edits the stored range stays valid, in one subnet and below its broadcast |
| `DhcpEdits.StartEditExactly` | src/commands/networkServerQuickAdjust.ts:386-417 | a start is let through exactly when the pool fits from it; it is stored with the end that keeps the size, and on confirmation each derived field takes its value exactly where it was blank or derived |
| `DhcpEdits.ClearedStartExactly` | src/commands/networkServerQuickAdjust.ts:386-417 | an emptied start goes back to the packaged one with the end that keeps the size |
| `DhcpEdits.CountEditExactly` | src/commands/networkServerQuickAdjust.ts:425-450 | a count that fits puts the end that many addresses from the start, one that does not changes nothing, an emptied one clears the end; no other field is written |
| `DhcpEdits.MaskEditExactly` | src/commands/networkServerQuickAdjust.ts:480-500 | a netmask under which the pool fits is stored with the pool as it was, another changes nothing |
| `DhcpEdits.ConsistentPoolInSubnet` | src/commands/networkServerQuickAdjust.ts:386-500 | what a consistent range means for each address of the pool |
| `DhcpEdits.StartMovePreservesSize` | src/commands/networkServerQuickAdjust.ts:378-417 | a start move keeps the size; the editor reads it back except across 128.0.0.0 under a mask of zero |
| `DhcpEdits.AutoFillReplacesOnlyDerived` | src/commands/networkServerQuickAdjust.ts:299-376 | gateway, broadcast and DNS change only if blank or derived from the previous start, then to what the new start implies, and only on confirmation |
| `AuthApply.DisclosureTellsName` | src/commands/authProfileCommands.ts:50-60 | for one folder and one count the confirmation text determines the profile name |
| `AuthApply.LinkProfileToServers` | src/commands/authProfileCommands.ts:101-115 | the loop over live records is the specified run |
| `AuthApply.LoopLinksExactly` | src/commands/authProfileCommands.ts:74-115 | whatever runs between the writes, the result is what the others alone would have left, linked on exactly the servers the loop got to that no other command has saved as a whole since |
| `AuthApply.HeldAre` | src/commands/authProfileCommands.ts:101-115 | of the servers the loop got to, only those another command saved meanwhile are not linked by it |
| `AuthApply.RefusedExactlyWhenOutdated` | src/commands/authProfileCommands.ts:141-220 | a confirmed command for a folder with servers is refused exactly when the profile is gone, renamed, or the folder has other servers by then; otherwise it links them all unless a save rejects |
| `AuthApply.UndisturbedLinksTheFolder` | src/commands/authProfileCommands.ts:141-220 | undisturbed and with no rejected save it sets the profile on exactly the servers of the folder and changes nothing else |
| `AuthApply.AppliesAsDisclosedOrNotAtAll` | src/commands/authProfileCommands.ts:127-220 | for every interleaving the command writes nothing, or links exactly the disclosed servers that still exist under the name the user saw; it reverts no field and recreates no server |
| `AuthApply.Apply` | src/commands/authProfileCommands.ts:127-220 | the command, with the others running before the lock and during each save, computes the specified outcome and state |
| `TemplateRules.RuleBook.SaveTemplateRules` | src/commands/deviceTemplateCommands.ts:767-801 | a change is resolved against the rules and templates as they are under the lock; a refused one changes nothing, and one whose save rejects is put back |
| `TemplateRules.RuleBook.DeleteDeviceTemplate` | src/commands/deviceTemplateCommands.ts:329-366 | a deletion goes through only at the disclosed revision and referencing set; if the first save rejects everything is put back, if the second does the rules stay on disk |
| `TemplateRules.SavedChangeExactly` | src/commands/deviceTemplateCommands.ts:767-801 | a change that comes too late or cannot be saved changes nothing; otherwise an addition puts its rule last, a replacement rewrites the rules of that id where they stand, a removal keeps exactly the others in order; no other source changes |
| `TemplateRules.DeletionExactly` | src/commands/deviceTemplateCommands.ts:329-366 | a deletion happens exactly at the disclosed revision and referencing set with its save accepted; then each source keeps exactly its rules of other templates in order |
| `TemplateRules.FiledExactly` | src/core/nexusCore.ts:686-713 | a section files nothing when it is refused or rejected, and otherwise exactly the records it saves, as they are in memory |
| `TemplateRules.DiskAgreesExactly` | src/core/nexusCore.ts:819-856 | after any run, whichever saves were rejected, disk and memory hold the same exactly when no deletion since the last accepted save of rules had its second save rejected |
| `TemplateRules.LostSweepLeavesRules` | src/core/nexusCore.ts:832-856 | a deletion leaves a rule on disk naming the deleted template exactly when it had rules to sweep and their save is rejected |
| `TemplateRules.NoRuleNamesMissingTemplate` | src/commands/deviceTemplateCommands.ts:782-793 | over any run of edits, saves and deletions no rule names a missing template |
| `TemplateRules.EditReplacesSeenVersion` | src/commands/deviceTemplateCommands.ts:845-869 | an accepted edit found the version its author saw and left the one they wrote; nothing else rewrites a rule |
| `TemplateRules.EditsFormOneChain` | src/commands/deviceTemplateCommands.ts:756-869 | the accepted edits of a rule form one chain in lock order, each having seen what the one before wrote; the last is what is stored |
| `TemplateRules.DeletionIsAsDisclosed` | src/commands/deviceTemplateCommands.ts:354-366 | a deletion takes out exactly the rules naming the template, and only from the disclosed sources |
| `PathCover.Dedupe` | src/commands/fileCommands.ts:186-229 | the reduced selection covers the whole selection, no entry of it covers another, and nothing in the selection contains a kept entry |

## Left out

- ApplyPlanWrites: `proxy.jumpHostId` is not re-resolved, because the source does not re-resolve it either.
- NoLinkDanglesAtAnyYield: other commands delete servers and profiles, edit plain fields, and save whole records; a command that itself writes a dangling link is not among them.
- PasswordStaysWithItsEndpoint: the commands running alongside delete servers and save records, and move no proxy; the server form, which stores a proxy and its password without the lock, is not modelled.
- ImportMergeReplace: the deletions of the replace-mode wipe succeed; adds, stores, rollback deletes and source removals may fail.
- ImportKeepsVaultOwned: source ids of a payload and of its secrets bundle are taken to be unique; deletions of the replace-mode wipe succeed.
- ShareRoundTrip: a jump host or a tunnel link is carried when it names any shared record, as the code does, so one that names a shared profile is carried to that profile; a tunnel link hidden by a tunnel id is dropped.
- SharedServersResolve: jump-host and tunnel links are remapped but not narrowed by the source, so nothing is claimed of them.
- RestoredPathsStayUnderRoot: a statement about names; a link that is already inside the destination folder, and leads out of it, is not modelled.
- FolderRoundTrip: no read fails while the folder is collected, and the folder restored into is empty and has no links of its own.
- KeyUnambiguous: the text of a finite number is any printing that is injective and free of delimiters; for records that hold an infinite number elsewhere than in the interval only `KeyShowsTerms` is claimed.
- MergeAfterReplaceAddsNothing: secrets the keyring could not read, which pin a record to its id, are not modelled; a restored list has none.
- RenameMacroFolder: while the folders are being saved other commands save macros; one that saves folders meanwhile is not modelled.
- RemergeExactly: the list merged into is one a save has left, so that its ids are all different; minted ids are new, and secrets the keyring could not read are not modelled.
- RemoveMacroFolder: while the macros are being saved other commands save folders; one that saves macros meanwhile is not modelled.
- DiskAgreesExactly: a rejected save leaves the disk as it was; what is read back at the next start is not modelled.
- AssignmentTakesOver: lower case is taken letter by letter for A to Z.
- RunsStayConsistent: emptied fields are applied but not claimed to keep the range consistent, because the source does not re-check them.
- EditPoolCount: the count is a whole number; an entry with a fraction is refused by the source before any check modelled here.
- AppliesAsDisclosedOrNotAtAll: under the lock servers are deleted, edited and saved as a whole, but profiles are not deleted, since that takes the same lock, nor renamed, which the loop does not read; applying a profile to a single server is the one-server case.
- NoRuleNamesMissingTemplate: the source form, which can also rewrite a source, is not modelled.
- Dedupe: the sort is taken to put a folder before its contents.
- Record revisions, except where a template deletion compares them.
- Serial profiles, local shell profiles, saved filters and explicit groups in imports: the loop of the tunnels, without links.
- Whether an empty bag of template stamps is stored or left out; the source treats both alike.
- Permissions of restored SSH files, base64, encryption and the password prompt.
- Settings export and apply, the carried poll interval and the warnings after an import.
- Import parsers, device template planning, and the wording and order of prompts.
- The download walk of `fileCommands.ts` and its depth bound.
