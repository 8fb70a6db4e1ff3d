# Verified model of the MMT studio core

This project models the stateful heart of a 5G core and its tester, and proves what the code is for.

* **The subscriber store** (`Subscriber*.dfy`). UEs, authentication data and a three-level subscription tree (slice, DNN,
  service binding) kept in flat tables with surrogate ids, UNIQUE keys and cascading foreign keys.
  `SubscriberTables.dfy` is the schema and the abstract object it stores: a forest keyed by UE, catalog id, DNN and service.
  `SubscriberSpec.dfy` says what each operation means on that object. `SubscriberSql.dfy`, `SubscriberClone.dfy` and
  `SubscriberListing.dfy` are the statements, joins and ordered queries, `SubscriberStore.dfy` the class whose methods run
  them (a transaction works on a copy and assigns it on commit; any statement may fail), each proved to compute the
  specified function or to leave the tables as they were. `SubscriberDb.Valid()` is referential integrity, every UNIQUE key
  and no empty DNN or service name (core/webservice/app/operations_route.go:113-116 and core/db/crud/services.go:132-136
  refuse those); every method keeps it, so every run does. Laws of the operations: `SubscriberTrees.dfy` (save, then get),
  `SubscriberTheorems.dfy` (clone is a tree merge), `SubscriberProvisioning.dfy` (get, then save; bulk is a fold of saves),
  `SubscriberRanges.dfy` (delete; a range delete undoes a range clone), `SubscriberBindings.dfy` (single bindings, DNN
  replacement), `SubscriberSeed.dfy` (the boot roster).
* **State machines over whole runs**: NF and site failover (`Resilience.dfy`), the UE context store (`ContextStore.dfy`),
  the load balancer (`LoadBalancer.dfy`), WLAN attach table and audit log (`WlanOffload.dfy`), the tester's log ring and a
  polling client (`LogRing.dfy`), satellite downlink buffer and feeder links (`Ntn.dfy`), the boot backfills
  (`BootRepair.dfy`).
* **Codecs and arithmetic**: bucket validation on both sides (`Manifest.dfy`), PLMN identities (`Plmn.dfy`), tracking-area
  codes (`Tac.dfy`), GPRS Timer 3 (`GprsTimer.dfy`), the ranking sort of edge discovery (`Eas.dfy`), the IMSI counter
  (`Decimal.dfy`). `Wrappers.dfy`, `Text.dfy`, `Numbers.dfy` and `Ordering.dfy` are shared.

Objects that the source updates in place are classes whose methods change their fields; loops are loops with invariants.
What an operation leaves is stated twice: through the function that specifies it, and, in the lemmas whose names end in
`Columns`, `Means` or `Answers` and in the contracts, on the stored columns alone.

## What the code does not do

Where the code and its own description differ, the model follows the code and the difference is proved.

* `Failover` with an empty type fails over all types at once, which can leave a type without an active instance
  (`Resilience.EmptyTypeFailsOverAll`; `Resilience.OtherTypesKeepTheirs` says exactly what becomes of each type). Its
  comment says that it promotes a healthy standby, its test that the standby is not failed: the two differ on degraded
  instances, which the code never writes, so in every run what is promoted is healthy (`Resilience.RunPromotesHealthy`);
  for a table that has some, `Resilience.PromotesHealthyIff` is the exact condition.
* `BindingUpsert` is not all-or-nothing: the UE row it creates stays when the binding is refused
  (`SubscriberBindings.BindFailureLeavesStore` gives the exact condition, `BindFailureLeavesUe` an input).
* `SliceDNNSave` does not replace all DNNs of a UE that is subscribed to two slices of one SST and SD (equal up to case, or
  both without SD): the slice that is not looked up keeps its own. It is sure to replace them all exactly when no
  subscribed slice shares the name of one that has a DNN (`SubscriberBindings.ReplacesAllIff`, `SameNameKeepsDnn`).
* A log poll loses matching entries when *other* entries push them out of the ring, and a limit of 0 returns everything
  (`LogRing.PollCompleteIff`, `LogRing.OthersEvict`); a client misses nothing when *all* entries emitted between two
  polls fit the capacity, their matching ones the limit, and nothing new is cleared (`LogRing.KeepingUpMissesNothing`).
* The server's bucket test wraps at 64 bits and then misses overlaps the tester finds (`Manifest.WrappedRangesPass`);
  `Manifest.ValidatorsAgreeIff` says exactly when the two sides agree.
* The two PLMN decoders agree exactly on decimal octets (`Plmn.DecodersAgreeIff`).
* `CheckOffload` logs every refusal except that of an unknown access type.
* `INSERT OR IGNORE` adds a slice without SD to the catalog each time it runs, because two NULLs are never equal
  (`BootRepair.InsertGrows`).
* The backfill of UPF slices skips a UPF that has any row, so one left half filled by an error stays so, unless no row was
  stored yet (`BootRepair.HalfFilled`); likewise a UE whose seeding failed is passed over by the next exactly when its row
  was stored (`SubscriberSeed.SeedUe`, `SubscriberSeed.SeedOneSkips`).

## Model

| member | source | states |
|---|---|---|
| `SubscriberTables.PathsAreUnique` | core/db/schemas/core.go:83-121 | The UNIQUE keys make the joins up the foreign keys functional: a path of ids, DNN and service is the path of at most one row on each level |
| `SubscriberTables.ForestClosed` | core/db/schemas/core.go:83-121 | Every stored DNN and binding has its parent, and every slice its UE and catalog row |
| `SubscriberTheorems.IntegrityMeansViewOk` | core/db/schemas/core.go:60-121 | Integrity of the tables carries over to the forest they stand for; it is what the laws below assume |
| `SubscriberSql.InsertUsn` | core/db/crud/nssai.go:585-596 | INSERT OR IGNORE of a slice row: fails exactly on an unknown catalog id, keeps an existing row's flag, keeps integrity |
| `SubscriberSql.InsertUsd` | core/db/crud/nssai.go:607-618 | The same for a DNN row: fails exactly on a DNN that is not configured |
| `SubscriberSql.InsertSb` | core/db/crud/nssai.go:629-634 | The same for a binding row: fails exactly on an unknown service |
| `SubscriberSql.CatalogGetOrCreate` | core/db/crud/nssai.go:118-140 | The lowest catalog id of an SST and SD, no SD and an empty one being alike, or a new row, added exactly when no row has those columns; the row has the SST and the trimmed SD |
| `SubscriberSpec.GetOrCreateColumns` | core/db/crud/nssai.go:118-140 | On the columns: the row found has the SST asked for and the trimmed SD, NULL or empty when that is empty, and is the lowest such; a row is added if and only if there is none, and then it is that row on a new id |
| `SubscriberSql.DeleteSubscriptions` | core/db/crud/nssai.go:569-571 | The wipe before a save: the UE's slice rows go with everything below them, every other row stays |
| `SubscriberSql.DeleteUe` | core/db/schemas/core.go:73-121 | Deleting a UE row removes exactly its own authentication, slice, DNN and binding rows |
| `SubscriberClone.CloneTree` | core/db/crud/ue.go:183-224 | The three self-joins insert exactly the source's paths under the destination; existing paths keep their flag; no parent is wrong |
| `SubscriberListing.ListSlices` | core/db/crud/nssai.go:461-541 | The nested queries list every slice, DNN and binding of the UE once, in the order of the ORDER BY clauses |
| `Ordering.OrderBy` | core/db/crud/nssai.go:465-470 | ORDER BY: each row once, in an order any total comparison gives |
| `SubscriberStore.SubscriberDb.SubscriptionTreeSave` | core/db/crud/nssai.go:547-641 | Commits the specified save, or reports why not and leaves the tables as they were; keeps integrity; SavedSlices and SaveAnswers say on the columns what that save is |
| `SubscriberStore.SubscriberDb.SubscriptionTreeGet` | core/db/crud/nssai.go:447-543 | The UE's tree in query order, None exactly when there is no such UE |
| `SubscriberStore.SubscriberDb.UEBulkProvision` | core/db/crud/bulk.go:88-269 | Commits the fold of single provisionings over the listed UEs, or changes nothing, whichever entry fails; BulkProvisions and BulkSucceeds say on the columns what that is |
| `SubscriberStore.SubscriberDb.UECloneDeep` | core/db/crud/ue.go:104-230 | Commits the specified clone or changes nothing; no subscription row is lost or altered; CloneColumns, CloneMergesTrees and CloneAnswers say what that clone is |
| `SubscriberStore.SubscriberDb.UECloneRange` | core/db/crud/ue.go:250-287 | Clones consecutive IMSIs, one transaction each, until one fails; no error only when all were made and the counter still fits its width; an overflow reports that the last value was cloned |
| `SubscriberStore.SubscriberDb.UEDeleteByIMSI` | core/db/crud/ue.go:326-336 | Removes the UE with everything below it and counts it, or changes nothing |
| `SubscriberStore.SubscriberDb.UEDeleteRange` | core/db/crud/ue.go:351-384 | Deletes consecutive IMSIs and returns how many of them had a UE when their turn came |
| `SubscriberStore.SubscriberDb.BindingUpsert` | core/db/crud/bindings.go:86-152 | Stores the specified binding; every row off its four-row path is as it was; when it is refused only the UE row may have been added |
| `SubscriberStore.SubscriberDb.BindingsDelete` | core/db/crud/bindings.go:222-263 | Deletes exactly the UE's bindings that match the filter and returns their number |
| `SubscriberStore.SubscriberDb.SubscribedNSSAISave` | core/db/crud/nssai.go:272-319 | The save of a tree that has only slices; items without id and SST are skipped |
| `SubscriberStore.SubscriberDb.SliceDNNSave` | core/db/crud/nssai.go:371-442 | Replaces the DNNs of one slice per name; the table of names holds, per name, one of the UE's slices of that name |
| `SubscriberStore.BindRows` | core/db/crud/bindings.go:281-320 | The path above a binding is found or created as default, then the flag is updated or the row inserted |
| `SubscriberTrees.PutTreeMeans` | core/db/crud/nssai.go:574-641 | A save fails exactly when a slice id, a DNN or a service is unknown; otherwise it resolves every slice and puts every path |
| `SubscriberTrees.SaveAnswers` | core/db/crud/nssai.go:547-641 | Refused as not found if and only if no UE has the IMSI; accepted only when every DNN and service written in it is configured, and then surely when every id it lists is stored |
| `SubscriberTrees.SavedTree` | core/db/crud/nssai.go:547-641 | After a save the UE holds exactly the listed paths, the first flag of a path winning and empty names dropped; other UEs are unchanged |
| `SubscriberTrees.ListedTree` | core/db/crud/nssai.go:447-543 | A listing names exactly the stored paths with their flags |
| `SubscriberTrees.SaveThenGet` | core/db/crud/nssai.go:447-641 | Save, then get, is normalisation: slices resolved to catalog ids, repeated paths merged, empty names dropped |
| `SubscriberTrees.FirstFlagMeans` | core/db/crud/nssai.go:585-640 | The flag of a merged path is that of its first occurrence |
| `SubscriberProvisioning.SavedSlices` | core/db/crud/nssai.go:574-600 | On the columns: after a save the UE is subscribed to exactly the rows of the listed slices, each the row of its id or one of its SST and trimmed SD, with the flag of the first slice listed for it |
| `SubscriberProvisioning.GetThenSave` | core/db/crud/nssai.go:447-641 | Get, then save: in a store that keeps integrity, saving what a listing shows changes nothing |
| `SubscriberProvisioning.GetThenSaveIff` | core/db/crud/nssai.go:447-641 | On any view it is accepted and changes nothing if and only if no DNN or service of the UE has an empty name, which nothing that configures them lets through |
| `SubscriberProvisioning.ResolveAllStable` | core/db/crud/nssai.go:118-140 | Resolved catalog ids stay the same while the catalog grows |
| `SubscriberProvisioning.ProvisionAllSucceeds` | core/db/crud/bulk.go:88-269 | Bulk provisioning succeeds if and only if no listed IMSI is blank and the template's slices and names resolve |
| `SubscriberProvisioning.BulkSucceeds` | core/db/crud/bulk.go:88-145 | A bulk call is accepted if and only if it lists UEs, the version is given, the key type, AMF, profile and key are empty or well-formed, no IMSI is blank, and the template's slices and names resolve |
| `SubscriberProvisioning.BulkProvisions` | core/db/crud/bulk.go:120-269 | Every listed IMSI has the authentication data of the template, column by column, and exactly its tree, all on the same catalog ids resolved once, the MSISDN of its last entry and the enabled flag it had; a single save of the template would change nothing; IMSIs not listed are untouched |
| `SubscriberTheorems.CloneMergesTrees` | core/db/crud/ue.go:104-230 | The destination's tree becomes its own united with the source's, its own flags winning; a new destination gets exactly the source's; every other UE keeps row, authentication data and tree |
| `SubscriberTheorems.CloneColumns` | core/db/crud/ue.go:140-178 | On the columns: the clone has the source's keys and AMF in lower case, its key type, profile and home-network key (NULL when empty), sequence number 0, its enabled flag and rates, and the MSISDN given or else the source's |
| `SubscriberTheorems.CloneAnswers` | core/db/crud/ue.go:104-138 | Refused as invalid if and only if an IMSI is blank, otherwise accepted if and only if the source UE and its authentication data are there |
| `SubscriberTheorems.CloneTwice` | core/db/crud/ue.go:104-230 | Cloning again changes nothing |
| `SubscriberTheorems.CloneAtOk` | core/db/crud/ue.go:104-230 | A clone keeps what integrity says of the view |
| `SubscriberTheorems.MergeIntoMerges` | core/db/crud/ue.go:183-224 | The merge is left-biased on every level and leaves other UEs' paths alone |
| `Decimal.Increment` | core/db/crud/ue.go:291-300 | The in-place increment: the next digit string of the same width, refused exactly on all nines |
| `Decimal.NextValue` | core/db/crud/ue.go:291-300 | The increment adds one to the decimal value and wraps to zero exactly when the width is exhausted |
| `Decimal.IncrementCounts` | core/db/crud/ue.go:262-286 | After n increments the counter holds start + n, and fails exactly when the next value needs another digit |
| `SubscriberRanges.RangeCloneMerges` | core/db/crud/ue.go:250-287 | A range clone gives each consecutive IMSI the source's tree beside its own paths, leaves the source's tree as it was even when the range holds it, and changes no other IMSI |
| `SubscriberRanges.RangeCloneColumns` | core/db/crud/ue.go:250-287 | On the columns: every IMSI of the range has the source's authentication data as a clone copies it, its flag and rates, all as they were before the first round even when the range holds the source, and its own digits as MSISDN |
| `SubscriberRanges.RangeCloneStops` | core/db/crud/ue.go:250-287 | Unless the driver fails, a range clone that stops early does so before its first round, because the source or its authentication data is not there, and changes nothing |
| `SubscriberRanges.RangeArgsMeans` | core/db/crud/ue.go:250-264 | A range is taken if and only if its start is a decimal number and it has at least one IMSI |
| `SubscriberRanges.MsisdnMeans` | core/db/crud/ue.go:268-273 | A cloned IMSI's MSISDN is what follows its first five digits, or all of a shorter one |
| `SubscriberRanges.RangeDeleteUndoesClone` | core/db/crud/ue.go:250-384 | Over IMSIs that were not there, a clone and then a delete of as many from the same start restore the store up to used ids |
| `SubscriberRanges.FoundIsGone` | core/db/crud/ue.go:351-384 | The count a range delete returns is the number of UE rows that are gone |
| `SubscriberRanges.DeleteRemovesOne` | core/db/crud/ue.go:326-336 | Deleting an IMSI leaves nothing of its UE and changes no other UE |
| `SubscriberBindings.BindSetsOnePath` | core/db/crud/bindings.go:86-152 | A successful upsert leaves one path with the flag, its parents present, every flag off the path as it was; doing it again changes nothing |
| `SubscriberBindings.BindColumns` | core/db/crud/bindings.go:86-152 | On the columns: the UE of the trimmed IMSI has the flag on the trimmed DNN and service of a slice with the SST and the trimmed SD in upper case; a UE created on the way is enabled, without MSISDN, at 1000000 both ways |
| `SubscriberBindings.UnbindMeans` | core/db/crud/bindings.go:222-263 | Of each stored binding: it goes if and only if its UE has the IMSI and it matches the DNN, service, SST and upper-case SD the filter names; every other keeps its flag, and nothing else changes |
| `SubscriberBindings.UnbindCounts` | core/db/crud/bindings.go:222-263 | The number returned is that of the bindings gone |
| `SubscriberBindings.AsSlicesAppend` | core/db/crud/nssai.go:284-312 | The items are taken one by one, in order |
| `SubscriberBindings.AsSlicesOne` | core/db/crud/nssai.go:284-312 | An item with an id or an SST stands for that slice without DNNs, any other for nothing |
| `SubscriberBindings.BindSucceeds` | core/db/crud/bindings.go:86-152 | Refused as invalid if and only if an argument is blank or a default service is unknown or GBR; otherwise it succeeds if and only if the DNN and service are configured |
| `SubscriberBindings.BindAnswerIgnoresRows` | core/db/crud/bindings.go:86-152 | Whether and why it is refused depends on the configured DNNs and services only, not on any stored UE, slice or path |
| `SubscriberBindings.BindFailureLeavesStore` | core/db/crud/bindings.go:102-152 | A refused upsert leaves the store unchanged if and only if the arguments are refused outright or the UE was there |
| `SubscriberBindings.BindFailureLeavesUe` | core/db/crud/bindings.go:102-152 | An input for which a refused upsert leaves a new UE behind |
| `SubscriberBindings.SaveDnnsReplaces` | core/db/crud/nssai.go:417-441 | On a looked-up slice the UE has exactly the listed DNNs and no bindings; every other path is as it was |
| `SubscriberBindings.SaveDnnsColumns` | core/db/crud/nssai.go:371-442 | On the columns: an item whose SST and SD, up to case, are those of a subscribed slice has its DNN on one of that name; a DNN of the UE is either that of an item naming its slice, with its flag, or was there on one of two slices of a name |
| `SubscriberBindings.ReplacesAllIff` | core/db/crud/nssai.go:370-442 | An accepted save is sure to replace all DNNs of the UE, whatever slice each name is looked up as, if and only if no subscribed slice of the UE shares the name of one that has a DNN |
| `SubscriberBindings.AllPickedIff` | core/db/crud/nssai.go:390-415 | Every DNN of the UE lies on a slice that is looked up, for every lookup table, if and only if no subscribed slice shares the name of one that has a DNN |
| `SubscriberBindings.ReplacesAllWith` | core/db/crud/nssai.go:417-441 | With a given lookup table the save replaces all DNNs of the UE if and only if no slice that was not looked up has one |
| `SubscriberBindings.SaveDnnsSucceeds` | core/db/crud/nssai.go:417-441 | The save is accepted if and only if the items on subscribed slices name configured DNNs, whatever is looked up |
| `SubscriberBindings.DistinctNamesArePicked` | core/db/crud/nssai.go:390-415 | Every slice is looked up when the UE's slices have distinct names |
| `SubscriberBindings.SameNameKeepsDnn` | core/db/crud/nssai.go:390-441 | Two slices of one name: an empty save leaves a DNN |
| `SubscriberSeed.SeedDefaultUEs` | core/db/seed/ue.go:25-66 | Adds the roster's missing UEs with data and tree on catalog rows of the listed slices; rows that were there are never touched; when it fails the UEs before the one it stopped in are complete and that one is part of what it was to be; with all IMSIs present only the catalog may grow |
| `SubscriberSeed.SeedUe` | core/db/seed/ue.go:68-170 | One UE: row, authentication data, slices, configured DNNs and the default bindings of existing services; an IMSI that is there is skipped; after a failure no path is there that was not to be |
| `SubscriberSeed.SeededPaths` | core/db/seed/ue.go:103-168 | A new UE has exactly the linked slices, the first of them default, on each the configured DNNs with the default one flagged, and on those the default bindings of existing services; no other UE's path changes |
| `SubscriberSeed.SeedOneColumns` | core/db/seed/ue.go:68-100 | On the columns: a new UE has the IMSI and MSISDN of its index in the bucket, is enabled at the roster's rates, and has the keys derived for its IMSI, type OPC and the default AMF and sequence number; no other row changes |
| `SubscriberSeed.DefaultBindings` | core/db/seed/ue.go:36-50 | A DNN is bound to a service with a flag if and only if the list of default bindings says so |
| `SubscriberSeed.SeedOneSkips` | core/db/seed/ue.go:79-83 | A UE is passed over if and only if its row is there, whatever else it lacks |
| `SubscriberSeed.SeedTwice` | core/db/seed/ue.go:11-66 | A second seeding changes no UE, authentication data or subscription |
| `SubscriberSeed.EnsureCatalog` | core/db/seed/ue.go:176-210 | Every listed SST gets the id of a catalog row with the SST and the SD, NULL or empty when none is given, of the last slice listed with that SST; the catalog only grows |
| `BootRepair.BootDb.BackfillPlmnNssaiID` | core/db/engine/schema.go:322-372 | Every NULL link is filled with a catalog row of its SST and SD, compared column by column, other links are untouched; with no NULL link nothing changes; an error leaves the rest NULL |
| `BootRepair.BootDb.BackfillUPFSupportedNSSAI` | core/db/engine/schema.go:379-438 | UPFs with rows are untouched, each other gets exactly the SSTs of its CSV, once each, by the first catalog row, or after an error those of the first tokens of its CSV; a second run changes nothing |
| `BootRepair.HalfFilled` | core/db/engine/schema.go:379-438 | A UPF whose filling stopped is taken up again if and only if none of the tokens done was an SST, and lacks nothing if and only if the rest repeat them |
| `BootRepair.BootDb.FillUpf` | core/db/engine/schema.go:398-435 | One UPF: after any number of tokens its rows are exactly the SSTs parsed so far |
| `BootRepair.ParsedMeans` | core/db/engine/schema.go:404-412 | A CSV parses to exactly the numbers of its readable tokens |
| `BootRepair.TokenExamples` | core/db/engine/schema.go:443-454 | Two hexadecimal characters are read as hexadecimal first, anything else as decimal |
| `BootRepair.FirstOfSst` | core/db/engine/schema.go:411-430 | The lowest catalog id of an SST; a row without SD is added only when there is none |
| `BootRepair.InsertGrows` | core/db/engine/schema.go:345-355 | INSERT OR IGNORE into the catalog keeps it unique and changes nothing if and only if the slice has an SD and is there |
| `Numbers.JoinSplit` | core/db/engine/schema.go:400-404 | Splitting at commas loses nothing: joining gives the text back |
| `Numbers.ParseMeans` | core/db/engine/schema.go:443-454 | Digits read as their number, with a sign as that or its negative, exactly within 64 bits |
| `Resilience.FailoverLeavesOneActive` | core/infra/resilience/resilience.go:97-150 | After a failover the chosen standby is the one active instance of its scope, other instances are untouched, and exactly that one is no longer available |
| `Resilience.FailoversBounded` | core/infra/resilience/resilience.go:67-150 | In every run the failovers of a scope number at most its available standbys at the start plus the standbys that heartbeats of failed ones and registrations made available |
| `Resilience.FailoverLogChains` | core/infra/resilience/resilience.go:97-150 | Two failovers of a type with only quiet steps between them have consecutive entries of the type, and the second starts from the instance the first promoted |
| `Resilience.RunPromotesHealthy` | core/infra/resilience/resilience.go:46-150 | In every run from a table without degraded instances, whatever a failover promotes is healthy |
| `Resilience.FailedNotPromoted` | core/infra/resilience/resilience.go:67-150 | In every run no failover promotes an instance that was reported failed, until a heartbeat of it or a new registration of its id |
| `Resilience.FailsOverMeans` | core/infra/resilience/resilience.go:97-150 | On the rows: what is promoted is a standby that has not failed, of highest priority and then first listed; the active instances of the scope become failed standbys; one log entry; nothing else changes |
| `Resilience.PromotesHealthyIff` | core/infra/resilience/resilience.go:97-150 | On any table a failover promotes a healthy instance if and only if there is a healthy standby that no degraded one precedes by priority and listing |
| `Resilience.EmptyTypeFailsOverAll` | core/infra/resilience/resilience.go:97-150 | A failover of the empty type can leave a type with no active instance |
| `Resilience.OtherTypesKeepTheirs` | core/infra/resilience/resilience.go:97-150 | A failover of one type leaves every other type's active instances alone; one of the empty type leaves the promoted instance's type with that one and every other type with none |
| `Resilience.SiteFailoverLeavesOneActive` | core/infra/resilience/resilience.go:364-410 | After a site failover the promoted site is the one active one, and one online standby fewer remains |
| `Resilience.SiteFailsOverMeans` | core/infra/resilience/resilience.go:364-410 | On the rows: the online standby of lowest id becomes active, active sites become standbys that failed over, one log entry, nothing else changes |
| `Resilience.SiteFailoversBounded` | core/infra/resilience/resilience.go:309-410 | Site failovers number at most the online standbys there were plus the standby sites registered |
| `Resilience.RunValid` | core/infra/resilience/resilience.go:46-64 | In every run ids are distinct and below the next one |
| `Resilience.Registry.FailOver` | core/infra/resilience/resilience.go:97-150 | Promotes the standby that is not failed of highest priority, then first listed; refused exactly when there is none |
| `Resilience.Registry.FailOverSite` | core/infra/resilience/resilience.go:364-410 | Promotes the online standby site of lowest id; refused exactly when there is none |
| `Resilience.Registry.GetActiveInstance` | core/infra/resilience/resilience.go:158-169 | The first listed active instance, None exactly when there is none |
| `Resilience.Registry.NFList` | core/infra/resilience/resilience.go:172-194 | The instances of a type by priority and id, or of all types by type first |
| `Resilience.Registry.RegisterNFInstance` | core/infra/resilience/resilience.go:46-64 | A new healthy instance; refused exactly on a bad role or a taken id |
| `Resilience.Registry.RecordHeartbeat` | core/infra/resilience/resilience.go:67-85 | The row's health becomes healthy; its other columns, all other rows, sites and the log are as before; an unknown id is refused |
| `Resilience.Registry.MarkFailed` | core/infra/resilience/resilience.go:88-94 | The row's health becomes failed; its other columns, all other rows, sites and the log are as before; an unknown id changes nothing |
| `Resilience.Registry.Delete` | core/infra/resilience/resilience.go:209-220 | Removes one instance |
| `Resilience.Registry.AddSite` | core/infra/resilience/resilience.go:309-325 | A new online site; refused exactly on a bad role or a taken name |
| `Resilience.Registry.DeleteSite` | core/infra/resilience/resilience.go:350-361 | Removes one site |
| `ContextStore.NoStaleKey` | core/infra/context/context.go:81-131 | After a removal of its IMSI, or a clear, only a later index call can lead a key to it again, however often it is created anew |
| `ContextStore.NoStaleBundle` | core/infra/context/context.go:61-131 | A bundle removed or cleared is not the IMSI's bundle again |
| `ContextStore.HoldsUnique` | core/infra/context/context.go:81-112 | A key stands for at most one IMSI |
| `ContextStore.TrackedUnique` | core/infra/context/context.go:61-78 | An IMSI has at most one bundle |
| `ContextStore.Store.GetByIMSI` | core/infra/context/context.go:74-78 | The IMSI's bundle, none exactly when it has none |
| `ContextStore.Store.GetByAmfID` | core/infra/context/context.go:81-88 | Returns a bundle if and only if the latest index call of the id has no later drop of its IMSI and the IMSI has a bundle now, and then that one |
| `ContextStore.Store.GetByGUTI` | core/infra/context/context.go:91-98 | The same for a GUTI |
| `ContextStore.Store.GetOrCreate` | core/infra/context/context.go:61-71 | The IMSI's bundle, a fresh one exactly when it had none |
| `ContextStore.Store.Remove` | core/infra/context/context.go:115-131 | On the maps: the bundle goes, no AMF id or GUTI leads to the IMSI any more, and every other entry is as before |
| `ContextStore.Store.IndexAmfID` | core/infra/context/context.go:101-105 | Records the index call; the maps keep agreeing with the history |
| `ContextStore.Store.IndexGUTI` | core/infra/context/context.go:108-112 | The same for a GUTI |
| `ContextStore.Store.Clear` | core/infra/context/context.go:163-169 | All three maps are empty |
| `LoadBalancer.LB.Pick` | core/infra/lb/lb.go:70-96 | The next healthy index going round, or the first healthy one with fewest connections; the empty address if and only if the balancer is off, the strategy unknown or none healthy |
| `LoadBalancer.RoundRobinFair` | core/infra/lb/lb.go:76-83 | As many consecutive picks as there are healthy backends give each of them exactly once |
| `LoadBalancer.PickRound` | core/infra/lb/lb.go:70-96 | Calling Pick as often as there are healthy backends picks each of them exactly once |
| `LoadBalancer.NextRank` | core/infra/lb/lb.go:76-83 | The next healthy index is the next rank, going round |
| `LoadBalancer.SplitComma` | core/infra/lb/lb.go:116-138 | The trimmed non-empty fields of the list |
| `LoadBalancer.TrimBlanksMeans` | core/infra/lb/lb.go:140-149 | A field loses exactly the blanks and tabs at its ends |
| `LoadBalancer.SplitJoin` | core/infra/lb/lb.go:116-138 | Splitting undoes joining addresses with commas |
| `LoadBalancer.LB.Init` | core/infra/lb/lb.go:42-66 | Appends the configured addresses, all healthy; a disabled balancer is left alone |
| `WlanOffload.AgreesStep` | core/access/wifi_offload/wifi_offload.go:146-184 | Every entry keeps the law: a key is in the table if and only if its newest attached or detached entry is attached, and it is never detached more often than attached |
| `WlanOffload.AlternatesStep` | core/access/wifi_offload/wifi_offload.go:146-184 | A key's entries never have two detachments in a row nor begin with one |
| `WlanOffload.LastMoveMeans` | core/access/wifi_offload/wifi_offload.go:291-296 | The newest move of a key in the log is the last entry about it that is not a refusal |
| `WlanOffload.Offload.AttachUE` | core/access/wifi_offload/wifi_offload.go:146-169 | Inserts or updates the row and logs it; refused arguments change nothing |
| `WlanOffload.Offload.DetachUE` | core/access/wifi_offload/wifi_offload.go:172-184 | Removes the row; logged exactly when there was one |
| `WlanOffload.Offload.CheckOffload` | core/access/wifi_offload/wifi_offload.go:226-287 | The admission rules; a refusal changes no table and is logged exactly when the access type is known |
| `WlanOffload.PermitsMeans` | core/access/wifi_offload/wifi_offload.go:226-287 | Allowed if and only if the access type is known and, without a policy of the DNN, untrusted, or the policy is enabled, not 5G only and, when WLAN only, of that access type |
| `WlanOffload.Offload.SetPolicy` | core/access/wifi_offload/wifi_offload.go:99-123 | Stores a policy exactly when DNN, access type and preference are valid |
| `WlanOffload.Offload.DeletePolicy` | core/access/wifi_offload/wifi_offload.go:137-140 | Removes one policy |
| `WlanOffload.Offload.IsAttached` | core/access/wifi_offload/wifi_offload.go:187-197 | True exactly when the newest move of the key in the log is attached |
| `LogRing.PollCompleteIff` | tester/src/tester_logger.py:76-105 | A poll returns all matching entries since a number if and only if none of them was evicted or cleared and they are at most the limit, or the limit is 0 |
| `LogRing.NothingLost` | tester/src/tester_logger.py:53-105 | Nothing is lost when everything emitted since, matching or not, is still held |
| `LogRing.OthersEvict` | tester/src/tester_logger.py:59-105 | Entries that do not match can push a matching one out |
| `LogRing.PollsNeverRepeat` | tester/src/app.py:1103-1121 | In every run of emits, clears and polls the client gets strictly increasing numbers, none twice |
| `LogRing.PollsMissNothing` | tester/src/app.py:1103-1121 | When every poll is complete the client has after each poll every matching entry since its start |
| `LogRing.KeepingUpMissesNothing` | tester/src/app.py:1103-1121 | When at each poll at most the capacity was emitted since the poll before, the matching ones at most the positive limit, and nothing new was cleared: every poll returns exactly the new matching entries, and the client has exactly the matching entries above its start, in order |
| `LogRing.RingBufferHandler.Emit` | tester/src/tester_logger.py:59-74 | Adds the next number and drops the oldest over capacity; the ring stays a block ending at the current number |
| `LogRing.RingBufferHandler.GetEntries` | tester/src/tester_logger.py:76-105 | A poll of what was ever emitted and is still held, with its filters and its limit |
| `LogRing.MatchesMeans` | tester/src/tester_logger.py:76-105 | A lower level selects all that a higher one selects; an entry below the level asked for is not selected; the other filters ask for a substring, in the message up to case |
| `LogRing.SeverityOrder` | tester/src/tester_logger.py:76-90 | The order of the level names; any other name ranks below all |
| `LogRing.RingBufferHandler.Clear` | tester/src/tester_logger.py:117-119 | Empties the ring; the numbers go on |
| `Manifest.ValidatorsAgree` | core/db/seed/manifest.go:185-212 | For digit-string starts whose ranges fit 64 bits the interval test accepts if and only if counts are positive and enumeration repeats no IMSI string |
| `Manifest.OverlapMeans` | core/db/seed/manifest.go:202-210 | Two ranges overlap if and only if an IMSI string is in both |
| `Manifest.ValidatorsAgreeIff` | core/db/seed/manifest.go:185-212 | For digit-string starts and counts up to 64 bits the two sides agree if and only if some count is not positive, or the server sees a pair that meets, or a pair meets and a start does not parse, or all starts parse and no pair that meets is missed past a wrapped end |
| `Manifest.OverlapIff` | core/db/seed/manifest.go:202-210 | The server sees a shared IMSI if and only if neither bucket starts past the wrapped end of the other |
| `Manifest.DistinctIff` | tester/src/baseline.py:306-339 | Enumeration repeats an IMSI string if and only if two buckets meet in unbounded arithmetic |
| `Manifest.WrappedRangesPass` | core/db/seed/manifest.go:185-212 | An input beyond 64 bits that the server accepts and the tester refuses |
| `Manifest.ValidateBuckets` | core/db/seed/manifest.go:185-212 | Accepts exactly positive counts, 64-bit starts and pairwise disjoint ranges, with the wrap of the end |
| `Manifest.LoadBuckets` | tester/src/baseline.py:306-339 | Accepts exactly positive counts and no repeated IMSI; then each IMSI is indexed with its bucket and MSISDN |
| `Manifest.SameImsis` | core/db/seed/manifest.go:242-253 | Both sides number a bucket's IMSIs, and MSISDNs that fit, alike |
| `Manifest.ParseMeans` | core/db/seed/manifest.go:242-253 | Exactly digit strings up to the largest 64-bit number parse; a number beyond it stands for that largest, anything else for 0 |
| `Manifest.NumberedMeans` | tester/src/baseline.py:306-339 | IMSIs count up from the start in 15 digits, more only past their end, and MSISDNs in at least as many digits as their start |
| `Manifest.PaddedInjective` | core/db/seed/manifest.go:242-245 | Zero padding does not make two numbers one |
| `Ntn.CoverageManager.BufferDLPacket` | core/access/ntn/ntn.go:293-299 | Appends the packet, dropping the oldest when full; what arrived is what has a fate and then what is buffered |
| `Ntn.CoverageManager.FlushDLBuffer` | core/access/ntn/ntn.go:301-312 | Returns the buffered packets still in time, in order, and gives every buffered packet its one fate |
| `Ntn.WithFlush` | core/access/ntn/ntn.go:301-312 | All that flushes ever returned is exactly what was delivered, in order of arrival |
| `Ntn.Conservation` | core/access/ntn/ntn.go:293-312 | Every packet that left the buffer was delivered, dropped or expired, exactly one of them |
| `Ntn.FreshIsSuffix` | core/access/ntn/ntn.go:301-312 | With a clock that does not run backwards a flush loses the oldest |
| `Ntn.FreshMeans` | core/access/ntn/ntn.go:301-312 | A flush returns exactly the buffered packets younger than the limit, each as often as it was buffered |
| `Ntn.FeederLinkManager.RegisterFeederLink` | core/access/ntn/ntn.go:346-358 | Replaces the link and records a switch exactly when the ground station changes; the switches of every satellite lead to its active link |
| `Ntn.LeadsMeans` | core/access/ntn/ntn.go:346-358 | Leading means: the first switch starts at the first ground station, each at the end of the one before, the last ends at the active link, none stays in place |
| `Ntn.FeederLinkManager.InitiateSwitch` | core/access/ntn/ntn.go:367-371 | Reports a switch exactly when one was recorded |
| `Ntn.FeederLinkManager.GetSwitchHistory` | core/access/ntn/ntn.go:373-379 | The newest entries, 20 without a positive limit |
| `Eas.SortByScore` | core/edge/eas/eas.go:271-275 | The in-place sort gives the ranking of what was there |
| `Eas.RankedMeans` | core/edge/eas/eas.go:271-275 | The ranking is descending and, score by score, keeps the old order: a stable permutation |
| `Eas.RankedFirst` | core/edge/eas/eas.go:277-283 | The pick is the first candidate of maximal score |
| `Eas.NameAnswerIgnoresPlace` | core/edge/eas/eas.go:362-381 | The answer to a name query does not depend on the UE's coordinates |
| `Eas.NearestFirst` | core/edge/eas/eas.go:253-296 | By contrast Discover's ranking of two like servers puts first the one whose distance from the UE scores more |
| `Eas.Registry.Discover` | core/edge/eas/eas.go:253-296 | The active servers of the application, scored and ranked; the log names the first |
| `Eas.Registry.DiscoverViaEasdf` | core/edge/eas/eas.go:332-401 | The best active server whose URL holds the name, or of the application when none does; None exactly when the name is blank or there is no candidate |
| `Eas.ScoreEas` | core/edge/eas/eas.go:493-544 | The sum of the DNAI, DNN, slice, capacity and proximity terms, a slice counting once per matching element |
| `Eas.ScoreSums` | core/edge/eas/eas.go:493-544 | On the columns: the score is the hundredth nearest to the sum of 50, 30 and 20 per match, the free capacity and the proximity below 99999 km |
| `Eas.CriteriaAdd` | core/edge/eas/eas.go:493-544 | A matching DNAI, DNN and each matching slice add 50, 30 and 20 points to whatever the other terms give |
| `Eas.ActiveMeans` | core/edge/eas/eas.go:258-269 | The query selects exactly the active servers, of the application when one is asked for, each as often as it is registered |
| `Eas.AtUrlMeans` | core/edge/eas/eas.go:348-354 | The candidates of a name are exactly the servers whose lower-case URL holds it |
| `Eas.CandidatesMeans` | core/edge/eas/eas.go:348-366 | The candidates of a name query are exactly the active servers whose URL holds it up to case; only when there is none, those of the application |
| `Plmn.EncodePlmn` | core/infra/plmn/plmn.go:188-223 | The three octets of section 2.2 of 3GPP TS 23.003, refused exactly on anything but three digits and two or three |
| `Plmn.EncodedExamples` | core/infra/plmn/plmn.go:188-223 | The octets of identities with two- and three-digit MNCs |
| `Plmn.DecodeEncoded` | core/infra/plmn/plmn.go:226-250 | Decoding inverts encoding for two- and three-digit MNCs |
| `Plmn.EncodedDecode` | core/infra/plmn/plmn.go:188-250 | Encoding inverts decoding if and only if the octets are decimal |
| `Plmn.SameOctets` | tester/libs/gpp_utils.py:27-57 | The tester's encoder produces the same octets |
| `Plmn.DecodersAgreeIff` | tester/libs/gpp_utils.py:3-24 | The two decoders agree if and only if the octets are decimal |
| `Plmn.ValidateGnbPlmns` | core/infra/plmn/plmn.go:259-288 | True if and only if a list is empty or some reported identity is a configured (MCC, MNC) |
| `Plmn.EncodesIff` | core/infra/plmn/plmn.go:274-287 | A byte comparison is a comparison of (MCC, MNC) |
| `Tac.TrackingAreas.ValidateGnbTacs` | core/infra/tac/tac.go:169-208 | With no enabled area all are accepted in upper case; otherwise the list is split by verdict and the accepted are mapped to a named gNB |
| `Tac.JudgeMeans` | core/infra/tac/tac.go:184-206 | A TAC is accepted if and only if its hexadecimal value is configured, then under a configured spelling of that value; a rejected one keeps its value |
| `Tac.NumberExamples` | core/infra/tac/tac.go:184-190 | TACs are hexadecimal in either case, with or without leading zeros |
| `Tac.SpellingIsLast` | core/infra/tac/tac.go:176-183 | Of several configured spellings of one value the last stands for it |
| `Tac.SplitInOrder` | core/infra/tac/tac.go:191-206 | Accepted and rejected are the reported list split, in order and with nothing lost |
| `Tac.TrackingAreas.MapGnbToTa` | core/infra/tac/tac.go:143-151 | Adds the mapping exactly when the upper-case TAC is in the table |
| `GprsTimer.EncodeIsExact` | core/infra/timers/gprstimer.go:58-84 | Decoding by section 10.5.7.4a of 3GPP TS 24.008 gives a positive duration back if and only if it is 1 to 31 steps of a unit; the unit is the finest such; every other becomes 0xDF |
| `GprsTimer.DeactivatedIff` | core/infra/timers/gprstimer.go:58-90 | Exactly the durations that are not positive are sent as deactivated |

## Left out

- SQL text, drivers, pragmas and migrations: tables and constraints are modelled directly, and a failing statement is a choice any step of a transaction may take.
- SubscriberSql.CatalogGetOrCreate: several catalog rows can match a slice without SD and the query has no ORDER BY; the model reads the lowest id.
- SubscriberSeed.SeedUe: the SELECTs that read a slice or DNN row's id back, whose errors the code passes over, are taken to succeed.
- BootRepair.BootDb.BackfillUPFSupportedNSSAI: the COUNT of a UPF's rows, whose driver error the code ignores, is taken to succeed.
- Resilience.Registry.FailOver: the code ignores the error of each UPDATE and of the log insert; the model takes them to succeed.
- Resilience.Registry.FailOverSite: the same for TriggerSiteFailover.
- Resilience.Registry.RecordHeartbeat: the heartbeat time it writes is not modelled, nor are endpoints and creation times.
- WlanOffload.Offload.AttachUE: the log insert, whose error the code ignores, is taken to succeed.
- Eas.ScoreEas: scores are real arithmetic rounded to hundredths, not floating point; the distance and the exponential are parameters; JSON columns are taken parsed.
- Manifest.LoadBuckets: starts are digit strings; what Python's int() also reads (signs, blanks, underscores, other digits) is not modelled.
- LogRing.RingBufferHandler.GetEntries: a level name that is none of the standard ones counts as 0.
- Plmn.SameOctets: what Python's int() reads as a digit beyond '0' to '9' is not modelled.
- Upper and lower case, in Text.dfy, are those of ASCII letters; strings are sequences of characters, not of bytes.
- Row ids and counters that the savers return: they count items, ignored duplicates included. Slice names, equipment identities and subscriber status.
- CRUD of APNs, services and the slice catalog; UEGetOrCreateByIMSI apart from its part in BindingUpsert; eSIM profiles, whose foreign key can refuse a UE's deletion, are taken to be absent.
- BindingsBulk, which asks the one-connection pool for a second connection inside a transaction.
- SST as text: the store keeps it an integer; how lists print it and how saves parse it is not modelled.
- SHA-256 key derivation is an uninterpreted function; clocks are inputs.
- Orbits, visibility, delays, store-and-forward and tracking-area geography of the satellite code; state snapshots and statistics of the resilience code; DNAI mapping of the edge code.
- HTTP routes, the web interface, reports and the command line of the tester, apart from the polling loop of the log stream.
