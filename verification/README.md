# Verified models of the Aci.X service cores

The Aci.X web service sits between its clients, a SQL Server database, a Redis server and a
partner's storefront. This project models the parts of it whose correctness is spread over several
functions or over whole runs, and proves what those parts achieve:

- **The read-through entity cache** (`RedisCache`, `EntityCache`, `EntityCacheClass`,
  `EntityCacheTheorems`, `CacheRuns`). Batch and single gets, forced refresh, negative markers, block
  reads and block loads, on a server whose calls may silently fail. The cache is proved to be
  invisible: every run answers as a plain lookup in the database does.
- **Loaders that honour only their first key** (`HeadLoader`), with the exact condition under which a
  batch get through one goes wrong.
- **Region names and key prefixes** (`Regions`, `Decimal`).
- **`User.GetCredits`** (`Credits`), where a marker hides an order from the very call that imports it.
- **The self-observing statistics** (`CacheMonitor`).
- **Content templates** (`Placeholders`, `ContentBlock`, `PageContent`).
- **The directory walker** (`DirectoryWalk`) and **the query limiter** (`QueryLimiter`).
- **Cart, checkout and reports** (`Checkout`, `Reports`).
- **The DAL generator's type printer** (`TypePrinter`), **the cached query's file path** (`CachePath`)
  and **the cache migrator** (`Migrator`).

## How the models are built

Each stateful core has two layers. Functions on values say what an operation does to the state; a
class with the source's fields and loops runs the operation in place and is proved to compute exactly
that function. The theorems are about the functions, so they hold of the class as well.

What lies outside the process is made explicit:

- Redis is a map from full keys to text, with a script that says which of the coming calls fail
  silently. Expiry is an operation of a run. The database is a map of rows, with a script of the
  loads that throw.
- A subclass of the entity cache is a `Config`: its loader, its key function, its key's text, its JSON
  serialiser, its prefix and the two block sizes. `Lawful` and `Pointwise` are the contracts the
  subclasses are meant to meet. JSON is any round-tripping function that never yields the marker,
  `""`, which section 7 of RFC 8259 defines as the empty string.
- `String.Format`, `ToLower` and the stored procedures are parameters. Clocks and durations are
  parameters or results. Storefront, partner and profile calls are outcomes given with the operation.
- A visit's cart is kept in its cache entry and nowhere else. Every request in `Checkout` says whether reading
  that entry, filling it from the database, and writing the query and the cart go through.
- Each operation is one atomic step, except in `Migrator`, whose steps are the interlocked actions of
  the source.

## Findings

Where a property turned out not to hold, the model keeps the code's behaviour. For each, lemmas at failing
inputs come first and the lemmas with the exact condition after them:

- `TwoKeyBatchMarksSecond`, `HeadLoaderBatch`: a batch get through a head loader marks rows absent that
  exist, exactly when a key other than the first of a block has a row.
- `OneImportedCredit`, `ImportedOrderAppearsOneCallLate`, `ImportedCreditExactly`: on a server that answers, `GetCredits`
  omits an imported order on the importing call, except when its transaction occurs twice among the credits. If
  the write of the marker is lost and no older marker stayed, the order is listed at once.
- `LostInvalidationShows`, `LostInvalidation`: a lost `Remove` or `Set` after a database write breaks
  coherence exactly when the key was cached and its cell changed.
- `SiteRegionIsMisread`, `StatsKeyRegion`: splitting a statistics key gives the region exactly when the region has no ':'.
  Site regions have one.
- `ResetInUse`, `ResetLeavesPhantomDeletes`, `ResetTotal`: flushing a region leaves seven delete misses in the counters;
  what a reset leaves is given counter by counter.
- `NestingShows`, `BracedValueShows`, `ClosedKeyShows` (small inputs: `NestingBreaksIt`,
  `BracedValuesBreakIt`), and `TemplateExactly`, `ValueExactly`, `KeyExactly`: the order in which
  placeholders are filled shows exactly for nested templates, for values with an opening brace, and for
  keys with a closing brace whose own placeholder is not nested.
- `KeysCollideOtherwise`, `EqualKeysEqualArguments`, `PagesShareKey`: a page's cache key confuses null with
  "", and two page codes exactly when one extends the other by a '|'.
- `UnlistedNameIsMissed`, `WalkOfRankedCity`, `ShownOfRankedCity`: a node lists the names below its prefix that
  the most persons bear, up to a limit, and a name that equals its prefix has no next letter. Without ties a
  name is walked, or a first name shown, exactly when fewer names than the limit extend it and are borne by
  more. For every limit there is a city of one name more that misses one. The comments of the controller
  promise the top 100 names and the next letters of all others (`EveryNameIsWalked`); the procedure that
  builds the nodes keeps at most 50.
- `UnreadableOrderOverdraws`, `LostClearOverdraws`, `StepKeepsBalance`: the cart's copy of a subscription is
  overdrawn exactly by a free checkout that leaves it in the cart: one whose order cannot be read back after
  the debit, or one whose clearing write is lost while the copy promises as many units as there are.
- `RetryChargesTwice`, `LostClearChargesTwice`, `ChargedTwiceExactly`: one cart is charged twice exactly when a
  checkout charges it and leaves it in place, because it fails after the charge or because the write that
  clears the cart is lost, and the cart is charged again before anything replaces it.
- `SubscriptionOrderReportedTwice`, `MadeExactlyWhenNotNoticed`: for an order without a report item, such as
  a subscription's, the report row is not linked to the order, and a second report of the same type and
  profile is made.
- `AmbiguousOtherwise`, `PrintsAlikeExactly`: array ranks, by-refs and names equal to emitted keywords are
  lost in printing, and nothing else is.

## Model

| member | source | states |
|---|---|---|
| RedisCache.CacheClient.Get | Aci.X.ServerLib/CacheClient.cs:96-115 | a failing or unconnected read gives null, and the store is never changed |
| RedisCache.CacheClient.GetMany | Aci.X.ServerLib/CacheClient.cs:122-143 | one call for all keys: on a failure every cell is null, otherwise each is its key's entry |
| RedisCache.CacheClient.Put | Aci.X.ServerLib/CacheClient.cs:448-469 | the entry is replaced, or silently nothing happens |
| RedisCache.CacheClient.Remove | Aci.X.ServerLib/CacheClient.cs:729-787 | the given full keys are gone and the number of those that were there is returned, or silently nothing happens and it is 0 |
| RedisCache.CacheClient.Flush | Aci.X.ServerLib/CacheClient.cs:896-902 | listing the keys may throw; deleting them fails silently |
| EntityCacheClass.EntityCacheBase.constructor | Aci.X.ServerLib/EntityCacheBase.cs:22-28 | the cache works on its own prefix of the shared server |
| EntityCacheClass.EntityCacheBase.GetFromDB | Aci.X.ServerLib/EntityCacheBase.cs:279-282 | the subclass's hook, which may throw |
| EntityCacheClass.EntityCacheBase.GetFromDBInBlocks | Aci.X.ServerLib/EntityCacheBase.cs:254-277 | the offset loop computes the blocked load; one throwing block loses all of it |
| EntityCacheClass.EntityCacheBase.GetOne | Aci.X.ServerLib/EntityCacheBase.cs:184-218 | the single-key get refines its specification function on server and database |
| EntityCacheClass.EntityCacheBase.Sort | Aci.X.ServerLib/EntityCacheBase.cs:84-94 | the loop over one block of cells splits it into hits and needed keys, markers dropped |
| EntityCacheClass.EntityCacheBase.ReadBlock | Aci.X.ServerLib/EntityCacheBase.cs:81-96 | one block makes progress towards what the whole read will find |
| EntityCacheClass.EntityCacheBase.ReadCells | Aci.X.ServerLib/EntityCacheBase.cs:79-96 | the block loop finds exactly the hits and needed keys of the blocked read |
| EntityCacheClass.EntityCacheBase.WriteBack | Aci.X.ServerLib/EntityCacheBase.cs:125-154 | rows are cached, then markers for the needed keys not found, unless the counts agree |
| EntityCacheClass.EntityCacheBase.InRequestOrder | Aci.X.ServerLib/EntityCacheBase.cs:168-174 | one entity per key that has one; that of the i-th key stands behind as many as there are earlier keys that have one |
| EntityCacheClass.EntityCacheBase.CompleteFrom | Aci.X.ServerLib/EntityCacheBase.cs:114-174 | load, cache and order: a throwing load is swallowed and nothing is cached |
| EntityCacheClass.EntityCacheBase.GetMany | Aci.X.ServerLib/EntityCacheBase.cs:37-175 | the batch get with its empty and one-key paths refines its specification function |
| EntityCacheClass.EntityCacheBase.Set | Aci.X.ServerLib/EntityCacheBase.cs:220-226 | if the call goes through, the entity's own full key holds its text; otherwise nothing happens |
| EntityCacheClass.EntityCacheBase.Remove | Aci.X.ServerLib/EntityCacheBase.cs:238-244 | the key's entry is deleted, or silently nothing happens |
| EntityCacheClass.EntityCacheBase.RemoveMany | Aci.X.ServerLib/EntityCacheBase.cs:228-237 | no call at all for an empty list, else one delete of all keys |
| EntityCacheClass.EntityCacheBase.Flush | Aci.X.ServerLib/EntityCacheBase.cs:246-252 | the region is emptied, or the listing throws |
| EntityCacheTheorems.CorrectWrite | Aci.X.ServerLib/EntityCacheBase.cs:125-130 | writing a row or marker that agrees with the database keeps coherence and forgets nothing |
| EntityCacheTheorems.DeleteCoherent | Aci.X.ServerLib/EntityCacheBase.cs:228-244 | deleting keeps coherence whatever is deleted and whether or not the call fails |
| EntityCacheTheorems.ReadBlocksCells | Aci.X.ServerLib/EntityCacheBase.cs:79-96 | a non-null cell is the store's entry, and with a healthy server every entry is found, for every block size |
| EntityCacheTheorems.NeededExactly | Aci.X.ServerLib/EntityCacheBase.cs:86-89 | a key is needed exactly when its cell was null, and is needed once |
| EntityCacheTheorems.HitsAreRows | Aci.X.ServerLib/EntityCacheBase.cs:90-93 | hits from a coherent region are exactly the rows of the cached keys |
| EntityCacheTheorems.LoadBlocksAnswers | Aci.X.ServerLib/EntityCacheBase.cs:254-277 | loading in blocks answers as one load would, for every block size |
| EntityCacheTheorems.IndexedRows | Aci.X.ServerLib/EntityCacheBase.cs:132-138 | after indexing the loaded rows the dictionary holds exactly the rows of hits and needed keys |
| EntityCacheTheorems.PutRowsFill | Aci.X.ServerLib/EntityCacheBase.cs:125-130 | caching loaded rows keeps coherence, touches only the region, and with a healthy server caches each |
| EntityCacheTheorems.PutMarkersFill | Aci.X.ServerLib/EntityCacheBase.cs:145-154 | the marker pass keeps coherence and with a healthy server marks every needed key not found |
| EntityCacheTheorems.MarkerPassSkippable | Aci.X.ServerLib/EntityCacheBase.cs:145-154 | by counting: the lengths agree if and only if every needed key has a row, so the pass would write nothing |
| EntityCacheTheorems.CompleteCorrect | Aci.X.ServerLib/EntityCacheBase.cs:114-174 | from any correct hits the second half answers the view in order, or a subsequence if the load throws |
| EntityCacheTheorems.LoadedCorrect | Aci.X.ServerLib/EntityCacheBase.cs:118-154 | a successful load gives the full answer and a coherent region in which every needed key is cached |
| EntityCacheTheorems.GetGeneralShows | Aci.X.ServerLib/EntityCacheBase.cs:37-175 | the batch path answers from the rows the cache shows, even while some cached keys are out of date; it drops rows only if one of its own loads threw |
| EntityCacheTheorems.LoadFailsExactly | Aci.X.ServerLib/EntityCacheBase.cs:254-277 | a blocked load fails if and only if one of the loads it makes throws |
| EntityCacheTheorems.GetGeneralCorrect | Aci.X.ServerLib/EntityCacheBase.cs:37-175 | the batch get answers one row per distinct key that has one, each at the place that its first request gives it, and keeps coherence, for all block sizes and all mixes of hits, misses and markers |
| EntityCacheTheorems.LookupInOrder | Aci.X.ServerLib/EntityCacheBase.cs:168-174 | the reference lookup gives one row per key that has one; the row of a key first requested at i stands behind the rows of the keys requested before i |
| EntityCacheTheorems.SelectInOrder | Aci.X.ServerLib/EntityCacheBase.cs:168-174 | the same for the loop over distinct keys, whatever the dictionary |
| EntityCacheTheorems.OrderDetermines | Aci.X.ServerLib/EntityCacheBase.cs:168-174 | there is only one list in request order |
| EntityCacheTheorems.FailedLoadWritesNothing | Aci.X.ServerLib/EntityCacheBase.cs:114-160 | if any block of the load throws, no row and no marker is written |
| EntityCacheTheorems.GetOneForm | Aci.X.ServerLib/EntityCacheBase.cs:184-218 | the single-key get loads exactly when forced or on a null cell, and then caches the database's row or a marker |
| EntityCacheTheorems.GetOneShows | Aci.X.ServerLib/EntityCacheBase.cs:184-218 | the single-key get answers from the rows shown, and throws exactly when it had to load and the load threw |
| EntityCacheTheorems.OneKeyShortcut | Aci.X.ServerLib/EntityCacheBase.cs:43-50 | the one-key shortcut gives the general path's answer and the same server, entry for entry, differing only in reporting a throwing load |
| EntityCacheTheorems.ForcedGetIsCurrent | Aci.X.ServerLib/EntityCacheBase.cs:188-191 | a forced get answers the database's current rows whatever the cache holds or loses |
| EntityCacheTheorems.SetStores | Aci.X.ServerLib/EntityCacheBase.cs:220-226 | a `Set` that goes through stores the entity's text under its key and touches no other key; a lost one does nothing |
| EntityCacheTheorems.SetThenGet | Aci.X.ServerLib/EntityCacheBase.cs:184-226 | the next unforced get that is answered yields the entity, whatever the database holds, and loads nothing |
| EntityCacheTheorems.RemovesExactly | Aci.X.ServerLib/EntityCacheBase.cs:228-244 | a removal that goes through deletes the given keys and no others, and one key alone is the same call |
| CacheRuns.StepShows | Aci.X.ServerLib/EntityCacheBase.cs:37-252 | every operation answers as the reference system and moves both on together |
| CacheRuns.ManyShows | Aci.X.ServerLib/EntityCacheBase.cs:37-175 | a batch get equals the lookup in the rows shown, in request order |
| CacheRuns.UpdateShows | Aci.X.ServerLib/EntityCacheBase.cs:220-244 | a database write followed by a `Remove` or `Set` that goes through moves the rows shown along |
| CacheRuns.RunMatchesPlain | Aci.X.ServerLib/EntityCacheBase.cs:37-252 | over every run of gets, removals, flushes, expiries and invalidated writes the answers are those of a system without a cache, started from the rows shown |
| CacheRuns.CoherentRunMatchesDatabase | Aci.X.ServerLib/EntityCacheBase.cs:37-252 | from a coherent region every get of every such run equals a database lookup, and the run ends coherent |
| CacheRuns.RunWithThrowingLoads | Aci.X.ServerLib/EntityCacheBase.cs:114-218 | with loads that may throw, each answer of every run is right unless a load made by that very operation threw, and is then a reported failure or an order-preserving part of the right list; the cache goes on showing the same rows |
| CacheRuns.CoherentRunWithThrowingLoads | Aci.X.ServerLib/EntityCacheBase.cs:114-218 | from a coherent region each answer is the database's unless a load of that operation threw, and the run ends coherent |
| CacheRuns.FailuresAreInvisible | Aci.X.ServerLib/CacheClient.cs:96-143 | for an unchanging database no pattern of failing cache calls changes any answer of any run |
| CacheRuns.LostInvalidation | Aci.X.ServerLib/CacheClient.cs:729-750 | a lost `Remove` or `Set` leaves coherence if and only if the key was not cached or its cell did not change |
| CacheRuns.LostInvalidationShows | Aci.X.ServerLib/CacheClient.cs:729-750 | a cached row, an update whose `Remove` or `Set` is lost, and a get that answers the old row |
| CacheRuns.MarkerHidesInsertedRow | Aci.X.ServerLib/EntityCacheBase.cs:145-154 | after the insertion of a marked row every run that spares its key answers as if the row had never been inserted, and the marker stays |
| CacheRuns.ClearingRestores | Aci.X.ServerLib/EntityCacheBase.cs:188-252 | a removal, forced get, set, flush or expiry of the key each makes the region coherent with the current rows |
| HeadLoader.OneKeyRunsAreSafe | Aci.X.Business/Cache/QueryCache.cs:16-27 | runs of one-key gets through a head loader match the database and keep coherence |
| HeadLoader.BlockHeadsAt | Aci.X.ServerLib/EntityCacheBase.cs:267-272 | a key heads a block exactly when its position is a multiple of the block size |
| HeadLoader.HeadLoadBlocks | Aci.X.Business/Cache/QueryCache.cs:16-27 | a blocked load through a head loader answers exactly the first keys of the blocks |
| HeadLoader.PassedOver | Aci.X.ServerLib/EntityCacheBase.cs:118-154 | a passed-over key with a row ends up marked absent and missing from the answer |
| HeadLoader.HeadLoaderBatch | Aci.X.ServerLib/EntityCacheBase.cs:118-154 | a batch get through a head loader is right, and keeps coherence, if and only if only the first key of each block has a row |
| HeadLoader.TwoKeyBatchMarksSecond | Aci.X.ServerLib/EntityCacheBase.cs:118-154 | two uncached keys with rows: the second is marked absent |
| Decimal.DigitsRoundTrip | Aci.X.Business/Cache/SiteEntityCacheBase.cs:13-17 | decimal text determines its number |
| Regions.SiteNameInjective | Aci.X.Business/Cache/SiteEntityCacheBase.cs:13-17 | different sites have different region names |
| Regions.PrefixesNest | Aci.X.ServerLib/CacheClient.cs:907-910 | within the family one prefix extends another if and only if the regions are equal or a plain region is named like the other's site |
| Regions.RegionsShareNoKey | Aci.X.ServerLib/CacheClient.cs:907-910 | separate regions share no Redis key, for any key strings |
| Regions.FlushIsExact | Aci.X.ServerLib/CacheClient.cs:896-905 | a flush empties its own region and leaves every separate one entry for entry |
| Regions.StepFrame | Aci.X.ServerLib/EntityCacheBase.cs:37-252 | whatever its loader and serialiser do, a cache changes only keys of its own prefix |
| Regions.RegionsAreIsolated | Aci.X.Business/Cache/SiteEntityCacheBase.cs:13-17 | the operations of one cache keep the cache of a separate region coherent, for any two key and entity types |
| Regions.StatsKeyRegion | Aci.X.ServerLib/CacheClient.cs:927-953 | splitting a statistics key recovers the region if and only if the region has no delimiter |
| Regions.SiteRegionIsMisread | Aci.X.ServerLib/CacheClient.cs:943-947 | the statistics of every site region are attributed to another region |
| Credits.RunPrefetch | Aci.X.Business/Entity/User.cs:354-371 | the pre-fetch loop on the cache object refines its specification function, and a throwing load ends it |
| Credits.RunRender | Aci.X.Business/Entity/Credit.cs:23-54 | the rendering loop keeps the credits whose product and order are found, in order, and a throwing load ends it |
| Credits.RunGetCredits | Aci.X.Business/Entity/User.cs:344-376 | the whole call refines its specification function, and a throwing load ends it |
| Credits.ForcedGetClears | Aci.X.ServerLib/EntityCacheBase.cs:188-211 | a forced get of an out-of-date key makes it current and leaves the others as they were |
| Credits.PrefetchOneShows | Aci.X.Business/Entity/User.cs:355-371 | a hidden order becomes shown, an order imported now is hidden by the marker just written |
| Credits.PrefetchShows | Aci.X.Business/Entity/User.cs:355-371 | which orders are shown and which hidden after the loop, by how often each transaction occurs, and that each is the database's own order or else the partner's |
| Credits.RenderShows | Aci.X.Business/Entity/Credit.cs:11-56 | rendering lists exactly the credits of the orders shown |
| Credits.CallShows | Aci.X.Business/Entity/User.cs:344-376 | one whole call from a cache that may still hide imported orders |
| Credits.ImportedOrderAppearsOneCallLate | Aci.X.Business/Entity/User.cs:344-376 | on a server that answers, the importing call lists an order if and only if it was in the database or its transaction occurs twice; on the next call every importable order is listed; an order listed is the database's own or else the partner's |
| Credits.ImportedCreditExactly | Aci.X.Business/Entity/User.cs:344-376 | with the removal and the marker's write each going through or not, the importing call lists the order if and only if that write is lost and no older marker stayed |
| Credits.OneImportedCredit | Aci.X.Business/Entity/User.cs:344-376 | one credit for an order only the partner has: the first call lists nothing, the second lists the partner's order |
| CacheMonitor.Running.constructor | Aci.X.ServerLib/CacheMonitor.cs:83-91 | all counters start at zero |
| CacheMonitor.Running.CountReads | Aci.X.ServerLib/CacheMonitor.cs:93-110 | hits, misses and time are added to memory only |
| CacheMonitor.Running.CountOneWrite | Aci.X.ServerLib/CacheMonitor.cs:112-116 | one write and its time are added to memory only |
| CacheMonitor.Running.CountDeletes | Aci.X.ServerLib/CacheMonitor.cs:118-129 | hits, the rest of the attempts as misses, and time are added to memory only |
| CacheMonitor.Running.Increment | Aci.X.ServerLib/CacheClient.cs:669-692 | the field grows and its new value is returned, and the call counts as a write |
| CacheMonitor.Running.Put | Aci.X.ServerLib/CacheClient.cs:598-625 | the field is replaced, and the call counts as a write |
| CacheMonitor.Running.PushWrites | Aci.X.ServerLib/CacheMonitor.cs:238-244 | the captured writes are moved into the hash by three counted calls |
| CacheMonitor.Running.PushReads | Aci.X.ServerLib/CacheMonitor.cs:245-255 | the captured reads are moved by five counted calls, with ratio and average of the new totals |
| CacheMonitor.Running.PushDeletes | Aci.X.ServerLib/CacheMonitor.cs:256-266 | the captured deletes are moved by five counted calls, with ratio and average of the new totals |
| CacheMonitor.Running.Update | Aci.X.ServerLib/CacheMonitor.cs:215-267 | the whole tick refines its specification function |
| CacheMonitor.Running.ResetKeys | Aci.X.ServerLib/CacheMonitor.cs:74-81 | the loop over the keys clears each and counts its removal as a delete |
| CacheMonitor.Running.Reset | Aci.X.ServerLib/CacheMonitor.cs:74-81 | the whole reset, in the order of the key list |
| CacheMonitor.TickConserves | Aci.X.ServerLib/CacheMonitor.cs:215-267 | memory plus hash is kept by a tick but for the tick's own writes and time recorded without a hit or miss |
| CacheMonitor.RunConserves | Aci.X.ServerLib/CacheMonitor.cs:93-129 | over any run, resets and the loss of the hash included, memory plus hash equals everything counted, the monitor's own calls included, less what is dropped |
| CacheMonitor.NothingCountedIsDropped | Aci.X.ServerLib/CacheMonitor.cs:238-266 | between resets no hit, miss, write or write time is ever dropped |
| CacheMonitor.TickLeaves | Aci.X.ServerLib/CacheMonitor.cs:215-267 | a tick leaves 3 writes for writes, 5 for reads and 5 for deletes in memory, and nothing else |
| CacheMonitor.IdleTicksSettleAtThree | Aci.X.ServerLib/CacheMonitor.cs:215-267 | after any activity every idle tick from the second on leaves exactly 3 writes, and the stored count grows by 3 each time |
| CacheMonitor.SilenceIsKept | Aci.X.ServerLib/CacheMonitor.cs:238-266 | without any activity no tick ever changes anything |
| CacheMonitor.TickKeepsRatios | Aci.X.ServerLib/CacheMonitor.cs:245-266 | a tick keeps the stored ratios equal to stored hits over stored attempts |
| CacheMonitor.RatiosStayCurrent | Aci.X.ServerLib/CacheMonitor.cs:245-266 | in every run, resets and the loss of the hash included, the stored hit ratios equal cumulative hits over attempts and lie between 0 and 1 |
| CacheMonitor.TickKeepsAverages | Aci.X.ServerLib/CacheMonitor.cs:237-268 | a tick keeps the three stored averages equal to stored time over stored writes, reads or deletes |
| CacheMonitor.AveragesStayCurrent | Aci.X.ServerLib/CacheMonitor.cs:237-268 | in every run, resets and the loss of the hash included, each average is stored exactly if there are calls and equals their time over their number |
| CacheMonitor.ResetEmptiesHash | Aci.X.ServerLib/CacheMonitor.cs:74-81 | a reset over all keys leaves no field of the hash |
| CacheMonitor.ResetTotal | Aci.X.ServerLib/CacheMonitor.cs:74-81 | what a reset leaves, counter by counter: the removals after the delete counters' own turn, counted as deletes |
| CacheMonitor.StatKeysOrdered | Aci.X.ServerLib/CacheMonitor.cs:42-59 | the source's list of keys is complete, free of repeats and in the order the reset lemmas ask for |
| CacheMonitor.ResetLeavesPhantomDeletes | Aci.X.ServerLib/CacheMonitor.cs:74-81 | a reset leaves 7 or 8 deletes counted, and after a flush exactly 7 delete misses |
| CacheMonitor.ResetInUse | Aci.X.ServerLib/CacheMonitor.cs:74-81 | the same for the source's own list of keys |
| Placeholders.ReplaceIsSubstitute | Aci.X.Business/Entity/ContentBlock.cs:21-26 | one `Replace` of a key without '}' is the substitution of that key |
| Placeholders.SubstituteTwice | Aci.X.Business/Entity/ContentBlock.cs:21-26 | substituting one key and then others is substituting all at once |
| Placeholders.SubstituteKeepsNoNesting | Aci.X.Business/Entity/ContentBlock.cs:21-26 | substitution of values without an opening brace creates no nested braces |
| Placeholders.SequentialIsSimultaneous | Aci.X.Business/Entity/ContentBlock.cs:21-36 | for unnested templates, clean keys and values without an opening brace the loop of replacements equals simultaneous substitution, the first of repeated keys counting |
| Placeholders.OrderDoesNotMatter | Aci.X.Business/Entity/ContentBlock.cs:21-36 | there, with distinct keys, every order of the pairs gives the same text |
| Placeholders.ReplaceRemovesAll | Aci.X.Business/Entity/ContentBlock.cs:21-26 | replacing a placeholder by letters leaves none, not even one formed by accident |
| Placeholders.NestingShows | Aci.X.Business/Entity/ContentBlock.cs:21-36 | for every nested template two clean pairs whose order shows |
| Placeholders.TemplateExactly | Aci.X.Business/Entity/ContentBlock.cs:21-36 | a template is unnested if and only if the order of distinct clean pairs never shows in it |
| Placeholders.BracedValueShows | Aci.X.Business/Entity/ContentBlock.cs:21-36 | for every value with an opening brace an unnested template and pairs whose order shows |
| Placeholders.ValueExactly | Aci.X.Business/Entity/ContentBlock.cs:21-36 | a value has no opening brace if and only if it never makes the order show |
| Placeholders.ClosedKeyShows | Aci.X.Business/Entity/ContentBlock.cs:21-36 | for every key that is not clean an unnested template and pairs whose order shows |
| Placeholders.KeyExactly | Aci.X.Business/Entity/ContentBlock.cs:21-36 | a key is clean if and only if it never makes the order show |
| Placeholders.NestingBreaksIt | Aci.X.Business/Entity/ContentBlock.cs:21-36 | a nested template for which the order shows |
| Placeholders.BracedValuesBreakIt | Aci.X.Business/Entity/ContentBlock.cs:21-36 | a braced value for which the order shows |
| Placeholders.LeftoverBrace | Aci.X.Business/Entity/ContentBlock.cs:81-83 | an opening brace is left over if and only if some opening brace does not start a placeholder with a value |
| ContentBlock.ReplaceAll | Aci.X.Business/Entity/ContentBlock.cs:21-26 | the loop over the pairs rewrites the text as the sequence of replacements |
| ContentBlock.ReplaceKeyValuePairs | Aci.X.Business/Entity/ContentBlock.cs:12-38 | header and body of the object are overwritten by their filled texts; null stays null |
| ContentBlock.RenderBody | Aci.X.Business/Entity/ContentBlock.cs:107-155 | the row loop: lines joined between the last row's prefix, delimiter and suffix, or the error of the first row that does not fit |
| ContentBlock.BodyExactly | Aci.X.Business/Entity/ContentBlock.cs:107-155 | the body fails exactly if some row does not fit the body or a non-empty text around it; otherwise it begins with the last row's prefix, shows a line per row at its own position with the last row's delimiter between any two, and ends with the last row's suffix |
| ContentBlock.JoinLaysOut | Aci.X.Business/Entity/ContentBlock.cs:152-155 | each of the joined lines stands at the position that the lines and delimiters before it give it |
| ContentBlock.RowsMeaning | Aci.X.Business/Entity/ContentBlock.cs:117-150 | the row loop fails exactly if a row does not fit, gives one line per row, and the texts around them are the last row's |
| ContentBlock.HeaderExactly | Aci.X.Business/Entity/ContentBlock.cs:77-106 | the header is formatted with the first row; without rows it is the text, or its own default if a brace is left |
| ContentBlock.RenderOne | Aci.X.Business/Entity/ContentBlock.cs:48-155 | one template: filled in place, then header and body |
| ContentBlock.AddSectionKeepsGrouped | Aci.X.Business/Entity/ContentBlock.cs:51-60 | each step of the loop keeps one block per name, in order of first appearance, with its sections in template order |
| ContentBlock.GroupedIsPartition | Aci.X.Business/Entity/ContentBlock.cs:51-60 | every template's name has exactly one block, which holds exactly its own name's sections in template order; blocks come in order of first appearance, and no section is lost or repeated |
| ContentBlock.ToClient | Aci.X.Business/Entity/ContentBlock.cs:41-164 | the answer is that of the templates' old contents, and each object ends up filled |
| ContentBlock.SectionsExactly | Aci.X.Business/Entity/ContentBlock.cs:52-156 | all templates come out, or the call fails with the first that does not; the i-th section carries the labels of the i-th template and its header and body with the pairs filled in |
| ContentBlock.EmittedWithoutRows | Aci.X.Business/Entity/ContentBlock.cs:77-115 | without value rows the text is the simultaneous substitution when every placeholder has a value, else the default; an opening brace can come only from the default |
| PageContent.Pages.Materialise | Aci.X.Business/Entity/Page.cs:75-87 | reading or deserialising makes fresh, distinct objects |
| PageContent.Pages.Get | Aci.X.Business/Entity/Page.cs:35-106 | the call on objects that are overwritten refines the function on values: what is stored never sees the request's pairs |
| PageContent.EqualKeysEqualArguments | Aci.X.Business/Entity/Page.cs:73 | for page codes free of the delimiter, equal keys if and only if equal arguments up to null and "" |
| PageContent.KeysCollideOtherwise | Aci.X.Business/Entity/Page.cs:73 | every page code that holds the delimiter shares each of its keys with a query for another page, and null shares with "" |
| PageContent.PagesShareKey | Aci.X.Business/Entity/Page.cs:73 | two page codes can share a key if and only if one extends the other by the delimiter |
| PageContent.RequestAsUncached | Aci.X.Business/Entity/Page.cs:71-104 | one request is answered as without a cache whatever fails, and the cache stays truthful |
| PageContent.RefusedExactly | Aci.X.Business/Entity/Page.cs:46-68 | a request is refused exactly if its lower-cased where clause holds one of the ten words, and then the cache is not touched |
| PageContent.AnswerExactly | Aci.X.Business/Entity/Page.cs:71-104 | the answer is the stored procedure's contents for the page and the lower-cased clause, rendered with the request's own pairs, or the error of either |
| PageContent.StoresContents | Aci.X.Business/Entity/Page.cs:71-89 | a miss whose calls go through stores the contents under its key; nothing else is ever stored |
| PageContent.HitAsksNobody | Aci.X.Business/Entity/Page.cs:71-79 | on a hit the database plays no part |
| PageContent.RunAsUncached | Aci.X.Business/Entity/Page.cs:71-104 | in every run each answer depends on its own request alone |
| DirectoryWalk.Walker.GetNode | Aci.X.DirectoryWalker/Program.cs:146-167 | the node for the query, with both call counters one up |
| DirectoryWalk.Walker.WalkFirstName | Aci.X.DirectoryWalker/Program.cs:130-143 | the recursion below a complete last name terminates and makes exactly the specified calls |
| DirectoryWalk.Walker.WalkNextLetters | Aci.X.DirectoryWalker/Program.cs:113-121 | the loop over the next letters makes exactly the specified calls |
| DirectoryWalk.Walker.WalkTopNames | Aci.X.DirectoryWalker/Program.cs:123-128 | the loop over the top names makes exactly the specified calls |
| DirectoryWalk.Walker.WalkLastName | Aci.X.DirectoryWalker/Program.cs:102-129 | the recursion over last-name prefixes terminates and makes exactly the specified calls |
| DirectoryWalk.Walker.WalkCity | Aci.X.DirectoryWalker/Program.cs:102-144 | the whole walk terminates, and its calls and counters are those of the specified sequence |
| DirectoryWalk.FirstVisits | Aci.X.DirectoryWalker/Program.cs:130-143 | below one complete last name each first-name prefix is visited at most once, and the root exactly once |
| DirectoryWalk.LastVisits | Aci.X.DirectoryWalker/Program.cs:111-129 | a walk from a prefix visits each longer prefix at most once and a complete name at most once per prefix on its path |
| DirectoryWalk.ListedIsWalked | Aci.X.WebAPI/Controllers/GeoController.cs:149-165 | a name listed by some node on its path is walked as a complete name |
| DirectoryWalk.WalkedIsListed | Aci.X.WebAPI/Controllers/GeoController.cs:149-165 | only listed names of the city are walked |
| DirectoryWalk.WalkOfCity | Aci.X.DirectoryWalker/Program.cs:102-144 | each prefix node at most once, a name of length n at most n + 1 times, and a name is walked if and only if some node on its path lists it |
| DirectoryWalk.PrefixesInOrder | Aci.X.DirectoryWalker/Program.cs:111-129 | if nodes list their letters in order, the last-name prefixes are asked for in alphabetical order |
| DirectoryWalk.FirstNamesInOrder | Aci.X.DirectoryWalker/Program.cs:130-143 | the same for the first-name prefixes below a complete last name |
| DirectoryWalk.NamesComeLast | Aci.X.DirectoryWalker/Program.cs:111-129 | a node's own top names are walked after everything below its letters, in the order in which it lists them |
| DirectoryWalk.WalkOfRankedCity | DATABASE_PROFILE/Stored Procedures/dbo.spGpdBuild.sql:61-98 | with nodes of the heaviest names up to a limit, a name is walked only if fewer names than the limit extend it and are heavier, and whenever fewer others are at least as heavy; without ties if and only if |
| DirectoryWalk.UnlistedNameIsMissed | DATABASE_PROFILE/Stored Procedures/dbo.spGpdBuild.sql:61-98 | for every limit a city of one name more whose nodes list the heaviest names and whose shortest name is never walked |
| DirectoryWalk.BoundIsAttained | Aci.X.DirectoryWalker/Program.cs:102-144 | for every name of length n and every limit a city whose nodes list the heaviest names and whose walk walks the name exactly n + 1 times |
| DirectoryWalk.EveryNameIsWalked | Aci.X.WebAPI/Controllers/GeoController.cs:121-165 | under the documented contract exactly the city's last names are walked |
| DirectoryWalk.FirstNameIsShown | Aci.X.WebAPI/Controllers/GeoController.cs:180-217 | under the documented contract exactly the first names of a walked last name are shown by some visited node |
| DirectoryWalk.FirstNameShownExactly | Aci.X.DirectoryWalker/Program.cs:130-143 | a first name of a walked last name is shown if and only if some node on its path lists it |
| DirectoryWalk.ShownOfRankedCity | DATABASE_PROFILE/Stored Procedures/dbo.spGpdBuild.sql:61-98 | the condition of `WalkOfRankedCity` for the first names shown below a walked last name |
| QueryLimiter.Limiter.LimitQueryRate | Aci.X.IwsLib/ProfileHelper.cs:358-387 | the stored time moves on before the call sleeps or rejects, for its key alone; a robot is limited by its number and its own gap, anyone else by address; without a client address nothing is limited |
| QueryLimiter.Limiter.Serve | Aci.X.IwsLib/ProfileHelper.cs:358-387 | queries served one after the other make a run, whose calls are exactly those of the queries with a client address |
| QueryLimiter.KeysShared | Aci.X.IwsLib/ProfileHelper.cs:361-370 | two queries are limited together exactly if they are of one robot or of one address, or an address reads like the robot's number |
| QueryLimiter.StoredIsLatest | Aci.X.IwsLib/ProfileHelper.cs:373 | the stored time is never earlier than any call already made on the key |
| QueryLimiter.EndsAfterGap | Aci.X.IwsLib/ProfileHelper.cs:376-385 | a sleeping call returns no earlier than the gap after the time stored before it, in spite of truncation |
| QueryLimiter.TwoApart | Aci.X.IwsLib/ProfileHelper.cs:358-387 | with a call of the same key in between, two returns are at least the gap apart |
| QueryLimiter.SpanOfRun | Aci.X.IwsLib/ProfileHelper.cs:358-387 | n passes on one key, each with at least a given gap, span at least floor((n - 1) / 2) gaps, however other keys are interleaved |
| QueryLimiter.SpanIsTight | Aci.X.IwsLib/ProfileHelper.cs:358-387 | for every n and every time of the query before, a run of n passes that spans exactly that, so adjacent passes may coincide |
| QueryLimiter.AdmittedAfterAll | Aci.X.IwsLib/ProfileHelper.cs:370-381 | an admitted request comes at least the gap after every earlier request of its key, admitted or rejected |
| QueryLimiter.ImpatientClientStarves | Aci.X.IwsLib/ProfileHelper.cs:370-381 | a client whose requests are all closer than the gap gets only its first one through |
| Checkout.Visit.Decide | Aci.X.Business/Entity/Order.cs:105-123 | the loop decides that all items are covered, and finds the last item that names a subscription |
| Checkout.Visit.Load | Aci.X.Business/Entity/Visit.cs:34-37 | a request works on the cached visit, or else on one without cart and query, which is written back if that write goes through |
| Checkout.Visit.SetQuery | Aci.X.Business/Entity/Visit.cs:72-77 | a name found by the preview sets the query of the visit at hand, stored or not |
| Checkout.Visit.Update | Aci.X.Business/Entity/Cart.cs:13-17 | the request goes on with the new cart; if the write is lost the stored visit stays as it was |
| Checkout.Visit.CheckItem | Aci.X.Business/Entity/Cart.cs:58-79 | each error is given exactly when its guard fails and all guards before it hold, and none exactly when all hold |
| Checkout.Visit.AddToCart | Aci.X.Business/Entity/Cart.cs:24-98 | the guards, and a cart of the one new item unless one fails; a failing cart row leaves the cart set, and lost reads and writes of the visit are accounted for |
| Checkout.Visit.RemoveFromCart | Aci.X.Business/Entity/Cart.cs:100-106 | no item of the SKU is left, the others stay as often as they were and in their order, and the stored cart is that one if the write goes through |
| Checkout.Visit.ClearAll | Aci.X.WebAPI/Controllers/CartController.cs:112-117 | the request goes on with no cart, and none is stored if the write goes through |
| Checkout.Visit.PayFor | Aci.X.Business/Entity/Order.cs:105-158 | the decision with its debit or charge refines the specification function, failures before, at and after the order import included |
| Checkout.Visit.CheckOut | Aci.X.WebAPI/Controllers/CartController.cs:93-117 | guards, payment, and clearing of the cart on success refine the specification function, whether or not the clearing is stored |
| Checkout.SuccessPaysOnce | Aci.X.Business/Entity/Order.cs:124-158 | a successful checkout makes exactly one debit or one charge, a debit exactly for a free order, and answers the subscription's order or the new one; the cart is gone if the clearing write goes through, and the visit is stored as it was otherwise |
| Checkout.CheckoutOutcome | Aci.X.Business/Entity/Order.cs:72-180 | each result of a checkout by the guard that decides it; the stored payment flag is cleared exactly by a decline |
| Checkout.SubscriptionOfLast | Aci.X.Business/Entity/Order.cs:105-123 | the subscription found is that of the last item that names one |
| Checkout.AddEffect | Aci.X.Business/Entity/Cart.cs:58-88 | adding touches only the visit, and the stored cart becomes the one item, with the catalogue's subscription, the units left, the profile and the query of the request, exactly when the add succeeds or only its row fails, and the write goes through |
| Checkout.AddStoresQuery | Aci.X.Business/Entity/Visit.cs:72-77 | the query is stored with whichever write of the visit goes through, and otherwise stays or is lost with the visit |
| Checkout.AddOutcome | Aci.X.Business/Entity/Cart.cs:24-98 | when an add succeeds, when only its row fails and when the preview is missing |
| Checkout.CheckoutKeepsBalance | Aci.X.Business/Entity/Order.cs:124-158 | a checkout keeps cart and balance if and only if the order is not free, or can be read back and either is cleared away or promises fewer units than there are |
| Checkout.ChargeKeepsBalance | Aci.X.Business/Entity/Order.cs:135-158 | charging keeps the units balanced however far it gets, a grant recorded before a failure included, and takes no unit |
| Checkout.StepKeepsBalance | Aci.X.WebAPI/Controllers/CartController.cs:93-117 | every step, whatever reads and writes of the visit it loses, keeps cart and balance if and only if it is not a free checkout whose order cannot be read back, or whose clearing write is lost while the cart promises as many units as there are |
| Checkout.RunKeepsBalance | Aci.X.Business/Entity/Order.cs:72-180 | over every run without such a checkout, whatever reads and writes are lost, the cart holds at most one item and promises no more units than are left, and free orders plus units left equal the units ever available, none negative |
| Checkout.StepVersions | Aci.X.Business/Entity/Order.cs:135-158 | a step charges the stored cart exactly under the guards of a charging checkout, and replaces it exactly if the cart it sets is stored or the visit read from the database is written over it |
| Checkout.ChargedTwiceExactly | Aci.X.Business/Entity/Order.cs:135-176 | over every run one cart is charged twice if and only if a checkout charges it and leaves it in place, by failing late or by a lost clear, and it is charged again before anything replaces it |
| Checkout.NoLateFailureNoDoubleCharge | Aci.X.Business/Entity/Order.cs:135-176 | a run without a failure after the charge and without a lost clear charges no cart twice |
| Checkout.RetryChargesTwice | Aci.X.Business/Entity/Order.cs:139-157 | a failing receipt mail and a second try: one cart, two charges and two orders |
| Checkout.LostClearChargesTwice | Aci.X.Business/Entity/Cart.cs:13-17 | a successful checkout whose clear is lost, and another: one cart, two charges and two orders |
| Checkout.OneOrder | Aci.X.Business/Entity/Order.cs:105-132 | an order is free while units are left, and charged once they are used up |
| Checkout.SubscriptionUsedUp | Aci.X.IwsLib.Tests/SubscriptionTests.cs:179-221 | a subscription of r units gives exactly r free orders, and every later order is charged |
| Checkout.GrantRecorded | Aci.X.Business/Entity/User.cs:479-513 | a grant puts its SKU under its order and adds its units, and touches no other SKU |
| Checkout.BoughtSubscriptionCovers | Aci.X.Business/Entity/Order.cs:139-158 | a subscription bought in the shop is in force at once: the next order under it is free |
| Checkout.UnreadableOrderOverdraws | Aci.X.Business/Entity/Order.cs:124-132 | two failed reads of the order overdraw a subscription with one unit left |
| Checkout.LostClearOverdraws | Aci.X.Business/Entity/Cart.cs:13-17 | two successful free orders on one unit, after a lost clear |
| Reports.Service.CheckRequest | Aci.X.Business/Entity/Report.cs:95-142 | the checks, in order, through the report cache |
| Reports.Service.CreateReport | Aci.X.Business/Entity/Report.cs:87-156 | the call with its retry refines its specification function, look-ups counted |
| Reports.Service.ProduceReport | Aci.X.Business/Entity/Report.cs:158-239 | from the profile found to the row: a null type code throws before anything is written |
| Reports.Service.Store | Aci.X.Business/Entity/Report.cs:225-267 | the row is inserted without touching the cache, then the order is debited and the report read back |
| Reports.Search | DATABASE_ACI_X/Procedures/dbo.spReportSearch.sql:34-51 | exactly the visible reports linked to the order are found |
| Reports.GetKnown | Aci.X.Business/Entity/Report.cs:69-73 | getting existing reports answers the database's rows and leaves no marker |
| Reports.CheckFindsDuplicates | Aci.X.Business/Entity/Report.cs:101-111 | the duplicate check finds a match if and only if the order has a report item and the report was made |
| Reports.InsertKeepsCache | DATABASE_ACI_X/Procedures/dbo.spReportCreate.sql:32-43 | the new ID is new and was never marked absent, so inserting without touching the cache keeps it coherent |
| Reports.InsertKeepsRecords | DATABASE_ACI_X/Procedures/dbo.spReportCreate.sql:23-43 | the row is linked to its order exactly if the order has a report item |
| Reports.CheckMeaning | Aci.X.Business/Entity/Report.cs:95-142 | the checks change only the cache, and pass only if no linked report exists |
| Reports.ProduceKeeps | Aci.X.Business/Entity/Report.cs:158-267 | producing adds exactly the one report, or none if the type code is null or rendering throws; the report returned is that one, and its row is of the request's user, profile and type |
| Reports.CreateKeeps | Aci.X.Business/Entity/Report.cs:87-156 | at most one report per call, none for a null type code, and at most two profile look-ups |
| Reports.RunKeepsAtMostOnce | Aci.X.Business/Entity/Report.cs:87-268 | over every run no order with a report item has two reports of one type and profile, however cache and outside calls fail |
| Reports.MadeExactlyWhenNotNoticed | Aci.X.Business/Entity/Report.cs:101-118 | a well-formed request adds exactly its report, and returns it, if and only if it is not an already made report of an order with a report item, and otherwise changes nothing but the cache |
| Reports.CreateOutcome | Aci.X.Business/Entity/Report.cs:87-268 | which error a call gives and when, how often it looks for the profile, and that the report returned is the one just made, under a new ID, of the request's user, profile and type, and cached if the server answers |
| Reports.CheckObjects | Aci.X.Business/Entity/Report.cs:95-142 | the first objection in the order of the source, or the type code |
| Reports.FinishReturns | Aci.X.Business/Entity/Report.cs:255-267 | what is returned is the last report created |
| Reports.RepeatIsNotNoticed | DATABASE_ACI_X/Procedures/dbo.spReportCreate.sql:23-43 | for every order without a report item the same request makes the same report twice, under two IDs |
| Reports.SubscriptionOrderReportedTwice | Aci.X.Business/Entity/Report.cs:101-118 | a subscription order, one request sent twice, and two equal reports |
| TypePrinter.ParsePrinted | Aci.X.DalGen/Program.cs:240-292 | a parser recovers a printed type in front of any punctuation that may follow |
| TypePrinter.ParseGeneric | Aci.X.DalGen/Program.cs:252-263 | and a generic type with its arguments |
| TypePrinter.PrintParseRoundTrip | Aci.X.DalGen/Program.cs:240-292 | every type over clean names is recovered from its printed name, up to by-refs, array ranks and keyword names |
| TypePrinter.PrintsAlikeExactly | Aci.X.DalGen/Program.cs:240-292 | two types over clean names print alike if and only if they differ at most in by-refs, in array ranks and in keyword names |
| TypePrinter.PrintsAlikeOnlyIfSame | Aci.X.DalGen/Program.cs:240-292 | for rank-one arrays and names that are not emitted keywords: if and only if they are equal up to by-refs |
| TypePrinter.AmbiguousOtherwise | Aci.X.DalGen/Program.cs:243-274 | array ranks and keyword names are lost |
| CachePath.PathNamesId | Aci.X.IwsLib/IwsConfig.cs:145-157 | the ID can be read back from the path, for every 32-bit ID and every root |
| CachePath.PathShape | Aci.X.IwsLib/IwsConfig.cs:145-157 | the path lies under the root, three two-digit folders deep, and ends with the decimal ID and the extension |
| CachePath.PathInjective | Aci.X.IwsLib/IwsConfig.cs:145-157 | no two 32-bit IDs share a file |
| CachePath.ShiftedBytes | Aci.X.IwsLib/IwsConfig.cs:147-151 | the signed shifts and masks pick the upper three bytes, for negative IDs too |
| CachePath.SameFolder | Aci.X.IwsLib/IwsConfig.cs:147-151 | two IDs share a leaf folder if and only if they agree in all but the last byte |
| CachePath.AtMost256PerFolder | Aci.X.IwsLib/IwsConfig.cs:147-156 | a leaf folder holds at most 256 files |
| Migrator.DistinctFiles | Aci.X.IwsCacheMigrator2/Program.cs:53 | different workers have different files |
| Migrator.WorkKeepsThreads | Aci.X.IwsCacheMigrator2/Program.cs:63-86 | every worker action keeps the thread counter equal to the work in flight |
| Migrator.WorkKeepsFiles | Aci.X.IwsCacheMigrator2/Program.cs:67-81 | every worker action keeps the files accounted for, so a write finds no file |
| Migrator.WorkKeepsTrace | Aci.X.IwsCacheMigrator2/Program.cs:67-81 | every worker action leaves the files of the start as they were and every other file holding its ID's row |
| Migrator.StepKeepsInv | Aci.X.IwsCacheMigrator2/Program.cs:42-86 | every action of dispatcher or worker keeps the whole invariant |
| Migrator.RunKeepsInv | Aci.X.IwsCacheMigrator2/Program.cs:42-86 | in every interleaving threads equal the work in flight and stay within the cap, IDs are consecutive, and no file is overwritten |
| Migrator.AtQuiescence | Aci.X.IwsCacheMigrator2/Program.cs:63-86 | with all work done, queried = written + skipped + already present, each counter is the number of dispatched IDs of its own kind, no thread is leaked, every ID with a row has its file, and every file that was not there holds its ID's row |
| Migrator.WorkCountsFate | Aci.X.IwsCacheMigrator2/Program.cs:63-86 | an action that ends a worker raises the counter of its ID's fate, already present, without a row or written, and no other |
| Migrator.WorkKeepsFates | Aci.X.IwsCacheMigrator2/Program.cs:63-86 | in every interleaving the three counters count the IDs of their own fate |
| Migrator.IdsAscend | Aci.X.IwsCacheMigrator2/Program.cs:42-61 | IDs count up by one and go round at the largest |
| Migrator.NeverStuck | Aci.X.IwsCacheMigrator2/Program.cs:48-53 | with a cap of at least 1 some action is always enabled |
| Migrator.WorkIsBounded | Aci.X.IwsCacheMigrator2/Program.cs:63-86 | in whatever order workers take their turns, they take at most six each |
| Migrator.WorkersFinish | Aci.X.IwsCacheMigrator2/Program.cs:63-86 | from every state with consecutive IDs, as every run has, the workers alone finish, within six actions each |

## Left out

- The asynchronous and generic variants of `CacheClient`'s accessors, `Search`, multi-item `Put` and the hash accessors other than those the monitor uses: they repeat the modelled ones.
- Non-atomic races on the statistics dictionary, and a cache fill interleaved with an invalidation: the code gives no guarantee there, and each operation is one step here.
- RedisCache.CacheClient.Flush: does not model glob characters inside a prefix, nor the monitor's reset, which `CacheMonitor` covers.
- Credits.RunGetCredits: the partner's calls and the order import do not throw; `ImportedOrderAppearsOneCallLate` assumes loads that succeed.
- Credits.RunRender: the product look-up is a set of known products.
- `SiteSkuCache`: its key function does not agree with its look-up key, so it is not an instance of `Config`.
- CacheMonitor.Running.Update: durations are whole milliseconds per call, averages are not rounded, and 64-bit overflow and an unreachable Redis are not modelled.
- CacheMonitor.RatiosStayCurrent: ratios are exact reals, not doubles.
- CacheMonitor.AveragesStayCurrent: averages are exact reals, not doubles.
- ContentBlock.ToClient: blocks come in order of first appearance, which is the enumeration order of a `Dictionary` that only grows; templates are distinct objects, as the rows of one result set are.
- ContentBlock.ReplaceKeyValuePairs: keys and values are non-null.
- PageContent.Pages.Get: does not model `spVisitSetPage`, which records the page and does not affect the content.
- DirectoryWalk.EveryNameIsWalked: takes from the documented contract that a node lists the name equal to its prefix; `WalkOfCity` and `WalkOfRankedCity` are free of that assumption.
- DirectoryWalk.WalkOfRankedCity: names compare exactly, where the database ignores case, and with ties the procedure does not say which names it keeps, so that the two halves of the condition differ there.
- The calls of the walker are made one after the other, as `await` makes them within a city; several cities in parallel, HTTP failures and timing totals are not modelled.
- QueryLimiter.Limiter.LimitQueryRate: the cache that holds the times answers and does not lose an entry; a clock that runs backwards is excluded.
- QueryLimiter.SpanOfRun: calls on one key do not overlap, which `Serve` guarantees for queries served one after the other.
- Checkout.Visit.AddToCart: of the promotion call and the cart row of `spCartUpdate` only their failing is modelled, and the prices of the item are not.
- Checkout.Visit.RemoveFromCart: `ClientLib.Cart.Remove` is not part of the repository; it is taken to remove every item of the SKU.
- Checkout.RunKeepsBalance: the cart changes only by add, remove, clear and checkout; `_POST_cart_update`, which accepts any cart, is not one of the operations.
- `Order.Checkout` on a decline clears the payment flag in the user row and not in the user cache; the model keeps both flags and draws no conclusion from them.
- Reports.RunKeepsAtMostOnce: speaks of orders with a report item, because the property is false for others (`MadeExactlyWhenNotNoticed`); database loads succeed.
- Reports.Service.ProduceReport: joining phones to addresses, the rules for criminal checks and the texts are not modelled.
- Reports.Search: padding and truncation of fixed-width columns are not modelled, and profile IDs and type codes compare exactly.
- TypePrinter.PrintsAlikeOnlyIfSame: pointer types, nested types and the text that `Emit` puts around the names are not modelled.
- CachePath.PathNamesId: creating the folder is not modelled.
- Migrator.RunKeepsInv: holds for runs of at most 2^32 dispatched IDs, after which the counter has gone round; workers do not throw, and the row fetched carries the ID asked for.
- Stored-procedure wrappers, row classes, storefront, partner, payment and mail clients, web controllers other than checkout, `ConvertTextJson`, samples and user interfaces: plumbing, or meaning that rests on an engine outside the repository.
