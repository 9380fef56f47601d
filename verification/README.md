# Verified model of the feed engine

This project models the part of the application that stores, caches and pages news feeds, and the
follow graph that fills them:

- **Feeds and pages** (`Feed`, `Pagination`, `Agreement`): a feed is a strictly descending list of rows
  (owner, time, item). One declarative page specification says what a client may rely on; the three
  paginators of `EndlessPagination` are methods of a class with the mutable flag `hasNextPage`, and each is
  proved against it.
- **HBase ORM** (`Text`, `RowCodec`, `HTable`, `HBaseOrm`): padding, digit reversal, colon-joined keys,
  the key parser, and a table as a sequence of entries in byte order with the client library's scan
  semantics. `OwnerRows` and `OwnerTables` instantiate it with the one shape that news feeds, followings and
  followers share, and carry results about bytes over to rows. `KeyLimits` says exactly where the layout
  stops keeping order and users apart.
- **Redis list cache** (`RedisCache`): the helper over commands of which any may lose its request or its
  reply, or find that its key has just expired. `NewsFeed`, `NewsFeedRuns` and `NewsFeedView` put the service and the view on top, and
  `Scrolling` is the endless scroll of a client under any faults.
- **The cache as a protocol** (`CacheProtocol`, `CacheSafety`, `CacheAnswers`, `CacheExact`, `CacheCalm`, `CacheLink`):
  readers, writers, expiry and lock timeout of one key, one command at a time and in any interleaving. `CacheSafety`
  holds for all runs; `CacheAnswers` says from which step every answer comes and when it is empty;
  `CacheExact` says for all runs exactly when a rebuild or a push leaves the list right, and when a row is
  cached twice; `CacheCalm` gives conditions under which the list is exact, and for each of them a run from the initial
  state in which a single step breaks only that one and which ends with a wrong list. `CacheLink` shows that whole
  operations of `RedisCache`, under any faults, are runs of this protocol.
- **Follow graph** (`Friendships`, `FriendshipViews`): two mirrored tables, a cached set, and the guarded
  views, which together behave as one plain set of pairs.
- **Fanout** (`Fanout`): the batching loop and the batch tasks in any order of execution.
- **Counters** (`Counters`, `CounterHistory`): likes and comments as rows, as a database count and as a Redis count;
  rows, answers and cached counts of a run are told from the actions alone.

Page size, list limit and batch size are arbitrary positive numbers. Times are integers (microseconds); where
order in the byte-keyed table matters they have 16 digits and ids lie below 10^16.

Where code and documentation differ, the model follows the code. `docs/database/design/consistency.txt:203-206` calls the
second fix deterministic and says that duplicates cannot recur; that holds under its own premise that reads come
after all writes (`CacheCalm.ReadsAfterWrites`), while `CacheCalm.RebuildDuringWrite` is a run without it in which
a row is cached twice, `CacheExact.DuplicateExactly` and `CacheExact.NeverTwice` say exactly when that happens, and
`CacheSafety.CachedAtMostTwice` is what remains true of every run.

Results that turned out conditional are stated as equivalences: which integers survive a padded field
(`RowCodec.FieldRoundTrip`), which times keep their order unpadded (`KeyLimits.KeyOrderExact`), which owners a prefix
scan finds (`OwnerRows.PrefixMatches`), when a pull-to-refresh from cache or scan is complete
(`Agreement.CachedRefresh`, `Agreement.ScannedRefresh`), when following keeps the tables mirrored
(`Friendships.MirrorAfterFollow`), which pushes keep the cache exact (`RedisCache.PushCoherent`,
`RedisCache.PushOrder`), which interleavings leave it right (`CacheExact.RebuildExactly`, `CacheExact.PushExactly`),
what a scroll under faults shows (`Scrolling.Scroll`), and when a counter stays right (`Counters.BumpRight`, `Counters.CountedTwice`).

## Model

| member | source | states |
|---|---|---|
| `Feed.PageOfIsPage` | utils/paginations.py:22-37 | the computed page meets the declarative page specification: descending, only admitted rows, only older rows left out, and the has-next flag true exactly when something is left out |
| `Feed.IsPageUnique` | utils/paginations.py:22-37 | on rows with distinct times the page specification determines rows and flag, so two implementations that meet it agree |
| `Pagination.EndlessPagination.PaginateQueryset` | utils/paginations.py:22-37 | on any queryset with distinct times: the specified page of the newest-first feed, in all three modes |
| `Pagination.QuerysetPage` | utils/paginations.py:22-37 | filtering before ordering equals asking the ordered feed, and the result meets the page specification on the stored set |
| `Pagination.EndlessPagination.PaginateHBase` | utils/paginations.py:39-81 | for every table of many owners' rows with 16-digit times, every owner id below 10^16 and every 16-digit cursor: the specified page of that owner's feed, in all three modes |
| `Pagination.EndlessPagination.NewerThan` | utils/paginations.py:40-50 | pull-to-refresh over the inclusive scan returns exactly the rows newer than the cursor and older than MAX_TIMESTAMP |
| `Pagination.EndlessPagination.OlderThan` | utils/paginations.py:52-71 | over-fetching by two and dropping the cursor's own row gives the next page and the right flag, whether or not the cursor's row exists |
| `Pagination.EndlessPagination.FirstPage` | utils/paginations.py:73-81 | the newest page of one owner, though the id's digits are reversed and other owners' rows surround it |
| `Pagination.OlderPage` | utils/paginations.py:52-71 | for any descending feed, cursor and size the over-fetch keeps page and flag of the rows strictly below the cursor |
| `Pagination.RefreshPage` | utils/paginations.py:40-50 | the upward scan without the cursor's own row, reversed, is the strictly newer part of the feed |
| `Pagination.EndlessPagination.PaginateOrderedList` | utils/paginations.py:100-137 | the two loops, the second with its else branch, compute the specified page of any descending list |
| `Pagination.EndlessPagination.PaginateCachedList` | utils/paginations.py:83-98 | answers with the specified page of the cached list, and gives up exactly when there is no next page in a full list |
| `Agreement.CachedPage` | utils/paginations.py:83-98 | whenever the cached list answers a first or older page, rows and flag are those of the whole feed, for every page size and list limit |
| `Agreement.GivingUp` | utils/paginations.py:91-98 | where the cached list gives up, its page would have been right if and only if the feed ends with the list or nothing is asked of the feed |
| `Agreement.CachedRefresh` | utils/paginations.py:88-90 | a cached pull-to-refresh is the first LIMIT rows of the database's answer, hence equal to it if and only if at most LIMIT rows are newer |
| `Agreement.ScannedRefresh` | utils/paginations.py:40-50 | the scan-based refresh equals the queryset's if and only if no row stamped MAX_TIMESTAMP lies above the cursor |
| `Agreement.SamePage` | utils/paginations.py:22-81 | the HBase page and the queryset page of the same rows coincide, in all three modes |
| `HBaseOrm.HBaseModel.SerializeField` | django_hbase/models/hbase_models.py:128-135 | padding loop and reversal produce the field text that the codec lemmas are about |
| `HBaseOrm.HBaseModel.SerializeRowKey` | django_hbase/models/hbase_models.py:91-111 | the key loop, its two error exits and the prefix case produce the specified key |
| `HBaseOrm.HBaseModel.SerializeRowData` | django_hbase/models/hbase_models.py:114-125 | exactly the set columns of the schema, each under family:name |
| `HBaseOrm.HBaseModel.DeserializeRowKey` | django_hbase/models/hbase_models.py:160-173 | the find-and-cut loop is the key decoder that inverts the serializer |
| `HBaseOrm.HBaseModel.InitFromRow` | django_hbase/models/hbase_models.py:138-148 | no instance for an empty row, the decoded instance otherwise, and failure exactly where the decoder fails |
| `HBaseOrm.HBaseModel.ReadColumns` | django_hbase/models/hbase_models.py:142-146 | in whatever order the columns come, each is read into its field, and one that is no integer fails the row |
| `HBaseOrm.HBaseModel.SerializeRowKeyFromTuple` | django_hbase/models/hbase_models.py:204-211 | a tuple is zipped to the key fields and serialized as a prefix, up to its first None |
| `HBaseOrm.HBaseModel.Save` | django_hbase/models/hbase_models.py:19-33 | writes the row's columns under its key; an instance without columns or with an incomplete key is refused and the table stays as it was |
| `HBaseOrm.HBaseModel.BatchCreate` | django_hbase/models/hbase_models.py:36-43 | all rows of the batch are put in order, or none when one of them cannot be stored |
| `HBaseOrm.HBaseModel.Get` | django_hbase/models/hbase_models.py:46-51 | reads the stored row of the key, as an instance, and gives none when no row has the key |
| `HBaseOrm.HBaseModel.Delete` | django_hbase/models/hbase_models.py:54-57 | removes the row of the key and nothing else |
| `HBaseOrm.HBaseModel.Filter` | django_hbase/models/hbase_models.py:176-201 | the instances of exactly the rows the scan visits, in scan order, or an error |
| `HBaseOrm.GetSaved` | django_hbase/models/hbase_models.py:19-51 | a save of natural numbers over any table stores a row that reads back as every kept field of what was saved, with the fields of an older row of that key that were not saved again |
| `HBaseOrm.GetElsewhere` | django_hbase/models/hbase_models.py:46-57 | a save of another key leaves the row to be read as it was; after a delete no row of that key is left, and the others are as they were |
| `HBaseOrm.SaveRefuses` | django_hbase/models/hbase_models.py:19-24 | save is refused as empty if and only if no column is set, and succeeds if and only if some column is set and the key is whole |
| `HBaseOrm.ReadEach` | django_hbase/models/hbase_models.py:196-201 | the instances of a scan are those of its rows, one by one, and one unreadable row fails the whole scan |
| `HTable.PutEffect` | django_hbase/models/hbase_models.py:24-27 | putting a row keeps the byte order of keys and changes the columns of that key only |
| `HTable.RemoveEffect` | django_hbase/models/hbase_models.py:54-57 | removing a row keeps the byte order of keys and leaves all other rows alone |
| `HTable.ColumnsOf` | django_hbase/models/hbase_models.py:46-51 | in a table in byte order a stored row is found under its key with exactly its columns, and a missing key has none |
| `HTable.PutAdds` | django_hbase/models/hbase_models.py:24-27 | said of the stored rows: a put leaves every other row alone, and adds its columns to those its row had, or creates the row |
| `HTable.PutAllRows` | django_hbase/models/hbase_models.py:36-43 | after a batch of puts every row has its old columns and those of its own puts, later ones winning |
| `HTable.ScanVisits` | docs/database/systems/hbase_models.txt:229-245 | a scan visits exactly the stored rows in its range, in key order or against it, cut to the limit |
| `HTable.RangeEnds` | docs/database/systems/hbase_models.txt:229-245 | the ends of every kind of range: open where none is given, the near one included, the far one excluded, and equal ends mean that one row |
| `RowCodec.FieldRoundTrip` | django_hbase/models/hbase_models.py:128-157 | a field gives its integer back if and only if the integer is not negative, or not padded, or at most -10^14 |
| `RowCodec.KeyRoundTrip` | django_hbase/models/hbase_models.py:91-173 | for any schema a key of natural numbers, whole or prefix, decodes to exactly its leading fields, except that the empty prefix of a schema with key fields fails |
| `RowCodec.KeyInjective` | django_hbase/models/hbase_models.py:91-111 | equal row keys come from equal key fields, for any schema |
| `RowCodec.KeyExactly` | django_hbase/models/hbase_models.py:91-111 | for any values, text included: a key is an error if and only if a field is missing and it is no prefix, or the text of a field before the first missing one holds a colon |
| `RowCodec.KeyTextsAgree` | django_hbase/models/hbase_models.py:91-111 | for any values: equal whole keys come from equal texts of every key field |
| `RowCodec.FieldTexts` | django_hbase/models/hbase_models.py:128-135 | texts of an unpadded field, or of equal length, are told apart; padding identifies texts that differ in leading zeros |
| `RowCodec.RowRoundTrip` | django_hbase/models/hbase_models.py:91-173 | for any schema and any instance of natural numbers with a complete key and at least one column: reading the stored row gives every kept field back and leaves the others unset |
| `OwnerRows.RestoredRow` | django_hbase/models/hbase_models.py:138-148 | the bytes stored for a feed or friendship row read back as that row |
| `OwnerRows.PreparedRow` | django_hbase/models/hbase_models.py:19-27 | the bytes saved for a feed or friendship row: padded and reversed owner, colon, unpadded time, one padded column |
| `OwnerRows.KeyTextInjective` | django_hbase/models/hbase_models.py:91-111 | owner and time can be told from the key text, for all natural numbers |
| `OwnerRows.KeyOrder` | docs/database/systems/hbase_design.txt:35 | keys of one owner are in byte order if and only if their 16-digit times are in numeric order |
| `OwnerRows.OwnersApart` | django_hbase/models/hbase_models.py:128-135 | keys of different owners below 10^16 compare by the owners' texts alone, whatever follows |
| `OwnerRows.PrefixMatches` | django_hbase/models/hbase_models.py:204-211 | the prefix of an id below 10^16 matches exactly the keys of owners congruent to it modulo 10^16 |
| `OwnerRows.HitsUpward` | utils/paginations.py:42-44 | the scan from (user, time) to (user, MAX) visits a key if and only if it is the user's and its time lies in the range |
| `OwnerRows.HitsDownward` | utils/paginations.py:54-56 | the reverse scan from (user, time) to (user, None) visits a key if and only if it is the user's and not newer than the cursor |
| `OwnerRows.HitsPrefix` | utils/paginations.py:74-75 | the prefix scan for a user visits a key if and only if it is the user's, for ids below 10^16 |
| `OwnerRows.FeedDescending` | docs/database/systems/hbase_models.txt:247-258 | one owner's rows, scanned in reverse, are strictly descending in time |
| `KeyLimits.KeyOrderExact` | django_hbase/models/hbase_models.py:128-135 | with times of unequal length, stored without padding, byte order agrees with numeric order if and only if the earlier one filled up with zeros on the right does not exceed the later one |
| `KeyLimits.ShortTimestamps` | docs/database/systems/hbase_design.txt:35 | a concrete pair of short times that the keys put in the wrong order |
| `KeyLimits.LongerIds` | django_hbase/models/hbase_models.py:204-211 | a user id beyond 10^16 whose rows a shorter user's prefix scan also finds |
| `OwnerTables.OwnerTable.Create` | django_hbase/models/hbase_models.py:30-33 | seen as a set of rows, a create replaces the row with the same owner and time, if any, and changes nothing else |
| `OwnerTables.OwnerTable.BatchCreate` | django_hbase/models/hbase_models.py:36-43 | seen as a set of rows, a batch is its creates in order |
| `OwnerTables.OwnerTable.Delete` | django_hbase/models/hbase_models.py:54-57 | seen as a set of rows, exactly the row of that owner and time goes |
| `OwnerTables.WrittenRows` | django_hbase/models/hbase_models.py:19-57 | row by row: after a write the key holds the new row, after a delete none, and all other rows are as they were |
| `OwnerTables.WrittenAllRows` | django_hbase/models/hbase_models.py:36-43 | row by row: after a batch a row is stored if and only if it was the last written under its key, or was stored and not replaced |
| `OwnerTables.OwnerTable.FilterOwner` | docs/database/systems/hbase_models.txt:244-245 | filter by prefix returns exactly the owner's rows, in or against time order, up to the limit |
| `OwnerTables.OwnerTable.FilterFrom` | utils/paginations.py:42-44 | the bounded scan returns exactly the owner's rows from the cursor up to the bound, and the single row when both coincide |
| `OwnerTables.OwnerTable.FilterBack` | utils/paginations.py:54-56 | the reverse scan returns the owner's newest rows not newer than the cursor, up to the limit |
| `RedisCache.RedisHelper.LoadObjects` | utils/redis_helper.py:32-60 | server and answer are exactly those of the load specification, whichever commands are lost and whenever the key expires |
| `RedisCache.RedisHelper.LoadObjectsToCache` | utils/redis_helper.py:20-29 | the transaction replaces the whole list or leaves it as it was; an empty snapshot leaves no key |
| `RedisCache.RedisHelper.CacheHit` | utils/redis_helper.py:53-60 | the whole stored list, the snapshot when the command is lost, or nothing when the key has just expired |
| `RedisCache.LoadCoherent` | utils/redis_helper.py:32-60 | from a coherent list a load answers with the newest LIMIT rows on hit, miss, double-check hit and fallback, except that it answers nothing exactly on a lost hit (key seen, expired before LRANGE, no error); the list stays coherent |
| `RedisCache.LoadHarmless` | utils/redis_helper.py:32-60 | without faults the answer is the list, a rival's rebuild or the snapshot, and it is what the key then holds |
| `RedisCache.LoadHot` | utils/redis_helper.py:53-60 | while no key expires in between, a load leaves a hot list alone and answers it, or the snapshot exactly when one of its two commands failed |
| `RedisCache.LoadCold` | utils/redis_helper.py:36-50 | a load of a cold key answers the snapshot, and caches it if and only if its commands get that far and it is not empty |
| `RedisCache.RedisHelper.PushObjects` | utils/redis_helper.py:63-82 | the list and the commands sent are those of the push specification, under any faults |
| `RedisCache.PushCoherent` | utils/redis_helper.py:63-82 | a push of the newest row keeps the list equal to the newest LIMIT rows if and only if no part of it was dropped, for every pattern of lost commands and of expiries between them |
| `RedisCache.PushOrder` | utils/redis_helper.py:63-82 | without faults a push to a hot list keeps it equal to the newest LIMIT rows if and only if the row is newer than the whole feed |
| `RedisCache.PushedTwice` | utils/redis_helper.py:63-82 | pushing one row twice to a hot list spoils it: each recipient must be listed once |
| `RedisCache.PushReaches` | utils/redis_helper.py:63-82 | while no key expires in between, the list after a push is the old one, the row in front of it, or that cut to the limit, as how far the commands got decides |
| `RedisCache.PushAllAppend` | newsfeeds/services.py:73-75 | pushing batches one after the other is pushing one batch |
| `RedisCache.PushAllFront` | newsfeeds/services.py:73-75 | without faults pushes to distinct owners put each row in front of its owner's list, if that is there, cut to the limit, and touch no other list |
| `NewsFeed.NewsFeedService.LazyLoad` | newsfeeds/services.py:9-16 | the newest rows of one user's feed, up to the limit |
| `NewsFeed.NewsFeedService.Create` | newsfeeds/services.py:55-63 | database first, then the push; the owner's feed gains the row on top if it is the newest, and no other feed changes |
| `NewsFeed.NewsFeedService.BatchCreate` | newsfeeds/services.py:65-75 | all rows stored, then pushed one by one; newest rows of distinct owners land on top of exactly these owners' feeds, and without faults every cache stays coherent |
| `NewsFeed.BatchFeed` | newsfeeds/services.py:65-75 | after a batch of newest rows of distinct owners each feed is its own row of the batch, if any, on top of the old feed |
| `NewsFeed.NewsFeedService.GetCachedNewsfeeds` | newsfeeds/services.py:32-42 | on a coherent cache the newest LIMIT rows on every path and under every fault, and nothing exactly on a lost hit; the cache stays coherent |
| `NewsFeedRuns.CreateOne` | newsfeeds/services.py:55-63 | reports whether the push was kept, as the fate of its commands decides; from a coherent list the list is coherent again if and only if it was |
| `NewsFeedRuns.LoadOne` | newsfeeds/services.py:32-42 | server and answer of one load, and every user's list stays coherent |
| `NewsFeedRuns.Run` | newsfeeds/services.py:32-63 | for any mix of creates in increasing time, loads and expiries of any users under any faults: one determined reply for each operation and a determined final server; each load whose user had no push dropped since the key was last absent answers with the newest LIMIT rows of its moment; feeds never depend on faults |
| `NewsFeedRuns.NewestUnlessDropped` | utils/redis_helper.py:32-82 | at every point of every such run and for every user: the list is absent or the newest LIMIT rows, unless a push to it was dropped since its key was last absent |
| `NewsFeedRuns.DroppedSpoils` | utils/redis_helper.py:63-82 | the proviso is exact at the first drop: from a coherent list, the next state is coherent if and only if the push is kept |
| `NewsFeedRuns.LoadsExact` | utils/redis_helper.py:32-60 | what a load answers at any point of a run while its user's list is not spoiled |
| `NewsFeedRuns.HarmlessRun` | utils/redis_helper.py:32-82 | without faults no list is ever spoiled and every load answers with the newest rows |
| `NewsFeedRuns.OperationInTurn` | newsfeeds/services.py:32-63 | what each operation does without faults: a create goes in front of a list that is there, a load answers the list that is there or caches the newest rows, an expiry drops the list, and no other list changes |
| `NewsFeedRuns.CachedOfRun` | utils/redis_helper.py:32-82 | without faults a list is there after a run if and only if it was there, or was loaded when the user had rows, and has not expired since |
| `NewsFeedRuns.ListOfRun` | utils/redis_helper.py:32-82 | without faults what is cached at any point is known from the operations alone: the newest LIMIT rows, or nothing |
| `NewsFeedRuns.ListOrdered` | utils/redis_helper.py:32-82 | whatever is lost or expires, and when, a cached list holds rows of its user's feed, newest first, none twice |
| `NewsFeedRuns.KeptUnspoiled` | utils/redis_helper.py:63-82 | a list that starts right is never spoiled while every push to it is kept |
| `NewsFeedView.NewsFeedViewSet.List` | newsfeeds/api/views.py:22-46 | cache first, then HBase, under any faults: what the cached list and the feed serve; from a coherent list the specified answer for any in-range request, or an empty last page exactly on a lost hit, and the list stays coherent |
| `NewsFeedView.ServedExact` | newsfeeds/api/views.py:25-39 | from the newest LIMIT rows the endpoint serves the page of the whole feed, a refresh cut to the list limit; from an empty list an empty last page |
| `NewsFeedView.ServedRows` | newsfeeds/api/views.py:25-39 | from any cached list in order a page holds admitted rows of the feed, newest first, and is not empty when more are announced |
| `NewsFeedView.ServedIsPage` | newsfeeds/api/views.py:25-39 | from any cached list in order: the specified page of that list, or, when that list is full and its page leaves nothing out, the specified page of the feed |
| `Scrolling.Meanwhile` | newsfeeds/services.py:55-63 | between two pages exactly the rows due, of any users, are stored, under any faults, and an expiry leaves the key absent |
| `Scrolling.NextPage` | newsfeeds/api/tests.py:199-205 | one step of the cursor under any faults: admitted rows of the feed, newest first; the right page of it unless its list was spoiled, or an empty last page exactly on a lost hit |
| `Scrolling.Scroll` | newsfeeds/api/tests.py:195-206 | following created_at__lt while has_next_page ends under any faults, with rows of the feed as it stood at the first page, none twice, newest first, though newer rows of any users are created and keys expire; unless a push to the reader was dropped from a surviving list they are the beginning of that feed, and all of it if and only if no load loses its hit; so all of it without faults |
| `Scrolling.AllKept` | utils/redis_helper.py:63-82 | when the list starts right and every push to the reader is kept, no load of the visit meets a spoiled list |
| `Scrolling.HarmlessVisit` | utils/redis_helper.py:32-82 | without faults no list is spoiled and no hit is lost during a visit |
| `CacheSafety.ContentAlways` | utils/redis_helper.py:63-82 | in every interleaving the list is distinct rows whose LPUSH was sent, in front of stored rows in strictly descending order |
| `CacheSafety.OneSnapshot` | docs/database/design/consistency.txt:172-176 | in every interleaving the rows behind the pushed ones are the beginning of one snapshot that a named earlier step of the run read, as are the rows every reader holds: snapshots are never spliced |
| `CacheSafety.NoGaps` | utils/redis_helper.py:20-29 | that snapshot, as a step of the run: no row stored when it was read is missing among the rows behind the pushed ones unless it is older than all of them |
| `CacheSafety.CachedAtMostTwice` | utils/redis_helper.py:63-82 | in every interleaving, lock timeouts included, a cached row is in the database and is cached at most twice, and at most once before its own push has landed |
| `CacheSafety.AnswersAlways` | utils/redis_helper.py:32-60 | every reader of every interleaving, from the cache or from its fallback read after an error, returns stored rows, none more than twice; which rows, `CacheAnswers.AnswerHistory` says |
| `CacheSafety.LengthBounded` | utils/redis_helper.py:72-79 | in every interleaving the list is no longer than the limit plus the number of writers between LPUSH and LTRIM |
| `CacheSafety.SingleFlight` | utils/redis_helper.py:36-46 | unless the lock times out, at most one reader is in the rebuild section |
| `CacheSafety.RebuiltOnlyWhenGone` | utils/redis_helper.py:41-45 | unless the lock times out, between a rebuild that stored something and any later rebuild there is a state without the key |
| `CacheSafety.TimeoutLetsTwoIn` | utils/redis_helper.py:41 | a run in which a lock timeout lets two readers into the section |
| `CacheAnswers.AnswerHistory` | utils/redis_helper.py:32-60 | in every run, what a reader has got is what its last reading step gave it: the whole list as it stood at that step, in order, or the newest LIMIT rows of the database at that step |
| `CacheAnswers.EmptyAnswer` | utils/redis_helper.py:53-60 | in every run an answer is empty if and only if the key was absent at the step that read it, or the database was empty then |
| `CacheAnswers.AnswerUnlessDropped` | utils/redis_helper.py:32-60 | in every run a reader that sent its EXISTS when a row was stored is not told that there is nothing, unless the key expires after that or an older empty snapshot is stored over a list |
| `CacheAnswers.NeverDrops` | utils/redis_helper.py:41-45 | unless the lock times out, no empty snapshot is ever stored over a list |
| `CacheAnswers.NoEmptyAnswer` | utils/redis_helper.py:32-60 | so unless the lock times out, no reader is told that there is nothing when a row was stored at its EXISTS and the key has not expired since |
| `CacheAnswers.TimeoutEmptyAnswer` | utils/redis_helper.py:41 | a run in which a lock timeout lets an old empty snapshot over a list, and a reader is told that there is nothing though the key never expires |
| `CacheLink.LoadIsRun` | utils/redis_helper.py:32-60 | a whole load, whatever its commands meet, is a run of the protocol with the same answer and the same list |
| `CacheLink.PushIsRun` | utils/redis_helper.py:63-82 | a whole push, whatever its commands meet, is a run of the protocol with the same list |
| `CacheExact.RebuildExactly` | utils/redis_helper.py:44-45 | in every run a rebuild stores what its reader read in a named earlier step, and that is the newest LIMIT rows if and only if every row inserted in between is older than all of it and there is no room; with inserts in order of time, if and only if nothing was inserted in between |
| `CacheExact.PushExactly` | utils/redis_helper.py:74-79 | in every run LPUSH with LTRIM leaves the newest LIMIT rows if and only if the row is newer than all others stored and the list held the newest of these, less the place the row takes: a duplicate, an expiry, a disorder and a late row are the ways to fail |
| `CacheExact.DuplicateExactly` | docs/database/design/consistency.txt:203-206 | in every run an LPUSH caches its row twice if and only if the row is cached already, then behind the pushed rows; and then a snapshot was read between its insert and its push |
| `CacheExact.TwiceSince` | utils/redis_helper.py:74-79 | a row cached twice at some point was pushed by an earlier step while cached already |
| `CacheExact.NeverTwice` | docs/database/design/consistency.txt:203-206 | a run never caches a row twice if and only if none of its pushes finds its row cached already |
| `CacheCalm.CalmCoherent` | docs/database/design/consistency.txt:204 | in every run where nothing falls into a write, an expiry misses pushes and writes follow each other in time, the list is absent or exactly the newest LIMIT rows whenever nobody is writing |
| `CacheCalm.CalmAlways` | docs/database/design/consistency.txt:204 | the invariant behind it: at every point of a calm run the list is absent or lags the database by at most the one row being written |
| `CacheCalm.ReadsAfterWrites` | docs/database/design/consistency.txt:190-206 | if all writes, in any interleaving, precede all reads on a cold key, the list is from then on absent or exactly the newest LIMIT rows, and every answer is empty or exactly these rows |
| `CacheCalm.ReadsExact` | docs/database/design/consistency.txt:204-206 | if moreover some row is stored, no reader is in a hit at the start and no key expires, reading is deterministic: whatever the interleaving, errors and lock timeouts, every further answer is exactly the newest LIMIT rows |
| `CacheCalm.RebuildDuringWrite` | docs/database/design/consistency.txt:200-206 | a run from the initial state, calm but for one snapshot between a row's insert and its LPUSH, that ends with the row cached twice |
| `CacheCalm.InsertDuringRebuild` | docs/database/design/consistency.txt:200-206 | a run from the initial state, calm but for one insert behind a reader's snapshot, that ends with the row missing from the list |
| `CacheCalm.ExpiryDuringPush` | utils/redis_helper.py:74-79 | a run from the initial state, calm but for one expiry between EXISTS and LPUSH, that ends with a list of the pushed row alone |
| `CacheCalm.TwoWritersAtOnce` | docs/database/design/consistency.txt:186-187 | a run from the initial state, calm but for a second writer beginning too soon, that ends with the list out of order |
| `CacheCalm.OlderRowPushed` | utils/redis_helper.py:76-79 | a run from the initial state, calm but for one late row, that ends with it in front of a newer one |
| `CacheCalm.EmptyAnswer` | utils/redis_helper.py:53-60 | a calm run in which a key expires between a reader's EXISTS and LRANGE and the reader returns nothing although a row is stored |
| `Friendships.MirrorAfterFollow` | friendships/services.py:107-119 | following keeps the two tables mirrored if and only if no stored row shares the time and the follower, or the time and the followed user, with the new one |
| `Friendships.ClashBreaksMirror` | friendships/services.py:107-119 | two follows of one user in one microsecond: a concrete state whose tables no longer mirror each other |
| `Friendships.DeletedPair` | friendships/services.py:140-141 | deleting the two keys of a row removes that row and its mirror and nothing else, and the tables stay mirrored |
| `Friendships.RefillBetween` | friendships/models/hbase_friendship.py:19-22 | save invalidates before it writes: a set read and cached in between is right afterwards if and only if the write does not change the targets |
| `Friendships.RefillBeforeDelete` | friendships/models/hbase_friendship.py:25-30 | a set read and cached between the invalidation and the delete is right afterwards if and only if another row of the pair remains, which unique pairs exclude |
| `Friendships.FriendshipService.Follow` | friendships/services.py:95-119 | refuses a self-follow; otherwise one row in each table, cache entry gone, and the tables stay mirrored exactly under the freshness condition |
| `Friendships.FriendshipService.Unfollow` | friendships/services.py:122-142 | returns 1 if and only if the pair is stored; then one row of the pair goes from each mirrored table, and otherwise nothing changes |
| `Friendships.FriendshipService.GetFollowInstance` | friendships/services.py:55-62 | the earliest stored row of the pair, or none if and only if the pair is not stored |
| `Friendships.FriendshipService.GetFollowerUserIdList` | friendships/services.py:22-30 | on mirrored tables exactly the ids that follow the user, without repetition when pairs are unique |
| `Friendships.FriendshipService.GetFollowingUserIdSet` | friendships/services.py:33-47 | the cached set if there is one, otherwise the targets in the table, which are then cached |
| `Friendships.FriendshipService.HasFollowed` | friendships/services.py:65-68 | on a right cache true if and only if the pair is stored and the users differ |
| `Friendships.FriendshipService.GetFollowersCount` | friendships/services.py:80-81 | the number of the user's rows in the followers table, which is the number of different followers when pairs are unique |
| `Friendships.FriendshipService.GetFollowingCount` | friendships/services.py:84-86 | on a right cache the number of different targets, which is the number of rows when pairs are unique |
| `Friendships.FriendshipService.SaveFollowing` | friendships/models/hbase_friendship.py:19-22 | drops the cache entry of the follower, writes the row, and leaves every cached set right |
| `Friendships.FriendshipService.DeleteFollowing` | friendships/models/hbase_friendship.py:25-30 | drops the cache entry of the follower, deletes the row, and leaves every cached set right |
| `FriendshipViews.FriendshipViewSet.FollowUser` | friendships/api/views.py:61-91 | for any time: not found exactly for an unknown target, duplicate exactly for a followed pair, refused exactly for oneself, and otherwise stores exactly that row and drops the cache entry; mirror, unique pairs, no self-follow and cache are kept if and only if nothing was created or the created row is fresh, and then exactly that pair is added |
| `FriendshipViews.FriendshipViewSet.UnfollowUser` | friendships/api/views.py:95-106 | not found exactly for an unknown target, refused exactly for oneself, one deleted exactly for a followed pair; removes exactly that pair, drops the cache entry exactly then, and keeps the same invariant |
| `FriendshipViews.FriendshipViewSet.Run` | friendships/api/views.py:61-106 | any sequential run of follows, unfollows, questions, counts and expiries is answered as one plain set of pairs would answer it, up to the first follow that shares its time and a user on the same side with an earlier one; without such a follow the tables end up as that set |
| `FriendshipViews.LastTouch` | friendships/api/views.py:61-106 | after any run a pair is followed if and only if its last effective action was a follow |
| `FriendshipViews.FollowedExactly` | friendships/api/views.py:61-106 | at every point of any run a pair is followed if and only if the last effective word on it was a follow, or there was none and it was followed from the start |
| `FriendshipViews.RepliesMean` | friendships/api/views.py:61-106 | every reply of any run, told from the actions before it: duplicate, refused, not found and created follows, unfollows that delete one or none, answers, and counts as numbers of pairs so followed |
| `Fanout.Dispatch` | newsfeeds/tasks.py:43-54 | the batches concatenate to the list, all but the last are full, none is empty, and the number reported by the floor formula is their number |
| `Fanout.BatchCount` | newsfeeds/tasks.py:54 | any division of n ids into full batches and a last one has (n - 1) // size + 1 of them under floor division, also for n = 0 |
| `Fanout.AnyOrder` | newsfeeds/tasks.py:47-51 | in whatever order the batches run, each id of a duplicate-free list has its turn exactly once |
| `Fanout.MainTask` | newsfeeds/tasks.py:26-55 | the author's row is delivered first and the batches are those of the follower list read |
| `Fanout.BatchTask` | newsfeeds/tasks.py:10-22 | exactly one row for each follower of the batch; newest rows land on top of their feeds, caches stay coherent, and the server is exactly the one after these pushes, under any faults |
| `Fanout.RunTasks` | newsfeeds/tasks.py:10-22 | batches over distinct ids, run in the given order, deliver to exactly these ids, and push to exactly these lists in that order |
| `Fanout.DeliverOne` | newsfeeds/tasks.py:35-39 | the author's own row is stored, on top of the author's feed if it is the newest, and no other feed changes; the server is the one after that push |
| `Fanout.DeliverAll` | newsfeeds/tasks.py:10-55 | for every order of execution: one row for the author and one for each follower, nobody twice, nothing else changed; the server is the one after these pushes in that order; without faults each recipient's list is there if and only if it was before, and is then the tweet in front of the old list cut to the limit, and no other list changes; and on newest rows every feed gains exactly the tweet and caches stay coherent |
| `Fanout.FollowThenFanout` | newsfeeds/tasks.py:10-55 | a run of follows and unfollows and then a fanout: the tweet reaches, once each, the author and exactly those whom the plain set of pairs has as followers in the end, and without faults lands in front of exactly their cached lists |
| `Fanout.PushedInFront` | newsfeeds/services.py:65-75 | without faults, pushing a tweet to distinct recipients puts it in front of the lists that are there, cut to the limit, and leaves all others alone |
| `Fanout.DeliveredRows` | newsfeeds/tasks.py:14-18 | row by row: each recipient has the tweet's row in place of any of that time, and all other rows stay |
| `Counters.BumpRight` | utils/redis_helper.py:90-122 | after the database moved, the cached count is right if and only if no INCR or DECR of a cached count was dropped or met an expired one, and the answer is right if and only if it was not counted from zero, or rightly so |
| `Counters.BumpHarmless` | utils/redis_helper.py:90-122 | without faults a cached count is moved, a missing one is read anew, and either way it is cached afterwards and answered |
| `Counters.CountedTwice` | utils/redis_helper.py:93-101 | k writers that all updated the database before the first finds the count missing leave it k - 1 too high: right if and only if there was one writer |
| `Counters.CountCache.BumpCount` | utils/redis_helper.py:90-122 | store and answer are exactly those of the bump specification, whichever commands are lost and whenever the key expires |
| `Counters.CountCache.GetCount` | utils/redis_helper.py:125-139 | on a right cache the true count under any faults and expiries, and the cache stays right |
| `Counters.LikeCounted` | likes/listeners.py:4-21 | a new like of a tweet moves its database count with the number of its rows; likes of comments move none |
| `Counters.CancelCounted` | likes/listeners.py:24-34 | removing a like of a tweet keeps its database count equal to its rows |
| `Counters.DeleteCounted` | comments/listeners.py:14-19 | removing a comment keeps its tweet's database count equal to its rows |
| `Counters.Engagement.IncrLikesCount` | likes/listeners.py:4-21 | only created likes of tweets move the count, by one |
| `Counters.Engagement.DecrLikesCount` | likes/listeners.py:24-34 | only likes of tweets move the count back, by one |
| `Counters.Engagement.IncrCommentsCount` | comments/listeners.py:4-12 | a created comment moves the count by one, an edited one does not |
| `Counters.Engagement.DecrCommentsCount` | comments/listeners.py:14-19 | a deleted comment moves the count back by one |
| `Counters.Engagement.LikeObject` | likes/api/serializers.py:60-67 | creates at most one like per user and object, of existing objects only, and keeps all counts |
| `Counters.Engagement.CancelLike` | likes/api/serializers.py:72-83 | removes the like if there is one, reports how many, and keeps all counts |
| `Counters.Engagement.CreateComment` | comments/api/views.py:60-74 | a comment on an existing tweet gets a fresh id; one on an unknown tweet is refused; all counts are kept |
| `Counters.Engagement.EditComment` | comments/api/views.py:86-96 | an edit changes the content of that comment and no count |
| `Counters.Engagement.DeleteComment` | comments/api/views.py:101-104 | exactly that comment goes, and all counts are kept |
| `Counters.Engagement.ReadCount` | tweets/api/serializers.py:41-48 | on a right cache the number of live rows is shown, under any faults |
| `Counters.Run` | likes/listeners.py:4-34 | for any sequence of likes, cancels, comments, edits, deletes, reads and expiries: rows as the actions call for, database counts equal to live rows whatever Redis does, and without Redis errors every answer and the set of cached counts are determined and every cached count is right; `CounterHistory` says which they are |
| `CounterHistory.LikesOfRun` | likes/api/serializers.py:60-83 | at every point of any run a like is there if and only if the last effective word on it was a like, or there was no cancel and it was there from the start |
| `CounterHistory.CommentsOfRun` | comments/api/views.py:60-104 | at every point of any run a comment is there if and only if it was written, or there from the start, and not erased since |
| `CounterHistory.ContentOfRun` | comments/api/views.py:86-96 | and it is the comment that was written, with the content of the last edit since, or else the original one |
| `CounterHistory.IdsGiven` | comments/api/views.py:60-74 | ids are given in turn to the comments on existing tweets |
| `CounterHistory.AnswersMean` | likes/api/serializers.py:60-83 | every answer of any run, told from the actions: a created like was not there before and is there afterwards, a cancelled one the converse; ids are given in turn; a count is the number of likes or comments so present |
| `CounterHistory.KeptOfRun` | utils/redis_helper.py:90-139 | without faults a count is cached after a run if and only if it was moved, read or cached from the start, and has not expired since |

## Left out

- NewsFeedView.NewsFeedViewSet.List: models the HBase side of the GateKeeper switch; the MySQL side is covered by the queryset paginator and its agreement with the HBase one (`Agreement.SamePage`). A pull-to-refresh answers the first LIMIT newer rows only, because the code serves it from the cached list; `Agreement.CachedRefresh` says when that is everything.
- Scrolling.Scroll: between two pages whole operations happen, with any command failing or finding its key expired; other readers' and writers' commands are not interleaved with those of a request, which the protocol modules do.
- Pagination.EndlessPagination.PaginateQueryset: rows that share a created_at are not covered; the database leaves their order open.
- Pagination.EndlessPagination.PaginateHBase: cursors are 16-digit numbers in canonical text; ISO dates, signs, blanks and leading zeros in a cursor are not modelled.
- RedisCache.RedisHelper.LoadObjects: the closure that queries the database is passed as the rows it returns, and what a rival stores while this reader waits for the lock as a parameter.
- CacheLink.LoadIsRun: for a load that meets no rival while it waits for the lock; a rival is a second reader of the protocol, whose steps come first.
- NewsFeedRuns.Run: a list spoiled by a dropped push is described by the determined server state only; it heals when its key expires or enough later pushes have replaced it.
- CacheCalm.CalmCoherent: one direction, because a wrong list heals when its key expires or enough later pushes have replaced it; the exact conditions are those of the steps that write the list, `CacheExact.RebuildExactly` and `CacheExact.PushExactly`.
- Fanout.DeliverAll: on rows that are not the newest only the stored rows are described; a late push leaves the cached list out of order (`RedisCache.PushOrder`).
- Counters.Run: actions run one after the other, over a fixed set of tweets; the race of two writers on a missing count is `Counters.CountedTwice`.
- OwnerTables.OwnerTable.FilterOwner: answers for ids below 10^16 only; for longer ids `OwnerRows.PrefixMatches` and `KeyLimits.LongerIds` say what a prefix scan finds.
- HBaseOrm.HBaseModel.Filter: several fields of one name in a key, and prefix together with a key range, which the client library refuses, are not modelled.
- RowCodec.FieldRoundTrip: int() of texts with blanks, underscores or a plus sign is not modelled; the serializer never writes them.
- The MySQL branches of the services: they are single ORM calls on one table.
- Serialization of rows to JSON and of datetimes to ISO text in the cache and in task arguments: rests on library code; rows are stored directly.
- Contents of a cached tweet after an edit, row deletion from feeds, switching GateKeeper in mid-run, redelivery of tasks, and crashes between the two friendship writes: the code makes no claim about them.
- Memcached object cache, GateKeeper percentages, permissions, rate limits, accounts, inbox, photos, moderation and storage: no property of this depth.
