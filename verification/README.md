# Sentinel core: a verified model

Dafny models of the parts of the Sentinel flow-control library that carry state, with proofs of what they promise.
`dafny verify dfyconfig.toml` checks all of it. Times are integers in milliseconds and inputs of every call; where one
call reads the clock several times, whose readings can differ, the model takes one for each: for each window a parameter
is added to, for refreshing and for reading a window, for a breaker's counter, sums and retry time, for each breaker of
an entry. The clock does not go back. `double` is `real`, files and indexes are sequences, hash maps are maps. Where code
and comments disagree the model follows the code: `find` is documented as a try-lock
(sentinel-core/param/statistic/lru_cache.h:273-297) but waits for the mutex, its condition being always true.

| part | modules |
|---|---|
| Sharded LRU counter cache | LruSpec (recency on values), LruCache (linked nodes, sentinels and map on the heap), LruConcurrent, LruConcurrentLimits and LruConcurrentSolo (steps between mutex sections and atomics), LruConcurrentBlocking (the same with the locks of map accessors), LruConcurrentOverfill (what m_size misses), LruConcurrentRefines (one thread alone), ScalableCache |
| Hot-parameter counts | ParamWindow, ParamMetric, ParamCounters (the object), ParamQuota (what the rules let pass), ParamFlow (the check as code) |
| Metric log | MetricItem (lines), FileNames and FileListing (names, order, retention listing), MetricLog and MetricFiles (what the writer produces, and in which files), MetricBytes (the writer on bytes), MetricSearch (searching as filtering), MetricReader (searcher and reader on bytes) |
| Sliding windows and admission | Ring, LeapArray, SlidingWindow, StatisticNode, QpsLimit, MetricsOnce |
| Slot chain | SlotChain, Conservation, SphU |
| Circuit breakers | BreakerSpec and BreakerRuns (whole calls), CircuitBreaker (the object), BreakerRaces and BreakerRacesAlone (single loads, compare-and-swaps, stores and clock readings) |
| Throttling | Throttling |
| Shared | Text, Seqs, Sums, Options |

Code that changes objects is a class or a method with loops whose contract equates the new state with a function of the
old one; the theorems are lemmas about those functions and about whole runs of them.

What the proofs settle about the code:

- The `erase` branch of `evict` marked "Presumably unreachable" (sentinel-core/param/statistic/lru_cache.h:511) is
  unreachable under every interleaving of `insert`, `increase` and `find`.
- The comment that the container may "temporarily exceed the maximum" (sentinel-core/param/statistic/lru_cache.h:405) is
  optimistic: `m_size` stays at most `m_maxSize + T - 1`, and that bound is reached with all threads at rest. Evictions
  that took nothing, because the list was empty or the caller's own node last in it, leave more entries than `m_size`
  counts. Some schedule ends at rest that way if and only if there are at least two threads, and from then on the cache
  is beyond its maximum whenever it comes to rest.
- `insert` holds its map accessor while it evicts, so two inserts in their second eviction can each delink the other's
  node and then wait for the other's lock for good. That takes three threads and a capacity of at least 1, and with those
  some schedule gets there.
- An index entry of a new day goes to the end of the old file, and a file begun by a size rollover inside a second starts
  without one. Searching is exact all the same until retention deletes a file; then retained records in front of the
  first retained index entry, all of one second, are not found.
- The writer tells days by a base computed once, so records lie in files of their own day exactly in time zones whose
  offset never changes; and a first call of a day before the writer was made opens a file that the next day's records
  go to.
- A leap array counts only buckets of its window exactly for the shapes with interval % samples < interval / samples. Node
  statistics satisfy it by configuration; parameter rules are not checked for it, and for any other shape some reading
  of a rule's window exceeds what was recorded in it.
- A parameter rule keeps the passed tokens of a value within its threshold, in any `samples` consecutive buckets of every
  run, if and only if the threshold is 0 or fewer other values share the value's cache shard than that has room for. With
  more of them a flood of other values resets its counter.
- The QPS check adds tokens to a rate per second, so a configured interval below a second can exceed its share; the
  condition is exact.
- A resource with several breakers can get stuck: a probe granted by one breaker and refused by a later one leaves the
  first half-open, and with nothing in flight it stays so. Some run gets there if and only if both can trip at all, the
  breakers of one call reading the clock one after the other.
- Under contention a breaker's passes and transitions still correspond one to one, but a probe is sure to keep its
  distance from the latest opening only if the timestamp its check saw was computed since. There are three ways in which
  it was not: the store was still to come, the check was overtaken by a reopening, or an opener held up between reading
  the clock and storing overwrote a newer timestamp. Each leads to an early probe, so all runs are on time exactly for
  breakers that one thread uses or whose timeout is 0. A completion that began before the breaker opened can end the
  probe of another caller.
- A custom slot that blocks with an empty reason would make the statistic slot take back a thread it never counted.

## Model

| member | source | states |
|---|---|---|
| LruCache.LruCache.constructor | sentinel-core/param/statistic/lru_cache.h:227-237 | a new cache is empty and its two sentinels point at each other |
| LruCache.LruCache.Delink | sentinel-core/param/statistic/lru_cache.h:475-482 | the node leaves the chain, everything else keeps its place, the links stay consistent both ways |
| LruCache.LruCache.PushFront | sentinel-core/param/statistic/lru_cache.h:485-492 | the node becomes the most recent, in front of an otherwise unchanged well-formed chain |
| LruCache.LruCache.Evict | sentinel-core/param/statistic/lru_cache.h:495-515 | takes the least recent entry out of list and map, or nothing when the list is empty |
| LruCache.LruCache.Find | sentinel-core/param/statistic/lru_cache.h:273-297 | refines the recency specification: a hit moves to the front and returns its counter, a miss changes nothing |
| LruCache.LruCache.SilentFind | sentinel-core/param/statistic/lru_cache.h:247-257 | returns the counter without touching the order |
| LruCache.LruCache.Increase | sentinel-core/param/statistic/lru_cache.h:329-360 | refines the specification: adds to the counter and makes it most recent, or inserts it |
| LruCache.LruCache.Insert | sentinel-core/param/statistic/lru_cache.h:369-420 | refines the specification, including eviction at capacity and the entry a capacity of 0 still takes |
| LruCache.LruCache.Clear | sentinel-core/param/statistic/lru_cache.h:423-442 | terminates with an empty cache and every former node unlinked |
| LruCache.LruCache.SnapshotKeys | sentinel-core/param/statistic/lru_cache.h:445-452 | lists the keys in recency order |
| LruCache.InsertRefines | sentinel-core/param/statistic/lru_cache.h:369-420 | map and list after evict-and-push are the specification's Add, keeping one node per key |
| LruSpec.HoldsMostRecent | sentinel-core/param/statistic/lru_cache.h:273-515 | after any run the cache holds exactly the most recently touched keys, as many as fit, in that order |
| LruSpec.CachedIffRecentlyTouched | sentinel-core/param/statistic/lru_cache.h:273-515 | a key is cached if and only if fewer than max(1, size) other keys were touched after its latest touch since the last clear |
| LruSpec.RunIsWf | sentinel-core/param/statistic/lru_cache.h:369-420 | keys stay distinct, the map has exactly the listed keys, the size stays within max(1, m_maxSize) |
| LruSpec.CountExactIfNeverEvicted | sentinel-core/param/statistic/lru_cache.h:329-360 | a counter never evicted holds everything added since the last clear |
| LruSpec.CountNeverExceeds | sentinel-core/param/statistic/lru_cache.h:329-360 | evicted or not, a counter of non-negative additions never exceeds what was added |
| LruConcurrentLimits.InvariantOverRuns | sentinel-core/param/statistic/lru_cache.h:369-420 | every interleaving of insert, increase and find keeps the placement and accounting invariants |
| LruConcurrentLimits.InvariantFromInit | sentinel-core/param/statistic/lru_cache.h:227-237 | the invariants hold from the fresh cache on |
| LruConcurrentLimits.MapKeysArePartitioned | sentinel-core/param/statistic/lru_cache.h:369-420 | map keys are the disjoint union of listed keys, keys inserted but not pushed, and keys delinked but not erased |
| LruConcurrent.PlacedErase | sentinel-core/param/statistic/lru_cache.h:495-515 | the eviction's erase always finds its entry, whatever the interleaving |
| LruConcurrentLimits.EraseAlwaysFindsItsEntry | sentinel-core/param/statistic/lru_cache.h:507-514 | the branch marked as presumably unreachable is unreachable |
| LruConcurrentLimits.SizesUnderContention | sentinel-core/param/statistic/lru_cache.h:396-420 | list length equals m_size corrected by the threads in between, and neither m_size nor the list exceeds the maximum by more than T - 1 for T threads |
| LruConcurrentLimits.QuiescentSizes | sentinel-core/param/statistic/lru_cache.h:396-420 | at rest list and map hold m_size entries and one for each eviction that took nothing |
| LruConcurrent.FirstEvictBlockedOnlyByEmptyList | sentinel-core/param/statistic/lru_cache.h:495-506 | the first eviction of a call fails only on an empty list |
| LruConcurrentSolo.OverfillStays | sentinel-core/param/statistic/lru_cache.h:400-420 | lone inserts at an m_size equal to the maximum never bring a longer list down; an empty cache of capacity 0 takes one entry |
| LruConcurrentSolo.SoloInsert | sentinel-core/param/statistic/lru_cache.h:369-420 | a lone insert at rest brings an m_size above the maximum down by one, but never the entries m_size misses; at capacity 0 it adds such an entry to an empty list |
| LruConcurrentRefines.AloneIsSequential | sentinel-core/param/statistic/lru_cache.h:273-515 | with no other thread at work the steps of any calls leave exactly the recency list and keys of the sequential specification |
| LruConcurrentBlocking.DeadlockTakesThree | sentinel-core/param/statistic/lru_cache.h:408-418 | inserts that wait for each other's map entries always include two in their second eviction, so there are at least three threads and the capacity is not 0 |
| LruConcurrentBlocking.DeadlockIsForGood | sentinel-core/param/statistic/lru_cache.h:495-515 | calls that wait for each other never return, whatever the other threads do |
| LruConcurrentBlocking.NoDeadlock | sentinel-core/param/statistic/lru_cache.h:369-420 | with fewer than three threads, or a capacity of 0, no interleaving ever brings calls to wait for each other |
| LruConcurrentBlocking.DeadlockIff | sentinel-core/param/statistic/lru_cache.h:369-420 | with map accessors as locks some schedule ends in such a wait if and only if there are at least three threads and a capacity of at least 1 |
| LruConcurrentOverfill.SizeBoundIsAttained | sentinel-core/param/statistic/lru_cache.h:396-420 | for every capacity of at least 1 and every T some schedule that respects the accessors' locks ends at rest with m_size = m_maxSize + T - 1 |
| LruConcurrentOverfill.OverfillIsAttained | sentinel-core/param/statistic/lru_cache.h:400-420 | at every capacity and for every T some such schedule ends at rest with m_size at the maximum and T - 1 entries more than max(1, m_maxSize) in the list |
| LruConcurrentOverfill.OverfillIff | sentinel-core/param/statistic/lru_cache.h:400-420 | some schedule ends at rest with more entries than max(1, m_maxSize) and than m_size if and only if there are at least two threads |
| LruConcurrentOverfill.MissedNeverShrinks | sentinel-core/param/statistic/lru_cache.h:495-506 | between any two states at rest of one run, under every interleaving, the entries that m_size misses do not get fewer |
| LruConcurrentOverfill.OverfillIsForGood | sentinel-core/param/statistic/lru_cache.h:400-420 | a cache once overfilled at rest is overfilled whenever it comes to rest: exceeding the maximum is not temporary |
| ScalableCache.TopBitsDecide | sentinel-core/param/statistic/scalable_cache.h:148-154 | the shard is the number made of the top 16 bits of a 64-bit hash, modulo the number of shards, whatever the other bits |
| ScalableCache.ShardSizes | sentinel-core/param/statistic/scalable_cache.h:131-145 | the constructor's loop gives each shard its quotient and the first the remainder |
| ScalableCache.CapacitiesAddUp | sentinel-core/param/statistic/scalable_cache.h:131-145 | the shard capacities add up to the configured size |
| ScalableCache.ShardRunsAlone | sentinel-core/param/statistic/scalable_cache.h:156-210 | each shard behaves as a cache that sees only its own operations and the clears |
| ScalableCache.ShardsPartitionKeys | sentinel-core/param/statistic/scalable_cache.h:147-154 | whatever a shard holds belongs to it, so a key is held at most once |
| ScalableCache.EntriesBounded | sentinel-core/param/statistic/scalable_cache.h:131-154 | the entries never exceed the sum of max(1, shard capacity) |
| ScalableCache.RoomIsCapacity | sentinel-core/param/statistic/scalable_cache.h:131-145 | with a size of at least one per shard that sum is the configured size |
| ScalableCache.CountExactIfNeverEvicted | sentinel-core/param/statistic/scalable_cache.h:180-191 | a key never evicted from its shard counts everything added to it |
| ScalableCache.CountNeverExceeds | sentinel-core/param/statistic/scalable_cache.h:180-191 | evicted or not, its count never exceeds what was added |
| ScalableCache.EvictedOnlyIfCrowded | sentinel-core/param/statistic/scalable_cache.h:131-191 | a counter is dropped only if as many other keys as its shard has room for share that shard |
| ParamMetric.BucketRuns | sentinel-core/param/statistic/param_bucket.cc:12-32 | a bucket's two caches are what the adds and gets of its bucket id make of empty caches |
| ParamMetric.WindowCounts | sentinel-core/param/statistic/param_bucket.cc:12-26 | each bucket in sight counts exactly, or at most, what was added for a value |
| ParamMetric.InitializeLinks | sentinel-core/param/statistic/param_metric.cc:141-172 | a new key gets one window, found by key and once under its parameter index |
| ParamMetric.AddFromEach | sentinel-core/param/statistic/param_metric.cc:49-60 | one call makes each window record the parameter it watches exactly once, and no other |
| ParamMetric.PeekKeeps | sentinel-core/param/statistic/param_metric.cc:99-112 | reading reorders caches of old buckets but changes no recorded count |
| ParamMetric.RunKeeps | sentinel-core/param/statistic/param_metric.cc:49-112 | over every run keys and windows correspond one to one and each window tracks its history |
| ParamMetric.HistoryIsLog | sentinel-core/param/statistic/param_metric.cc:49-60 | a window has recorded exactly the calls since its initialisation that carry the value at its index, each at the time its window read |
| ParamMetric.LoggedSinceInitialised | sentinel-core/param/statistic/param_metric.cc:141-172 | those calls are all that follow the first initialisation of the key and none before it |
| ParamMetric.IntervalIsWindowSum | sentinel-core/param/statistic/param_metric.cc:99-122 | PassInterval and BlockInterval equal the recorded counts of the window when the value was never evicted there, and are at most that for non-negative counts |
| ParamMetric.IntervalNeverExceeds | sentinel-core/param/statistic/param_metric.cc:99-122 | with non-negative counts a reading never exceeds the in-window calls, whatever was evicted |
| ParamMetric.NeverExceedsIff | sentinel-core/param/statistic/param_metric.cc:141-172 | that holds for a rule's window in all runs if and only if interval % samples < interval / samples, which nothing checks |
| ParamWindow.LiveSumBound | sentinel-core/statistic/base/leap_array.h:160-175 | live buckets sum to at most, or exactly, the events in sight when each bucket does |
| ParamWindow.PokeTracks | sentinel-core/param/statistic/param_metric.cc:99-112 | asking every live bucket in place is one event in each bucket's own history |
| ParamCounters.ParamMetric.InitializeForRule | sentinel-core/param/statistic/param_metric.cc:141-172 | the call changes the maps as specified and is idempotent for an equal key |
| ParamCounters.ParamMetric.Add | sentinel-core/param/statistic/param_metric.cc:49-60 | the loops over parameters and windows do what the specification says, each window with its own clock reading |
| ParamCounters.ParamMetric.SumUp | sentinel-core/param/statistic/param_metric.cc:104-109 | the loop adds up the value's counters in the live buckets |
| ParamCounters.ParamMetric.GetInterval | sentinel-core/param/statistic/param_metric.cc:99-112 | refreshes the window at one clock reading, sums what is live at the next, 0 for an unknown key |
| ParamWindow.LiveSumAtLeast | sentinel-core/statistic/base/leap_array.h:160-175 | whatever the shape, the live buckets sum to what happened in the latest `samples` bucket ids or more |
| ParamQuota.IntervalAtLeast | sentinel-core/param/statistic/param_metric.cc:99-122 | a reading is never negative, and of a value that other values cannot push out of its cache never less than what the latest `samples` buckets recorded |
| ParamQuota.ParamsFit | sentinel-core/param/param_flow_rule_checker.cc:12-23 | a call that passes a rule has found room in the rule's window for its tokens, for each of its parameters |
| ParamQuota.RulesFit | sentinel-core/param/param_flow_slot.cc:52-74 | so has a call that passes a list of rules, for each of them |
| ParamQuota.PassKeepsQuota | sentinel-core/slot/statistic_slot.cc:40-59 | adding the tokens of such a call keeps every `samples` consecutive buckets within the value's threshold |
| ParamQuota.EntriesKeepQuota | sentinel-core/param/param_flow_slot.cc:52-74 | in every run, for every list of rules, each rule of it and each value that others cannot push out, any `samples` consecutive buckets hold at most the value's own number of passed tokens if the rule lists it, else the rule's threshold, whatever the shape |
| ParamQuota.FloodBreaksQuota | sentinel-core/param/param_flow_rule_checker.cc:24-36 | with enough other values in the shard of its cache some run passes twice the threshold of a value in one window |
| ParamQuota.QuotaHoldsIff | sentinel-core/param/param_flow_rule_checker.cc:24-50 | a rule keeps a value within its own number, or else the threshold, in all runs if and only if that is 0 or fewer other values share the value's shard than that has room for |
| ParamQuota.EntryIsCounted | sentinel-core/param/param_flow_slot.cc:52-74 | every entry is counted at most once, as blocked or as passed, and refused only if for some rule and parameter the tokens in its window and its own are more than the rule has for that value |
| ParamQuota.RulesRefused | sentinel-core/param/param_flow_rule_checker.cc:12-50 | a refusal by a list of rules has such a rule, parameter and reading of the clock |
| ParamFlow.PassSingleValueCheck | sentinel-core/param/param_flow_rule_checker.cc:24-50 | passes if and only if the count and the reading are at most the value's own number, or else the rule's threshold |
| ParamFlow.PassLocalCheck | sentinel-core/param/param_flow_rule_checker.cc:12-22 | the loop over all parameters of a call, up to the first that does not pass |
| ParamFlow.CheckFlow | sentinel-core/param/param_flow_slot.cc:52-74 | the loop over the rules: each window is set up and checked, and the first refusal records a block |
| ParamFlow.Entry | sentinel-core/slot/statistic_slot.cc:40-59 | an entry as specified: the tokens are added when every slot has let it pass |
| MetricItem.ThinRoundTrip | sentinel-core/statistic/base/metric_item.cc:24-57 | parsing the thin string gives every 64-bit field back and the name with bars replaced |
| MetricItem.FatRoundTrip | sentinel-core/statistic/base/metric_item.cc:32-73 | the same for the fat string, whose date field is skipped |
| MetricItem.FatFields | sentinel-core/statistic/base/metric_item.cc:32-41 | the fields of a fat line, each in its place |
| MetricItem.PrintingIsAFixedPoint | sentinel-core/statistic/base/metric_item.cc:24-41 | what was read back prints the same line again |
| MetricItem.ParseDecimal | sentinel-core/statistic/base/metric_item.cc:16-22 | every 64-bit integer, negative ones included, survives printing and parsing |
| MetricItem.FatStringHasNoNewline | sentinel-core/statistic/base/metric_item.cc:32-41 | a record is one line of the file when its name and time are |
| MetricItem.LegalIsLegal | sentinel-core/statistic/base/metric_item.cc:24-41 | a stored name holds no bar, gains no line break, and storing it again changes nothing |
| Text.DigitsOrder | sentinel-core/log/metric/metric_writer.cc:205-213 | decimals compare by length and then by characters as the numbers do |
| FileNames.NoDots | sentinel-core/log/metric/metric_writer.cc:126-143 | the application name with every dot a dash and nothing else changed |
| FileNames.ComparatorIsCreationOrder | sentinel-core/log/metric/metric_writer.cc:187-214 | on the writer's names the comparator is the order of day, then number |
| FileNames.BeforeIsStrictTotalOrder | sentinel-core/log/metric/metric_writer.cc:187-214 | that order is a strict total order |
| FileNames.NameFields | sentinel-core/log/metric/metric_writer.cc:187-199 | how a name splits at its dots: base, date, number |
| FileListing.ContainsModel | sentinel-core/log/metric/metric_writer.cc:149-157 | only files of the same day contain the day's name model |
| FileListing.CandidatesAreEntries | sentinel-core/log/metric/metric_writer.cc:149-157 | the candidates of a day are its metric files, never an index or lock file |
| FileListing.GreatestIsLast | sentinel-core/log/metric/metric_writer.cc:164-167 | the last of the sorted candidates is the latest file |
| FileListing.NumberOfName | sentinel-core/log/metric/metric_writer.cc:168-180 | the number is read back from a name, up to the range of int |
| FileListing.NextNameIsFreshAndLast | sentinel-core/log/metric/metric_writer.cc:145-185 | the new name is not taken and comes after every other |
| FileListing.EntryIsMetricFile | sentinel-core/log/metric/metric_writer.cc:250-260 | every metric file matches the pattern and no index file does |
| FileListing.SortedListingIsCreationOrder | sentinel-core/log/metric/metric_writer.cc:262-278 | listing and sorting the directory gives the files in the order they were created |
| MetricLog.NewFileKeeps | sentinel-core/log/metric/metric_writer.cc:221-234 | deleting the oldest files and opening a new one loses nothing else, and of the files before it total_file_count stay, or all when they are fewer |
| MetricLog.NewFileInOrder | sentinel-core/log/metric/metric_writer.cc:145-185 | a new file comes last in the order of files |
| MetricLog.SameSecondAdds | sentinel-core/log/metric/metric_writer.cc:75-80 | within a second: an index entry for the very first write, then the records |
| MetricLog.NextSecondAdds | sentinel-core/log/metric/metric_writer.cc:81-91 | a later second: the index entry goes to the end of the file in use, also when a new day starts a new file |
| MetricLog.WriteAdds | sentinel-core/log/metric/metric_writer.cc:55-92 | one call appends exactly its index entry and records, nothing when it is behind the clock |
| MetricLog.WriteKeeps | sentinel-core/log/metric/metric_writer.cc:55-92 | index entries never go back, records carry the second of the last one, files stay ordered and few |
| MetricLog.RunWrites | sentinel-core/log/metric/metric_writer.cc:55-103 | over a run, deleted and kept files together hold exactly what was accepted, in order |
| MetricFiles.OwnDayIff | sentinel-core/log/metric/metric_writer.cc:64-91 | in a time zone with a fixed offset every record goes to a file of its own day, in all runs that begin with a given call, if and only if that call is not of a day before the writer was made |
| MetricFiles.ZoneIff | sentinel-core/log/metric/metric_writer.cc:105-109 | with the clock not going back every record of every run goes to a file of its own day exactly in the time zones whose date never changes within a day counted from the base, so not where an offset changes with the season |
| MetricFiles.NewFileOnlyWhenDone | sentinel-core/log/metric/metric_writer.cc:94-119 | a file is followed by another only when it has reached the size limit, for a new day, or when it was begun in vain; the one in use is below the limit |
| MetricBytes.HoldsMark | sentinel-core/log/metric/metric_writer.cc:111-115 | an index line holds the second and the end of the data |
| MetricBytes.HoldsRecord | sentinel-core/log/metric/metric_writer.cc:96-98 | a record is one line at the end of the data |
| MetricBytes.IndexAppend | sentinel-core/log/metric/metric_writer.cc:111-115 | offsets in the index are lengths of what precedes them |
| MetricBytes.MetricWriter.constructor | sentinel-core/log/metric/metric_writer.cc:31-53 | a writer begins at the current second with nothing written |
| MetricBytes.MetricWriter.Write | sentinel-core/log/metric/metric_writer.cc:55-92 | the bytes after a call are those of the specified log |
| MetricBytes.MetricWriter.DoWrite | sentinel-core/log/metric/metric_writer.cc:94-103 | appends the records and starts a new file at the size limit |
| MetricBytes.MetricWriter.RemoveMoreFiles | sentinel-core/log/metric/metric_writer.cc:280-296 | deletes exactly the surplus oldest files |
| MetricBytes.MetricWriter.CloseAndNewFile | sentinel-core/log/metric/metric_writer.cc:221-234 | deletes the surplus, then opens an empty file with an empty index |
| MetricBytes.MetricWriter.WriteIndex | sentinel-core/log/metric/metric_writer.cc:111-115 | adds one index entry to the file in use |
| MetricBytes.SetTimestamps | sentinel-core/log/metric/metric_writer.cc:59-63 | every item gets the time of the call |
| MetricReader.GetLine | sentinel-core/log/metric/metric_reader.cc:95-96 | the text up to the next line break or the end of the file |
| MetricReader.ReadItem | sentinel-core/log/metric/metric_reader.cc:95-97 | the next line of written data parses to the next record as stored |
| MetricReader.FindOffset | sentinel-core/log/metric/metric_searcher.cc:37-75 | the first index entry of a second not before the begin, or -1, whatever the uninitialised variable holds |
| MetricReader.OffsetIsAfter | sentinel-core/log/metric/metric_searcher.cc:53-64 | that offset is where the records behind the index entry begin |
| MetricReader.ReadMetricsInOneFileByEndTime | sentinel-core/log/metric/metric_reader.cc:80-121 | reads on through one file as specified and says whether to go on |
| MetricReader.ReadMetricsByEndTime | sentinel-core/log/metric/metric_reader.cc:59-78 | continues into later files from their start until a file says stop |
| MetricReader.ReadMetricsInOneFile | sentinel-core/log/metric/metric_reader.cc:25-57 | reads one file up to the line limit and past it within a second |
| MetricReader.ReadMetrics | sentinel-core/log/metric/metric_reader.cc:10-23 | continues into later files while the limit is not reached |
| MetricReader.FindFile | sentinel-core/log/metric/metric_searcher.cc:129-137 | the first file with an index entry of a second not before the begin |
| MetricReader.FindByTimeAndResource | sentinel-core/log/metric/metric_searcher.cc:113-145 | the search on bytes returns what the specified search returns |
| MetricReader.Find | sentinel-core/log/metric/metric_searcher.cc:81-111 | the search by lines on bytes returns what the specified one returns |
| MetricReader.SearcherSeesWriterOrder | sentinel-core/log/metric/metric_searcher.cc:117-118 | the listing a searcher reads is the writer's file order, and the next file name is fresh |
| MetricSearch.AfterIsSince | sentinel-core/log/metric/metric_searcher.cc:37-75 | starting at the index entry finds what a full scan from that second finds |
| MetricSearch.FindRangeReadsOn | sentinel-core/log/metric/metric_searcher.cc:129-144 | file borders do not matter to a range search |
| MetricSearch.ReadRangeIsFilter | sentinel-core/log/metric/metric_reader.cc:80-121 | reading until a later second or the line limit is filtering, cut at 100000 records |
| MetricSearch.RangeSearchIsExact | sentinel-core/log/metric/metric_searcher.cc:113-145 | with no file deleted, a range search returns the first 100000 matching records of everything written, over day and size rollovers |
| MetricSearch.RangeSearchAfterDeletions | sentinel-core/log/metric/metric_writer.cc:280-296 | after deletions it misses only retained records in front of the first retained index entry, all of one second; files number at most total_file_count + 1 |
| MetricSearch.DeletionHidesRecords | sentinel-core/log/metric/metric_writer.cc:73-103 | such records exist, whatever number of files is kept: when every record reaches the size limit, rollovers within a second and one deletion leave no retained record that either search finds |
| MetricSearch.ReadLinesIsPrefix | sentinel-core/log/metric/metric_reader.cc:25-57 | one file: a prefix, stopped by a change of second at the limit |
| MetricSearch.LineSearchIsPrefix | sentinel-core/log/metric/metric_searcher.cc:81-111 | with no file deleted, Find returns a prefix of the records from the second on, at least the number asked for, beyond it one second only |
| MetricSearch.LineSearchAfterDeletions | sentinel-core/log/metric/metric_writer.cc:280-296 | after deletions Find returns a prefix of the retained records behind the first retained index entry; what is in front of it is of one second |
| Ring.CurrentTracks | sentinel-core/statistic/base/leap_array.h:73-104 | refreshing keeps every slot the fold of the events of its latest bucket id |
| Ring.ModifyTracks | sentinel-core/statistic/base/leap_array.h:73-104 | so does recording an event in the current bucket |
| Ring.LiveIff | sentinel-core/statistic/base/leap_array.h:127-130 | the non-strict expiry test admits exactly the bucket ids in the window |
| Ring.HorizonShows | sentinel-core/statistic/base/leap_array.h:127-130 | in sight is what started no more than the interval ago and whose slot has not been taken by the refresh |
| Ring.SlotsPartitionEvents | sentinel-core/statistic/base/leap_array.h:107-112 | every event in sight belongs to one slot |
| Ring.LiveSumIsEventSum | sentinel-core/statistic/base/leap_array.h:160-175 | the live buckets weigh exactly what the events in sight weigh, at the moment of refreshing or later |
| Ring.LiveIsInSight | sentinel-core/statistic/base/leap_array.h:142-158 | each live bucket is a bucket id in sight with all its events |
| Ring.InSightIsLive | sentinel-core/statistic/base/leap_array.h:142-158 | every event in sight is in a live bucket |
| Ring.StaleBucketIsLive | sentinel-core/statistic/base/leap_array.h:127-130 | whenever interval % samples is at least a bucket length, some run counts a bucket outside the window |
| LeapArray.LeapArray.constructor | sentinel-core/statistic/base/leap_array.h:19-25 | a new array has the given number of empty slots |
| LeapArray.LeapArray.CurrentWindow | sentinel-core/statistic/base/leap_array.h:73-104 | creates, keeps or resets the slot in place; a window in no slot for a time behind; null for a negative time |
| LeapArray.LeapArray.Update | sentinel-core/statistic/base/sliding_window_metric.cc:69-92 | an update of the current bucket, lost when the time is behind |
| LeapArray.LeapArray.Buckets | sentinel-core/statistic/base/leap_array.h:142-158 | the live windows in slot order |
| LeapArray.LeapArray.Values | sentinel-core/statistic/base/leap_array.h:160-175 | the live values in slot order |
| SlidingWindow.ShownSum | sentinel-core/statistic/base/sliding_window_metric.cc:11-21 | the sum over the live buckets is the sum over the events in sight |
| SlidingWindow.DetailIsTally | sentinel-core/statistic/base/sliding_window_metric.cc:94-124 | the item of a bucket holds the sum of the pass, block, exception and complete events of its id, and their average response time |
| SlidingWindow.MinRtIsShortest | sentinel-core/statistic/base/sliding_window_metric.cc:55-67 | the least bucket minimum is the shortest response time in sight, at most 4900 |
| SlidingWindow.MaxCompleteIsMost | sentinel-core/statistic/base/sliding_window_metric.cc:31-43 | the largest bucket total is the most completions of one bucket id in sight |
| SlidingWindow.BucketMinRt | sentinel-core/statistic/base/metric_bucket.cc:29-35 | a bucket's minimum is that of its events, or the longest allowed |
| SlidingWindow.SlidingWindowMetric.GetSum | sentinel-core/statistic/base/sliding_window_metric.cc:11-21 | returns what was added at the times that a window refreshed at one clock reading and read at the next shows |
| SlidingWindow.SlidingWindowMetric.MinRt | sentinel-core/statistic/base/sliding_window_metric.cc:55-67 | returns the shortest response time in sight, at least 1 |
| SlidingWindow.SlidingWindowMetric.MaxComplete | sentinel-core/statistic/base/sliding_window_metric.cc:31-43 | returns the most completions of one bucket in sight, at least 1 |
| SlidingWindow.SlidingWindowMetric.AddPass | sentinel-core/statistic/base/sliding_window_metric.cc:84-87 | records the passes at the time of the call |
| SlidingWindow.SlidingWindowMetric.AddBlock | sentinel-core/statistic/base/sliding_window_metric.cc:74-77 | records the blocks |
| SlidingWindow.SlidingWindowMetric.AddException | sentinel-core/statistic/base/sliding_window_metric.cc:69-72 | records the exceptions |
| SlidingWindow.SlidingWindowMetric.AddComplete | sentinel-core/statistic/base/sliding_window_metric.cc:79-82 | records the completions |
| SlidingWindow.SlidingWindowMetric.AddRt | sentinel-core/statistic/base/sliding_window_metric.cc:89-92 | records a response time in sum and minimum |
| SlidingWindow.SlidingWindowMetric.Details | sentinel-core/statistic/base/sliding_window_metric.cc:94-124 | one item for each bucket in sight: each counter is the sum of its own events, the response time their sum divided by the completions toward zero |
| StatisticNode.StatisticNode.PassQps | sentinel-core/statistic/node/statistic_node.cc:30-33 | passes the window shows, per second of its interval |
| StatisticNode.StatisticNode.AddPassRequest | sentinel-core/statistic/node/statistic_node.cc:110-113 | both windows record the passes |
| StatisticNode.StatisticNode.AddBlockRequest | sentinel-core/statistic/node/statistic_node.cc:124-127 | both windows record the blocks |
| StatisticNode.StatisticNode.IncreaseThreadNum | sentinel-core/statistic/node/statistic_node.cc:134 | the 32-bit counter goes up, wrapping around |
| StatisticNode.StatisticNode.DecreaseThreadNum | sentinel-core/statistic/node/statistic_node.cc:136 | the 32-bit counter goes down, wrapping around |
| StatisticNode.StatisticNode.Metrics | sentinel-core/statistic/node/statistic_node.cc:83-100 | the completed seconds after the last fetch, each with what its events add up to, none with activity missing, and the fetch time advanced |
| StatisticNode.SelectItems | sentinel-core/statistic/node/statistic_node.cc:91-99 | the loop keeps the selected items by second and the largest of their times |
| StatisticNode.StatisticNode.Reset | sentinel-core/statistic/node/statistic_node.cc:138-142 | a fresh one-second window; the minute window and the thread counter stay |
| StatisticNode.DoCheck | sentinel-core/flow/default_traffic_shaping_checker.cc:7-18 | refuses if and only if threads and count exceed the threshold, or 1000 * passes shown + count * interval exceeds threshold * interval |
| QpsLimit.CheckedSum | sentinel-core/flow/default_traffic_shaping_checker.cc:14-16 | a check that passes leaves the window within its allowance |
| QpsLimit.StepWithinAllowance | sentinel-core/statistic/node/statistic_node.cc:30-33 | no step takes any window of consecutive buckets beyond the allowance |
| QpsLimit.RunWithinAllowance | sentinel-core/flow/default_traffic_shaping_checker.cc:7-18 | in every sequential run any n consecutive buckets hold at most c * max(I, 1000) / 1000 tokens |
| QpsLimit.QuotaHoldsIff | sentinel-core/flow/default_traffic_shaping_checker.cc:14-16 | every run stays within c * I / 1000 if and only if I is at least 1000 ms or the whole tokens of c already fit |
| QpsLimit.SpanWithinAllowance | sentinel-core/flow/default_traffic_shaping_checker.cc:7-18 | so does any span of n - 1 bucket lengths, wherever it begins |
| QpsLimit.RefusedIff | sentinel-core/flow/default_traffic_shaping_checker.cc:7-18 | in every run an entry that all others let pass is refused if and only if 1000 * the passes its window shows + its count * interval exceeds threshold * interval |
| MetricsOnce.EverySecondOnce | sentinel-core/statistic/node/statistic_node.cc:71-100 | every completed second with activity is handed out exactly once, each counter the sum of that second's own events, never one in progress |
| MetricsOnce.CallHandsOut | sentinel-core/statistic/node/statistic_node.cc:83-100 | one call hands out exactly the active seconds completed since the previous call, with those sums |
| MetricsOnce.GapsOf59Seconds | sentinel-core/statistic/node/statistic_node.cc:83-100 | calls at most 59 s apart are frequent enough |
| MetricsOnce.LateCallLosesASecond | sentinel-core/statistic/node/statistic_node.cc:83-100 | a call in the 60th second or later after the one before loses a second, even at a gap of 59001 ms |
| SlotChain.ChainOutcome | sentinel-core/slot/base/default_slot_chain_impl.cc:17-28 | the chain answers with the first blocker's result or Ok, and exactly one outcome is recorded on node and inbound node |
| SlotChain.ChainExitOutcome | sentinel-core/slot/statistic_slot.cc:102-131 | an exit through the chain is one exit of the statistic slot |
| SlotChain.CheckersDecide | sentinel-core/slot/base/rule_checker_slot.h:12-18 | the first verdict that is not Ok decides, and no rule checker behind it is asked |
| SlotChain.FirstVerdictIsLastAsked | sentinel-core/slot/base/rule_checker_slot.h:12-18 | the deciding verdict is that of the last checker asked |
| SphU.ChainEntry | sentinel-core/slot/base/default_slot_chain_impl.cc:17-28 | the loop over the slots |
| SphU.ChainExit | sentinel-core/slot/base/default_slot_chain_impl.cc:30-35 | the loop over the slots on exit |
| SphU.Sentinel.Entry | sentinel-core/public/sph_u.h:55-86 | bypasses when deactivated, blocks with the first reason after running the exits, else holds the entry; conservation is kept unless a reason is empty |
| SphU.Sentinel.Exit | sentinel-core/common/entry_result.cc:10-25 | the exits run once; a second call changes nothing and returns false |
| Conservation.EnterOutcome | sentinel-core/slot/statistic_slot.cc:40-79 | what an activated entry does to counters and entries, for every list of verdicts |
| Conservation.PassConserves | sentinel-core/slot/statistic_slot.cc:40-59 | a passed entry adds one thread and its tokens |
| Conservation.BlockConservesIff | sentinel-core/slot/statistic_slot.cc:61-79 | a blocked entry keeps the balance if and only if its reason is not empty |
| Conservation.ExitConserves | sentinel-core/common/entry_result.cc:10-25 | an exit takes back one thread, any other exit nothing |
| Conservation.ExitTwice | sentinel-core/common/entry_result.cc:10-25 | exiting again changes nothing |
| Conservation.BypassConserves | sentinel-core/public/sph_u.h:59-62 | an entry made while switched off is in no counter |
| Conservation.RunConserves | sentinel-core/slot/base/default_slot_chain_impl.cc:17-35 | over every run, switch and repeated exits included, thread counters equal entries in progress and passed plus blocked tokens equal the activated ones |
| Conservation.TokensByOutcome | sentinel-core/slot/statistic_slot.cc:16-38 | over every run, for each resource and for all inbound entries, passed, blocked, completed and exception counters each equal the tokens with that outcome |
| Conservation.ThreadRuleRefusesIff | sentinel-core/flow/default_traffic_shaping_checker.cc:7-18 | in every run a thread-count rule refuses if and only if the entries in progress and the count are more than the threshold |
| Conservation.ThreadsWithinRule | sentinel-core/flow/default_traffic_shaping_checker.cc:7-18 | a thread-count rule in force from the start bounds the requests in progress |
| BreakerSpec.CompleteKnows | sentinel-core/circuitbreaker/error_circuit_breaker.cc:37-69 | every completion keeps the counters in step with the log of completions |
| BreakerSpec.BucketIsRecent | sentinel-core/circuitbreaker/error_circuit_breaker.cc:32-45 | the current bucket counts the completions of its interval since the last recovery |
| BreakerSpec.OpensIff | sentinel-core/circuitbreaker/error_circuit_breaker.cc:60-84 | a closed breaker opens on a completion if and only if the recent completions are at least min_request_amount and the bad ones more than the threshold, or their share of them is, as long as their interval has not expired when they are summed |
| BreakerSpec.TripsIff | sentinel-core/circuitbreaker/error_circuit_breaker.cc:37-84 | so after every run from the start, the slow or failed ones counted from the completions of the calls since the last recovery |
| BreakerSpec.TripsInNumbers | sentinel-core/circuitbreaker/error_circuit_breaker.cc:60-69 | the comparison with the minimum number of requests and the threshold, in numbers |
| BreakerSpec.PassesIff | sentinel-core/circuitbreaker/error_circuit_breaker.cc:21-30 | after every run a request passes if and only if the breaker is closed, or open for at least the retry timeout, which makes it half-open |
| BreakerSpec.CompletionDecides | sentinel-core/circuitbreaker/error_circuit_breaker.cc:47-59 | after every run a failure opens a half-open breaker, anything else closes it, and an open one stays |
| BreakerSpec.ExceedsIsRatio | sentinel-core/circuitbreaker/rt_circuit_breaker.cc:66-68 | comparing without dividing is comparing the ratio with the threshold |
| BreakerSpec.RecoveryForgets | sentinel-core/circuitbreaker/error_circuit_breaker.cc:32-35 | after a good probe nothing logged before counts |
| BreakerSpec.RatioOneNeverTrips | sentinel-core/circuitbreaker/rt_circuit_breaker.cc:66-68 | a ratio threshold of 1 never trips |
| CircuitBreaker.CircuitBreaker.TryPass | sentinel-core/circuitbreaker/error_circuit_breaker.cc:21-30 | the admission decision and its transition to half-open |
| CircuitBreaker.CircuitBreaker.RecordComplete | sentinel-core/circuitbreaker/error_circuit_breaker.cc:37-45 | records the completion whatever the state, then changes state as specified, with a clock reading for the counter, the sums and the retry time or reset |
| CircuitBreaker.CircuitBreaker.HandleStateChange | sentinel-core/circuitbreaker/error_circuit_breaker.cc:47-84 | the three cases of a completion |
| CircuitBreaker.CircuitBreaker.SumUp | sentinel-core/circuitbreaker/error_circuit_breaker.cc:59-64 | the loop over the live counters |
| CircuitBreaker.CircuitBreaker.FromCloseToOpen | sentinel-core/circuitbreaker/circuit_breaker.cc:22-29 | opens only from closed and then sets the retry time |
| CircuitBreaker.CircuitBreaker.FromHalfOpenToOpen | sentinel-core/circuitbreaker/circuit_breaker.cc:36-43 | opens only from half-open and then sets the retry time |
| CircuitBreaker.CircuitBreaker.FromHalfOpenToClose | sentinel-core/circuitbreaker/circuit_breaker.cc:45-52 | closes only from half-open and then resets the current counters |
| BreakerRuns.CheckAllShape | sentinel-core/circuitbreaker/slot.cc:11-25 | a request passes when no breaker refuses; those before the first refusal have been asked all the same |
| BreakerRuns.NoWedge | sentinel-core/circuitbreaker/slot.cc:11-64 | with one breaker, a half-open state always has the request that opened the probe in flight |
| BreakerRuns.ProbesAreSpaced | sentinel-core/circuitbreaker/circuit_breaker.cc:14-52 | every probe starts at least the retry timeout after the latest opening and after the previous probe, also among several breakers that each read the clock |
| BreakerRuns.ExitEndsHalfOpen | sentinel-core/circuitbreaker/slot.cc:46-64 | any completion takes every half-open breaker of the resource out of that state |
| BreakerRuns.StuckForever | sentinel-core/circuitbreaker/slot.cc:11-64 | a half-open breaker with nothing in flight refuses everything forever |
| BreakerRuns.GetsStuckIff | sentinel-core/circuitbreaker/slot.cc:19-23 | a call gets a resource stuck exactly when it is an entry with nothing in flight that turns the breaker half-open and is refused by a later one |
| BreakerRuns.EndsStuckIff | sentinel-core/circuitbreaker/slot.cc:11-64 | a run ends stuck exactly when one of its entries did that |
| BreakerRuns.CanGetStuckIff | sentinel-core/circuitbreaker/slot.cc:19-23 | some run from the start gets stuck on a breaker if and only if it and a breaker behind it can trip at all, a ratio threshold of 1 being the one that cannot |
| BreakerRuns.TwoBreakersGetStuck | sentinel-core/circuitbreaker/slot.cc:19-23 | no slow call is needed: two breakers with different retry timeouts and one failed request get there |
| BreakerRacesAlone.TryAlone | sentinel-core/circuitbreaker/error_circuit_breaker.cc:21-30 | a TryPass that nobody interferes with does and returns what the whole call does, whichever of clock and timestamp is read first |
| BreakerRacesAlone.CompleteAlone | sentinel-core/circuitbreaker/error_circuit_breaker.cc:37-84 | a RecordComplete that nobody interferes with leaves the state and timestamp of the whole call |
| BreakerRacesAlone.ChangesAreSwaps | sentinel-core/circuitbreaker/circuit_breaker.cc:22-52 | the state changes at a compare-and-swap and nowhere else, from the state it expects |
| BreakerRacesAlone.StaleCompletionEndsProbe | sentinel-core/circuitbreaker/error_circuit_breaker.cc:71-83 | a completion that began before the breaker had ever opened can end the probe of another caller |
| BreakerRaces.PassesAreTransitions | sentinel-core/circuitbreaker/error_circuit_breaker.cc:21-30 | in every interleaving the passes given to callers that had read Open and the transitions to half-open belong together one to one, up to passes about to be returned |
| BreakerRaces.OneExitBetweenProbes | sentinel-core/circuitbreaker/circuit_breaker.cc:31-52 | between two such transitions lies exactly one exit from half-open, stale completions included |
| BreakerRaces.ProbesBalance | sentinel-core/circuitbreaker/error_circuit_breaker.cc:71-83 | there is one more transition than exits exactly while the breaker is half-open, and as many otherwise |
| BreakerRaces.EveryRunKeepsTimes | sentinel-core/circuitbreaker/circuit_breaker.cc:14-20 | every timestamp, stored or on its way, lies a retry timeout behind a clock reading made between two known openings |
| BreakerRaces.ProbeIsOnTimeIff | sentinel-core/circuitbreaker/circuit_breaker.cc:14-29 | the check behind a probe has waited for a retry timeout after the latest opening if and only if the timestamp it saw was computed since then, or in the same millisecond; the ways it can miss are three |
| BreakerRaces.MissingStoreIsComing | sentinel-core/circuitbreaker/circuit_breaker.cc:22-29 | while no timestamp computed since the latest opening is stored, its opener is between its swap and its store |
| BreakerRaces.ProbeBeforeTheStore | sentinel-core/circuitbreaker/circuit_breaker.cc:22-29 | first way: a probe at the moment of the opening, before the timestamp is stored |
| BreakerRaces.ProbeAfterReopening | sentinel-core/circuitbreaker/circuit_breaker.cc:31-43 | second way: a probe at the moment of a reopening that overtook its check |
| BreakerRaces.ProbeAfterOverwriting | sentinel-core/circuitbreaker/circuit_breaker.cc:17-20 | third way: a probe less than a timeout after a reopening whose timestamp an opener held up since an earlier opening has overwritten |
| BreakerRaces.ProbesAreOnTimeIff | sentinel-core/circuitbreaker/circuit_breaker.cc:14-29 | in all runs every probe starts at least the retry timeout after the latest opening if and only if the breaker has one thread at most or the timeout is 0 |
| Throttling.ThrottlingChecker.DoCheck | sentinel-core/flow/throttling_traffic_shaping_checker.cc:9-41 | the call with its three readings of the clock |
| Throttling.SecondCheckIsIdle | sentinel-core/flow/throttling_traffic_shaping_checker.cc:32-36 | blocking and the schedule do not depend on the second timeout check when the clock does not go back |
| Throttling.WaitEndsOnSchedule | sentinel-core/flow/throttling_traffic_shaping_checker.cc:26-41 | the exact decision: blocked if and only if its place, its cost after the last one or now, lies ahead by more than the timeout; otherwise the schedule moves to just that place, and the wait ends there |
| Throttling.NothingToSchedule | sentinel-core/flow/throttling_traffic_shaping_checker.cc:11-16 | a negative count passes and a threshold that is not positive blocks, neither with a place |
| Throttling.RunIsTight | sentinel-core/flow/throttling_traffic_shaping_checker.cc:9-41 | over every run each accepted request is scheduled its cost after the one before, or at its own time, whichever is later |
| Throttling.EarliestSchedule | sentinel-core/flow/throttling_traffic_shaping_checker.cc:9-41 | no other schedule that keeps the costs apart and precedes no arrival has any accepted request sooner |
| Throttling.RunIsSchedule | sentinel-core/flow/throttling_traffic_shaping_checker.cc:9-41 | and the accepted requests do have such a schedule |
| Throttling.AcceptedMoves | sentinel-core/flow/throttling_traffic_shaping_checker.cc:18-31 | an accepted request moves the schedule by at least its cost |
| Throttling.CostBounds | sentinel-core/flow/throttling_traffic_shaping_checker.cc:18 | the rounded cost is within half a millisecond of the exact one, halves going up |
| Throttling.Pacing | sentinel-core/flow/throttling_traffic_shaping_checker.cc:9-41 | accepted requests i < j are scheduled at least the costs of i + 1 to j apart |
| Throttling.ScheduleWithinTimeout | sentinel-core/flow/throttling_traffic_shaping_checker.cc:26-31 | the schedule is never before the run and never further ahead of the clock than the timeout |
| Throttling.TokensBetween | sentinel-core/flow/throttling_traffic_shaping_checker.cc:9-41 | tokens of the accepted requests i + 1 to j are at most threshold * (their distance on the schedule + half a millisecond per request) / 1000 |
| Throttling.TokensBounded | sentinel-core/flow/throttling_traffic_shaping_checker.cc:9-41 | tokens accepted after the first are at most threshold * (elapsed + timeout + half a millisecond per request) / 1000, from any uninitialised start |

## Left out

- HTTP command centre, event loop, handlers, JSON, datasource extension, loggers, block log and `/proc` parsing: I/O around the modelled core.
- Rule managers, rule validation and hashing, the system-rule fold and configuration maps: loaded rules are taken as valid.
- 64-bit overflow of counters and times, and floating-point rounding other than `std::round` in the throttling checker: integers and reals are exact. Thread counters wrap at 32 bits in StatisticNode; Conservation shows they never get there from below.
- TBB hash maps are mathematical maps. Accessor blocking is ignored in LruConcurrent, which only allows more interleavings; LruConcurrentBlocking has it for `insert`, `increase` and `find`, with exclusive locks, but not for callers that keep an accessor after the call.
- Concurrent `clear` of the cache, concurrent bucket resets of the leap array and concurrent throttling: the exact claims hold for sequential calls.
- LeapArray.LeapArray.CurrentWindow: windows and buckets are values in the slots, so a caller that keeps a window beyond its recycling, and the retry loop when the lock is taken, are not captured.
- ScalableCache.ShardRunsAlone: shards are values of LruSpec, which the heap class LruCache refines one by one; the vector of shard objects is not built on the heap.
- ParamCounters.ParamMetric.Add: windows are addressed records, so sharing between the two maps is explicit, but their buckets are values.
- Parameter thread counts (`AddThreadCount`, `DecreaseThreadCount`): across rule loads a decrement can create a negative entry, so no law holds.
- `snapshotPairs`, `GetTopPassParamCount`, `ThreadSafeScalableCache::size`: the last two have no meaningful result (a reference to a temporary, an uninitialised sum).
- `MetricWriter::Close`: nothing in the library calls it; a run is one writer from construction on, in a directory without files of its own name, constructed at second 1 or later.
- MetricBytes.MetricWriter.CloseAndNewFile: a file is identified by its day and number; that NextFileNameOfDay yields that name, and that listing and sorting restores their order, are lemmas about the text of names (fewer than 2^31 - 1 files a day).
- MetricReader.FindOffset: the index file is a sequence of pairs, not text, and the cached search position is not modelled (its second stays -1, which no index entry has, so every search that compares a second it has read starts from the first file).
- MetricReader.ReadItem: files hold writer output only; a line that does not parse is dereferenced as null by the source. Resource names have no line breaks.
- Time zones and date formatting: the date of a second is any non-decreasing function into ten-character dates, the printed time any text without bars and line breaks.
- ParamMetric.InitializeLinks: rules have at least one sample and buckets of at least a millisecond; for others the first use of the window divides by zero.
- ParamMetric.RunKeeps: the same restriction on the rules of a run.
- ParamCounters.ParamMetric.InitializeForRule: the same; the thread-count caches it also creates are left out with the thread counts.
- ParamQuota.QuotaHoldsIff: entries come one after the other and the rules stay; rules on thread counts are part of `othersPass`, and tokens are not negative. Thresholds are whole numbers, as the code cuts them.
- MetricsOnce.EverySecondOnce: the result map of Metrics is a list of items; StatisticNode.StatisticNode.Metrics ties the map to that list.
- Tag nodes and contexts shared between entries: one context per entry; conservation is proved for resource nodes and the inbound node.
- SphU.Sentinel.Entry: the nodes of tags and the parameter counters of the statistic slot are not part of its state; ParamFlow has the parameter counters.
- SlotChain.ChainOutcome: the rule checkers' verdicts are parameters; FlowSlot's rule matching, SystemSlot and the decisions other than the default check, the throttling check, the parameter check and the breakers are not modelled, nor the wait itself.
- BreakerRuns.NoWedge: a request that passes is taken to be exited at some time by its caller; nothing is claimed about one that never is.
- BreakerRaces.ProbeIsOnTimeIff: the retry timestamp is a plain 64-bit field in the source; the model takes every access to it as one step. The counters are not modelled there: a completion may find any of their comparisons true or false.
- CircuitBreaker.CircuitBreaker.HandleStateChange: the repeated loads of the state between checks are one load in sequential calls; BreakerRaces has them apart.
