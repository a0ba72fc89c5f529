# Verified models of the framework's core algorithms

This project models the parts of a Go web framework in which a complicated implementation stands for a simple
idea, and proves that the implementation means what the idea says. It has six parts.

**Relation preloading.** The preloader replaces one query per parent by batched `IN` queries, regroups the rows by a
joined string key, takes two hops through a mapping table for many-to-many relations, and recurses along a dotted
path. The model has tables as sequences of rows, queries as filters in table order, and parents as mutable row
objects whose relation fields are written in place. It is proved to refine a nested-loop join, with the exact
condition under which batching duplicates children, and a bound on the number of queries. The resolver that chooses
the direction and the columns of a relation is modelled with it.

**The cross-process file cache.** The shard lock is a step system of processes, threads, inodes, kernel locks and
per-process mutexes, with crashes and cache flushes at any step; mutual exclusion and conservation of increments are
proved over all runs. Counters come back through JSON as float64 numbers, so conservation has an exact condition.
The tag index, replicated in every process's memory and on disk, is a second system, whose operations are also given
as methods on a shared directory and proved equal to the system's functions.

**The struct-tag language.** A character-level tokenizer with quotes, escapes and parentheses, the token dispatch
with its one- and two-token forms, and the recursive walk over a possibly cyclic graph of embedded types. Printing
and tokenizing undo each other, printing a field's meta and parsing it undo each other, and the walk finds exactly
the described fields, or reports a cycle exactly when there is one.

**Time-ordered IDs.** A generator that survives clocks set back and sequence overflow, its order-preserving text
form, and the lenient parser.

**The in-memory cache and the rate limiter.** Hash shards refine one flat timed map; sweeps are never seen; tags are
what the history of calls says; the limiter on top is a fixed window per key, with its bounds.

**The worker queue and three small algorithms.** The queue is a step system of producers, workers and callers of
Stop. Beside it stand forest building, flattening and unflattening of nested maps, and Chinese capital numerals.

Where the source works step by step the model does too: classes with fields, arrays and loops, each proved against a
function, and the properties are then proved about that function or about whole runs.

## What turned out different from what is promised

Each of these is kept as the code has it, with a member that gives an input and one that gives the exact condition.

- Composite keys are not deduplicated before batches of 500 are formed: a tuple that occurs in two batches gets its
  children twice (`PreloadSpec.DuplicateAcrossBatches`, `PreloadSpec.PreloadRefinesNestedLoop`).
- Two different composite keys can join to the same string when a text component contains U+001F
  (`JoinKeys.SeparatorCollision`, `JoinKeys.NoCollisionIff`, `JoinKeys.RecuttableCases`).
- Many-to-many preloading panics when there are keyed parents but no mapping row, because the length of a result list
  that was never made is taken (`PreloadEngine.Many2ManyPanics`, `PreloadEngine.PreloadMany2Many`, and for whole paths `PreloadPath.PreloadLevel`).
- A failing write of the lock's metadata removes the lock file, which breaks mutual exclusion
  (`ShardLock.MetaFailureBreaksExclusion`, `ShardLock.ExclusionIff`).
- Increments beyond 2^53 can be lost, and sums beyond 64 bits wrap around (`ShardLock.LostIncrement`,
  `ShardLock.WrappedIncrement`, `ShardLock.ConservedIff`).
- The empty key survives a tagged flush by a process that does not remember it (`TagIndex.EmptyKeySurvives`,
  `TagIndex.TaggedFlushRemoves`).
- IDs stop increasing when the clock passes a multiple of 2^50 ms (`IdGenerator.OrderLost`, `IdGenerator.OrderIff`).
- A limiter key that is another key with `:timer` behind it is locked out by the other's timer entry
  (`RateWindow.TimerLocksOut`, `RateWindow.OtherKeyHit`, `RateWindow.OtherKeyIff`).
- A second Stop returns while tasks are still queued (`QueuePool.SecondStopReturnsEarly`, `QueuePool.StopDrains`), and a
  producer that checked before Stop can panic on the closed channel (`QueuePool.LateSendPanics`, `QueuePool.CrashIff`),
  though not one that is already asleep on the full channel (`QueuePool.BlockedIsSafe`).
- A negative retry count, or the largest one, means that no attempt is made and no error is returned
  (`QueueTask.NegativeRetry`, `QueueTask.ExecWithRetry`).
- Unflattening does not bring empty submaps back (`NestedMap.EmptySubmapLost`, `NestedMap.UnflattenUndoesFlatten`);
  flattening what was unflattened loses leading dots and keys that others extend (`NestedMap.LeadingDotLost`,
  `NestedMap.ExtendedKeyLost`, `NestedMap.FlattenUndoesUnflatten`).
- Amounts of 10^18 fen and more index the big units out of range (`CapitalsReader.TooLarge`,
  `CapitalsReader.ReadUndoesPrint`).

## Model

| member | source | states |
|---|---|---|
| JoinKeys.RenderFaithful | database/preload/reflect.go:139-145 | two comparable key values render to the same text only if they are equal |
| JoinKeys.SameKeySameParts | database/preload/reflect.go:139-145 | joined keys of tuples of one width are equal exactly when the texts between their separators are |
| JoinKeys.JoinKeyFaithful | database/preload/reflect.go:139-145 | joined keys of comparable tuples are equal exactly when the tuples are; for different composite tuples it is enough that one of them has no separator in it or cannot be cut elsewhere |
| JoinKeys.NoCollisionIff | database/preload/reflect.go:139-145 | a key without nil, of any mix of text and number columns, has its joined key for itself alone exactly when no two of its texts with only numbers between them can be cut elsewhere at separators so that the numbers stay numbers |
| JoinKeys.RecuttableCases | database/preload/reflect.go:139-145 | a key with at most one text column, or without the separator, can never be cut elsewhere; a composite key of texts can exactly when it has the separator in a component |
| JoinKeys.Recut | database/preload/reflect.go:139-145 | for every key that can be cut elsewhere, another one of the same columns with the same joined key |
| JoinKeys.SeparatorCollision | database/preload/reflect.go:139-145 | different tuples with a separator in a component can have one joined key |
| PreloadSpec.BatchesIsCeiling | database/preload/engine.go:301-324 | the number of batches is the tuples divided by 500, rounded up |
| PreloadSpec.GroupOfBatches | database/preload/engine.go:301-324 | what a batched composite load gives one key is its children once per batch that holds the key |
| PreloadSpec.HeldOnceIff | database/preload/engine.go:301-324 | a key is in one batch only exactly when its occurrences do not straddle a batch boundary |
| PreloadSpec.PreloadRefinesNestedLoop | database/preload/engine.go:125-189 | a keyed parent gets exactly its nested-loop children in table order, repeated once per batch holding its key; the first child is right in any case; equal to the nested loop exactly when there is no straddling, a single column, or no child |
| PreloadSpec.NoStraddle | database/preload/engine.go:301-324 | distinct keys, or at most one batch of them, never straddle |
| PreloadSpec.DuplicateAcrossBatches | database/preload/engine.go:301-324 | 501 parents with one composite key get its only child twice |
| PreloadSpec.RefTuplesDistinct | database/preload/engine.go:205-229 | the referenced keys collected for the second hop are pairwise different, and so are their joined keys |
| PreloadSpec.BatchesPermute | database/preload/engine.go:301-324 | with distinct keys, batching only reorders the rows |
| PreloadSpec.Many2ManyIsJoin | database/preload/engine.go:194-273 | a keyed parent gets exactly the children a mapping row links to it, none twice for duplicate mapping rows; in table order for single-column child keys or a single batch, as a multiset otherwise |
| PreloadEngine.CollectParentKeys | database/preload/engine.go:445-471 | every parent without a zero key, with its key tuple, in row order; equal keys are all kept |
| PreloadEngine.LoadChildren | database/preload/engine.go:279-326 | one query for a single column, one per 500 tuples for composite keys, and the rows they return in order |
| PreloadEngine.LoadJoinMappings | database/preload/engine.go:331-364 | the mapping rows of the parents' keys, batched likewise |
| PreloadEngine.SetSlice | database/preload/reflect.go:90-117 | the field becomes a non-nil slice of the group in order: the very rows for pointer elements, new copies for value elements; no other field changes |
| PreloadEngine.SetSingle | database/preload/reflect.go:120-134 | the field holds the group's first row, itself or a copy, and is left alone when there is none |
| PreloadEngine.GroupByKey | database/preload/engine.go:168-175 | for each joined key the loaded rows with that key, in loaded order |
| PreloadEngine.PreloadDirect | database/preload/engine.go:125-189 | one has/belongs level: parents with a zero key unchanged, every other given the rows its joined key selects, in the caller's own row objects, with the exact number of queries |
| PreloadEngine.IndexMappings | database/preload/engine.go:205-229 | the referenced keys per parent key, and the distinct referenced tuples |
| PreloadEngine.PickLinked | database/preload/engine.go:239-264 | the loaded rows whose key is among those linked, each once, in loaded order |
| PreloadEngine.PreloadMany2Many | database/preload/engine.go:194-273 | one many-to-many level, likewise; panics exactly when parents are keyed and no mapping row is found, before the second hop's queries and leaving the rows unchanged |
| PreloadEngine.Many2ManyPanics | database/preload/engine.go:231-248 | one row with an id and an empty mapping table: the preload panics |
| PreloadPath.DirectIsFaithful | database/preload/engine.go:125-189 | what PreloadDirect gives is the nested loop, repeated as often as batches hold the parent's key |
| PreloadPath.Many2ManyIsFaithful | database/preload/engine.go:194-273 | what PreloadMany2Many gives is the join through the mapping table, in table order for a single column or a single batch |
| PreloadPath.FillLevel | database/preload/engine.go:125-273 | one level of either kind leaves every row holding its children, also where a field was filled before, with the exact number of queries; or it panics, exactly when a many-to-many relation has keyed parents and no mapping row for them, and changes no row |
| PreloadPath.PreloadLevel | database/preload/engine.go:107-441 | a dotted path ends where its first level is blocked, by a field that does not resolve or by a many-to-many panic, and is done otherwise; every row of every level before that holds what the one-level definition asks for, given that level's keys, and nothing is filled below; only the path's fields of the caller's rows change; the number of queries is exactly the sum over the levels reached, and at most one per direct and two per many-to-many level with single-column keys |
| PreloadPath.LevelIsExact | database/preload/engine.go:125-189 | a field of a loaded level is exactly the nested loop when it is a single field, or the keys of the level are single columns, distinct, at most 500, or do not straddle |
| PreloadPath.LevelCostBound | database/preload/engine.go:420-441 | with single-column keys a path costs at most one query per direct and two per many-to-many level |
| PreloadPath.PreloadNested | database/preload/engine.go:420-441 | the remaining segments are loaded into the rows the filled fields hold, not into copies, and end as the path below ends; without such rows nothing is left to do |
| PreloadFacts.GivenMembers | database/preload/engine.go:279-395 | what either kind of level gives a keyed parent is exactly the rows of the child table whose columns hold the parent's values, or that a mapping row ties to it, that are alive (delete column NULL in time mode, 0 in integer mode), of the polymorphic type, and meet the condition |
| PreloadFacts.FieldMembers | database/preload/engine.go:125-189 | the field of a loaded row: none without a key (a key column missing, nil, 0 or empty); a slice with exactly those rows; a single field with one of them, or absent when there is none |
| PreloadFacts.LoadedBelow | database/preload/engine.go:420-441 | every row that a field of a loaded level holds, a pointer's or a copy, is itself a row of the path's next level and loaded there, without the caller's condition |
| PreloadFacts.NextInOrder | database/preload/engine.go:420-441 | the rows of the next level come parent by parent, a slice's in its order |
| RelationResolver.ToSnake | database/preload/relation.go:334-351 | computes the snake form |
| RelationResolver.SnakeIdempotent | database/preload/relation.go:331-351 | a name is left alone exactly when it has no capital letter, and converting twice is converting once |
| RelationResolver.SnakeKeepsLetters | database/preload/relation.go:334-351 | only case and underscores change |
| RelationResolver.SnakeCut | database/preload/relation.go:334-351 | a name cut in two, not between a capital and the small letter behind it, is the two snake forms, with an underscore between exactly where a capital follows a small letter or digit, or the last capital of an acronym begins a word |
| RelationResolver.SnakeWord | database/preload/relation.go:334-351 | a word with at most its first letter a capital only loses the capital |
| RelationResolver.KnownNames | database/preload/relation.go:331-351 | UserID, DeptID and HTTPServer give user_id, dept_id and http_server |
| RelationResolver.ColumnsOfOrDefault | database/preload/relation.go:300-328 | the named columns, the primary key when none are named, nothing when a name or the key is missing |
| RelationResolver.TryCandidate | database/preload/relation.go:259-295 | one direction is accepted exactly when its column lists are paired, non-empty and present on both sides |
| RelationResolver.ResolveDirectional | database/preload/relation.go:240-297 | slices prefer the child side and single fields the parent side; fails exactly when neither direction fits; the columns of the result are paired, non-empty and present |
| RelationResolver.DirectedColumns | database/preload/relation.go:240-328 | the columns of a direction: named fields' or the primary key's on the reference side; named, or parent table or field name and reference column in snake form with an underscore between, on the other |
| RelationResolver.ResolveMany2Many | database/preload/relation.go:169-184 | the mapping table columns are those of the parent and of the child, taken for both sides of each hop; fails exactly when one of the keys is missing |
| RelationResolver.ResolvePolymorphic | database/preload/relation.go:189-233 | succeeds exactly when the keys are found and pair up; the foreign key columns, named or by convention, the reference columns, the type column and the type value |
| RelationResolver.PolymorphicColumns | database/preload/relation.go:189-233 | the columns of a polymorphic association: fields called like it with ID and Type behind, or the snake form with _id and _type; the value given, or the parent's table |
| RelationResolver.Many2ManyColumns | database/preload/relation.go:169-184 | both hops of a many-to-many association are over named fields' columns or the primary keys |
| RelationResolver.ResolveTagged | database/preload/relation.go:157-165 | many-to-many before polymorphic before direction, when each of them succeeds, and exactly which columns and kind the relation then has |
| RelationResolver.ResolvedDirect | database/preload/engine.go:107-189 | what preloading asks of its keys follows for every resolved relation, whose tuples have equal widths: under hypotheses on column types and the parent's own key alone it gives the nested-loop children, once per batch that holds the key |
| RelationResolver.ResolvedMany2Many | database/preload/engine.go:194-273 | likewise a resolved many-to-many relation gives the join through the mapping table |
| Float64.ReadBackExact | cache/file_store/file_store.go:209-224 | a stored 64-bit integer comes back unchanged exactly when it is a float64 integer, or when it rounds to 2^63 and the machine converts that back to it |
| Float64.SmallIsExact | cache/file_store/file_store.go:934-946 | integers within 2^53 are float64 integers |
| Float64.RoundIsNearest | cache/file_store/file_store.go:934-946 | what is read back is the nearest float64 integer, of two equally near ones the one with an even multiple |
| ShardLock.LockInvStep | cache/file_store/file_store.go:167-180 | every step keeps: descriptors are on the path's inode, locks and mutexes belong to the threads inside |
| ShardLock.MutualExclusion | cache/file_store/cross_process_lock_unix.go:13-48 | in every reachable state with metadata writes succeeding, all open descriptors share one inode and at most one thread is in the critical section |
| ShardLock.ExclusionIff | cache/file_store/cross_process_lock.go:39-58 | exclusion holds in all runs exactly where metadata writes cannot fail |
| ShardLock.MetaFailureBreaksExclusion | cache/file_store/cross_process_lock.go:39-58 | a failing metadata write unlinks the path, and a run puts two threads in the critical section |
| ShardLock.SumStep | cache/file_store/file_store.go:492-523 | one more increment keeps the running sum exactly when the new sum is a 64-bit integer and the sum before it, if one was read, comes back unchanged |
| ShardLock.ConservedIff | cache/file_store/file_store.go:492-523 | every increment writes the running sum exactly when all sums are 64-bit integers and every sum read comes back unchanged |
| ShardLock.IncrementsConserved | cache/file_store/file_store.go:492-523 | over every interleaving with crashes, under this condition, the file holds the initial value plus all applied deltas, each update wrote its running sum in lock order, and each call returned the total of its own update |
| ShardLock.SmallSumsFit | cache/file_store/file_store.go:492-523 | sums within 2^53 meet the condition |
| ShardLock.LostIncrement | cache/file_store/file_store.go:492-523 | beyond 2^53 two increments by one can add one |
| ShardLock.WrappedIncrement | cache/file_store/file_store.go:492-523 | from 2^63 - 1024, which comes back unchanged, an increment by 1024 stores -2^63 |
| LockProgress.CallReturns | cache/file_store/file_store.go:167-180 | from every reachable state every call that has begun can return by ordinary steps of threads, without missing a deadline: no mutex and no kernel lock is left behind |
| LockProgress.GivesUp | cache/file_store/cross_process_lock_unix.go:13-48 | a thread that finds the lock taken tries again before its deadline and gives up behind it, then leaving its process's mutex free and every file as it was |
| LockProgress.FlushKeepsLocks | cache/file_store/file_store.go:465-482 | a flush removes the counters and leaves the lock file, its owners and the threads as they are |
| TagIndex.TrackFacts | cache/file_store/file_store.go:576-594 | tracking puts the key under each of its tags on disk, and removes nothing there |
| TagIndex.FlushFacts | cache/file_store/file_store.go:1003-1042 | what a tagged flush deletes and what it leaves |
| TagIndex.Reachable | cache/file_store/file_store.go:576-612 | in every reachable state a live key is on disk under every tag of its latest write, and nothing is indexed that was never written under the tag |
| TagIndex.TaggedFlushRemoves | cache/file_store/file_store.go:1003-1042 | a tagged flush by any process removes every live non-empty key whose latest write by any process went through one of the tags, and nothing never written under them |
| TagIndex.EmptyKeySurvives | cache/file_store/file_store.go:681-701 | the empty key is dropped when an index is read, so it can survive |
| FileHistory.FilesAreHistory | cache/file_store/file_store.go:443-482 | after any run of any processes a key has a cache file with a value exactly if some call left it there and none since has written or removed it: by forgetting, expiry, a flush, or a tagged flush of a group the process remembers or finds on disk |
| FileHistory.FlushedIsEmpty | cache/file_store/file_store.go:465-482 | a flush leaves no file, no index and nothing in its process's memory; other processes' memories stay |
| FileHistory.ForgottenKey | cache/file_store/file_store.go:596-612 | forgetting takes the key from every group in memory and from exactly those disk indexes the process knew it in; other keys stay |
| FileHistory.FlushedGroups | cache/file_store/file_store.go:1003-1042 | a tagged flush drops its groups; other groups the process knows lose the deleted keys, and no other key |
| FileHistory.PersistedGroup | cache/file_store/file_store.go:704-732 | persisting a tag makes its group in memory and on disk what was in either |
| FileHistory.LoadedGroups | cache/file_store/file_store.go:631-678 | starting loads, and leaves on disk, exactly the indexed keys that have a file |
| FileHistory.ProcessLifetime | cache/file_store/file_store.go:631-678 | starting gives a process exactly the indexed keys with a file, ending takes its memory; neither touches other processes or files |
| FileStore.Store.LoadTagIndexes | cache/file_store/file_store.go:631-678 | loading at start keeps the live keys of each index file and drops empty indexes |
| FileStore.Store.PersistTagIndex | cache/file_store/file_store.go:704-732 | memory and disk become the union of both |
| FileStore.Store.RemoveKeyFromTagIndex | cache/file_store/file_store.go:735-752 | the key leaves the tag on disk and in memory; an empty index is removed |
| FileStore.Store.Track | cache/file_store/file_store.go:576-594 | equals the system's tracking |
| FileStore.Store.Untrack | cache/file_store/file_store.go:596-612 | equals the system's untracking |
| FileStore.Store.Forget | cache/file_store/file_store.go:443-463 | equals the system's forgetting |
| FileStore.Store.TaggedPut | cache/file_store/file_store.go:959-964 | equals the system's tagged write |
| FileStore.Store.Flush | cache/file_store/file_store.go:465-482 | removes every cache file and tag index and empties this process's memory, as the system step does |
| FileStore.Store.TaggedFlush | cache/file_store/file_store.go:1003-1042 | equals the system's tagged flush |
| TagTokenizer.SplitTag | contracts/ormtag/parser.go:73-203 | the loop over positions equals the scan that accumulates text, errors and their positions included |
| TagPrinter.UnescapeEscape | contracts/ormtag/parser.go:206-211 | doubling quotes is undone by unescaping |
| TagPrinter.UnquoteWord | contracts/ormtag/parser.go:206-216 | unquoting a printed quoted word gives its text |
| TagPrinter.SplitUndoesPrint | contracts/ormtag/parser.go:73-203 | splitting the printed form of any list of well-formed tokens, with any spacing, gives exactly that list |
| TagRebuild.SplitRebuilds | contracts/ormtag/parser.go:73-203 | on accepted input the raw texts of the tokens in order, with spaces between them only, are the trimmed tag |
| TagRescan.FeedAppend | contracts/ormtag/parser.go:73-203 | scanning two texts in a row is scanning the second from where the first leads, unless a closing and an opening quote run together |
| TagRescan.SplitRetraced | contracts/ormtag/parser.go:73-203 | the raw text of every token of an accepted tag, scanned alone, leads to that token; as a tag of its own it is that one token exactly when trimming leaves it as it is |
| TagRescan.TabTrimmed | contracts/ormtag/parser.go:73-203 | a token that ends with a tab is another token as a tag of its own |
| TagMisuse.MisplacedRefused | contracts/ormtag/parser.go:73-203 | a comma or closing parenthesis outside parentheses and a quote inside a word are refused at their position, whatever stands before and behind |
| TagMisuse.NestedRefused | contracts/ormtag/parser.go:73-203 | so is a second opening parenthesis, inside the first pair or behind it |
| TagMisuse.UnclosedParenRefused | contracts/ormtag/parser.go:73-203 | a parenthesis that is never closed is refused |
| TagMisuse.UnclosedQuoteRefused | contracts/ormtag/parser.go:73-203 | so is a quote that is never closed, at the start of a word or inside parentheses |
| TagMisuse.InnerSpace | contracts/ormtag/parser.go:128-137 | a space inside parentheses drops what stood before it in the parameter |
| FieldTag.ParseFieldTag | contracts/ormtag/parser.go:224-347 | the loop that skips used tokens equals the recursive parse |
| TagRoundTrip.ParseAppend | contracts/ormtag/parser.go:239-346 | what parses by itself is not affected by what comes behind it |
| TagRoundTrip.ParseTidy | contracts/ormtag/parser.go:224-347 | names and values appear in a parsed meta only with the flag they belong to |
| TagRoundTrip.MetaRoundTrip | contracts/ormtag/parser.go:224-347 | printing a consistent meta canonically, its type as it was written, with any spacing, and parsing it gives the meta back |
| TagRoundTrip.NormalForm | contracts/ormtag/parser.go:224-347 | the canonical form of whatever a tag parses to parses to the same, for every accepted tag |
| TagRoundTrip.ConsistentIff | contracts/ormtag/parser.go:224-347 | the consistent metas are exactly those that some tag parses to |
| TagRoundTrip.ShortForms | contracts/ormtag/parser.go:266-326 | "not null", "default x", "default 'x'" and "collate x", in any letter case, mean what "notnull", "default('x')" and "collate('x')" mean, anywhere in a tag |
| TagMeaning.RefusedIff | contracts/ormtag/parser.go:239-346 | a tag is refused exactly if it cannot be split, or a token reached by the parse is a disabled or unknown word, a quoted name with parameters, a lone not, or a default or collate without a value |
| TagMeaning.SynonymsParseAlike | contracts/ormtag/parser.go:239-346 | anywhere in a tag jsonb means what json means, and parameters behind the first are not looked at |
| TagMeaning.LaterCounts | contracts/ormtag/parser.go:239-346 | of two halves that parse by themselves the whole has the flags of both, and of two texts for one thing the later |
| FieldWalk.Walk.CollectFields | contracts/ormtag/parser.go:448-541 | the walk that appends to its list and edits the visited set equals the recursive collection, errors of all tags and their order included, restores the set, and terminates on every graph |
| FieldWalk.CollectExact | contracts/ormtag/parser.go:448-541 | below any point the list holds exactly what the index paths lead to, in depth-first order |
| FieldWalk.ListIsExact | contracts/ormtag/parser.go:448-541 | a returned list has one entry for every path to an exported tagged field, no other, all paths different and in order |
| FieldWalk.DescribedIsField | contracts/ormtag/parser.go:475-511 | an entry is its field's own meta, and a leaf's explicit column is all enclosing prefixes and its own name in order |
| FieldWalk.CycleIff | contracts/ormtag/parser.go:448-541 | collecting fails exactly when a chain of embedded types comes back to itself or meets a field with a bad tag; with good tags every failure is a cycle |
| FieldEmbedding.EmbeddedEntries | contracts/ormtag/parser.go:475-511 | an exported struct field that is anonymous and untagged, or tagged extends and not ignored, contributes every entry of its type's own list, with its index before the path and its prefix before the leaf's column; any other field contributes nothing from inside |
| FieldEmbedding.OwnEntry | contracts/ormtag/parser.go:454-512 | a field has an entry of its own exactly if it is exported and tagged: its name and what its tag says |
| IdCodec.FillDigits | id/id.go:120-131 | fills an array's positions from the back with the digits, leaving the rest |
| IdCodec.EncodeBytes | id/id.go:120-131 | the 16 bytes are ten digits of time and six of sequence |
| IdCodec.SymbolIsCharset | id/id.go:36-51 | the symbols are those of the character set |
| IdCodec.DigitsOrder | id/id.go:120-131 | digit strings of equal length are ordered as their numbers |
| IdCodec.EncodeOrder | id/id.go:120-131 | IDs are ordered as time first and sequence second, so different pairs have different IDs |
| IdCodec.Parse | id/id.go:102-117 | the loop computes the number of the first ten symbols, below 2^50, or the length in bytes or the position of the error |
| IdCodec.NormalizeIff | id/id.go:92-104 | normalizing gives an ID exactly for its decorations: hyphens, letter case, confusable symbols, and letters outside ASCII that fold to its own |
| IdCodec.ParseUndoesEncode | id/id.go:102-131 | every decoration of an ID parses to its time |
| IdCodec.ParsedIff | id/id.go:102-117 | what parses: 16 bytes after normalizing, the first ten of them in the character set |
| IdCodec.BytesDecode | id/id.go:102-105 | the bytes that are counted are those of UTF-8 |
| IdGenerator.Generator.New | id/id.go:67-89 | one call moves clock and sequence as the transition says and returns their ID; it ends in the digits of the random number in a new tick or after an overflow, and of the next number otherwise |
| IdGenerator.RunsForward | id/id.go:67-89 | along a run the pair of clock and sequence grows strictly |
| IdGenerator.CountsFromRandom | id/id.go:71-88 | from a call whose reading is past the clock, or that finds the sequence used up, IDs end in the digits of its own random number and of the numbers that follow, as long as the tick lasts |
| IdGenerator.FreshIdsDiffer | id/id.go:71-88 | calls of two generators that start the same tick give the same ID exactly if they drew the same random number |
| IdGenerator.ClockBounds | id/id.go:67-89 | the virtual clock is at least every reading, and above the largest of 0 and the readings by at most the number of overflows |
| IdGenerator.IdsIncrease | id/id.go:67-89 | for every clock, IDs increase strictly as strings in call order while the virtual clock is below 2^50 |
| IdGenerator.ParseGivesClock | id/id.go:67-117 | every decoration of an ID of a run parses to the virtual clock of its call, with these bounds |
| IdGenerator.OrderIff | id/id.go:84-88 | in general IDs are ordered by the low 50 bits of the clock and the sequence |
| IdGenerator.OrderLost | id/id.go:84-88 | a run over 2^50 with a later ID before an earlier one |
| TimedMap.SweepsUnseen | cache/memory_store.go:71-90 | with a clock that does not go back, a run answers the same with its sweeps as without them |
| TimedMap.SweepSeenGoingBack | cache/memory_store.go:20-22 | with a clock that goes back a sweep can be seen |
| TimedMap.ApplyAlike | cache/memory_store.go:100-280 | no call can tell views with the same live entries and tags apart |
| TimedMap.TagsAreHistory | cache/memory_store.go:469-527 | after any run a key is under a tag exactly when some call tracked it there and none since has forgotten it |
| TimedMap.TaggedFlushIsExact | cache/memory_store.go:513-527 | a tagged flush deletes exactly the keys tracked under its tags and not forgotten since |
| CacheLaws.RemovedStays | cache/memory_store.go:226-256 | after a pull, a forget or a flush the key is not found, at any time and whatever else happens, until it is written again |
| CacheLaws.OthersStay | cache/memory_store.go:226-256 | removing one key changes no answer about another and no tag of another |
| CacheLaws.WrittenIsRead | cache/memory_store.go:210-220 | a value written with or without tags is read back until its time to live has passed, for ever without one, as long as nothing writes the key or takes it away |
| CacheLaws.WritesOne | cache/memory_store.go:210-220 | writing one key changes no answer about another |
| CacheLaws.CountedIsRead | cache/memory_store.go:258-278 | counting starts at the delta without an expiry, or moves a number on with 64-bit wrap-around and keeps its expiry; what is not a number is refused and stays |
| MemoryStore.Store.constructor | cache/memory_store.go:46-63 | an empty store with 32 shards when the count is not positive |
| MemoryStore.Store.Get | cache/memory_store.go:100-112 | answers as the flat map |
| MemoryStore.Store.Has | cache/memory_store.go:202-208 | answers as the flat map |
| MemoryStore.Store.Put | cache/memory_store.go:210-220 | every key stays in its hash shard only, and the whole equals the flat map's write |
| MemoryStore.Store.Forget | cache/memory_store.go:226-237 | deletes the entry and the key under every tag, nothing else |
| MemoryStore.Store.Flush | cache/memory_store.go:239-250 | empties all shards and tags |
| MemoryStore.Store.Pull | cache/memory_store.go:252-256 | answers the value and removes the entry and its tags |
| MemoryStore.Store.Increment | cache/memory_store.go:258-278 | counts with 64-bit wrap-around, keeps the expiry, starts without one, refuses what is not a number |
| MemoryStore.Store.SweepShard | cache/memory_store.go:74-85 | drops one shard's expired entries |
| MemoryStore.Store.Track | cache/memory_store.go:469-478 | puts the key under each of the tags |
| MemoryStore.Store.TaggedPut | cache/memory_store.go:484-487 | tracks, then writes |
| MemoryStore.Store.TaggedFlush | cache/memory_store.go:513-527 | equals the flat map's tagged flush |
| RateLimit.Limiter.Hit | ratelimit/ratelimit.go:52-68 | does to the store what the specification of a hit says, whatever the shards |
| RateLimit.Limiter.Allow | ratelimit/ratelimit.go:39-49 | allowed exactly when the count is within the limit, with what remains |
| RateLimit.Limiter.Attempts | ratelimit/ratelimit.go:76-78 | reads the counter without changing it |
| RateLimit.Limiter.TooManyAttempts | ratelimit/ratelimit.go:71-73 | whether the counter has reached the limit |
| RateLimit.Limiter.Clear | ratelimit/ratelimit.go:94-98 | removes counter and timer and nothing else |
| RateWindow.StoreShowsWindow | ratelimit/ratelimit.go:52-68 | along every run, with other keys and their own windows, clears and sweeps in between, the store holds exactly the key's window |
| RateWindow.CountsItsWindow | ratelimit/ratelimit.go:52-78 | each hit returns its window's count, and Attempts the open window's |
| RateWindow.TooManyForetells | ratelimit/ratelimit.go:71-73 | asking foretells whether the next hit is over the limit |
| RateWindow.TimerLocksOut | ratelimit/ratelimit.go:33-36 | the timer of a key is the counter of the key with ":timer" behind it |
| RateWindow.OtherKeyHit | ratelimit/ratelimit.go:33-68 | on any store, what an earlier hit on another key makes of the answer of any later hit: nothing, unless it opened a window and the key is that key with ":timer" behind it, and then the timer plus one while the window is open and one afterwards |
| RateWindow.OtherKeyIff | ratelimit/ratelimit.go:33-68 | a key without a count answers other than one because of an earlier hit on another key exactly when that hit opened a window, still open, and the key is the other with ":timer" behind it |
| RateWindow.AtMostLimit | ratelimit/ratelimit.go:39-68 | from a hit answered with a count of one, for as long as its window, at most the limit of the hits on the store are answered within the limit |
| RateWindow.AtMostTwice | ratelimit/ratelimit.go:39-68 | in any interval of one window's length at most twice the limit of the hits on the store are answered within the limit |
| QueuePool.InvRun | queue/manager.go:77-135 | what every interleaving of producers, workers and stops keeps |
| QueuePool.TasksConserved | queue/manager.go:77-120 | accepted tasks are the buffered, running and finished ones, each accepted once, and they leave in the order they came |
| QueuePool.StopDrains | queue/manager.go:124-135 | the first call of Stop, once it has returned, has waited until every accepted task was finished exactly once and nothing else; a call that finds the queue stopped returns at once, whatever is left |
| QueuePool.NothingAfterStop | queue/manager.go:109-135 | once the first Stop has returned no task is accepted or finished |
| QueuePool.SecondStopReturnsEarly | queue/manager.go:124-129 | a second Stop can return with a task still buffered |
| QueuePool.LateSendPanics | queue/manager.go:109-120 | a producer can panic on the closed channel; its task is not accepted |
| QueuePool.StopReturns | queue/manager.go:77-135 | from every reachable state, every call of Stop that has begun can return: stopping never deadlocks |
| QueuePool.StopIsNear | queue/manager.go:77-135 | with the channel closed every worker step, on any schedule, uses up one of a number of steps known beforehand, and while Stop must wait one of them can be taken |
| QueuePool.CrashIff | queue/manager.go:109-135 | from a reachable state some producer can still panic exactly when the stop channel is open or a producer has passed the first check and not yet entered the second select |
| QueuePool.BlockedIsSafe | queue/manager.go:109-120 | a producer asleep on the full channel is accepted or refused in the end and never panics |
| QueueTask.ExecuteChain | queue/manager.go:222-256 | jobs run in order up to the first that fails or panics, which becomes the error, with its place and its cause |
| QueueTask.ExecWithRetry | queue/manager.go:200-219 | between 1 and retry + 1 attempts, all but the last failed, none after a success, the last one's error, growing waits; no attempt and no error exactly for a negative or the largest retry count |
| QueueTask.NegativeRetry | queue/manager.go:200-219 | with a retry count of -1 a failing task is not tried and no error is returned |
| Forest.TrailUnique | utils/tree.go:43-66 | there is at most one way down from a root to a record |
| Forest.EndsOrLoops | utils/tree.go:43-66 | a chain of parents either ends or meets a record twice |
| Forest.WalkIsExact | utils/tree.go:43-86 | the walk meets each record once if its chain of parents ends, never if it is on or below a cycle, for any order of roots and children |
| Forest.TopsAndChildren | utils/tree.go:43-66 | the tops are the records that name no parent or one that is not there, and a record is below exactly the record it names |
| Forest.EndsByParent | utils/tree.go:43-66 | a topmost record's chain of parents ends, and any other's exactly if its parent's does |
| Forest.WalkGoesDown | utils/tree.go:68-86 | a record that names another comes behind it in the walk |
| Tree.Tree.ToTree | utils/tree.go:43-66 | in any iteration order, roots and child lists hold exactly the records that belong there, each once |
| Tree.LastStays | utils/tree.go:43-53 | of records with one id the last is kept |
| Tree.Tree.Flatten | utils/tree.go:68-86 | terminates, and with distinct ids outputs each record exactly once if its chain of parents ends, and none on or below a cycle |
| Tree.Tree.Leafs | utils/tree.go:112-132 | exactly the walked records that are nobody's parent, in the order of Flatten |
| Tree.Tree.ChildrenOf | utils/tree.go:88-110 | found exactly for walked records, with exactly their children |
| SeparatedText.JoinSplit | utils/dict.go:206-210 | joining what was split gives the key back |
| SeparatedText.SplitJoin | utils/dict.go:276-277 | splitting joined components without dots gives them back |
| NestedMap.MapGet | utils/dict.go:206-223 | finds the node at the dotted path |
| NestedMap.FlattenMap | utils/dict.go:254-270 | in any iteration order the result has a key for every leaf and only values of leaves with that key |
| NestedMap.InsertLeaf | utils/dict.go:277-288 | after writing at a path it has the value, leaves above and below it are gone, all others stay |
| NestedMap.UnflattenMap | utils/dict.go:272-291 | in any iteration order the result has only leaves of the input, no empty submap, and all leaves if no key stands in another's way |
| NestedMap.FlatIsTable | utils/dict.go:254-270 | with plain keys the flat map is the table of leaves by dotted path |
| NestedMap.GetIsFlat | utils/dict.go:206-223 | looking up a leaf path finds what the flat map has there |
| NestedMap.SubmapAt | utils/dict.go:206-223 | looking up a path with a leaf below finds a map, whose leaves are exactly the leaves below the path |
| NestedMap.SameLeaves | utils/dict.go:272-291 | nested maps without empty submaps are determined by their leaves |
| NestedMap.UnflattenUndoesFlatten | utils/dict.go:254-291 | with plain keys, unflattening the flattened map gives the map back exactly when no submap is empty |
| NestedMap.EmptySubmapLost | utils/dict.go:254-291 | a map with an empty submap flattens to nothing and does not come back |
| NestedMap.FlattenUndoesUnflatten | utils/dict.go:254-291 | flattening the unflattened map gives the flat map back exactly when no key extends another and none starts with a dot |
| NestedMap.LeadingDotLost | utils/dict.go:254-291 | the key ".a" comes back as "a" |
| NestedMap.ExtendedKeyLost | utils/dict.go:254-291 | of "a" and "a.b" not both come back, whatever the order |
| Capitals.ChunkToCN | utils/money.go:157-175 | the loop with its zero flag equals the chunk's text |
| Capitals.CutChunks | utils/money.go:134-144 | four digits at a time from the back |
| Capitals.ConvertInteger | utils/money.go:129-155 | the text of the chunks with their big units, or an index out of range |
| Capitals.UpperCNY | utils/money.go:94-127 | the printed amount |
| Capitals.DecimalValue | utils/money.go:133 | decimal notation stands for its number |
| Capitals.DecimalLength | utils/money.go:133 | a number has at most k digits exactly when it is below 10^k |
| CapitalsReader.ChunkRead | utils/money.go:157-175 | reading a chunk's text adds the chunk's value |
| CapitalsReader.IntegerRead | utils/money.go:129-155 | a whole number has a text exactly below 10^16, and reading it adds the number |
| CapitalsReader.ReadUndoesPrint | utils/money.go:94-175 | for every 64-bit amount: printed exactly when below 10^18 fen in size, and then read back unchanged, with its sign |
| CapitalsReader.ChunkCells | utils/money.go:157-175 | a chunk's text is numeral and unit of every digit but zero, with one zero sign where zeros have a digit behind them and a place before them |
| CapitalsReader.TailShape | utils/money.go:111-124 | the sign for a whole amount stands exactly without jiao and fen, a zero sign behind the yuan exactly when fen follow yuan without jiao |
| CapitalsReader.BelowOneYuan | utils/money.go:94-127 | below one yuan the yuan are a zero sign |
| CapitalsReader.TooLarge | utils/money.go:94-155 | 10^18 fen, of either sign, index the big units out of range |

## Left out

- PreloadPath.PreloadLevel: fields of the first segment may be filled already if this call fills them again. A single
  field left from before whose row has no child now is left as it is, and what then lies below it is not stated.
- JoinKeys.JoinKeyFaithful: key values are nil, integers of any size and texts. A key column of pointer type is rendered as an
  address by the source, so that its rows find no children.
- Preload callbacks, query errors and drivers, and the runtime's reflection: rows are objects with column maps.
- Path splitting, and the case-insensitive column lookup when a mapping row is read; a scan into a list is taken to
  append.
- RelationResolver.ResolveTagged: tag texts are taken as already split into their keys; the ignore marker and the type
  of the field are not modelled.
- ForceRelease, the Windows lock file and write errors other than of metadata; waiting has no clock, a deadline may pass
  at any try.
- ShardLock.IncrementsConserved: Put, Forget and Flush are not among its steps; Get does not write.
- TagIndex.TaggedFlushRemoves: each cache call is one step; interleavings inside a tagged call are not modelled.
- MemoryStore.Store.TaggedPut: tracking and writing are one step, likewise.
- MemoryStore.Store.Increment: an entry is a value in its shard's map, so a reader that keeps the old entry is not seen.
- TimedMap.ApplyAlike: a floating-point entry is counted as a real number rounded toward zero, whatever its size.
- Hash entries of both caches, cache locks, Remember and the typed readers, which add no state of their own.
- TimedMap.SweepsUnseen: times and lifetimes are integers without overflow; entries are Go numbers, texts and flags.
- Invalid UTF-8: a text is the sequence of its characters, and what Unicode folds letters outside ASCII to is a parameter of
  IdCodec.Parse.
- Letters outside ASCII: tag words and snake names fold ASCII case only; error positions count characters.
- FieldTag.ParseFieldTag: the field name and the raw tag kept for messages.
- FieldWalk.Walk.CollectFields: what the rel, ext, gorm and sd tags of a field say, apart from their first error, which is
  given with the field; and the cache of parsed models.
- IdGenerator.Generator.New: random numbers are parameters; the mutex makes a run a sequence of calls.
- RateWindow.CountsItsWindow: one clock reading per call, on the in-memory store only.
- Queue logging and tracing, and delays; every call of Dispatch queues an entry of its own.
- QueuePool.StopIsNear: a job that never ends keeps its worker from finishing, and Stop from returning.
- Tree.Tree.Flatten: records have an id, a parent and other data; ids that are not comparable, and data under the
  children key, which is replaced, are not modelled. Nodes are named by id.
- NestedMap.UnflattenMap: submaps are values, so a map shared between two places is not seen; the separator is a dot.
- Float amounts: FormatYuan, OfYuan and paging arithmetic.
- Containers, routing, configuration, sessions, authentication, views, logging and code generation.
