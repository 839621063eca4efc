# Verified models of the Redis 2.4.7 core

This project models the algorithms and protocols at the heart of the Redis 2.4.7 server and proves what they promise.
Every module stands for one source file, or one part of it, and keeps its form: objects that the source updates in
place are classes, in-place algorithms work on arrays, loops are loops, and pure conversions are functions.

- `Lzf`: the LZF compressor and decompressor. The format is a list of tokens with a meaning; the compressor writes
  tokens that mean its input, the decompressor accepts exactly the token lists and rebuilds what they mean. The
  compressor's hash table is uninitialised memory: an array of arbitrary addresses.
- `Pqsort`: the partial quicksort behind SORT ... LIMIT, for any total preorder.
- `ZSkiplist` (with `SkiplistShape`, the heights of towers and the reach of links): the skip list of sorted sets, with
  forward links, spans, back pointers, order statistics and range deletions. The random level is a parameter. `ZSet` is
  the skip list with the hash table beside it, under ZADD, ZREM, ZRANK and the range deletions.
- `Dict` and `DictIterator`: the hash table with two tables and incremental migration, as a map; safe iterators under
  arbitrary use of the table between their steps.
- `Decimal`: the canonical decimal texts of 64-bit integers.
- `Networking`: the incremental command parser, as a machine on byte streams that does not care how they are cut.
- `Aof` and `AofFile`: the append only file: feeding, flushing, rewriting in a child process, loading.
- `Rdb` and `RdbFile`: the dump file, down to its bytes.
- `Replication`: the master's side of synchronisation.
- `Multi`: WATCH, MULTI, EXEC. `Blocking`: blocking list operations with their chains of pushes.
- `Intset`: sorted integer sets in a block of bytes that is widened in place.
- `Sha1`: SHA-1 against FIPS PUB 180-1. `Sds`: quoted strings. `Zunion`: ZUNIONSTORE and ZINTERSTORE.
- `Bytes` and `Lists` hold what several modules need.

Where the code does not keep its promise, the model keeps the code and the condition is proved exactly:

- a client that has sent well-formed bytes is cut off when a read ends between two arguments of a command, or in the line
  that announces one, and the bytes in its buffer exceed REDIS_INLINE_MAX_SIZE, as they do after one long argument, but
  never while the arguments are short enough (`Networking.CutBetweenArguments`, `Networking.CutFromLine`,
  `Networking.LongArgumentCuts`, `Networking.SmallArguments`);
- a slave whose buffer was copied from one that had another database selected executes the next command of database
  0 there (`Replication.CopyExact`, `Replication.CopyGoesAstray`);
- a push of several elements loses those behind the first that a waiting client moves to a list, since that rewrites the
  command under way (`Blocking.LostExact`, `Blocking.SecondIsLost`, `Blocking.OnlyPoppersLoseNothing`);
- slaves and the append only file do not follow a push some, but not all, of whose elements are popped by waiting clients,
  nor an RPOPLPUSH whose element a client waiting for the target can take (`Blocking.PushFollowed`,
  `Blocking.PushFollowedByPoppers`, `Blocking.FollowersHaveBoth`, `Blocking.MoveFollowed`, `Blocking.FollowersKeepElement`);
- EXEC runs although a watched key has changed, when the change was not signalled: RPOPLPUSH does not signal a target it
  creates, and the deletion of an expired key signals nothing (`Multi.ExecSeesWhatWasWatched`, `Multi.RpoplpushSignals`);
- a slave that waits for a save whose child is killed by a signal is sent the file that is there
  (`Replication.Master.BackgroundSaveDoneHandler`, `Replication.SlaveOfKilledSave`);
- slaves waiting for the next save go on collecting commands when its fork fails, and are given the dump of a later one:
  they execute the commands between the two twice, which is right exactly when these change nothing in that dump
  (`Replication.Master.BackgroundSaveDoneHandler`, `Replication.RepeatedExact`, `Replication.SlavesOfFailedFork`);
- a file that ends in a short write is refused unless a record ends there, and one that ends inside a SETEX revives the
  key for ever (`Aof.Aof.FlushAppendOnlyFile`, `AofFile.TornFile`, `Aof.HalfSetExStays`);
- a rewritten file revives keys that had expired until they are deleted (`Aof.ForgetExact`, `Aof.ExpiredKeysHeal`), and an
  expiry is off by what the clock advanced between execution and feeding (`Aof.TranslationExact`, `Aof.Aof.Call`);
- expiry times beyond 32 bits are not saved (`RdbFile.TimeExact`).

A ghost log `past` in `Multi` holds what each command signalled and left. Fields that exist for the model only: `since`
and `clock` in `Blocking` number the clients in the order in which they blocked, `executed` and `since` in `Replication`
are the log of commands and positions in it, and the log `dispatched` in `Networking` stands for the calls of
processCommand. Ghost fields and ghost results give the abstract values. `hide` statements keep definitions out of
proofs that work with named facts about them.

To check everything: `dafny verify dfyconfig.toml`.

## Model

| member | source | states |
|---|---|---|
| `Lzf.DecodeExact` | redis-2.4.7/src/lzf_d.c:55-149 | the decoder accepts exactly the serialised lists of literal runs and back references whose meaning fits the output, and returns that meaning |
| `Lzf.CopyBackIsPeriodic` | redis-2.4.7/src/lzf_d.c:133-144 | a copied byte equals the byte `off + 1` places before it, also when the copy reads bytes it has itself written |
| `Lzf.CopyBackRebuildsMatch` | redis-2.4.7/src/lzf_c.c:151-209 | a match the compressor finds, even one overlapping its own end, is rebuilt by the decoder's byte-by-byte copy |
| `Lzf.ExpandLiteral` | redis-2.4.7/src/lzf_d.c:68-93 | a literal run is copied, or fails with the right errno, exactly as decoding the bytes says |
| `Lzf.ExpandBackRef` | redis-2.4.7/src/lzf_d.c:94-145 | a back reference is expanded, or fails with the right errno, exactly as decoding the bytes says; nothing is written beyond the output size |
| `Lzf.Decompress` | redis-2.4.7/src/lzf_d.c:55-149 | for every input the result, the errno and the bytes written are those of the format's meaning |
| `Lzf.FoundMatchIsInside` | redis-2.4.7/src/lzf_c.c:145-166 | whatever stale address the uninitialised table holds, one that passes the test lies in the input and starts a real match |
| `Lzf.MatchLength` | redis-2.4.7/src/lzf_c.c:169-209 | the match is extended as far as the bytes agree, up to the limits of length and input |
| `Lzf.PutMatch` | redis-2.4.7/src/lzf_c.c:167-230 | ending the run and writing the match appends tokens that mean the input so far, or the output is full |
| `Lzf.PutLiteral` | redis-2.4.7/src/lzf_c.c:261-273 | one literal byte more keeps the output a list of tokens with an open run; a full run is closed in place |
| `Lzf.Compress` | redis-2.4.7/src/lzf_c.c:98-294 | for every initial table, a result n > 0 means that the n bytes are tokens that stand for the input; success is guaranteed when the output is a thirty-second larger and 4 bytes more |
| `Lzf.RoundTrip` | redis-2.4.7/src/lzf_c.c:98-294 | decompressing what was compressed gives back the input |
| `Pqsort.InsertionSort` | redis-2.4.7/src/pqsort.c:109-115 | the range is permuted and sorted |
| `Pqsort.Med3` | redis-2.4.7/src/pqsort.c:89-97 | the result is a median of the three elements |
| `Pqsort.ChoosePivot` | redis-2.4.7/src/pqsort.c:116-127 | the pivot lies in the range, for every size |
| `Pqsort.Partition` | redis-2.4.7/src/pqsort.c:128-155 | the four-way scan ends with equal, smaller, larger and equal elements in that order, the array being permuted |
| `Pqsort.SplitRange` | redis-2.4.7/src/pqsort.c:116-168 | after the two block swaps the range is split into smaller, equal and larger elements, unless no element was moved |
| `Pqsort.PrunedOnAddresses` | redis-2.4.7/src/pqsort.c:169-187 | the pruning test on byte addresses is the test on indices, for every element size |
| `Pqsort.PqsortRange` | redis-2.4.7/src/pqsort.c:99-189 | terminates, permutes the range and leaves every requested position as a full sort could |
| `Pqsort.Pqsort` | redis-2.4.7/src/pqsort.c:191-197 | the array is permuted and every requested index has nothing greater before it and nothing smaller behind it |
| `Pqsort.SelectedAgreesWithSort` | redis-2.4.7/src/pqsort.c:99-197 | every requested element ties with the element a full sort puts there |
| `ZSkiplist.InsertWires` | redis-2.4.7/src/t_zset.c:106-119 | the links and spans of a list with one node more are right when the new node splits the links it reaches and longer ones are one step longer |
| `ZSkiplist.DeleteWires` | redis-2.4.7/src/t_zset.c:131-141 | the links and spans are right when a node is taken out and the links to it are joined with its own |
| `ZSkiplist.ProbesCut` | redis-2.4.7/src/t_zset.c:211-258 | every search condition the operations use cuts a sorted list in two |
| `ZSkiplist.Skiplist.constructor` | redis-2.4.7/src/t_zset.c:33-48 | an empty list satisfies the whole invariant |
| `ZSkiplist.Skiplist.Descend` | redis-2.4.7/src/t_zset.c:80-92 | the search finds, on every level, the last node before the cut, and its rank |
| `ZSkiplist.Skiplist.RaiseLevel` | redis-2.4.7/src/t_zset.c:98-105 | new levels start at the header and span the whole list |
| `ZSkiplist.Skiplist.Splice` | redis-2.4.7/src/t_zset.c:106-114 | the new node splits the links of all its levels, with the spans that the ranks give |
| `ZSkiplist.Skiplist.Stretch` | redis-2.4.7/src/t_zset.c:116-119 | the links that pass over the new node are one step longer |
| `ZSkiplist.Skiplist.Insert` | redis-2.4.7/src/t_zset.c:74-128 | at any level from 1 to 32 the invariant (order, towers, spans, back pointers, tail, length, minimal level) is kept and the sequence is the sorted insertion |
| `ZSkiplist.Skiplist.DeleteNode` | redis-2.4.7/src/t_zset.c:131-149 | the node is taken out of every level, and the search path stays a search path for the same place |
| `ZSkiplist.Skiplist.Delete` | redis-2.4.7/src/t_zset.c:152-176 | the element is found exactly if it is there, and then exactly it is removed |
| `ZSkiplist.Skiplist.GetRank` | redis-2.4.7/src/t_zset.c:327-348 | the search ends behind the elements not greater than the one asked for; an object among these is found exactly if its node is taller than all behind it there, as it always is when the element itself is in the list |
| `ZSkiplist.Skiplist.GetElementByRank` | redis-2.4.7/src/t_zset.c:351-367 | the node at the 1-based position, null exactly beyond the end |
| `ZSkiplist.RankRoundTrip` | redis-2.4.7/src/t_zset.c:327-367 | the rank of the element at a rank is that rank |
| `ZSkiplist.RankRoundTripBack` | redis-2.4.7/src/t_zset.c:327-367 | the element at the rank of an element is that element |
| `ZSkiplist.Skiplist.IsInRange` | redis-2.4.7/src/t_zset.c:193-207 | a negative answer means that no element is in the range |
| `ZSkiplist.Skiplist.FirstInRange` | redis-2.4.7/src/t_zset.c:211-233 | the first element in the range, or null exactly when there is none |
| `ZSkiplist.Skiplist.LastInRange` | redis-2.4.7/src/t_zset.c:237-258 | the last element in the range, or null exactly when there is none |
| `ZSkiplist.Skiplist.DeleteNext` | redis-2.4.7/src/t_zset.c:277-288 | one deletion with the shared search path removes the element behind it from list and hash table and keeps the path usable |
| `ZSkiplist.Skiplist.DeleteRangeByScore` | redis-2.4.7/src/t_zset.c:264-291 | exactly the elements in range are a slice, and exactly that slice leaves the list and the hash table |
| `ZSkiplist.Skiplist.DeleteRangeByRank` | redis-2.4.7/src/t_zset.c:295-321 | exactly the positions start to end that exist leave the list and the hash table |
| `ZSet.ListIsDetermined` | redis-2.4.7/src/t_zset.c:10-16 | only one sorted list agrees with a hash table: the table says what the set is |
| `ZSet.InsertAgree` | redis-2.4.7/src/t_zset.c:937-940 | inserting a new element in both keeps list and table in agreement |
| `ZSet.DeleteAgree` | redis-2.4.7/src/t_zset.c:994-1001 | deleting an element from both keeps them in agreement |
| `ZSet.TakenOutAgree` | redis-2.4.7/src/t_zset.c:1036-1047 | so does taking a range out of both, and the table shrinks by the number answered |
| `ZSet.SortedSet.Take` | redis-2.4.7/src/t_zset.c:998-998 | an element of the table is always found in the list, so the assertion holds |
| `ZSet.SortedSet.ZaddOne` | redis-2.4.7/src/t_zset.c:902-945 | the set has the element with its new score, however it was before; the list stays its sorted listing; new exactly if it was not there |
| `ZSet.SortedSet.Zadd` | redis-2.4.7/src/t_zset.c:861-954 | all elements are put in, later ones winning, and the answer is by how many the set has grown |
| `ZSet.SortedSet.Zrem` | redis-2.4.7/src/t_zset.c:986-1017 | exactly the elements named are gone, and the answer is how many were there |
| `ZSet.SortedSet.ZremRangeByScore` | redis-2.4.7/src/t_zset.c:1038-1049 | exactly the elements with scores in range are gone, from list and table |
| `ZSet.SortedSet.ZremRangeByRank` | redis-2.4.7/src/t_zset.c:1066-1097 | exactly the elements at the positions meant, counted from either end, are gone, from list and table |
| `ZSet.SortedSet.Zrank` | redis-2.4.7/src/t_zset.c:2036-2054 | no rank exactly for elements that are not there; otherwise the position in the sorted listing, from either end, so the assertion holds |
| `Dict.MaskIsRemainder` | redis-2.4.7/src/dict.c:214-214 | for sizes that are powers of two the mask gives the remainder of the hash |
| `Dict.NextPower` | redis-2.4.7/src/dict.c:542-552 | the smallest power of two that is large enough, or LONG_MAX |
| `Dict.MoveKeeps` | redis-2.4.7/src/dict.c:209-220 | moving an entry between the tables keeps what every key is mapped to, its only table, and the counts |
| `Dict.SearchChain` | redis-2.4.7/src/dict.c:319-341 | the entry of the key and the one before it, or null when the chain has no such key |
| `Dict.Unlink` | redis-2.4.7/src/dict.c:324-337 | the chain without the entry is linked correctly, whether or not it was the head |
| `Dict.Dict.MoveBucket` | redis-2.4.7/src/dict.c:207-222 | a whole chain moves to the second table; nothing else changes |
| `Dict.Dict.SkipEmpty` | redis-2.4.7/src/dict.c:204-206 | the scan for a bucket with entries cannot run past the table |
| `Dict.Dict.Rehash` | redis-2.4.7/src/dict.c:189-225 | any number of migration steps leaves the map unchanged; false means the migration is over |
| `Dict.Dict.RehashStep` | redis-2.4.7/src/dict.c:254-256 | while a safe iterator runs nothing moves |
| `Dict.Dict.Expand` | redis-2.4.7/src/dict.c:156-183 | a larger table is installed exactly when no migration is going on and it holds all entries; the map is unchanged |
| `Dict.Dict.ExpandIfNeeded` | redis-2.4.7/src/dict.c:519-539 | never fails, and leaves the map unchanged |
| `Dict.Dict.SearchTables` | redis-2.4.7/src/dict.c:391-410 | both tables are searched as far as needed, at every stage of a migration |
| `Dict.Dict.KeyIndex` | redis-2.4.7/src/dict.c:560-582 | -1 exactly for a key that is there; otherwise the bucket of the table that receives new keys |
| `Dict.Dict.Add` | redis-2.4.7/src/dict.c:259-283 | fails exactly for a key that is there; otherwise the map has the new pair, and while an iterator runs the tables have changed only by the new entry |
| `Dict.Dict.Replace` | redis-2.4.7/src/dict.c:289-309 | the map has the pair in either case; the answer says whether the key is new |
| `Dict.Dict.Delete` | redis-2.4.7/src/dict.c:312-347 | succeeds exactly for a key that is there, and then the map lacks it |
| `Dict.Dict.Find` | redis-2.4.7/src/dict.c:391-410 | the entry of the key in the map, null exactly when there is none |
| `DictIterator.GrownSound` | redis-2.4.7/src/dict.c:439-468 | additions between two steps, even one that starts a migration, keep the promise of an iterator |
| `DictIterator.TakenSound` | redis-2.4.7/src/dict.c:460-464 | deleting an entry other than the one saved as next keeps the promise of an iterator |
| `DictIterator.SafeIterator.Next` | redis-2.4.7/src/dict.c:439-468 | an entry not returned before; null only when every entry present at the first step and still there has been returned |
| `DictIterator.SafeIterator.Release` | redis-2.4.7/src/dict.c:470-475 | the count of iterators drops exactly for an iterator that has started |
| `DictIterator.Iterate` | redis-2.4.7/src/dict.c:419-475 | over any sequence of steps, look-ups, additions, replacements and deletions of the current entry: no entry twice, and at the end all that were there at the first step and were not deleted |
| `Decimal.ParseExactlyTexts` | redis-2.4.7/src/util.c:213-274 | a string is read as an integer exactly if it is the canonical text of that 64-bit integer |
| `Decimal.Ll2string` | redis-2.4.7/src/util.c:189-208 | the canonical decimal text, cut off at the size of the buffer |
| `Decimal.String2ll` | redis-2.4.7/src/util.c:213-274 | exactly the canonical texts of 64-bit integers are accepted; no overflow goes unnoticed |
| `Networking.RunAppend` | redis-2.4.7/src/networking.c:731-872 | for any bytes, the run of the parser over a stream does not depend on where it is cut into reads |
| `Networking.ReadCommands` | redis-2.4.7/src/networking.c:731-833 | from a stream of well-formed commands exactly those commands are dispatched, in order |
| `Networking.PrefixRuns` | redis-2.4.7/src/networking.c:731-872 | a part of a well-formed stream never fails and dispatches the first of its commands |
| `Networking.CompleteCommandsRun` | redis-2.4.7/src/networking.c:731-872 | no command waits once all its bytes are there |
| `Networking.WithinLimit` | redis-2.4.7/src/networking.c:783-788 | nobody is cut off while the buffer is within REDIS_INLINE_MAX_SIZE |
| `Networking.CutBetweenArguments` | redis-2.4.7/src/networking.c:783-788 | a client with the bytes from the middle of a command on, an argument, perhaps more, and perhaps a part of the next line: it is cut off exactly when the command is not finished, the line lacks more than its last byte, and these bytes exceed REDIS_INLINE_MAX_SIZE, although it has broken no rule |
| `Networking.CutFromLine` | redis-2.4.7/src/networking.c:783-788 | the same for bytes that begin with the line of an argument |
| `Networking.RunChain` | redis-2.4.7/src/networking.c:731-872 | wherever a well-formed stream is cut, less than one line or argument is left, and the rest of the stream goes on from there |
| `Networking.SmallArguments` | redis-2.4.7/src/networking.c:783-788 | no client is cut off, for any cutting into reads of at most 16 KB, while every argument leaves room for one read below the limit |
| `Networking.LongArgumentCuts` | redis-2.4.7/src/networking.c:783-788 | after an argument longer than the limit that is not the last of its command, a client is cut off when a read ends there, whatever the reads of at most 16 KB were |
| `Networking.LongArgumentIsCut` | redis-2.4.7/src/networking.c:835-915 | a run of a client that is closed in this way |
| `Networking.Client.ProcessInlineBuffer` | redis-2.4.7/src/networking.c:679-716 | one inline command is taken off the buffer, or a line is unfinished, and too long exactly beyond the limit |
| `Networking.Client.ProcessMultibulkBuffer` | redis-2.4.7/src/networking.c:731-833 | carries the run of the parser on: a whole command, or the state of an unfinished one with precisely the unread bytes; the connection is closed exactly on a protocol error or an over-long unfinished line |
| `Networking.Client.ProcessInputBuffer` | redis-2.4.7/src/networking.c:835-872 | dispatches what the run over the buffer dispatches, stops only where nothing can be done, and closes exactly when the run fails or the client is cut off |
| `Networking.Client.Feed` | redis-2.4.7/src/networking.c:874-915 | after any read the commands dispatched and the bytes kept are those of the run over all bytes received |
| `Networking.Client.Serve` | redis-2.4.7/src/networking.c:835-915 | for every cutting of well-formed commands into reads: all are dispatched in order and nothing is kept, unless the client is cut off, which happens exactly under the stated condition; for clients that do not block |
| `Networking.Client.Converse` | redis-2.4.7/src/networking.c:835-915 | for clients that block and are woken up, too: at any time the commands dispatched are the first of those sent, and all of them once the client is neither blocked nor closed |
| `Aof.TranslationExact` | redis-2.4.7/src/aof.c:183-231 | the translation of EXPIRE and SETEX replays to what the request did exactly when the clock read the same for both, or was not used; times wrap around as C longs do |
| `Aof.ForgetExact` | redis-2.4.7/src/aof.c:614-622 | a rewrite keeps the dataset exactly when no key has expired |
| `Aof.FeedLeads` | redis-2.4.7/src/aof.c:203-246 | the records fed for a request lead from the dataset before it to the one after it, with the right SELECT, exactly when the clock makes no difference |
| `Aof.PastFeed` | redis-2.4.7/src/aof.c:203-246 | after each record fed, what is on file so far replays to a dataset there has been, except between the two records of one SETEX |
| `Aof.HalfSetExStays` | redis-2.4.7/src/aof.c:221-228 | cut off between these two, the file replays to a key that never expires |
| `Aof.RewriteValue` | redis-2.4.7/src/aof.c:457-613 | the records written for a value rebuild it from nothing, for strings, lists, sets, hashes and sorted sets |
| `Aof.RewriteKey` | redis-2.4.7/src/aof.c:457-622 | the records written for a key rebuild it with its expiry, unless that has passed |
| `Aof.RewriteAppendOnlyFile` | redis-2.4.7/src/aof.c:403-649 | the file written replays to the dataset without the expiries that have passed, whatever the order of keys and elements |
| `Aof.Aof.FeedAppendOnlyFile` | redis-2.4.7/src/aof.c:203-246 | the bytes of the records go to the buffer, and to the buffer of differences while a rewrite is going on |
| `Aof.Aof.Call` | redis-2.4.7/src/redis.c:1035-1052 | executing a request keeps every replay invariant (the bytes in file and buffer are those of records that replay to the current dataset, the differences lead from the child's snapshot to it) exactly when it was not fed or the clock, read again, makes no difference |
| `Aof.Aof.FlushAppendOnlyFile` | redis-2.4.7/src/aof.c:78-156 | the file replays to a past dataset that never moves backwards; after a flush that is not put off it is the current one; after a write of any smaller number of bytes the server has ended, and the file is loaded exactly if it ends with a whole record, as a dataset there has been or one with half a SETEX missing |
| `Aof.ShortWrite` | redis-2.4.7/src/aof.c:116-127 | what a file is loaded as after any number of bytes of a write |
| `Aof.Aof.FileRebuilds` | redis-2.4.7/src/aof.c:282-387 | at any time the bytes on disk, loaded and executed, give a dataset there has been: the one of the last flush or rewrite |
| `Aof.Aof.RewriteAppendOnlyFileBackground` | redis-2.4.7/src/aof.c:663-705 | a rewrite starts exactly when none is going on and the fork works; the next feed issues a SELECT |
| `Aof.Aof.BackgroundRewriteDoneHandler` | redis-2.4.7/src/aof.c:744-876 | after any failing step the old file and buffer are untouched; after a successful rewrite the file rebuilds the differences on top of the snapshot without the expiries that had passed, and the invariant holds exactly if that is the dataset: if no key had expired, and, while expired keys are only ever deleted, exactly if all of them have been |
| `Aof.Aof.WhenRight` | redis-2.4.7/src/aof.c:614-622 | that condition, from the expired keys of the snapshot and the differences |
| `Aof.TrackStrips` | redis-2.4.7/src/aof.c:614-622 | while expired keys are only ever deleted, the file rebuilds the dataset but for the expiries of those not yet deleted |
| `Aof.ExpiredKeysHeal` | redis-2.4.7/src/aof.c:614-622 | such a file rebuilds the dataset exactly if the differences delete every key that had expired when it was written |
| `Aof.RecordRoundTrip` | redis-2.4.7/src/aof.c:203-246 | the command written for a record stands for that record and no other |
| `Aof.WholeRecords` | redis-2.4.7/src/aof.c:282-387 | the bytes of records rebuild what the records do |
| `Aof.TornRecords` | redis-2.4.7/src/aof.c:282-399 | the bytes of records, cut off anywhere, are accepted exactly at the end of a record, and rebuild what the records up to there do |
| `Aof.LoadDataset` | redis-2.4.7/src/aof.c:282-387 | for any file the dataset it is loaded as, or the refusal |
| `AofFile.CatAppendOnlyGenericCommand` | redis-2.4.7/src/aof.c:158-181 | a command is appended in the format in which clients send it |
| `AofFile.LoadCommand` | redis-2.4.7/src/aof.c:322-341 | for any bytes the command read and the bytes left, or the refusal |
| `AofFile.CommandReads` | redis-2.4.7/src/aof.c:322-341 | a command written in the format is read back with the bytes behind it left |
| `AofFile.TornCommand` | redis-2.4.7/src/aof.c:322-341 | a command that is not all there is refused, wherever it ends |
| `AofFile.LoadAppendOnlyFile` | redis-2.4.7/src/aof.c:307-341 | for any file the commands loaded, or the refusal |
| `AofFile.LoadReads` | redis-2.4.7/src/aof.c:307-341 | a file that begins with commands as they are written is loaded as those and what follows |
| `AofFile.TornFile` | redis-2.4.7/src/aof.c:307-399 | cut off after any number of bytes, such a file is loaded exactly if a command ends there, and then as the commands up to there |
| `Intset.LoadStore` | redis-2.4.7/src/intset.c:25-62 | an integer that fits a width is loaded as it was stored, in two's complement |
| `Intset.Widened` | redis-2.4.7/src/intset.c:135-139 | writing a widened element overwrites no element that is still to be read |
| `Intset.WiderIsOutside` | redis-2.4.7/src/intset.c:175-180 | a value that needs a wider encoding is below all others if negative, above all others if not |
| `Intset.Inserted` | redis-2.4.7/src/intset.c:150-196 | moving the tail up and storing the value inserts it at its place in the byte block |
| `Intset.Removed` | redis-2.4.7/src/intset.c:200-215 | moving the tail down removes the element from the byte block |
| `Intset.Intset.Search` | redis-2.4.7/src/intset.c:83-122 | the position of the value, or the only position at which it can be inserted |
| `Intset.Intset.UpgradeAndAdd` | redis-2.4.7/src/intset.c:125-148 | every element is widened in place and the value is added; the block stays strictly sorted |
| `Intset.Intset.MoveTail` | redis-2.4.7/src/intset.c:150-167 | the bytes of the tail are moved, overlapping or not |
| `Intset.Intset.Add` | redis-2.4.7/src/intset.c:170-197 | the set has the value, success exactly if it was new, and the width never shrinks |
| `Intset.Intset.Remove` | redis-2.4.7/src/intset.c:200-215 | the set lacks the value, success exactly if it was there |
| `Intset.Intset.Find` | redis-2.4.7/src/intset.c:218-221 | true exactly for members |
| `Sha1.SwapReverses` | redis-2.4.7/src/sha1.c:85-87 | the byte swap of a little-endian word gives the big-endian word of the standard |
| `Sha1.CircleBack` | redis-2.4.7/src/sha1.c:93-94 | the circular update computes the next word of the eighty-word schedule (FIPS PUB 180-1, sections 7 and 8) |
| `Sha1.MacroFIsF` | redis-2.4.7/src/sha1.c:97-101 | the macros' logical functions are those of section 5 of FIPS PUB 180-1 |
| `Sha1.Round` | redis-2.4.7/src/sha1.c:97-101 | a macro is one step of section 7 with the registers renamed |
| `Sha1.SHA1Transform` | redis-2.4.7/src/sha1.c:106-161 | a block is compressed as section 7 of FIPS PUB 180-1 says |
| `Sha1.CountCarries` | redis-2.4.7/src/sha1.c:186-189 | the two-word bit count carries correctly |
| `Sha1.CountTells` | redis-2.4.7/src/sha1.c:190-190 | the count gives the number of bytes in the buffer |
| `Sha1.Context.Update` | redis-2.4.7/src/sha1.c:181-201 | the context stands for the message so far with the data appended, in the source's 32-bit arithmetic |
| `Sha1.Context.Final` | redis-2.4.7/src/sha1.c:206-247 | the padding loop terminates and the digest is that of the padded message (section 4 of FIPS PUB 180-1) |
| `Sha1.DigestOfPieces` | redis-2.4.7/src/sha1.c:167-247 | the digest does not depend on how the message is cut into pieces |
| `Sds.SdsCatRepr` | redis-2.4.7/src/sds.c:406-429 | the quoted, escaped form of any bytes is appended |
| `Sds.SdsSplitArgs` | redis-2.4.7/src/sds.c:474-579 | the line is split as the grammar of quoted and unquoted arguments says, for every line |
| `Sds.TurnReadsByte` | redis-2.4.7/src/sds.c:491-525 | the written form of each of the 256 bytes is read back as that byte |
| `Sds.ReprRoundTrip` | redis-2.4.7/src/sds.c:406-579 | any byte strings, written by sdscatrepr and joined by spaces, are split into exactly those strings |
| `Rdb.SaveLen` | redis-2.4.7/src/rdb.c:31-55 | a length is read back as written, whatever follows |
| `Rdb.EncodeIntegerReads` | redis-2.4.7/src/rdb.c:62-82 | an encoded integer is read back as its text |
| `Rdb.TryIntegerEncoding` | redis-2.4.7/src/rdb.c:88-102 | a string is encoded as an integer exactly if it is the canonical text of one of 32 bits |
| `Rdb.LzfReads` | redis-2.4.7/src/rdb.c:104-139 | a compressed string is read back as the string it stands for |
| `Rdb.SaveRawString` | redis-2.4.7/src/rdb.c:143-173 | integer, compressed or verbatim: the string is read back identically and exactly the bytes written are consumed |
| `Rdb.SaveStringObject` | redis-2.4.7/src/rdb.c:176-203 | a string object kept as an integer or as bytes is read back as its string |
| `RdbFile.SaveObject` | redis-2.4.7/src/rdb.c:249-360 | strings, lists, sets in both encodings, hashes and sorted sets are read back equal, whatever the order in which they were written |
| `RdbFile.IntsetReads` | redis-2.4.7/src/rdb.c:882-887 | the block of a set of integers, of any width, is read back as the set of their texts |
| `RdbFile.SaveIntset` | redis-2.4.7/src/rdb.c:296-300 | a set of integers is written as the bytes of its block, also if a wider one has once been in it, and read back equal |
| `RdbFile.TimeExact` | redis-2.4.7/src/rdb.c:25-28 | an expiry time is read back exactly if it fits in 32 bits and is not -1 |
| `RdbFile.EntryLeads` | redis-2.4.7/src/rdb.c:438-454 | reading the bytes of a key adds exactly that key with its value and expiry |
| `RdbFile.RdbSave` | redis-2.4.7/src/rdb.c:394-484 | whenever it is loaded, the dump gives the keys that had not expired, with their values and expiries |
| `RdbFile.RdbLoadObject` | redis-2.4.7/src/rdb.c:689-902 | for any bytes the object read, or the failure, is the one the format defines |
| `RdbFile.RdbLoad` | redis-2.4.7/src/rdb.c:929-1053 | for any file the dataset read, or the failure, is the one the format defines |
| `RdbFile.SaveAndLoad` | redis-2.4.7/src/rdb.c:394-1053 | saving and loading gives back the map of unexpired keys |
| `Multi.WatchMirror` | redis-2.4.7/src/multi.c:166-178 | watching a key adds the pair to both sides of the index |
| `Multi.UnwatchMirror` | redis-2.4.7/src/multi.c:190-205 | unwatching finds the client in the list of the key and removes the pair from both sides, an empty list with it |
| `Multi.RecordedNext` | redis-2.4.7/src/multi.c:209-228 | one command more: the watched keys touched are those signalled since they were watched |
| `Multi.Server.WatchForKey` | redis-2.4.7/src/multi.c:152-179 | a key newly watched is watched from now on, untouched; watching again changes nothing |
| `Multi.Server.TouchWatchedKey` | redis-2.4.7/src/multi.c:211-228 | exactly the clients that watch the key become dirty |
| `Multi.Server.TouchWatchedKeysOnFlush` | redis-2.4.7/src/multi.c:234-255 | exactly the clients watching a present key of the flushed databases become dirty |
| `Multi.Server.Call` | redis-2.4.7/src/redis.c:1035-1052 | whatever a command changes and signals, every client's flag tells exactly whether a key it watches has been signalled since it was watched |
| `Multi.Server.Flush` | redis-2.4.7/src/db.c:198-209 | a flush signals exactly the keys that go; every client's flag stays exact |
| `Multi.Server.UnwatchAllKeys` | redis-2.4.7/src/multi.c:183-207 | the client watches nothing and is in no list; nobody else is affected |
| `Multi.Server.DiscardCommand` | redis-2.4.7/src/multi.c:52-63 | the queue, the watches and the flag are given up |
| `Multi.Server.ExecCommand` | redis-2.4.7/src/multi.c:77-132 | the queue is executed exactly when no watched key has been signalled since it was watched, and then in order |
| `Multi.ExecSeesWhatWasWatched` | redis-2.4.7/src/multi.c:87-104 | a client whose EXEC will run sees every watched key as it has been all the time since it was watched, exactly when no command since then has changed such a key without signalling it |
| `Multi.RpoplpushSignals` | redis-2.4.7/src/t_list.c:648-712 | RPOPLPUSH signals every key it changes exactly when it does not create its target |
| `Multi.WatchedKeyIsCreated` | redis-2.4.7/src/t_list.c:651-658 | a run in which EXEC is executed although the missing key it watched has been created |
| `Blocking.DropAllCounts` | redis-2.4.7/src/t_list.c:794-806 | unblocking removes exactly the client's entries, with their multiplicities, from the lists of its keys |
| `Blocking.UnblockValid` | redis-2.4.7/src/t_list.c:789-817 | unblocking keeps both sides of the index equal and every list in order |
| `Blocking.BlockAllWaiting` | redis-2.4.7/src/t_list.c:761-782 | a key's list gets the client once for each time the key is given, behind those already waiting |
| `Blocking.BlockValid` | redis-2.4.7/src/t_list.c:749-786 | blocking keeps both sides of the index equal and every list in order |
| `Blocking.ServeValid` | redis-2.4.7/src/t_list.c:829-880 | serving a push keeps the index, whatever chain of pushes it starts |
| `Blocking.ServeDelivers` | redis-2.4.7/src/t_list.c:829-880 | a served element goes to exactly one popping client or exactly one list |
| `Blocking.HandlePushDelivers` | redis-2.4.7/src/t_list.c:648-683 | an element pushed on goes to exactly one popping client or exactly one list, and the pushing client's command is rewritten accordingly |
| `Blocking.FirstComeFirstServed` | redis-2.4.7/src/t_list.c:848-876 | the first waiting client that can take the element gets it; those before it are turned away with an error |
| `Blocking.NobodyServed` | redis-2.4.7/src/t_list.c:848-880 | when nobody can take the element all are turned away and no list changes |
| `Blocking.ServedExact` | redis-2.4.7/src/t_list.c:829-880 | somebody takes the element exactly if one of those waiting can, which can be seen before the push |
| `Blocking.ServedIsOldest` | redis-2.4.7/src/t_list.c:848-876 | of all clients blocked for the key that can take the element, the one that gets it has been blocked the longest |
| `Blocking.PushDelivers` | redis-2.4.7/src/t_list.c:261-291 | an element pushed on a missing key ends in exactly one list or with exactly one client |
| `Blocking.Server.BlockForKeys` | redis-2.4.7/src/t_list.c:749-786 | both sides of the index and the count of blocked clients are updated |
| `Blocking.Server.UnblockClientWaitingData` | redis-2.4.7/src/t_list.c:789-817 | the list of every key is found with the client in it, so the assertions hold; the count drops by one |
| `Blocking.Server.HandleClientsWaitingListPush` | redis-2.4.7/src/t_list.c:829-880 | terminates, because each nested push follows a drop in the number of blocked clients, and does what serving the push means |
| `Blocking.Server.RpoplpushHandlePush` | redis-2.4.7/src/t_list.c:648-683 | serves waiting clients of the target first, and otherwise pushes at the head of the target list and rewrites the command of the pushing client |
| `Blocking.Server.PushGenericCommand` | redis-2.4.7/src/t_list.c:261-291 | as long as the key is missing the elements go to waiting clients one after the other; the first that ends in a list ends the loop, its push having replaced the command; from the first that nobody takes on they go to the list, whose key is never there already, so the server does not abort |
| `Blocking.OneElement` | redis-2.4.7/src/t_list.c:271-287 | a push of one element is never cut short |
| `Blocking.PushHeld` | redis-2.4.7/src/t_list.c:261-291 | every element pushed is in a list, with a client, or among those never looked at, once |
| `Blocking.LostExact` | redis-2.4.7/src/networking.c:1037-1062 | elements are lost exactly when one before the last is taken and ends in a list |
| `Blocking.OnlyPoppersLoseNothing` | redis-2.4.7/src/t_list.c:271-281 | none is lost when no client waiting for the key moves what it gets |
| `Blocking.MoverLoses` | redis-2.4.7/src/t_list.c:667-669 | all but the first are lost when the first client can take it and nobody waits for its target; the answer is 1 |
| `Blocking.SecondIsLost` | redis-2.4.7/src/t_list.c:667-669 | two elements pushed where one client waits to move what it gets: the second is nowhere |
| `Blocking.PushFollowed` | redis-2.4.7/src/redis.c:1044-1048 | slaves and append only file follow a push exactly, unless clients pop some of its elements and others stay in the list, whatever chains it starts |
| `Blocking.PoppersTakeEach` | redis-2.4.7/src/t_list.c:271-281 | when no client waiting moves what it gets, each takes one element as long as there are elements |
| `Blocking.PushFollowedByPoppers` | redis-2.4.7/src/redis.c:1044-1048 | then the push is followed exactly if the list is there, nobody waits, or as many clients wait as there are elements |
| `Blocking.FollowersHaveBoth` | redis-2.4.7/src/redis.c:1044-1048 | two elements pushed where one client waits: the list has the second, its followers have both |
| `Blocking.MoveHeld` | redis-2.4.7/src/t_list.c:685-712 | RPOPLPUSH keeps every element, whoever gets it |
| `Blocking.MoveFollowed` | redis-2.4.7/src/redis.c:1044-1048 | slaves and append only file follow RPOPLPUSH exactly when nobody who waits for the target can take the element |
| `Blocking.FollowersKeepElement` | redis-2.4.7/src/redis.c:1044-1048 | an element moved to where one client waits: the client has it, the followers have it in the target |
| `Blocking.Server.BlockingPopGenericCommand` | redis-2.4.7/src/t_list.c:901-962 | the first key present decides: pop, or an error; the client blocks exactly when none is present |
| `Blocking.Server.RpoplpushCommand` | redis-2.4.7/src/t_list.c:685-715 | the last element moves on; the source disappears exactly when it is empty at the end |
| `Blocking.Server.BrpoplpushCommand` | redis-2.4.7/src/t_list.c:972-1000 | blocks exactly when the source is missing |
| `Blocking.Server.Timeout` | redis-2.4.7/src/networking.c:670-674 | a timed-out client is unblocked |
| `Replication.FeedExact` | redis-2.4.7/src/replication.c:14-50 | a slave that has everything so far also gets the next command in the right database exactly when the master is right about its database or selects another one |
| `Replication.CopyExact` | redis-2.4.7/src/replication.c:121-146 | a copied buffer is complete, and the master is right about the database exactly if the other slave had database 0 selected |
| `Replication.CopyGoesAstray` | redis-2.4.7/src/replication.c:121-146 | otherwise the next command of database 0 is executed in another database |
| `Replication.OnlineSlaveIsCurrent` | redis-2.4.7/src/replication.c:189-203 | a slave that is online, having loaded its dump and executed its stream, has the dataset of the master |
| `Replication.Master.ValidIsCoherent` | redis-2.4.7/src/replication.c:86-261 | where all slaves are right, none has missed a command |
| `Replication.Master.ReplicationFeedSlaves` | redis-2.4.7/src/replication.c:10-51 | every slave past the start of its save is fed |
| `Replication.Master.Call` | redis-2.4.7/src/redis.c:1035-1052 | a command executed reaches every slave that collects or follows, none lost or repeated, even where the save it relies on never was |
| `Replication.Master.SyncCommand` | redis-2.4.7/src/replication.c:86-149 | starting a save, copying a buffer, or waiting for the next save: every slave has what its state demands, exactly unless the buffer is copied from a slave that has another database selected |
| `Replication.Master.BackgroundSaveDoneHandler` | redis-2.4.7/src/replication.c:211-261 | slaves that wait are given the file or freed, those for the next save start to rely on it, and no command is missed; everything is right exactly if no slave is given, or has been, a file that is not the dump of the save it relies on, and the next fork works or nobody waits for it |
| `Replication.Master.MisledWhenValid` | redis-2.4.7/src/replication.c:223-239 | where all was right, the slaves misled are those given a file that is not the dump of this save, as after a child killed by a signal |
| `Replication.Master.BgsaveCommand` | redis-2.4.7/src/rdb.c:499-531 | a save started later makes slaves left waiting right again exactly if no command has come since |
| `Replication.CommandsRepeated` | redis-2.4.7/src/replication.c:222-239 | a slave given a later dump than the one it relies on executes the commands between the two a second time |
| `Replication.RepeatedExact` | redis-2.4.7/src/replication.c:222-239 | such a slave is right, at every moment from the dump on, exactly when these commands change nothing in the dump |
| `Replication.NoCommandSince` | redis-2.4.7/src/replication.c:222-239 | a slave left waiting is served by another save exactly if that forks where its own would have |
| `Replication.SlavesOfFailedFork` | redis-2.4.7/src/replication.c:247-260 | a run in which the fork fails, a command follows and another save, and two slaves execute the command twice |
| `Replication.PromotedSettled` | redis-2.4.7/src/replication.c:216-246 | after a save all slaves are right so far exactly if none was misled, and none has missed a command |
| `Replication.SlaveOfKilledSave` | redis-2.4.7/src/rdb.c:1062-1082 | a run in which the save for a slave is killed and the slave is sent an older dump, without the commands in between |
| `Replication.Master.SendBulkToSlave` | redis-2.4.7/src/replication.c:151-204 | the bytes sent are always a prefix of the dump; online exactly when all of it has been sent |
| `Zunion.TotalPermuted` | redis-2.4.7/src/t_zset.c:1429-1444 | SUM, MIN and MAX do not depend on the order of the values |
| `Zunion.ScoresPermuted` | redis-2.4.7/src/t_zset.c:1534-1536 | sorting the sources changes the order of a member's scores at most |
| `Zunion.RightPermuted` | redis-2.4.7/src/t_zset.c:1534-1536 | a result right for the sorted sources is right for the sources as given |
| `Zunion.ScoreFrom` | redis-2.4.7/src/t_zset.c:1548-1565 | the aggregate over a source and all later ones, a repeated source counting each time; in an intersection, whether all hold the member |
| `Zunion.FirstHolder` | redis-2.4.7/src/t_zset.c:1586-1609 | sources before the first that holds a member do not count |
| `Zunion.Intersect` | redis-2.4.7/src/t_zset.c:1542-1580 | exactly the members of all sources, each with the aggregate of all its weighted scores, in no more turns than the smallest source has members |
| `Zunion.Unite` | redis-2.4.7/src/t_zset.c:1581-1622 | exactly the members of any source, each with the aggregate of all its weighted scores |
| `Zunion.ZunionInterGenericCommand` | redis-2.4.7/src/t_zset.c:1446-1649 | the destination is replaced by the union or intersection of the sources as they were before, even if it is one of them; nothing changes on a wrong type |

## Left out

- Lzf.Compress: addresses leave room for the largest offset below the input; reads of table entries, of the two bytes behind the loop and of the byte behind an input of one byte, whose value is not used, are modelled on values, not as memory accesses.
- Lzf: configurations other than the one compiled in (VERY_FAST, no table initialisation, input checks on).
- Pqsort: swapping by longs or bytes is one exchange of elements.
- ZSkiplist: NaN and infinite scores; comparison of objects is any strict total order, which compareStringObjects is only on strings without zero bytes; sorted sets packed in a ziplist; the key of an empty sorted set is deleted by the commands' callers.
- Dict: hash functions are arbitrary functions; reference counts and freeing; random keys; dictResize, dictRehashMilliseconds and unsafe iterators, which add nothing to what is proved; allocation failures and table sizes beyond memory.
- DictIterator.Iterate: between steps the owner deletes the current entry; the entry saved as next must not be deleted, and `DictIterator.TakenSound` covers any other.
- Networking: QUIT, the limit client_max_querybuf_len, closing of connections by read errors, virtual-memory waits.
- Networking.Client.Converse: for clients that block, when the connection is closed is not stated in closed form, since any number of reads may pile up while they are blocked; `Networking.Client.Feed` states it for each read.
- Aof.ExpiredKeysHeal: says when differences made up of the commands spelled out heal a rewritten file; commands that are arbitrary functions of the dataset are covered by `Aof.Aof.BackgroundRewriteDoneHandler` alone.
- Aof.Aof.constructor: the server starts from a file as this server writes them; hand-made files that load are covered by `Aof.LoadDataset` alone. Fsync is not modelled.
- Aof: MULTI and EXEC around records, and the refusal of a file that ends between them; switching the file on and off; the text of scores (kept as written); commands other than those listed, which are arbitrary deterministic functions of the dataset.
- AofFile.LoadAppendOnlyFile: a negative length of an argument, an impossible allocation, counts as a refusal.
- Rdb, RdbFile: I/O errors; lists, hashes and sorted sets packed as ziplist or zipmap are written in their plain encodings, so type codes 9, 10 and 12 are read as failures, as is a block of integers whose size does not agree with its header; the conversion between scores and their text; a hash with a repeated field keeps the first value, as the hash table does and the zipmap does not.
- RdbFile.RdbSave: assumes 32-bit expiry times and strings shorter than 4 GB, as the format demands.
- Multi: of the commands that change a key unseen RPOPLPUSH is spelled out, while no client waits for its target; the deletion of expired keys is a command that signals nothing.
- Blocking: signalling of keys, several databases, MULTI; replies to the pushing client inside a chain.
- Replication.Master.SyncCommand: bytes in the fixed part of the output buffer, which the test for pending output does not see.
- Replication: the slave's side, timeouts, MONITOR.
- Sha1.Context.Update: pieces with which `j + len` wraps around, where the source writes beyond its buffer; a big-endian machine; the wiping of memory.
- Sha1.SHA1Transform: the eighty macros written out one after the other are a loop of sixteen times five.
- Sds: allocation; isspace and isprint are those of the C locale.
- Intset: the 32-bit size computation does not wrap; a little-endian machine; random members.
- Zunion.ZunionInterGenericCommand: the arguments are given as keys, weights and aggregate; exact real arithmetic without NaN and infinity; the result is a map, whose packing is left out.
- Virtual memory, sockets and the event loop, configuration, logging, command tables and replies other than those that matter here.
- The Python scripts and web files around the server.
