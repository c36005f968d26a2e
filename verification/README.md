# A verified model of the cache cluster

The repository runs a shared cache for several benchmark clients: a server that owns the pools of one cache,
clients that talk to it through shared memory, database back ends that put the cache in front of a store, a
scheduler that resizes the pools over a text protocol, and `tmdb`, a small on-disk key-value store. This
project models the parts of it that hold state together and proves what callers rely on.

Check it with `dafny verify dfyconfig.toml`.

## What is modelled

* **The tmdb store, byte by byte** (`Bytes`, `TmdbData`, `TmdbIndex`, `Tmdb`, `TmdbUpdate`, `TmdbChase`,
  `TmdbHeadDelete`, `TmdbStore`, `TmdbRuns`, `TmdbHash`, `TmdbLayout`, `TmdbCalls`). The index and the data file are
  byte sequences; records are read and written through little-endian fields at the offsets of the compiled structs
  (88-byte key records, `data_ptr` at 72, `next_ptr` at 80). `TmdbIndex.IndexOk` is the heap-shape invariant of the
  index file: every bucket and every `next_ptr` is 0 or the aligned offset of a record further on, and every record
  lies on the chain of its own hash. `TmdbData.DataFile` says what the data file is for a list of stored values. The
  class `TmdbStore.Tdb` has the handle's fields and the calls as methods; each is proved against a function on the two
  files (`StoreFiles`, `RemoveFiles`, `FetchFiles`), and `TmdbRuns` proves that runs of those functions answer like
  runs on a finite map, for every key of 1 to 64 bytes and every value up to `TDB_MAX_RECORD_LEN`. `TmdbChase` is the
  search on any bytes at all, with failed reads and endless loops; it is needed for the files that a coded delete
  leaves behind, and agrees with the chains wherever they are well formed.
* **The request channel** (`Channel`, `ChannelSafety`, `ChannelProgress`, `ChannelGetters`,
  `ChannelDeletes`). One step for each
  semaphore operation and each access to the shared struct, any number of client threads with any finite lists
  of calls, a server loop that may refuse a value, and a store that evicts and that other channels write, under
  any key. The log of a state lists the sets in the order in which they took the Server semaphore; for each get
  the server's lookup records whether the item was gone and what another channel had written since.
* **Registration** (`Registration`, `RegistrationIds`): the unlocked test of `poolRecord`, the locked update, and
  retiring threads, interleaved in any way; and the names built from pool and id.
* **The cache layer** (`CacheUtils`, `AutoIncCache`, `Backends`, `BackendReads`). The cache object with its 32-bit
  counter, and the two read-through policies, write-through (LevelDB) and generation bump (MySQL, and SQLite alike), as
  classes over a map for the database and a map for the remote pool that may drop and evict anything.
* **The resizer and its protocol** (`Resizer`, `TextProtocol`, `Decimal`): a ledger of pool sizes inside a fixed budget,
  the shrink and grow loops, and printers and parsers of both ends.
* **Measurement** (`Sorting`, `TailLatency`, `Percentile`, `Zipf`, `Rounding`): the bounded heap of the largest
  latencies, the interpolated percentile and the Zipf sampler, over ideal reals with `pow` given by its laws.

## Where the code and its comments part

* `_db_store` in replace mode writes the new data position at the packed offset 68, on the padding before
  `data_ptr`, so the low half of `data_ptr` becomes 0. `_db_delete` reads the low half of `data_ptr` where it
  means to read `next_ptr`, and writes it at the address of a 4-byte bucket or, since `preidx` is the end of the
  record just read, into the record after it. The type `Tmdb.Addresses` selects the written addresses or the
  fields the comments name. `AsCommented`, replace and delete are map update and map removal (`ReplaceRefines`,
  `DeleteRefines`). `AsCoded` they are not. `CodedReplaceReads` and `CodedReplaceExactly` say when a replace takes
  effect. A coded delete of a record that does not head its bucket redirects the next record in the file and
  nothing else (`CodedDeleteRedirects`). One that does overwrites half of the head of bucket h / 2: `CodedDeleteExactly`
  says that the key itself becomes absent exactly when it heads bucket 0 and the table's bytes at its data position
  do not lead back to it, and the `HeadDelete` lemmas what every other key is answered, including the cases in
  which a fetch ends the program or never returns. `CodedUpdatesFail`, `HeadDeleteWorks` and `HeadDeleteFindsAnother`
  are concrete cases. Insertion, fetch and reopening do not depend on the choice.
* Under `AsCommented`, delete needs the record before the found one. The source keeps no such value; the model's
  search returns it as an extra result, `before`, that nothing else uses.
* `rtrim` is applied to stored keys and not to the key asked for, so a key that ends in white space is stored
  but answered, if at all, as its trimmed form (`InsertSpec`). The comments in `tmdb.h` and above
  `_write_data_record` give 4-byte pointers; the structs and `fwrite` calls use 8 bytes, and the model follows them.
* A data record links to its successor only if it ends at byte 280 or later, because the test for the first
  record compares with the size of the in-memory struct.
* `SIG_DEL` has no `break`: the server posts twice and leaves its loop (`DeleteStopsServer`). Mutual exclusion then
  holds exactly if no thread deletes or there is one thread (`DeletersExactly`), and after the first delKV at most two
  more calls return, none of them a getKV (`AtMostTwoReturn`, `DeleteLetsTwoPass`). What a get answers, and progress,
  are claimed for workloads of set, get and close.
* `set_` keeps the old item when the allocator refuses the new one, so a get sees the last value that was
  accepted; `LastStoredIsLastSet` says exactly when that is the last value set.
* `getKV` builds its result from a member after it has given the channel free. It answers properly for any
  interleaving exactly when at most one thread of a client object calls it (`GettersExactly`).
* A database miss appends to the caller's vector and caches all of it (`SqlNeedsEmptyVector`); the benchmark
  passes a fresh vector, as do the runs of `SqlTransparent`.
* The cache counter has 32 bits: an old value returns after exactly a multiple of 2^32 invalidations
  (`OldValueReturns`). The SQL policy is transparent even then, since each record is inserted once.
* The sampler converts a real to an integer by dropping the fraction, so a range of three or more negative numbers
  is overstepped by one; exactly the other ranges are kept (`RangeKeptExactly`).
* LevelDB's `insert_record` offers the value to the pool even when the Put failed (`LevelInsertExactly`).

## Model

| member | source | states |
|---|---|---|
| Bytes.RTrimAppend | tmdb/src/tm_util.cpp:240-247 | Appended white space is invisible to trimming, and any other appended text is not. |
| Bytes.FromLe8Le8 | tmdb/src/tmdb.cpp:657-674 | An 8-byte file offset is read back as it was written. |
| TmdbLayout.FourBytes | tmdb/src/tmdb.cpp:488-495 | A four-byte integer is written with its least significant byte first. |
| TmdbLayout.TrimmedBytes | tmdb/src/tm_util.cpp:240-247 | Exactly six characters are trimmed from the end of a key. |
| TmdbHash.HashIsPoly | tmdb/src/tmdb.cpp:358-365 | The bucket of a key is the sum of its signed characters times powers of 131, on unbounded integers, reduced to 31 bits and then modulo 655360. |
| TmdbLayout.CreatedBytes | tmdb/src/tmdb.cpp:312-350 | A new store is 5243136 and 256 zero bytes. |
| TmdbLayout.StoredValueBytes | tmdb/src/tmdb.cpp:591-617 | The bytes of a stored value, and the eight bytes before it that change, exactly for files of 280 bytes or more. |
| TmdbLayout.KeyRecordBytes | tmdb/src/tmdb.cpp:636-657 | The 88 bytes of a key record, offset by offset. |
| TmdbLayout.InsertedBytes | tmdb/src/tmdb.cpp:651-674 | An insertion ends the index with the key record and changes just eight bytes before it, in the bucket at 256 + 8 h or at offset 80 of the chain's last record, to the old size. |
| TmdbLayout.ReplacedBytes | tmdb/src/tmdb.cpp:693-697 | The eight bytes a replacement changes, at offset 68 as coded and 72 as commented. |
| TmdbLayout.CodedDeletedBytes | tmdb/src/tmdb.cpp:751-808 | The flag becomes 1 and four bytes of data_ptr go to 256 + 4 h or 160 bytes behind the record's start; nothing else changes. |
| TmdbData.DataFileShape | tmdb/src/tmdb.cpp:591-617 | After any list of stores, record i of the data file starts where the lengths before it put it, holds value i, and has the link that `Link` describes. |
| TmdbData.AppendKeepsRecords | tmdb/src/tmdb.cpp:591-617 | A store changes no earlier flag, length or payload, and sets only the last link, to the new record's start, exactly when the last record ends at byte 280 or later. |
| TmdbData.DataFileParsesUniquely | tmdb/src/tmdb.cpp:488-495 | Parsing the file by its length fields gives back exactly the values stored, so two different lists never give the same file. |
| TmdbData.ValueAtStart | tmdb/src/tmdb.cpp:869-890 | Reading at the position recorded for a key gives the value that was stored there, at whichever later time. |
| TmdbIndex.NewRecordFields | tmdb/src/tmdb.cpp:636-654 | The packed key record reads back as the key (the C string in it, trimmed), the data position and a zero link, for every key up to 64 bytes and any padding bytes. |
| TmdbIndex.KeepChain | tmdb/src/tmdb.cpp:433-458 | A chain whose records keep their keys and links keeps its shape, its lookups and its answer counts. |
| TmdbIndex.ExtendChain | tmdb/src/tmdb.cpp:667-674 | Linking a new record from the last one makes it the last of that chain: earlier lookups stay, the new key is found at the end, the shape is kept. |
| TmdbIndex.UnlinkChain | tmdb/src/tmdb.cpp:806-808 | Redirecting the link before a record to the one after it removes just that record from the chain. |
| Tmdb.CreatedIsEmpty | tmdb/src/tmdb.cpp:312-350 | A created store is well formed and answers every key as absent. |
| Tmdb.ChainsDisjoint | tmdb/src/tmdb.cpp:652-674 | In a well-formed index a record reachable from two buckets is reachable from one only, that of its own hash, and its successor lies at least a record further on. |
| Tmdb.NoDuplicateKeys | tmdb/src/tmdb.cpp:549-557 | In a tidy index no two records of a key's chain answer the key. |
| Tmdb.FoundKeysAreClean | tmdb/src/tmdb.cpp:449 | Only a key without trailing white space can be found. |
| Tmdb.InsertedLookups | tmdb/src/tmdb.cpp:651-674 | An insertion keeps the index well formed; afterwards every key is found where it was, and otherwise only the new key, trimmed, is found, at the appended record. |
| Tmdb.InsertRefines | tmdb/src/tmdb.cpp:591-689 | An insertion of an absent key keeps both files well formed and refines insert-if-absent on the map they stand for; with clean keys no key ever gets two records. |
| TmdbUpdate.ReplaceRefines | tmdb/src/tmdb.cpp:693-708 | As its comments mean it, replace is map update at the key and touches no other key's answer. |
| TmdbUpdate.CodedReplaceEmpties | tmdb/src/tmdb.cpp:694-697 | As coded, on data files under four gigabytes and keys that the write leaves readable, replace makes the key read as the empty text whatever was given. |
| TmdbUpdate.CodedReplaceReads | tmdb/src/tmdb.cpp:694-697 | As coded, on files of any size and any chains, the new value is read back if and only if it stands at the position mixed from the halves of the old and the new one, or, when the key no longer reads as it did, the next record answering the key already had it. |
| TmdbUpdate.CodedReplaceExactly | tmdb/src/tmdb.cpp:694-697 | On data files under four gigabytes and tidy indexes: if and only if it is empty and the key either ends inside its array or is followed by white space only. |
| TmdbUpdate.DeleteRefines | tmdb/src/tmdb.cpp:751-820 | As its comments mean it, delete keeps every other key's answer, removes the key exactly when one record answers it, and is map removal on tidy files. |
| TmdbHeadDelete.CodedDeleteExactly | tmdb/src/tmdb.cpp:751-820 | As coded, on files under four gigabytes and a data position inside the table that is aligned or leads nowhere, the key becomes absent if and only if it heads bucket 0 and the table's bytes at that position neither name it nor lead to a record that does. |
| TmdbHeadDelete.LongKeysPass | tmdb/src/tmdb.cpp:449 | No bytes of the table are taken for a key of more than four bytes. |
| TmdbHeadDelete.HeadDeleteOthers | tmdb/src/tmdb.cpp:767-771 | As coded, deleting the head of bucket h leaves every key outside bucket h / 2 its answer. |
| TmdbHeadDelete.HeadDeleteOdd | tmdb/src/tmdb.cpp:767-771 | For odd h every key of bucket h / 2 ends the program with a failed read, unless the data position was 0. |
| TmdbHeadDelete.HeadDeleteEven | tmdb/src/tmdb.cpp:767-771 | For even h and an aligned data position d, keys of bucket h / 2 are searched along the bucket ten entries after d, answered absent if d is 0, and never answered if that bucket is their own. |
| TmdbHeadDelete.HeadDeleteWorks | tmdb/src/tmdb.cpp:751-788 | A store with one key of hash 0 that the coded delete removes. |
| TmdbHeadDelete.HeadDeleteFindsAnother | tmdb/src/tmdb.cpp:751-788 | A store with two keys in which the coded delete of the head of bucket 0 makes it answer another record's value. |
| TmdbChase.FetchReturnsView | tmdb/src/tmdb.cpp:433-458 | On well-formed files the search on raw bytes ends, without a failed read, and a fetch answers what the chains say. |
| TmdbUpdate.CodedDeleteKeeps | tmdb/src/tmdb.cpp:751-820 | As coded, delete leaves the key found with its value, for every key that does not head bucket 0. |
| TmdbUpdate.CodedDeleteRedirects | tmdb/src/tmdb.cpp:791-820 | As coded, deleting a key that does not head its bucket changes the answer of the key of the physically next record only, to what stands at that record's data position with the deleted one's low half, which under four gigabytes is the deleted key's value. |
| TmdbUpdate.CodedDeleteShape | tmdb/src/tmdb.cpp:806-808 | The files then stay well formed if and only if the record was not the last of the index file. |
| TmdbUpdate.CodedUpdatesFail | tmdb/src/tmdb.cpp:693-820 | A store with one key on which the coded replace and the coded delete both miss. |
| TmdbCalls.StoreReturns | tmdb/src/tmdb.cpp:509-566 | A store returns -1 for a bad mode, key or value, 0 when the mode and the key's presence leave nothing to do, else 1, and changes nothing unless it returns 1. |
| TmdbCalls.RemoveReturns | tmdb/src/tmdb.cpp:719-744 | Likewise a delete. |
| TmdbCalls.FetchReads | tmdb/src/tmdb.cpp:857-899 | What a fetch of a found key answers, from the bytes at the offsets it reads: the payload up to its first zero, or a failed read. |
| TmdbCalls.CodedRemoveKeeps | tmdb/src/tmdb.cpp:719-823 | As a call, the coded delete of a key that does not head bucket 0 returns 1, and a fetch answers as before. |
| TmdbCalls.CodedRemoveExactly | tmdb/src/tmdb.cpp:719-823 | As a call, it returns 1 for every stored key, which becomes absent under exactly the condition of CodedDeleteExactly. |
| TmdbCalls.CodedStoreReads | tmdb/src/tmdb.cpp:509-710 | As a call, the coded replace returns 1 for every stored key, and the new value is fetched under exactly the condition of CodedReplaceReads. |
| TmdbCalls.CodedCallsFail | tmdb/src/tmdb.cpp:693-820 | The one-key example as calls, with their return codes. |
| TmdbStore.Tdb.Create | tmdb/src/tmdb.cpp:312-350 | The writes of creation give the two all-zero files of the specification. |
| TmdbStore.Tdb.HashOf | tmdb/src/tmdb.cpp:358-365 | The loop with 64-bit wrap-around and signed characters computes the specified bucket. |
| TmdbStore.Tdb.Search | tmdb/src/tmdb.cpp:374-476 | The search reports first, not-exist or exist as the chain says, and leaves the bucket's head, the found record or the chain's last one, its end and the data position in the handle. |
| TmdbStore.Tdb.Walk | tmdb/src/tmdb.cpp:433-458 | The pointer-chasing loop ends, by the distance to the end of the file, at the first record that answers the key or at the chain's last record. |
| TmdbStore.Tdb.AppendData | tmdb/src/tmdb.cpp:591-617 | Link the last record if it ends at byte 280 or later, then append: the data file becomes the specified one. |
| TmdbStore.Tdb.AppendKey | tmdb/src/tmdb.cpp:651-674 | Append the key record and patch one pointer, the bucket's or the last record's. |
| TmdbStore.Tdb.Store | tmdb/src/tmdb.cpp:509-710 | In every mode, on every key and value, the files and the return code are the specified ones; the list of stored values grows exactly on success. |
| TmdbStore.Tdb.Delete | tmdb/src/tmdb.cpp:719-823 | The files and the return code after a delete are the specified ones, at either choice of addresses. |
| TmdbStore.Tdb.Fetch | tmdb/src/tmdb.cpp:830-904 | A fetch answers what the files say and changes nothing but the handle's scratch fields. |
| TmdbRuns.StepRefines | tmdb/src/tmdb.cpp:509-904 | Each call keeps the files well formed, returns what the map returns, and takes the files to ones that stand for the map's next value. |
| TmdbRuns.RunRefines | tmdb/src/tmdb.cpp:509-904 | Every run of stores, deletes, fetches and reopens gives the answers of the run on the map; with coded addresses for insert, fetch and reopen, with commented ones for all. |
| TmdbRuns.FetchAnswersFirstValue | tmdb/src/tmdb.cpp:549-557 | After any run of insertions, fetches and reopens on a created store, a key answers the first value stored for it, or absent if there was none. |
| Channel.TokensConserved | clientserver/clientserver/server.cpp:121-176 | In every reachable state the semaphore counts and the parties in a critical section sum to 1, plus one for a delete that fell through. |
| ChannelSafety.MoveInv | clientserver/clientserver/clientAPI.cpp:115-167 | Every step of a client, the server or the environment keeps the invariant that ties token, buffer, log and store. |
| ChannelSafety.MutualExclusion | clientserver/clientserver/server.cpp:128-176 | At most one party touches the shared struct, no semaphore can then be taken, and only the client that asked takes a posted answer, for its own key. |
| ChannelSafety.GetSeesLastStored | clientserver/clientserver/clientAPI.cpp:134-158 | When a get copies its answer, every earlier set has been acted on and the buffer holds exactly: nothing if its item was gone when the server looked, else what another channel wrote since, else the last accepted value of its own key in token order, else nothing. |
| ChannelSafety.LastStoredIsLastSet | clientserver/cachelibheader/cachelibHeader.cpp:85-93 | The last accepted value of a key is its last set value if and only if there is no set, the last one was accepted, or the same value had been accepted before. |
| ChannelSafety.RepliesAreLastStored | clientserver/clientserver/clientAPI.cpp:115-167 | When one thread makes all gets on a client object, each returns exactly that value, for the sets ordered before it. |
| ChannelSafety.UndisturbedReplies | clientserver/clientserver/clientAPI.cpp:115-167 | Where nobody evicts or overwrites the key, each get returns the last accepted value, and nothing only if there is none. |
| ChannelGetters.SecondGetterRaces | clientserver/clientserver/clientAPI.cpp:155-162 | For any two threads of one client object there is a run in which the first one's get returns the value read for the second one's key. |
| ChannelGetters.GettersExactly | clientserver/clientserver/clientAPI.cpp:134-167 | Gets answer properly in all runs of all workloads if and only if at most one thread calls getKV. |
| ChannelProgress.MoveWork | clientserver/clientserver/server.cpp:128-176 | Every step of a client or the server lowers the work measure; the environment leaves it alone. |
| ChannelProgress.SchedulesEnd | clientserver/clientserver/clientAPI.cpp:115-182 | No schedule takes more real steps than the measure of its start. |
| ChannelProgress.NeverStuck | clientserver/clientserver/clientAPI.cpp:115-167 | While the server runs and a client is unfinished or the token is out, some real step is enabled. |
| ChannelProgress.SingleClientCompletes | clientserver/clientserver/clientAPI.cpp:9-28 | A client that sets, gets and closes: a run with no real step left has ended with the server's exit, and the server never exits before all calls returned and all sets were acted on. |
| ChannelDeletes.DeleteStopsServer | clientserver/clientserver/server.cpp:165-173 | A dispatched delete removes the key and no other item, posts Server twice and ends the service loop. |
| ChannelDeletes.DeletersExactly | clientserver/clientserver/server.cpp:165-173 | Mutual exclusion holds in all runs of all workloads if and only if no thread calls delKV or there is at most one thread. |
| ChannelDeletes.AtMostTwoReturn | clientserver/clientserver/clientAPI.cpp:115-183 | Once the server has exited and no get is on its way back, at most two more calls of all threads return, and no get. |
| ChannelDeletes.DeleteLetsTwoPass | clientserver/clientserver/clientAPI.cpp:169-183 | A thread that goes on after its first delete: when nothing can move, exactly the next two calls have returned, or those before a get if it comes sooner. |
| ChannelDeletes.NoAnswerAfterExit | clientserver/clientserver/clientAPI.cpp:147-148 | Once the server has exited, a get that has not taken an answer never returns. |
| Registration.RegisterInv | clientserver/clientserver/server.cpp:274-289 | A registration keeps the counts equal to the live channels and the ids distinct, also when the unlocked test was overtaken by a retiring thread. |
| Registration.RetireInv | clientserver/clientserver/server.cpp:218-220 | So does a retiring thread. |
| Registration.RegistrationSafe | clientserver/clientserver/server.cpp:274-292 | Under every interleaving the active count is the number of live channels, live channels are distinct, and ids restart only when the pool has no live channel. |
| RegistrationIds.RegisterHandsOut | clientserver/clientserver/server.cpp:274-292 | In every run, told from the events and the live channels alone: a registration adds channel 0 if its pool had no live channel when it was tested, and else the number after the one its pool was given last. |
| Registration.NameInjective | clientserver/clientserver/server.cpp:117-126 | A shared-memory or semaphore name determines pool, id and kind, for arbitrary pool names. |
| Registration.FirstNames | clientserver/clientserver/server.cpp:117-126 | The three names of channel 0 of any pool, spelled out. |
| Registration.LiveNamesDistinct | clientserver/clientserver/server.cpp:291 | No two live channels of any pools share a name. |
| CacheUtils.UnpackValues | backend/src/utils/cache_utils.h:14-22 | The loop cuts the text into the specified pieces. |
| CacheUtils.PackUnpack | backend/src/utils/cache_utils.h:7-22 | Packing what was unpacked gives the text back, and the pieces have fixed width. |
| CacheUtils.UnpackPackExactly | backend/src/utils/cache_utils.h:7-22 | Unpacking what was packed gives the fields back if and only if all but the last have full width and the last is non-empty and no wider. |
| Decimal.PrintIsDecimal | backend/src/cache/AutoIncCache.cpp:26 | A number is printed in positional base ten without a leading zero. |
| AutoIncCache.FullKeyInjective | backend/src/cache/AutoIncCache.cpp:26 | A full key determines counter, thread number and key. |
| AutoIncCache.FullKeyText | backend/src/cache/AutoIncCache.cpp:26 | The full key spelled out. |
| AutoIncCache.Cache.Put | backend/src/cache/AutoIncCache.cpp:18-31 | Values over 4 MB are refused with false; others reach the pool under the full key, unless the pool drops them. |
| AutoIncCache.Cache.Fetch | backend/src/cache/AutoIncCache.cpp:33-39 | A get asks for the full key of the present generation. |
| AutoIncCache.Cache.InvalidateAll | backend/src/cache/AutoIncCache.cpp:50-53 | The 32-bit counter follows the number of invalidations, through its wrap-around. |
| AutoIncCache.GetIsCurrent | backend/src/cache/AutoIncCache.cpp:18-53 | In any run with fewer than 2^32 invalidations a get answers exactly the last value taken for its key since the last invalidation, or nothing if there is none or it was removed or evicted since. |
| AutoIncCache.OldValueReturns | backend/src/cache/AutoIncCache.cpp:50-53 | An old value comes back if and only if the invalidations since it was put are a multiple of 2^32. |
| Backends.LevelDBBackend.ReadRecord | backend/src/backend/LevelDBBackend.cpp:47-100 | Answer, database, pool and hit count after a read are the specified ones. |
| Backends.LevelDBBackend.InsertRecord | backend/src/backend/LevelDBBackend.cpp:102-124 | So are they after an insertion, and the result is the status of the Put. |
| Backends.LevelTransparent | backend/src/backend/LevelDBBackend.cpp:47-124 | From any pool that repeats the database, every run answers as with the cache off, under arbitrary evictions and drops, as long as no overwrite is dropped and no failed insertion is taken. |
| Backends.LevelTransparentFromEmpty | backend/src/backend/LevelDBBackend.cpp:47-124 | The same from an empty pool and any database. |
| Backends.LevelInsertExactly | backend/src/backend/LevelDBBackend.cpp:102-124 | A read after an insertion is transparent if and only if what the pool holds for the key is nothing or what the database holds, spelled out for values taken and dropped and Puts done and failed. |
| BackendReads.LevelReadBack | backend/src/backend/LevelDBBackend.cpp:59-124 | After an insertion a read of the key answers the inserted fields if and only if they are 128 characters wide (the last may be shorter), from the database and from a pool that took them. |
| BackendReads.LevelOthersKept | backend/src/backend/LevelDBBackend.cpp:102-124 | An insertion, done or failed, changes no other key's answer. |
| BackendReads.LevelReadsLast | backend/src/backend/LevelDBBackend.cpp:47-124 | A read at the end of any run answers the fields last inserted for its key, if and only if they have that width, or no record; with the cache on as well for transparent runs. |
| BackendReads.LevelHits | backend/src/backend/LevelDBBackend.cpp:54-67 | A read counts as a hit exactly when the cache is on and the pool holds a non-empty item; with the cache off a read touches nothing. |
| BackendReads.LevelWarms | backend/src/backend/LevelDBBackend.cpp:85-117 | What a miss brings in or an insertion offers makes the next read a hit, if the pool takes it. |
| Backends.ReadSqlInjective | backend/src/backend/MysqlBackend.cpp:99-101 | Two read statements for one table are equal if and only if their keys are. |
| Backends.MySQLBackend.ReadRecord | backend/src/backend/MysqlBackend.cpp:58-81 | Answer, database, pool and hit count after a read are the specified ones, also for a caller's vector with text in it. |
| Backends.MySQLBackend.InsertRecord | backend/src/backend/MysqlBackend.cpp:83-86 | The generation moves on before the statement runs, and a duplicate key or any other failure throws and leaves the table alone. |
| Backends.SqlTransparent | backend/src/backend/MysqlBackend.cpp:58-86 | Every run answers as with the cache off, under arbitrary evictions and drops and any number of generations, for rows of fixed-width fields. |
| Backends.SqlTransparentFromEmpty | backend/src/backend/MysqlBackend.cpp:58-86 | The same from an empty pool and any table of such rows. |
| Backends.SqlRowsExactly | backend/src/backend/MysqlBackend.cpp:58-81 | A record that has been cached is given back if and only if its fields have the fixed width or are all empty. |
| BackendReads.SqlReadBack | backend/src/backend/MysqlBackend.cpp:58-86 | A new record is read back whole, whatever the pool still holds. |
| BackendReads.SqlOthersKept | backend/src/backend/MysqlBackend.cpp:83-86 | An insertion changes no other key's answer, and a rejected one not its own. |
| BackendReads.SqlReadsFirst | backend/src/backend/MysqlBackend.cpp:58-86 | A read at the end of any run answers the fields first inserted for its key, or no record; with the cache on as well for rows of 128-character fields. |
| BackendReads.SqlHits | backend/src/backend/MysqlBackend.cpp:60-67 | A read counts as a hit exactly when the cache is on and the pool holds a non-empty item of the present generation. |
| BackendReads.SqlWarms | backend/src/backend/MysqlBackend.cpp:73-77 | What a miss brings in makes the next read a hit, if the pool takes it. |
| BackendReads.SqlInsertInvalidates | backend/src/backend/MysqlBackend.cpp:83-86 | An insertion, also one that fails, makes every next read a miss, for fewer than 2^32 generations. |
| Backends.SqlNeedsEmptyVector | backend/src/backend/MysqlBackend.cpp:70-74 | A hit answers like a miss if and only if the caller's vector was empty. |
| Resizer.TargetIsMaxAsked | clientserver/clientserver/server.cpp:73-86 | After both loops a named pool has the largest size asked for it, however often it is named, and the others keep theirs. |
| Resizer.TargetBytes | clientserver/clientserver/server.cpp:73-86 | In bytes: a pool ends at exactly 16777216 times its largest request, and keeps every byte when all its requests are for its present whole units or there are none. |
| Resizer.ShrinkingFalls | clientserver/clientserver/server.cpp:73-79 | The total reserved falls through the first loop. |
| Resizer.GrowingRises | clientserver/clientserver/server.cpp:80-86 | And rises through the second. |
| Resizer.PeakReserved | clientserver/clientserver/server.cpp:73-86 | At no point is more reserved than the larger of the totals before and after. |
| Resizer.Cache.AddPool | clientserver/cachelibheader/cachelibHeader.cpp:72-83 | An existing pool keeps its size; a new one is added when the budget has room. |
| Resizer.Cache.ResizePool | clientserver/cachelibheader/cachelibHeader.cpp:136-148 | A shrink always succeeds, a grow exactly when the budget has room; no other pool changes. |
| Resizer.SettledBounds | clientserver/clientserver/server.cpp:73-86 | Whether or not everything fits, a named pool ends between its size after the first loop and the largest size asked, and an unnamed one keeps its size. |
| Resizer.Cache.ExecuteNewConfig | clientserver/clientserver/server.cpp:57-87 | All grows succeed if and only if the names are known and the final total fits the budget, and then the pools are the specified ones; otherwise just the grows that do not fit are left out; a name without a pool ends it after the rows before it. |
| TextProtocol.Explode | tmdb/src/tm_util.cpp:108-133 | The counting and copying loops produce exactly the pieces of the split. |
| TextProtocol.SplitJoin | tmdb/src/tm_util.cpp:108-133 | Splitting undoes joining for pieces without the delimiter. |
| TextProtocol.JoinSplit | tmdb/src/tm_util.cpp:108-133 | Joining the pieces gives the text back, and no piece contains the delimiter. |
| TextProtocol.GetPoolStats | schedule/util.py:51-57 | The loop fills the dictionary the reply describes, or fails as it does, with int()'s blanks, signs and underscores. |
| TextProtocol.ReplyRoundTrip | clientserver/clientserver/server.cpp:303-308 | Parsing the printed reply gives back the whole pool map, for names without the two separators. |
| TextProtocol.StatsRoundTrip | clientserver/clientserver/server.cpp:46-55 | From the cache's ledger the scheduler gets every pool with its whole units of 16777216 bytes. |
| TextProtocol.PyIntSigned | schedule/util.py:55 | A signed number is read with its sign. |
| TextProtocol.PyIntBlanks | schedule/util.py:55 | Blanks around a number are skipped. |
| TextProtocol.TextExamples | clientserver/clientserver/server.cpp:305-307 | The reply and the request for two pools, spelled out. |
| TextProtocol.ReadRows | clientserver/clientserver/server.cpp:69-72 | The loop pairs names with sizes, reading a size as >> does (sign, digits up to the first other character, 64 bits), and stops at the first that fails. |
| TextProtocol.TakeSizeSigned | clientserver/clientserver/server.cpp:69 | A plus sign is skipped, a minus sign negates modulo 2^64, and 2^64 and more fail. |
| TextProtocol.SixBlanks | clientserver/clientserver/server.cpp:69 | Exactly six characters separate words. |
| TextProtocol.RequestRoundTrip | schedule/util.py:93-95 | Parsing the printed request gives back the pairs up to the shorter list, for names that are words. |
| Sorting.SortedUnique | backend/src/utils/percentile.h:13-14 | A multiset has one sorted listing, so any sort gives the copy used here. |
| TailLatency.Tail.Push | clientserver/clientserver/clientAPI.h:62-72 | After a push the heap holds exactly the min(k, n) largest of the values pushed, with multiplicity. |
| TailLatency.Tail.GetResult | clientserver/clientserver/clientAPI.h:73-74 | The result is the k-th largest value pushed, or the smallest when fewer than k were. |
| TailLatency.Tail.Clear | clientserver/clientserver/clientAPI.h:99-101 | Clearing forgets all values. |
| TailLatency.LargestAfter | clientserver/clientserver/clientAPI.h:62-72 | One more value changes the k largest by adding it, exchanging it for the smallest, or not at all. |
| TailLatency.LargestPermuted | clientserver/clientserver/clientAPI.h:62-74 | The k largest do not depend on the order of the pushes. |
| Percentile.PercentilePermuted | backend/src/utils/percentile.h:13-14 | The percentile does not depend on the order of its input. |
| Percentile.PercentileBetween | backend/src/utils/percentile.h:16-25 | The truncated result lies between the order statistics on either side of p. |
| Percentile.PercentileAtRank | backend/src/utils/percentile.h:16-25 | At i / (n - 1) the percentile is the i-th order statistic. |
| Percentile.PercentileBetweenRanks | backend/src/utils/percentile.h:16-25 | Between i / (n - 1) and (i + 1) / (n - 1) it lies between those two order statistics. |
| Percentile.PercentileSmall | backend/src/utils/percentile.h:8-23 | One value is every percentile of itself, and an empty list answers 0. |
| Percentile.PercentileMonotone | backend/src/utils/percentile.h:6-26 | A higher percentile is never smaller, also after truncation. |
| Percentile.InterpolateExact | backend/src/utils/percentile.h:16-25 | On evenly spaced values the interpolation at p is the straight line through them at (n - 1) p. |
| Percentile.ReportedPercentiles | backend/src/main.cpp:224-226 | The three reported figures are in order for every latency list. |
| Zipf.Zeta | backend/src/utils/zipfian.h:131-137 | The loop computes the sum of the first n weights. |
| Zipf.ZetaIsSum | backend/src/utils/zipfian.h:131-137 | It is the sum of 1 / 1, 1 / 2, up to 1 / n to the power theta. |
| Zipf.ThirdNeedsThree | backend/src/utils/zipfian.h:204-208 | With fewer than three ranks the third branch is never reached. |
| Zipf.SpreadBounds | backend/src/utils/zipfian.h:199-208 | The third branch adds at least 2 and less than n. |
| Zipf.BranchesPartition | backend/src/utils/zipfian.h:204-208 | With z the sum of the weights: the sample is a if and only if u z < 1, a + 1 if and only if 1 <= u z < 1 + pow(0.5, theta), and at least a + 2 if and only if u z is larger. |
| Zipf.ThirdBranch | backend/src/utils/zipfian.h:199-208 | There the sample is a + s without its fraction, where pow(s / n, 1 - theta) runs in a straight line from pow(2 / n, 1 - theta) at the branch's begin to 1. |
| Zipf.SampleInRangeExactly | backend/src/utils/zipfian.h:197-209 | For each draw the sample is at least a and at most b + 1, and at most b if and only if b is not negative or the sum before truncation is at most b. |
| Zipf.RangeKeptExactly | backend/src/utils/zipfian.h:197-209 | Every draw from [a, b] lies in [a, b] if and only if b is not negative or the range has at most two numbers. |
| Zipf.NegativeRangeOverstepped | backend/src/utils/zipfian.h:208 | In every range of three or more negative numbers and for every skew some draw gives b + 1. |

## Left out

- Sockets, `mmap`, `shm_open`, process exit, spinning against waiting, logging, file locks, `malloc` and `free`.
- Buffer sizes: 512-byte keys and 1 MB values of the shared struct, 1024-byte messages, 32-byte channel names; and
  the `pid` and `shmId` fields, which the server does not use to find an item.
- The inside of the cache library: eviction and refusal are arbitrary, pool sizes are a ledger.
- TmdbHeadDelete.CodedDeleteExactly: leaves out a data position that is not a multiple of 8 and at which the table's
  bytes, read as a `next_ptr`, are not zero, and one past the table; the search then runs through misaligned bytes,
  which `TmdbChase.Chase` models but no theorem sums up.
- TmdbHeadDelete.HeadDeleteOdd: leaves out data files of two gigabytes and more, where the damaged head is negative.
- TmdbHeadDelete.HeadDeleteEven: leaves out data positions that are not a multiple of 8, except for the deleted key.
- TmdbChase.FetchReturnsView: of a damaged record with a negative data position the model says that its value is
  unreadable; the source would read on from where the data file stands.
- TmdbUpdate.CodedReplaceEmpties: is stated for data files under four gigabytes; `CodedReplaceReads` has no such bound.
- TmdbStore.Tdb.Fetch: reports a short read as a value; the source prints a message and exits. A value of exactly
  4194304 bytes fills the source's buffer without a terminator, and its `strlen` then reads on; the model stops.
- TmdbStore.Tdb.Open: the file name, the mode letters and `_db_close` are not modelled, only that the bytes persist.
- `_db_nextrec`, whose body is disabled, and the null checks of the public wrappers.
- ChannelSafety.MoveInv: is stated for workloads without delKV; what holds with one is in `ChannelDeletes`.
- Channel.TokensConserved: the channel and the registration are state machines over values, one step for each atomic
  action, so a copy into or out of the shared struct is one step and aliasing of the mapped memory is not captured.
- The hit-rate code, which is compiled out, and the artificial miss branch of `getKV`, which is never taken.
- Registration.RegistrationSafe: the id counter is unbounded; the source's wraps at 2^31 channels. Threads that end
  without reaching the locked decrement are not modelled.
- Resizer.Cache.ExecuteNewConfig: takes the cache library to throw when asked for pool id -1, which is not part of
  this repository. Sizes whose product with 16 MB exceeds 64 bits wrap in the source.
- Resizer.Cache.AddPool: takes the size of a new pool as a parameter, and leaves out the default-pool build.
- Backends.LevelTransparent: a failed Put leaves the database as it was, and Get fails only for a missing key;
  `clean_up`, which deletes from the
  database without touching the cache, and reuse of one pool by several processes are not part of the runs.
- Backends.SqlTransparent: quoting in the insert statement, the MongoDB, SQLite and tmdb back ends.
- TextProtocol.GetPoolStats: blanks and digits outside ASCII.
- TailLatency.Tail.Push: the heap is a multiset with a least element, not the array of the library's priority queue.
- Percentile.PercentileMonotone: over ideal reals, without rounding.
- Zipf.SampleInRangeExactly: over ideal reals, without rounding, for any pow that meets the stated laws; the random
  generator is the parameter u, and the integer type is unbounded.
- `average`, the benchmark drivers, the bandwidth scheduler, plotting and the simple test programs.
