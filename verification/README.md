# ISP Session: verified models

ISP Session shares session and application state between classic ASP and ASP.NET through Redis. This
project models its stateful core in Dafny and proves what each part is for.

* **The quorum lock.** `RedlockProtocol.dfy` is a step system: servers mapping resources to entries with
  a value and a time to live, any number of lock calls with their program counters, and one clock. A
  server call is atomic but may be lost before or after it took effect; a server may drop an entry early
  by the drift allowance; a release loop may be cut short. `RedlockSafety.dfy` proves exclusion over
  whole runs, with the millisecond clock of the managed client and with the second clock of the native
  one, and `Redlock.dfy` runs the client code on it: what becomes of each call is settled by the network
  alone, everybody else takes any steps in between, and the contracts speak of the whole run of a call.
* **The variant stream format.** `Odometer.dfy` is the walk over multi-dimensional arrays, `Codec.dfy`
  the format as functions, `CodecRoundTrip.dfy` its round trip, `CodecFormat.dfy` what that means by type,
  shape and byte, `CodecReading.dfy` what is made of bytes nobody has written, `Streams.dfy` the writer and
  the reader as code on a stream. `PersistUtil.dfy` adds the records with back-patched offsets.
* **sds strings.** `Sds.dfy` is the growing buffer, `SdsText.dfy` the quoting printer, the parser,
  splitting and joining, `SdsGrammar.dfy` the language that the parser accepts; `Splitting.dfy` holds what
  is common to splitting bytes and wide characters.
* **The application cache.** `AppCache.dfy` is the dictionary with its flags, `AppSave.dfy` the
  transaction of differences and the load through the index set.
* **Buffers and bytes.** `Bstr.dfy` is the wide string edited in place, `CStream.dfy` the seekable
  stream and the key serializer built on it, `HashData.dfy` the table hash, `Bytes.dfy` little-endian
  numbers and ASCII upper case.

`dafny verify dfyconfig.toml` checks everything.

Some behaviour is not what the surrounding comments lead one to expect. The model follows the code, and
the theorems say exactly when the expectation holds:

* The native lock computes validity from whole seconds, so that a majority is not enough
  (`RedlockSafety.SecondsExclusionIff`); a single window is safe under a condition on its two instants
  (`RedlockSafety.SecondsWindowSafeIff`).
* `Replace` with a shorter text can find the token again in characters it has moved
  (`Bstr.ReplaceMeetsIff`), and a string equal to the token is left as it is.
* A key put again after its removal is lost at the next load (`AppSave.SaveThenLoadIff`).
* `CopyTo` with a count of 4 GB or more may never end; seeking from the end ignores its distance.
* An unsigned byte is read back as a 32-bit number and a null string in an array as an empty one
  (`CodecRoundTrip.NormKeepsIff`); arrays of database nulls that can be written cannot be read
  (`CodecRoundTrip.ReadBackIffReadable`).
* An array whose descriptor has too small an element size is filled up with zeros
  (`CodecReading.BlockRead`).
* One-dimensional byte arrays that do not start at 0 (`CodecRoundTrip.OffsetBytesRefused`), and arrays
  walked by the odometer whose dimension 0 ends at the largest integer (`Odometer.Walk`,
  `CodecRoundTrip.TopIndexRefused`), are refused.
* Multi-dimensional numeric arrays are permuted between the two runtimes (`Odometer.LayoutsAgreeIff`).
* `putref_Value` takes a boolean for an object (`AppCache.TagsTaken`).

## Model

| member | source | states |
|---|---|---|
| `RedlockProtocol.StepKeepsEntries` | src/CSessionManaged/Redlock.cs:68-95 | NX and compare-and-delete never touch the entry of another caller: only the call itself, a renewal that displaces it, or an expiry removes an entry that could not yet have run out |
| `RedlockProtocol.StepKeepsInv` | src/CSessionManaged/Redlock.cs:97-146 | every step of any client, server or clock keeps the invariant that the servers counted by an attempt still hold its entries until the earliest moment these can expire |
| `RedlockProtocol.DriftRounds` | src/COM/CRedLock.cpp:160-163 | the drift allowance is 2 ms more than the whole hundreds of the ttl, counted toward zero |
| `RedlockProtocol.AcquireMeans` | src/COM/CRedLock.cpp:246-291 | one server accepts if and only if the ttl is positive and the key is free or, for a renewal, held by the lock renewed; its entry is then that of the call, and no other key is touched |
| `RedlockProtocol.DeletesOwn` | src/CSessionManaged/Redlock.cs:49-54 | the unlock script removes the entry that carries the id, and nothing else |
| `RedlockSafety.RunKeepsInv` | src/CSessionManaged/Redlock.cs:97-146 | the invariant holds in every state of every run, and the number of servers and the quorum never change |
| `RedlockSafety.QuorumsIntersect` | src/CSessionManaged/Redlock.cs:44 | two sets of servers whose sizes add up to more than there are share a server |
| `RedlockSafety.MillisWindow` | src/CSessionManaged/Redlock.cs:121-128 | with a millisecond clock the granted validity ends exactly at start + ttl - drift, the earliest moment an entry can be dropped |
| `RedlockSafety.MutualExclusion` | src/CSessionManaged/Redlock.cs:44-146 | over every run of any number of clients and servers, renewals included and with any mix of clocks, two different lock values are never inside safe windows for one resource, given a majority quorum; every window of the millisecond clock is safe, and those of the second clock under the condition of SecondsWindowSafeIff |
| `RedlockSafety.ExclusionIffMajority` | src/CSessionManaged/Redlock.cs:44 | exclusion holds in all runs on n servers with quorum q if and only if q is a majority of n |
| `RedlockSafety.MinorityClash` | src/COM/CRedLock.cpp:120-129 | with any quorum that is not a majority, two clients reach a state in which both hold the lock |
| `RedlockSafety.SecondsDifference` | src/COM/CRedLock.cpp:151-170 | the 32-bit wrap-around of the second clock cancels out of every difference |
| `Bytes.Truncates` | src/COM/CRedLock.cpp:151-170 | the truncation to 32 bits is the one number in range that differs by a multiple of 2^32 |
| `RedlockSafety.SecondsValidity` | src/COM/CRedLock.cpp:151-170 | the validity from the truncated clock is off by the difference of the sub-second parts: never above ttl - drift, and more than the true remaining time by strictly less than 1000 ms |
| `RedlockSafety.SecondsWindowSafeIff` | src/COM/CRedLock.cpp:151-170 | the granted window ends before the entries can expire exactly when the deciding instant is no later within its second than the start |
| `RedlockSafety.SecondsExclusionIff` | src/COM/CRedLock.cpp:142-230 | for every number of servers, every quorum and every 32-bit ttl (negative ones with a positive quorum): clients with the second clock, in attempts shorter than 2^31 ms, never share the lock in any run if and only if ttl - drift is not positive or the quorum cannot be won |
| `RedlockSafety.SecondsClashes` | src/COM/CRedLock.cpp:142-180 | in all other cases a run leads two native clients to hold one lock: the first decides at the end of a second, its entries run out, the second wins every server |
| `RedlockSafety.RunWinsNothing` | src/COM/CRedLock.cpp:246-309 | no call whose ttl is not positive ever wins a server |
| `RedlockSafety.SecondsClash` | src/COM/CRedLock.cpp:151-170 | the smallest case: one server, ttl 1000 ms |
| `RedlockSafety.LockThenUnlock` | src/CSessionManaged/Redlock.cs:97-184 | an attempt on a free quorum reaches a hold, and unlocking restores the servers as they were before the lock |
| `Redlock.Cluster.LockInstance` | src/CSessionManaged/Redlock.cs:68-82 | one server call: it succeeds exactly when the server accepts and the network lets the acknowledgement through, and changes that server and the attempt alone |
| `Redlock.Cluster.UnlockInstance` | src/CSessionManaged/Redlock.cs:85-95 | one compare-and-delete call: it reaches the server and fails as the network has it; reached, the server keeps no entry of the call |
| `Redlock.Cluster.LockEveryInstance` | src/CSessionManaged/Redlock.cs:105-114 | the acquiring loop counts exactly the distinct servers won, while everybody else goes on |
| `Redlock.Cluster.Conclude` | src/CSessionManaged/Redlock.cs:121-132 | granted exactly with a quorum and validity left, in which case the caller is inside its window |
| `Redlock.Cluster.ReleaseAllInstances` | src/CSessionManaged/Redlock.cs:133-144 | the release loop asks one server after the other, up to the last or the first failure; every server reached is left without the entry, and the attempt is over without a hold |
| `Redlock.Cluster.Attempt` | src/CSessionManaged/Redlock.cs:101-142 | one attempt: a hold on a quorum inside its window, reached in its last step; or, decided and denied, no hold in any state, everything released up to a failure, and one try less |
| `Redlock.UnheldDenied` | src/CSessionManaged/Redlock.cs:116-142 | over a stretch of a run in which a call holds nothing, every decided attempt of it lacked a quorum or validity |
| `Redlock.Cluster.Retry` | src/CSessionManaged/Redlock.cs:164-176 | attempts until one is granted or each of the given number has been decided; no state before the end holds the lock, so on failure every attempt was denied for want of a quorum or validity, and no lock that was granted is ever given back |
| `Redlock.Cluster.Lock` | src/CSessionManaged/Redlock.cs:97-176 | under any interference: after at most the given number of attempts a quorum and, with a majority, being the only caller inside a safe window; or nothing, after exactly that many attempts of which each was decided without a quorum or validity; in between nothing was held and every failed attempt was released up to a failure |
| `Redlock.Cluster.NativeLock` | src/COM/CRedLock.cpp:142-180 | the same with at least one attempt and the second clock, exclusive whenever its own window is safe; it fails only if every attempt was denied |
| `Redlock.Cluster.ContinueLock` | src/COM/CRedLock.cpp:185-230 | a renewal ends the earlier hold of the client object for good, displaces that lock on the servers, and otherwise gives its caller what a lock does, over the same history of attempts |
| `Redlock.Cluster.Unlock` | src/CSessionManaged/Redlock.cs:178-184 | after unlocking, the caller is outside its window, the call can never acquire again, and every server the release has reached is without its entry |
| `Redlock.ServerList.AddServerUrl` | src/COM/CRedLock.cpp:120-129 | after every call the quorum is the smallest majority of the connected servers, whether or not the connection was made |
| `Odometer.RankInjective` | src/CSessionManaged/StreamManager.cs:413-466 | the digits of the odometer determine, and are determined by, one number below the product of the lengths |
| `Odometer.TurnCounts` | src/CSessionManaged/StreamManager.cs:448-464 | turning the first dimension that can still turn, with all lower ones reset, counts on by exactly one; when none can, the tuple was the last |
| `Odometer.Scan` | src/CSessionManaged/StreamManager.cs:451-458 | the carry scan stops at the first dimension above 0 that can turn, or one behind the last |
| `Odometer.TurnHigher` | src/CSessionManaged/StreamManager.cs:448-464 | the carry branch turns that dimension and resets those before it; it leaves the vector exactly when there is none |
| `Odometer.Carry` | src/CSessionManaged/StreamManager.cs:448-464 | one past a tuple that is not the last, the scan stays within the vector and leaves the next tuple |
| `Odometer.IndexEnd` | src/CSessionManaged/StreamManager.cs:422-423 | the end of dimension 0 added up in 32 bits wraps around exactly when its last index is the largest integer |
| `Odometer.Walk` | src/CSessionManaged/StreamManager.cs:413-466 | for every rank and all non-empty bounds an array can have: if and only if the last index of dimension 0 is below the largest integer, the loop ends after exactly the product of the lengths, the k-th tuple visited being the mixed-radix expansion of k, dimension 0 fastest; otherwise it fails |
| `Odometer.WalkNowhere` | src/CSessionManaged/StreamManager.cs:420-466 | in that other case no element is visited: the carry takes the dimensions above 0 through all their tuples and then leaves the vector |
| `Odometer.VisitedExactlyOnce` | src/CSessionManaged/StreamManager.cs:832-887 | every index tuple within the bounds is visited, and only once |
| `Odometer.TuplesAreWalk` | src/CSessionManaged/StreamManager.cs:440-464 | the mixed-radix expansions of 0, 1, 2, ... follow each other by increment and carry |
| `Odometer.RowRankInverse` | src/CSessionManaged/StreamManager.cs:413-466 | the memory position of an index tuple in a row-major array determines the tuple |
| `Odometer.RowDigitsInverse` | src/CSessionManaged/StreamManager.cs:832-887 | every memory position of a row-major array is that of an index tuple |
| `Odometer.LinearScanIsOdometer` | src/COM/CVariantDictionary.cpp:550-573 | under the column-major layout the k-th tuple of the odometer lies at position k, so the linear writer and the odometer reader (lines 915-996) never permute an array |
| `Odometer.LayoutsAgreeIff` | src/COM/CVariantDictionary.cpp:533-548 | the row-major block of the managed runtime (StreamManager.cs, lines 396-410) and the column-major block here agree if and only if the array is empty or at most one dimension has more than one index; in all others some element has another place in the other runtime |
| `Bytes.UnsignedRoundTrip` | src/CSessionManaged/StreamManager.cs:90-128 | an unsigned number of any width that fits is read back from its little-endian bytes |
| `Bytes.SignedRoundTrip` | src/CSessionManaged/StreamManager.cs:72-128 | a signed number that fits is read back from its two's complement bytes |
| `CodecFormat.ScalarsInNumbers` | src/CSessionManaged/StreamManager.cs:516-570 | the scalar values: 16-, 32- and 64-bit integers and bytes in their ranges, 4- and 8-byte floating-point numbers, dates, decimals, strings below 2 GB |
| `CodecFormat.ArraysInNumbers` | src/CSessionManaged/StreamManager.cs:341-395 | the array values: any element type, up to 32 dimensions with 32-bit bounds, below 2 GB |
| `CodecFormat.WrittenInNumbers` | src/CSessionManaged/StreamManager.cs:341-570 | every scalar is written; of the arrays that are not nested, those of integers and floating-point numbers, bytes unless in one dimension not starting at 0, strings and decimals unless dimension 0 ends at the largest integer, booleans only when empty, dates never, database nulls always |
| `CodecFormat.WrittenByElement` | src/CSessionManaged/StreamManager.cs:411-515 | a non-empty array of objects or of arrays is written if and only if dimension 0 ends below the largest integer and all its elements are; an empty one if it is of objects |
| `CodecFormat.ReadInNumbers` | src/CSessionManaged/StreamManager.cs:745-1039 | what was written is readable unless it is a non-empty array of database nulls or contains one |
| `CodecFormat.NormInNumbers` | src/CSessionManaged/StreamManager.cs:938-971 | what comes back: a lone byte as a 32-bit number, null strings in arrays as empty ones, everything else as it was, at every depth |
| `CodecFormat.StringArrayRound` | src/CSessionManaged/StreamManager.cs:411-447 | an array of strings of any shape whose dimension 0 ends below the largest integer comes back with its nulls empty |
| `CodecFormat.NumberArrayRound` | src/CSessionManaged/StreamManager.cs:396-447 | arrays of integers, floating-point numbers, decimals and bytes from 0 on come back unchanged |
| `CodecFormat.NestedArrayRound` | src/CSessionManaged/StreamManager.cs:448-515 | arrays of objects and of arrays come back if their elements do |
| `CodecFormat.LittleEndianAt` | src/CSessionManaged/StreamManager.cs:72-128 | numbers are stored least significant byte first |
| `CodecFormat.StringLayout` | src/CSessionManaged/StreamManager.cs:315-338 | a string is its length in four bytes and its own bytes |
| `CodecFormat.HeaderLayout` | src/CSessionManaged/StreamManager.cs:343-395 | an array header: tag, two zero bytes, element size, rank, the name of the element type (or the mark of a jagged array and its name, or an empty string), and length and lower bound of each dimension |
| `CodecFormat.IntLayout` | src/CSessionManaged/StreamManager.cs:90-128 | integers of every width in two's complement |
| `CodecFormat.ScalarLayout` | src/CSessionManaged/StreamManager.cs:516-570 | true is 255 255 and false 0 0; a decimal begins with its own tag; nulls take no bytes |
| `CodecFormat.BlockLayout` | src/CSessionManaged/StreamManager.cs:396-410 | the elements of a primitive array lie one after the other in memory order |
| `CodecFormat.ArrayLayout` | src/CSessionManaged/StreamManager.cs:411-515 | other elements follow the header one after the other in visiting order |
| `CodecFormat.ItemLayout` | src/CSessionManaged/StreamManager.cs:426-447 | an object is its tag and its value, a string in an array its length and bytes (none for null), a decimal its sixteen bytes |
| `Codec.OrderOfVisit` | src/CSessionManaged/StreamManager.cs:413-466 | the order in which the elements are visited and the moment each is visited are inverse to each other, both ways |
| `Codec.ScatterGather` | src/CSessionManaged/StreamManager.cs:413-466 | elements collected in odometer order and put back in odometer order are in their old places |
| `CodecRoundTrip.RoundTrip` | src/CSessionManaged/StreamManager.cs:341-653 | for every value that can be written and read, which CodecFormat.WrittenInNumbers, WrittenByElement and ReadInNumbers settle by type and shape, reading what was written (lines 745-1039) gives the value up to Norm and leaves every suffix unread |
| `CodecRoundTrip.ReadBackIffReadable` | src/CSessionManaged/StreamManager.cs:745-1039 | for every value that can be written, reading gives it back up to Norm if it is Readable, and fails if it is not |
| `CodecRoundTrip.NormKeepsIff` | src/CSessionManaged/StreamManager.cs:938-971 | a value comes back unchanged if and only if, at every depth, no byte stands alone and no array of strings holds a null |
| `CodecRoundTrip.OffsetBytesRefused` | src/CSessionManaged/StreamManager.cs:403-409 | a one-dimensional byte array that does not start at 0 is never written, the cast failing; its bytes would be read (lines 816-819) only if there were none |
| `CodecRoundTrip.BytesFromOne` | src/CSessionManaged/StreamManager.cs:403-409 | the smallest case: two bytes at the indices 1 and 2 |
| `CodecRoundTrip.TopIndexRefused` | src/CSessionManaged/StreamManager.cs:422-464 | an array written element by element whose dimension 0 ends at the largest integer can be neither written nor read |
| `CodecRoundTrip.ScalarRound` | src/CSessionManaged/StreamManager.cs:938-971 | every scalar is read back up to Norm: an unsigned byte comes back as a 32-bit number |
| `CodecRoundTrip.StringRound` | src/CSessionManaged/StreamManager.cs:301-338 | a string is read back from its length and its bytes |
| `CodecRoundTrip.HeaderRound` | src/CSessionManaged/StreamManager.cs:343-395 | the descriptor, the type name and the bounds of an array are read back, whatever rank and lower bounds |
| `CodecRoundTrip.BlockRound` | src/CSessionManaged/StreamManager.cs:396-410 | arrays of numbers copied as one block are read back element by element |
| `CodecRoundTrip.ElemsRound` | src/CSessionManaged/StreamManager.cs:830-933 | the elements written in odometer order are read back in that order, null strings as empty ones |
| `CodecReading.ScalarTaken` | src/CSessionManaged/StreamManager.cs:938-971 | for each fixed-size type, enough bytes always make a value of that type (of a lone byte a 32-bit number), and exactly as many are consumed |
| `CodecReading.BoolRead` | src/CSessionManaged/StreamManager.cs:255-262 | only the two bytes of -1 are true |
| `CodecReading.DecimalRead` | src/CSessionManaged/StreamManager.cs:219-230 | the two reserved bytes of a decimal are not looked at |
| `CodecReading.StringRead` | src/CSessionManaged/StreamManager.cs:301-314 | a negative length, or one beyond the end, is refused |
| `CodecReading.OtherTags` | src/CSessionManaged/StreamManager.cs:938-1039 | nulls take no bytes, and a tag that is neither a value's nor an object's is refused |
| `CodecReading.HeaderRead` | src/CSessionManaged/StreamManager.cs:748-792 | the tag in the descriptor is not looked at; arrays of objects and of arrays need a type name, the others a known type; a negative rank is refused and rank 0 stands for one empty dimension |
| `CodecReading.NegativeLength` | src/CSessionManaged/StreamManager.cs:793-804 | a negative length among the bounds is refused |
| `CodecReading.ArrayRead` | src/CSessionManaged/StreamManager.cs:793-810 | a product of 0 makes an empty array without reading on, and one of 2 GB or more is refused |
| `CodecReading.ElementsRefused` | src/CSessionManaged/StreamManager.cs:804-887 | which arrays are refused whatever bytes follow, and with which error |
| `CodecReading.BlockRead` | src/CSessionManaged/StreamManager.cs:805-829 | the element size in the descriptor, in 32-bit arithmetic, says how many bytes are copied into a block: fewer than it holds leave zeros, more or a negative number are refused |
| `CodecReading.BlockTaken` | src/CSessionManaged/StreamManager.cs:805-829 | every element of a block is made of its own bytes; a boolean is true unless its byte is zero |
| `CodecReading.ElementRead` | src/CSessionManaged/StreamManager.cs:845-930 | an object element is read as its own tag says |
| `Streams.StreamManager.WriteValue` | src/CSessionManaged/StreamManager.cs:341-653 | the imperative writer puts exactly the bytes of the format at the position, over any stream contents, and succeeds exactly for the values that CodecFormat.WrittenInNumbers and WrittenByElement list by type, shape and elements |
| `Streams.StreamManager.WriteString` | src/CSessionManaged/StreamManager.cs:315-338 | length and bytes at the position, nothing else changed |
| `Streams.StreamManager.WriteHeader` | src/CSessionManaged/StreamManager.cs:343-395 | descriptor, type name and bounds at the position |
| `Streams.StreamManager.WriteElements` | src/CSessionManaged/StreamManager.cs:411-515 | the odometer loop writes every element once, in odometer order |
| `Streams.StreamManager.ReadValue` | src/CSessionManaged/StreamManager.cs:745-1039 | the imperative reader returns what the format says of the bytes from the position on, consumes exactly those, and fails exactly where it says |
| `Streams.StreamManager.ReadArray` | src/CSessionManaged/StreamManager.cs:748-933 | the same for arrays: descriptor, type name, bounds and elements |
| `Streams.StreamManager.ReadAlong` | src/CSessionManaged/StreamManager.cs:830-933 | the reading odometer places the k-th element read at the k-th tuple and every place is filled |
| `Streams.StreamManager.ReadString` | src/CSessionManaged/StreamManager.cs:301-314 | length and bytes from the position, or the error the format gives |
| `Streams.SlotAt` | src/CSessionManaged/StreamManager.cs:428-437 | an index tuple within the bounds addresses a place of the array in row-major order |
| `Streams.SlotUnique` | src/CSessionManaged/StreamManager.cs:428-437 | different tuples address different places |
| `PersistUtil.RecordRound` | src/CSessionManaged/PersistUtil.cs:109-141 | a record is read back with its key, its value up to Norm, and its back-patched offset |
| `PersistUtil.RecordsRound` | src/CSessionManaged/PersistUtil.cs:83-107 | a run of records is read back into the collection of all of them; names that differ in case only share an entry |
| `PersistUtil.LoadAfterContents` | src/CSessionManaged/PersistUtil.cs:25-107 | loading a saved collection, whose names ignore case, gives it back up to Norm if it has at most 32767 items, and the error for too many otherwise |
| `PersistUtil.RecordOffset` | src/CSessionManaged/PersistUtil.cs:109-127 | the back-patched offset of a record is the position of its end |
| `PersistUtil.FollowVisitsStarts` | src/COM/CVariantDictionary.cpp:404-452 | following the next-offsets from the first record visits exactly the starts of all records, wherever the first one starts |
| `PersistUtil.ContentsOffsets` | src/CSessionManaged/PersistUtil.cs:25-58 | in a saved map below 2 GB the offsets lead from the counting record from record to record, and the last one to the end of the stream |
| `PersistUtil.SplicePatch` | src/CSessionManaged/PersistUtil.cs:109-127 | writing a record and patching its offset afterwards is the same as writing the patched record |
| `PersistUtil.StoreMeans` | src/CSessionManaged/PersistUtil.cs:99-104 | a named record sets the value under its name regardless of case, keeps the spelling there was and touches no other item; a nameless one is dropped |
| `PersistUtil.RecordRead` | src/CSessionManaged/PersistUtil.cs:129-141 | a record is a name, an offset that is not looked at, a tag and what the tag makes of the rest, errors included |
| `PersistUtil.LoadRefuses` | src/CSessionManaged/PersistUtil.cs:83-96 | a first record with another name, one that is no 32-bit number, and a negative count or one above 32767 are refused, each with its own error |
| `PersistUtil.BadRecordFails` | src/CSessionManaged/PersistUtil.cs:98-104 | the first record that cannot be read ends the loading with its error |
| `PersistUtil.WriteProperty` | src/CSessionManaged/PersistUtil.cs:109-127 | with the saved and restored position, the record is in the stream with its offset patched; it fails exactly for the values that cannot be written |
| `PersistUtil.ReadProperty` | src/CSessionManaged/PersistUtil.cs:129-141 | one record is read and nothing more |
| `PersistUtil.LocalContents` | src/CSessionManaged/PersistUtil.cs:25-58 | the bytes are the count and every record once; it succeeds exactly when all values can be written, as CodecFormat settles by type and shape |
| `PersistUtil.LocalLoad` | src/CSessionManaged/PersistUtil.cs:83-107 | the counting loop loads what the format says of the bytes, errors included |
| `Sds.WithRoom` | src/COM/sds.cpp:134-152 | growth leaves the length as it was and at least the room asked for, and never takes room away |
| `Sds.RoomMade` | src/COM/sds.cpp:134-152 | too little room becomes twice what is needed below a megabyte, and a megabyte more from there on |
| `Sds.AppendsKeepGrown` | src/COM/sds.cpp:134-152 | any run of appends keeps the growth invariant, and the length is the sum of the appended lengths |
| `Sds.AppendsReallocateRarely` | src/COM/sds.cpp:134-152 | for n bytes appended to an empty string the number k of doublings satisfies 2^k <= 2n, and a string below SDS_MAX_PREALLOC is never grown any other way |
| `Sds.SdsString.NewLen` | src/COM/sds.cpp:55-71 | a new string holds the given bytes without free space |
| `Sds.SdsString.MakeRoomFor` | src/COM/sds.cpp:134-152 | the content survives the reallocation; the buffer has len + free + 1 bytes with a NUL behind the content |
| `Sds.SdsString.CatLen` | src/COM/sds.cpp:242-254 | the content is the old content followed by the new bytes, NULs included |
| `Sds.SdsString.CpyLen` | src/COM/sds.cpp:274-289 | the content is the given bytes, whatever it was |
| `Sds.SdsString.Trim` | src/COM/sds.cpp:360-374 | what is left starts and ends outside the set and only characters of the set were cut off |
| `Sds.TrimUnique` | src/COM/sds.cpp:360-374 | that condition determines the result |
| `Sds.SdsString.Range` | src/COM/sds.cpp:392-422 | the bytes from start to end inclusive, negative positions counting from the end, everything out of range clipped |
| `Sds.RangeKeeps` | src/COM/sds.cpp:392-422 | a position is kept if and only if it is not before the start and not behind the end, negative ones counting from the end of the string and an end before the string being taken for 0 |
| `Sds.CatAll` | src/COM/sds.cpp:242-254 | any run of appends gives the concatenation |
| `Bytes.FlatParts` | src/COM/sds.cpp:242-254 | the concatenation has each part once, in order |
| `SdsText.CatRepr` | src/COM/sds.cpp:559-582 | the printer appends the quoted, escaped string |
| `SdsText.HexDigit` | src/COM/sds.cpp:586-613 | a digit printed is a hexadecimal digit of that value |
| `SdsText.EscapeRoundTrip` | src/COM/sds.cpp:559-582 | each escaped character is read back as itself inside double quotes |
| `SdsGrammar.EscapeForm` | src/COM/sds.cpp:562-578 | a printable character is printed as itself, quote and backslash behind a backslash, five control characters as letters, everything else as \x and two lower-case digits |
| `SdsGrammar.ReprForm` | src/COM/sds.cpp:559-582 | a string is printed character by character between two double quotes |
| `SdsText.NextToken` | src/COM/sds.cpp:645-731 | the token loop with its flags takes one token as Token says, never looking behind the terminator; what that means for words of every kind is SdsGrammar.WordRead |
| `SdsText.SplitArgs` | src/COM/sds.cpp:634-752 | the parser returns the list of words if and only if the line is one of the grammar (SdsGrammar.ArgsIff), and nothing otherwise |
| `SdsGrammar.ArgsIff` | src/COM/sds.cpp:615-752 | for every C string: the parser accepts it and returns these words if and only if it consists, up to the first NUL, of blanks and words with these meanings; a word is unquoted characters, then perhaps one part in double or single quotes that a blank or the end must follow |
| `SdsGrammar.LineRead` | src/COM/sds.cpp:634-752 | every line of the grammar is split into the meanings of its words |
| `SdsGrammar.LineParsed` | src/COM/sds.cpp:634-752 | whatever the parser accepts is a line of the grammar, with the words it returns |
| `SdsGrammar.WordRead` | src/COM/sds.cpp:644-731 | one word, with or without a quoted part: its meaning, up to the separator, or nothing if no gap follows the closing quote |
| `SdsGrammar.BareRead` | src/COM/sds.cpp:710-729 | characters outside quotes are taken as they are |
| `SdsGrammar.DoubleRead` | src/COM/sds.cpp:651-690 | inside double quotes \n, \r, \t, \b and \a are control characters, \x with two digits of either case a byte, and a backslash before any other character gives that character |
| `SdsGrammar.SingleRead` | src/COM/sds.cpp:691-709 | inside single quotes everything stands for itself, and the quote is written with a backslash |
| `SdsGrammar.PlainWords` | src/COM/sds.cpp:634-752 | non-empty words without NUL, blanks and quotes, joined with a space, come back as they are |
| `SdsGrammar.SingleQuotedWords` | src/COM/sds.cpp:691-709 | words of anything but NUL that do not end in a backslash come back out of single quotes |
| `SdsText.QuotedRoundTrip` | src/COM/sds.cpp:634-752 | a string printed inside quotes is read back, whatever follows |
| `SdsText.ReprRoundTrip` | src/COM/sds.cpp:559-582 | printing every string, joining with one space and parsing gives exactly the list, for all byte strings |
| `SdsText.ReprHasNoNul` | src/COM/sds.cpp:559-582 | a printed string has no NUL, so the joined line is one C string |
| `SdsText.SplitLen` | src/COM/sds.cpp:477-524 | the tokens are those of leftmost splitting; the token array, doubled when two short, is never overrun |
| `SdsText.JoinSds` | src/COM/sds.cpp:791-800 | the strings with the separator between each two |
| `Splitting.SplitFacts` | src/COM/sds.cpp:477-524 | joining the tokens with the separator gives the string back, for every string and non-empty separator |
| `Splitting.TokensFree` | src/COM/sds.cpp:477-524 | no token contains the separator |
| `Splitting.SplitOfJoinIff` | src/COM/sds.cpp:477-524 | splitting a joined list gives the list back if and only if the list is a leftmost one other than the single empty string |
| `Bstr.WideString.IndexOf` | src/COM/CComBSTR2.h:751-781 | the first match at or after the start, or -1 if there is none; an empty token is never found |
| `Bstr.WideString.TokenCount` | src/COM/CComBSTR2.h:400-415 | the number of leftmost, non-overlapping tokens; 0 unless the token is shorter than the string |
| `Bstr.TokensCut` | src/COM/CComBSTR2.h:400-415 | the count is one less than the number of pieces of the leftmost cut |
| `Bstr.WideString.MergeString` | src/COM/CComBSTR2.h:337-346 | character by character: what fits is overwritten and nothing else |
| `Bstr.WideString.ReplaceAt` | src/COM/CComBSTR2.h:452-466 | one turn: the tail moved by the difference in length, within the buffer, and the text written |
| `Bstr.WideString.ReplaceLoop` | src/COM/CComBSTR2.h:448-468 | the loop ends; with a replacement at least as long nothing in the uninitialized tail is ever matched and it succeeds; with a shorter one it fails exactly when a token is found in the characters left behind |
| `Bstr.WideString.Replace` | src/COM/CComBSTR2.h:428-473 | in place: the string cut at its leftmost tokens is joined with the replacement; or it is untouched, for null strings with an error and for an empty token or one not shorter than the string without; or the fault of a shrinking replacement |
| `Bstr.ReplacedMeans` | src/COM/CComBSTR2.h:416-427 | what is replaced: the string cut at its leftmost tokens, joined with the replacement |
| `Bstr.ReplaceMeetsIff` | src/COM/CComBSTR2.h:416-473 | Replace does what its documentation says if and only if the string is not itself the token and a shortening replacement meets no token in the stale characters |
| `Bstr.StaleCharactersHarmless` | src/COM/CComBSTR2.h:448-472 | when no stale character occurs in the token, a shortening Replace cannot fail |
| `Bstr.DeletingSuffixFaults` | src/COM/CComBSTR2.h:448-472 | deleting the token that a longer string ends with always fails |
| `Bstr.ReplacedLength` | src/COM/CComBSTR2.h:437-446 | the new length computed from the token count is that of the result |
| `Bstr.WideString.Substring` | src/COM/CComBSTR2.h:657-669 | the clipped substring, or null |
| `Bstr.WideString.Split` | src/COM/CComBSTR2.h:503-564 | the pieces are the leftmost cut: none contains the expression, joining them gives the string back for every string and expression, there is one more of them than TokenCount counts; the empty string has none and an empty expression makes one |
| `Bstr.PiecesUnique` | src/COM/CComBSTR2.h:503-564 | a string has only one leftmost cut |
| `Bstr.JoinVector` | src/COM/CComBSTR2.h:582-647 | the joined string is exactly as long as counted and never written beyond its end |
| `CStream.Align32` | src/COM/CStream.h:3 | the least multiple of 32 that is not smaller |
| `CStream.Stream.Read` | src/COM/CStream.cpp:22-57 | within the size: the bytes from the position, at most what is left, S_FALSE when short; beyond it: a read outside the buffer or of bytes that are not part of the stream |
| `CStream.Stream.Write` | src/COM/CStream.cpp:59-101 | the bytes overwrite and extend the content at the position, and the buffer stays a multiple of 32 that holds it |
| `CStream.OverwriteAt` | src/COM/CStream.cpp:59-101 | byte by byte: the data where it was written and the old bytes elsewhere, the string growing only as far as needed |
| `CStream.Stream.Seek` | src/COM/CStream.cpp:104-138 | the position alone changes, even past the capacity; seeking from the end ignores the distance |
| `CStream.Stream.SetSize` | src/COM/CStream.cpp:139-153 | what fits is kept and the position is clipped |
| `CStream.Replay` | src/COM/CStream.cpp:22-153 | every run of reads, writes, resizings and seeks within the size, absolute, relative and to the end, is a run of a string of bytes with a position |
| `CStream.StepMeans` | src/COM/CStream.cpp:22-153 | each operation on the string of bytes, byte by byte |
| `CStream.WriteReadBack` | src/COM/CStream.cpp:22-138 | what is written is read back from where it was written |
| `CStream.Stream.CopyTo` | src/COM/CStream.cpp:154-209 | exactly the first min(cb, size) bytes are appended and the position is restored; S_FALSE exactly when more is asked for than there is and the size is a multiple of 512; for a count of 4 GB or more it hangs exactly when the low half of the count does not exceed the size |
| `CStream.CopyingTurn` | src/COM/CStream.cpp:170-196 | one 512-byte turn of the copying loop, with the 32-bit chunk size, keeps the loop invariant |
| `CStream.Stream.ReadAll` | src/COM/Application.cpp:1450-1460 | the chunked loop reads everything from the position on |
| `CStream.Stream.SerializeKey` | src/COM/Application.cpp:1473-1509 | after writing from the start, the first bytes up to the position are those written |
| `CStream.SerializeKeys` | src/COM/Application.cpp:1417-1472 | each key goes out upper-cased behind the prefix with exactly the bytes written for it |
| `CStream.KeyValuesAt` | src/COM/Application.cpp:1432-1469 | each pair depends on its own key and value alone, not on earlier keys or chunk boundaries |
| `AppCache.PutTracks` | src/COM/Application.cpp:199-261 | a put keeps the flags truthful, whatever object is put and even if it fails |
| `AppCache.RunTracks` | src/COM/Application.cpp:199-530 | after any run on a freshly loaded cache the flags and the removed list say exactly what differs from what was loaded |
| `AppCache.RunSeparate` | src/COM/Application.cpp:430-489 | if no key is put again after its removal, no key of the dictionary is among the removed ones |
| `AppCache.LastPutStays` | src/COM/Application.cpp:199-530 | over every run, the value put last under a key is there as long as the key is neither put nor removed again, whatever is done to the others |
| `AppCache.Application.PutValue` | src/COM/Application.cpp:199-261 | the element is added as new or marked dirty and holds the value the object resolves to (AppCache.PutStores, PutStoresNothing, PutMeans); null objects, which are the only error, and objects without a value leave it in place |
| `AppCache.PutStores` | src/COM/Application.cpp:236-259 | data, however deep behind default properties, is the value of the element afterwards |
| `AppCache.PutStoresNothing` | src/COM/Application.cpp:236-259 | a chain that ends in a null object or in one without a default property leaves the old value, or the empty one of a new element |
| `AppCache.PutMeans` | src/COM/Application.cpp:220-235 | an element that was there keeps spelling, newness and time to live and is dirty unless new; one that was not is new and spelled as the key; every other element and the removed keys are unchanged |
| `AppCache.TagsTaken` | src/COM/Application.cpp:278 | among the plain types, the tag test lets through VT_BOOL besides the two object types |
| `AppCache.Application.PutRefValue` | src/COM/Application.cpp:263-332 | a tag that passes the test adds or marks the element; its value is set only if the object can be persisted, and what is no object is asked for an interface all the same |
| `AppCache.PutRefMeans` | src/COM/Application.cpp:278-332 | key by key: the persistable object is the value afterwards, an element that was there is dirty, every other element and the removed keys are unchanged |
| `AppCache.Application.Remove` | src/COM/Application.cpp:430-465 | the element is gone and its key listed once as the caller spelled it |
| `AppCache.WithoutMeans` | src/COM/Application.cpp:430-465 | key by key: that element alone is gone, and the spelling is appended to the removed ones unless it stands there |
| `AppCache.Application.RemoveAll` | src/COM/Application.cpp:466-489 | all elements are gone and exactly their keys are added to the removed ones |
| `AppCache.Application.ExpireKeyAt` | src/COM/Application.cpp:514-530 | only the time to live of that element changes |
| `AppCache.ExpiringMeans` | src/COM/Application.cpp:514-530 | key by key: that time to live alone, and only of an element that is there |
| `AppCache.Application.IsDirty` | src/COM/Application.cpp:105-127 | true exactly when something is removed, new, changed or to expire |
| `AppCache.Application.GetKeyStates` | src/COM/Application.cpp:1555-1602 | the lists hold exactly the new, the changed, the expiring and the removed keys, as the dictionary spells them |
| `AppCache.StatesMean` | src/COM/Application.cpp:1555-1602 | a key is in a list if and only if its element is changed, new, neither, or to expire, with that time beside it |
| `AppCache.Application.Deserialize` | src/COM/Application.cpp:1510-1553 | a loaded element keeps its spelling and is neither new nor dirty; one already there keeps both and takes the value |
| `AppSave.TransactionEffect` | src/COM/CSessionDL.h:161-252 | SADD, DEL, SREM, MSET and PEXPIRE in queue order amount to: index (old + new) - removed, removed pairs deleted, new and changed pairs written without expiry, times to live set |
| `AppSave.AfterSaveAt` | src/COM/CSessionDL.h:161-252 | key by key: when it is in the index and in the store after a save, with which value, and when it expires |
| `AppSave.NothingToSave` | src/COM/CSessionDL.h:161 | no command is queued exactly when IsDirty is false |
| `AppSave.ApplicationSave` | src/COM/CSessionDL.h:123-262 | one EXEC leaves the store in that state; a clean cache sends nothing |
| `AppSave.ApplicationGet` | src/COM/CSessionDL.h:264-331 | the dictionary is exactly the live indexed pairs, all clean; members without a value leave the index, which then agrees with the dictionary |
| `AppSave.SaveThenLoad` | src/COM/CSessionDL.h:161-331 | loading after a save gives the dictionary without the removed keys, whatever was done since the load, as long as nothing has expired |
| `AppSave.SaveThenLoadIff` | src/COM/CSessionDL.h:161-331 | it gives exactly the dictionary if and only if no key of the dictionary is among the removed ones |
| `AppSave.RunSaveLoad` | src/COM/CSessionDL.h:161-331 | from load to load over any run in which no key is put again after its removal, the loaded contents are the dictionary |
| `AppSave.LastPutFound` | src/COM/CSessionDL.h:161-331 | from load to load over any such run, the value put last under a key is what the next load finds there |
| `AppSave.ReputLost` | src/COM/CSessionDL.h:167-235 | a key put again after its removal is written but not indexed, so no load finds it |
| `AppSave.SavesCommute` | src/COM/CSessionDL.h:161-252 | two saves that touch different keys reach the same store in either order, and each key is as its own request left it |
| `AppSave.SaveElsewhere` | src/COM/CSessionDL.h:161-252 | a save leaves every key it does not touch alone |
| `HashData.LookupIsPermutation` | src/COM/tools.cpp:526-546 | the table is a permutation of the 256 bytes |
| `HashData.HashData2` | src/COM/tools.cpp:548-570 | each destination byte is the fold of the source, from its end, into the low byte of its position; null pointers are refused |
| `HashData.HashStep` | src/COM/tools.cpp:548-570 | without a source every place has the low byte of its position; a source byte in front is mixed by exclusive-or into what the rest gives, and looked up |
| `HashData.HashCancels` | src/COM/tools.cpp:563-566 | the byte a place has, put in front of the source, makes that place the first entry of the table |
| `HashData.HashDistinct` | src/COM/tools.cpp:548-570 | two destination bytes are equal exactly when their positions agree modulo 256 |
| `HashData.HashSensitive` | src/COM/tools.cpp:548-570 | changing one source byte changes every destination byte |

## Left out

- Redis sockets, the connection pools, replies other than success and the retry delays: servers are maps, a script or an EXEC is one step, sleeping is time passing.
- RedlockProtocol.Drift: the rounding of the floating-point drift factor; it is taken as exactly one hundredth of the time to live, truncated.
- Liveness of the lock under contention, and a lock id drawn twice: ids are assumed unique.
- UTF-8 conversion (section 3 of RFC 3629), floating-point numbers, dates, deflate and BinaryFormatter: strings are their UTF-8 bytes, numbers of these kinds their stored bytes.
- COM and .NET objects in the variant format: their payloads, and blobs that are already serialized, are not part of this model.
- Resolving the element type of an array from its written name: every name resolves to the type that was written.
- Streams.StreamManager.ReadValue: a stream that ends early is an error of its own; the original goes on with what an earlier read left in its scratch buffer, and the growth of that buffer (EnsureMemory) is not modelled.
- Currency values beyond their eight stored bytes: the writer never makes one, the reader takes those of others.
- CodecRoundTrip.RoundTrip: excludes what the writer itself cannot write, namely arrays of dates or currency, non-empty arrays of booleans (copied with another element size), empty jagged arrays, one-dimensional byte arrays that do not start at 0 and element-wise arrays whose dimension 0 ends at the largest integer, and what the reader cannot read, namely non-empty arrays of database nulls.
- The native twin of the codec beyond its linear string scan, its block layout, its record offsets and its load limit: the header is the same, with one bogus type name for all object arrays, but blocks are in column-major order.
- PersistUtil.FollowVisitsStarts: streams below 2 GB, where offsets fit the signed 32 bits that hold them.
- Sds.SdsString.MakeRoomFor: lengths are unbounded; the 32-bit header fields and a failed allocation are not modelled.
- SdsText.SplitLen: a failed allocation and its cleanup are not modelled.
- Bstr.WideString.Replace: models the case-sensitive search with ordinal comparison, on tokens without embedded NUL, for which the two length functions it mixes agree.
- Bstr.WideString.IndexOf: its count argument, which none of the modelled callers passes.
- Bstr.WideString.Split: the same search; expressions without embedded NUL.
- Bstr.JoinVector: one-dimensional vectors of strings; the error for others and odd byte lengths are not modelled.
- CStream.Stream.Write: streams below 4 GB, as the code itself limits them.
- CStream.Stream.Seek: seeking before the start, which wraps around in the original, is not modelled.
- CStream.Stream.CopyTo: the target is another stream of the same kind, positioned within its size.
- CStream.SerializeKeys: a value is the list of byte strings its serializer writes one after the other.
- AppCache.Application.PutValue: a chain of objects whose default property is the next is finite; a value stands for the bytes it is serialized to.
- The common key prefix of an application in `AppSave`, and keys outside ASCII: keys of the cache and names of session items fold as ASCII upper case.
- AppCache.Application.PutRefValue: by-reference tags, and what asking a value that is no object for an interface does beyond failing.
- The order in which the dictionary and Redis list their keys: the model leaves it open.
- AppSave.SaveThenLoad: nothing expires between the save and the load; what has expired is dropped by the load itself.
- HashData.HashData2: destinations of at most 2^31 bytes, apart from the source.
- The session life cycle, configuration, cookies, logging, licensing, enumerators, hex conversion, and the managed application cache.
