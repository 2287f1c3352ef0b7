# Verified model of the framework's core data structures and protocols

This Dafny project models the stateful core of a C++ server framework and proves what
its code promises. `dafny verify dfyconfig.toml` checks all of it.

## What is modelled

- **The incremental-rehash dictionary.** `HashArithmetic` has the hash, the table sizes and
  the masks. `DictModel` and `DictOps` describe the two tables and every operation as
  functions on values; `DictRuns` proves that they refine a finite map, that rehashing makes
  exact progress, and the amortised load bound. `DictIteration`, `DictSafePass` and
  `IteratorCount` do the same for iterators and what may happen during a pass. `DictSweep`,
  `SweepExact` and `SweepLimits` follow a plain iterator that deletes what it meets while its
  own deletions migrate and swap the tables. `Dict` and `DictIterator` are the imperative
  code: linked entries, bucket arrays, relinking loops, proved against the functions. Keys
  map to entry *objects*, because callers keep pointers to entries; `DictValues` adds the
  values behind the entries.
- **What is built on it.** `CharDictionary`, `MessageCache` (expiry sweep), `TypeIndex` and
  `ConnectionCache` (a second index by server type, and the picking loop).
- **The sequential buffer.** `SequentialBuffer` is the array with its two positions and the
  end marker; `BufferRuns` compares runs with a FIFO queue. `Memory` is memcpy and memmove.
- **Packets.** `ByteOrder` and `ProtoHeader` are the header codec. `Framing` says how a byte
  stream is cut into packets; `PacketProcessor` and `PacketLoop` do it on the buffer.
  `FragmentModel` and `FragmentAssembly` put the fragments of a message together.
- **Command line and XML paths.** `StringSplit`, `CommandLineModel`, `CommandLine`,
  `XmlTree`, `XmlHelper`.
- `Bytes`, `ReturnCodes`, `Wrappers` and `Sequences` are what they share.

A method that changes state is proved equal to a function on values, and the properties
are proved of the function. Bytes, keys and C strings are sequences; entries, cached
messages, connections and buffers are objects; memory is garbage-collected.

## What the code does that one might not expect

- Asked for `LONG_MAX` or more buckets, the table size is `LONG_MAX` itself, which is not a
  power of two (`HashArithmetic.NextPowerIsLeast`).
- A sweep over expired messages can miss some. Each deletion of a plain pass migrates a
  bucket, and the one that finds the old table empty swaps the tables; an iterator that is in
  the second table by then finishes the chain it stands in and stops. Four operations on a new
  dictionary lead to such a state (`SweepLimits.SweepMisses`). `SweepExact.SweepIsExact` says
  for all states how many deletions are harmless, and `SweepLimits.SweepIsExactIff` gives the exact condition when the
  old table holds no expired entry. With expired entries on both sides the outcome depends on
  which chains their deletions move in which order, and no count decides it; what the sweep
  leaves is `SweepOf` in every case.
- In a table of 2^31 buckets the cast to a signed int makes the number of buckets negative,
  and iterators skip it (`DictSafePass.BiggestTableIsSkipped`, `BiggestTableIsLeft`).
- After a full buffer was partly read, the write position is still the marker -1, and a
  copying write stores in front of the array. `SequentialBuffer.Write` gives the exact
  condition, `BufferRuns.ReachMarker` gets there; asking for the write pointer first removes it.
- Dropping a part of an exactly full buffer drops everything, since the read position is
  compared with the marker (`MoveReadPointer`); moving the write pointer of a full buffer
  cuts the stored bytes (`MoveWritePointer`). With the write behind the marker these are the
  only operations that are not FIFO (`BufferRuns.Apply`).
- The length word is looked at before it is known to have arrived, so with fewer than four
  bytes received it is partly left-over memory, and a byte of a good packet can be thrown
  away (`PacketLoop.StaleBytesReset`).
- The time stamp of an incomplete packet is not cleared when the packet is completed, so a
  later incomplete packet of the same peer can time out at once, from five seconds on and not
  before (`PacketLoop.LateForNothing`).
  A connection on which every packet is completed within the second is reset all the same, as
  soon as a round stops short five seconds after the first one that did.
  `PacketLoop.SmoothRuns` and `UndisturbedIsCalm` say exactly which runs are reset.
- A packet whose handler returns one of the three codes that end a round stays in the buffer
  and is handed over again (`Framing.HandleUntil`). In processing packets the framework itself
  returns them only for incomplete ones, so such a handler would be user code.
- When the answer does not fit into the send buffer, the message stays in the cache, and
  fragments that follow are grouped into it (`FragmentModel.Step`). A first fragment that
  fails to be grouped leaves an entry with an empty message and an unset time stamp.
- A short option that is another option's long name specifies that other option, while its
  values go to itself; `ShortOptionIsOwn` and `LearningKeepsNamesOwn` say exactly when this
  cannot happen, and `LosingParse` is an accepted line whose value is stored nowhere. Values
  after `=` that do not fit are dropped. Of the token `-5` only the digit is stored.
  `learn_options` passes its arguments without the fixed-count flag, which is always taken as
  true.

## Model

| member | source | states |
|---|---|---|
| HashArithmetic.GenHashFunction | code/libcpp_assistant/src/3rdparty/dict.c:90-97 | The hash loop computes Bernstein's hash of the whole key, from 5381 and times 33, modulo 2^32. |
| HashArithmetic.HashWrapsOnce | code/libcpp_assistant/src/3rdparty/dict.c:90-97 | A 32-bit accumulator that wraps around at every byte ends on the unbounded sum modulo 2^32. |
| HashArithmetic.NextPower | code/libcpp_assistant/src/3rdparty/dict.c:618-630 | The doubling loop ends for every size of an unsigned 64-bit long, without wrapping, on the size the reference function gives. |
| HashArithmetic.NextPowerIsLeast | code/libcpp_assistant/src/3rdparty/dict.c:618-630 | For every size: the table size chosen is a power of two exactly when the request is below 2^63 - 1, and is then the least power of two that is at least max(size, 4); from there on it is 2^63 - 1 itself. |
| HashArithmetic.MaskIsMod | code/libcpp_assistant/src/3rdparty/dict.c:222 | Masking a hash with a power-of-two size minus one is its remainder by the size, so every bucket index is in range. |
| DictModel.SlotIsRemainder | code/libcpp_assistant/src/3rdparty/dict.c:653 | The bucket of a key, hash and mask, is the remainder of its hash by a power-of-two table size. |
| DictModel.LookupIsMembership | code/libcpp_assistant/src/3rdparty/dict.c:433-462 | Searching the bucket of the key in one or both tables finds an entry exactly when some entry of the dictionary has the key, whatever part of it has migrated. |
| DictOps.ScanStops | code/libcpp_assistant/src/3rdparty/dict.c:191-213 | While used counts entries in the old table, the scan for the next bucket stops inside the table. |
| DictOps.RehashOneKeeps | code/libcpp_assistant/src/3rdparty/dict.c:191-233 | One migration step, the final swap included, keeps every representation invariant and all entries. |
| DictOps.HiddenStep | code/libcpp_assistant/src/3rdparty/dict.c:266-269 | The step hidden in other operations moves nothing while a safe iterator runs; otherwise it empties just one old bucket, or, when the old table is empty, makes the new one the only one. |
| DictOps.EachMigrates | code/libcpp_assistant/src/3rdparty/dict.c:273-462 | Lookups, insertions and deletions alike make that step once and first, so a rehash advances with every one of them. |
| DictOps.ExpandDoes | code/libcpp_assistant/src/3rdparty/dict.c:157-185 | Expanding makes an empty first table, or starts to migrate into an empty second one; its size is the least power of two, and at least 4, that covers the request. |
| DictOps.GrowthDoes | code/libcpp_assistant/src/3rdparty/dict.c:593-615 | An insertion gives a dictionary without a table one of 4 buckets; one with as many entries as buckets, or six times as many where resizing is discouraged, starts to migrate to the least power of two for twice its entries; nothing else grows, and nothing grows while rehashing. |
| DictOps.InsertKeeps | code/libcpp_assistant/src/3rdparty/dict.c:273-304 | Linking a new key keeps the invariants and adds exactly that entry. |
| DictOps.InsertsAtHead | code/libcpp_assistant/src/3rdparty/dict.c:273-304 | A new entry is linked at the head of the bucket its hash modulo the number of buckets gives, while rehashing in the new table and in no other. |
| DictOps.RemoveKeeps | code/libcpp_assistant/src/3rdparty/dict.c:336-381 | Unlinking takes out exactly the entry lookup finds, or nothing, and keeps the invariants. |
| DictOps.GrowthFits | code/libcpp_assistant/src/3rdparty/dict.c:593-615 | Growth to twice the used count always finds a legal table size, up to 2^30 entries. |
| DictRuns.AddRefinesMap | code/libcpp_assistant/src/3rdparty/dict.c:273-304 | Add fails exactly when the key is in the map, and otherwise extends the map by the new entry. |
| DictRuns.DeleteRefinesMap | code/libcpp_assistant/src/3rdparty/dict.c:336-381 | Delete removes the key from the map, whatever rehash step it performs first. |
| DictRuns.FindRefinesMap | code/libcpp_assistant/src/3rdparty/dict.c:433-462 | Find returns what the map holds for the key and leaves the map as it is. |
| DictRuns.StepRefinesMap | code/libcpp_assistant/src/3rdparty/dict.c:191-462 | Every operation on the two tables is, in state and result, one operation on a finite map from keys to entry objects; the values behind them are in DictValues. |
| DictRuns.RunRefinesMap | code/libcpp_assistant/src/3rdparty/dict.c:191-462 | Every run of add, replace, find, delete, expand and rehash is observably a run of a finite map. |
| DictRuns.EntryIdentity | code/libcpp_assistant/src/3rdparty/dict.c:191-233 | The entry object of a key stays its entry through every run that does not delete the key. |
| DictRuns.RehashProgress | code/libcpp_assistant/src/3rdparty/dict.c:191-233 | With B non-empty old buckets, n steps finish the swap exactly when n > B and otherwise move exactly n buckets; contents and element count are conserved. |
| DictRuns.LoadBound | code/libcpp_assistant/src/3rdparty/dict.c:157-304 | After every run from a new dictionary (resizing enabled, no safe iterator, explicit sizing only while empty): elements plus old buckets still to move never exceed the new size by more than one while rehashing, and used never exceeds the size by more than one otherwise. |
| DictRuns.StepKeepsLoad | code/libcpp_assistant/src/3rdparty/dict.c:266-304 | The invariant behind the load bound: the step before an insertion pays for it. |
| DictValues.Apply | code/libcpp_assistant/src/3rdparty/dict.c:191-462 | One operation on the linked tables is one operation on a map from keys to values; replacing changes the value and no other, and a lookup answers the value. |
| DictValues.Run | code/libcpp_assistant/src/3rdparty/dict.c:191-462 | Every run of adds, replaces, lookups, deletions, migrations and explicit sizings of the linked tables is, in values and answers, a run of a finite map from keys to values. |
| DictValues.LastPutWins | code/libcpp_assistant/src/3rdparty/dict.c:310-331 | After any run a key holds what was last put under it, and nothing if it was deleted since. |
| DictIteration.NextTakes | code/libcpp_assistant/src/3rdparty/dict.c:493-531 | dict_next returns the first entry still pending and leaves exactly the others pending, through empty buckets, saved successors and the second table; it returns null exactly when nothing is pending. (Next itself is defined for every iterator, also one whose table was swapped away.) |
| DictSafePass.AddPending | code/libcpp_assistant/src/3rdparty/dict.c:273-304 | An insertion during a pass, even one that starts a rehash, changes what is pending by at most the new entry, as long as it does not grow to 2^31 buckets. |
| DictSafePass.GrowthStaysSigned | code/libcpp_assistant/src/3rdparty/dict.c:593-615 | Up to 2^29 entries an insertion never does that. |
| DictSafePass.RemovePending | code/libcpp_assistant/src/3rdparty/dict.c:336-381 | Removing an entry that is not pending leaves everything pending, in order. |
| DictSafePass.RemoveOther | code/libcpp_assistant/src/3rdparty/dict.c:336-381 | Removing any entry but the saved successor takes at most that one from what is pending. |
| DictSafePass.OnlySuccessorMatters | code/libcpp_assistant/src/3rdparty/dict.c:493-531 | A deletion leaves the iterator free of dangling references if and only if it is not that of the saved successor. |
| DictSafePass.SafePassExact | code/libcpp_assistant/src/3rdparty/dict.c:266-531 | In a full pass of a safe iterator interleaved with finds, adds and deletions of anything but the saved successor, every entry present throughout is returned exactly once and none is returned twice. |
| DictSafePass.BiggestTableIsSkipped | code/libcpp_assistant/src/3rdparty/dict.c:493-531 | In a settled dictionary the first call of an iterator returns null exactly if there is no entry, or if there are 2^31 buckets. |
| DictSafePass.BiggestTableIsLeft | code/libcpp_assistant/src/3rdparty/dict.c:493-531 | Of a second table of 2^31 buckets no bucket behind the first is visited. |
| DictSweep.TurnSweeps | code/libcpp_assistant/src/3rdparty/dict.c:336-531 | Deleting the entry a plain iterator just returned, whatever the step before it migrates or swaps, leaves the saved successor in place, and the next call is well defined. |
| DictSweep.TurnBelow | code/libcpp_assistant/src/3rdparty/dict.c:336-531 | Every turn of such a pass makes progress, also across the swap of the tables, so the pass ends. |
| SweepExact.SweepKeepsLiving | code/frameworks/framework_templates/tcp_app/message_cache.cpp:100-137 | A sweep deletes nothing that is not dead, and adds nothing, in every state. |
| SweepExact.SweepIsExact | code/frameworks/framework_templates/tcp_app/message_cache.cpp:100-137 | It leaves exactly the living if deletions perform no step (no rehash, or a safe iterator elsewhere), or if twice the number of dead is at most the number of old buckets still to move, plus 3. |
| SweepLimits.SweepIsExactIff | code/frameworks/framework_templates/tcp_app/message_cache.cpp:100-137 | During a rehash, with no dead entry in the old table, it leaves exactly the living if and only if the dead behind the first B ones lie in one bucket, where B counts the old buckets still to move. |
| SweepLimits.OnwardRun | code/frameworks/framework_templates/tcp_app/message_cache.cpp:100-137 | The same from any point of such a sweep on. |
| SweepLimits.SweepMisses | code/frameworks/framework_templates/tcp_app/message_cache.cpp:100-137 | Four operations lead from a new dictionary to a state in which a sweep of two dead entries leaves one. |
| IteratorCount.StepCounts | code/libcpp_assistant/src/3rdparty/dict.c:485-538 | Opening, advancing and releasing iterators, and every dictionary operation, keep the counter equal to the number of safe iterators started and not released. |
| IteratorCount.RunCounts | code/libcpp_assistant/src/3rdparty/dict.c:485-538 | The same over every run with any number of iterators. |
| Dict.Dict.constructor | code/libcpp_assistant/src/3rdparty/dict.c:113-140 | A new dictionary has two empty tables and no rehash under way. |
| Dict.MoveEntries | code/libcpp_assistant/src/3rdparty/dict.c:216-228 | Relinking one chain entry by entry pushes its entries, front first, at the heads of their new buckets. |
| Dict.Bypass | code/libcpp_assistant/src/3rdparty/dict.c:355-371 | Unlinking an entry behind its predecessor, or from the bucket head, removes just that position of the chain. |
| Dict.Dict.SkipEmpty | code/libcpp_assistant/src/3rdparty/dict.c:211-213 | The skip loop ends at the first non-empty old bucket. |
| Dict.Dict.MigrateBucket | code/libcpp_assistant/src/3rdparty/dict.c:211-230 | Moving one bucket of the linked tables is one migration step of the model. |
| Dict.Dict.DictRehash | code/libcpp_assistant/src/3rdparty/dict.c:191-233 | n steps on the linked tables are n steps of the model, and a negative n goes on until the swap; the result says whether something is left to move. |
| Dict.Dict.DictExpand | code/libcpp_assistant/src/3rdparty/dict.c:157-185 | Refused exactly while rehashing or when more is used than asked for, with the codes 0 and 1; otherwise the new table becomes the first table or the target of a migration. |
| Dict.Dict.ExpandWhenNeeded | code/libcpp_assistant/src/3rdparty/dict.c:593-615 | The growth rule, with its initial size and forced ratio. |
| Dict.Dict.KeyIndex | code/libcpp_assistant/src/3rdparty/dict.c:638-669 | The bucket index of a new key in the table that takes insertions, or -1 exactly when the key is present. |
| Dict.Dict.DictAdd | code/libcpp_assistant/src/3rdparty/dict.c:273-304 | Adds a new entry object exactly when the key is absent; the state is otherwise that after the preparatory rehash step and growth. |
| Dict.Dict.DictFind | code/libcpp_assistant/src/3rdparty/dict.c:433-462 | The entry object of the key or null, after one rehash step. |
| Dict.Dict.DictDelete | code/libcpp_assistant/src/3rdparty/dict.c:336-381 | Unlinks the entry of the key if there is one; no other entry changes its links in the model. |
| Dict.Dict.DictReplace | code/libcpp_assistant/src/3rdparty/dict.c:310-331 | Adds an absent key; for a present one sets the value of the same entry object and touches no other value. |
| DictIterator.DictIterator.constructor | code/libcpp_assistant/src/3rdparty/dict.c:472-491 | An iterator starts before the first bucket of the first table. |
| DictIterator.DictIterator.DictNext | code/libcpp_assistant/src/3rdparty/dict.c:493-531 | The loop over buckets and saved successors on the linked tables is the model's dict_next, whenever the saved successor has not been deleted. |
| DictIterator.DictIterator.Release | code/libcpp_assistant/src/3rdparty/dict.c:533-538 | Gives back the count of a safe iterator that was started. |
| CharDictionary.CharDictCreate | code/frameworks/framework_public/char_dictionary.cpp:52-68 | Creates an empty dictionary whose first table has the least power of two of buckets for the size; a negative size stands for 1024. |
| CharDictionary.AddElement | code/frameworks/framework_public/char_dictionary.cpp:108-144 | Succeeds exactly for a new non-empty key with a non-null value of positive length, and then maps it to a fresh entry; otherwise the contents stay. |
| CharDictionary.FindEntry | code/frameworks/framework_public/char_dictionary.cpp:176-185 | The entry the contents hold for the key. |
| CharDictionary.FindValue | code/frameworks/framework_public/char_dictionary.cpp:187-195 | The value of that entry, or null. |
| CharDictionary.DeleteElement | code/frameworks/framework_public/char_dictionary.cpp:146-174 | Removes the key and says whether it was there. |
| CharDictionary.EmptyingTurn | code/frameworks/framework_public/char_dictionary.cpp:82-92 | While a safe iterator runs, deleting the entry it just returned leaves exactly the others to come, even in the middle of a rehash. |
| CharDictionary.CharDictDestroy | code/frameworks/framework_public/char_dictionary.cpp:70-95 | A pass that deletes every entry it meets empties the dictionary and releases each entry exactly once. |
| CharDictionary.BatchOperation | code/frameworks/framework_public/char_dictionary.cpp:230-244 | The action meets every entry exactly once, and the dictionary stays as it was. |
| MessageCache.RunUnfolds | code/frameworks/framework_templates/tcp_app/message_cache.cpp:110-131 | One turn of a sweep: delete or keep, advance, and go on with the rest of the sweep. |
| MessageCache.MessageCache.CleanExpiredMessages | code/frameworks/framework_templates/tcp_app/message_cache.cpp:100-137 | In every state no entry without a message is lost, no message of a time-consuming command younger than the maximum timeout, and no other message younger than the default one; nothing is added. If no rehash is under way, if a safe iterator runs, or if the expired are as few as SweepIsExact allows, what is left is all younger than its own timeout. The sweep of the linked tables is SweepOf in every case. |
| MessageCache.MessageCache.Add | code/frameworks/framework_templates/tcp_app/message_cache.cpp:83-86 | Adds an item under a new session id. |
| MessageCache.MessageCache.Del | code/frameworks/framework_templates/tcp_app/message_cache.cpp:88-91 | Removes a session id. |
| MessageCache.MessageCache.Find | code/frameworks/framework_templates/tcp_app/message_cache.cpp:93-96 | The item of a session id, or null. |
| TypeIndex.AgreementExactly | code/frameworks/framework_public/connection_cache.cpp:93-136 | From agreement, a failed call changes neither structure, and a successful one keeps them in agreement if and only if the name is given with its own length. |
| TypeIndex.RunKeepsAgreement | code/frameworks/framework_public/connection_cache.cpp:93-136 | After any run of add and del with names of their own length the multimap holds exactly one (type, name) pair per entry and nothing else. |
| TypeIndex.AddDoes | code/frameworks/framework_public/connection_cache.cpp:93-109 | Adding succeeds exactly for a connection, a non-empty new key and a positive size; then the key has the connection's type, and the name is the last of that type's group, all other groups being as before. |
| TypeIndex.DelDoes | code/frameworks/framework_public/connection_cache.cpp:111-136 | Deleting succeeds exactly for the key of an entry; then that entry is gone, and the first mention of the name from the group of its type, all other groups being as before. |
| TypeIndex.EraseAt | code/frameworks/framework_public/connection_cache.cpp:123-132 | Erasing the first pair with a name in the range of a type takes out exactly one pair. |
| TypeIndex.PickIsTotal | code/frameworks/framework_public/connection_cache.cpp:148-240 | Given agreement, a node is picked exactly when some entry of the type is live, and it is one of those. |
| TypeIndex.FirstInIsFirst | code/frameworks/framework_public/connection_cache.cpp:176-238 | The fallback is the first live node in group order. |
| ConnectionCache.ConnectionCache.Add | code/frameworks/framework_public/connection_cache.cpp:93-109 | On the dictionary and the multimap, add is the index operation above; the connection itself is stored under the key, and the entries of other keys are the same. |
| ConnectionCache.ConnectionCache.Del | code/frameworks/framework_public/connection_cache.cpp:111-136 | On the dictionary and the multimap, del is the index operation above; exactly the entry of the key is taken out. |
| ConnectionCache.ConnectionCache.Search | code/frameworks/framework_public/connection_cache.cpp:174-239 | The restarting loop ends (it restarts at most once) with the node at the offset if it is live, otherwise the first live one. |
| ConnectionCache.ConnectionCache.PickOneConnection | code/frameworks/framework_public/connection_cache.cpp:148-240 | For the policy by id the node at place |id| mod n of the group, whatever the random number; for any other the one at the random number mod n, whatever the id; if that one may not be picked, the first of the group that may. Where only live nodes may be picked the target has a connection. With an index that agrees with the dictionary null is returned exactly when no node of the type may be picked. |
| SequentialBuffer.SequentialBuffer.MoveDataToHeader | code/libcpp_assistant/src/native/sequential_buffer.cpp:244-281 | Compaction moves the stored bytes to the front, leaves the memory behind them, and settles the positions. |
| SequentialBuffer.SequentialBuffer.Read | code/libcpp_assistant/src/native/sequential_buffer.cpp:116-137 | In every well-formed state, delivers and removes exactly the first min(len, size) bytes. |
| SequentialBuffer.SequentialBuffer.Write | code/libcpp_assistant/src/native/sequential_buffer.cpp:139-160 | Appends exactly min(len, free) bytes; stores in front of the array if and only if the write position is the marker although the buffer is not full. |
| SequentialBuffer.SequentialBuffer.GetReadPointer | code/libcpp_assistant/src/native/sequential_buffer.cpp:162-174 | All stored bytes follow the read pointer in one piece. |
| SequentialBuffer.SequentialBuffer.MoveReadPointer | code/libcpp_assistant/src/native/sequential_buffer.cpp:176-205 | Drops exactly min(offset, size) bytes from the front, and everything if the buffer is exactly full. |
| SequentialBuffer.SequentialBuffer.GetWritePointer | code/libcpp_assistant/src/native/sequential_buffer.cpp:207-219 | Null exactly when full or without memory; afterwards the write position is the marker only if full. |
| SequentialBuffer.SequentialBuffer.MoveWritePointer | code/libcpp_assistant/src/native/sequential_buffer.cpp:221-242 | Appends the bytes placed behind the stored ones; on a full buffer cuts the stored bytes instead. |
| SequentialBuffer.SequentialBuffer.Resize | code/libcpp_assistant/src/native/sequential_buffer.cpp:85-114 | Keeps the longest stored prefix that fits. |
| SequentialBuffer.SequentialBuffer.CopyFrom | code/libcpp_assistant/src/native/sequential_buffer.cpp:312-342 | The copy stores the same bytes in an array of the same size. |
| SequentialBuffer.SequentialBuffer.Create | code/libcpp_assistant/src/native/sequential_buffer.cpp:72-78 | Refused, and nothing changes, when there is an array already; otherwise an empty buffer of at least the minimum size, or the code for a size that is not positive. |
| SequentialBuffer.SequentialBuffer.InnerlyCreate | code/libcpp_assistant/src/native/sequential_buffer.cpp:291-310 | At least the minimum size; an array of the right size is kept with its contents. |
| BufferRuns.Apply | code/libcpp_assistant/src/native/sequential_buffer.cpp:116-281 | Each operation is a step of a FIFO queue if and only if it is not a write behind the marker, a partial drop from a full buffer, or a commit to a full one; after one of those no bytes taken out and put in account for what is stored. |
| BufferRuns.Run | code/libcpp_assistant/src/native/sequential_buffer.cpp:116-281 | Every run is a run of a FIFO queue, with the outputs delivered and the bytes left, if and only if none of those occurs; a condition on the queue alone rules them out, and exactly so for runs without copying writes. |
| BufferRuns.BehindRuns | code/libcpp_assistant/src/native/sequential_buffer.cpp:116-281 | After such an operation a queue that made the same steps is longer than the buffer, and stays so whatever follows. |
| BufferRuns.ReachMarker | code/libcpp_assistant/src/native/sequential_buffer.cpp:72-160 | Writing a new buffer full and reading one byte leads to the state in which every copying write is out of bounds. |
| BufferRuns.Place | code/libcpp_assistant/src/native/sequential_buffer.cpp:207-242 | Takes exactly as many bytes as there is room for behind the stored ones once they have been moved if they must be, and leaves the memory this makes. |
| BufferRuns.FirstInFirstOut | code/libcpp_assistant/src/native/sequential_buffer.cpp:116-281 | In such a run, what came out followed by what is left is what was there followed by what went in. |
| ByteOrder.TurnAroundMemory | code/libcpp_assistant/include/cpp_assistant/native/system.h:103-120 | The byte loop writes the reversed bytes and nothing else. |
| ByteOrder.NetToHost | code/libcpp_assistant/include/cpp_assistant/native/system.h:122-134 | Loading and converting reads the network-order integer, on hosts of either byte order. |
| ByteOrder.HostToNet | code/libcpp_assistant/include/cpp_assistant/native/system.h:122-134 | Converting and storing writes the network-order bytes, on hosts of either byte order. |
| ByteOrder.HostOrder | code/libcpp_assistant/include/cpp_assistant/native/system.h:122-134 | A big-endian host loads the first of two bytes as the more significant one, the other host the second; storing what was loaded restores the bytes. |
| ProtoHeader.GetField | code/frameworks/framework_public/protocol_common.h:293-315 | Reads the signed big-endian number at the field's offset. |
| ProtoHeader.SetField | code/frameworks/framework_public/protocol_common.h:317-335 | Patches exactly the bytes of the field. |
| ProtoHeader.FourBytes | code/frameworks/framework_public/protocol_common.h:293-315 | A field of four bytes, written out: the most significant byte first, negative from 128 on. |
| ProtoHeader.EightBytes | code/frameworks/framework_public/protocol_common.h:293-315 | The same for the eight bytes of the route id. |
| ProtoHeader.ParseHeader | code/frameworks/framework_public/protocol_common.cpp:39-72 | Every structure field is the signed number at its place in the buffer: 0, 4, 12, 16, 18 and 20. |
| ProtoHeader.AssembleHeader | code/frameworks/framework_public/protocol_common.cpp:74-107 | Writes the field values to those places and leaves the rest of the buffer. |
| ProtoHeader.DecodeAfterSerialize | code/frameworks/framework_public/protocol_common.cpp:39-107 | Parsing after assembling is the identity on all signed field values. |
| ProtoHeader.SerializeAfterDecode | code/frameworks/framework_public/protocol_common.cpp:39-107 | Assembling after parsing reproduces the 24 bytes. |
| ProtoHeader.PatchedIsAnswered | code/frameworks/framework_public/protocol_common.cpp:278-304 | Five patches in place are the structure update followed by serialization. |
| ProtoHeader.RewriteByParsing | code/frameworks/framework_public/protocol_common.cpp:278-304 | Parse, modify and assemble write the answer header: in the output bytes the length is 24 plus that of the body (modulo 2^32), the command, the error code and the packet number are those given, the route id is that of the input, and the flags differ from its flags in bit 0 only, which marks the final fragment. |
| ProtoHeader.RewriteByPatching | code/frameworks/framework_public/protocol_common.cpp:278-304 | Copying the header and patching five fields writes the same bytes, with the same fields at the same places. |
| Framing.CutConserves | code/frameworks/framework_public/main_app.cpp:632-675 | Cutting packets off loses and changes no byte. |
| Framing.CutIsDecomposition | code/frameworks/framework_templates/tcp_app/packet_processor.cpp:165-237 | The bytes received of a well-formed stream are cut exactly at its frames. |
| Framing.ChunkingIndependence | code/frameworks/framework_public/main_app.cpp:627-675 | For every way of cutting a stream of well-formed frames into chunks and every per-round limit, the packets handled are the first frames, in order and once each, and the unconsumed suffix is pending. |
| Framing.NothingHeldBack | code/frameworks/framework_public/main_app.cpp:627-675 | If no complete packet is left over, every frame received in full was handled. |
| Framing.SameBytesSamePackets | code/frameworks/framework_public/main_app.cpp:627-675 | Two ways of receiving the same bytes, both handled to the end, deliver the same packets. |
| Framing.HandleIsCutExactly | code/frameworks/framework_public/main_app.cpp:632-675 | The loop on a buffer handles what the stream says if and only if the buffer is not exactly full, nothing is handled, or the packet is all there is. |
| Framing.RefusingIsPrefix | code/frameworks/framework_public/main_app.cpp:642-652 | A handler's refusal ends a round early and never changes what is handed over until then; the round is the same if and only if no handler that is called refuses. |
| Framing.ServeIsDeliver | code/frameworks/framework_public/main_app.cpp:627-675 | Rounds on a buffer deliver what the stream does if and only if no reset fires and every round keeps all bytes: no loss is ever made good. |
| Framing.ServeBytes | code/frameworks/framework_public/main_app.cpp:627-675 | A buffer never accounts for more bytes than were received, and for as many exactly if it is undisturbed. |
| PacketProcessor.PacketProcessor.NoteIncomplete | code/frameworks/framework_templates/tcp_app/packet_processor.cpp:192-228 | The buffer is reset exactly when the packet cannot fit or five seconds have passed since the second noted, and that is cleared, kept or noted accordingly. |
| PacketProcessor.PacketProcessor.Process | code/frameworks/framework_templates/tcp_app/packet_processor.cpp:160-237 | Takes exactly one frame when it is complete, or all bytes if its length is not positive. Bytes that are no complete packet are thrown away, with code -1013, from five seconds after the second noted for the peer on; before that, or with none noted, exactly if the length word in memory exceeds the buffer, left-over bytes included, with code -1034; otherwise they are kept, with code -1009, and the second is noted. The memory afterwards is exact. |
| PacketLoop.HandleReceivedPackets | code/frameworks/framework_public/main_app.cpp:627-675 | The consume loop on the buffer hands over exactly the packets of the model and leaves what it leaves, exactly full buffers and refusing handlers included; it resets the buffer exactly if it stops at an incomplete packet that is late or whose length word, at a place and in memory known from the state before, exceeds the buffer. |
| PacketLoop.RoundEnds | code/frameworks/framework_public/main_app.cpp:632-661 | A round hands over at most maxCount packets; if it hands over fewer and leaves a complete one, the last handler called returned -1009, -1013 or -1034. |
| PacketLoop.AlongStep | code/frameworks/framework_public/main_app.cpp:632-661 | Dropping a packet keeps the memory of the round and moves the place where the bytes begin by its length, or to the front when none are left. |
| PacketLoop.ServeRounds | code/frameworks/framework_public/main_app.cpp:627-675 | Any number of rounds on the buffer, refusing handlers included, are the model's rounds; the bytes taken of every chunk and the resets are accounted for, memory included. Unless a called handler refuses, the run delivers what the stream does if and only if it is undisturbed, which is so if and only if it is calm, or, for smooth rounds of frames that fit, in time. |
| PacketLoop.SmoothRuns | code/frameworks/framework_public/main_app.cpp:627-675 | For a stream of frames that fit, in rounds that keep all bytes and leave no one to three bytes pending, no reset fires, and the run is undisturbed, if and only if no round that stops short is five seconds or more behind the time stamp then in force. |
| PacketLoop.UndisturbedIsCalm | code/frameworks/framework_public/main_app.cpp:627-675 | For any bytes at all, a run is undisturbed if and only if every round keeps all bytes and none that stops short is late or has a length word, partly left-over memory or not, that exceeds the buffer. |
| PacketLoop.UnrefusedServes | code/frameworks/framework_public/main_app.cpp:627-675 | If no called handler refuses, the rounds are those without handlers, stay within the buffer, and reset only at incomplete packets. |
| PacketLoop.LateForNothing | code/frameworks/framework_templates/tcp_app/packet_processor.cpp:192-228 | A frame completed within the second, and some seconds later the beginning of another: that beginning is thrown away if and only if it is five seconds or more, and nothing before it. |
| PacketLoop.FiveSeconds | code/frameworks/framework_templates/tcp_app/packet_processor.cpp:183-228 | The beginning of a frame, and some seconds later more of it: both are thrown away if and only if it is five seconds or more. |
| PacketLoop.StaleBytesReset | code/frameworks/framework_templates/tcp_app/packet_processor.cpp:160-237 | Of three good frames that fit, received at one instant, the first byte of the third is thrown away because of left-over bytes of the first. |
| FragmentModel.NonInterference | code/frameworks/framework_templates/tcp_app/packet_processor.cpp:434-584 | Over any interleaving with other sessions and sweeps, a session's packets have exactly the outcomes they would have alone. |
| FragmentModel.WholeIsFoldSinceCreation | code/frameworks/framework_templates/tcp_app/packet_processor.cpp:434-496 | While a session's entry lives, its partial message is the fold of exactly its own accepted fragments, in arrival order, since the entry was created. |
| FragmentModel.HandedSinceCreation | code/frameworks/framework_templates/tcp_app/packet_processor.cpp:434-525 | A packet is accepted exactly when its body parses, its session has or gets an entry, and the fold of all accepted since the entry was created can be extended by it; the business function gets that fold exactly on an accepted final packet that makes a valid message; the entry is gone exactly after an accepted final packet that is answered. |
| FragmentModel.HandedIsFold | code/frameworks/framework_templates/tcp_app/packet_processor.cpp:434-525 | The same told by the session's own log. |
| FragmentModel.OnlyFirstCreates | code/frameworks/framework_templates/tcp_app/packet_processor.cpp:438-464 | Entries are created by fragment number 1 only. |
| FragmentAssembly.GroupFragment | code/frameworks/framework_templates/tcp_app/packet_processor.cpp:468-478 | Grouping updates the session's own whole in place and the time of its item, which the sweep reads, and no other item. |
| FragmentAssembly.FindOrCreate | code/frameworks/framework_templates/tcp_app/packet_processor.cpp:438-468 | Finds the session's item, or creates one on fragment number 1, with the command and the descriptor of the packet. |
| FragmentAssembly.SingleOperatorGeneralFlow | code/frameworks/framework_templates/tcp_app/packet_processor.cpp:434-584 | On the message cache, one packet is one step of the model; a packet that does not fail notes the time in its own item, and no other item changes. |
| StringSplit.SplitAtDelimiter | code/libcpp_assistant/src/native/ca_string.cpp:38-95 | A delimiter separates the pieces before it from those after it. |
| StringSplit.SplitWord | code/libcpp_assistant/src/native/ca_string.cpp:38-95 | A word without delimiters is one piece; with the previous row this determines every split. |
| CommandLineModel.ParsedCounts | code/libcpp_assistant/src/native/command_line.cpp:112-269 | After a parse that succeeds every specified option has exactly its number of values if the count is fixed, and at least that number if not. |
| CommandLineModel.TakeAllGrows | code/libcpp_assistant/src/native/command_line.cpp:112-252 | No argument removes or reorders a single parameter or a value of a specified option, and fixed counts are never exceeded. |
| CommandLineModel.RunIsDistributed | code/libcpp_assistant/src/native/command_line.cpp:112-183 | In a run of positional tokens a prefix, as long as there is room, goes to the current option and the rest to the single parameters. |
| CommandLineModel.RunIsKept | code/libcpp_assistant/src/native/command_line.cpp:112-185 | Tokens that are no option and no dash with one character extend the option's values by exactly the first k of them and the single parameters by exactly the others, where k is all of them or the room the fixed count leaves. |
| CommandLineModel.DashedCharacter | code/libcpp_assistant/src/native/command_line.cpp:152-166 | Of a dash and one character that is neither a letter nor a dash exactly the character is stored. |
| CommandLineModel.ShortOptionMentions | code/libcpp_assistant/src/native/command_line.cpp:152-162 | With names kept apart a dash and a letter mention the option of that name, which is specified, loses its defaults at the first mention and becomes the current one, and nothing else changes; without such an option it fails with -1030. |
| CommandLineModel.LongOptionMentions | code/libcpp_assistant/src/native/command_line.cpp:206-238 | A long name without = mentions its option in the same way, or fails with -1030 and changes nothing. |
| CommandLineModel.BadLongOption | code/libcpp_assistant/src/native/command_line.cpp:213-222 | A first = at the front or at the end of the long option is refused with -1031, and nothing changes. |
| CommandLineModel.ClusterTaken | code/libcpp_assistant/src/native/command_line.cpp:189-203 | A cluster token mentions every letter, accepted exactly if all are options, and its last letter becomes the current option. |
| CommandLineModel.NothingTaken | code/libcpp_assistant/src/native/command_line.cpp:132-150 | An empty token and a bare pair of dashes change nothing and are no error. |
| CommandLineModel.RunStays | code/libcpp_assistant/src/native/command_line.cpp:112-252 | A run of positional tokens behind a specified option stays where it went, whatever follows: each token is stored once and in order. |
| CommandLineModel.RunCanBeLost | code/libcpp_assistant/src/native/command_line.cpp:64-183 | A later mention of the option keeps the tokens the run gave it exactly if it was specified before the run, and otherwise drops them all. |
| CommandLineModel.RunStaysWhereItWent | code/libcpp_assistant/src/native/command_line.cpp:112-252 | With names kept apart every run anywhere on the command line stays where it went. |
| CommandLineModel.LosingParse | code/libcpp_assistant/src/native/command_line.cpp:64-183 | Where b is a short name and another option's long name, and d is the long name of b, the line -b value -d is accepted and the value is stored nowhere. |
| CommandLineModel.ShortOptionIsOwn | code/libcpp_assistant/src/native/command_line.cpp:64-78 | A short option becomes the specified one exactly when it exists and is not the long name of another option. |
| CommandLineModel.ClusterMentionsEachLetter | code/libcpp_assistant/src/native/command_line.cpp:189-203 | A cluster is accepted exactly when every letter is an option, and then specifies exactly those options. |
| CommandLineModel.LongOptionTakesPrefix | code/libcpp_assistant/src/native/command_line.cpp:206-250 | A long option with values gives its option the longest prefix of them that fits, and changes nothing else. |
| CommandLineModel.LearningKeepsNamesOwn | code/libcpp_assistant/src/native/command_line.cpp:284-389 | Learning an option keeps names apart exactly under a condition on its two names. |
| CommandLine.CommandLine.LearnOption | code/libcpp_assistant/src/native/command_line.cpp:284-389 | Succeeds exactly for new names and a non-negative count, before or after a parse, and then knows the option by both names, the second one or the only one being the long name; a failure changes nothing and has the code of its reason. |
| CommandLine.CommandLine.SetIsSpecified | code/libcpp_assistant/src/native/command_line.cpp:64-78 | Resolves the name, long names first, and drops the default values at the first mention. |
| CommandLine.CommandLine.AddValueTo | code/libcpp_assistant/src/native/command_line.cpp:572-604 | Adds a value within the fixed count, or says why not. |
| CommandLine.CommandLine.TakeArgument | code/libcpp_assistant/src/native/command_line.cpp:124-252 | One argument of any of the forms: value, short option, cluster, long option with values. With no option to take it, a token that is none is stored as it is. |
| CommandLine.CommandLine.Parse | code/libcpp_assistant/src/native/command_line.cpp:80-269 | Parses once; the result and every error are those of the model, and success means exactly that the model accepts every argument and every specified option has its values. A line of tokens that are no options succeeds and appends just these tokens to the single parameters. The program's path is split at its last delimiter. |
| CommandLine.CommandLine.Reset | code/libcpp_assistant/src/native/command_line.cpp:271-282 | Forgets all values, default ones included, and allows another parse. |
| XmlTree.DepthFirstIsLevelByLevel | code/libcpp_assistant/src/native/xml_helper.cpp:52-143 | Depth-first search finds the same elements in the same order as taking children and filtering by the next name, level after level. |
| XmlTree.FoundHere | code/libcpp_assistant/src/native/xml_helper.cpp:52-143 | It finds exactly the elements whose names from the top are the path, in document order. |
| XmlHelper.Search.RecursivelyFindNodes | code/libcpp_assistant/src/native/xml_helper.cpp:52-143 | The recursion with the shared counter adds exactly those; the counter stays within the path and is restored on every exit. |
| XmlHelper.GenerallyFindNodes | code/libcpp_assistant/src/native/xml_helper.cpp:145-187 | Splits the path and searches from the node or its children; the result code says whether anything was found. |
| XmlHelper.FindNodes | code/libcpp_assistant/src/native/xml_helper.cpp:189-210 | A relative path starts at the children of the node. |
| XmlHelper.FindNodesInDocument | code/libcpp_assistant/src/native/xml_helper.cpp:212-241 | An absolute path starts at the root element. |

## Left out

- Dict.Dict.DictAdd: at most 2^30 entries and 2^31 buckets, as bucket indices are C ints; null keys and dictionaries are not modelled; whether resizing is enabled is a parameter of the call, not a global.
- Dict.Dict.DictExpand: table sizes up to 2^31; failure to allocate is not modelled.
- DictSafePass.SafePassExact: additions that would grow a table to 2^31 buckets during the pass are excluded.
- SweepLimits.SweepIsExactIff: no condition in closed form is given for a sweep during a rehash with expired entries in the old table and more of them than SweepIsExact allows; deletions there move the chains the iterator walks, and equally many of them can be exact or not.
- DictValues.Run: at most 2^30 entries and operations together, or 2^29 with sizes below 2^31 if the run sizes the table explicitly, as bucket indices are C ints.
- ConnectionCache.ConnectionCache.PickOneConnection: id is not INT32_MIN, whose absolute value is undefined; the random number is a parameter; a null type is not modelled; server types do not change while an entry is in the cache.
- ConnectionCache.ConnectionCache.Add: a name length beyond the end of the name would read foreign memory and is excluded.
- BufferRuns.Run: after a copying write in front of the array the code moves the write position and memory is corrupted; the model leaves the buffer as it was, so of a run that goes on past such a write only what comes before it is about the code.
- SequentialBuffer.SequentialBuffer.Read: positions are unbounded integers, so sizes near the int limit are not modelled.
- BufferRuns.FirstInFirstOut: how many bytes fit behind the write pointer depends on the positions and is left to the step; BufferRuns.Place has it exactly.
- PacketLoop.ServeRounds: what a handler does to other connections, and the redirection of the loop to another connection's buffer through the mutable output connection, are not modelled. With one to three bytes pending so close to the end of the array that the length word lies partly behind it, the word is foreign memory, and only a reset for lateness is stated; the same holds of HandleReceivedPackets and Process.
- PacketProcessor.PacketProcessor.Process: choosing and running the handler is one parameter, its return code; the check that a connection is validated is not modelled.
- FragmentAssembly.SingleOperatorGeneralFlow: parsing, grouping, validation and the answer are parameters; a failed grouping leaves the whole unchanged; commands without the general prefix or without fragments are not modelled, nor is the assembly of the answer.
- FragmentModel.Step: time does not appear; a sweep may drop any set of sessions.
- ProtoHeader.AssembleHeader: header extensions have size 0, as configured.
- CommandLine.CommandLine.Parse: null arguments, and an empty argument vector, whose first element the code reads; the delimiter is that of Linux.
- CommandLine.CommandLine.LearnOption: descriptions and usage texts; a name combination of commas only, for which the code reads a missing element.
- XmlHelper.Search.RecursivelyFindNodes: failing to grow the result vector, and null nodes.
- dict_resize, dict_fetch_value, timed rehashing, dict_empty, dict_release, statistics, and the freeing of tables, keys and values.
- The STL-map branches of the caches, the dispatcher flow, random keys, sockets, loggers, configuration, timers, the heartbeat and identity life cycle of connections.
