# A verified model of the LaunchDarkly C client SDK

This project models the stateful core of the LaunchDarkly C client-side SDK in Dafny and proves what it is for.

* **JSON text.** Every text of the grammar of RFC 8259, in any layout and notation, parses to the tree it denotes
  (`JsonGrammar`, `JsonNumeral`). The cJSON recursive-descent parser and the growing-buffer printer undo each other
  (`JsonPrint`, `JsonLayout`, `JsonParse`, `JsonRoundTrip`); the two-pass string unescaper never writes past its estimate
  (`JsonStringFit`); both are also written as the source has them, over buffers, offsets and loops
  (`JsonParser`, `JsonPrinter`).
* **JSON trees.** Objects as ordered member lists and as finite maps (`JsonObject`), items on the heap with
  their next/prev chains, deep copy and merge (`JsonTree`), deep comparison (`JsonCompare`).
* **The intrusive hash table** (`HashTable`): bucket chains and insertion-order list over the same nodes,
  bucket doubling, and the invariant that the table's own consistency check states.
* **Server-sent events** (`Sse`, `SseEvents`): the incremental parser of the "Server-sent events" section of
  the WHATWG HTML standard, line feeds only; an event without a name is dropped.
* **The flag store** (`Flags`, `StoreMerge`, `Store`, `StoreRuns`, `FlagStore`, `Listeners`, `SaveRestore`):
  merging by version, reference counts, callbacks over whole runs, and the save/restore round trip.
  `FlagStore` is the store on the heap, over `HashTable` and the linked list of `Listeners`.
  `StreamUpdates` goes from the bytes of a stream, through event and JSON parsing, to the store's contents.
* **Events and threads** (`Events`, `EventRuns`, `Summaries`, `EventProcessor`, `Threads`, `ThreadCauses`, `Shutdown`):
  exactly-once bundling, conservation of evaluation counts, what each summary of a run says, the background threads
  as an interleaved step system, how responses and calls decide what they do, and exactly when closing a client is
  certain to end them.
* **Base64 and redaction** (`Base64`, `Base64Standard`, `UserRedaction`): the encoding of section 5 of RFC 4648, on
  buffers and on the input's bits, and the redaction of private user attributes by the lists of names.

Each component has a specification on values (functions and lemmas) and, where the source changes things in
place, classes and loops proved against it. Runs are sequences of operations or labelled steps; the results
about them hold for every run. `Text`, `Json` and `Wrappers` hold what the others share. Verify everything with
`dafny verify dfyconfig.toml`.

What the proofs say about the code where it does not do what one might expect:

* A put, and the destruction of the store, free nodes without looking at their counts. The counts stay right
  exactly when no reader holds a node of the table at that moment (`Store.FreeInv`, `Store.DestroyInv`);
  `StoreRuns.FreeWhileHeld` is a run that destroys a node under its reader.
* A sender that reads ShuttingDown at the top of its loop can miss the shutdown: a put reported before its second
  read overwrites the status (`Threads.ShutdownMissed`). Then the sender may go on for ever, and the close, which
  joins it, may never return (`Shutdown.JoinMayNotReturn`). The sender is certain to end exactly when, at the close, no
  thread is fetching or streaming and no successful put is waiting to be reported (`Shutdown.CloseReturnsIff`).
* A payload is taken out of the queue before it is serialized, and dropped when that fails: events whose payload
  is too long to print are lost (`Threads.EventLost`). A payload is posted exactly when it can be serialized, once or
  twice depending on the first response (`Threads.EventsPostedAtMostTwice`).
* Numbers are copied into a buffer of 63 characters: longer ones are cut and read as another number
  (`JsonNumeral.LongNumeral`).
* At clock zero a started summary looks like none (`EventRuns.ZeroClock`): the flush sends an empty payload.
  Counts are conserved all the same.
* A flag saved with a negative version makes the whole restore fail; a flag version below -1 comes back as -1; a
  reason that is no object is lost (`Flags.FlagRoundTrip`). Values nested deeper than 998 cannot be restored, and
  flags whose text does not fit the printer cannot be saved (`SaveRestore.SaveRestore`).
* Comparison fails on a tree and its copy when a key is repeated with different values
  (`JsonCompare.CompareWithCopy`, `JsonCompare.RepeatedKey`).

## Model

| member | source | states |
|---|---|---|
| `JsonParse.ParseValue` | `c-sdk-common/src/cJSON.c:1182-1244` | every successful call on a terminated buffer ends strictly after its start and still before the end of the buffer |
| `JsonParse.ParseItems` | `c-sdk-common/src/cJSON.c:1314-1398` | an array's elements up to its bracket: strictly forward and inside the buffer |
| `JsonParse.ParseMembers` | `c-sdk-common/src/cJSON.c:1456-1557` | an object's members up to its brace: strictly forward and inside the buffer |
| `JsonParse.ParseNumber` | `c-sdk-common/src/cJSON.c:288-358` | a number is at least one character long and stays inside the buffer |
| `JsonParse.Utf16Literal` | `c-sdk-common/src/cJSON.c:564-669` | an escape is six characters, a surrogate pair twelve, and neither reaches past the end of the string; a code point is at most 0x10FFFF |
| `JsonRoundTrip.PrintParse` | `c-sdk-common/src/cJSON.c:976-1131` | parsing the printed text of any tree, formatted or not, gives back exactly that tree if it nests at most 1000 deep, and fails otherwise |
| `JsonRoundTrip.ValueRoundTrip` | `c-sdk-common/src/cJSON.c:1182-1659` | a printed value parses back to itself wherever it stands and at whatever depth, ending exactly behind its text, or fails because it would nest deeper than 1000 |
| `JsonRoundTrip.StringRoundTrip` | `c-sdk-common/src/cJSON.c:672-913` | an escaped and quoted string parses back to itself, ending exactly behind its closing quote |
| `JsonRoundTrip.IntegerRoundTrip` | `c-sdk-common/src/cJSON.c:288-532` | the decimal text of an integer below 10^15 in size, followed by anything that is no number character, parses back to that integer |
| `JsonGrammar.GrammarParses` | `c-sdk-common/src/cJSON.c:976-1054` | every JSON text of RFC 8259, whatever its layout, escapes and number notation, after a byte order mark or none and before any other text, parses to the tree it denotes if that nests at most 1000 deep, and fails otherwise; numbers have at most 63 characters and strings end before a NUL |
| `JsonGrammar.DocParses` | `c-sdk-common/src/cJSON.c:1182-1557` | a text parses to the tree it denotes wherever it stands and at whatever depth, ending exactly behind it, or fails because it nests deeper than 1000 |
| `JsonGrammar.StringParses` | `c-sdk-common/src/cJSON.c:564-798` | a string of plain characters, one-letter escapes, code points and surrogate pairs in any mixture and either case of digits parses to what they stand for, up to the first NUL |
| `JsonGrammar.Utf8Is` | `c-sdk-common/src/cJSON.c:624-665` | the bytes of a code point are those of section 3 of RFC 3629: their number, their markers and the bits they hold |
| `JsonGrammar.SurrogatePair` | `c-sdk-common/src/cJSON.c:591-617` | the text \ud83d\ude00 in quotes parses to the four bytes of U+1F600 |
| `JsonNumeral.NumeralParses` | `c-sdk-common/src/cJSON.c:288-358` | a number with sign, fraction and exponent in any notation of at most 63 characters parses to (whole + fraction / 10^digits) * 10^exponent, ending exactly behind it |
| `JsonNumeral.LongNumeral` | `c-sdk-common/src/cJSON.c:304-331` | of a number with more than 63 digits the first 63 are read as a number of their own |
| `JsonLayout.TwoMembers` | `c-sdk-common/src/cJSON.c:1560-1659` | formatted objects have a member per line, indented by tabs, with a tab behind the colon, and the brace on its own line; unformatted ones have no layout |
| `JsonLayout.TwoItems` | `c-sdk-common/src/cJSON.c:1401-1453` | formatted arrays have a space behind each comma, unformatted ones nothing |
| `JsonLayout.Escapes` | `c-sdk-common/src/cJSON.c:801-913` | which characters of a string are escaped, and how |
| `JsonStringFit.UnescapeFits` | `c-sdk-common/src/cJSON.c:564-778` | for every quoted input, malformed escapes and failing ones included, everything the second pass writes fits in the size the first pass computed; a pass that succeeds has written the unescaped string |
| `JsonParser.ParseBuffer.ParseString` | `c-sdk-common/src/cJSON.c:672-798` | the two-pass array implementation returns exactly the specified string and offset, and writes only inside the allocated buffer |
| `JsonParser.ParseBuffer.ParseValue` | `c-sdk-common/src/cJSON.c:1182-1244` | the method over offset and depth returns exactly the specified tree and offset, and restores the depth |
| `JsonParser.ParseBuffer.ParseArray` | `c-sdk-common/src/cJSON.c:1314-1398` | returns exactly the specified array and offset and restores the depth, or fails exactly when the specification does |
| `JsonParser.ParseBuffer.ParseElements` | `c-sdk-common/src/cJSON.c:1345-1374` | the element loop, which steps back before the first element, parses exactly the specified elements and stops at the bracket |
| `JsonParser.ParseBuffer.ParseObject` | `c-sdk-common/src/cJSON.c:1456-1557` | returns exactly the specified object and offset and restores the depth, or fails exactly when the specification does |
| `JsonParser.ParseBuffer.ParsePairs` | `c-sdk-common/src/cJSON.c:1487-1534` | the member loop parses exactly the specified members and stops at the brace |
| `JsonParser.Parse` | `c-sdk-common/src/cJSON.c:976-1054` | the whole parser, byte order mark included, is the specified function |
| `JsonParser.EncodeUtf8` | `c-sdk-common/src/cJSON.c:620-665` | the loop that fills an encoding from its last byte backwards writes the UTF-8 form of the code point and nothing else |
| `JsonPrinter.PrintBuffer.Ensure` | `c-sdk-common/src/cJSON.c:387-457` | succeeds exactly while offset and request stay within INT_MAX; then the request is reserved inside the buffer and the text already printed is kept |
| `JsonPrinter.PrintBuffer.Write` | `c-sdk-common/src/cJSON.c:801-913` | a write lands behind the text, within the space last reserved, and changes nothing in front of it |
| `JsonPrinter.PrintBuffer.PrintString` | `c-sdk-common/src/cJSON.c:801-913` | the counting pass reserves exactly what the writing pass produces, so the text appended is the quoted string |
| `JsonPrinter.EscapeLength` | `c-sdk-common/src/cJSON.c:821-850` | the counting pass predicts the exact length of the escaped text |
| `JsonPrinter.PrintBuffer.PrintValue` | `c-sdk-common/src/cJSON.c:1247-1311` | appends the value's text, succeeds exactly while the buffer's limit allows it, and keeps the offset below the length |
| `JsonPrinter.PrintBuffer.PrintArray` | `c-sdk-common/src/cJSON.c:1401-1453` | the element loop appends the array's text and restores the depth |
| `JsonPrinter.PrintBuffer.PrintObject` | `c-sdk-common/src/cJSON.c:1560-1659` | the member loop appends the object's text and restores the depth |
| `JsonPrinter.Print` | `c-sdk-common/src/cJSON.c:1058-1131` | printing succeeds exactly when the text and two more bytes fit an int, and then gives the text of the tree |
| `JsonObject.SetKeyIsUpdate` | `c-sdk-common/src/json.c:488-532` | on objects with unique keys, set-key is update of the finite map and keeps keys unique |
| `JsonObject.DeleteKeyIsRemoval` | `c-sdk-common/src/json.c:534-564` | delete-key is removal from the finite map and keeps keys unique |
| `JsonObject.MergeIsOverride` | `c-sdk-common/src/json.c:599-646` | merge is override of the finite map by the source |
| `JsonObject.LookupMerge` | `c-sdk-common/src/json.c:599-646` | after a merge each key finds the source's value, or its old one where the source has none; keys stay unique |
| `JsonTree.AddItem` | `c-sdk-common/src/cJSON.c:1794-1817` | appending walks to the tail and leaves a well-formed next/prev chain with the item last and every other item in place |
| `JsonTree.Detach` | `c-sdk-common/src/cJSON.c:2031-2056` | unlinking any child leaves a well-formed chain of the others in order, and the child unlinked from everything |
| `JsonTree.GetObjectItem` | `c-sdk-common/src/cJSON.c:1710-1744` | finds the first child with the key, and nothing exactly when there is none |
| `JsonTree.Attach` | `c-sdk-common/src/cJSON.c:1794-1817` | appending a tree to a container, wherever that stands in its forest, keeps every family of both intact: chains, parents and the values they stand for, all the way up |
| `JsonTree.Push` | `c-sdk-common/src/json.c:370-402` | the array, wherever it stands, stands for its old items and the new one, in one forest with the item's tree |
| `JsonTree.DetachTree` | `c-sdk-common/src/json.c:311-343` | a child becomes a tree of its own; its container, wherever it stands, stands for the children left, and the forest stays whole |
| `JsonTree.DetachKey` | `c-sdk-common/src/json.c:566-597` | detaches the value found under the key, nothing exactly when there is none; the object, wherever it stands, stands for delete-key of its members |
| `JsonTree.RemoveKey` | `c-sdk-common/src/json.c:534-564` | the object, wherever it stands, stands for delete-key of its members, and the forest stays whole |
| `JsonTree.AddItemToObject` | `c-sdk-common/src/cJSON.c:1845-1880` | the item is renamed and its tree becomes the last member of the object, wherever that stands |
| `JsonTree.SetObjectKey` | `c-sdk-common/src/json.c:488-532` | the object, nested or not, stands for set-key of its members, in one whole forest with the item's tree; no other item's data, key or children change |
| `JsonTree.Duplicate` | `c-sdk-common/src/cJSON.c:2475-2547` | the copy is a tree of fresh items only, all its chains well formed, standing for the same value; the original is untouched |
| `JsonTree.MergeObject` | `c-sdk-common/src/json.c:599-646` | fresh deep copies of the source's members: the target, nested or not, stands for the merge of the two member lists in a whole forest; the source's tree is as it was |
| `JsonCompare.CompareIsEquality` | `c-sdk-common/src/cJSON.c:2729-2842` | for all trees compare says yes exactly when repeated keys are consistent in both and the two mean the same value, objects as finite maps |
| `JsonCompare.CompareOnUnique` | `c-sdk-common/src/cJSON.c:2729-2842` | without repeated keys compare is equality of meaning, hence reflexive, symmetric and transitive |
| `JsonCompare.CompareWithCopy` | `c-sdk-common/src/cJSON.c:2475-2842` | a tree compares equal to its copy if and only if its repeated keys are consistent |
| `JsonCompare.RepeatedKey` | `c-sdk-common/src/cJSON.c:2805-2837` | a concrete tree with a repeated key that does not compare equal to its copy |
| `HashTable.Table.Find` | `third-party/include/uthash.h:156-176` | find agrees with the finite map of the nodes added and not deleted, for any hash function |
| `HashTable.Table.FindInBucket` | `third-party/include/uthash.h:827-846` | the walk over one bucket finds the node with the key if any node of the whole table has it |
| `HashTable.Table.Items` | `third-party/include/uthash.h:1136-1142` | iteration visits the nodes in insertion order |
| `HashTable.Table.Add` | `third-party/include/uthash.h:396-422` | adding an absent key keeps the consistency-check invariant, appends to the order and is map update |
| `HashTable.Table.Delete` | `third-party/include/uthash.h:450-477` | deleting a node keeps the invariant, removes it from the order and is map removal |
| `HashTable.Table.Clear` | `src/store.c:21-32` | deleting every node while iterating visits each exactly once, in order, and leaves an empty table |
| `HashTable.PushBucket` | `third-party/include/uthash.h:849-868` | a node becomes the head of its chain, counted, all links of the chain well formed |
| `HashTable.UnlinkBucket` | `third-party/include/uthash.h:871-884` | a node leaves its chain, the count follows, all links of the rest well formed |
| `HashTable.AppendOrder` | `third-party/include/uthash.h:278-284` | a node joins the end of the insertion-order list |
| `HashTable.UnlinkOrder` | `third-party/include/uthash.h:450-477` | a node leaves the insertion-order list, whose links stay well formed |
| `HashTable.Redistribute` | `third-party/include/uthash.h:915-963` | moving every node of every chain into twice as many buckets loses and repeats none, and adds up each bucket's excess over the ideal length and its multiplier |
| `HashTable.Expand` | `third-party/include/uthash.h:915-963` | a doubling keeps the nodes, sets the ideal chain length to ceil(items/buckets) and the non-ideal count to the sum of the excesses |
| `HashTable.ShiftedCeilIsCeil` | `third-party/include/uthash.h:915-963` | the shift-and-mask form is the least chain length that holds all items in the buckets |
| `HashTable.AddToTable` | `third-party/include/uthash.h:337-345` | the table is doubled, with all its bookkeeping, exactly when the bucket joined then has at least ten times its multiplier plus one nodes and doubling has not been given up; otherwise only that bucket changes |
| `HashTable.MakeTable` | `third-party/include/uthash.h:212-232` | a new table has 32 empty buckets and satisfies the invariant |
| `Sse.ChunkingIrrelevant` | `c-sdk-common/src/sse.c:126-177` | the events dispatched and the state left depend only on the concatenated bytes, from any state |
| `Sse.FeedConcat` | `c-sdk-common/src/sse.c:126-177` | feeding two chunks is feeding their concatenation |
| `Sse.Parser.Process` | `c-sdk-common/src/sse.c:126-177` | the buffer-shifting scan loop leaves exactly the specified state and dispatches exactly the specified events |
| `Sse.Parser.ProcessLine` | `c-sdk-common/src/sse.c:39-124` | one line updates name, body and dispatched events as specified |
| `SseEvents.DispatchesReference` | `c-sdk-common/src/sse.c:39-177` | for every byte stream and every cut, the events dispatched are those an independent reading into blocks of lines gives, in which a field's value is what follows its colon and at most one space |
| `SseEvents.FieldForms` | `c-sdk-common/src/sse.c:74-118` | in that reading a field may be written with a space behind its colon or without, only the first space is dropped, and a line that starts with a colon is no field |
| `SseEvents.StreamRoundTrip` | `c-sdk-common/src/sse.c:39-177` | events with newline-free names, written as event and data lines and cut anywhere, are dispatched exactly and in order |
| `Flags.FlagRoundTrip` | `src/flag.c:6-283` | parsing a flag's JSON form, with its key given or not, gives the flag back if and only if its version is not negative, its flag version is at least -1 and its reason is absent or an object |
| `Flags.FlagParseReads` | `src/flag.c:6-156` | for every JSON value, by the names of its fields: a flag is read exactly when it is an object with a value, a numeric version and no deleted that is not a boolean, and the key is given or is the object's text key; a given key names the flag whatever the object's key holds; every optional field is the one looked up, numbers cut toward zero, or its default |
| `Flags.FlagJsonSays` | `src/flag.c:158-283` | by the names of its fields: what the JSON form of a flag holds and what it leaves out |
| `Flags.FlagJsonGet` | `src/flag.c:158-283` | the JSON form holds exactly the specified value under every field name and no key twice |
| `StoreMerge.ApplyKeepsEarliestGreatest` | `src/store.c:112-172` | after any updates each key holds the earliest-applied entry of greatest version |
| `StoreMerge.Converges` | `src/store.c:112-224` | the same updates in any order and repetition give the same contents when versions identify entries |
| `StoreMerge.VersionsNeverDecrease` | `src/store.c:112-172` | no key is lost and no version goes down |
| `StoreMerge.TombstoneHides` | `src/store.c:125-224` | a tombstone stays in place exactly until an update of greater version, and the flag shows again only through a newer patch |
| `Store.UpsertInv` | `src/store.c:125-172` | an upsert keeps keys distinct, counts equal to references and every node destroyed exactly once when unreferenced |
| `Store.GetInv` | `src/store.c:174-197` | a get keeps the same invariant, the reader's reference counted |
| `Store.GetAllInv` | `src/store.c:286-331` | a get-all keeps the same invariant with one more reference to every published node |
| `Store.ReleaseInv` | `src/reference_count.c:35-50` | a release keeps the same invariant; the destructor runs exactly when the last reference goes |
| `Store.SwapInv` | `src/store.c:265-278` | replacing the table under the lock keeps the invariant, whoever holds its nodes |
| `Store.FreeInv` | `src/store.c:278-281` | freeing a replaced table after unlocking keeps the invariant if and only if no reader then holds a node of it |
| `Store.PutInv` | `src/store.c:226-284` | a put with nothing in between keeps the invariant if and only if no reader holds a node of the table it replaces |
| `Store.DestroyInv` | `src/store.c:61-69` | destroying the store keeps the invariant if and only if no reader holds a published node |
| `StoreRuns.RunInv` | `src/store.c:21-331` | over every admissible interleaving, puts split at their unlock and destruction included, a node's count is one for its table plus one per holder, and it is destroyed exactly once, when that reaches zero |
| `StoreRuns.HeldNodesLive` | `src/store.c:174-197` | no node that a reader holds is ever destroyed |
| `StoreRuns.DestroyedExactlyOnce` | `src/store.c:61-69` | at the end of a run that destroys the store, with every put done and every reader gone, every node ever allocated has been destroyed exactly once |
| `StoreRuns.FreeWhileHeld` | `src/store.c:278-281` | a concrete run: freeing a replaced table during a read destroys the node under its reader |
| `StoreRuns.UpsertContent` | `src/store.c:125-172` | the node and table manipulation of an upsert is merge by version on the contents |
| `StoreRuns.SwapContent` | `src/store.c:241-271` | once the table is replaced the contents are exactly the flags of the put, if its keys differ |
| `StoreRuns.PutContent` | `src/store.c:226-284` | a whole put leaves exactly its flags |
| `StoreRuns.RunContent` | `src/store.c:125-331` | over every admissible run the contents are those of the map into which patches and deletes merge by version and which puts replace and destruction empties |
| `StoreRuns.DeleteContent` | `src/store.c:199-224` | a delete of a key not held, or held at a lower version, leaves a deleted flag without value of exactly the version asked for, read as an int (from 2^31 on as version - 2^32), and announces it; otherwise contents and callbacks stay as they were; no other key is touched |
| `StoreRuns.StoresConverge` | `src/store.c:112-224` | two stores with equal contents that see the same patches and deletes between puts, in any order and interleaved with any reads and registrations, end with equal contents |
| `StoreRuns.RunCalls` | `src/store.c:146-167` | over every admissible run each callback is made exactly once per accepted update and per flag of a put while it is registered, and never for a stale update |
| `FlagStore.FlagStore.Upsert` | `src/store.c:125-172` | hash-table lookup, deletion and insertion, counting and the walk over the linked listeners together are the state function of the runs |
| `FlagStore.FindAgrees` | `src/store.c:144-144` | the hash table finds the handle of exactly the node that the specification's search finds |
| `FlagStore.FlagStore.Get` | `src/store.c:174-197` | finds a live flag through the hash table exactly when there is one, and then holds its node |
| `FlagStore.FlagStore.GetAll` | `src/store.c:286-331` | iterating the hash table returns every published node in order, each held once |
| `FlagStore.FlagStore.BuildTable` | `src/store.c:241-258` | the loop fills a new hash table with one node per flag, in order |
| `FlagStore.FlagStore.SwapTable` | `src/store.c:265-278` | the locked part of a put is the swap of the runs; the old hash table is left whole for its put to free |
| `FlagStore.FlagStore.FreeReplaced` | `src/store.c:280-281` | taking the old hash table apart destroys each of its nodes once and no other |
| `FlagStore.FlagStore.Put` | `src/store.c:226-284` | filling, swapping, notifying and freeing together are the put of the runs |
| `FlagStore.FlagStore.DestroyStore` | `src/store.c:61-69` | frees the hash table's nodes and the listeners: the destruction of the runs |
| `FlagStore.FlagStore.RegisterListener` | `src/store.c:384-398` | registration through the linked list is that of the runs |
| `FlagStore.FlagStore.UnregisterListener` | `src/store.c:400-411` | unregistration through the linked list is that of the runs |
| `FlagStore.FlagStore.AllFlags` | `src/client.c:624-685` | every reference taken is given back, so the store is left exactly as it was |
| `FlagStore.ValuesLookup` | `src/client.c:651-670` | the object returned maps exactly the live flags' keys to their values |
| `SaveRestore.SaveRestore` | `src/client.c:592-622` | saving and restoring gives exactly the live flags in order if and only if the text and two more bytes fit an int and each flag has a version of at least 0, a flag version of at least -1, an absent or object reason and nests at most 998 deep; beyond that length there is no text |
| `SaveRestore.SaveFlags` | `src/client.c:592-613` | the bundle loop and the printer give the specified text or, exactly when it is too long, none |
| `SaveRestore.StoreSaveRestore` | `src/ldthreads.c:233-291` | under exactly that condition a client restored from another's saved text holds exactly the other's live flags, tombstones removed, whatever it held before |
| `SaveRestore.StoreGetJson` | `src/store.c:333-380` | the loop over the table builds the specified bundle of live flags |
| `SaveRestore.ParsePayload` | `src/ldthreads.c:262-280` | the loop succeeds exactly when every member is an object that holds a flag, and names each flag by its member, with or without a key inside |
| `SaveRestore.PutReads` | `src/ldthreads.c:262-280` | a put gives flags exactly when each member is an object with a value, a numeric version and no deleted that is not a boolean; each flag has its member's name and says what the member's object says, field by field |
| `StreamUpdates.OnEventDoes` | `src/ldthreads.c:233-376` | receiving the event text of a patch, a delete or a put, formatted or not, upserts exactly that flag or tombstone, or puts exactly those flags |
| `StreamUpdates.DeleteEvent` | `src/ldthreads.c:326-376` | a delete event whose text, in any layout, is an object with a text key and a number version from 0 to 2^32 - 1 leaves a deleted flag of exactly that version, read as an int, unless the key is held at that version or a greater one, and changes nothing else |
| `StreamUpdates.DeleteEventIgnored` | `src/ldthreads.c:338-364` | a delete event that is no object, or lacks a text key or a number version, changes nothing |
| `StreamUpdates.PatchEvent` | `src/ldthreads.c:293-324` | a patch event merges the flag its text describes, field by field, by version |
| `StreamUpdates.PatchEventIgnored` | `src/ldthreads.c:304-320` | a patch event that holds no named flag changes nothing |
| `StreamUpdates.PutEvent` | `src/ldthreads.c:233-291` | a put event whose members, each named once, hold flags replaces the contents by exactly them, each under its member's name and as its object says, also without a key inside, and the store is initialized |
| `StreamUpdates.PutEventIgnored` | `src/ldthreads.c:243-280` | one member that holds no flag, or data that is no object, makes the whole put change nothing |
| `StreamUpdates.StreamMerges` | `src/ldthreads.c:411-436` | from bytes to store: puts, patches and deletes sent as events, in whatever chunks they arrive, leave exactly the contents that each put replaces and the others merge into by version; counts stay right if nothing is put or no reader holds a published node |
| `StreamUpdates.StreamsConverge` | `src/ldthreads.c:293-436` | two clients with equal contents that are sent the same patches and deletes, each in its own order, repetition, layout and cuts, end with equal contents |
| `StreamUpdates.StreamsConvergeAfterPut` | `src/ldthreads.c:233-436` | two clients, whatever they held and were sent before, that receive the same put and then the same patches and deletes in any order, repetition, layout and cuts, end with equal contents |
| `Listeners.DispatchOnce` | `src/flag_change_listener.c:127-139` | a dispatch calls every callback registered for the flag exactly once and makes no other call |
| `Listeners.RegisterUnique` | `src/flag_change_listener.c:86-107` | registration keeps the pairs without repetition and adds exactly the new one |
| `Listeners.UnregisterUnique` | `src/flag_change_listener.c:109-124` | unregistration keeps the pairs without repetition and removes exactly the one named |
| `Listeners.ListenerList.Add` | `src/flag_change_listener.c:86-107` | the linked list is prepended to exactly when the pair is not found |
| `Listeners.ListenerList.Remove` | `src/flag_change_listener.c:109-124` | the linked list loses exactly the pair named, links well formed |
| `Listeners.ListenerList.DeleteNode` | `third-party/include/utlist.h:388-402` | a node leaves the singly linked list and the others keep their order |
| `Listeners.ListenerList.Search` | `third-party/include/utlist.h:438-443` | finds the pair if and only if it is in the list |
| `Listeners.ListenerList.DispatchAll` | `src/flag_change_listener.c:127-139` | the walk makes exactly the specified calls in list order |
| `Events.KeyTextInjective` | `src/event_processor.c:893-903` | the text keys of counters tell all (version, variation) pairs and the unknown counter apart |
| `Events.RecordedPending` | `src/event_processor.c:911-1077` | an evaluation adds one to the pending count of its own flag and counter and to no other, and keeps the nested objects well formed |
| `Events.RecordedLookup` | `src/event_processor.c:919-1077` | an evaluation leaves every other flag's context as it was; its own keeps the default it has, or gets the fallback, and records the evaluation in its counters |
| `Events.DeliversPending` | `src/event_processor.c:527-631` | what a receiver can read from a summary event, without the counter keys, is exactly what was pending |
| `EventRuns.ExactlyOnce` | `src/event_processor.c:65-80` | in every run each accepted event is in exactly one payload or still queued, in acceptance order, and the queue never exceeds its capacity |
| `EventRuns.PayloadsSized` | `src/event_processor.c:633-707` | a payload holds at most capacity events and at most one more entry, a summary, always last |
| `EventRuns.Conservation` | `src/event_processor.c:527-707` | in every run, whatever the clock, delivered plus pending counts equal the evaluations made, for each flag and counter |
| `Summaries.SummariesTell` | `src/event_processor.c:527-707` | in every run a flush after an evaluation at a non-zero clock closes its payload with a summary of all evaluations since the last summary: kind, startDate the first non-zero clock and endDate the time of the flush; under each flag evaluated and no other, default is the fallback of its first evaluation, and for each counter there is one entry with the value served first and the number of evaluations; any other flush delivers none |
| `Summaries.RecordedKeeps` | `src/event_processor.c:919-1077` | recording an evaluation keeps the counters in step with the evaluations made since the last summary, for each flag and counter |
| `EventRuns.StepStarted` | `src/event_processor.c:911-917` | an operation keeps summaryStart non-zero exactly when counters are pending, if and only if it does not start a summary at clock zero |
| `EventRuns.RunStarted` | `src/event_processor.c:670-698` | with a non-zero clock summaryStart is non-zero exactly when counters are pending, and a flush leaves nothing behind |
| `EventRuns.ZeroClock` | `src/event_processor.c:652-702` | a concrete run: at clock zero a flush sends an empty payload and leaves the counters behind |
| `EventProcessor.EventProcessor.SummarizeEvent` | `src/event_processor.c:870-1083` | the nested edits are the state function of the runs, whose summaries say which fallback and which value came first, and keep the counters well formed |
| `EventProcessor.EventProcessor.PrepareSummaryEvent` | `src/event_processor.c:527-631` | the loop turns every flag's counters into an array and gives the specified summary event |
| `EventProcessor.EventProcessor.BundleEventPayload` | `src/event_processor.c:633-707` | the swap returns the specified payload and leaves the specified processor |
| `EventProcessor.EventProcessor.ProcessEvalEvent` | `src/event_processor.c:1093-1157` | every evaluation is counted; a feature event is queued only for a tracked or still debugged flag |
| `EventProcessor.ObjectToArray` | `src/event_processor.c:493-525` | the array holds the values of the object in order |
| `Threads.AtMostTwice` | `src/ldthreads.c:78-137` | in every interleaving each payload is posted at most twice, always under the id drawn for it; before the sender goes on it has been posted, if it could be serialized, exactly once when the first response was 200, 202, 401 or 403 and exactly twice otherwise; it reports a failure only after a single 401 or 403 |
| `Threads.EventsPostedAtMostTwice` | `src/ldthreads.c:22-146` | end to end: every accepted event is in exactly one payload or still queued; a payload the sender has left was posted exactly once if the first response was 200, 202, 401 or 403 and exactly twice otherwise, or never if it could not be serialized, which is whether its text fits the printer; each post has exactly the contents of its payload under one id; nothing else is posted |
| `Threads.PostsLogged` | `src/ldthreads.c:104-106` | the posts counted are exactly those the run's steps make, in order and with the responses they got |
| `ThreadCauses.PostAnswered` | `src/ldthreads.c:102-137` | after a 200 or 202 or a second response the sender goes on; after a first 401 or 403 its next step, whatever happens before it, makes the client fail; after any other first response it posts once more |
| `ThreadCauses.FetchAnswered` | `src/ldthreads.c:203-228` | after a fetch: a 200 with data is put and then reported as initialized or failed, a 401 or 403 makes the client fail, anything else starts over, whatever happens in between |
| `ThreadCauses.PutStreamed` | `src/ldthreads.c:284-290` | a put on the stream is stored, then reported as initialized or failed, and the stream goes on |
| `ThreadCauses.StreamAnswered` | `src/ldthreads.c:532-560` | a stream that ends with 400 to 499, save 400, 408 and 429, makes the client fail and ends the streamer; after any other response it starts over |
| `ThreadCauses.FailsOnlyForCause` | `src/ldthreads.c:102-231` | in every run from the start the status is Failed only after a response that refuses the key, a permanent stream error or a put that failed |
| `ThreadCauses.LastCallDecides` | `src/client.c:313-401` | in every run being offline and being in the background are what the last call about them said |
| `ThreadCauses.CallsSetStatus` | `src/client.c:313-474` | going online and identifying make the status Initializing, closing ShuttingDown, and going offline leaves it |
| `ThreadCauses.RestoreReports` | `src/ldthreads.c:282-290` | a restore stores what its put came to, and reports that once as Initialized or Failed |
| `ThreadCauses.ModeDecides` | `src/ldthreads.c:168-515` | in every run from the start nothing is fetched while the client is offline or its mode does not poll, and nothing is streamed while it is offline, in the background or not a streaming client |
| `ThreadCauses.PollsWhenDue` | `src/ldthreads.c:160-203` | a client that is online, has not ended and may poll comes to fetch, whatever happens in between |
| `ThreadCauses.StreamsWhenDue` | `src/ldthreads.c:490-530` | a client that is online, has not ended and may stream comes to stream |
| `ThreadCauses.SendsWhenDue` | `src/ldthreads.c:36-98` | a sender of a client that has not failed comes to bundle if the client is online, and to post exactly what it bundled that can be serialized |
| `ThreadCauses.FlushesBeforeEnd` | `src/ldthreads.c:40-84` | a sender that has not recorded a shutdown does not end without one more flush while the client is online and does not fail |
| `Threads.EventLost` | `src/ldthreads.c:86-98` | a concrete run: an event whose payload is too long to print leaves the queue and is never posted |
| `Threads.SenderEnds` | `src/ldthreads.c:40-66` | once the sender has recorded the shutdown it bundles at most once more and ends within seven of its own steps, whatever happens to the status |
| `Threads.ShutdownMissed` | `src/ldthreads.c:36-62` | a concrete run: a put reported between the sender's two reads of the status makes it miss the shutdown |
| `Shutdown.StatusStaysIff` | `src/client.c:455-463` | at a close, the status stays ShuttingDown or Failed in every continuation if and only if no thread is fetching or streaming and no successful put is waiting to be reported |
| `Shutdown.CloseEndsThreads` | `src/client.c:465-474` | with no put in flight at the close all three threads end: the sender within thirteen of its own steps, the poller within three, the streamer within one |
| `Shutdown.CloseFlushes` | `src/ldthreads.c:40-84` | with no put in flight at the close the sender bundles at most twice more |
| `Shutdown.JoinMayNotReturn` | `src/client.c:472-474` | with a put in flight at the close there are continuations in which the sender takes any number of steps without ending, so that its join never returns |
| `Shutdown.CloseReturnsIff` | `src/client.c:455-474` | for a sender that has not yet heard of the close: it is certain to end within thirteen of its own steps if and only if no put is in flight |
| `Threads.OfflineStartsAtMostOne` | `src/ldthreads.c:151-231` | while the client stays offline the sender, poller and streamer each start at most one more payload, fetch and stream, and only one already decided on |
| `Threads.InitializedIsStored` | `src/ldthreads.c:284-288` | in every interleaving status Initialized implies a completed put |
| `Base64.DecodeEncode` | `third-party/src/base64.c:67-193` | decoding the encoding of any non-empty byte string returns it; the empty one is refused |
| `Base64.NoiseIgnored` | `third-party/src/base64.c:135-193` | bytes outside the alphabet, inserted anywhere in any input, do not change the result |
| `Base64.AllocationSuffices` | `third-party/src/base64.c:74-85` | the overflow test accepts exactly the lengths below 2^62, and for those the buffer holds four bytes per started group of three and the terminator |
| `Base64.Encoded` | `third-party/src/base64.c:67-122` | the encoding has four bytes per started group of three |
| `Base64.Encode` | `third-party/src/base64.c:67-122` | the pointer loops write the specified encoding inside the buffer, or refuse exactly the lengths from 2^62 on |
| `Base64Standard.EncodedIs` | `third-party/src/base64.c:51-122` | section 5 of RFC 4648 on the input's string of bits: each six of them, zeros behind the last, as their sign of the alphabet written out, and padding signs up to a multiple of four |
| `Base64Standard.AlphabetIs` | `third-party/src/base64.c:51-52` | the table is the URL and filename safe alphabet |
| `Base64Standard.DecodedIff` | `third-party/src/base64.c:135-193` | bytes decode exactly when those of the alphabet and the padding sign come in one or more groups of four and the first group with padding has one or two signs of it |
| `Base64.Decode` | `third-party/src/base64.c:135-193` | the table-driven loop returns exactly the specified decoding, every write inside the buffer |
| `UserRedaction.EventUserIs` | `c-sdk-common/src/user.c:351-489` | what the event user says under every key: key, anonymous, each shown attribute unchanged, the redacted custom object, privateAttrs as the hidden names in visiting order, and nothing else |
| `UserRedaction.AttributePrivacy` | `c-sdk-common/src/user.c:397-432` | for every user and configuration, over the lists of names: a built-in attribute the user has is left out and named in privateAttrs if and only if everything is private, or the configuration's list names it, or the user's does; otherwise it is shown with its value |
| `UserRedaction.CustomPrivacy` | `c-sdk-common/src/user.c:443-468` | the same for every custom member and its key |
| `UserRedaction.PrivateAttrsAre` | `c-sdk-common/src/user.c:397-486` | privateAttrs is exactly the names those lists make private of the ones the user has, the eight built-in ones in order and then the custom keys, and absent when there are none |
| `UserRedaction.ShownOrHidden` | `c-sdk-common/src/user.c:397-486` | each present attribute and each custom member is either shown unchanged or named in privateAttrs, never both and never neither |
| `UserRedaction.HiddenAttrsIs` | `c-sdk-common/src/user.c:397-432` | a built-in attribute is named as hidden exactly when it is visited, present and private |
| `UserRedaction.HiddenCustomIs` | `c-sdk-common/src/user.c:443-468` | a custom key is named as hidden exactly when a member has it and it is private, and shown and hidden members add up to all |
| `UserRedaction.RedactCustom` | `c-sdk-common/src/user.c:443-468` | walking the list while deleting from it by key leaves exactly the members that are not private, in order, and yields the private names in visiting order, repeated keys included |
| `UserRedaction.RedactTree` | `c-sdk-common/src/user.c:434-476` | after the walk the copy is still a whole tree, and stands for the members that are not private |
| `UserRedaction.TextArray` | `c-sdk-common/src/user.c:324-349` | a fresh array tree that stands for the hidden names |
| `UserRedaction.ShownCustomIs` | `c-sdk-common/src/user.c:450-464` | a custom member is shown if and only if its key is not private |
| `UserRedaction.CreateEventUser` | `c-sdk-common/src/user.c:351-489` | a tree of fresh items only, all its chains and families intact, that stands for the event user of exactly this user and this configuration; the user's custom tree is untouched |
| `UserRedaction.IsPrivateAttr` | `c-sdk-common/src/user.c:301-322` | an attribute is private exactly if everything is, or the configuration gives a list that names it, or the user's own list does |
| `UserRedaction.TextInArray` | `c-sdk-common/src/user.c:284-299` | the loop decides membership |

## Left out

- Floating point: numbers are exact reals; `strtod` is modelled without rounding, and only integers below 10^15 in
  size are printed, since the text of other doubles is the C library's.
- Conversions to `int` of numbers outside its range are truncation only; flag versions and variations are unbounded
  integers except where the text says `int` (a delete's version is reduced to 32 bits as the source does it).
- Allocation failures: allocation succeeds everywhere; a failing put is a label of `Threads` only.
- The parser and the printer work on trees as values; linked items are the subject of `JsonTree`. The position
  of a parse error is not modelled.
- Pointer identity in comparison: that an item compares equal to itself without being looked at is not modelled;
  numbers are not NaN.
- JsonTree.SetObjectKey: keys are never absent and never owned by the item being replaced; constant keys and
  reference items are not on the product's paths.
- HashTable.Table.Add: counters and the number of buckets are unbounded, so their 32-bit wrap-around is not
  captured; bucket masks are written as remainders; the hash function is any function of the key; a key is added
  only when absent, as the store does.
- FlagStore.FlagStore.Upsert: store nodes are numbered and their handles are objects of the hash table, where the
  source embeds the handle in the node.
- A tombstone's flag version is 0 in the model; the source leaves that field of a deleted flag uninitialised, and no
  operation modelled here reads it.
- StoreRuns.RunInv: each locked region is one step; puts with repeated keys are outside the runs, since the source
  adds them without checking. Listener callbacks do not call back into the store, whose lock is held.
- StreamUpdates.OnEventDoes: the conversion of a delete's version to an unsigned int is C's only from 0 to
  2^32 - 1; outside it the source's behaviour is undefined and the model's arbitrary.
- Sse.Parser.Process: the dispatcher always returns true, as the only one in the product does.
- SaveRestore.SaveRestore: stated for live flags that have a value, NUL-free text and integers of exact text, which
  are those whose saved text the model gives.
- Events.RecordedPending: counts are exact, so the loss of precision of a double beyond 2^53 is not captured; the
  feature event itself, with its user information, is an input.
- JsonGrammar.GrammarParses: the parser also accepts texts outside the grammar, such as a number that ends in its point or
  malformed `\u` escapes; what it makes of those is stated by the functions of `JsonParse` only.
- StreamUpdates.PutEvent: a put that names a key twice is left out, since the source adds both nodes without checking.
- Threads.EventsPostedAtMostTwice: whether a payload with numbers whose text the model does not give can be printed
  is a free choice of the label.
- Threads.AtMostTwice: network responses, waiting, wake-ups and delays are free choices of the labels; the backoff
  formula of the streamer is not modelled; patch and delete events of a stream do not touch this state.
- UserRedaction.CreateEventUser: the eight expansions of `addstring` are one loop over the attributes in their
  order, and the array of hidden names is linked once complete.
- Windows and platform code, sockets, URLs, configuration setters, the C++ wrappers and the test support.
- Listing, sorting and selection macros of the hash table and list headers that the product does not use.
