# Verified models of the Star Terminal backend

This project models the parts of the repository that keep state and promise something about it, and proves those
promises. Each group below is a set of modules; a method is proved against a function or predicate of the state, and
lemmas then say what that function means.

**The file store** (`RingArith`, `FileLayout`, `FileParts`, `FileLog`, `FilePartMap`, `FileDatabase`, `FileSpec`,
`FileCache`, `FileRuns`). A file is cut into parts of `P` bytes (`P` is any positive number); the cache entry holds dirty
part buffers and the dirty header, the database holds rows, and a circular file wraps its offsets around a ring of parts.
The class `CacheEntry` has the code's fields and a ghost `log`, the plain sequence of bytes that the entry stands for.
Every operation is proved against what it does to that log (`FileSpec`), with every database failure and every way a
transaction can end; whole runs, failures and retried flushes included, then behave like a file without parts, cache or
database (`FileRuns`). One case is lossy: a write to a circular file that starts before its window can destroy bytes it
does not cover. The condition for that is exact (`FileLog.WriteIsPlainIff`, `FileRuns.KeepsHeadIff`), and `LogAfterWrite`
says which bytes become zero.

**The pin protocol** (`PinProtocol`). Threads pin an entry, lock it, work, unlock and unpin, in any interleaving. The
invariant gives exact pin counts, mutual exclusion per key, no lost unflushed state, critical sections that run as if
alone, and the absence of deadlock.

**The virtual DOM** (`VDomTypes`, `VDomTree`, `VDomFrames`, `VDomRoot`, `VDomExpand`, `VDomTransfer`, `VDomUpdates`,
`VDomRuns`, `VDomTestPage`). A component function calls hooks one after the other, each call depending on what the calls
before it returned. The class `RootElem` updates a tree of components in place. It renders the elements of a `Scope` that
expanding does not lead out of (`Closed`). The ghost `Tree` values name what the code reaches through its pointers.
Rendering against any mounted tree reads out as the recursive expansion of the new element (`Expand`), keeps the ids and
hooks of the components it takes over, and leaves exactly the reachable components in CompMap. The users of an atom are
the mounted components whose hooks will clean it up, and stale ones: a component whose atoms vary between renders can
leave registrations behind. Which ones is exact (`RenderRoot`, `CallComponent`, `CallsThenCleanup`), as is when there are
none (`UnmountLeaksNothingIff`); under the rules of hooks (`StableHooks`) there are none. Over whole runs of a new root
(`VDomRuns`), what is read out while nothing is queued is up to date, ids never come back, and state is kept. The tree is
then flattened, deduplicated, cut into updates and rebuilt by the frontend; `RenderAndSend` puts all of it together. The
components of the repository's own test have a scope, and their page is mounted and clicked in `VDomTestPage`.

**Incremental JSON** (`IJson`, `IJsonTs`, `IJsonDelete`, `IJsonLog`). Lens laws of path sets, laws of the frontend's
delete, the exact condition under which the backend's delete agrees with it, replay and compaction of command logs, and
logs as bytes. Two defects of the byte level are stated as lemmas: commands appended after a compaction make the whole
log unreadable (`AppendsAfterCompaction`, `AppendToCompacted`), and array indices do not survive the encoding (`ParseTextExactIff`,
`IndexNeverReplays`, `IndexDeleteDropsArray`).

**Workspaces, tabs and blocks** (`ScoreForest`, `Score`). The object store as a class; ownership is a forest in which
every block is listed once, by the parent it names. Deleting a block removes exactly its subtree, and every run from an
empty store keeps all of it (`RunOps`).

**Publish/subscribe** (`Slices`, `WpsTable`, `Wps`). Three indexes per event against one table of latest subscriptions.

**Update transactions** (`CtxUpdates`). A stack of maps; a rollback restores the stack, a commit is as if there had been
no transaction.

**Suggestions** (`TopK`, `DirCache`) and **streamed responses** (`StreamingResp`). Top-k over a stream, an LRU cache with
lifetimes, and a writer whose output depends only on the concatenation of what was written.

Ghost fields and ghost parameters hold what the code does not compute: the plain log, the tree, ranks, the subscription
table, the order of uses.

## Model

| member | source | states |
|---|---|---|
| RingArith.BuiltIn | pkg/filestore/blockstore.go:428-435 | quotient, remainder and product, defined by recursion here, are those of the language |
| FileLayout.SamePlace | pkg/filestore/blockstore.go:428-435 | two offsets less than a ring apart are stored at the same place of the same part only if they are equal |
| FileLayout.PlaceOf | pkg/filestore/blockstore.go:428-435 | the part of an offset and the place in it, in built-in arithmetic |
| FileLayout.PartOfSegDistinct | pkg/filestore/blockstore.go:428-435 | segments less than a turn of the ring apart lie in different parts |
| FileParts.WritePartsEffect | pkg/filestore/blockstore_cache.go:146-203 | after the write loop every offset written holds its byte, every other byte of a cached part is as before or zero in a new buffer, and exactly the touched parts have become cached |
| FilePartMap.ComputePartMap | pkg/filestore/blockstore.go:456-475 | the map holds exactly the visited parts, each with the count of its last visit on the ring, also when a part is visited several times |
| FilePartMap.IncompleteParts | pkg/filestore/blockstore.go:437-445 | exactly the parts whose count is not a whole part |
| FileLog.CompletePart | pkg/filestore/blockstore.go:456-475 | a part counted complete lies wholly inside the last turn of the ring that the write covers |
| FileLog.LoadedIsEnough | pkg/filestore/blockstore.go:253-259 | for any append or in-window write of any length, loading only the incomplete parts is enough: parts and rows hold the new log afterwards, so no live byte is lost |
| FileLog.WriteAtKeepsLog | pkg/filestore/blockstore_cache.go:159-204 | any positioned write, wherever it starts, leaves parts and rows that hold exactly the log that LogAfterWrite gives |
| FileLog.WriteIsPlainIff | pkg/filestore/blockstore.go:253-259 | a positioned write is the plain overlay if and only if the part at the start of the window is not skipped as complete while only its tail is written, or the bytes lost are zeros |
| FileLog.StraddleLosesLastByte | pkg/filestore/blockstore.go:240-262 | a concrete ring, log and write that destroy the last byte of the file |
| FileLog.HeadIsComplete | pkg/filestore/blockstore.go:456-475 | in the lossy case the skipped part is counted complete, so no loading rescues it |
| FileLog.ReplaceHolds | pkg/filestore/blockstore_cache.go:159-168 | a whole-file write holds the new log in the cache alone, whatever stale rows there are |
| FileLog.LoadHolds | pkg/filestore/blockstore_cache.go:273-287 | buffers copied from rows can stand in for them |
| FileLog.NextByteHolds | pkg/filestore/blockstore.go:344-347 | the newline that AppendIJson adds without loading anything is stored without loss |
| FileDatabase.DataCacheEntry.WriteToPart | pkg/filestore/blockstore_cache.go:146-157 | what is copied into the buffer, how much of the data that is, and the new used length |
| FileDatabase.FileRows.GetFileParts | pkg/filestore/blockstore_dbops.go:65-84 | fresh buffers with the bytes of exactly the wanted parts that have a row |
| FileDatabase.FileRows.WriteCacheEntry | pkg/filestore/blockstore_dbops.go:94-117 | the rows are the dirty parts over the old rows, or the dirty parts alone when replacing; without a header nothing is written |
| FileDatabase.FlushHolds | pkg/filestore/blockstore_cache.go:329-349 | after a flush the rows alone hold the log that cache and rows held together |
| FileCache.CacheEntry.GetOrCreateDataCacheEntry | pkg/filestore/blockstore_cache.go:93-99 | the part is cached afterwards, empty if it is new, and the others are untouched |
| FileCache.CacheEntry.LoadFileIntoCache | pkg/filestore/blockstore_cache.go:101-112 | the header is there, or the error says why not, and the entry still stands for its log |
| FileCache.CacheEntry.LoadDataPartsIntoCache | pkg/filestore/blockstore_cache.go:273-287 | every wanted part that has a row is cached, cached parts stay, and the log is unchanged |
| FileCache.CacheEntry.WriteAtCache | pkg/filestore/blockstore_cache.go:159-204 | the buffers, the header and the ghost parts after writeAt are those of CacheAfterWrite |
| FileCache.CacheEntry.ReadAtCache | pkg/filestore/blockstore_cache.go:206-260 | a read returns the requested range clipped to the live window of the log, or the error or panic of the code |
| FileCache.CacheEntry.FlushToDB | pkg/filestore/blockstore_cache.go:329-349 | a flush that commits, times out or fails leaves the log alone; the fourth failure since the entry was clean drops to what the database holds |
| FileCache.CacheEntry.MakeFile | pkg/filestore/blockstore.go:115-152 | an empty file with rounded ring size, or the error of the first check that fails, with nothing changed |
| FileCache.RoundedToParts | pkg/filestore/blockstore.go:125-129 | the size stored for a ring is the least whole number of parts that is not below what was asked for |
| FileCache.CacheEntry.DeleteFile | pkg/filestore/blockstore.go:154-163 | the file is gone with its unflushed bytes, or nothing has changed |
| FileCache.CacheEntry.WriteFile | pkg/filestore/blockstore.go:228-238 | the log is the new data whatever stale rows there were, and is flushed as FlushToDB says |
| FileCache.CacheEntry.WriteAt | pkg/filestore/blockstore.go:240-262 | the log is overlaid by the data, or the error of the code with nothing changed, or the lossy case exactly as stated |
| FileCache.CacheEntry.AppendData | pkg/filestore/blockstore.go:264-281 | the log grows by exactly the data, or the error of the code with nothing changed |
| FileCache.CacheEntry.AppendIJson | pkg/filestore/blockstore.go:323-362 | the log grows by the command and a newline; every command but the first is counted, and the file is compacted exactly when the counts of commands and bytes say so |
| FileCache.CacheEntry.CompactIJson | pkg/filestore/blockstore.go:296-321 | the log is what the compactor returns for it, or unchanged with its error |
| FileCache.CacheEntry.ReadAt | pkg/filestore/blockstore.go:370-380 | every read agrees with the log, whichever parts are cached, in the database or wrapped |
| FileCache.CacheEntry.ReadFile | pkg/filestore/blockstore.go:382-394 | the whole live window of the log |
| FileCache.LossBeforeLoading | pkg/filestore/blockstore.go:253-259 | whether a write is lossy does not depend on the parts that are loaded for it |
| FileRuns.RunAll | pkg/filestore/blockstore.go:115-281 | any sequence of operations with any failures is a run of the plain log, results included |
| FileRuns.KeepsHeadIff | pkg/filestore/blockstore_cache.go:159-203 | a write leaves the overlay of the log whatever is cached if and only if it does not lose the head of the window, or what it loses are zeros |
| FileRuns.RunIsPlain | pkg/filestore/blockstore.go:228-362 | however often the database fails and flushes are retried, a run in which no operation gives up unflushed bytes or loses the head of a window leaves the file that a plain byte log would be |
| FileRuns.RunReadsPlain | pkg/filestore/blockstore_cache.go:206-260 | in such a run every read of a range or of the whole file returns what the plain byte log would, or its own database error |
| FileRuns.FlushIsInvisible | pkg/filestore/blockstore_cache.go:329-349 | a corollary: no flush, committed or failed up to the limit, changes the answer of any read |
| FileRuns.FourthFailure | pkg/filestore/blockstore_cache.go:329-349 | three failed flushes in a row leave the log alone, and the fourth drops the unflushed bytes |
| FileRuns.OptionsOf | pkg/filestore/blockstore.go:115-152 | which options make a file, and what is stored of them |
| FileRuns.ReadBack | pkg/filestore/blockstore_cache.go:146-260 | bytes that have been written are read back, as far as they are in the window |
| FileRuns.ReadAllBack | pkg/filestore/blockstore_cache.go:146-260 | a file just written whole or appended to is read whole; of a circular one, its last maxSize bytes |
| FileRuns.FirstAppend | pkg/filestore/blockstore.go:344-349 | the first command of a file is not counted and does not compact it |
| FileRuns.AppendCompactsIff | pkg/filestore/blockstore.go:350-359 | an append compacts exactly if more than 100 commands are counted, or their bytes are three times what the file has, or more than 10 and as much as it has |
| FileRuns.HundredAppends | pkg/filestore/blockstore.go:323-362 | a hundred appends to a flushed file with anything in it only add their lines |
| FileRuns.NextAppendCompacts | pkg/filestore/blockstore.go:323-362 | and the 101st compacts the file |
| FileRuns.CompactsUntilFlush | pkg/filestore/blockstore.go:350-359 | compacting does not reset the counts: once a hundred commands are counted, every append compacts the file until it is flushed or deleted |
| FileRuns.DurableIsPast | pkg/filestore/blockstore_dbops.go:94-117 | at any moment of any run the database alone holds a log that the file had earlier |
| PinProtocol.InvNext | pkg/filestore/blockstore_cache.go:62-85 | every step of pin, lock, work, unlock and unpin keeps the invariant |
| PinProtocol.PinCountExact | pkg/filestore/blockstore_cache.go:62-85 | in every reachable state the entry a thread holds is the one in the map and its pin count is the number of holders |
| PinProtocol.OneWorker | pkg/filestore/blockstore_cache.go:128-144 | two threads never work on the same key at once |
| PinProtocol.OnlyWorkChangesView | pkg/filestore/blockstore_cache.go:62-91 | only working changes what an operation can see, and only for its own key |
| PinProtocol.UnflushedNeverDropped | pkg/filestore/blockstore_cache.go:74-85 | an entry with unflushed state stays in the map |
| PinProtocol.CriticalSectionIsAlone | pkg/filestore/blockstore_cache.go:128-144 | while a thread works on a key no other thread changes what it sees |
| PinProtocol.SomeThreadCanStep | pkg/filestore/blockstore_cache.go:128-144 | as long as a thread is inside withLock some thread can take its next step |
| VDomRoot.RootElem.constructor | pkg/vdom/vdom_root.go:72-79 | a new root has no components, no users and nothing queued, and renders the elements of the scope it is given |
| VDomRoot.RootElem.RenderRoot | pkg/vdom/vdom_root.go:168-170 | what is read out is the expansion of the element with the hooks it takes over; CompMap is exact, and a component that is gone stays among the users of exactly the atoms that none of its slots would clean up |
| VDomRoot.RootElem.RunWork | pkg/vdom/vdom_root.go:228-258 | asked for, the root is rendered again, reads out as its expansion and keeps ids and hooks; not asked for, nothing changes; it panics exactly if asked for without a root |
| VDomRoot.RootElem.MakeVDom | pkg/vdom/vdom_root.go:525-532 | the read-out of the mounted tree |
| VDomRoot.RootElem.ConvertToVDom | pkg/vdom/vdom_root.go:497-523 | the read-out of a component; an unregistered tag reads out as nothing |
| VDomRoot.RootElem.SetState | pkg/vdom/vdom.go:317-333 | one slot of a mounted component changes, the tree stays valid, and the component is queued |
| VDomRoot.RootElem.SetAtomVal | pkg/vdom/vdom_root.go:106-118 | the value is set and, if asked to and if it is new, the atom is marked dirty; nothing is queued |
| VDomRoot.RootElem.SetFromUseAtom | pkg/vdom/vdom.go:376-381 | the setter of UseAtom queues the users of the atom, among them all mounted components whose last render called it or whose hooks clean it up, and no others under the rules of hooks |
| VDomRoot.RootElem.Render | pkg/vdom/vdom_root.go:260-287 | the old tree is replaced by one that shows the element and carries over what matches; nothing else in CompMap or among the users changes |
| VDomRoot.RootElem.Unmount | pkg/vdom/vdom_root.go:289-310 | exactly the components below are gone from CompMap and from every atom |
| VDomRoot.RootElem.RenderChildren | pkg/vdom/vdom_root.go:323-352 | each new child shows its element and takes over the matching old child, the unmatched old ones are gone |
| VDomRoot.RootElem.RenderComponent | pkg/vdom/vdom_root.go:407-433 | the component function runs on its hooks and its result is rendered below it |
| VDomRoot.RootElem.RunHooks | pkg/vdom/vdom.go:301-383 | a component function runs: what it returns, the hook slots, the new users of atoms and the effects queued after all its calls, each of which may depend on the values before it |
| VDomTypes.OutputAgain | pkg/vdom/vdom.go:301-383 | on the slots that its calls have left, a component makes the same calls and gives the same result |
| VDomTypes.EffectsMeaning | pkg/vdom/vdom.go:454-470 | an effect is queued exactly if its slot is new, not yet called, or holds other dependencies |
| VDomTypes.EffectsOnce | pkg/vdom/vdom.go:454-470 | so the same calls again queue nothing |
| VDomTypes.PartsInOrder | pkg/vdom/vdom.go:503-552 | what a component returns is rendered part by part, in order |
| VDomTypes.ResultMeaning | pkg/vdom/vdom_root.go:420-432 | nothing is rendered as nothing, one element as itself, several as a fragment around them |
| VDomTypes.BaseTags | pkg/vdom/vdom.go:554-563 | which tags are elements and which are looked up among the components |
| VDomTypes.KeyMeaning | pkg/vdom/vdom.go:47-57 | the key is the string in the property "key" |
| VDomTestPage.PageInScope | pkg/vdom/vdom_test.go:22-62 | Page and Button, which renders the children it is given, are covered: there is a scope that expanding does not lead out of |
| VDomTestPage.ClickPage | pkg/vdom/vdom_test.go:78-96 | mounted on a new root the page reads out as its first look, and after its state is set and work is done as its clicked look |
| VDomTestPage.ShowAtom | pkg/vdom/vdom.go:356-383 | a component that shows an atom shows its value, and after its setter has been called with any value and work is done, that value |
| VDomTestPage.PageKeepsRules | pkg/vdom/vdom_test.go:22-62 | both keep the rules of hooks |
| VDomRoot.RootElem.CallComponent | pkg/vdom/vdom_root.go:407-422 | the function's result on its slots after the calls; its stale registrations are those it had or has just made, without those a slot cleans up |
| VDomRoot.RootElem.CallsThenCleanup | pkg/vdom/vdom.go:360-383 | after any renders and its unmounting a component is left among the users of exactly the atoms that it called, but never as the first call on a slot |
| VDomFrames.Compose | pkg/vdom/vdom_root.go:260-310 | replacing a tree twice is replacing it once |
| VDomFrames.PartwayStep | pkg/vdom/vdom_root.go:323-352 | replacing one more child keeps exact what has gone, what has come and who uses which atom |
| VDomFrames.StaleAfterCalls | pkg/vdom/vdom.go:360-383 | what a component's calls do to its registrations that no slot will undo, and that those of others stay |
| VDomFrames.CallsAccounted | pkg/vdom/vdom.go:360-383 | under the rules of hooks no registration becomes stale |
| VDomFrames.CleanupAccounted | pkg/vdom/vdom_root.go:294-299 | the UnmountFns of a component undo its registrations but for the stale ones, and those of no other |
| VDomFrames.CleanedUpIff | pkg/vdom/vdom.go:360-369 | after any history of renders some slot cleans an atom up if and only if some render called it on a slot that no earlier render had |
| VDomFrames.UnmountLeaksNothingIff | pkg/vdom/vdom.go:360-383 | every registration a component ever made is cleaned up if and only if each atom it ever called was once called on a new slot |
| VDomFrames.VaryingAtomLeaks | pkg/vdom/vdom.go:360-383 | a history of three renders that leaves a registration behind |
| VDomFrames.DuplicateKeyShadows | pkg/vdom/vdom_root.go:327-344 | of old siblings with the same tag and key only the last is ever taken over, by every new element with them |
| VDomExpand.ReadsAsExpansion | pkg/vdom/vdom_root.go:260-287 | any tree that shows an element and carries over from an old one reads out as the recursive expansion |
| VDomExpand.ReadsAsSelf | pkg/vdom/vdom_root.go:260-287 | a tree that shows an element reads out as the expansion with the hooks of the tree itself: rendering again would show the same |
| VDomExpand.StatelessExpansion | pkg/vdom/vdom_root.go:407-433 | without state, re-rendering and rendering from scratch give the same |
| VDomExpand.KeyedChildKept | pkg/vdom/vdom_root.go:323-345 | a keyed child in both sibling lists keeps its id and its hooks, wherever it moved |
| VDomExpand.NewChildIsFresh | pkg/vdom/vdom_root.go:312-315 | a child that matches no old one gets a new id |
| VDomRuns.RunAll | pkg/vdom/vdom_root.go:106-258 | any run of a new root, with renders, work, setters and read-outs in any order, is a run of the trees and queues that `Run` describes |
| VDomRuns.NothingForgotten | pkg/vdom/vdom.go:317-383 | at any moment of any run with nothing queued, the mounted tree shows its element with the state that is there and the atoms as last seen: no setter is forgotten, and only SetAtomVal of the root is not seen |
| VDomRuns.ReadIsUpToDate | pkg/vdom/vdom_root.go:525-532 | so a read-out with nothing queued is what rendering again would show |
| VDomRuns.NeverBack | pkg/vdom/vdom_root.go:289-315 | an id that is not mounted any more is never mounted again |
| VDomRuns.DeadSetter | pkg/vdom/vdom.go:329-332 | so a setter of a component that is gone changes nothing and only asks for a render |
| VDomRuns.StateIsKept | pkg/vdom/vdom.go:317-333 | a slot keeps its value through all renders and moves of its component until it is set again |
| VDomRuns.SetThenKept | pkg/vdom/vdom.go:329-332 | a value that a setter has set is there until it is set again, as long as the component is mounted |
| VDomTransfer.Encoder.ProcessElem | pkg/vdom/vdom_root.go:534-580 | appends the flattening of the element, with text nodes numbered on |
| VDomTransfer.DedupTransferElems | pkg/vdom/vdom_root.go:582-598 | every id once, at the place of its first occurrence, with its last value |
| VDomTransfer.FirstOccurrence | pkg/vdom/vdom_root.go:582-598 | an id comes after exactly the ids that have occurred before it |
| VDomTransfer.LastOccurrence | pkg/vdom/vdom_root.go:582-598 | and has the value of its last occurrence |
| VDomTransfer.DedupKeepsMap | pkg/vdom/vdom_root.go:582-598 | deduplication does not change what the frontend looks up |
| VDomTransfer.RestoresUnique | frontend/app/view/vdom/vdom-utils.tsx:138-173 | a map of transfer elements rebuilds at most one tree under an id |
| VDomTransfer.FlattenRestores | pkg/vdom/vdom_root.go:534-580 | the flattened elements rebuild the element they came from |
| VDomTransfer.RoundTrip | pkg/vdom/vdom_root.go:534-616 | the frontend rebuilds each root that is not a bare text, up to the ids of text nodes, and nothing else under its id |
| VDomUpdates.SplitBackendUpdate | pkg/vdom/vdom_root.go:618-671 | the updates merge back to the whole and all name its kind, moment and block; the first holds at most 50 of each list, the later ones between 1 and 100 items |
| VDomUpdates.SentRestores | pkg/vdom/vdom_root.go:600-616 | an element that is sent is rebuilt exactly, and nothing is rebuilt exactly if it is a bare text |
| VDomUpdates.FullRender | pkg/starapp/starapp.go:276-298 | the queued work is done and the root rendered: the element to be sent is the expansion, or the null element for an empty one, and the effects queued are those of both renders |
| VDomUpdates.RenderAndSend | pkg/starapp/starappserverimpl.go:72-89 | a full render and its update: every chunk has its kind, moment and block, the first names the one root and says whether effects are queued, and what the frontend rebuilds for that root from the merged chunks is the expansion of the element, or the null element; something is rebuilt exactly if the rendering is not a bare text; it panics exactly if work is queued without a root |
| IJson.GetAfterSet | pkg/ijson/ijson.go:344-452 | a get after a successful set returns the value, or its combination with what was there |
| IJson.ReadElement | pkg/ijson/ijson.go:183-213 | what a key and an index read, present or missing |
| IJson.AppendReads | pkg/ijson/ijson.go:257-273 | an append to a path that reads an array adds the value at its end, one that reads nil makes an array of it, and any other is refused |
| IJson.SetEntryReads | pkg/ijson/ijson.go:344-452 | a set below a path that reads a container changes just that entry; an array grows exactly as far as it must, with nil in between |
| IJson.BadParts | pkg/ijson/ijson.go:183-452 | negative indices and parts of other types are errors to read and to set |
| IJson.SetKeepsDiverging | pkg/ijson/ijson.go:344-452 | a successful set changes no diverging path, arrays that grow and created containers included |
| IJson.SetOverridesSet | pkg/ijson/ijson.go:344-452 | a second set on the same path gives what it alone would give |
| IJson.DivergingSetsCommute | pkg/ijson/ijson.go:344-452 | sets and appends on diverging paths commute, also as to success |
| IJson.ForceOnlyWhenNeeded | pkg/ijson/ijson.go:342-360 | force matters only when something is in the way |
| IJson.ValidPathReads | pkg/ijson/ijson.go:179-213 | a valid path never gives an error |
| IJsonTs.DeletedReadsNull | frontend/util/ijson.ts:113-213 | after a successful delete the path reads as null |
| IJsonTs.DeleteElement | frontend/util/ijson.ts:129-143 | deleting the last element of an array shortens it, the only one leaves nothing, any other leaves a hole, and a missing one changes nothing |
| IJsonTs.DeleteKey | frontend/util/ijson.ts:145-213 | deleting a key leaves the other keys, or nothing |
| IJsonTs.DeleteUpwards | frontend/util/ijson.ts:145-213 | a delete that leaves nothing of a container deletes the container, and so on upwards |
| IJsonTs.DeleteKeepsDiverging | frontend/util/ijson.ts:113-213 | what a diverging path reads is unchanged |
| IJsonTs.DeleteRemovesLeaves | frontend/util/ijson.ts:113-213 | a delete removes exactly the leaves at and below its path |
| IJsonTs.DeleteMissing | frontend/util/ijson.ts:113-213 | deleting a path that is missing changes no leaf |
| IJsonTs.DeleteIdempotent | frontend/util/ijson.ts:113-213 | deleting twice is deleting once |
| IJsonDelete.AgreeIffClean | pkg/ijson/ijson.go:344-452 | the backend's delete succeeds with the document of the frontend's if and only if the path can be walked over containers of the right kind and size |
| IJsonDelete.CleanRemoveLaws | pkg/ijson/ijson.go:344-452 | on such a walk it deletes the path and keeps every diverging path |
| IJsonDelete.WrongKindDropsEntry | pkg/ijson/ijson.go:382-388 | an error below a map entry deletes the entry and counts as success |
| IJsonDelete.MissingElementDropsArray | pkg/ijson/ijson.go:430-432 | a missing array element on the way deletes the array and counts as success |
| IJsonLog.ApplyCommands | pkg/ijson/ijson.go:617-626 | the loop gives the replay, up to the first error |
| IJsonLog.CommandReads | pkg/ijson/ijson.go:597-615 | a set command is read back, an append command adds at the end of an array, a delete on a clean walk is the delete, and an unknown command fails |
| IJsonLog.CompactThenReplay | pkg/ijson/ijson.go:597-653 | replacing any prefix of a log by one root set and replaying any rest, from any document, gives what the whole log gives |
| IJsonLog.ParseIJson | pkg/ijson/ijson.go:655-675 | the commands of all lines, or none if a line does not decode |
| IJsonLog.ParseText | pkg/ijson/ijson.go:655-675 | parsing newline-terminated encoded commands gives them back as JSON has them |
| IJsonLog.ParseTextExactIff | pkg/ijson/ijson.go:449-451 | they come back exactly if and only if no path holds an array index |
| IJsonLog.IndexNeverReplays | pkg/ijson/ijson.go:449-451 | a set or append with an index in its path always fails when replayed from text |
| IJsonLog.IndexDeleteDropsArray | pkg/ijson/ijson.go:382-388 | a delete of an array element replayed from text deletes the array and counts as success |
| IJsonLog.CompactIJson | pkg/ijson/ijson.go:628-653 | the bytes of one root set of the document the log stands for, or how its replay ends |
| IJsonLog.ReplayLinesIsReplay | pkg/ijson/ijson.go:628-653 | replaying line by line is parsing and then replaying |
| IJsonLog.AppendAddsCommand | pkg/filestore/blockstore.go:323-362 | appending to a file whose log ends with a newline, if it does not compact, appends the command to the parsed log and keeps the newline |
| IJsonLog.CompactKeepsDocument | pkg/filestore/blockstore.go:296-308 | compacting a file keeps the document it stands for and leaves its only line without a newline |
| IJsonLog.AppendThatCompacts | pkg/filestore/blockstore.go:323-362 | an append that compacts succeeds only if the old document takes the command, and leaves one line that replays to the result |
| IJsonLog.AppendToCompacted | pkg/filestore/blockstore.go:323-362 | the next append to a compacted file makes it unreadable, and says so exactly if it is to compact the file again |
| IJsonLog.AppendsAfterCompaction | pkg/ijson/ijson.go:650-652 | after a compaction any further command makes the log unreadable; with a newline in between it would stand for the same document |
| ScoreForest.ListedOnce | pkg/score/block.go:39-57 | a block is listed in one place only, by the parent it names |
| ScoreForest.NoCycleNoOrphan | pkg/score/block.go:39-57 | every block belongs through its parents to an existing tab, and none is above itself |
| ScoreForest.BelowViaChild | pkg/score/block.go:144-160 | the subtree of a block is the block and the subtrees of its listed children |
| ScoreForest.PruneNext | pkg/score/block.go:152-159 | deleting the next listed child extends the part that is gone by exactly its subtree |
| ScoreForest.LeafLast | pkg/score/block.go:160-163 | once its children are deleted a block is a leaf, and taking it out completes the deletion of its subtree |
| ScoreForest.LeafKeepsForest | pkg/score/block.go:186-220 | taking out a leaf keeps the forest |
| ScoreForest.NewBlockKeepsForest | pkg/score/block.go:120-138 | adding a block at the end of its parent's list keeps the forest |
| Score.Store.InsertWorkspace | pkg/score/workspace.go:51-63 | a workspace without tabs is added |
| Score.Store.SetActiveTab | pkg/score/workspace.go:337-351 | the active tab is set if workspace and tab exist, and nothing changes otherwise |
| Score.Store.CreateBlockObj | pkg/score/block.go:120-138 | a missing tab is an error that changes nothing; otherwise the forest with the block added |
| Score.Store.CreateSubBlockObj | pkg/score/block.go:39-57 | a missing parent is an error that changes nothing; otherwise the forest with the sub-block added |
| Score.Store.DeleteBlockObj | pkg/score/block.go:186-220 | only a leaf is deleted; the count is what its parent has left |
| Score.Store.DeleteBlock | pkg/score/block.go:144-182 | terminates and removes exactly the block's subtree; all else is unchanged but for the parent's list |
| Score.Store.CreateTabObj | pkg/score/workspace.go:246-270 | the tab is listed by its workspace alone, and has its own layout state |
| Score.Store.DeleteTab | pkg/score/workspace.go:276-334 | exactly the tab, its layout state and the blocks that belong to it are gone, the workspace lists and activates what the code says, and no block is orphaned |
| Score.Store.ChangeTabPinning | pkg/score/workspace.go:353-375 | the tab moves between the lists, and the workspace has the same tabs |
| Score.RepinnedLists | pkg/score/workspace.go:353-375 | pinning changes neither which tabs there are nor that each is listed once |
| Score.TabsListedWhere | pkg/score/workspace.go:246-375 | a new tab is at the end of the list asked for, a pinned one at the end of the pinned ones, an unpinned one at the front of the others, and all others stay in order |
| Score.TabDeletedWhere | pkg/score/workspace.go:276-334 | which lists are left when a tab is deleted, and which tab becomes active |
| Score.RunOps | pkg/score/workspace.go:51-375 | after any run on an empty store every block is listed exactly once, by the parent it names, and leads to an existing tab; the tabs are those that workspaces list |
| WpsTable.StarMatchString | pkg/util/utilfn/utilfn.go:775-796 | the loop decides the recursive match |
| WpsTable.MatchesMeaning | pkg/util/utilfn/utilfn.go:772-796 | a pattern matches part by part, with a double star only as its last part, for any rest |
| WpsTable.CoversIsMatching | pkg/wps/wps.go:256-285 | a request covers a scope exactly if one of its scopes, with stars or without, matches it |
| WpsTable.RemovedIndexed | pkg/wps/wps.go:146-161 | taking a route out of the indexes of an event takes its request out of the table |
| Wps.BrokerSubscription.AddRoute | pkg/wps/wps.go:95-105 | the indexes list the route under exactly the scopes it asks for |
| Wps.Broker.Subscribe | pkg/wps/wps.go:77-106 | the table holds the new request in place of an earlier one, and the indexes agree with it |
| Wps.Broker.Unsubscribe | pkg/wps/wps.go:139-161 | the request for the event is gone, and nothing else |
| Wps.Broker.UnsubscribeAll | pkg/wps/wps.go:163-174 | every request of the route is gone, and nothing else |
| Wps.Broker.GetMatchingRouteIds | pkg/wps/wps.go:256-285 | exactly the routes whose request covers the event, each once |
| Wps.RunThenPublish | pkg/wps/wps.go:77-285 | after any run the routes matched are those whose latest subscription, not undone since, covers the event |
| CtxUpdates.ContextUpdates.GetUpdates | pkg/starobj/ctxupdate.go:42-58 | the merged map |
| CtxUpdates.ContextUpdates.GetUpdate | pkg/starobj/ctxupdate.go:60-72 | lookup from the top of the stack finds what the merged map holds |
| CtxUpdates.ContextUpdates.AddUpdate | pkg/starobj/ctxupdate.go:74-85 | the merged view changes at one reference |
| CtxUpdates.ContextUpdates.BeginTx | pkg/starobj/ctxupdate.go:87-95 | the merged view is unchanged |
| CtxUpdates.ContextUpdates.CommitTx | pkg/starobj/ctxupdate.go:97-113 | the merged view is unchanged; it panics exactly if no transaction is open |
| CtxUpdates.ContextUpdates.RunAll | pkg/starobj/ctxupdate.go:74-125 | any sequence of operations leaves the stack that `Run` gives, which the lemmas below are about, and panics exactly where it has none |
| CtxUpdates.PanicsIff | pkg/starobj/ctxupdate.go:97-125 | a run panics exactly if it ends more transactions than are open |
| CtxUpdates.BalancedRun | pkg/starobj/ctxupdate.go:74-125 | a balanced run changes only the innermost open map, by an effect that does not depend on the stack |
| CtxUpdates.RollbackRestores | pkg/starobj/ctxupdate.go:115-125 | after any balanced run a rollback restores the stack of its matching begin |
| CtxUpdates.CommitIsNoTransaction | pkg/starobj/ctxupdate.go:97-113 | a committed transaction leaves exactly what the same run without it leaves |
| TopK.TopFull | pkg/suggestion/suggestion.go:439-448 | replacing the worst entry by a better one, and by no other, keeps a choice of the best |
| TopK.Offer | pkg/suggestion/suggestion.go:439-448 | the heap stays a choice of the best with its worst entry first |
| TopK.TopEntries | pkg/suggestion/suggestion.go:389-464 | with a search term the sorted result is a true choice of the 50 best matches; without one it is the first 50 entries in directory order |
| TopK.CandidatesAre | pkg/suggestion/suggestion.go:404-432 | the candidates are the entries with a positive score, or all entries in their order |
| TopK.BestMatches | pkg/suggestion/suggestion.go:344-462 | higher scores come first, shorter names among equal ones, and an entry left out gives way to 50 that are not worse |
| TopK.SortedUnique | pkg/suggestion/suggestion.go:454-462 | sorting entries whose scores are all different has one result |
| DirCache.Cache.GetCache | pkg/suggestion/filewalk.go:68-84 | a hit is the last value set for the key within its lifetime; a miss means no entry or an expired one, which is dropped |
| DirCache.Cache.SetCache | pkg/suggestion/filewalk.go:86-115 | the entry is there with a full lifetime, and a full cache loses only the key used longest ago |
| DirCache.Cache.CleanCache | pkg/suggestion/filewalk.go:56-66 | exactly the expired entries are dropped |
| DirCache.Cache.CacheDispose | pkg/suggestion/filewalk.go:117-128 | exactly the entries of the widget are dropped |
| DirCache.RemoveKeepsOrder | pkg/suggestion/filewalk.go:56-66 | the list stays in order of use when a key leaves it |
| StreamingResp.ChunksAreCut | pkg/starapp/streamingresp.go:77-117 | the chunks of a text lose and reorder nothing; all are full but a last one that is shorter and not empty |
| StreamingResp.CutSizes | pkg/starapp/streamingresp.go:13-13 | every chunk but the last has 64K bytes, and the last is not empty and has no more |
| StreamingResp.CutIsUnique | pkg/starapp/streamingresp.go:77-117 | there is one way to cut a text, so the output does not depend on how it was written |
| StreamingResp.AppendBytes | pkg/starapp/streamingresp.go:86-104 | filling a chunk exactly sends it, filling less sends nothing |
| StreamingResp.StreamingResponseWriter.WriteHeader | pkg/starapp/streamingresp.go:40-61 | the header is sent once, with the first value of each name |
| StreamingResp.HeaderMeaning | pkg/starapp/streamingresp.go:40-66 | the status is the first one set, if that is before all writes, or 200, and the first value of each name that has one is sent |
| StreamingResp.StreamingResponseWriter.Write | pkg/starapp/streamingresp.go:77-117 | what is sent and kept afterwards is determined by the bytes written so far, and less than a chunk is kept |
| StreamingResp.StreamingResponseWriter.Close | pkg/starapp/streamingresp.go:119-129 | header, full chunks and the rest have been sent, and nothing is kept |
| StreamingResp.Send | pkg/starapp/streamingresp.go:26-129 | whatever a handler sets, sends and writes, in any order, it sends one header first, as it was at the first status or write, and then the same chunks for any split of the same bytes |

## Left out

- SQLite, transaction wrappers, context deadlines, wall-clock time, logging, telemetry, events to windows: a database call is a parameter that says whether it succeeds or how its transaction ends, and an instant is a parameter.
- WriteMeta, ListFiles and Stat; WriteMeta could set the counts that AppendIJson keeps in the metadata.
- FileCache.CacheEntry.AppendIJson: the ratio of command bytes to the size is compared exactly, without the rounding of float64, and the compactor, with its budget, is a parameter.
- FileRuns.RunIsPlain: a run in which a flush fails for the fourth time in a row loses bytes; what the file has then is stated step by step (FlushToDB, DurableIsPast), not as a plain log.
- FileCache.CacheEntry.ReadAt: `offset + size` is a mathematical integer, so a wrap-around of 64 bits is not modelled.
- FlushCache's choice of dirty keys and its flag against concurrent flushes; one key is flushed at a time.
- PinProtocol.InvNext: states are values and a critical section is one step, so reads of shared fields outside a lock (`getDirtyCacheKeys`) and the memory model are not part of it; what a thread does while working is any change to its entry and rows.
- VDomRoot.RootElem.RenderRoot: pointers between components are ids in CompMap, with the tree they form as a ghost value; a child list has no nil entries, so elements have no children with an empty tag, and no two siblings share a tag and a non-empty key (DuplicateKeyShadows says what happens to those).
- VDomRoot.RootElem.RunWork: the effect functions themselves do not run (a setter that one calls is a setter called just before), and a hook queued twice is queued twice.
- VDomRoot.RootElem.constructor: component functions are pure functions of the element and the values that their hooks return; they return after finitely many calls, and expanding comes to an end, both by ranks that are ordinals. All functions are registered before the first render.
- Hooks other than UseState, UseAtom and UseEffect, hook values of the wrong type, an atom that is used before it has a value (the code panics if its type is not an interface), a slot that is called by different kinds of hook in different renders (the code panics on the value, or an effect replaces the clean-up of an atom), references, events, property conversion, HTML and CSS binding.
- VDomUpdates.RenderAndSend: the state to synchronise is a parameter, and reference operations are not modelled.
- VDomTransfer.RoundTrip: bare text nodes carry no properties, and ids are not of the form that text nodes get.
- IJson.GetAfterSet: documents are values, so sharing of maps and slices between a document and its older versions is not modelled; numbers are integers without arithmetic.
- IJsonTs.DeletedReadsNull: undefined values, missing keys and holes in arrays are all null, and a fractional array index is not a path element.
- IJsonLog.ParseText: the JSON text of a command is an arbitrary codec that is newline-free, decodes what it encodes, and rejects two commands on one line; the two versions read the value of a command from different fields, so their replays are not compared.
- IJsonLog.ApplyCommands: a command that fails is an error without the partly changed document that SetPath returns with it, as every caller discards it.
- Score.Store.DeleteTab: closing tabs, windows and workspaces that become empty is left out, as is the missing tab behind a listed id, which the invariant excludes; new ids are fresh parameters.
- UpdateWorkspaceTabIds, which stores any lists it is given, and deleting workspaces.
- Wps.Broker.GetMatchingRouteIds: scopes are split at their colons, and the order of the result is that of a Go map.
- Persisted events in the broker.
- CtxUpdates.ContextUpdates.GetUpdates: the map that is returned when no transaction is open is the live one in the code and a value here; a context without updates, in which every operation does nothing, is left out.
- TopK.TopEntries: the scores of fuzzy matching are arbitrary, and heap and sort stand for what container/heap and sort.Slice promise, not for their algorithms.
- DirCache.Cache.SetCache: list elements are their keys, so pointers from entries into the list are not modelled; the lock is not modelled.
- StreamingResp.StreamingResponseWriter.Write: the channel is the sequence of what was sent, so a full channel that blocks is not modelled.
