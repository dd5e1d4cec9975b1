# sysrepod, modelled and verified in Dafny

sysrepod keeps configuration trees. Each client has a thread of its own on the server. A data store holds one XML
tree behind a lock, and up to two saved trees: the one from the start of the open transaction, and the one to go back
to when the newest commit is rolled back. Clients select nodes with XPath expressions and delete, update, replace or
add subtrees. Every edit works on a copy, which is judged against the store's constraints and then kept or thrown away.

The project models that code twice and ties the two together:

- **The objects.** `Document` is an arena of nodes with parents, children and a freed flag; `DataStore`,
  `DataStoreSet`, `ClientSet` and `OpDataStoreSet` hold what the C++ classes hold, in arrays compacted by memmove;
  the framing and printing code works on buffers that are reallocated. Each method is proved against a function on
  values, and no method touches a node or a tree already freed.
- **The step system.** `Server.Exec` composes the same functions into one step of a server with any number of clients
  and stores. `Runs` proves what holds over whole runs, `Told` what the clients read in their replies, `Interleaving`
  splits edits, queries and copies into the steps the code takes, and `LockOrder` adds the mutexes and asks who waits
  for whom.

`SysRepo` joins the two: `Abstract(Snapshot(stores, clients, ops))` is the state the three sets stand for, and each
`Serve` method calls the objects' methods and takes that state exactly one `Exec` step further, with the same answer.

| file | contents |
|---|---|
| Base.dfy, Trees.dfy | trees and the four simultaneous rewrites that the edit loops are compared with |
| Dom.dfy | documents in place: unlink, free, and the four loops over a node set |
| Listings.dfy, EditLaws.dfy | trees as listings of rows, and what the edits do to them, row by row |
| StoreSpec.dfy, DataStore.dfy | one store: locking, transactions, edits, and who owns which tree |
| OpDataStoreSet.dfy, DataStoreSet.dfy, ClientSet.dfy | the two registries and the client table |
| ClientSRD.dfy, ReplyTexts.dfy | the commands on the objects, and the texts written for the client |
| Server.dfy, SysRepo.dfy | the step system, and the objects as an implementation of it |
| Runs.dfy, Scans.dfy | whole runs; the in-use scan |
| Told.dfy, Truths.dfy | what clients are told: left-over replies; each command's effect and its reply |
| Interleaving.dfy, LockOrder.dfy | commands in small steps; waiting and deadlock |
| Framing.dfy, Reply.dfy | length-prefixed messages and the reply buffer |

## How to read it

A run is a list of states and events. `lockDS` blocks while another client holds the lock, so waiting is a step that
is not enabled. The lock is not counted: a query or edit lets go of an explicit lock unless a transaction is open. Node
sets are duplicate-free and in document order (XPath 1.0, section 5), and may be nested. Validation is an arbitrary
fixed predicate per store. The three edit modes are the test options of section 7.2 of RFC 6241.

`Listing(t, 0)` has one row for each node of the tree t, in document order, with its depth and tag; a tree is known by
its listing. A selection is a set of row numbers, and `EditLaws` says what an edit does to the rows, with no mention of
how the edit is done.

Some natural claims are false of the code. These are stated with their exact condition:

- The in-use scan of a delete looks only at slots below the number of clients, and can miss a user: `Scans.ScanMissesInRun`
  is a run from start-up in which a client deletes the store it uses. `Scans.InvIffScansExact`: the invariant holds
  throughout a run if and only if no scan misses a user. `Scans.PrefixIff`: the slots in use stay together if and only
  if only the client in the highest slot in use ever leaves; then no scan misses anybody (`Scans.OrderlyRunsAreRuns`).
  `Runs` is about runs whose scans miss nobody.
- A refused `rollback_transaction` writes no reply, so the client is sent the text an earlier command left in its buffer:
  `Told.ToldWrongly` is a run in which it reads success, and `Told.RollbackTold` says exactly when it does.
- `set_dataStore` looks a store up under the registry's mutex and remembers it afterwards; a delete in between misses it
  (`LockOrder.DeleteRaces`), which leaves a dangling store (`LockOrder.DeleteLeavesDangling`) or a deadlock with no copy
  involved (`LockOrder.DeleteCanDeadlock`). `LockOrder.VictimsIff` says exactly when no such delete happens.
- `copy_dataStore` can deadlock with a commit (`LockOrder.CopyCanDeadlock`); `LockOrder.RingStepIff` says which steps close
  a ring. srd.h:369 asks that a copy's target not be locked; a locked source is enough.
- A payload longer than 9,999,999 bytes is not framed (`Framing.FramedIff`). The server's receiver is safe up to 1015
  bytes: its growth test leaves out the header, so at 1016 bytes the final NUL falls behind the buffer and above that
  the client is dropped (`Framing.Session`).
- A list of text nodes whose first text is empty begins with a separator (`Reply.TextsJoined`).
- Deleting with an expression that yields a number, string or boolean changes nothing and reports -1 like a change, so
  it is judged and kept (`DataStores.DataStore.TryDelete`).
- Deleting an operational store that does not exist reports success (`OpDataStores.OpDataStoreSet.DeleteOpDataStore`).
- Connecting to a full client table leaves the table's mutex held (`ClientSets.ClientSet.NewClient`).
- Deleting with an expression that cannot be evaluated restores the tree and reports a number that was never set
  (`DataStores.DataStore.DeleteNodes`).

## Model

| member | source | states |
|---|---|---|
| Dom.Document.DeleteSelectedNodes | DataStore.cpp:836-861 | Walking the node set backwards and freeing subtrees in place gives the tree with every selected subtree pruned at once, nested selections included; the count is the whole set; no freed node is touched. |
| Dom.Document.UpdateSelectedNodes | DataStore.cpp:863-885 | The backward update loop gives each outermost selected element the new text as only child, or no child for an empty text, and text nodes the new text; nested selected nodes are counted all the same. Every outermost selected node reads as the new text, and has a child if and only if that is not empty. |
| Dom.Document.ReplaceSelectedNodes | DataStore.cpp:1034-1051 | The forward replace loop, which detaches old nodes without freeing them, makes each outermost selected element a copy of the fragment; nested ones change only detached trees; the count is every selected element. |
| Dom.Document.AddToSelectedNodes | DataStore.cpp:1146-1163 | The add loop, in any order of the node set, appends a copy of the fragment to the children of every selected element at once, nested ones included. |
| Dom.ElementCountIsSize | DataStore.cpp:1034-1051 | On a set without repeats the number reported is the number of selected elements. |
| Trees.DescendantsFollow | DataStore.cpp:847-851 | In document order a node precedes all its descendants: why walking backwards never meets a freed node. |
| Trees.Survives | DataStore.cpp:847-861 | A node set member is still in the tree after the later ones have been deleted. |
| Trees.ErasePrune | DataStore.cpp:852-860 | Pruning node by node, identities kept, erases to the simultaneous deletion. |
| Trees.EraseRetext | DataStore.cpp:879-884 | Retexting node by node erases to the simultaneous update. |
| Trees.EraseSubstitute | DataStore.cpp:1034-1051 | Replacing node by node erases to the simultaneous replacement of the outermost selected elements. |
| Trees.EraseExtend | DataStore.cpp:1146-1163 | Extending node by node erases to the simultaneous addition. |
| DataStores.DataStore.StartTransaction | DataStore.cpp:396-418 | Takes the lock and saves a copy of the tree, unless a transaction is open; every tree made is owned by one field or freed once. |
| DataStores.DataStore.CommitTransaction | DataStore.cpp:420-457 | The start snapshot becomes the rollback snapshot, the older one is freed, the lock let go. |
| DataStores.DataStore.AbortTransaction | DataStore.cpp:459-480 | The tree is again the one from the start; the snapshot and the number of the last commit stay. |
| DataStores.DataStore.RollbackTransaction | DataStore.cpp:482-512 | Succeeds for the store's last number only and puts the rollback snapshot back; otherwise the lock is let go, unless a transaction is open. |
| DataStores.DataStore.DeleteNodes | DataStore.cpp:764-834 | Copy, delete, judge, then keep or restore: tree, reported number and lock in all modes and outcomes; old and new trees are each owned once or freed once. An expression that cannot be evaluated leaves the tree and reports any number. The listing after a delete is the old one without the selected rows and their descendants. |
| DataStores.DataStore.UpdateNodes | DataStore.cpp:887-959 | The same for update; the listing has the new text at every outermost selected row, and nothing else below it. |
| DataStores.DataStore.ReplaceNodes | DataStore.cpp:961-1076 | The same for replace, refused before locking when the fragment does not parse or has several roots; the listing has the fragment's rows where an outermost selected element and its descendants stood. |
| DataStores.DataStore.AddNodes | DataStore.cpp:1078-1188 | The same for add; the listing keeps every row, and has the fragment's rows behind the last descendant of each selected element. |
| DataStores.DataStore.UnlockDS | DataStore.cpp:514-526 | An open transaction keeps the lock and reports success to anybody; else only the holder lets go. The number is 0 if and only if the client held the lock or a transaction is open. |
| DataStores.DataStore.Destroy | DataStore.cpp:73-83 | The destructor frees the tree; exactly the rollback snapshot, if there is one, is never freed. |
| DataStores.SelectionInDocOrder | DataStore.cpp:783-799 | The nodes of the copy that an edit works on are those at the selected positions, without repeats and in document order. |
| Listings.ListingInjective | DataStore.cpp:836-861 | A tree is known by its listing, so a law about rows leaves nothing of the tree open. |
| Trees.RetextShows | DataStore.cpp:879-884 | An outermost selected node reads as the new text, and an element has no child for an empty one. |
| EditLaws.DeletedListing | DataStore.cpp:836-861 | The pruned tree lists the old rows without the selected ones and their descendants. |
| EditLaws.UpdatedListing | DataStore.cpp:863-885 | The retexted tree lists the new text at each outermost selected row and no other descendant of it. |
| EditLaws.ReplacedListing | DataStore.cpp:1034-1051 | The tree after a replace lists the fragment's rows, at their depth, exactly where each outermost selected element and its descendants stood. |
| EditLaws.AddedListing | DataStore.cpp:1146-1163 | The tree after an add lists every old row and the fragment's rows behind the last descendant of each selected element, inner elements first. |
| EditLaws.DeleteLaw | DataStore.cpp:764-834 | A delete in every mode and for every result of the expression, on the rows selected: tree kept or changed, number, lock and saved trees. |
| EditLaws.UpdateLaw | DataStore.cpp:887-959 | The same for update. |
| EditLaws.ReplaceLaw | DataStore.cpp:961-1076 | The same for replace; the number is that of the selected elements. |
| EditLaws.AddLaw | DataStore.cpp:1078-1188 | The same for add. |
| EditLaws.ElementsCounted | DataStore.cpp:1034-1051 | The number reported for replace and add is the number of selected rows that are elements. |
| StoreSpec.DryRunPredicts | DataStore.cpp:806-826 | A validating run without change keeps the tree and returns k >= 0 exactly when the modifying run returns k; -2 means the modifying run returns -1 and keeps the old tree. |
| Server.StepKeeps | ClientSRD.cpp:33-740 | Every command of every client keeps: locks only on the holder's current store, transactions only under the lock, distinct names and commit numbers, a number exactly with a rollback snapshot, no user of a deleted store. |
| Server.NoLockLeft | ClientSet.cpp:387-393 | Looking at the current store only, the disconnect cleanup leaves the client no lock at all. |
| Server.DisconnectKeeps | ClientSet.cpp:387-403 | The whole cleanup keeps the invariant, operational stores included. |
| Server.CopyKeeps | DataStoreSet.cpp:248-306 | A copy keeps the invariant, onto itself, without a target or inside a transaction. |
| ClientSRDs.SetDataStore | ClientSRD.cpp:57-80 | Refused, with nothing changed, while the client holds its store's lock; else the client's store is the one of that name, or none. |
| ClientSRDs.StoreCommand | ClientSRD.cpp:384-512 | The store, the commit counter and the returned value after a lock, unlock, transaction, edit or query command are those of the step system. |
| ClientSRDs.RegistryCommand | ClientSRD.cpp:384-512 | Run on a store of the registry, it leaves all other stores as they are and no tree shared between stores. |
| ClientSRDs.WriteReply | ClientSRD.cpp:441-465 | Every command's reply text, written into the client's one buffer; a refused rollback leaves the buffer as it was. |
| ClientSRDs.ProcessCommand | ClientSRD.cpp:384-465 | A store command with or without a current store, up to the text in the buffer. |
| SysRepo.Start | DataStoreSet.cpp:40-62 | The empty sets are an initial state of the step system. |
| SysRepo.ServeStoreCommand | ClientSRD.cpp:384-512 | Serving a store command takes the state of the objects one Exec step further, with its answer. |
| SysRepo.ServeSet | ClientSRD.cpp:57-80 | Serving set_dataStore is ExecSet. |
| SysRepo.ServeCopy | DataStoreSet.cpp:248-306 | Serving copy_dataStore is ExecCopy, for one store as source and target and for missing names too. |
| SysRepo.ServeCreate | DataStoreSet.cpp:63-91 | Serving create_dataStore is ExecCreate: refused for a full registry, a name in use or not good, or an unread text. |
| SysRepo.ServeDelete | DataStoreSet.cpp:191-232 | Serving delete_dataStore is ExecDelete, also when clients still have stores that are gone. |
| SysRepo.ServeConnect | ClientSet.cpp:78-115 | A new client is ExecConnect. |
| SysRepo.ServeOp | OpDataStoreSet.cpp:124-340 | The commands on operational stores are ExecOp, with the number each reports. |
| SysRepo.ServeEnd | ClientSet.cpp:387-403 | The end of a client's thread is ExecDisconnect. |
| ServerParts.FindPosition | DataStoreSet.cpp:125-142 | The array search by name is the step system's lookup in a map by identity. |
| ClientSRDs.ApplyXPath | DataStore.cpp:633-676 | A query reads the tree under the lock and then lets an explicit lock go too, unless a transaction is open. |
| ClientSRDs.CommitTransaction | DataStore.cpp:420-451 | A number is drawn from the server's counter exactly when the commit goes ahead. |
| Runs.RunInv | ClientSRD.cpp:33-740 | The invariant holds in every state of a run whose scans miss no user. |
| Scans.InvIffScansExact | ClientSet.cpp:434-448 | In every run, whatever the scans see, the invariant holds throughout if and only if no delete's scan misses a user. |
| Scans.DisconnectKeepsPrefixIff | ClientSet.cpp:117-129 | A disconnect keeps the slots in use together if and only if every slot above the client's is free. |
| Scans.PrefixIff | ClientSet.cpp:78-129 | Over every run the slots in use stay together if and only if only the client in the highest slot in use leaves. |
| Scans.OrderlyRunsAreRuns | ClientSet.cpp:441-445 | In such runs no scan misses anybody and the invariant holds throughout. |
| Scans.ScanMissesInRun | ClientSet.cpp:441-445 | A run from start-up: two clients connect, the first leaves, the second deletes the store it uses and is left with a store that is gone. |
| ReplyTexts.ReadsNumber | srd.c:1212-1234 | The client library reads back the number that was written. |
| Told.BufferIsLast | ClientSRD.cpp:33-740 | A client's buffer holds the last text written into it, whatever other clients do. |
| Told.RollbackTold | ClientSRD.cpp:443-465 | Over every run the client of a rollback reads success if and only if the rollback succeeded or the text an earlier command left in its buffer is a success. |
| Told.LockMakesItTrue | ClientSRD.cpp:443-465 | Asked for at once after locking the store, it reads success if and only if the rollback succeeded. |
| Told.ToldWrongly | ClientSRD.cpp:443-465 | A run in which the client reads success for a rollback that is refused. |
| Truths.LockTold | ClientSRD.cpp:380-388 | Over every run a lock is told as success and the client holds the store. |
| Truths.UnlockTold | DataStore.cpp:514-526 | The client of an unlock reads success if and only if it held the lock or a transaction is open; the store is free then unless one is. |
| Truths.UnlockAfterLock | DataStore.cpp:514-526 | An unlock right after the same client's lock answers 0, reads as success and leaves the store free. |
| Truths.StrangersUnlock | DataStore.cpp:514-526 | A client that holds nothing reads an error and changes nothing, on a store without a transaction. |
| Truths.StartTold | ClientSRD.cpp:398-408 | The client of a start reads 1 exactly when a transaction has started. |
| Truths.CommitTold | ClientSRD.cpp:409-420 | The client of a commit reads the number of its commit, the newest of the server and the store's last, or 0. |
| Truths.CommitNumberTold | ClientSRD.cpp:409-420 | That number is the one of the commit in the run's history. |
| Truths.AbortTold | ClientSRD.cpp:421-431 | The client of an abort reads 1 exactly when its transaction was thrown away. |
| Truths.EditTold | ClientSRD.cpp:248-379 | The client of an edit reads the number of nodes worked on, for the listing the edit leaves, or an error. |
| Truths.QueryReads | DataStore.cpp:633-676 | A query answers from the tree there is and leaves it. |
| Truths.SetTold | ClientSRD.cpp:57-80 | After set_dataStore the client's store is the one of that name or none, as it reads; it is refused exactly while it holds its store's lock. |
| Truths.CopyTold | DataStoreSet.cpp:248-306 | A copy puts the tree of the store of one name into the store of the other, changes no other tree, and reads as success if and only if both names exist. |
| Truths.CreateTold | DataStoreSet.cpp:63-91 | A store is made, as its client reads, if and only if there is room, the name is new and good and the text parses. |
| Truths.DeleteTold | DataStoreSet.cpp:191-232 | A delete reads 1 for a store that is gone, 0 for a name that does not exist, an error for a store that some client has; no other store changes. |
| Truths.OpTold | OpDataStoreSet.cpp:124-340 | A command on an operational store is the command on the map of names to owners, and its reply is read from that map. |
| Runs.RollbackRestores | DataStore.cpp:482-512 | Over every run, a successful rollback of id puts back the tree from when id's transaction started, whatever was edited, aborted or copied since. |
| Runs.RollbackSucceedsIff | DataStore.cpp:494-511 | It returns 1 if and only if no transaction is open and id is the newest commit on the store, not yet rolled back. |
| Runs.RollbackOnce | DataStore.cpp:501-506 | No number is rolled back twice, on any store. |
| Runs.CommitIsOne | DataStoreSet.cpp:234-246 | A number belongs to one commit on one store, so another store's number never rolls back. |
| Runs.CommitIdsIncrease | DataStoreSet.cpp:234-246 | Commit numbers strictly increase over the run, across all stores. |
| Runs.Isolation | DataStore.cpp:384-419 | From a successful start to commit or abort no other client's step changes the store's tree, snapshots, number or lock. |
| Runs.AbortRestores | DataStore.cpp:459-480 | Abort, also by disconnect, restores the store as it was at the start; the earlier commit can still be rolled back by any client. |
| Runs.DryRunForetells | DataStore.cpp:806-826 | In a transaction a dry run answers k >= 0 if and only if the same edit made later with validation will, and -2 only if it will be turned down and keep the tree, whatever other clients do in between. |
| Runs.AtMostOneLock | ClientSRD.cpp:57-80 | Between commands a client holds at most one store lock, on its current store. |
| Runs.DisconnectLeavesNothing | ClientSet.cpp:387-403 | After a disconnect nothing is locked, open or owned by that client. |
| Runs.ReuseInheritsNothing | ClientSet.cpp:78-115 | A new client gets the lowest free slot and no lock, transaction, store or operational store with it. |
| Runs.AlwaysAccepted | DataStore.cpp:113-147 | A store accepted when loaded, never a copy's target and never edited without validation, has an accepted tree and accepted snapshots in every state, through every mix of transactions and rollbacks. |
| Runs.IdsNeverReused | DataStoreSet.cpp:192-232 | A store object that was in the registry and is gone is in it in no later state, even if its name is. |
| Interleaving.WholeCommutes | ClientSRD.cpp:33-740 | A command in one step, run while others are in the middle of theirs, is the same command on the atomic state. |
| Interleaving.SimSettle | DataStore.cpp:806-833 | The step that keeps the copy or puts the old tree back is the atomic edit, with the same number reported. |
| Interleaving.SimReadTree | DataStore.cpp:633-676 | The query's read is the atomic query: it reads the settled tree. |
| Interleaving.SimInstall | DataStoreSet.cpp:289-302 | The step that puts the duplicate in place is the atomic copy of the settled source. |
| Interleaving.SmallStep | DataStore.cpp:764-834 | Each small step is invisible to the atomic state, or is one atomic command with the same reply. |
| Interleaving.Linearizes | DataStore.cpp:634-676 | Every interleaving of small steps is explained by an atomic run: same commands in the order of effect, same replies, same trees; so no query or copy sees a tentative tree. |
| Interleaving.EffectOnce | DataStore.cpp:764-834 | In every interleaving, between the first and the last step of a command exactly one step of its client takes effect, and it is that command. |
| Interleaving.RealTime | DataStore.cpp:764-834 | A command that ended before another began comes before it in the atomic order. |
| LockOrder.RunInv | DataStoreSet.cpp:192-306 | In every interleaving of lock steps, whatever the scans say, a mutex has the holder its threads say, and stores are held only by their users or a running copy. |
| LockOrder.LevelRises | DataStore.cpp:434 | Waiting leads from store locks to the registry, to a copy's or delete's locks, to the client table, unless the copy or delete is stuck. |
| LockOrder.WaitEnds | ClientSet.cpp:434-448 | Unless a copy or a delete is stuck, every chain of waiting ends at a thread that can go on. |
| LockOrder.RingIffStuck | DataStoreSet.cpp:192-306 | A ring of waiting threads is always a copy or a delete that holds the registry, and the holder of the store it waits for. |
| LockOrder.RingStepIff | DataStoreSet.cpp:264-285 | A step makes the first ring if and only if, before it, the client that asks for the registry holds the store its holder waits for, or the store a copy or delete is about to ask for is held by a client waiting for the registry. |
| LockOrder.DeadlockIff | DataStoreSet.cpp:248-306 | In every run there is never a ring if and only if no step closes one in that sense. |
| LockOrder.ScanKeepsVictimsIff | DataStoreSet.cpp:205-213 | A delete that finds its victim unused is safe if and only if no client stands between looking that store up and remembering it. |
| LockOrder.VictimsIff | ClientSRD.cpp:71 | In every run with exact scans, no store used or about to be used is up for deletion if and only if no delete scans at such a moment. |
| LockOrder.NoDanglingStore | DataStoreSet.cpp:192-232 | In such runs no client ever uses a deleted store. |
| LockOrder.NoCopyNoDeadlock | DataStore.cpp:384-457 | In such runs without copies there is never a ring. |
| LockOrder.CopyCanDeadlock | DataStoreSet.cpp:264-285 | A run in which a copy and a commit wait for each other. |
| LockOrder.DeleteRaces | ClientSRD.cpp:71 | A run in which a delete is about to remove the store that a client has just looked up. |
| LockOrder.DeleteLeavesDangling | ClientSRD.cpp:71 | The store is removed and the client remembers it all the same. |
| LockOrder.DeleteCanDeadlock | DataStoreSet.cpp:209-232 | A run without copies in which a delete and a commit wait for each other. |
| DataStoreSets.DataStoreSet.AddDataStoreFromString | DataStoreSet.cpp:63-91 | Adds a fresh store under a new, good name if there is room and the text parses; else nothing changes. Here and in delete and copy no tree comes to be shared by two stores. |
| DataStoreSets.DataStoreSet.GetDataStore | DataStoreSet.cpp:125-142 | The array search is the map's lookup. |
| DataStoreSets.DataStoreSet.DeleteDataStore | DataStoreSet.cpp:191-232 | Removes exactly the named store unless the scan finds a user; the others keep their order, trees and locks. |
| DataStoreSets.DataStoreSet.CopyDataStore | DataStoreSet.cpp:248-306 | The target has the source's tree, both locks are let go unless a transaction keeps them, no other store changes; the same with one store as source and target, and with names that do not exist. |
| DataStoreSets.NameMapRemove | DataStoreSet.cpp:216-222 | Closing the gap by memmove removes one name from the map. |
| DataStoreSets.DataStoreSet.GetNextTransactionId | DataStoreSet.cpp:234-246 | Each number is one more than the last. |
| OpDataStores.OpDataStoreSet.AddOpDataStore | OpDataStoreSet.cpp:124-152 | Adds a free store, reports a duplicate as 2 and a full array or overlong name as 0. |
| OpDataStores.OpDataStoreSet.DeleteOpDataStore | OpDataStoreSet.cpp:238-276 | Deletes a free or own store; another's stays; an absent one is reported like a deletion. |
| OpDataStores.OpDataStoreSet.SetOwner | OpDataStoreSet.cpp:319-340 | Succeeds exactly on a free store. |
| OpDataStores.OpDataStoreSet.RemoveOwner | OpDataStoreSet.cpp:278-298 | Lets go exactly the client's own store. |
| OpDataStores.OpDataStoreSet.RemoveOwnerEverywhere | OpDataStoreSet.cpp:300-317 | Lets go all stores of the client and no others, and counts them. |
| OpDataStores.OpDataStoreSet.FindOwner | OpDataStoreSet.cpp:106-122 | The owner of the named store, or none. |
| OpDataStores.OpDataStoreSet.ListMyUsage | OpDataStoreSet.cpp:201-236 | Exactly the client's stores, in array order. |
| OpSpec.RunRefinesMap | OpDataStoreSet.cpp:124-340 | Over any run by any clients, the array is a bounded map from names to owners. |
| OpSpec.AnswersRefineMap | OpDataStoreSet.cpp:124-340 | Over any run by any clients, the number told for each command is the one the map of names to owners gives. |
| OpSpec.OwnedListed | OpDataStoreSet.cpp:201-236 | A client's list names exactly the stores it owns, each once. |
| OpSpec.OwnedInOrder | OpDataStoreSet.cpp:201-236 | It names them in the order of the array. |
| OpSpec.OwnerChanges | OpDataStoreSet.cpp:278-340 | An owner changes only from none to the commanding client or from that client to none. |
| OpSpec.OwnerKeeps | OpDataStoreSet.cpp:238-340 | No commands of other clients take a store from its owner or delete it. |
| ClientSets.ClientSet.NewClient | ClientSet.cpp:78-115 | The lowest free slot; a full table reports -1 with the mutex still held. |
| ClientSets.ClientSet.DeleteClient | ClientSet.cpp:117-129 | Frees one slot, and the count still is the number of occupied slots. |
| ClientSets.ClientSet.IsDataStoreInUse | ClientSet.cpp:434-448 | The scan of the slots below the count; with no client the mutex stays held. |
| ClientSets.ClientSet.EndThread | ClientSet.cpp:387-403 | Aborts and unlocks on the current store, gives up all operational stores, frees the slot. |
| Slots.PrefixIsExact | ClientSet.cpp:441-445 | It is exact while the occupied slots form a prefix. |
| Framing.HeaderRoundTrip | common.cpp:259-261 | Scanning a written length reads the number back, whatever bytes follow. |
| Framing.HeaderWidth | common.cpp:259-266 | The header has eight bytes exactly up to 9,999,999. |
| Framing.FramedOnce | common.cpp:285-333 | No framed message is the beginning of another. |
| Framing.FramedIff | srd.c:38-48 | What the client library sends is the framed message exactly up to 9,999,999 bytes. |
| Framing.SendMessage | common.cpp:250-283 | However sends are cut, the bytes that go out are the header and the payload, in order, or a beginning of them when the connection breaks. |
| Framing.SendServer | srd.c:27-57 | The same for the client library. |
| Framing.ReadSock | common.cpp:285-333 | However receives are cut, the payload and a final NUL are in the buffer, grown if need be, with every write inside it; a truncated or unreadable message gives 0. |
| Framing.RecvServer | srd.c:59-100 | The same for the client library, which reads ahead; a buffer below eight bytes gives 0. |
| Framing.Answer | common.cpp:250-283 | Sent by the server and received by the client library, the payload is the same. |
| Framing.CallBack | common.cpp:285-333 | Sent and received over a back connection, the payload is the same. |
| Framing.Receiver.ProcessMessage | ClientSet.cpp:261-328 | One call reads at most once, keeps its place, and hands on exactly the payload or drops the client for a closed connection or an unfitting message only. |
| Framing.Deliver | ClientSet.cpp:261-328 | In pieces of any size a payload is handed on exactly up to 1016 bytes, without writing behind the buffer exactly up to 1015. |
| Framing.Session | ClientSet.cpp:331-386 | Each message of a session is delivered once and in order, with all writes inside the buffer, if and only if no payload exceeds 1015 bytes. |
| Reply.PrintElementSet | DataStore.cpp:528-588 | The buffer holds the opening tag and the rendering of all items, and keeps room for a closing tag and NUL. |
| Reply.PrintAtomic | DataStore.cpp:590-631 | The same for a number, string or boolean. |
| Reply.ListWoven | DataStore.cpp:528-588 | A list reads as the text of every item, in order, with a separator exactly before each non-empty text node that is not first. |
| Reply.ElementsListed | DataStore.cpp:544-559 | A list of elements reads as their text forms, nothing between them. |
| Reply.TextsJoined | DataStore.cpp:563-583 | A list of text nodes reads as its non-empty texts with separators between them, and one in front exactly when the first text is empty. |
| Reply.ApplyXPath | ClientSRD.cpp:146-177 | From 100 bytes on, the whole reply with its closing tag fits: each form of it is given outright, lists as in ListWoven. |

## Left out

- libxml2 and XPath: parsing, expression evaluation, entities, adjacent text merging and namespaces. A selection is a set of positions, a fragment an already parsed list of elements; attribute, namespace and document nodes are not selected.
- Constraint checking by XSLT, YANG and external tools: a fixed predicate on trees.
- Sockets, select, threads, signals, back connections as such, logging, directories, start-up and `main`.
- Failures of allocation and of mutex initialisation, and the thread's early exit on them.
- The process-exit destructors of both sets, which visit stale array entries.
- `get_lastTransactionId`, which reads without the lock; the list commands; `terminate`; `apply_xslt`; XPath on operational stores.
- Wrap-around of the C `int` counters and sizes.
- The small wrapper element that `addNodes` copies and never frees, and the log texts.
- The parsing of a command's XML, and the wording of error replies: an error is an error.
- DataStores.DataStore.Destroy: required to have no open transaction, because with one the destructor frees the transaction snapshot twice (DataStore.cpp:76-77).
- DataStores.DataStore.CommitTransaction: takes the number as a parameter; ClientSRDs.CommitTransaction draws it.
- DataStores.DataStore.LockDS: waiting is a precondition, because a blocked call is a step that has not happened.
- DataStoreSets.DataStoreSet.DeleteDataStore: required to have the store's lock free and no transaction open on it, because waiting is a step that has not happened and because of the destructor.
- DataStoreSets.DataStoreSet.AddDataStoreFromString: the directories that the constructor leaves unset decide what the store accepts, so that is an arbitrary parameter.
- Dom.Document.UpdateSelectedNodes: a new text is one text node; entities in it are not split off.
- Server.Exec: set_dataStore looks up and remembers a store in one step, a connect on a full table is not a step, a rollback requires a store to be set because the code does not check, and a delete's expression can be evaluated because the reply is otherwise a number never set.
- Server.StepKeeps: assumes the in-use scan of a delete misses no user; Scans.InvIffScansExact is about all runs.
- Interleaving.SmallStep: locking and unlocking a store are one step each, although the code clears the holder after releasing the mutex.
- LockOrder.RunInv: the client table is never full, and the mutexes of the operational stores, under which nothing else is taken, are not shown.
- Framing.ReadSock: at most one message is in flight, and a header that is not a length starts with neither a digit, a sign nor a space.
- Reply.ApplyXPath: the evaluation error's text is shorter than 100 bytes, as the code's own array has it.
- ClientSRDs.StoreCommand: the part of processCommand that parses parameters and picks the command by name is a value here; set, copy, create, delete and disconnect are methods of their own.
- SysRepo.ServeConnect: the table is not full; ClientSets.ClientSet.NewClient has the full table.
- SysRepo.ServeDelete: as DeleteDataStore.
