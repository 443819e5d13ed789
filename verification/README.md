# The cache engine, modelled and verified

The repository is a C++ cache of shared pointers. This project models the engine behind it and proves what the engine
is for: a caller gets one and the same pointer for a key as long as that pointer is in use, the create function runs
once however many threads ask at the same time, and of the values that nobody else refers to the cache keeps no more
alive than it was told to. Where such a promise does not hold as it is written, the project gives an input and the
exact condition.

The engine has four layers, and so has the model.

* **The expire queue.** Two circular doubly linked lists, hot and cold, kept at equal length. `ExpireQueue` rewrites
  the tagged links on a mutable heap, as the code does; `QueueModel` is the value it represents, hot list then cold
  list, and says what each operation does to that one sequence.
* **The bucket table.** Singly linked chains walked by a pointer to a pointer, cleaned up during every walk and rehashed
  in place. `HashTable` does the pointer surgery; `HashChains` and `Growth` hold the rehash and the growth arithmetic
  as functions.
* **The element.** Empty, weak, strong or pending on a future, with flags that defer `weaken`, `strengthen` and
  `expire` until the future is resolved (`ElementState`); the reference-counting lock that keeps an element from being
  deleted (`DeleteLock`).
* **The cache.** `CacheState` is the state of one cache together with the world around it: futures, waiting threads,
  outside holders of values, and the clock. `Maintenance`, `Lookup`, `Resize`, `Operations` and `Destruction` say what
  every loop and every critical section does to it. `Protocol` lets any number of threads take critical sections in any
  order. `Pruning`, `Trimming` and `Effects` say what one call does to the chains it walks, to the queue and to the
  deadlines. `Evolution`, `Sections`, `Steps`, `Service`, `Refinement`, `Safety`, `SizeBounds`, `Scans` and `LoadBound`
  hold the invariants and the theorems over all runs, `Limits` and `SmallStates` the inputs at which a promise fails,
  and `Sharding` lifts the theorems to the array of caches.

`HeapCache` puts the layers together in one object in memory. An element there carries the successor pointer of its
chain, the two tagged link pointers of the queue, the slot, the deadlines and the lock count. The methods walk and relink
these nodes in place, from `get` down to the pointer assignments; each is proved to take the state that the memory
represents exactly where the functions of the other modules say. `Mapping` relates lists of nodes to lists of elements.

How the world is modelled: before each test of the clock or of a pointee, the world may move. Holders drop values,
others copy values that are still alive, the clock advances; a schedule that is an arbitrary parameter decides. A
value is alive while an outside holder, a local pointer of the running section, a strong element or a completed future
refers to it. So a value can die between two lines of one critical section, which is why the code tests for null
again after it has tested for expiry. And a creation takes time: the deadlines of a new element are set before the create
function runs and its pointer is taken afterwards.

The relation `CacheState.Tends` is the heart of the proofs. It says what maintenance may do to everybody else's
elements: only elements that are dead and not locked disappear, the others keep key, deadline, lock count, content and
mark, and no dead value comes back to life. Every cleanup, eviction, hit, full maintenance and rehash is proved to be
such a step, and uniqueness, pointer stability and asynchronous safety follow from it.

Where the documentation and the code differ, the code is followed.

* `README.md:50` of the repository promises the same pointer "while any reference remains valid". The code stops
  returning it once `max_age` has passed or `expire` was called. `Limits.HeldButAged` is a run in which a held pointer
  is not returned. `Service.PointerStable`, `Service.AsyncStable` and `Service.GetThenStable` prove the promise under
  these two provisos. `Service.ServedUntilAged` shows that the first one decides, from both sides, and
  `Refinement.StableIffKept` that the second one does, as an equivalence over runs.
* A creation that outlasts `max_age` (`include/monsoon/cache/cache_impl.h:780-805` fixes the deadline first,
  `include/monsoon/cache/element.h:331-338` then tests it) makes `get` return null in a build without assertions, although
  `include/monsoon/cache/cache_impl.h:619` asserts the opposite. `Limits.SlowCreation` is an input, for both kinds of
  cache; `Service.HandedOutIffQuick` says exactly when it happens. The element of such a creation may stay pending without
  a lock, and that is the only way for this to happen (`Safety.AsyncSafety`).
* `max_size` bounds the elements that are linked, not the values that elements refer to: an asynchronous cache can exceed
  it by any number (`Limits.Overfull`), a synchronous one cannot (`Limits.ValuesBoundedIffSync`). `SizeBounds.SizeBound`
  counts the values in both readings.
* The comment at `include/monsoon/cache/store_delete_lock.h:16-17` allows a lock to be released without the mutex; the
  cache always releases its locks under the mutex, and so does the model.

`dafny verify dfyconfig.toml` checks the whole project.

## Model

| member | source | states |
|---|---|---|
| QueueModel.Queue.Rebalanced | include/monsoon/cache/expire_queue.h:415-435 | shifting elements between the two lists terminates, leaves the order of the whole queue unchanged and evens out the lengths; a balanced queue is left as it is |
| QueueModel.Queue.Create | include/monsoon/cache/expire_queue.h:219-226 | a new element enters the whole queue right behind the hot elements; nothing else moves |
| QueueModel.Queue.Hit | include/monsoon/cache/expire_queue.h:270-294 | a linked element that is hit moves to the very front; the others keep their order |
| QueueModel.Queue.Delete | include/monsoon/cache/expire_queue.h:233-249 | a linked element leaves and the queue is balanced again; for an unlinked one nothing changes |
| QueueModel.Boundary | include/monsoon/cache/expire_queue.h:415-435 | where the boundary between hot and cold lies after a creation, a hit and a deletion: lists that differ by at most one are left alone, otherwise the longer one keeps the odd element |
| QueueModel.ScanResistance | include/monsoon/cache/expire_queue.h:219-226 | any number of arrivals in a full queue, each followed by cutting off the cold end, leaves the first `n / 2` elements in place |
| ExpireQueue.ExpireLink.LinkAfter | include/monsoon/cache/expire_queue.h:115-133 | the four pointer writes that put a node behind another, with the tag of its list |
| ExpireQueue.ExpireLink.LinkBefore | include/monsoon/cache/expire_queue.h:137-155 | the four pointer writes that put a node before another, with the tag of its list |
| ExpireQueue.ExpireLink.Unlink | include/monsoon/cache/expire_queue.h:159-169 | the neighbours are joined and the node is loose |
| ExpireQueue.BaseExpireQueue.constructor | include/monsoon/cache/expire_queue.h:437-438 | two empty rings whose sentinels point at themselves |
| ExpireQueue.BaseExpireQueue.OnCreate | include/monsoon/cache/expire_queue.h:219-226 | on the heap: both rings stay circular, doubly linked, disjoint, consistently tagged and counted, and represent `Create` of the old queue |
| ExpireQueue.BaseExpireQueue.OnDelete | include/monsoon/cache/expire_queue.h:233-249 | on the heap: represents `Delete`, dispatching on the tag; deleting an unlinked element writes nothing at all |
| ExpireQueue.BaseExpireQueue.OnHit | include/monsoon/cache/expire_queue.h:270-294 | on the heap: `Hit` for a linked element, `Create` for an unlinked one that could be strengthened, else no change |
| ExpireQueue.BaseExpireQueue.Rebalance | include/monsoon/cache/expire_queue.h:415-435 | both loops terminate and represent `Rebalanced`, moving one node at a time between the rings |
| ExpireQueue.BaseExpireQueue.Size | include/monsoon/cache/expire_queue.h:296-300 | the sum of the counters is the length of the whole queue |
| ExpireQueue.BaseExpireQueue.Coldest | include/monsoon/cache/expire_queue.h:309-315 | the last element of the whole queue, or nothing if it is empty |
| ExpireQueue.BaseExpireQueue.DropColdest | include/monsoon/cache/expire_queue.h:331-340 | unlinks the last element of the whole queue, from whichever list it is on, and nothing else |
| ExpireQueue.BaseExpireQueue.Neighbours | include/monsoon/cache/expire_queue.h:115-169 | the two link pointers of a linked node are set and lead to linked nodes or to a list head |
| ElementState.DeferredOpsCommute | include/monsoon/cache/element.h:432-509 | any sequence of weaken, strengthen and expire applied to a pending element and then resolved gives the same element as resolving first, for failures and for a non-null value kept alive |
| ElementState.DeferredOpExact | include/monsoon/cache/element.h:432-509 | for a single operation on any outcome: the two orders agree if and only if it is not the strengthening of a weak, unexpired element whose value is null or dead |
| ElementState.BasicElement.OfPointer | include/monsoon/cache/element.h:364-371 | a new element of a synchronous cache owns its pointer |
| ElementState.BasicElement.OfFuture | include/monsoon/cache/element.h:375-380 | a new element of an asynchronous cache is pending, strong and not expired |
| ElementState.BasicElement.Resolve | include/monsoon/cache/element.h:432-462 | a failed future empties the element and rethrows; else the pointer is returned and the element is empty, strong or weak by its flags |
| ElementState.BasicElement.Weaken | include/monsoon/cache/element.h:465-477 | in place: a strong pointer becomes weak, a pending element is flagged, others stay |
| ElementState.BasicElement.Strengthen | include/monsoon/cache/element.h:480-494 | in place: a weak pointer is locked if it can be; false exactly for a weak pointer that could not; true for an empty element |
| ElementState.BasicElement.Expire | include/monsoon/cache/element.h:497-509 | in place: a pending element is only flagged, others are emptied |
| DeleteLock.StoreDeleteLock.constructor | include/monsoon/cache/store_delete_lock.h:23-28 | the counter of every element is the number of locks that hold it, with one lock more |
| DeleteLock.StoreDeleteLock.CopyOf | include/monsoon/cache/store_delete_lock.h:30-33 | copying keeps every counter equal to its number of holders |
| DeleteLock.StoreDeleteLock.MoveOf | include/monsoon/cache/store_delete_lock.h:35-38 | moving empties the source and keeps every counter |
| DeleteLock.StoreDeleteLock.CopyAssign | include/monsoon/cache/store_delete_lock.h:40-50 | copy assignment, to itself and to the same target included, keeps the accounting and never underflows |
| DeleteLock.StoreDeleteLock.MoveAssign | include/monsoon/cache/store_delete_lock.h:52-60 | move assignment, to itself and to the same target included, keeps the accounting and never underflows |
| DeleteLock.StoreDeleteLock.Reset | include/monsoon/cache/store_delete_lock.h:90-95 | releasing gives back exactly the one count that this lock holds |
| DeleteLock.Destroyed | include/monsoon/cache/store_delete_lock.h:62-64 | a lock that was reset may be destroyed without disturbing any counter |
| DeleteLock.Repointed | include/monsoon/cache/store_delete_lock.h:40-60 | pointing a lock elsewhere takes one holder from the old target and gives one to the new, for every element, also when both are the same |
| DeleteLock.DeletableIff | include/monsoon/cache/cache_impl.h:504 | a counter of zero means that no lock whatever holds the element, and conversely |
| HashTable.Table.RehashBucket | include/monsoon/cache/bucket.h:257-274 | the node surgery of one bucket equals the function on chains, although nodes are pushed onto other chains meanwhile |
| HashTable.Table.Rehash | include/monsoon/cache/cache_impl.h:717-736 | resizing and one pass over the original buckets equal the function on chains; no node is lost from memory |
| HashTable.RehashedHome | include/monsoon/cache/cache_impl.h:726-736 | after it every node stands exactly once, in chain `hash % m` and in no other |
| HashTable.Table.Cut | include/monsoon/cache/bucket.h:160-163 | the one pointer assignment that unlinks a node, through the predecessor or through the bucket itself: exactly that node leaves exactly that chain |
| HashTable.Table.Append | include/monsoon/cache/bucket.h:185 | the one pointer assignment that links a node at the end of a walk: it becomes the last of that chain and of no other |
| HashChains.RehashCorrect | include/monsoon/cache/cache_impl.h:726-736 | for any hash function one pass over only the original chains leaves the multiset of nodes unchanged and every node in its new chain |
| HashChains.MoveBag | include/monsoon/cache/bucket.h:270-272 | the three pointer assignments of one move neither lose nor double a node |
| Growth.OverflowTestExact | include/monsoon/cache/cache_impl.h:706-708 | on words of any width the division test holds exactly when the multiplication by nine wrapped around |
| Growth.NextBucketsGrows | include/monsoon/cache/cache_impl.h:705-713 | growth leads to nine buckets for every seven, or to all that the vector can hold if that is less or the word overflows; it adds at least three buckets when neither is the limit |
| Growth.OneMore | include/monsoon/cache/cache_impl.h:682 | one more element asks for at most three more buckets when the load factor is at least one third |
| CacheState.ExpiredIsDead | include/monsoon/cache/element.h:342-347 | the expiry test of an element in the table depends on its content and deadline only, not on the strength with which it holds the value |
| CacheState.Discard | include/monsoon/cache/cache_impl.h:754-765 | deleting an element takes it out of its chain, the queue, the count and the memory together and keeps all representation invariants |
| CacheState.PopColdest | include/monsoon/cache/expire_queue.h:331-340 | weakening and unlinking the coldest element keeps the invariants and changes no content |
| Maintenance.EraseIfExpired | include/monsoon/cache/cache_impl.h:501-512 | erases the element if and only if it is unlocked and expired, and then shortens the queue by exactly that element |
| Maintenance.Cleanup | include/monsoon/cache/expire_queue.h:492-501 | terminates; the queue left is a prefix of the old one, and only dead, unlocked elements are gone |
| Maintenance.CleanupStops | include/monsoon/cache/expire_queue.h:492-501 | it stops only at an element that is alive or locked, or at an empty queue |
| Maintenance.ShrinkToSize | include/monsoon/cache/expire_queue.h:328-358 | in the whole cache, with every evicted element erased if that made it expire: exactly the prefix of length `min(size, n)` stays linked |
| Maintenance.ShrinkStale | include/monsoon/cache/access_expire_decorator.h:80-88 | drops only elements whose deadline lies strictly before now, and exactly those behind the last one whose deadline does not |
| Maintenance.AccessOnHit | include/monsoon/cache/access_expire_decorator.h:65-72 | the element that was just hit is not dropped, and nothing is reordered |
| Maintenance.ApplyMaxSize | include/monsoon/cache/max_size_decorator.h:28-48 | afterwards at most `max_size` elements are linked, and only the cold end was cut |
| Maintenance.OnHit | include/monsoon/cache/cache_impl.h:747-752 | all callbacks of a hit together may delete others but never the element being served, and change no content |
| Maintenance.HitReorders | include/monsoon/cache/cache_impl.h:747-752 | after all callbacks of a hit, the element leads the queue if it was linked and stands between the halves if it was not; the others keep their order and only the cold end may be missing |
| Trimming.OnHitTrims | include/monsoon/cache/cache_impl.h:747-752 | exactly what all callbacks of a hit leave of the queue: the cleanup erases the dead tail up to a live or locked element, the access decorator cuts what is stale up to a fresh element, of the rest at most `max_size` remain; the element that was hit is not cut as stale, its deadline is renewed, all others are kept |
| Trimming.AfterInsertTrims | include/monsoon/cache/cache_impl.h:739-745 | the same for the callbacks of a creation |
| Trimming.EvictedErased | include/monsoon/cache/expire_queue.h:328-404 | in a quiet world an element that is evicted for size or age leaves the table at once, unless it is locked, pending, or its value is referred to by something else |
| Lookup.Sweep | include/monsoon/cache/bucket.h:153-164 | an expired element leaves unless it is locked; a live one stays; everything else is maintenance |
| Lookup.LookAt | include/monsoon/cache/bucket.h:149-179 | a match is alive at the moment it is taken; an element of the key that is passed over is dead |
| Lookup.Scan | include/monsoon/cache/bucket.h:149-179 | for any hash function and with dead duplicates anywhere in the chain: a hit is a live element of the key, a miss means that no element of the key is alive in any bucket |
| Lookup.PeekScan | include/monsoon/cache/bucket.h:105-121 | the same for the read-only walk, which leaves elements, chains and queue untouched |
| Lookup.Strike | include/monsoon/cache/bucket.h:84-91 | the expired element is erased at once if and only if it is not locked |
| Resize.EraseAllExpired | include/monsoon/cache/cache_impl.h:697-698 | full maintenance terminates and is a maintenance step; live and locked elements stay |
| Resize.FullMaintenance | include/monsoon/cache/cache_impl.h:697-698 | full maintenance erases every element that is dead and unlocked when it starts, and none that is alive or locked when it ends |
| Resize.Rehash | include/monsoon/cache/cache_impl.h:717-736 | growth keeps every invariant of the table and touches nothing but the buckets |
| Resize.RehashChained | include/monsoon/cache/cache_impl.h:726-736 | after growth an element is in a bucket if and only if its hash selects that bucket, once |
| Operations.Serve | include/monsoon/cache/bucket.h:168-175 | the served element survives the callbacks, and the size bound holds afterwards |
| Operations.ServeTends | include/monsoon/cache/bucket.h:168-175 | serving a live element is mere maintenance for everybody else |
| Operations.ServeReorders | include/monsoon/cache/bucket.h:168-175 | where a served live element stands in the queue afterwards, and that the others keep their order |
| Operations.Insert | include/monsoon/cache/bucket.h:181-186 | linking a new element keeps every invariant; it stands last in the bucket of its hash, is counted, locked and queued, or weakened without a queue |
| Trimming.CreateTrims | include/monsoon/cache/bucket.h:181-191 | a creation on the whole queue: the new element enters right behind the hot ones, its access deadline counts from before the create function ran, and the three cuts of the callbacks follow; no other deadline changes |
| Operations.CreateJoins | include/monsoon/cache/bucket.h:181-190 | a creation adds one element with the key and content asked for and otherwise only performs maintenance |
| Operations.CreationEvictsTail | include/monsoon/cache/bucket.h:181-190 | a creation enters the queue between hot and cold, and all it evicts comes off the cold end |
| Effects.GetHitTrims | include/monsoon/cache/bucket.h:167-176 | after a `get` that found an element: it is first in the queue if it was linked and between the halves if it was not, the others keep their order, and whatever is missing at the cold end was dead, stale or more than `max_size`; its access deadline is one full duration after a moment during the call |
| Effects.GetHitLinks | include/monsoon/cache/expire_queue.h:270-294 | the element that was found is linked afterwards, at that place, if and only if there is room: not if `max_size` is zero, nor if it is one, the element was unlinked and the one linked element is hot |
| Effects.GetHitFresh | include/monsoon/cache/access_expire_decorator.h:65-88 | after such a `get` the deadline of the coldest linked element had not passed when it was found, unless the queue is as long as `max_size` allows |
| Effects.CreateFresh | include/monsoon/cache/access_expire_decorator.h:59-63 | the same after a creation |
| Effects.GetMissTrims | include/monsoon/cache/bucket.h:181-191 | after a `get` that created: the new element entered between the halves, the three cuts followed, and a growth of the table may have erased dead elements from what was left |
| Effects.GetClears | include/monsoon/cache/bucket.h:147-165 | a `get` erases every dead, unlocked element that stands before the match in the chain, and all of them in the bucket if there is no match; the search changes nothing else and keeps the order of the queue |
| Effects.ForgetClears | include/monsoon/cache/bucket.h:67-82 | `expire` erases on its way in the same manner |
| Effects.ForgetLeaves | include/monsoon/cache/bucket.h:84-91 | `expire` changes nothing but the element it expires and dead ones: all other elements and the order of the queue stay |
| SmallStates.HitWithoutRoom | include/monsoon/cache/expire_queue.h:270-294 | a concrete input: `max_size` is one and the linked element hot; an unlinked element is hit and evicted again in the same call |
| SmallStates.StaleIsLeft | include/monsoon/cache/max_size_decorator.h:28-48 | a concrete input: a slow creation on a full queue leaves the stale new element at the cold end, because the fresh one behind it was cut for size |
| Evolution.DeadRemains | include/monsoon/cache/max_age_decorator.h:47-49 | expiry is monotone: through any step of any thread a dead element stays dead |
| Evolution.LaterTrans | include/monsoon/cache/element.h:432-509 | the steps of a run compose: identity, deadlines and held values of elements carry over, and no dead value revives |
| Evolution.UniqueLater | include/monsoon/cache/bucket.h:138-192 | uniqueness of the live element of a key survives any step that creates only for a key without a live element |
| Sections.GetKeeps | include/monsoon/cache/cache_impl.h:604-628 | `get` keeps the whole invariant, whether it hits, throws, creates at once, starts an asynchronous creation, or creates too slowly for the age limit |
| Steps.MissMakes | include/monsoon/cache/bucket.h:181-191 | what a lookup that misses leaves behind: a new, unflagged element with what was yielded and the deadline counted from before the create function ran; a quick creation hands it out, held or awaited by its creator; a slow one hands out null and leaves the element aged and unlocked |
| Steps.WaiterKept | include/monsoon/cache/cache_impl.h:654-671 | no step of another thread disturbs a thread that waits for a future |
| Steps.GetWaits | include/monsoon/cache/cache_impl.h:651-663 | a `get` that answers with a future has registered its thread for that future, as the creator if it created and as one that joined if not; after any other answer nobody new waits |
| Steps.PeekWaits | include/monsoon/cache/cache_impl.h:586-600 | a `get_if_present` that answers with a future has joined it |
| Steps.FinishInstalls | include/monsoon/cache/cache_impl.h:665-671 | the returning creator finds its element, which then holds the outcome and is unlocked; the caller gets the outcome and holds the value |
| Steps.StepKeys | include/monsoon/cache/bucket.h:181-186 | a step creates at most the one element with the next number, and that for the key that it asks for |
| Sections.PeekKeeps | include/monsoon/cache/cache_impl.h:586-600 | `get_if_present` keeps the whole invariant |
| Sections.ForgetKeeps | include/monsoon/cache/cache_impl.h:568-582 | `expire` keeps the whole invariant and affects held values of its key only |
| Sections.FinishKeeps | include/monsoon/cache/cache_impl.h:665-671 | the creator's return, exception path included, keeps the whole invariant |
| Sections.TuneKeeps | include/monsoon/cache/cache_impl.h:483-491 | setting the load factor keeps the whole invariant |
| Protocol.Next | include/monsoon/cache/cache_impl.h:566-676 | every step of every thread keeps the invariant and leads to a later state |
| Protocol.After | include/monsoon/cache/cache_impl.h:566-676 | so does every run, in any interleaving |
| Protocol.FreshInv | include/monsoon/cache/cache_impl.h:445-456 | an empty cache with three buckets satisfies the invariant |
| Service.GetServesLive | include/monsoon/cache/bucket.h:167-176 | if the element of the key is live when `get` lets go of the mutex, `get` returned its content and created nothing |
| Service.PeekServesLive | include/monsoon/cache/bucket.h:105-121 | the same for `get_if_present` |
| Service.PointerStable | README.md:50 | while somebody keeps the value alive, the key is not expired on purpose and its age limit is not reached, every request for the key in any run of any threads returns that pointer without creating, and the element stays |
| Service.AsyncStable | include/monsoon/cache/cache_impl.h:630-676 | the same from a pending element on, across the return of its creator: every request in any run is answered by the one future or by the one pointer that the future yields, and none creates |
| Service.GetThenStable | README.md:50 | the promise from the caller's side, for pointers and for futures, for those who found, joined or created: after `get` has answered, every request for the key in any run gets the same; only the deadline of the element that the answer came from matters |
| Service.GetEstablishes | include/monsoon/cache/cache_impl.h:604-628 | what an answer rests on: a pointer is the content of an element of the key and is held, a future is that of a pending element of the key and the caller now waits for it; null is returned exactly when the call created and was too slow |
| Service.HandedOutIffQuick | include/monsoon/cache/element.h:331-338 | a creation hands out what was created if and only if it took no longer than the age limit, counted from before the create function was called |
| Service.ServedUntilAged | include/monsoon/cache/max_age_decorator.h:47-49 | for a held pointer whatever the clock does during the call: `get` returns it if the deadline has not passed when the call ends, and asks the create function if it had passed when the call began |
| Service.PendingSurvives | include/monsoon/cache/cache_impl.h:654-671 | from the creator's unlock to its return, no run of other threads unlinks, erases, unlocks or misplaces its element, and every request for the key joins the one future until the age limit |
| Service.OneOutcome | include/monsoon/cache/builder.h:398-409 | the creator and all threads that joined it get the same pointer or the same exception, however late they come back and even if the element has expired meanwhile |
| Service.CallOutcome | include/monsoon/cache/cache_impl.h:646-671 | from the call to its end: whoever was answered with a future can come back once it is settled, whatever the others do, gets exactly its outcome, holds the pointer, and keeps the value alive while it waits; it goes through the cache again if and only if it created |
| Refinement.MaintenanceKeepsMap | include/monsoon/cache/cache_impl.h:689-737 | cleanup, eviction and rehash leave the map from keys to live contents unchanged, except for contents that died |
| Refinement.ScanRefines | include/monsoon/cache/bucket.h:149-179 | a walk that hits found a binding of the map; one that misses ends with the key unbound |
| Refinement.PeekRefines | include/monsoon/cache/bucket.h:105-121 | `get_if_present` answers with a binding of the key, or the key is unbound |
| Refinement.PeekExact | include/monsoon/cache/bucket.h:105-121 | in a quiet world it answers with content `x` if and only if the key is bound to `x` |
| Refinement.GetRefines | include/monsoon/cache/bucket.h:138-192 | `get` is lookup-or-insert: it returns the binding it finds, asks the create function only while the key is unbound, and hands out what that yields unless it took too long |
| Refinement.ForgetRefines | include/monsoon/cache/bucket.h:62-96 | `expire` unbinds a key with a resolved element and says so; a pending element is flagged and stays bound to its future; when it says that it found nothing, every element that the key had before has died by itself |
| Refinement.ForgetExact | include/monsoon/cache/bucket.h:62-96 | in a quiet world in which nothing is past its age limit, `expire` reports a success if and only if the key was bound |
| SmallStates.ExpireFindsNothing | include/monsoon/cache/bucket.h:70-82 | why the age limit matters there: a quiet world and a bound key, and yet `expire` finds nothing, since its walk erases an aged element that owns the value of the next one |
| Refinement.UnboundStays | include/monsoon/cache/bucket.h:62-192 | a key without a live element stays without one through any run in which nobody asks for it with `get` |
| Refinement.StableIffKept | README.md:50 | for a held pointer whose deadline does not pass: after any run without a `get` of the key, the next `get` returns the pointer if and only if nobody called `expire` for the key in that run |
| Refinement.OthersKept | include/monsoon/cache/bucket.h:62-192 | whatever step is taken, a value bound to a key stays bound unless it died, aged out or its key was expired |
| Refinement.NothingAppears | include/monsoon/cache/bucket.h:62-192 | whatever step is taken, an element that is live afterwards and not new was live before, with the same key and content or pending |
| Refinement.FinishRefines | include/monsoon/cache/element.h:432-462 | after a failed future or an `expire` during the creation the key is unbound, else it is bound to the new value |
| Safety.AsyncSafety | include/monsoon/cache/cache_impl.h:602-676 | whenever the mutex is free an element is locked if and only if a thread creates it; that is one thread with one lock, the element is pending for its future and in bucket `hash % size`; a pending element without a lock is past its age limit |
| SizeBounds.SizeBound | include/monsoon/cache/max_size_decorator.h:28-48 | in values: the elements own at most `max_size` values plus one for every element that was evicted while pending and whose future has completed; the values alive through elements alone, which no holder, section or waiting thread refers to, are at most `max_size` plus one for every such element without a lock, all of which are past the age limit; so at most `max_size` without an age limit |
| Limits.ValuesBoundedIffSync | include/monsoon/cache/max_size_decorator.h:28-48 | without an age limit, elements own at most `max_size` values in every reachable state if and only if the cache is synchronous |
| Limits.Overfull | include/monsoon/cache/cache_impl.h:654-671 | the reason: an asynchronous cache of any `max_size` reaches, for every `m`, a state in which elements own `m` values |
| Limits.LostValue | include/monsoon/cache/element.h:331-338 | with `max_size` zero and an age limit, a reachable state in which a value is alive through an element alone |
| Limits.SlowCreation | include/monsoon/cache/builder.h:392-409 | a concrete input: the age limit is fifty seconds, the create function takes sixty; the first `get` returns null, and the asynchronous cache keeps a pending element that is not locked and that nobody will resolve |
| Limits.HeldButAged | README.md:50 | a concrete input: a caller holds the pointer that `get` returned, and a later `get` for the same key returns another one |
| Safety.Conservation | include/monsoon/cache/cache_impl.h:739-765 | whenever the mutex is free `size_` is the number of elements over all chains and equals creations minus deletions; nothing is deleted twice |
| Safety.ReachableIsSafe | include/monsoon/cache/cache_impl.h:566-676 | asynchronous safety, the bounds on values and conservation hold in every state that any run of any number of threads reaches, and at most one element per key is alive in the whole table |
| Destruction.DestroyFrom | include/monsoon/cache/cache_impl.h:458-462 | emptying the buckets one after the other keeps the invariants at every point |
| Destruction.DestroysAll | include/monsoon/cache/cache_impl.h:458-462 | without locks the destructor ends with size zero, empty chains and an empty queue, and every element ever created was destroyed exactly once |
| Scans.CreateArrives | include/monsoon/cache/expire_queue.h:219-226 | in the whole cache, a creation, slow or not, in a full queue of elements that hold or await a value and whose deadlines are not reached erases none of them and is one arrival |
| Scans.HotHalfStays | include/monsoon/cache/expire_queue.h:171-182 | no run without a hit moves the hotter half of a full queue, however many elements it creates and resolves, as long as no linked element's deadline passes before its end |
| LoadBound.RehashRestoresLoad | include/monsoon/cache/cache_impl.h:689-737 | one growth step makes up for one new element |
| LoadBound.GetKeepsLoad | include/monsoon/cache/cache_impl.h:604-628 | after every `get` of the synchronous cache `ceil(size / lf)` is at most the number of buckets |
| LoadBound.LoadBoundAlways | include/monsoon/cache/cache_impl.h:679-737 | the same after every run, while allocations succeed and the table is not at its limits |
| LoadBound.FinishGrows | include/monsoon/cache/cache_impl.h:621-627 | the return of a creator: after a failed future the table stays as it is; otherwise it has one growth step more exactly if what is left asks for it and there is room and memory, the load bound holds or there are at least three buckets more, and a full maintenance has erased what was dead if it was asked for; the other elements and the order of the queue stay |
| LoadBound.TuneGrows | include/monsoon/cache/cache_impl.h:483-491 | setting the load factor: a factor that is not positive changes nothing, another one is stored and the table tested for growth in the same way |
| LoadBound.GetGrows | include/monsoon/cache/cache_impl.h:621-627 | a `get` tests for growth exactly if it created and need not wait for a future; else the number of buckets stays |
| LoadBound.LoadOwedAlways | include/monsoon/cache/cache_impl.h:679-737 | synchronous or asynchronous, after every run the table lacks at most three buckets for each thread in the middle of a creation and for each creation that failed |
| Sharding.ProductInjective | include/monsoon/cache/impl.h:562-565 | with the multiplier of either word size, two hash codes never have the same wrapped product |
| Sharding.EveryShardServes | include/monsoon/cache/impl.h:562-565 | every shard is selected by some hash code, for any number of shards |
| Sharding.ShardOfProduct | include/monsoon/cache/impl.h:643-661 | for a number of shards that divides the number of words the wrapped product selects like the plain one |
| Sharding.ArrayKept | include/monsoon/cache/impl.h:643-696 | every step of every shard keeps all elements in the shard of their key and every thread in one shard |
| Sharding.FreshArray | include/monsoon/cache/impl.h:596-611 | an array of empty shards satisfies the invariant |
| Sharding.ShardRuns | include/monsoon/cache/impl.h:643-696 | seen from each shard, a run of the array is a run of a plain cache that ends in the same state |
| Sharding.OneLiveElementInArray | include/monsoon/cache/impl.h:643-696 | no key is ever live in two shards, nor twice in one |
| Sharding.BoundAtHome | include/monsoon/cache/impl.h:643-696 | a key is bound in the array exactly if it is bound in its own shard |
| Sharding.ArrayIsMap | include/monsoon/cache/impl.h:643-696 | the shards together are one partial map |
| Sharding.OtherShardsKept | include/monsoon/cache/impl.h:643-696 | a request leaves the bindings of all keys of other shards exactly as they were |
| Sharding.ArrayGetRefines | include/monsoon/cache/impl.h:663-696 | `get` on the array is lookup-or-insert on the one map; it creates only while no shard binds the key, and hands out null if that took too long |
| Sharding.ArrayPeekRefines | include/monsoon/cache/impl.h:653-661 | `get_if_present` on the array is lookup in the one map |
| Sharding.ArrayForgetRefines | include/monsoon/cache/impl.h:643-651 | `expire` on the array removes the key from the one map, unless it is bound to a running creation; when it says that it found nothing, no shard has an element of the key that has not died by itself; in a quiet world without aged elements it reports a success if and only if the key was bound |
| Sharding.ArrayStable | include/monsoon/cache/impl.h:663-696 | stability over all runs of the array, from a resolved and from a pending element on |
| HeapCache.CacheImpl.constructor | include/monsoon/cache/cache_impl.h:445-456 | the memory of a new cache represents the empty state of the protocol |
| HeapCache.CacheImpl.NoDangling | include/monsoon/cache/bucket.h:202-219 | every pointer stored in an element, to its successor in the chain and to its neighbours on the list, leads to an element that exists or to a list head; no operation leaves a pointer to a destroyed element |
| HeapCache.CacheImpl.EraseAt | include/monsoon/cache/bucket.h:160-163 | in memory: one element leaves its chain, its list, the count and the table of elements, and what is left represents `Discard` of the old state; the walk can go on from where it stood |
| HeapCache.CacheImpl.BucketErase | include/monsoon/cache/bucket.h:202-219 | the walk from the bucket ends at the node, which is erased in that way |
| HeapCache.CacheImpl.EraseIfExpired | include/monsoon/cache/cache_impl.h:501-512 | test, walk to the node and erasure together take the represented state where the function of the same name says |
| HeapCache.CacheImpl.Cleanup | include/monsoon/cache/expire_queue.h:492-501 | the loop over the coldest link, through `erase_if_expired`, the erasure from the chain and `on_delete` down to the unlinking of the very link that the loop came from, terminates and refines `Maintenance.Cleanup` |
| HeapCache.CacheImpl.ShrinkToSize | include/monsoon/cache/expire_queue.h:328-358 | the loop over the cold list and the one over the hot list weaken, unlink and erase in memory and together refine the eviction to a size |
| HeapCache.CacheImpl.ShrinkStale | include/monsoon/cache/expire_queue.h:371-404 | the two loops with their stop flag together cut off the stale end |
| HeapCache.CacheImpl.OnHit | include/monsoon/cache/cache_impl.h:747-752 | the callbacks of all decorators on the links and slots in memory; the element that is served survives them all |
| HeapCache.CacheImpl.Search | include/monsoon/cache/bucket.h:147-179 | the walk that erases in passing ends in the state and at the match that `Lookup.Scan` describes, with and without the second test of a match, or at the last node of the chain |
| HeapCache.CacheImpl.SearchPresent | include/monsoon/cache/bucket.h:105-121 | the read-only walk ends as `Lookup.PeekScan` describes and writes neither chain, list nor element |
| HeapCache.CacheImpl.EraseAllExpired | include/monsoon/cache/cache_impl.h:697-698 | the nested walks over all chains refine full maintenance |
| HeapCache.CacheImpl.Rehash | include/monsoon/cache/cache_impl.h:717-736 | the vector is replaced and every chain node relinked in place; elements, lists and slots stay as they are |
| HeapCache.CacheImpl.MaybeRehash | include/monsoon/cache/cache_impl.h:689-737 | both tests, the full maintenance between them, one growth step, and no change when the allocation fails |
| HeapCache.CacheImpl.Attach | include/monsoon/cache/bucket.h:181-185 | allocates an element with its parts and links it behind the node at which the walk ended |
| HeapCache.CacheImpl.LookupOrCreate | include/monsoon/cache/cache_impl.h:604-628 | `get` on memory: search, hit or creation with all callbacks, slow creation included, take the represented state, the answer and the creation to where the step of the protocol says |
| HeapCache.CacheImpl.LookupIfPresent | include/monsoon/cache/cache_impl.h:586-600 | `get_if_present` likewise; writes neither chain, list nor element |
| HeapCache.CacheImpl.Expire | include/monsoon/cache/cache_impl.h:568-582 | `expire` likewise, unlinking in the place where the walk stands |
| HeapCache.CacheImpl.Resolve | include/monsoon/cache/cache_impl.h:665-671 | the second critical section of a creation likewise; the exception path skips the growth |
| HeapCache.CacheImpl.Destroy | include/monsoon/cache/cache_impl.h:458-462 | the nested loops of the destructor |

## Left out

- The builder, the allocator adaptors, the create handlers and the type-level lists of decorators: they choose a
  configuration at compile time. The model takes the configuration as a parameter, in every combination of queue,
  `max_size`, `access_expire`, `max_age` and synchronous or asynchronous creation.
- Statistics and memory accounting (`stats.h`, `mem_use.h`), the allocation hint, and `max_memory`, which acts through
  an allocator.
- Storage override and identity (`void` key) caches: a stored pointer stands for itself.
- Memory orders, the mutex itself and real threads: a section under the mutex is one step of the protocol, with the
  outside world moving at each of its tests. A cache without the thread-safe decorator is a run of one thread.
- User functions that call back into the cache while its mutex is held, and destructors of values that do.
- Addresses: elements and pointees are named by serial numbers that are never reused, so the reuse of a freed address
  is not modelled. The tag bits in the link pointers are an explicit field in `ExpireQueue`. In `HeapCache` an element and
  the parts that the code inherits from its decorators are objects of their own; a part knows the number of its element,
  and a table from numbers to elements stands for the downcast.
- In `HeapCache` the lock count of an element is changed directly; that the lock objects keep it equal to the number of
  their holders is the subject of `DeleteLock`.
- Assertions of the code: the model is the build in which they are switched off.
- Keys are numbers standing for classes of keys that the user's equality identifies; that equal keys have equal hashes
  is built in, the hash function itself is arbitrary.
- Load factors and quotients are real numbers; the rounding of `float` is left out, and so are infinite factors, which
  `max_load_factor` also refuses. Only the growth arithmetic wraps around; `size_`, `use_count` and the queue lengths
  are unbounded.
- A create function that yields a null pointer, which the code asserts not to happen: it counts as an exception here. A
  future may complete with null.
- `get_if_present` is `noexcept`: a joined future that fails ends the program there. The model lets the call answer with
  the exception.
- Futures complete at any time, without progress guarantees: no statement says that a waiting thread ever returns.
- SizeBounds.SizeBound: with an age limit, values of slow asynchronous creations come on top of `max_size`; see
  `Limits.LostValue`.
- Maintenance.ShrinkStale: stale elements hotter than the coldest fresh one stay linked, as in the code.
- Effects.CreateFresh: a cut for size can uncover a stale element at the cold end, as in the code; see
  `SmallStates.StaleIsLeft`. `Effects.GetHitFresh` likewise.
- LoadBound.LoadBoundAlways: covers the synchronous cache with a fixed factor of at least one third;
  `LoadBound.LoadOwedAlways` covers the asynchronous one, where a creation that is under way or has failed has not been
  made up for. Below one third one element can ask for more than three buckets, and one growth step need not reach the
  target after the factor was lowered.
- Scans.HotHalfStays: excludes runs in which a linked element is resolved to null, to a failure or after `expire`: it is
  then erased from the queue, and what follows it moves up.
- Sharding.ShardRuns: every shard has its own view of holders and clock; what other shards hold counts as held by the
  outside world. The constructor of the sharded cache (`include/monsoon/cache/impl.h:590-593`) divides the limits by
  the number of shards, but only in its own copy of the builder for which the shards are made; no bound on the sum over
  all shards is claimed, and its exception path and its destructor loop are not modelled.
