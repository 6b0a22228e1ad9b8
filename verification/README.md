# Stella 2 / TCW3: a verified model of its data structures and protocols

This project models seven parts of the Stella 2 repository in Dafny and proves what each of them
is for. Code that works in place is modelled in place: nodes, pools, lists, encoders, queues and the
scheduler are classes whose methods take the branches of the Rust code, and each method is proved
against an independent description of its effect (a sequence, a partial map, a step of a state
machine). Check everything with `dafny verify dfyconfig.toml`.

* **Rope** (`RopeTree`, `RopeCursor`, `RopeNodes`, `RopeInsert`, `RopeRemove`, `RopeUpdate`, `Rope`,
  `RopeIter`, `RopeValidate`): a B+-tree of heap nodes that stands for a sequence of elements.
  `RopeTree.RootShape` is the full shape rule (equal leaf depth, 8 to 16 children except at the root,
  exact prefix-sum offsets), `RopeTree.Flat` the sequence, `RopeTree.Pos` the place a cursor leads to.
  Lengths are arbitrary integers; they are non-negative only where searching or ranges need it.
* **DPI bitmap cache** (`LeakyPool`, `IntrusiveList`, `ListCell`, `ListIndex`, `CacheState`,
  `ImageCache`, `ImageHandles`): a free-list pool, circular lists threaded through it, and the cache
  whose bitmaps are in two such lists at once. `Cache.Table()` is the partial map from image and
  scale to bitmap that the cache stands for.
* **View persistence** (`Harmony`, `Model`, `Persistence`, `PersistenceScheduler`, `AppView`): the
  protocol of main thread, debounce timer and background writers is a state machine
  (`Persistence.Step`) with runs of any length and any interleaving, where file operations may fail;
  the scheduler class takes its steps. `Harmony` counts references, so that the scheduler's
  comparison of pointers can be justified from copy-on-write instead of being assumed: the
  application view is proved to pass only states that obey it.
* **StellaVG** (`StvgFormat`, `StvgEncoder`, `StvgDecoder`, `StvgRoundTrip`, `StvgValidity`,
  `StvgRendering`): the encoder that coalesces commands into ops, the decoder's state machine with a
  grammar of what it takes, and rendering as the independent meaning that both keep.
* **IterablePool** (`IterPool`): a free list and a circular used list in one vector.
* **Timer queue** (`Bits`, `FixTime`, `TimerQueue`): slots found through a bitmap, times compared
  through binary64 bit patterns (section 3.4 of IEEE 754-2008), handles made of an id and a slot.
* **UTF-8 and UTF-16 positions** (`Utf16Count`): byte loops and 64-byte chunk loops against the
  encodings of scalar values (section 3 of RFC 3629, section 2.1 of RFC 2781).

## What the proofs found

* `iter.rs`: `next_back` is not fused (as a comment there says). After it has returned `None` on a
  rope that is not empty, it gives the last element of the rope again if and only if the start of
  the range has not been worked out (`AfterNone`). That is the case exactly if the range had no start
  bound, or one that is rounded to before the rope (`RangeWithCursor`), and `next` has not been
  called (`IterWithCursor.Next`). `NotFused` is a run on a rope of one element. Up to the first
  `None` both ends are exact (`TakeBothEnds`).
* `misc.rs`: `validate` compares only the kinds of siblings, so it accepts a tree with leaves at
  different depths (`UnevenAccepted`). A rope is well formed exactly if `validate` accepts it, no
  node is overfull, and all leaves are equally deep (`WellFormedIs`). The operations never leave such
  a tree behind: what they leave is always well formed.
* `enc.rs`: the number of points of a contour is cut down to 16 bits without a test. The round trip
  succeeds if and only if no contour has more than 65535 points (`RoundTrip`, `LongContourIsLost`).
* `enc.rs`: where a curve segment could come next, setting a colour before it makes it an error if
  and only if a fill is pending (`ColorEndsContour`, with one list of each kind in `ColorWitnesses`).
  Which lists are accepted can be told by one scan (`Legal`, `AcceptedIs`).
* `dec.rs`: the documentation promises that invalid data is met with a panic. Exactly the byte strings
  of one grammar are decoded to the end (`DecodesValid`); unused bits behind the flags of a contour's
  points are not looked at.
* `viewpersistence.rs`: a write that fails is logged as done and not tried again
  (`FailedWriteIsDropped`). Once everything is quiet, the disk holds the latest state if and only if
  the last write succeeded (`Settled`, `FlushOutcome`). A stream of updates that never lets the
  timer fire postpones writing for as long as it lasts (`UpdatesPostpone`); without updates
  everything comes to rest (`ComesToRest`).
* `iterpool/src/lib.rs`: freeing an index that is in range but vacant panics, whereas `get` gives
  `None` (`IterablePool.Deallocate` leaves the pool unspecified in that case).
* `utf16count/src/lib.rs`: inside a surrogate pair, `rfind` gives the position after the pair with
  an excess of 1 (`RFindPair`). The code and its examples agree; the four bytes from that position
  on, which its documentation names, are others (`NotTheSliceNamed`).
* `timerqueue.rs`: durations are rounded down to multiples of 1024 ns. A task can therefore run
  before its nominal start if and only if that is not a multiple of 1024 ns within its second
  (`EarlyIs`; `RunsEarly` is a run), but by less than 1024 ns, and a drain leaves no task whose
  nominal start has come (`TimerQueue.DrainRunnableTasks`). The suggested wakeup is never after the
  nominal end of a task (`TimerQueue.SuggestNextWakeup`). A handle id is used up even by an insertion
  that is refused.

## Model

| member | source | states |
|---|---|---|
| RopeCursor.CursorLength | support/rope/src/lib.rs:127-148 | Every cursor of a tree of height h has exactly h + 1 indices, each at most 16, so it fits a byte |
| RopeCursor.DepthBound | support/rope/src/lib.rs:127-134 | A well-formed rope of fewer than 2 * 8^16 elements has at most 16 levels, so cursors, paths and index arrays never overflow |
| RopeCursor.CursorOrder | support/rope/src/lib.rs:136-148 | Comparing the index arrays of two element cursors is comparing the places in the sequence, both ways; equal places mean equal cursors |
| RopeCursor.EndUnique | support/rope/src/ops.rs:22-49 | There is only one one-past-end cursor |
| RopeTree.OffsetsReplace | support/rope/src/ops.rs:287-306 | Adding a child's growth to the offsets from its index on keeps all prefix sums exact |
| RopeTree.OffsetsHalved | support/rope/src/ops.rs:308-345 | The boundary put in after a split child keeps all prefix sums exact |
| RopeTree.OffsetsCut | support/rope/src/ops.rs:345-400 | Cutting an offset array and rebasing the second part gives exact prefix sums in both halves |
| RopeInsert.InsertLeaf | support/rope/src/ops.rs:272-286 | In a leaf, with or without a split, the result is the sequence with x at index i, and both halves have 8 to 16 elements |
| RopeInsert.SplitInner | support/rope/src/ops.rs:315-400 | Cuts the seventeen children after adding one: which half gets how many, the rebased offsets, and the length of the first half |
| RopeInsert.CutForest | support/rope/src/ops.rs:315-400 | The two halves of an inner node are in shape, hold the same sequence between them, and the length handed up is that of the first |
| RopeInsert.InsertSub | support/rope/src/ops.rs:263-406 | At any valid cursor of any subtree: the node and the sibling split off, if any, hold the old sequence with x inserted at the cursor's place, with shape, offsets and disjoint ownership kept |
| RopeRemove.RotateLeft | support/rope/src/ops.rs:655-680 | Moves the first child of the right node to the left one: sequence kept, both in shape, returned length is the left node's growth |
| RopeRemove.RotateRight | support/rope/src/ops.rs:618-652 | Moves the last child of the left node to the right one: sequence kept, both in shape, returned length is the left node's loss |
| RopeRemove.RotateLeftFull | support/rope/src/ops.rs:683-699 | Merging appends the right node's sequence to the left node's, with exact offsets and shape |
| RopeRemove.Strategy | support/rope/src/ops.rs:550-590 | Picks a sibling: it rotates only from one that can spare a child, and merges only if the result fits a node |
| RopeRemove.Rebalance | support/rope/src/ops.rs:545-616 | After one child has become too small, rotation or merging restores shape and offsets without changing the sequence; tells exactly if the node became too small itself |
| RopeRemove.RemoveSub | support/rope/src/ops.rs:514-616 | At any element cursor of any subtree: gives that element and its length; the node holds the sequence without it, in shape but for the underflow that is reported |
| RopeUpdate.UpdateSub | support/rope/src/ops.rs:409-459 | Replaces the element at the cursor as f says, gives the growth that was added to every later offset, and f's other result |
| Rope.Rope.constructor | support/rope/src/lib.rs:166-171 | A new rope is well formed and empty |
| Rope.Rope.EmptyIff | support/rope/src/lib.rs:180-185 | The test of the root alone tells whether the sequence is empty |
| Rope.Rope.EndGeneric | support/rope/src/ops.rs:28-49 | Walks to the one-past-end place or to the last element |
| Rope.Rope.Begin | support/rope/src/ops.rs:52-69 | Walks to place 0, which is an element unless the rope is empty |
| Rope.Rope.GetAt | support/rope/src/ops.rs:184-201 | Gives the element of the sequence at the cursor's place |
| Rope.Rope.Insert | support/rope/src/ops.rs:224-252 | At any valid cursor, one-past-end included: a well-formed rope of the old sequence with x inserted there, also when the root splits |
| Rope.Rope.RemoveAt | support/rope/src/ops.rs:462-478 | At any element cursor: returns that element and leaves a well-formed rope of the old sequence without it |
| Rope.Rope.FlattenRootIfNeeded | support/rope/src/ops.rs:480-502 | Restores the root's own minimum after a removal, keeping the sequence |
| Rope.Rope.UpdateAtWith | support/rope/src/ops.rs:409-459 | Exactly one element of the sequence is replaced, the rope stays well formed whatever its new length, and the closure's result is returned |
| Rope.ScanStops | support/rope/src/ops.rs:101-131 | For a monotone predicate and non-negative lengths, an element that starts before the predicate holds and ends where it does is where a left-to-right scan stops |
| Rope.SelectsAt | support/rope/src/sel.rs:357-394 | What the two kinds of selection mean for a comparator made from x, whatever the lengths: FirstAfter is an element with start <= x < end, LastBefore one with start < x <= end, and nothing is selected exactly if x is before or after all of the rope |
| Rope.Rope.SearchChildren | support/rope/src/ops.rs:134-179 | The scan of a node's offsets finds a child that starts before the predicate holds and, unless it is the last, ends where it does |
| Rope.Rope.SearchBy | support/rope/src/ops.rs:134-179 | The search gives None exactly if the predicate holds at 0, and otherwise a cursor with its exact start offset; for a monotone predicate and non-negative lengths the place is that of the left-to-right scan, with one-past-end at the upper cap |
| Rope.Rope.FindOne | support/rope/src/ops.rs:73-131 | Succeeds exactly if the comparator is in the right order at the two ends of the rope, and gives an element at whose start it is not yet, and at whose end it is, as FirstAfter or LastBefore asks; for a comparator made from x that is start <= x < end or start < x <= end, and None exactly if x is outside the rope |
| Rope.Rope.PushBack | support/rope/src/lib.rs:187-190 | The sequence with x at the end |
| Rope.Rope.PushFront | support/rope/src/lib.rs:192-195 | The sequence with x at the front |
| Rope.Rope.PopBack | support/rope/src/lib.rs:199-208 | None exactly if empty; otherwise the old sequence is the new one with the result at its end |
| Rope.Rope.PopFront | support/rope/src/lib.rs:210-217 | None exactly if empty; otherwise the old sequence is the result followed by the new one |
| Rope.Rope.First | support/rope/src/lib.rs:219-226 | The first element of the sequence, if there is one |
| Rope.Rope.Last | support/rope/src/lib.rs:228-235 | The last element of the sequence, if there is one |
| Rope.Rope.GetWithOffset | support/rope/src/lib.rs:266-269 | The element with start <= x < end (FirstAfter x) or start < x <= end (LastBefore x) and the sum of the lengths before it, or None exactly if x is before or after the rope |
| Rope.Rope.UpdateWith | support/rope/src/lib.rs:312-319 | Replaces the element that covers x, handing f its offset, and gives the closure's result; None, with nothing changed, exactly if x is before or after the rope |
| Rope.Rope.Remove | support/rope/src/lib.rs:339-345 | Removes the element that covers x, and no other, and gives it with its offset; None, with nothing changed, exactly if x is before or after the rope |
| Rope.Rope.InsertBefore | support/rope/src/lib.rs:369-376 | Inserts before the element that covers x and gives the offset; nothing changes exactly if x is before or after the rope |
| RopeIter.SmallFits | support/rope/src/iter.rs:173-200 | Every rope of fewer than 2 * 8^16 elements can be iterated |
| RopeIter.PlaceOrder | support/rope/src/iter.rs:76-100 | Index arrays, padded with 0xff and with one-past-end all 0xff, are ordered as the places they stand for; equality is equality of places |
| RopeIter.CursorToIterCursor | support/rope/src/iter.rs:173-193 | The node path and index array for a cursor stand for the same place |
| RopeIter.MoveForward | support/rope/src/iter.rs:244-299 | Moves to the next place of the sequence, across nodes of any level, up to one-past-end |
| RopeIter.MoveBackward | support/rope/src/iter.rs:304-354 | Moves to the place before; from place 0 it ends up with an empty path, which is one-past-end |
| RopeIter.IterCursorGet | support/rope/src/iter.rs:357-363 | Gives the element of the sequence at the iterator's place |
| RopeIter.RoundedAt | support/rope/src/sel.rs:5-22 | For a reference value x and non-negative lengths: Floor is the last place that starts at or before x and the greatest element boundary that is at most x (0 if there is none), Ceil the first place that starts at or after x and the least boundary that is at least x (the end if there is none) |
| RopeIter.RoundEdge | support/rope/src/iter.rs:12-75 | For an edge made from x: Floor gives the greatest element boundary that is at most x, or 0, and Ceil the least that is at least x, or the end, with the path to that place; nothing exactly if x is before the rope, or at its start for Ceil; in general, the place that scanning the sequence gives |
| RopeIter.RangeWithCursor | support/rope/src/iter.rs:12-105 | For any pair of rounded or missing edges: the iterator runs over the contiguous stretch between the rounded edges, the end moved up to the start, and the offsets are the prefix sums at its ends; an edge made from x is rounded to the greatest boundary that is at most x (Floor) or the least that is at least x (Ceil); the start stays to be worked out exactly if the rope is empty or the start edge is missing or before it |
| RopeIter.IterWithCursor.Next | support/rope/src/iter.rs:372-404 | Gives the element at the front end with its cursor, and None exactly if the ends have met; the start of a rope that is not empty is worked out afterwards |
| RopeIter.IterWithCursor.NextBack | support/rope/src/iter.rs:412-453 | Gives the element at the back end with its cursor, and None exactly if the ends have met; after a None the back end is the end of the rope if the start has not been worked out, and stays otherwise |
| RopeIter.AfterNone | support/rope/src/iter.rs:412-453 | After a None from the back, the next call gives None too if and only if the start has been worked out or the rope is empty; otherwise it gives the last element of the rope |
| RopeIter.NotFused | support/rope/src/iter.rs:434-444 | On a rope of one element, a range without a start, or with one before the rope, gives that element, None, and that element again |
| RopeIter.TakeBothEnds | support/rope/src/iter.rs:372-453 | Any interleaving of both directions up to the first None: the range is what was taken from the front, what is left, and what was taken from the back reversed, without gap or repeat; it ends within its length |
| RopeValidate.ValidateSub | support/rope/src/misc.rs:24-78 | Accepts a node if and only if minimum counts, sibling kinds and offsets are right below it, and gives its length |
| RopeValidate.Validate | support/rope/src/misc.rs:14-20 | Accepts a rope if and only if its root is acceptable and its length is exact |
| RopeValidate.ValidateAccepts | support/rope/src/misc.rs:9-20 | Every rope the operations leave behind is accepted |
| RopeValidate.WellFormedIs | support/rope/src/lib.rs:60-125 | The documented invariants hold if and only if validate accepts, no node is overfull and all leaves are equally deep |
| RopeValidate.UnevenAccepted | support/rope/src/misc.rs:24-78 | validate accepts a concrete tree, not one the operations leave behind, that is not well formed at any height |
| LeakyPool.LeakyPool.constructor | support/leakypool/src/lib.rs:167-175 | An empty pool |
| LeakyPool.LeakyPool.Allocate | support/leakypool/src/lib.rs:177-210 | A pointer that was not in use is mapped to x and nothing else changes; it is the entry vacated last, or a new one |
| LeakyPool.LeakyPool.Deallocate | support/leakypool/src/lib.rs:212-238 | Gives what the pointer was mapped to, if anything, and unmaps it alone; a dangling pointer changes nothing |
| LeakyPool.LeakyPool.Get | support/leakypool/src/lib.rs:240-245 | What the pointer is mapped to, None for a vacant entry |
| LeakyPool.LeakyPool.Index | support/leakypool/src/lib.rs:258-268 | Never fails on a pointer in use |
| IntrusiveList.InsertRing | support/array_intrusive_list/src/lib.rs:205-250 | Rewriting the links around a place turns the ring of a sequence into the ring of the sequence with the item inserted |
| IntrusiveList.RemoveRing | support/array_intrusive_list/src/lib.rs:262-300 | Bypassing an item turns the ring of a sequence into the ring of the sequence without it |
| IntrusiveList.ListAccessorMut.Front | support/array_intrusive_list/src/lib.rs:173-175 | The first item of the sequence |
| IntrusiveList.ListAccessorMut.Back | support/array_intrusive_list/src/lib.rs:177-185 | The last item, found by following the first one's back link |
| IntrusiveList.ListAccessorMut.Insert | support/array_intrusive_list/src/lib.rs:205-250 | Inserts before any given item or at the end of the sequence; writes this link field of list members only |
| IntrusiveList.ListAccessorMut.PushBack | support/array_intrusive_list/src/lib.rs:252-254 | Appends to the sequence |
| IntrusiveList.ListAccessorMut.PushFront | support/array_intrusive_list/src/lib.rs:256-259 | Prepends to the sequence |
| IntrusiveList.ListAccessorMut.Remove | support/array_intrusive_list/src/lib.rs:262-300 | Deletes exactly that item from the sequence, also the first or only one, and clears its link |
| IntrusiveList.ListAccessorMut.PopBack | support/array_intrusive_list/src/lib.rs:302-304 | Takes the last item and clears its link, None exactly if empty |
| IntrusiveList.ListAccessorMut.PopFront | support/array_intrusive_list/src/lib.rs:306-308 | Takes the first item and clears its link, None exactly if empty |
| IntrusiveList.ListAccessorMut.Iterate | support/array_intrusive_list/src/lib.rs:617-705 | Iteration visits exactly the sequence and stops |
| IntrusiveList.ListAccessorMut.Drain | support/array_intrusive_list/src/lib.rs:708-748 | Gives as many items from the front as are taken; dropping it unlinks the rest, and no item keeps a link |
| IntrusiveList.OtherListsKept | support/array_intrusive_list/src/lib.rs:50-66 | A list threaded through another link field of the same nodes stays the same list |
| ListCell.ListAccessorCell.Insert | support/array_intrusive_list/src/lib.rs:471-513 | The Cell accessor inserts before any item or at the end, changing links of list members only |
| ListCell.ListAccessorCell.PushBack | support/array_intrusive_list/src/lib.rs:515-517 | Appends to the sequence |
| ListCell.ListAccessorCell.PushFront | support/array_intrusive_list/src/lib.rs:519-522 | Prepends to the sequence |
| ListCell.ListAccessorCell.Remove | support/array_intrusive_list/src/lib.rs:525-560 | Deletes exactly that item and clears its link |
| ListCell.ListAccessorCell.PopBack | support/array_intrusive_list/src/lib.rs:562-564 | Takes the last item and clears its link, None exactly if empty |
| ListCell.ListAccessorCell.PopFront | support/array_intrusive_list/src/lib.rs:566-568 | Takes the first item and clears its link, None exactly if empty |
| ListCell.ListAccessorCell.Iterate | support/array_intrusive_list/src/lib.rs:570-575 | Iteration visits exactly the sequence and stops |
| ListCell.ListAccessorCell.Clear | support/array_intrusive_list/src/lib.rs:577-582 | Empties the list and clears the link of every member and of no other node |
| ListCell.MutOthersKept | support/array_intrusive_list/src/lib.rs:205-308 | What the Mut accessor's operations leave alone, seen the way the Cell accessor states it |
| ListCell.SameEffect | support/array_intrusive_list/src/lib.rs:471-582 | Two operations on the same links that end with lists of the same sequence, and leave other nodes alone, end with the same head and the same links: the accessors have the same effect |
| CacheState.OneListOfEach | tcw3/images/src/img.rs:187-232 | Every live bitmap is in exactly one image list and one scale list, exactly once in each |
| CacheState.LeftOfScaleStep | tcw3/images/src/img.rs:275-298 | Deleting one bitmap during the walk over a scale's list keeps every other list intact, and the unwalked rest of the old ring readable |
| CacheState.LeftOfImgStep | tcw3/images/src/img.rs:333-358 | The same for the walk over an image's list |
| CacheState.BmpAdded | tcw3/images/src/img.rs:380-402 | A bitmap put into both lists extends the table by exactly its image and scale |
| ImageCache.Cache.OnlyKnown | tcw3/images/src/img.rs:187-232 | Bitmaps exist only for images in the cache and scales with a positive count |
| ImageCache.Cache.constructor | tcw3/images/src/img.rs:240-247 | An empty cache |
| ImageCache.Cache.DpiScaleAddRef | tcw3/images/src/img.rs:249-261 | The count of that scale is one more, or 1 if it is new; all other counts, the bitmaps and the images stay |
| ImageCache.Cache.DpiScaleRelease | tcw3/images/src/img.rs:263-312 | Counts one less; the last release forgets the scale and removes exactly its bitmaps from the table |
| ImageCache.Cache.DestroyScaleList | tcw3/images/src/img.rs:270-300 | The walk over the circular list reaches every bitmap of the scale and stops, although it frees what it walks over |
| ImageCache.Cache.DpiScaleFind | tcw3/images/src/img.rs:314-320 | Finds the scale if and only if it is in use |
| ImageCache.Cache.ImgAdd | tcw3/images/src/img.rs:322-326 | A new image without bitmaps; nothing else changes |
| ImageCache.Cache.ImgRemove | tcw3/images/src/img.rs:328-368 | Forgets the image and removes exactly its bitmaps from the table; counts stay |
| ImageCache.Cache.ImgFindBmp | tcw3/images/src/img.rs:370-378 | Looks the table up: the bitmap for image and scale, or None exactly if there is none |
| ImageCache.Cache.ImgAddBmp | tcw3/images/src/img.rs:380-402 | Extends the table by one entry for an image and a scale that had none |
| ImageHandles.Images.constructor | tcw3/images/src/img.rs:236-247 | No handles, no counts |
| ImageHandles.Images.New | tcw3/images/src/img.rs:46-54 | A new handle has no bitmaps; those of others stay |
| ImageHandles.Images.Place | tcw3/images/src/img.rs:75-78 | Gives a handle its image in the cache; no bitmap changes |
| ImageHandles.Images.Lookup | tcw3/images/src/img.rs:63-88 | The first half of new_bmp: refused exactly if it is called recursively on the same image, otherwise the cached bitmap if there is one |
| ImageHandles.Images.Store | tcw3/images/src/img.rs:90-106 | The second half, after other images may have been rendered and scales released: the bitmap is cached exactly if the scale is still in use, and is never there twice |
| ImageHandles.Images.Drop | tcw3/images/src/img.rs:117-125 | Removes exactly the handle's bitmaps |
| ImageHandles.Images.AddRef | tcw3/images/src/img.rs:143-150 | The count of a scale is one more, or 1 if it is new; no bitmap changes |
| ImageHandles.Images.Release | tcw3/images/src/img.rs:153-160 | Fails exactly on a scale not in use; the last release drops exactly the bitmaps of that scale |
| ImageHandles.Images.ComeAndGo | tcw3/images/src/img.rs:249-312 | After k uses and l releases of a scale its count has changed by k - l, and its bitmaps are gone exactly if the last user has gone |
| Harmony.RcHeap.constructor | harmony/src/lib.rs:71-79 | No cells, no owners |
| Harmony.RcHeap.New | harmony/src/lib.rs:76-79 | A cell with one owner, apart from all others |
| Harmony.RcHeap.MakeMut | harmony/src/lib.rs:86-91 | The owner ends up with a cell of its own and the same contents: the old cell if it was the only owner, a copy otherwise; every other cell stays |
| Harmony.RcHeap.Set | harmony/src/lib.rs:124-139 | Setting a field makes a new cell exactly if the old one is shared; all other owners keep seeing what they saw |
| Model.ReducedFields | stella2/src/model.rs:49-85 | Each action sets the one field it names: a width or height becomes x unless it holds the same number already, the sidebar is turned over, the preference window is hidden or turned over; every other field stays |
| Model.LastSet | stella2/src/view.rs:105-111 | After any run of actions, the last width and the last height that were set are those that stay |
| Model.Toggled | stella2/src/view.rs:105-111 | After any run of actions, the sidebar is turned over exactly if it was toggled an odd number of times |
| AppView.ReduceWnd | stella2/src/model.rs:66-85 | The window reducer sets the field that the action names and no other, and gives a cell with the outcome, moved exactly if the cell was shared and the field did not hold that number already |
| AppView.Store.MakeMutApp | harmony/src/lib.rs:86-91 | Copying a shared app state adds a reference to its window state |
| AppView.Store.SetMainWnd | harmony/src/lib.rs:124-139 | Replacing the window state hands over exactly one reference |
| AppView.Store.ReduceMainWnd | stella2/src/model.rs:49-56 | The field that the action names is set in the window state reached through an app state, without writing to a cell that anybody else refers to; the reference stays exactly if the field held that number already |
| AppView.Store.Reduce | stella2/src/model.rs:49-64 | Sets exactly the field that the action names, of the window or of the app state; all other owners of app and window states see what they saw before; the reference to the window state stays exactly if no field of it is set to something else |
| AppView.Store.ReduceAll | stella2/src/view.rs:105-111 | Any sequence of actions leaves a window state that is held elsewhere unchanged, and leads to another reference exactly if some action does more than assign what is there |
| AppView.AppView.constructor | stella2/src/view.rs:41-60 | The protocol starts in its initial state, with a strong reference of the scheduler to the current window state |
| AppView.AppView.Poll | stella2/src/view.rs:100-119 | All pending actions are applied. If none of them does more to the window state than assign the numbers it holds, the scheduler is left exactly as it was; otherwise there is one new generation with a timer of its own. Either way the scheduler's newest generation is the current window state, so no reducer run was missed, and it was sent to a writer or exactly one live timer carries it |
| AppView.AppView.TimerDue | stella2/src/config/viewpersistence.rs:290-310 | A timer firing is the protocol's step, and leaves the app state alone |
| AppView.AppView.WriterRuns | stella2/src/config/viewpersistence.rs:336-363 | Writers take steps of the protocol and leave the app state alone |
| AppView.AppView.Track | stella2/src/config/viewpersistence.rs:163-182 | Pointer comparison suffices: the update is one the protocol allows, and after it the scheduler's state has the contents of the current one |
| AppView.AppView.Quit | stella2/src/view.rs:68-75 | Quitting is a complete flush of the protocol; the disk then holds the current window state if and only if the last write succeeded, and surely if no file operation failed |
| Persistence.StepInv | stella2/src/config/viewpersistence.rs:140-378 | Every step of the main thread, a timer or a writer keeps the invariant: persisted <= requested <= main generation, at most one writer, at most one live timer, which carries the newest state |
| Persistence.UpdateIs | stella2/src/config/viewpersistence.rs:163-182 | An update to the window state that is known changes nothing at all; any other makes one new generation with that state, and a new timer with it is the only live one; nothing else changes |
| Persistence.RunInv | stella2/src/config/viewpersistence.rs:140-378 | The invariant holds after every run in every interleaving |
| Persistence.AssertionsHold | stella2/src/config/viewpersistence.rs:316-363 | Both debug assertions hold: a writer starts only after the previous one is done, with the newest state, and generations are logged in strictly increasing order |
| Persistence.DiskMonotone | stella2/src/config/viewpersistence.rs:336-363 | Over any run, failed writes included, the generation on disk never decreases, and the file is always the state of that generation, never a torn one |
| Persistence.PersistedIsLatest | stella2/src/config/viewpersistence.rs:140-182 | What the scheduler holds is the contents of the last state it was told of |
| Persistence.IdleState | stella2/src/config/viewpersistence.rs:188-201 | While the main thread is idle: requested equals main generation and no timer is live, or it is less and exactly one live timer carries the newest state; and what the disk then holds |
| Persistence.NoUpdateLost | stella2/src/config/viewpersistence.rs:163-182 | After every run from the start, the newest state has been sent to a writer or is carried by the one live timer |
| Persistence.Settled | stella2/src/config/viewpersistence.rs:316-363 | When nothing is left to do, all generations agree, and the file is the newest state if and only if the last write succeeded |
| Persistence.FailedWriteIsDropped | stella2/src/config/viewpersistence.rs:337-352 | A concrete run after which an update was never written and never will be |
| Persistence.FlushSaves | stella2/src/config/viewpersistence.rs:140-160 | If the file operations during a flush succeed, the disk holds the flushed state when it returns, whatever was going on before |
| Persistence.FlushOutcome | stella2/src/config/viewpersistence.rs:205-241 | When a flush returns, the disk holds the flushed state if and only if its own write succeeded |
| Persistence.WaitHasWaker | stella2/src/config/viewpersistence.rs:366-373 | Whenever the main thread is blocked, either it can proceed or a writer can take a step |
| Persistence.FlushEnds | stella2/src/config/viewpersistence.rs:205-241 | A flush returns after a bounded number of steps, in every interleaving |
| Persistence.QuietBound | stella2/src/config/viewpersistence.rs:269-363 | Without further updates, only a bounded number of steps other than postponing the timer can happen, in every interleaving |
| Persistence.RestIs | stella2/src/config/viewpersistence.rs:269-363 | Everything is at rest if and only if no step other than postponing is possible: until then a writer can go on or the timer can start one |
| Persistence.ComesToRest | stella2/src/config/viewpersistence.rs:269-363 | Every schedule that lets writers and timers have their turn ends at rest after at most seven such steps, with the newest state on disk if and only if the last write succeeded |
| Persistence.UpdatesPostpone | stella2/src/config/viewpersistence.rs:244-266 | A run of updates alone, however long, requests no write |
| PersistenceScheduler.PersistenceScheduler.constructor | stella2/src/config/viewpersistence.rs:125-136 | Starts as the protocol starts |
| PersistenceScheduler.PersistenceScheduler.HandleUpdate | stella2/src/config/viewpersistence.rs:163-182 | For the reference it holds already it changes nothing; for another one it counts up one generation, cancels the timer and starts a new one with that state, which the scheduler then holds |
| PersistenceScheduler.PersistenceScheduler.PersistTimerHandler | stella2/src/config/viewpersistence.rs:290-310 | Waits again while a writer is at work and otherwise starts one, as the protocol's step |
| PersistenceScheduler.PersistenceScheduler.CommitNewGeneration | stella2/src/config/viewpersistence.rs:250-263 | Cancels the last timer and counts up |
| PersistenceScheduler.PersistenceScheduler.StartPersistLatestGen | stella2/src/config/viewpersistence.rs:316-335 | Sends the newest generation to a writer, where none is at work |
| PersistenceScheduler.PersistenceScheduler.WriterStep | stella2/src/config/viewpersistence.rs:336-363 | A writer's file operations and its logging are enabled steps of the protocol |
| PersistenceScheduler.PersistenceScheduler.BlockUntilGenPersisted | stella2/src/config/viewpersistence.rs:366-373 | The wait ends with the generation persisted, and during it only writers took steps |
| PersistenceScheduler.PersistenceScheduler.Flush | stella2/src/config/viewpersistence.rs:140-160 | Ends; is a run of the protocol from begin to end; the disk holds the state if and only if the write succeeded, and surely if no file operation failed |
| StvgFormat.CurvesAppend | stvg/io/src/enc.rs:98-114 | Control points with on-curve flags determine the segments; adding a segment's points adds that segment |
| StvgFormat.FlagBytesAt | stvg/io/src/enc.rs:66-74 | Bit i % 8 of flag byte i / 8 says whether point i is on the curve |
| StvgFormat.PointRoundTrip | stvg/io/src/enc.rs:170-174 | Four little-endian bytes give the signed coordinates back |
| StvgFormat.PointBytesAre | stvg/io/src/enc.rs:170-174 | The bytes of a point: x, then y, each in two's complement with the low byte first |
| StvgEncoder.CmdEncoder.FinalizeOp | stvg/io/src/enc.rs:52-87 | Appends the bytes of the pending op, if any, and resets it |
| StvgEncoder.CmdEncoder.TakeBytes | stvg/io/src/enc.rs:47-50 | Gives the bytes of all ops and leaves a new encoder |
| StvgEncoder.CmdEncoder.Add | stvg/io/src/enc.rs:141-151 | Every command acts on the flags, colour and points as one packing step on ops; segments without an active contour are refused and change nothing |
| StvgEncoder.SharedBytes | stvg/io/src/enc.rs:52-139 | A colour, a fill, a new path and a contour that come in this order share one op; its bytes one by one |
| StvgEncoder.FlagOfEach | stvg/io/src/lib.rs:12-35 | The flag byte of each part of an op, and the parameters behind it |
| StvgEncoder.AcceptedIs | stvg/io/src/enc.rs:89-151 | A command list is accepted if and only if a scan for active contours and pending fills finds every segment in an active contour |
| StvgEncoder.ColorEndsContour | stvg/io/src/enc.rs:132-139 | For all lists: where a segment could come next, a colour set before it makes it an error if and only if a fill is pending |
| StvgEncoder.ColorWitnesses | stvg/io/src/enc.rs:132-139 | A list in which a segment after a colour is accepted, and one in which it is refused |
| StvgDecoder.CmdDecoder.constructor | stvg/io/src/dec.rs:28-39 | Starts at the front of the bytes |
| StvgDecoder.CmdDecoder.NextCurve | stvg/io/src/dec.rs:46-72 | Gathers control points up to the next one on the curve, or panics |
| StvgDecoder.CmdDecoder.Next | stvg/io/src/dec.rs:45-132 | On arbitrary bytes: one step of the decoding function, a panic exactly where that has one |
| StvgDecoder.Decode | stvg/io/src/dec.rs:45-132 | Iterating to the end or the first panic terminates on all bytes and gives what the decoding function gives |
| StvgRoundTrip.DecodeCurves | stvg/io/src/dec.rs:46-72 | The points of a contour decode to exactly its segments, whatever follows |
| StvgRoundTrip.DecodeOp | stvg/io/src/dec.rs:73-128 | The bytes of one op decode to its commands, in flag order, and exactly those bytes are consumed |
| StvgRoundTrip.DecodeEncoded | stvg/io/src/dec.rs:45-132 | The bytes of any number of ops decode to their commands, without a panic, and all bytes are consumed |
| StvgRoundTrip.DecodeConcat | stvg/io/src/dec.rs:45-132 | Decoding encoded ops with any bytes after them gives what the two give one after the other |
| StvgRoundTrip.DecodedRuns | stvg/io/src/dec.rs:86-104 | Whatever the bytes, no decoded contour has more than 65535 points |
| StvgRoundTrip.DecodesExactly | stvg/io/src/enc.rs:63-66 | Ops survive the round trip if and only if every contour has at most 65535 points |
| StvgValidity.RunsTaken | stvg/io/src/dec.rs:46-72 | The control points of a contour are taken without a panic exactly if the last is on the curve and so is one of any three in a row |
| StvgValidity.RestIs | stvg/io/src/dec.rs:73-128 | Taking one flag after the other, lowest first, amounts to: known flags only, at least one, and room for the colour and the contour they announce |
| StvgValidity.DecodesValid | stvg/io/src/dec.rs:7-10 | For all byte strings: the decoder gets to the end without a panic if and only if the data is valid, as told by a grammar of ops, lengths and segments |
| StvgRendering.PackingKeepsPicture | stvg/io/src/enc.rs:89-139 | Coalescing, with colours moved earlier and repeated BeginPaths merged, draws the same fills with the same final colour and path on any canvas |
| StvgRendering.OpsFitExactly | stvg/io/src/enc.rs:141-151 | The packed contours are within 65535 points if and only if those of the command list are |
| StvgRendering.RoundTrip | stvg/io/src/enc.rs:52-87 | For every command list whose segments belong to a contour: decoding gives the packed commands back if and only if no contour has more than 65535 points |
| StvgRendering.SamePicture | stvg/io/src/dec.rs:45-132 | For every such list within the limit, the decoded list renders identically on any canvas |
| StvgRendering.Pieces | stvg/io/src/enc.rs:46-50 | An output can be put in front of any bytes, another output among them: its commands are decoded first, then the rest as on its own |
| StvgRendering.LongContourIsLost | stvg/io/src/enc.rs:63-66 | A contour of 65536 lines does not survive |
| StvgRendering.EncodeAndDecode | stvg/io/src/enc.rs:155-161 | The encoder and decoder objects, put together, accept exactly the lists that the scan finds legal, and keep the picture |
| IterPool.Partition | support/iterpool/src/lib.rs:336-387 | Free list and used ring are disjoint, cover the storage, and agree with the entries' states |
| IterPool.UseRing | support/iterpool/src/lib.rs:336-364 | Linking a new entry after the first one and making it first turns ring [h] + t into [x] + t + [h] |
| IterPool.FreeRing | support/iterpool/src/lib.rs:366-387 | Bypassing an entry leaves the ring of the others in their order |
| IterPool.IterablePool.constructor | support/iterpool/src/lib.rs:288-296 | An empty pool |
| IterPool.IterablePool.WithCapacity | support/iterpool/src/lib.rs:297-311 | All entries are free, in ascending order |
| IterPool.IterablePool.Clear | support/iterpool/src/lib.rs:313-317 | Empties the pool |
| IterPool.IterablePool.Allocate | support/iterpool/src/lib.rs:336-364 | An unused index is mapped to x; iteration order [h] + t becomes [x] + t + [h]; the entry freed last is used first |
| IterPool.IterablePool.Deallocate | support/iterpool/src/lib.rs:366-387 | Exactly a used entry can be freed: its value is returned and it alone disappears from contents and order |
| IterPool.IterablePool.Get | support/iterpool/src/lib.rs:389-391 | The contents at an index, None if it is vacant or out of range |
| IterPool.PtrIter.constructor | support/iterpool/src/lib.rs:401-407 | Starts before the first entry |
| IterPool.PtrIter.Next | support/iterpool/src/lib.rs:474-495 | Gives the entries in order, each once, and None exactly after the last; the count of remaining entries does not run below zero |
| FixTime.LeIsLe | tcw3/pal/src/timerqueue.rs:239-256 | Comparing the values of non-negative binary64 numbers is comparing their bit patterns |
| FixTime.ToFpOrder | tcw3/pal/src/timerqueue.rs:239-256 | Time values are ordered by their patterns, all below the +infinity of a vacant slot, and come back unchanged |
| FixTime.DurationRounding | tcw3/pal/src/timerqueue.rs:184-203 | A duration is rounded down by less than 1024 ns, once |
| FixTime.DurationOrder | tcw3/pal/src/timerqueue.rs:184-203 | Rounding keeps the order of durations |
| FixTime.RoundedOrder | tcw3/pal/src/timerqueue.rs:184-203 | What is not later after rounding is less than 1024 ns later before it |
| FixTime.EarlyIs | tcw3/pal/src/timerqueue.rs:184-203 | There is a time before a start that counts as not before it if and only if the start is not a multiple of 1024 ns within its second |
| TimerQueue.IterBits | tcw3/pal/src/timerqueue.rs:435-445 | Lists exactly the bits that are set, in ascending order |
| TimerQueue.GroupBit | tcw3/pal/src/timerqueue.rs:449-463 | The folded word has bit g exactly if g is a multiple of four and one of the bits g to g + 3 is set |
| TimerQueue.IterBitGroups4Any | tcw3/pal/src/timerqueue.rs:449-463 | Lists, in ascending order, exactly the groups of four in which a bit is set; every set bit is in one of them |
| TimerQueue.FirstVacant | tcw3/pal/src/timerqueue.rs:276-290 | The trailing zeros of the inverted bitmap are the first vacant slot, and the bitmap is full exactly if all are taken |
| TimerQueue.TimerQueueCore.constructor | tcw3/pal/src/timerqueue.rs:259-269 | No tasks |
| TimerQueue.TimerQueueCore.Insert | tcw3/pal/src/timerqueue.rs:276-301 | The task takes the first vacant slot; refused exactly if all 64 are taken |
| TimerQueue.TimerQueueCore.Get | tcw3/pal/src/timerqueue.rs:303-312 | The payload in a slot, if there is one |
| TimerQueue.TimerQueueCore.Remove | tcw3/pal/src/timerqueue.rs:314-339 | Takes the task out of the slot and gives its payload, if there is one |
| TimerQueue.TimerQueueCore.RunnableTasks | tcw3/pal/src/timerqueue.rs:341-363 | The lane-wise scan finds exactly the tasks whose start has come, in ascending order |
| TimerQueue.TimerQueueCore.DrainRunnableTasks | tcw3/pal/src/timerqueue.rs:365-370 | Gives exactly the tasks whose start has come, each once, and keeps the others |
| TimerQueue.TimerQueueCore.SuggestNextWakeup | tcw3/pal/src/timerqueue.rs:372-390 | The four-lane minimum is the earliest deadline of all tasks, None exactly if there are none |
| TimerQueue.WakeUp | tcw3/pal/src/timerqueue.rs:642-701 | Waking up at the earliest deadline and draining runs each drained task within its interval and removes at least one |
| TimerQueue.RunAll | tcw3/pal/src/timerqueue.rs:642-701 | If every start is at most its end, repeated wakeups log every task exactly once, with its own payload and at a time within [start, end], in at most as many wakeups as tasks |
| TimerQueue.Packing | tcw3/pal/src/timerqueue.rs:141-154 | Slot and id can be read back from a handle |
| TimerQueue.PlusNanos | tcw3/pal/src/timerqueue.rs:94-97 | Adding durations adds their nanoseconds, with whole seconds carried over |
| TimerQueue.TimerQueue.constructor | tcw3/pal/src/timerqueue.rs:75-83 | No live and no issued handles |
| TimerQueue.TimerQueue.Insert | tcw3/pal/src/timerqueue.rs:85-102 | A handle that was never issued before, live with the interval asked for, shifted by exactly the elapsed time in nanoseconds and then rounded; refused exactly if all 64 slots are taken or ids have run out, and a refusal changes neither live nor issued handles; an id is used up either way |
| TimerQueue.TimerQueue.Remove | tcw3/pal/src/timerqueue.rs:104-115 | A handle gets its own payload if it is live and nothing otherwise, even if its slot has been used again; nothing else is affected |
| TimerQueue.TimerQueue.DrainRunnableTasks | tcw3/pal/src/timerqueue.rs:117-121 | Gives exactly the live handles whose rounded start has come, with their payloads: none 1024 ns or more before its nominal start, and all whose nominal start has come |
| TimerQueue.TimerQueue.SuggestNextWakeup | tcw3/pal/src/timerqueue.rs:123-127 | The earliest deadline of the live handles, never after a nominal end; None exactly if no handle is live |
| TimerQueue.RunsEarly | tcw3/pal/src/timerqueue.rs:85-121 | A run in which a task to be started after 1023 ns is drained at time 0 |
| TimerQueue.EachPayloadOnce | tcw3/pal/src/timerqueue.rs:85-121 | Over every run of insertions, removals and drains, a handle obtains its own payload and does so at most once |
| Utf16Count.Utf16Table | support/utf16count/src/lib.rs:9-30 | The packed table gives one, none or two units for each high nibble |
| Utf16Count.ContinuationTable | support/utf16count/src/lib.rs:32-52 | The packed table gives the continuation bytes for each high nibble |
| Utf16Count.ChunkLenIsLen | support/utf16count/src/lib.rs:87-122 | The 8-bit lane sums over 64 arbitrary bytes are at most 128 in all, so they do not wrap and equal the byte-wise count |
| Utf16Count.Utf16LenOfUtf8Str | support/utf16count/src/lib.rs:87-122 | The chunked and the plain loop both give the byte-wise count, for all byte strings |
| Utf16Count.FindUtf16PosInUtf8Str | support/utf16count/src/lib.rs:195-241 | The chunked and the plain forward search both give the byte-wise definition |
| Utf16Count.RFindUtf16PosInUtf8Str | support/utf16count/src/lib.rs:305-355 | The chunked and the plain backward search both give the byte-wise definition |
| Utf16Count.LenOfUtf8 | support/utf16count/src/lib.rs:60-122 | For valid UTF-8, the count is the number of UTF-16 units of the same scalar values |
| Utf16Count.FindBoundary | support/utf16count/src/lib.rs:124-241 | The forward search for the UTF-16 length of a prefix is its UTF-8 length, with any excess inside the next character reported |
| Utf16Count.FindAnswers | support/utf16count/src/lib.rs:124-241 | For every position: the answer is a scalar boundary; the excess is 0, or 1 exactly inside a surrogate pair, or what is left past the end |
| Utf16Count.PosFound | support/utf16count/src/lib.rs:141-151 | utf8_pos gives an index if and only if there is a scalar boundary at the position, which then is there |
| Utf16Count.RFindBoundary | support/utf16count/src/lib.rs:243-355 | The backward search for the UTF-16 length of a suffix is where it starts in UTF-8 |
| Utf16Count.RFindAnswers | support/utf16count/src/lib.rs:243-355 | For every position from the end: the answer is a scalar boundary, with the same three cases of excess |
| Utf16Count.RFindPair | support/utf16count/src/lib.rs:305-355 | Inside any surrogate pair, the backward search gives the index after the four bytes of the pair, with an excess of 1 |
| Utf16Count.NotTheSliceNamed | support/utf16count/src/lib.rs:249-268 | For every pair followed by four letters, the four bytes at that index are the letters |
| Utf16Count.BothWays | support/utf16count/src/lib.rs:195-355 | Both searches find the same place for the lengths of a prefix and the rest |

## Left out

- Rope indices are bytes in the original; `CursorLength` bounds them, so the model has plain numbers. Depth is bounded by `DepthBound`: operations on a rope of more than 16 levels, where the original panics, are not distinguished except in `RopeIter`, which requires room.
- RopeUpdate.UpdateSub: goes down recursively, where the original first walks down for the element and then again for the offsets.
- Comparators of the rope are total functions of the offset; ones with side effects are not modelled. `get_mut`, `Extend`, `FromIterator` and formatting would add only easy members.
- IterPool.IterablePool.Deallocate: an index out of range, and the state of a pool after the panic on a vacant one, are not modelled.
- Reserving capacity, and running out of memory, in pools and vectors.
- Token types of `LeakyPool`, which tell pools apart; all tokens match.
- Link fields are named by number instead of by closures; reading and writing them is total. Lists are drained eagerly (`ListAccessorMut.Drain` is told how many items are taken), where the original is a lazy iterator.
- DPI scales are opaque keys and bitmaps opaque values: the validation of floats (`DpiScale::new`) is not part of this model. That `new_bmp` may run other images' code between its halves is modelled by letting any operations happen between `Lookup` and `Store`.
- Persistence: JSON, paths, logging, locks and the thread pool; 64-bit overflow of generations; `restore_state` and `merge_into_app`; that writers and timers get their turn is a premise of `ComesToRest`. The window state inside the boxed `PersistedState` is the reference the scheduler holds; references that windows hold are taken and returned by the environment (`AppView.Acquire`, `AppView.Release`).
- Queueing actions until the next poll, and creating and updating windows in `AppView::poll`.
- TimerQueue.TimerQueue.Insert: times of 557,844 years and more, for which the original's debug assertions fail, are excluded. Running out of ids, where the original panics, is a refusal of its own.
- SIMD instructions are lane operations on sequences of bytes and of bit patterns; which of the two loops runs is a parameter.
- StellaVG: re-encoding decoded output need not be byte-stable, and is not claimed to be; the buffers' lifetimes and the `Extend` implementation for iterators that panic.
- Window systems, text layout, canvas drawing, stylesheets, views, the designer compiler, and thin or textbook crates such as `neo_linked_list`, `sorted_diff`, `minisort`, `unicount`, `cggeom`, `subscriber_list` and `alt_fp`.
