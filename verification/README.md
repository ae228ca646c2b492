# lite3-cpp: verified model of the in-buffer B-tree and what is built on it

lite3-cpp keeps documents in one growable byte array. Every object and array is a B-tree of 96-byte nodes inside that
array, entries ordered by (djb2 hash, key), keys and values appended as tagged records; nested objects and arrays are
further trees in the same bytes. This project models that array byte by byte, the loop that changes it, and the
iterator, the JSON import and export and the path proxies on top, and proves what they promise. The consistent-hash
ring of the repository is modelled separately.

How the parts stand on each other:

- `Bytes`, `Records`, `Nodes`, `Layout`, `Capacity`: the bytes. Which offsets hold a node and which a record, and
  what one copy into the array does to them. Bytes past the used size are zero, nodes and records never overlap.
- `Order`, `Trees`, `Zipper`, `Walk`, `Splits`, `Steps`, `Turns`, `Heights`, `Paths`, `Crowds`: a tree as a value,
  the tree around the node that is being visited, how node words represent both, every turn of the loop of `set_impl`,
  and how much of its path array a walk takes. `Digits`, `Spines`: the same for the trees of arrays, whose right spine
  counts their size.
- `Routes`, `Lookups`, `Refinement`, `Trails`, `Courses`: where a set lands, read off the tree before the call; what
  lookups find; when a set is a map update; which words of which nodes it touches and which nodes it adds.
- `Repair`, `Mended`: a route, and a loop on the same buffer, with the one wrong comparison of `set_impl` put right.
- `Forests`: all trees of one buffer, apart from each other. `Nestings`: where `set_obj` and `set_arr` put a root.
  `Readings`: what a lookup reads off node words that need not be a tree. `Generations`: the generation of the root at
  offset 0 over a run of calls.
- `Buffers` (class `Buffer`): the mutable state, with `set_impl` and `get_impl` as the loops of the source, proved
  against the modules above.
- `Stacks`, `Iterators` (class `Iterator`): the explicit stack and the generation check.
- `Runs`: many sets on one object, also during an enumeration of another. `Cases`, `Collisions`,
  `Remains`: runs of calls on a buffer that show where the code fails, step by step.
- `Documents`: a tree with its nested trees as a nested map. `JsonIO`, `Hex`, `Proxies`: import, export, hex text, and
  paths, all stated on documents; `RoundTrips`: import and export stated without them.
- `Ring` (class `ConsistentHash`).

## What the code does not keep

The evident intent is that a set is a map update, an iterator notices any change, and `set_obj` gives an empty object.
The model follows the code; these are the conditions it proves, with runs that fail in `Cases` and `Remains`.

- After a split `set_impl` goes on with a half chosen by the hash alone and never looks at the parent again. Call the
  median that a full node hands up bad for a key if it has the key's hash and does not come after the key (byte by
  byte, `Collisions`). A set in a sorted tree is a map update if and only if no full node on its walk hands up a bad
  median, or the value set is the one already read (`SetRefines`). Otherwise a duplicate or misplaced entry is left
  that no lookup reaches after the set (`SetLost`), and the damage stays within that hash (`DamageConfined`). The
  smallest case is setting the fourth of seven keys of a full root (`Cases.MedianLost`). Keys with a hash new to the
  object, array appends and walks through nodes with room are never affected. The same loop on the same bytes,
  comparing the whole (hash, key) with the median in the parent, is a map update always (`Mended.MendedSet`,
  `MendsMeans`) and differs only in these cases (`MendsRoute`).
- The key tag is one byte whatever the key's length, though the code computes larger tag sizes: it holds for keys of
  at most 62 bytes and for no longer key (`TagExact`).
- An iterator is guarded by the generation of the root at offset 0. It passes its check if and only if that generation,
  counted over all sets and appends of the buffer, is its own again (`Iterator.Deref`, `Generations`). So it passes after
  any calls on other trees (`Cases.NestedUnseen`), and it can pass after calls on the root's own tree once a split has
  set the generation back to 1 (`Cases.IteratorPasses`).
- `set_obj` and `set_arr` over a value whose record is one byte long, a Null, an object or an array, patch it in place
  and then clear 88 bytes behind it. All trees are there afterwards if and only if before the call no other tree had
  anything in the 96 bytes behind the record, the last 8 of them were zero, and the walk splits no node into them
  (`HasPlace`, `Buffer.SetNested`). Over an object or array, also one that a Null has replaced, that comes down to the
  last two child slots of its root being unset (`PlaceOverTree`). A root with a child left there reads as empty at
  first, and does not count as an empty tree: when it has as many entries again as the slot says, every greater key is
  looked up in what is left of the old tree (`HauntedReads`, `Remains.ArrayOverArray`). Over a Null that another
  record follows it never holds (`NoPlaceBefore`, `Cases.NullThenObject`). Trees that nothing names any more count as
  needed until they are dropped with `Buffer.Forget`.
- A string that reads as hex text is stored as bytes and comes back in lower case (`TextReturned` says exactly which
  texts come back unchanged), and integers that do not fit 32 bits are cut to their low half (`IntegerReturned`).

## Model

| member | source | states |
|---|---|---|
| Records.TagExact | src/buffer.cpp:331 | the one-byte key tag gives the key's length back exactly for keys of at most 62 bytes: both directions |
| Records.DecodeEncodeVal | src/buffer.cpp:337-349 | type, size, payload and terminator of every value read back as that value, whatever bytes follow |
| Records.DecodeEncodeRec | src/buffer.cpp:374-394 | a record written by either writer, with or without key, reads back as the same key, type and payload |
| Records.EncodedRec | src/buffer.cpp:328-349 | every byte of a record, without an encoder or decoder: 4 times the key length plus 4, the key, NUL, the type's number, the size lowest byte first, the payload, and a NUL behind a string |
| Records.RecParts | src/buffer.cpp:268-275 | wherever a record lies, skipping tag, key and NUL by the tag comes to exactly its value, and the key bytes are those after the tag |
| Records.StoredLenExact | src/buffer.cpp:278-296 | the length that the update branch computes from a stored type byte and size field is the true length of the stored value, for every type |
| Nodes.GenTypeWord | include/node.hpp:87-90 | the packed word splits back into the generation modulo 2^24 and the type byte |
| Nodes.WithSize | include/node.hpp:101-104 | writing the size keeps the low six bits, key count included, and stores the size modulo 2^26 |
| Nodes.WithKeyCount | include/node.hpp:115-118 | writing the key count keeps the size field and stores the count modulo 8 |
| Order.CompareKeysBytes | src/buffer.cpp:35-40 | one key comes before another exactly if it is a proper prefix of it or has the smaller unsigned byte where they first differ |
| Order.CompareKeysOrder | src/buffer.cpp:35-40 | so comparing keys is antisymmetric and transitive |
| Order.CompareOrder | src/buffer.cpp:14-40 | the (hash, key) order of the tree is total, antisymmetric and transitive |
| Order.SortedBytes | src/buffer.cpp:14-40 | a run is sorted exactly if hashes ascend and keys of one hash ascend byte by byte |
| Hash.Djb2Closed | src/utils/hash.cpp:5-11 | the hash is 5381 times 33 to the length plus each signed char times the power of 33 for the chars after it, modulo 2^32 |
| Hash.Djb2Hash | src/utils/hash.cpp:5-11 | the 32-bit loop, shifts and wrap-around included, computes that number |
| Hash.TwoLetterCollision | src/utils/hash.cpp:5-11 | the keys "Ab" and "BA" have the same hash, so collisions are real |
| Layout.PutWordImage | include/node.hpp:87-130 | writing one word of one node changes that word alone: every other node and every record keeps its bytes and the zero tail stays zero |
| Layout.PatchRecImage | src/buffer.cpp:298-315 | overwriting a value by one of the same length turns exactly its record into the record with the new value |
| Layout.AppendRecImage | src/buffer.cpp:319-350 | a record written at the end of the used part leaves all nodes and records as they were and adds exactly itself |
| Layout.BlankNodeImage | src/buffer.cpp:538-548 | clearing any part of the next 96 bytes past the used size gives an all-zero node, because those bytes are zero already |
| Layout.PadImage | src/buffer.cpp:146-153 | the bytes skipped to align a split's node stay zero and belong to nothing |
| Layout.VacateImage | src/buffer.cpp:543-548 | whatever lies in the 96 bytes behind a record can be given up without touching any other node or record |
| Layout.RootImage | src/buffer.cpp:538-551 | clearing 88 bytes and writing the type makes an empty root of any 96 bytes that nothing needs and whose last 8 are zero, free or not; every other node and record stays |
| Capacity.NewSize | src/buffer.cpp:79-86 | the size is unchanged if enough, and else the largest of twice the old one, what was asked for and 96 |
| Capacity.CopiedAtMostFinalSize | src/buffer.cpp:79-86 | over any run of requests, the sizes copied by all growths sum to at most the final size |
| Capacity.SizeFitsNeeds | src/buffer.cpp:79-86 | after any run the array fits every request and is less than twice the largest one, or has the minimum size |
| Zipper.PlugRun | src/buffer.cpp:126-132 | the in-order run of a tree is what lies before the visited node, the run of that node, and what lies after |
| Zipper.RepFrame | src/buffer.cpp:134-241 | a tree stays represented when the nodes it uses keep their words |
| Splits.SplitRun | src/buffer.cpp:189-241 | splitting a full child leaves the in-order sequence of the whole tree as it was, whichever half the walk goes on with |
| Splits.SplitShape | src/buffer.cpp:189-241 | both halves hold 3 entries and the parent one more, all leaves stay at one depth |
| Splits.SplitUses | src/buffer.cpp:198-200 | a split uses exactly one node more, the sibling, and no node twice |
| Splits.HighHolds | src/buffer.cpp:206-220 | the sibling's words hold the entries and children after the median, as the copy loop writes them |
| Splits.ParentHolds | src/buffer.cpp:222-232 | after the shifting loop the parent's words hold its entries with the median put at the child's place and the sibling right of it |
| Walk.ChildOnce | src/buffer.cpp:190-196 | the scan of the parent's child slots finds the visited child at its own place and nowhere before it |
| Walk.HeldRootSplit | src/buffer.cpp:164-187 | moving a full root out and pointing the cleared root at it represents the same tree one level deeper, the root at its old offset |
| Walk.HeldSplit | src/buffer.cpp:189-241 | after the three nodes of a split have been rewritten, the buffer represents the split tree, for both ways on |
| Steps.RootSplitStep | src/buffer.cpp:164-187 | a root split keeps the walk on course: same run, same place for the key, one level more |
| Steps.GoLowStep | src/buffer.cpp:238-241 | going on with the left half keeps the walk on course to the place that is read off the tree before the call |
| Steps.GoHighStep | src/buffer.cpp:238-241 | the same for the sibling |
| Steps.DescendStep | src/buffer.cpp:353-357 | the same for going down to a child |
| Steps.InsertEnd | src/buffer.cpp:396-403 | the leaf insert puts the entry into the in-order run of the original tree at the predicted place and keeps the tree's shape |
| Steps.UpdateEnd | src/buffer.cpp:253-351 | the update replaces the entry at the predicted place of the run and keeps the tree's shape |
| Steps.InsertAnswers | src/buffer.cpp:353-409 | an insert changes no lookup of another key that the run is in order for, and not that of its own when the walk was led astray |
| Steps.UpdateAnswers | src/buffer.cpp:253-351 | the same for an update |
| Turns.TurnSplit | src/buffer.cpp:189-241 | the half chosen by comparing the hash with the promoted hash is the one for which the loop invariant of set_impl holds again |
| Turns.PatchOutcome | src/buffer.cpp:298-315 | the in-place branch changes one record's value and no node, and achieves the call |
| Turns.RelinkOutcome | src/buffer.cpp:319-350 | the append branch changes one entry's offset and adds one record, and achieves the call |
| Turns.InsertOutcome | src/buffer.cpp:358-409 | the leaf insert achieves the call: all of the above with other trees' nodes untouched |
| Trails.OffSplit | src/buffer.cpp:189-241 | a split touches no node off the walk as it is read off the tree before the call |
| Trails.TrodBump | src/buffer.cpp:134 | on a walk without splits exactly the visited nodes have gained a generation so far, and nothing else in them has changed |
| Trails.TrodDescend | src/buffer.cpp:353-357 | and going down keeps that, no node being met twice |
| Trails.TrailEnds | src/buffer.cpp:104-411 | what a set does to nodes and used size: nodes off the walk keep every word; without splits the nodes on it gain one generation, an in-place update changes nothing more and takes no byte, an appended update moves one record offset, an insert adds one slot, and both take exactly the record's length |
| Heights.EntriesAtLeast | include/config.hpp:8-10 | a tree of h levels holds at least (lo + 1) * 4^(h-1) - 1 entries, lo being the least number in its root |
| Crowds.RoomForSet | src/buffer.cpp:122-127 | the 16 path slots are enough for every key and every tree of at most 218450 entries, whatever its shape |
| Crowds.SeventeenSlots | src/buffer.cpp:122-127 | a walk that needs a seventeenth slot, past the end of the array, is in a tree of at least 218451 entries |
| Crowds.OneTooMany | src/buffer.cpp:122-127 | and that is exact: a sorted tree of 218451 entries and a key whose walk needs seventeen |
| Paths.PushesByHeight | src/buffer.cpp:126-134 | a walk takes one path slot for each node and one more for each full one, at most two for each level |
| Digits.FewSevens | src/buffer.cpp:139-241 | of two neighbouring levels of an array's right spine at most one node is full: splits there are staggered |
| Spines.SpinePushes | src/buffer.cpp:126-134 | an append takes exactly one path slot for each level and one for each full node of the right spine |
| Spines.RoomForAppend | src/buffer.cpp:122-127 | so 15 of the 16 slots are enough for every append to an array below 2^26 elements |
| Spines.SpunLands | src/buffer.cpp:139-409 | an append keeps the array's tree what it is: three entries in every node off the right spine, and a spine that is a function of the size alone |
| Heights.HeightForIterator | include/iterator.hpp:41 | with at most 2097150 entries there are at most 10 levels, the depth of the iterator's stack |
| Routes.RouteFits | src/buffer.cpp:244-257 | the place predicted for a key is a place of the in-order run, and where it counts as found that entry has the key |
| Routes.RouteHash | src/buffer.cpp:238-241 | whatever the keys, the predicted place keeps the hashes of the run in order |
| Routes.RouteVerdict | src/buffer.cpp:238-241 | where the run is in order for the key the walk comes to the right place exactly when no full node hands up a bad median; otherwise the key is put before an entry that is not greater |
| Lookups.FindOrdered | src/buffer.cpp:420-463 | the walk of get_impl finds exactly what a scan of the in-order run finds, present or absent, for every key the run is in order for, whatever disorder there is elsewhere |
| Lookups.FindSorted | src/buffer.cpp:420-463 | in a sorted tree that is every key |
| Lookups.SearchInsert | src/buffer.cpp:245-251 | putting an entry where its search stops changes the search for no other key |
| Refinement.SetUpdates | src/buffer.cpp:104-411 | without a bad median the value is found, and the run stays in order for every key it was in order for |
| Refinement.SetLost | src/buffer.cpp:238-241 | with a bad median the key reads as before, and the run is no longer in order for it |
| Refinement.SetRefines | src/buffer.cpp:104-411 | a set in a sorted tree refines the map update if and only if no bad median is met or the value was there already; the tree stays sorted if and only if none is met |
| Refinement.AchievedMeans | src/buffer.cpp:104-411 | and in any tree whatever a set means key by key: other keys read as before, its own as set or as before, and which keys can still be asked for |
| Refinement.DamageConfined | src/buffer.cpp:238-241 | a set that set_impl has achieved, lost or not, does no harm beyond its own hash: in a tree whose hashes are in order every key of another hash is looked up and ordered as before |
| Refinement.SetKeepsHashOrder | src/buffer.cpp:104-411 | hashes of the in-order run stay non-decreasing over every set, lost ones included |
| Runs.SetAll | src/buffer.cpp:104-411 | a loop of sets on an object of a buffer, collisions and lost sets included: keys of untouched hashes read as before, and a member that is alone with its hash reads as set |
| Runs.RunRefines | src/buffer.cpp:104-411 | what a caller can check up front: sets of members with hashes of their own refine the updates of a map one after the other, whatever splits they meet, and leave a sorted object |
| Cases.MedianLost | src/buffer.cpp:139-241 | the failing run on a new buffer: seven members with hashes of their own, then the fourth in the order of the iterator is set again to any value; the lookup still gives the old one |
| Collisions.BadMedianBytes | src/buffer.cpp:238-241 | a median of the key's hash is bad for the key exactly if the key does not come before it byte by byte |
| Collisions.MedianOfItsHash | src/buffer.cpp:139-241 | a walk that meets a full node with such a median is led astray exactly if the key does not come before it, or the lower half leads it astray |
| Collisions.TwinOfMedian | src/buffer.cpp:139-241 | in a full leaf root whose median has the key's hash a set is a map update if the key comes before the median, and is lost if not |
| Collisions.SetTwin | src/buffer.cpp:104-411 | the run on a new buffer: seven members, then a key of the hash of the fourth is found if it comes before that one and not found if it comes after; the seven are found in any case |
| Collisions.AbAndBA | src/buffer.cpp:104-411 | "Ab" is found when "BA" is the fourth, "BA" is not when "Ab" is |
| Refinement.MedianOfFullRoot | src/buffer.cpp:139-241 | setting the fourth of the seven keys of a full root is always led astray |
| Refinement.FreshHashRoutes | src/buffer.cpp:238-241 | a key whose hash no entry has never meets a bad median |
| Refinement.RoomyWalkRoutes | src/buffer.cpp:139 | nor does a key whose walk meets no full node |
| Repair.RepairedExact | src/buffer.cpp:238-241 | a route that compares the whole (hash, key) with the median it hands up is right in every tree whose run is in order for the key, without a condition |
| Repair.RepairOnlyWhereNeeded | src/buffer.cpp:238-241 | that route and the one of set_impl come to the same place exactly when no bad median is met |
| Mended.MendedSet | src/buffer.cpp:104-411 | the loop of set_impl on the bytes with that one comparison put right: from any tree in order for the key it ends with a whole tree whose run has the entry where it belongs, whatever splits and medians it meets; record, other nodes, and the root's offset, type, size and generation are as after set_impl |
| Mended.MendsMeans | src/buffer.cpp:104-411 | so every mended set is a map update with no condition on medians: the key reads as set, all other keys as before, and no order is lost |
| Mended.MendsRoute | src/buffer.cpp:238-241 | it lands where the repaired route says, and where set_impl does exactly if set_impl meets no bad median |
| Buffers.Buffer.constructor | src/buffer.cpp:68-70 | an empty buffer is coherent: no nodes, records or trees |
| Buffers.Buffer.EnsureCapacity | src/buffer.cpp:79-86 | the array keeps its bytes as a prefix and takes the size that Capacity.NewSize says |
| Buffers.Buffer.SplitRoot | src/buffer.cpp:164-187 | the contents move to the next aligned offset, the array growing for two nodes and 128 bytes; the root keeps offset, type and size, has generation 1, no keys, one child, and zeros in all other slots |
| Buffers.Buffer.SplitNodes | src/buffer.cpp:198-234 | the three nodes of a split, word by word: the node keeps its first three entries, the sibling gets those above the median with their children and the node's generation and type, the parent the median and the sibling at the child's place; nothing else changes |
| Buffers.Buffer.SplitChild | src/buffer.cpp:189-236 | the buffer then represents the split tree for both ways on, no node but these three changes, and the promoted hash is the median's |
| Buffers.Buffer.FindSlot | src/buffer.cpp:244-254 | the linear search stops at the first entry not smaller than the key and says whether it is the key |
| Buffers.Buffer.RecordLayout | src/buffer.cpp:328-349 | in a valid buffer every record lies there byte by byte as written: tag, key, NUL, type number, size, payload, NUL |
| Buffers.Buffer.NodeLayout | include/node.hpp:34-40 | and every node: type and generation, hashes, size and key count, record offsets and child offsets at their places, lowest byte first, with the masks and shifts of the source |
| Buffers.Buffer.ExistingKey | src/buffer.cpp:30-35 | the key bytes that the comparator reads from a record are the record's key |
| Buffers.Buffer.ExistingLen | src/buffer.cpp:265-296 | the length of the value a record holds |
| Buffers.Buffer.ValueStart | src/buffer.cpp:268-275 | comparator, get_impl, in-place branch and iterator all come to the same value start |
| Buffers.Buffer.WriteRecord | src/buffer.cpp:328-349 | the writes of tag, key, NUL, type, size, payload and terminator add up to one copy of the encoded record, byte by byte as RecAt says |
| Buffers.Buffer.SetImpl | src/buffer.cpp:104-411 | the whole loop: split, restart, search, update, descend or insert. The tree keeps its shape and gets the entry at the place predicted from the tree before; record, other nodes, the root's offset, type, size and generation, returned value start and bytes used are as Achieved and Trail say, the nodes added as Sprawl says; the loop ends, and never exceeds the path on any tree and key whose walk needs at most 16 slots |
| Buffers.Buffer.InitStructure | src/buffer.cpp:88-97 | a new tree, empty, with generation 1, is added to the forest and nothing else changes |
| Buffers.Buffer.SetScalar | src/buffer.cpp:466-493 | only the tree at the given offset changes; its lookups change as SetRefines says; no byte of another tree's nodes changes; the root generation advances as NextGeneration says |
| Buffers.Buffer.PlaceRoot | src/buffer.cpp:538-551 | exactly which bytes the clearing and the type leave at n, wherever n is: 6 or 7, 1, then zeros up to byte 88, and no other byte changed; where nothing is needed there, a new empty root and nothing else changed |
| Buffers.Buffer.SetNested | src/buffer.cpp:535-563 | a set whose value is an empty tree, its root right behind the record, over anything that was there. If HasPlace held before, all trees are there, the new one empty and every other as before; if not, no reading of the bytes has all of them |
| Buffers.Buffer.Forget | src/buffer.cpp:535-563 | trees that nothing names any more can be dropped from what the bytes are asked to hold, so HasPlace need not protect them |
| Buffers.Buffer.AppendScalar | src/buffer.cpp:566-601 | the array's run is the old one and the new value at its end, under the next index; the size field follows, also through root splits |
| Buffers.Buffer.AppendNested | src/buffer.cpp:603-643 | the same, the element being a new empty tree |
| Buffers.Buffer.SearchTurn | src/buffer.cpp:244-411 | the turn of that loop at a node with room: it goes down to the child of the search place, or sets the entry there and all that is promised of the whole call holds |
| Courses.CourseSplit | src/buffer.cpp:189-241 | all that is accounted for on the way, nodes touched, generations, nodes added, bytes and path slots to come, still adds up after a child split, in the half that the hash chooses |
| Courses.CourseEnds | src/buffer.cpp:253-409 | and at the three ends of the walk it adds up to Trail, Sprawl and Appended |
| Buffers.Buffer.SetInLeaf | src/buffer.cpp:353-409 | the same turn at any root that lists its entries and has no child at the search place, tree or not: exactly one entry and one record are added, child slots stay |
| Buffers.Buffer.GetImpl | src/buffer.cpp:413-464 | the loop of get_impl on whatever the words of the nodes lead to: the value start of the entry it ends at, or nothing |
| Buffers.Buffer.Finds | src/buffer.cpp:413-464 | in a tree of the forest that is what Lookups.Find names, for every key |
| Readings.WalkedTree | src/buffer.cpp:413-464 | the words of a whole tree lead to what the tree holds |
| Buffers.Buffer.GetTyped | src/buffer.cpp:496-533 | the payload if the value found has the asked type, an error if it has another or there is none |
| Buffers.Buffer.GetNested | src/buffer.cpp:730-745 | the root offset of the nested tree, which is a tree of the forest of the asked kind, or an error |
| Buffers.Buffer.ReadRecord | src/iterator.cpp:140-218 | key, value offset and type are those of the record; none of the guards against bad offsets can fire |
| Forests.OtherOwned | src/buffer.cpp:104-411 | a set in one tree leaves every other tree of the buffer whole: nodes, records, order and root |
| Forests.OtherApart | src/buffer.cpp:104-411 | and the two still share no node and no record |
| Forests.SetPlanted | src/buffer.cpp:104-411 | so the forest stays a forest of separate trees over every set |
| Forests.AppendPlace | src/buffer.cpp:566-577 | the next index goes to the end of the array, and never meets a bad median |
| Forests.ArrayReads | src/buffer.cpp:646-649 | index i reads the i-th appended value for i below the size, and nothing from the size on |
| Forests.PlantedOneParent | src/buffer.cpp:535-551 | no nested tree is named by two entries, because records do not overlap |
| Nestings.PlaceNeeded | src/buffer.cpp:535-551 | if the bytes after set_obj can be read as all the wanted trees, then before the call no node and no record of another tree lay in the 96 bytes behind the record, the last 8 of them were zero, and no split was to put a node there |
| Nestings.RoomBehind | src/buffer.cpp:535-551 | and if so there is room for the root once the record is set, patched in place or new, with or without splits on the way |
| Nestings.PlaceOverTree | src/buffer.cpp:535-551 | over an object or array, or a Null where one was, set_obj gives an empty tree if and only if the root there has never used its last two child slots |
| Nestings.NoPlaceBefore | src/buffer.cpp:535-551 | a Null whose record another record follows has no place for a root |
| Nestings.RefilledWhere | src/buffer.cpp:538-551 | what set_obj leaves where there is room but the last 8 bytes are not zero: an emptied root that keeps its last two child slots, and everything outside its 96 bytes and the tree that was set |
| Readings.HauntedQuiet | src/buffer.cpp:413-464 | such a root with an old child at slot c reads as a leaf as long as it has fewer than c entries |
| Readings.HauntedReads | src/buffer.cpp:413-464 | and with c entries get_impl finds for every greater key what the old child holds for it |
| Remains.SetAgain | src/buffer.cpp:554-563 | set_arr over an array of 28 elements, grown by appends alone, gets there: no reading of the bytes has an empty array, and the root keeps the leaf of the last four elements |
| Remains.ArrayOverArray | src/buffer.cpp:353-464 | the failing run on a new buffer: 28 appends, set_arr again, six appends; index 27 of the array of size 6 reads the last of the 28 |
| Cases.NullThenObject | src/buffer.cpp:535-551 | the failing run on a new buffer: null under one key, a value under another, an object under the first; the second record has lost its key tag, and no reading of the bytes has both members |
| Cases.ObjectAgain | src/buffer.cpp:535-551 | object, Null, object under one key: that goes well, and the root is an empty object again |
| Nestings.NestedLinked | src/buffer.cpp:535-551 | a root put behind a record, over whatever was there, leaves every other link of the buffer valid, also if the kind of the tree changes |
| Iterators.Iterator.constructor | src/iterator.cpp:11-23 | the iterator stands at the first entry of the in-order run with the rest still to come, or is the end if there is none |
| Iterators.Iterator.FindFirst | src/iterator.cpp:77-100 | going down to the first leaf turns 'this whole subtree is next' into the stack that stands for it; a changed generation ends the iterator, whatever the stack holds |
| Iterators.Iterator.FindNext | src/iterator.cpp:102-228 | the next entry of what the stack stands for becomes current and is taken off; at the end, or after a change of generation, whatever the stack holds by then, the iterator is the end |
| Iterators.Iterator.Visit | src/iterator.cpp:220-227 | counting the index up and entering the right child takes exactly one entry off what is to come |
| Iterators.Iterator.Deref | src/iterator.cpp:30-52 | refused without a buffer and when the generation of the root at offset 0 differs, else the current entry; on a coherent buffer it passes if and only if the generation counted over all its sets and appends is the iterator's |
| Iterators.Begin | src/buffer.cpp:767-776 | an iterator over any object of the buffer, with the generation that the buffer's sets and appends so far add up to at offset 0 |
| Iterators.Iterator.Undisturbed | src/iterator.cpp:30-228 | calls that leave the iterator's own object as it was leave the stack fitting and what is to come unchanged, whatever they do to nodes, records and trees elsewhere |
| Runs.VisitWhileSetting | src/iterator.cpp:102-228 | a loop over one object that sets a member of another, not at offset 0, after every entry it visits: every entry of the first is visited once, in order, and the second has all the sets |
| Iterators.VisitAll | src/iterator.cpp:11-228 | begin to end visits exactly the in-order run of the object, each entry once, in order; that run is sorted by the hash of the keys |
| Stacks.TopGoesDown | src/iterator.cpp:92-99 | pushing the first child leaves the pending sequence as it was |
| Stacks.VisitPending | src/iterator.cpp:220-227 | advancing the top index splits the pending sequence into the visited entry, the right child's run and the rest |
| Stacks.StackAgain | src/iterator.cpp:77-137 | a stack of subtrees of a tree fits in any buffer that holds that tree |
| Stacks.PopPending | src/iterator.cpp:130-137 | popping a node that is done leaves the pending sequence as it was |
| Generations.DatedNext | src/buffer.cpp:134-187 | any set or append on any tree of a buffer: the generation at offset 0 goes on as Counted says, one up for a call on the root's own tree, back to 1 if that finds the root full, unchanged for a call on another tree |
| Generations.StaleWithoutSplit | src/iterator.cpp:35-38 | with no split of the root in between an iterator passes if and only if the calls at offset 0 since then are a multiple of 2^24, whatever calls there were on other trees |
| Generations.NestedUnnoticed | src/iterator.cpp:35-38 | calls on other trees alone are never noticed |
| Generations.StaleAfterSplit | src/buffer.cpp:170-172 | a root split restarts the count at 1, so after the last split only the calls at offset 0 since then decide |
| Generations.LastSplit | src/buffer.cpp:170-172 | every run of calls is of one of these two kinds |
| Cases.IteratorPasses | src/buffer.cpp:170-172 | an iterator taken after the first of nine sets of fresh keys on a new buffer is dereferenced after the ninth as if nothing had happened |
| Cases.NestedUnseen | src/buffer.cpp:767-776 | so is any iterator after a set in an object that is not at offset 0, also an iterator over that object |
| Cases.StaleEnds | src/iterator.cpp:30-126 | after a set in the root object that finds its root with room every iterator is refused, and ++ makes it the end |
| Hex.HexDecode | src/utils/hex.cpp:15-29 | fails exactly on odd length or a character other than 0-9, a-f, A-F; else each byte is made of two digits by their places in 0123456789abcdef, the upper four bits first |
| Hex.HexEncode | src/json.cpp:256-262 | two characters of 0123456789abcdef for each byte, by its upper and its lower four bits |
| Hex.DecodeDefined | src/utils/hex.cpp:8-29 | decoding succeeds if and only if the text has even length and only hex characters |
| Hex.DecodeEncode | src/utils/hex.cpp:15-29 | decoding an encoding gives the bytes back, for all byte strings |
| Hex.EncodeDecode | src/utils/hex.cpp:15-29 | encoding what was decoded gives the text back in lower case |
| Documents.DocFrame | src/buffer.cpp:79-86 | a tree whose own and linked trees are unchanged keeps its document, however the rest of the buffer changes |
| Documents.DictLanded | src/buffer.cpp:104-411 | one landed entry updates the document of its object at that key, if the members under other keys keep theirs |
| Documents.DictReads | src/buffer.cpp:413-464 | in a sorted object a lookup finds the document's member of that name, and none where there is none |
| JsonIO.StoredForm | src/json.cpp:106-136 | what a leaf is stored as: nothing for null, one byte 1 or 0 for a boolean, the 64-bit integer that is its low 32 bits, the bits of a double, the bytes of hex text, else the text up to its first NUL |
| JsonIO.FromMember | src/json.cpp:106-144 | importing one member makes the object's document that document with the one key set, whatever is nested in the value, integers narrowed and hex strings decoded, and no other tree of the buffer changes |
| JsonIO.FromItem | src/json.cpp:166-204 | importing one array element appends its document |
| JsonIO.FromContainer | src/json.cpp:146-227 | an imported object or array has the document of its JSON text, integers narrowed to 32 bits and hex strings decoded |
| JsonIO.FromJson | src/json.cpp:91-104 | the imported buffer is coherent and the tree at offset 0 has the document of the text, colliding hashes or not, integers narrowed and hex strings decoded; a scalar root leaves it empty, and where no hashes collide all objects are sorted |
| JsonIO.ToValue | src/json.cpp:229-271 | the JSON written for a stored value means the value's document, bytes shown as hex |
| JsonIO.KeyHere | src/json.cpp:63 | the pointer that the iterator hands out leads, up to the first zero byte of the buffer, to the entry's key |
| JsonIO.ToObject | src/json.cpp:264-271 | the loop over an object writes JSON that means the object's document: a member for each entry in the order of the iterator, its key read from the buffer, its value as stored |
| JsonIO.ToJson | src/json.cpp:49-65 | the same for the root object |
| RoundTrips.Import | src/json.cpp:91-227 | what is in the buffer after an import, without the functions of the import: elements in their order, members under their keys and no others, leaves as StoredForm says, nested trees likewise |
| RoundTrips.HasImported | src/json.cpp:106-227 | that holds of any tree whose document is that of the JSON |
| RoundTrips.RoundTrip | src/json.cpp:49-104 | for every JSON object without arrays, of any nesting, colliding hashes or not: export after import gives as many members, each under its key with its value; null, booleans and doubles are the same, integers the same modulo 2^32 and within 32 bits, texts the same up to a NUL but for hex text, which is in lower case |
| JsonIO.OnLeavesTwice | src/json.cpp:118-128 | changing the leaves of a document twice is changing them once by the composition, which joins import and export |
| JsonIO.ShownRecognised | src/json.cpp:118-128 | storing a text and writing it out again gives it up to its first NUL, in lower case if it reads as hex |
| JsonIO.TextReturned | src/json.cpp:118-128 | a text comes back unchanged if and only if it has no NUL and is not hex text of even length with an upper-case digit |
| JsonIO.TextLost | src/json.cpp:118-128 | one that does not: "AB" comes back as "ab" |
| JsonIO.IntegerSum | src/json.cpp:116-121 | the eight bytes of an integer, lowest first, in two's complement |
| JsonIO.NarrowedWraps | src/json.cpp:116-121 | an imported integer is congruent to the given one modulo 2^32 and lies within 32 bits |
| JsonIO.NarrowedKeeps | src/json.cpp:116-121 | an integer comes through the import if and only if it fits 32 bits |
| JsonIO.IntegerReturned | src/json.cpp:116-121 | and so it comes back from the round trip if and only if it does |
| JsonIO.IntegerLost | src/json.cpp:116-121 | one that does not: 2^31 comes back as -2^31 |
| Proxies.Child | src/value.cpp:31-36 | one step finds the object under the key or makes one there, over a value, an array or a Null with a place behind it too; its document is the member's if that was an object, else empty |
| Proxies.At | src/value.cpp:28-55 | indexing a proxy resolves that proxy, not the new one; nothing changes if the object is there; a proxy without key stands for the root at offset 0 |
| Proxies.Store | src/value.cpp:141-171 | assigning a keyed proxy sets that member of its object's document and leaves all other trees |
| Proxies.AssignFrom | src/value.cpp:28-55 | assignment through any number of keys turns the document of the first object into Put of that document, and changes only trees on the path |
| Proxies.AssignPath | src/value.cpp:28-55 | root[k1]...[kn] = v turns the root's document into the nested map update, the path can be read then, and every path that parts from it and could be read before still can |
| Proxies.KeptUp | src/value.cpp:28-55 | an assignment further down leaves the objects of all parting paths where lookups find them |
| Proxies.Convert | src/value.cpp:88-139 | a conversion gives the member's payload if it has the type, else false, zero or nothing |
| Proxies.ConvertPath | src/value.cpp:28-139 | reading a path of objects that are there reads the document and changes no byte |
| Proxies.GetPut | src/value.cpp:141-171 | reading the assigned path of an updated document gives the assigned value |
| Proxies.PutElsewhere | src/value.cpp:28-55 | a path that parts from the assigned one reads as before, present or absent |
| Proxies.AssignedReads | src/value.cpp:88-171 | what was assigned converts to its payload when read as its type and to false, zero or nothing otherwise; paths that part read as before |
| Proxies.SparedClosed | src/value.cpp:28-55 | trees off the path name only trees off the path, since no tree has two parents |
| Ring.ConsistentHash.AddNode | include/lite3/ring.hpp:28-34 | the ring is the old one with the node's virtual points put over whoever was there |
| Ring.ConsistentHash.RemoveNode | include/lite3/ring.hpp:36-44 | exactly the node's points are gone |
| Ring.ConsistentHash.GetNode | include/lite3/ring.hpp:46-57 | lower bound with wrap-around gives the owner: the node of the nearest point going up and round, or 0 on an empty ring |
| Ring.LowerBoundIsNearest | include/lite3/ring.hpp:50-56 | lower bound or else first point, and nearest point on the circle, are the same |
| Ring.WithNodePoints | include/lite3/ring.hpp:28-34 | which points the ring has after an add and who owns each |
| Ring.AddMovesOnlyToNew | include/lite3/ring.hpp:28-34 | adding a node leaves the owner of a key or makes it the new node, for every ring, key and hash function |
| Ring.RemoveMovesOnlyItsOwn | include/lite3/ring.hpp:36-44 | removing a node keeps every key of another node where it was, across the wrap-around too |
| Ring.RemovedOwnsNothing | include/lite3/ring.hpp:36-57 | a removed node owns nothing, but for node 0 on a ring left empty |
| Ring.AddRemoveRestores | include/lite3/ring.hpp:28-44 | adding and removing an absent node restores the ring if and only if none of its points was taken |

## Left out

- Mended.MendedSet: stands for no code of the repository; the path array, which nothing reads, is left out, and other trees of the buffer are not followed through it.
- Records.EncodeRec: keys longer than 62 bytes are excluded wherever a record is written, since no longer key can be read back (`TagExact`).
- Buffers.Buffer.SetImpl: requires that the walk of the key needs at most 16 slots of the path array, which the code does not check, and 1152 bytes below 2^32, since offsets are stored in 32 bits. Every tree of at most 218450 entries (`RoomForSet`; one of 218451 need not) and every append below 2^26 elements meets the first.
- Buffers.Buffer.SetNested: where there is no place it promises what the tree would have to be and that the bytes do not hold it, and, where only the last 8 bytes are at fault, which nodes and records are left (`Refilled`); of later calls on such bytes `Readings` and `Remains` show lookups and leaf inserts.
- Buffers.Buffer.GetTyped: the two messages stand for all exceptions of the typed getters; `get_bytes`, which returns an empty span where the others throw, is covered by the same cases.
- Buffers.Buffer.AppendScalar: requires the size after the append to be below 2^26, past which the size field wraps around.
- Refinement.SetRefines: speaks of sorted trees; in any other a set is characterised key by key (`SetMeans`), for the keys the run is in order for.
- Iterators.Begin: iterators over arrays are not modelled, as array records have no key tag to read; `operator==` is used only to compare with the end.
- Iterators.Iterator.FindNext: for an iterator whose check passes although its own tree has changed nothing is said about what ++ reads; the model proves enumeration as long as that tree is as it was, whatever happens to others.
- JsonIO.FromJson: requires keys of one object to differ, as they do after the parser, keys of at most 62 bytes, and a bound on the bytes that is safe rather than tight; numbers are the eight bytes that the parser has made of them, so parsing and printing of numbers are not modelled.
- JsonIO.ToValue: export of arrays is not modelled; the code skips root arrays and reads the elements of nested ones at the wrong offset.
- JsonIO.ToJson: an empty buffer or a root that is no object; the JSON text itself is printed by a library and not modelled.
- RoundTrips.RoundTrip: arrays are excluded for the same reason; `FromContainer` does cover their import.
- Proxies.At: proxies for array elements are not modelled; assigning through one always appends.
- Proxies.AssignPath: requires the objects on the path to be sorted and, where a member is set, no bad median and a place for the root of a new object; elsewhere the code itself loses the set or damages the buffer.
- Ring.ConsistentHash: the hash function is a parameter; `is_owner` and `size` only wrap what is modelled.
- Observability, logging and metrics: side effects that do not touch the data.
- Construction of a buffer from bytes that come from elsewhere: nothing is known about such bytes.
- `Object::contains`, `get_type` of a missing key and `Array::size`: uninitialised results or placeholders.
- `include/packed_node_layout.hpp`, which no file includes, and declared functions without definition.
- Pointer aliasing, unaligned access and views invalidated by growth: bytes are values here.
- Failing allocation and 64-bit overflow of sizes.
- djb2 is modelled with signed char, as on the usual x86-64 targets.
