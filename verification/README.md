# libubox and libuci, verified

A Dafny model of the data structures, the event loop and the file formats in
`sample_code/libubox` and `sample_code/libuci`, with proofs of what they promise.
`dafny verify dfyconfig.toml` checks all of it.

- **AVL tree** (`AvlShape`, `AvlRotate`, `AvlBalance`, `AvlOrder`, `List`, `Avl`): nodes on
  the heap with parent, child, balance, leader and list links. A ghost tree and a ghost
  sequence say what the pointers mean; every operation keeps the search tree exact and
  balanced, and the ring equal to its walk with the groups of equal keys.
- **safe_list** (`SafeChain`, `SafeTrace`, `SafeList`): iterators on chains of entries. An
  iteration is a sequence of steps between which any other operation may happen.
- **ustream** (`Ustream`): the chain of buffers as a plain byte sequence, written to a callback
  that may answer anything.
- **blob and blobmsg** (`BlobWire`, `Blob`): a recursive serializer, the builder that has to
  agree with it byte by byte, and the accessors that undo it.
- **uloop** (`UloopTimer`, `UloopFd`): the timer list under a rounding comparison, and
  re-entrant delivery of events. Callbacks are not modelled as code: an operation runs up
  to the call of a callback, anything may happen then, and `Return` goes on from there.
- **runqueue** (`RunQueueSpec`, `RunQueueAwake`, `RunQueueRuns`, `RunQueueKill`, `RunQueue`): the
  same, with the unreturned calls on an explicit stack. Every operation is a function of the
  state; the class is proved to compute it, and the other modules prove what runs of these
  functions come to. A missing callback of a task is one that does nothing.
- **libuci** (`UciText`, `UciParse`, `UciConfig`, `UciMeaning`, `UciImport`, `UciDelta`): the
  parser works in place on its line buffer and fetches lines from a character sequence.
  Ghost parameters name the text that is expected; when it is there, the result is exact,
  and for any other text the bounds still hold. `UciMeaning` tells the contents of a package
  from the statements of its file alone.
- **md5** (`Md5Rfc`, `Md5Laws`, `Md5`): RFC 1321 as a definition, what that amounts to in bits,
  bytes and numbers, and the streaming code.

Where the code does something else than expected, it is modelled as it is and the exact
condition is proved:

- Switching a descriptor between level and edge triggering inside its own callback can
  leave two live frames or overlooked events (`UloopFd.Uloop.FdAdd`, an if and only if, with
  the runs `UloopFd.TwoLiveFrames` and `UloopFd.OverlookedEvents`).
- A task that becomes the first pending one while `runqueue_kill` cancels the pending tasks
  can be stranded. A kill is exposed if no kill inside it is still to begin with the pending
  tasks and no call around it will look for tasks to start. Then, and only then, the task is
  in danger (`RunQueue.Queue.Add`), and it can indeed be lost (`RunQueueAwake.Stranded`, for
  any limit but a negative one, which lets nothing start, and the run
  `RunQueue.KillLosesWakeup`).
- When a file opens the same section a third time, the option lines behind that belong to no
  section and are errors, like those in front of every section (`UciMeaning.RunSays`, an if
  and only if).
- Empty option strings and empty lists do not survive an export (`UciConfig.RereadSame`).
- A change record of a package whose name starts with `-` is not read back as it was
  (`UciDelta.TupleBack`).
- `ustream_free_buffers` leaves stale counters (`Ustream.BufList.FreeBuffers`).
- `uloop_timeout_set` may store 1000000 microseconds, and fields outside 0..999999 do no
  harm: the order of the list needs no assumption on them.

## Model

| member | source | states |
|---|---|---|
| `AvlShape.HeightBound` | sample_code/libubox/avl.c:352-375 | A balanced tree of height h has at least Fib(h + 2) - 1 nodes, which bounds every descent. |
| `AvlShape.PlugWalk` | sample_code/libubox/avl.c:377-439 | Replacing a subtree replaces exactly its part of the in-order walk. |
| `AvlRotate.TurnRight` | sample_code/libubox/avl.c:377-407 | The two balances computed by the right rotation are the height differences of the rotated tree, whatever the balances were. |
| `AvlRotate.TurnLeft` | sample_code/libubox/avl.c:409-439 | The same for the left rotation. |
| `AvlRotate.RotatedRight` | sample_code/libubox/avl.c:377-407 | After the six pointer writes of a right rotation every parent and child pointer of the whole tree is consistent again. |
| `AvlRotate.RotatedLeft` | sample_code/libubox/avl.c:409-439 | The same for the left rotation. |
| `AvlRotate.Substituted` | sample_code/libubox/avl.c:316-345 | A node outside the tree that takes over the five links of a tree node stands in its place. |
| `AvlBalance.DoubleRight` | sample_code/libubox/avl.c:465-467 | A left subtree that is one too high and leans right: two rotations restore balance and height. |
| `AvlBalance.DoubleLeft` | sample_code/libubox/avl.c:485-486 | Mirror image of DoubleRight. |
| `AvlBalance.Settle` | sample_code/libubox/avl.c:441-570 | When a subtree has the height its surroundings were balanced for, the whole tree is balanced and nothing above needs a change. |
| `AvlBalance.AfterMin` | sample_code/libubox/avl.c:702-727 | The walk after the successor is removed from the right subtree and spliced in for the deleted node is the old walk without that node. |
| `AvlOrder.WalkThreads` | sample_code/libubox/avl.c:239-298 | A list whose leaders are the tree walk is that walk with every leader followed by its group of equal keys. |
| `AvlOrder.FitsSlot` | sample_code/libubox/avl.c:250-298 | The place where the tree search hangs a node in is the place behind all entries that are not greater. |
| `AvlOrder.PutLeads` | sample_code/libubox/avl.c:250-298 | Inserting there changes the leaders by exactly the new node, and only if its key is new. |
| `AvlOrder.CutLeads` | sample_code/libubox/avl.c:305-350 | Deleting an entry changes the leaders by exactly that entry: it vanishes, or its successor in the group follows it. |
| `AvlOrder.SwapWalk` | sample_code/libubox/avl.c:311-345 | A successor with an equal key may take the place of a leader in the strict search tree. |
| `Avl.AvlTree.constructor` | sample_code/libubox/avl.c:90-99 | An empty tree and an empty ring. |
| `Avl.AvlTree.RotateRight` | sample_code/libubox/avl.c:377-407 | Turns the subtree at the node, keeps all pointers and stored balances exact, and leaves the nodes above alone. |
| `Avl.AvlTree.RotateLeft` | sample_code/libubox/avl.c:409-439 | Mirror image. |
| `Avl.AvlTree.PostInsert` | sample_code/libubox/avl.c:441-487 | Called on a subtree that grew by one level; afterwards the whole tree is balanced, exactly linked, every stored balance is right and lies in -1..1, and the walk is unchanged. |
| `Avl.AvlTree.PostDelete` | sample_code/libubox/avl.c:510-570 | The same for a subtree that lost one level. |
| `Avl.AvlTree.LocalMin` | sample_code/libubox/avl.c:572-579 | Finds the leftmost node of a subtree. |
| `Avl.AvlTree.TakePlace` | sample_code/libubox/avl.c:316-345 | A node outside the tree takes over the place of a tree node. |
| `Avl.AvlTree.DeleteWorker` | sample_code/libubox/avl.c:592-728 | Takes a node out, with no, one or two children, and leaves a balanced exact tree whose walk is the old one without the node. |
| `Avl.AvlTree.FindRec` | sample_code/libubox/avl.c:352-375 | Where a search ends: at the equal key, or at a node that has no child on the side of the key; one comparison for each node on the way, at most the height. |
| `Avl.AvlTree.Search` | sample_code/libubox/avl.c:352-375 | The search ends at depth d - 1 after d comparisons, and Fib(d + 2) <= leaders + 1. |
| `Avl.AvlTree.Insert` | sample_code/libubox/avl.c:218-298 | Returns -1 exactly for a key that is there when duplicates are not allowed; otherwise the list gains the node behind all entries that are not greater, and all invariants of tree, list, leaders and count hold. |
| `Avl.AvlTree.Delete` | sample_code/libubox/avl.c:305-350 | The list loses exactly the node, and all invariants hold, also when a duplicate takes over its links. |
| `Avl.AvlTree.HandOver` | sample_code/libubox/avl.c:312-343 | A leader with a duplicate: the next node of the group becomes leader and takes its links. |
| `Avl.AvlTree.Uproot` | sample_code/libubox/avl.c:345-347 | A leader without duplicates leaves the tree. |
| `Avl.AvlTree.Remove` | sample_code/libubox/avl.c:503-508 | The node leaves the ring, and the count goes down. |
| `Avl.AvlTree.JoinRun` | sample_code/libubox/avl.c:251-261 | A duplicate joins its group at the end. |
| `Avl.AvlTree.Find` | sample_code/libubox/avl.c:113-125 | The first node of the group with the key, or none exactly if the list has no such key; the comparisons are the depth of the node where the search ends, plus one, and logarithmically many. |
| `Avl.AvlTree.FindLessEqual` | sample_code/libubox/avl.c:135-167 | The last list entry whose key is not greater, or none exactly if there is none. |
| `Avl.AvlTree.FindGreaterEqual` | sample_code/libubox/avl.c:177-209 | The first list entry whose key is not less, or none exactly if there is none. |
| `AvlOrder.IsSlot` | sample_code/libubox/avl.c:135-167 | The position that Insert and FindLessEqual go by is the one behind all keys that are not greater and in front of the first that is. |
| `AvlOrder.IsLowSlot` | sample_code/libubox/avl.c:177-209 | The position FindGreaterEqual answers with is the one behind all smaller keys and in front of the first that is not. |
| `Avl.AvlTree.ListIsWalk` | sample_code/libubox/avl.c:239-298 | In every state the list is the in-order walk of the leaders, each followed by its group, and count is its length. |
| `List.ListInsert` | sample_code/libubox/list.h:94-103 | Inserting between two neighbours of a ring makes the ring of the longer sequence. |
| `List.ListDel` | sample_code/libubox/list.h:80-92 | Deleting an entry makes the ring of the shorter sequence and clears the links of the entry. |
| `List.InitListHead` | sample_code/libubox/list.h:54-58 | A lone head is the ring of the empty sequence. |
| `SafeChain.Parks` | sample_code/libubox/safe_list.c:27-44 | Pushing an iterator on the chain of an entry keeps every iterator on exactly one chain, with exact back pointers. |
| `SafeChain.Unparks` | sample_code/libubox/safe_list.c:46-52 | Unlinking one does too. |
| `SafeChain.Splices` | sample_code/libubox/safe_list.c:95-121 | Moving a whole chain in front of the chain of the successor does too, and every moved iterator gets the successor as its next entry. |
| `SafeTrace.Loses` | sample_code/libubox/safe_list.c:94-121 | A deletion before an entry is reached, or after, keeps an iteration on track. |
| `SafeTrace.Grows` | sample_code/libubox/safe_list.c:82-92 | So does an insertion anywhere. |
| `SafeTrace.Ends` | sample_code/libubox/safe_list.c:61-80 | An iteration on track with nothing ahead has reached every entry it began with, once and in order, except those deleted before they were reached. |
| `SafeList.List.constructor` | sample_code/libubox/safe_list.c:61-80 | An empty list without iterations. |
| `SafeList.List.SetIterator` | sample_code/libubox/safe_list.c:27-44 | The iterator is parked on the successor of the entry and nothing else changes. |
| `SafeList.List.DelIterator` | sample_code/libubox/safe_list.c:46-52 | The iterator is on no chain any more and nothing else changes. |
| `SafeList.List.Del` | sample_code/libubox/safe_list.c:94-121 | The entry goes; every iteration under way stays on track, with a saved next entry that is in the list or the head. |
| `SafeList.List.Add` | sample_code/libubox/safe_list.c:82-86 | The entry comes last; every iteration stays on track. |
| `SafeList.List.AddFirst` | sample_code/libubox/safe_list.c:88-92 | The entry comes first; every iteration stays on track. |
| `SafeList.List.Begin` | sample_code/libubox/safe_list.c:61-80 | An iteration visits the first entry and is on track. |
| `SafeList.List.Step` | sample_code/libubox/safe_list.c:61-80 | It goes on to its saved next entry, which is live; at the head it is complete: all entries it began with and not deleted before being reached, once, in list order. |
| `SafeList.List.Break` | sample_code/libubox/safe_list.c:61-80 | A callback that breaks off leaves all other iterations on track. |
| `Ustream.ContentAppend` | sample_code/libubox/ustream.c:384-409 | Bytes put behind the data_tail buffer are the last bytes of the stream. |
| `Ustream.BufList.AddBuf` | sample_code/libubox/ustream.c:38-72 | A fresh buffer at the end; data_tail is set only when there was none. |
| `Ustream.BufList.PrepareBuf` | sample_code/libubox/ustream.c:242-275 | Keeps the bytes and the shape of the chain; success means room at data_tail, and for len >= 1 failure means the last buffer is full to its last byte and as many buffers are there as are allowed. |
| `Ustream.BufList.Compact` | sample_code/libubox/ustream.c:248-257 | The move to the front keeps the bytes. |
| `Ustream.BufList.FreeFirst` | sample_code/libubox/ustream.c:166-185 | The first buffer goes, and if fewer than min_buffers are left it comes back empty at the end; the others stay as they are. |
| `Ustream.BufList.Drop` | sample_code/libubox/ustream.c:206-232 | Exactly the first n bytes go. |
| `Ustream.BufList.FreeBuffers` | sample_code/libubox/ustream.c:74-87 | The counters are not reset: the invariant holds afterwards exactly if the chain was empty. |
| `Ustream.BufList.WriteBuffered` | sample_code/libubox/ustream.c:384-409 | A prefix is appended; it is shorter only if the chain is full. |
| `Ustream.BufList.FillRead` | sample_code/libubox/ustream.c:292-317 | The bytes the reader delivered are appended; it fails exactly if there is no room for them. |
| `Ustream.Ustream.constructor` | sample_code/libubox/ustream.c:109-141 | Nothing held, nothing promised. |
| `Ustream.Ustream.Reserve` | sample_code/libubox/ustream.c:277-290 | Keeps the bytes; for len >= 1 there is positive room, or the last buffer is full and as many are there as are allowed; reading is blocked afterwards exactly if it was or there is no room. |
| `Ustream.Ustream.GetReadBuf` | sample_code/libubox/ustream.c:319-334 | The unread bytes of the first buffer, which are the front of all unread bytes; empty only if there are none. |
| `Ustream.Ustream.Consume` | sample_code/libubox/ustream.c:206-232 | Drops exactly len unread bytes, or fails exactly if there are fewer; reading goes on after any bytes were dropped, and only then. |
| `Ustream.Ustream.Write` | sample_code/libubox/ustream.c:411-434 | While none are held, the callback is asked, and exactly the prefix it takes is sent; a negative answer, and nothing else, is a write error. The rest is held, and what was reported accepted is exactly what was sent and what is held; less than all only if the buffers are full. |
| `Ustream.Ustream.WritePending` | sample_code/libubox/ustream.c:343-382 | For any callback that accepts any prefix: exactly the bytes it takes in the calls of Offers are sent and leave the front of what is held; a negative answer is a write error, and nothing else is. |
| `Ustream.OffersTile` | sample_code/libubox/ustream.c:351-373 | Each call offers the bytes that follow those accepted before, and says whether a buffer follows; another call comes exactly if it takes all of them and some are left. |
| `BlobWire.SizeAligned` | sample_code/libubox/blob.h:113-122 | Every serialized attribute has a multiple of four bytes. |
| `BlobWire.SerSnoc` | sample_code/libubox/blob.c:123-134 | Adding an attribute appends its bytes. |
| `BlobWire.ParseSer` | sample_code/libubox/blobmsg.h:49-84 | Reading a serialized attribute gives the attribute. |
| `BlobWire.ParseSerAll` | sample_code/libubox/blob.h:242-254 | Walking the bytes of a list of attributes, nested ones included, returns the same types, names and values in order. |
| `BlobWire.SerBytes` | sample_code/libubox/blob.h:46-53 | The bytes of an attribute by value: 0x80 plus the type (1 for an array, 2 for a table), the length in three bytes, big endian, without the padding for a field and with all children for a table or array, then the length of the name in two bytes, the name, zeros, the data, zeros. |
| `BlobWire.NumberBack` | sample_code/libubox/blobmsg.h:172-198 | A number of 8, 16, 32 or 64 bits that was added is what the getter of its size returns from the attribute that is read. |
| `BlobWire.BeBytes` | sample_code/libubox/blobmsg.h:101-126 | The bytes of a number, the most significant first. |
| `BlobWire.CopyReads` | sample_code/libubox/blobmsg.h:134-139 | A table that is added as a value with its bytes is read like the table. |
| `Blob.BlobBuf.Grow` | sample_code/libubox/blob.c:21-30 | The old bytes stay at their offsets, at most 256 zeros more than asked for come behind them, and the size stays a multiple of 256. |
| `Blob.BlobBuf.SetRawLen` | sample_code/libubox/blob.c:115-121 | Changes the 24 bits of the length field and nothing else. |
| `Blob.BlobBuf.BlobAdd` | sample_code/libubox/blob.c:64-81 | Header and zero padding of the new attribute, within the memory even though only the unpadded size was asked for; the memory grows only if that did not fit. |
| `Blob.BlobBuf.Init` | sample_code/libubox/blob.c:83-94 | A root without attributes: the four bytes of its header. |
| `Blob.BlobBuf.BlobNew` | sample_code/libubox/blob.c:123-134 | The attribute behind the innermost open one, whose length field now counts it with its padding. |
| `Blob.BlobBuf.BlobmsgNew` | sample_code/libubox/blobmsg.c:166-193 | The extended header: name length, name, zeros, and where the data go. |
| `Blob.BlobBuf.AddField` | sample_code/libubox/blobmsg.c:293-308 | What the buffer gains is exactly the bytes of the field, and as a whole it is the serializer of the tree with one more field. |
| `Blob.BlobBuf.AddNumber` | sample_code/libubox/blobmsg.h:101-126 | The same, for a number in big-endian bytes; the first byte of its header is 132, 133, 134 or 135 for 64, 32, 16 or 8 bits. |
| `Blob.BlobBuf.OpenNested` | sample_code/libubox/blobmsg.c:202-216 | The bytes are those of the serializer for the open path; the header begins with 129 for an array and 130 for a table; the cookie is the offset of the attribute around. |
| `Blob.BlobBuf.CloseNested` | sample_code/libubox/blob.c:172-178 | The cookie still denotes the attribute around after any reallocation, and that takes in the closed table or array, whose bytes are those of the serializer. |
| `Blob.BlobBuf.AllocString` | sample_code/libubox/blobmsg.c:243-258 | An unfinished string with room for maxlen bytes, not yet counted anywhere. |
| `Blob.BlobBuf.ReallocString` | sample_code/libubox/blobmsg.c:260-275 | More room, and what was written stays. |
| `Blob.BlobBuf.AddString` | sample_code/libubox/blobmsg.c:277-291 | The string up to its NUL becomes a field, padded and counted. |
| `Blob.Finish` | sample_code/libubox/blob.h:242-254 | A finished message is the root header followed by the bytes of the serializer, and walking it gives the attributes. |
| `Blob.Attrs` | sample_code/libubox/blob.h:242-254 | The loop of the iterator macro. |
| `Blob.BlobBuf.Read` | sample_code/libubox/blobmsg.h:216-221 | Walking a finished buffer returns exactly the attributes that were added, in order; a value added with the type of a table is returned as that table. |
| `UloopTimer.LaterTransitive` | sample_code/libubox/uloop.c:412-417 | "Later" is transitive for all values of the fields. |
| `UloopTimer.DiffRounds` | sample_code/libubox/uloop.c:412-417 | The seconds count in full; the microseconds lose their part of a millisecond towards zero. |
| `UloopTimer.NeighboursAreNotEnough` | sample_code/libubox/uloop.c:412-417 | "Not later" is not: neighbours in order do not make a list in order. |
| `UloopTimer.InsertOrdered` | sample_code/libubox/uloop.c:427-434 | In front of the first later timer, every pair of the list stays in order. |
| `UloopTimer.Uloop.constructor` | sample_code/libubox/uloop.c:56-56 | An empty list. |
| `UloopTimer.Uloop.TimeoutAdd` | sample_code/libubox/uloop.c:419-438 | Refuses a pending timer; otherwise inserts it in front of the first later one, so that tv_diff(earlier, later) <= 0 for every pair. |
| `UloopTimer.Uloop.TimeoutCancel` | sample_code/libubox/uloop.c:469-478 | Removes exactly that timer, or refuses one that is not pending. |
| `UloopTimer.Uloop.TimeoutSet` | sample_code/libubox/uloop.c:449-467 | The timer is pending once, with a deadline exactly msecs after the clock; all others stay, in order. |
| `UloopTimer.Uloop.NextTimeout` | sample_code/libubox/uloop.c:588-602 | -1 exactly without timers. Sleeping that long ends less than 1 ms before or after the first timer, or does not sleep if that is due or less than 1 ms away; and it oversleeps no timer by 2 ms or more. |
| `UloopTimer.Uloop.FireNext` | sample_code/libubox/uloop.c:608-616 | One turn, whatever the callbacks of earlier turns did: the first timer fires unless it is in the future, and nothing fires 1 ms or more early. |
| `UloopTimer.Uloop.NoneOverdue` | sample_code/libubox/uloop.c:604-618 | When no timer fires any more, none is left with tv_diff(t, now) < 0. |
| `UloopTimer.Uloop.ProcessTimeouts` | sample_code/libubox/uloop.c:604-618 | With inert callbacks: what fires is a front part of the list, nothing 1 ms or more early, and no timer with tv_diff(t, now) < 0 stays. |
| `UloopFd.TidySwitch` | sample_code/libubox/uloop.c:368-391 | A change of mode keeps the stack tidy exactly if the frames allow it: at most one live frame for edge, nothing parked for level. |
| `UloopFd.Uloop.constructor` | sample_code/libubox/uloop.c:52-65 | No events and no frames. |
| `UloopFd.Uloop.CutOff` | sample_code/libubox/uloop.c:298-322 | The frame of an edge-triggered descriptor is cut off and its parked bits are given up. |
| `UloopFd.Uloop.Park` | sample_code/libubox/uloop.c:298-322 | The bits of an entry are added to the first frame of its edge-triggered descriptor; otherwise nothing changes. |
| `UloopFd.Uloop.FdDelete` | sample_code/libubox/uloop.c:393-410 | The exact window and stack afterwards; on a tidy stack no undelivered bit of the descriptor is left, in the window or parked, and bits of others stay. |
| `UloopFd.Uloop.FdAdd` | sample_code/libubox/uloop.c:368-391 | Keeps all bits; the stack stays tidy if and only if the mode may be changed. |
| `UloopFd.Uloop.Fetch` | sample_code/libubox/uloop.c:256-294 | Entry i has the descriptor of report i if any of its four marks is set, and none otherwise, with READ exactly if it is readable and WRITE exactly if it is writable; each bit of a descriptor is counted as fetched once for each such report; exactly the registered descriptors that are reported with an error and do not ask for it are deleted, and the stack is cut for those that were edge-triggered. |
| `UloopFd.Uloop.RunEvents` | sample_code/libubox/uloop.c:324-366 | On an empty window the entries are those of Fetch. The first entry that has a callback and does not wait for a frame is delivered, with its bits; those passed over are parked or had no callback; every fetched bit stays delivered, given up, in the window or in a frame, and an edge-triggered descriptor keeps at most one live frame. |
| `UloopFd.ScanLaw` | sample_code/libubox/uloop.c:324-350 | Which entries are passed over, and that a frame gains exactly the bits of the entries of its descriptor among them. |
| `UloopFd.TwoLiveFrames` | sample_code/libubox/uloop.c:298-366 | A run that leaves an edge-triggered descriptor with two live frames: it was level-triggered when its callback ran the loop. |
| `UloopFd.OverlookedEvents` | sample_code/libubox/uloop.c:298-410 | A run in which the callback of a deleted descriptor is called again: it stopped being edge-triggered while events were parked. |
| `UloopFd.Uloop.Enter` | sample_code/libubox/uloop.c:353-358 | A new frame, and the bits of the entry are delivered. |
| `UloopFd.Uloop.Return` | sample_code/libubox/uloop.c:356-362 | Parked bits are delivered by another call unless the descriptor was deleted; otherwise the frame goes. |
| `RunQueue.Queue.constructor` | sample_code/libubox/runqueue.c:31-35 | An idle queue. |
| `RunQueue.Queue.ArmStart` | sample_code/libubox/runqueue.c:73-80 | The timer is armed unless the queue is marked empty. |
| `RunQueue.Queue.CompleteStart` | sample_code/libubox/runqueue.c:217-233 | The task leaves its list, flags and count follow, and iterators parked on it move to the task behind it. |
| `RunQueue.Queue.Begin` | sample_code/libubox/runqueue.c:52-59 | Exactly the first pending task becomes the last active one, and its run timeout is set if it has one; the others stay in order. |
| `RunQueue.Queue.StartNext` | sample_code/libubox/runqueue.c:37-71 | The first pending task moves to the end of the active list and its run() is called, if the queue is not stopped and the limit leaves a place; otherwise the lists stay, and a queue without tasks that was not marked empty is, with its callback, if it has one, on the timer. |
| `RunQueue.Queue.CancelStart` | sample_code/libubox/runqueue.c:120-135 | A pending task completes; a running one is marked cancelled, its timeout is set, and it stays. |
| `RunQueue.Queue.KillStart` | sample_code/libubox/runqueue.c:191-198 | The task completes, and the rest of the kill waits below that. |
| `RunQueue.Queue.Step` | sample_code/libubox/runqueue.c:82-118 | The exact next step of a call that waits for no callback: a cancel loop, either loop of a kill, or the end of a task kill; with the marks and timeouts of the tasks. |
| `RunQueue.Queue.Unwind` | sample_code/libubox/runqueue.c:82-118 | Exactly such steps until a callback is called or all calls have returned. |
| `RunQueue.Queue.Add` | sample_code/libubox/runqueue.c:148-189 | The lists with the task at the front or at the end, the queue not empty any more and its timer armed; and no wakeup is in danger if and only if the task does not become the first pending one inside an exposed kill. |
| `RunQueue.Queue.Complete` | sample_code/libubox/runqueue.c:217-236 | The task is not queued any more and its completion callback runs; lists, flags and count agree, the limit is kept and no wakeup is lost. |
| `RunQueue.Queue.Cancel` | sample_code/libubox/runqueue.c:120-135 | A running task stays where it is, is marked, and its cancel callback runs, with the cancel timeout; a pending one completes. |
| `RunQueue.Queue.Kill` | sample_code/libubox/runqueue.c:191-204 | The task completes, and if it was running its kill callback comes after that. |
| `RunQueue.Queue.Stop` | sample_code/libubox/runqueue.c:206-209 | Only the mark changes; the invariants hold. |
| `RunQueue.Queue.Resume` | sample_code/libubox/runqueue.c:211-215 | Not stopped any more, and the timer armed unless the queue is marked empty; the invariants hold. |
| `RunQueue.Queue.CancelAll` | sample_code/libubox/runqueue.c:92-106 | The state at the first callback; AllAsked and AllCompleted say what the loop comes to. |
| `RunQueue.Queue.KillAll` | sample_code/libubox/runqueue.c:108-118 | The state at the first callback; KillInOrder and KillClears say what the kill comes to. |
| `RunQueue.Queue.FireTimer` | sample_code/libubox/runqueue.c:23-71 | Armed for the empty callback, it calls that, and the queue has no tasks; armed for the start, it starts the first pending task if it may, or marks a queue without tasks empty and arms the timer for the empty callback. |
| `RunQueue.Queue.FireTimeout` | sample_code/libubox/runqueue.c:137-146 | A running task is asked to stop, with its cancel timeout; one that had been asked completes and is killed. |
| `RunQueue.Queue.Return` | sample_code/libubox/runqueue.c:37-118 | After run() the next task starts, or the queue is marked empty, as in StartNext; after a completion or a kill the timer is armed unless the queue is marked empty; after the completion of a running task that is killed its kill callback comes. |
| `RunQueue.Queue.NoLostWakeup` | sample_code/libubox/runqueue.c:37-80 | With no callback running, a task that may be started has the timer armed for it. |
| `RunQueueSpec.CompletedIs` | sample_code/libubox/runqueue.c:217-233 | A completed task is cut out of its list and nothing else is; exactly the loops that were going to look at it next look at the task behind it. |
| `RunQueueRuns.EmptyCalled` | sample_code/libubox/runqueue.c:37-71 | In any run without a kill that begins with a task: when no task is left and no callback is running, the timer is armed, and when it fires, at most twice, the callback of the empty queue is called. |
| `RunQueueRuns.StartsInOrder` | sample_code/libubox/runqueue.c:37-60 | One firing of the timer starts the pending tasks first in, first out, exactly as many as the limit leaves places for. |
| `RunQueueRuns.AllAsked` | sample_code/libubox/runqueue.c:82-95 | Cancelling the running tasks marks exactly them and sets exactly their cancel timeouts. |
| `RunQueueRuns.AllCompleted` | sample_code/libubox/runqueue.c:97-100 | Cancelling the pending tasks completes them in order, and none is left; the running ones stay. |
| `RunQueueAwake.StepKeeps` | sample_code/libubox/runqueue.c:82-118 | Every step of a call that waits for no callback keeps the lists in order, the limit, and the wakeups. |
| `RunQueueAwake.ReturnedKeeps` | sample_code/libubox/runqueue.c:37-236 | So does the return of any callback, with any calls waiting below it. |
| `RunQueueAwake.LoopsKeep` | sample_code/libubox/runqueue.c:92-118 | So do cancelling and killing all tasks, from anywhere. |
| `RunQueueAwake.FiredKeeps` | sample_code/libubox/runqueue.c:23-71 | So does the timer. |
| `RunQueueAwake.AddedAwake` | sample_code/libubox/runqueue.c:148-179 | Adding keeps the wakeups if and only if the task is not first while a kill is exposed. |
| `RunQueueAwake.Stranded` | sample_code/libubox/runqueue.c:108-118 | Otherwise a task can be lost: there is a way to go on that ends with no callback running, a task that may be started, and no timer. |
| `RunQueueKill.KillClears` | sample_code/libubox/runqueue.c:108-118 | A kill from outside, with callbacks that may stop, resume, complete, cancel and kill at will but add nothing and do not wait until the timer of the queue fires: once it is over, both lists are empty, and the timer is off unless the queue was resumed. |
| `RunQueueKill.KillInOrder` | sample_code/libubox/runqueue.c:108-118 | If callbacks only return, the running tasks are completed and killed in order, then the pending ones are completed in order; after two returns for each running and one for each pending task nothing is left and the timer is off. |
| `RunQueue.KillLosesWakeup` | sample_code/libubox/runqueue.c:108-118 | A run of four calls that strands a task: add, kill, add in the completion callback, return. |
| `UciText.ValidateStr` | sample_code/libuci/util.c:72-90 | Decides whether every character is allowed, and the string is not empty. |
| `UciText.ValidMeans` | sample_code/libuci/util.c:72-90 | The characters of names, of types and of package names. |
| `UciText.EscapedAt` | sample_code/libuci/file.c:549-591 | The part up to a quote stays, the quote becomes the escape. |
| `UciText.Escape` | sample_code/libuci/file.c:549-591 | The escaped string with its NUL, in a buffer that is doubled before every write that would leave it. |
| `UciParse.QuotedMore` | sample_code/libuci/file.c:543-591 | A quoted string with a quote in it is a quoted part, an escaped quote, and the quoted rest. |
| `UciParse.Parser.Getln` | sample_code/libuci/file.c:40-74 | The next line of the file goes to the offset; what is in front stays. |
| `UciParse.Parser.ParseBackslash` | sample_code/libuci/file.c:81-100 | Skips the backslash; false exactly at the end of a line, which the next line then replaces. |
| `UciParse.Parser.AddC` | sample_code/libuci/file.c:114-121 | Copies one character down, never onto unread text. |
| `UciParse.Parser.ParseDoubleQuote` | sample_code/libuci/file.c:126-156 | The text up to the closing quote over any number of lines, with backslashes taken out and lines joined; it fails exactly if no closing quote follows. For every input the writes stay behind the reads. |
| `UciParse.UnwrapJoins` | sample_code/libuci/file.c:81-156 | A backslash at the end of a line, with or without a carriage return, joins it with the next one; in front of another character it is dropped. |
| `UciParse.WrapBack` | sample_code/libuci/file.c:126-156 | Any text put in double quotes, with a backslash in front of quotes and backslashes, is read back. |
| `UciParse.Parser.ParseSingleQuote` | sample_code/libuci/file.c:161-185 | The same, and the result is the text up to the closing quote, over any number of lines. |
| `UciParse.Parser.ParseStr` | sample_code/libuci/file.c:190-231 | For every input the write position never passes the read position; for a quoted, escaped or bare argument of any NUL-free text the result is that text. |
| `UciParse.Parser.SkipWhitespace` | sample_code/libuci/file.c:106-112 | Stops at the next character of the argument, or at the end of the line. |
| `UciParse.Parser.NextArg` | sample_code/libuci/file.c:236-260 | Returns the argument; fails if it is required and missing, or no valid name. |
| `UciParse.Parser.Word` | sample_code/libuci/file.c:501-503 | The command word. |
| `UciConfig.OpenNew` | sample_code/libuci/file.c:402-451 | A section statement with a new name appends a named section without options. |
| `UciConfig.PutAt` | sample_code/libuci/file.c:456-489 | An option or list statement changes the options of the current section and nothing else; SetLaw and AddLaw say how. |
| `UciMeaning.SetLaw` | sample_code/libuci/list.h:700-757 | After an option statement with a value the name has that value once; an empty value changes nothing, and neither does the value that is there; otherwise the option is last. All others keep values and order. |
| `UciMeaning.AddLaw` | sample_code/libuci/list.h:622-661 | A list statement adds one item behind those that are there, or behind the string that is there. A list stays in its place. All others keep values and order. |
| `UciConfig.RunItems` | sample_code/libuci/list.h:622-661 | Adding the items of a list one by one makes the list option. |
| `UciConfig.RunOption` | sample_code/libuci/list.h:695-763 | The statements of an option append it, or do nothing if it is empty. |
| `UciConfig.RunSections` | sample_code/libuci/file.c:402-489 | The statements of the sections rebuild them, in order, without empty options. |
| `UciMeaning.RunSays` | sample_code/libuci/file.c:402-489 | What any statements of one package make, told without running them: the sections in the order of their first statements, named or numbered, with the type of the last one; and each option has the value of its last statement that is not empty, with the items of list statements behind it. It succeeds if and only if every option statement has a section, which a third statement for the same section loses, and in strict mode no section changes its type. |
| `UciMeaning.FinishSays` | sample_code/libuci/file.c:649-705 | The same for a whole import, which files that package behind those loaded before. |
| `UciMeaning.PackageSays` | sample_code/libuci/file.c:380-397 | A package statement files the package before it and begins an empty one; it fails exactly if one of that name is there. |
| `UciConfig.Rebuild` | sample_code/libuci/file.c:649-705 | Running the statements of a package, with or without its header, makes that package without its empty options and files it. |
| `UciConfig.RereadSame` | sample_code/libuci/list.h:714-720 | That is the same package if and only if it has no empty option. |
| `UciImport.Importer.ParsePackage` | sample_code/libuci/file.c:380-397 | Reads a package statement as it was written. |
| `UciImport.Importer.ParseConfig` | sample_code/libuci/file.c:402-451 | Reads a section statement as it was written. |
| `UciImport.Importer.ParseOption` | sample_code/libuci/file.c:456-489 | Reads an option or list statement as it was written, with any value, and has its effect. |
| `UciImport.Importer.Dispatch` | sample_code/libuci/file.c:505-538 | A command, in full or by its first letter, has the effect of its statement. |
| `UciImport.Importer.ParseLine` | sample_code/libuci/file.c:494-541 | A line has the effect of its statement. |
| `UciImport.Importer.NextLine` | sample_code/libuci/file.c:672-678 | One turn of the loop reads one statement, over as many lines as it takes. |
| `UciImport.Import` | sample_code/libuci/file.c:649-705 | A file made of statements has the effect of running them; for one package the result is told by what the statements say, as in RunSays; an invalid package name is refused. |
| `UciImport.StmtTextIs` | sample_code/libuci/file.c:596-629 | The text of each statement, word by word. |
| `UciImport.ExportOption` | sample_code/libuci/file.c:608-625 | The lines of an option. |
| `UciImport.Export` | sample_code/libuci/file.c:596-629 | The text of a package, for every package: that of its statements, which is FileText. |
| `UciImport.ExportIs` | sample_code/libuci/file.c:596-629 | That text line by line: the header, a blank line and a config line for each section, without the name of an anonymous one unless names are asked for, and a tab and the quoted value for each option and item. |
| `UciImport.ExportedGood` | sample_code/libuci/file.c:596-629 | For a package in the promised form that text consists of statements that are read as they were written. |
| `UciImport.ExportThenImport` | sample_code/libuci/file.c:649-705 | Importing the export yields the same sections, options and items in the same order, without empty options; the same package if and only if it has none. |
| `UciDelta.Save` | sample_code/libuci/delta.c:69-97 | The text of a record, with every quote escaped. |
| `UciDelta.SaveTextIs` | sample_code/libuci/delta.c:70-97 | That text character by character, with the character of each command. |
| `UciDelta.PtrBack` | sample_code/libuci/util.c:110-166 | Package, section, option and value are read back. |
| `UciDelta.PtrOnly` | sample_code/libuci/util.c:110-166 | What is accepted is exactly the text of package, section, option and value that come out, and these are valid. |
| `UciDelta.TupleBack` | sample_code/libuci/delta.c:159-211 | A record is read back as it was if and only if it is not a change in a package whose name starts with a minus sign; that is read as a removal in the package named by the rest, or is an error. |
| `UciDelta.TupleOnly` | sample_code/libuci/delta.c:159-210 | A record that is accepted is the text of what comes out, and has the parts its command needs. |
| `UciDelta.FindCmd` | sample_code/libuci/delta.c:169-174 | The command of each of the six characters, and a change for all others. |
| `UciDelta.ParseTuple` | sample_code/libuci/delta.c:159-211 | A record in a file is taken apart as one argument. |
| `UciDelta.SaveThenParse` | sample_code/libuci/delta.c:69-97 | Writing a record and reading it gives the same command, section, option and value, under the condition of TupleBack. |
| `Md5Rfc.BlocksSnoc` | sample_code/libubox/md5.c:175-205 | Compressing one more block. |
| `Md5Laws.RoundBits` | sample_code/libubox/md5.c:50-53 | F and G choose bit by bit, H is the parity, as in section 3.4 of RFC 1321. |
| `Md5Laws.RotateBits` | sample_code/libubox/md5.c:122-161 | Bits shifted out on the left come in on the right. |
| `Md5Laws.PlusValue` | sample_code/libubox/md5.c:122-161 | Addition of words is addition modulo 2^32. |
| `Md5Laws.InitialBytes` | sample_code/libubox/md5.c:34-43 | The initial registers are the sixteen bytes of section 3.3 of RFC 1321. |
| `Md5.SameF` | sample_code/libubox/md5.c:50-50 | The rewritten F is that of section 3.4 of RFC 1321. |
| `Md5.SameG` | sample_code/libubox/md5.c:51-51 | G in terms of the rewritten F is that of section 3.4 of RFC 1321. |
| `Md5.SamePick` | sample_code/libubox/md5.c:84-89 | P_array is the word order of the four rounds. |
| `Md5.RotateOn` | sample_code/libubox/md5.c:122-161 | One turn with rotating registers is one step on registers that stay in place. |
| `Md5.HashBlock` | sample_code/libubox/md5.c:56-168 | The block function, with its own tables, is that of section 3.4 of RFC 1321. |
| `Md5.Context.constructor` | sample_code/libubox/md5.c:34-43 | The initial registers of section 3.3. |
| `Md5.Context.Feed` | sample_code/libubox/md5.c:185-204 | One turn of the loop: all full blocks are compressed, the rest is buffered. |
| `Md5.Context.Hash` | sample_code/libubox/md5.c:175-205 | The message grows by the data, whatever the pieces are. |
| `Md5.FinalBytes` | sample_code/libubox/md5.c:218-232 | The buffer before the last blocks ends the message padded as in sections 3.1 and 3.2 of RFC 1321. |
| `Md5Laws.PaddedMeans` | sample_code/libubox/md5.c:218-232 | The padded message is the message, one 1 bit, as few zeros as make a multiple of 64 bytes, and its number of bits modulo 2^64 in the last eight bytes. |
| `Md5.Context.End` | sample_code/libubox/md5.c:215-249 | The sixteen bytes of the digest of the padded message, in one or two last blocks. |

## Left out

- The rest of the repository (u-boot commands, json_script, blobmsg_json, jshn, usock, ulog, kqueue, signals, processes, the samples): plumbing over system calls or over code that is not there, or easier copies of what is here.
- vlist, avl_remove_all_elements and the iteration macros of avl.h: thin loops over the operations of the tree.
- Memory allocation never fails; files are character sequences; locking, renaming and longjmp are not modelled, errors are results.
- Avl.AvlTree.Insert: keys are constants of nodes and the comparison is a function; the list head is a node of its own. The rebalancing code is split into methods for its branches (GrownLeft, ShrunkLeft, RightHeavy and the like), with pointer writes in methods of their own (SwingRight, CopyLinks).
- SafeList.List.Add: the list itself is a sequence, as for Del.
- SafeList.List.AddFirst: the list itself is a sequence, as for Del.
- SafeList.List.Del: the list itself is a sequence; the ring of pointers under it is the one in List. safe_list_for_each is split into Begin, Step and Break so that callbacks can do anything in between.
- Ustream.BufList.FreeFirst: buffers are values in a sequence, so that aliasing of buffer pointers does not arise; the string terminator that ustream_fixup_string keeps behind the data, notifications, the end of file state and the printf variants are not modelled.
- Blob.BlobBuf.AddField: types are below 128, and the 24-bit and 16-bit limits are preconditions of the builder.
- BlobWire.ParseSerAll: the walk stops when fewer than four bytes are left, where the macro would read the header of an attribute that is not there. blob_parse, blobmsg_parse and the policies are not modelled.
- UloopTimer.InsertOrdered: differences do not wrap around at 2^31 milliseconds.
- UloopTimer.Uloop.TimeoutSet: the clock is a parameter with microseconds below 1000000, as uloop_gettime delivers it.
- UloopTimer.Uloop.ProcessTimeouts: callbacks leave the timers alone; FireNext is the turn of the loop for all others.
- UloopFd.Uloop.FdAdd: the kernel always accepts a registration; only the epoll variant is modelled. The end of file and error marks of a descriptor are not followed.
- RunQueue.Queue.Add: one queue with a fixed limit; runqueue_cancel is CancelAll twice; processes as tasks are not modelled.
- UciParse.Parser.Word: bytes behind the end of a line read as NUL, where the code would see what earlier lines left in the buffer.
- UciConfig.OpenNew: the generated name of an anonymous section is the empty string; merging into a loaded package and reading a single package are not modelled. Elements are values in sequences, without the delta records that uci_set keeps for later.
- UciImport.ExportThenImport: anonymous sections and section types that need quotes are not covered.
- UciImport.Import: what is left of a file with wrong lines is not stated.
- UciDelta.ParseTuple: applying a record to a package (uci_parse_delta_line) is not modelled.
- Md5Rfc.BlocksSnoc: the table of sines is taken from section 3.4 of RFC 1321 as numbers. Words are sequences of 32 bits; the byte order of the host is not modelled. md5sum of a file is not modelled.
