# KickOS kernel protocols in Dafny

A model of ten protocols and data structures of the KickOS microkernel, with whole-run properties
proved of each. `dafny verify dfyconfig.toml` checks everything.

Where a structure is edited in place there are two layers. One is a specification over values: the
operations as functions, the invariants, and the theorems. The other is a class with the structure's
own fields, arrays and loops, whose methods are proved to compute those functions. Where several
cores or nodes interleave there is a state machine as well, stepping one shared access at a time
over sequentially consistent memory. A lock body (`IrqLock`) is one step unless it is said to be
split.

| files | what they model |
|---|---|
| Radix, Sets, PageTree, PageMap, PageRemove, PageWalk | the multi-level page-table walk: map, unmap, unwind, reclamation, and the predictor of tables needed |
| Modular, AmpPair, AmpSafety, AmpLaws, AmpRun, AmpAnswers, AmpReserve, AmpNode, AmpReplies, AmpReplyRing, AmpFifo | one ordered pair of AMP nodes: the call ring consumed, the records of held calls, the reply ring produced into; and the reply ring consumed, its slots held by callers |
| HeldRecords, HeldTheory, HeldLedger, HeldRun, HeldBytes, HeldStore | kernel records held for a published console's driver, committed in place by triple reversal |
| TxStream, TxDrain, TxRing | the buffered console's transmit ring and its drains |
| IrqPub, IrqLaws, IrqGrace, IrqBound, IrqTable | interrupt publication records: three intrusive chains and epoch-based reclamation |
| BellRun, BellWait, Doorbell | doorbell rendezvous and line operations routed to another core |
| Words, FrameMap, FrameAlloc | the frame bitmap, scanned a word at a time |
| Borrowing, DomainPool, DomainRun | protection domains, their counts, the borrow edges between them and the handles that name them |
| ConsoleOwner, ConsoleDevice | who owns the console's device |
| SampleHistory | a crash-tolerant sequence lock |

Reading order inside a group is the order of the row.

Things worth knowing before reading the contracts:

- Page walk. A page-table entry is a word stored as it is (`Bare`, zero among them), or a descriptor
  a backend's hook makes, for a table or a leaf. Bit 0 is the valid bit: set in every descriptor, and
  in a bare word what it is, so that a detached table's link reads as invalid because a granule is
  even. The number of heights, the entries in a table, the kept root slots and
  which attributes owe maintenance on removal are parameters (`Format`). `Settled` is what every
  operation starts from and restores: the tree well formed, nothing detached, and no empty table
  under the root. A range handed in lies in the root's span and clear of the kept slots.
- AMP. Every index the peer owns is an argument that may be any 32-bit value, so the invariants of
  `AmpSafety` and `AmpRun` hold against an arbitrary peer. `AmpReserve` and `AmpFifo` add the
  assumption of a well-behaved one.
- Held records. A reader takes no more than it was shown, a key is 32 bits, and a record's bound is
  within its 16-bit length. The ledger of `HeldLedger` keeps each open record's lines apart and
  decides refusals from sizes alone; the store keeps them interleaved, under ids. `Written` with
  nothing half taken is what committing every open record in opening order and reading everything
  would give.
- Transmit ring. Each lock body of a producer's drain is a step of `TxDrain`, so any number of
  producers interleave, and a context the lock does not stop may run between a byte's taking and the
  end of its push. How many pushes a device takes before it is found busy is a parameter.
- Interrupt records. Epochs wrap at 2^32 in the model and the safety proof needs no assumption about
  it. The epochs a drain reads are parameters of the class, and separate steps of `IrqGrace`. The
  epoch and depth change of one dispatch entry, or of one exit, is one step of its core: device
  lines share a priority, so a nested dispatch starts only once the outer one is inside.
- Doorbell. On each core the asker and the service body are separate threads of steps, so a service
  may run between any two stores of an ask.
- Console ownership. The source says nothing leaves PANICKED. That holds of every run whose panics
  take the lock (`PanicFinal`). It does not hold against the unlocked panic entry on a second core:
  `PanicOverwritten` is a run in which a hand-over reads its state, the unlocked panic stores
  PANICKED, and the hand-over stores USER_OWNED. `PanicLeft` says of every step exactly when that
  happens. Exclusion of kernel writers from a driver's device holds of those runs too.

## Model

| member | source | states |
|---|---|---|
| `Radix.PagesUnderEntry` | arch/common/aspace_walk.h:138-147 | the pages of a run under the entry holding its start are those up to that entry's end, at least one and all of them under it |
| `PageTree.HolderChain` | arch/common/aspace_walk.h:106-129 | in a well-formed tree a table that holds a page at one height implies every table above it, each linked where the page indexes |
| `PageTree.LinkShape` | arch/common/aspace_walk.h:244-253 | linking a zeroed frame under an empty entry keeps the tree well formed |
| `PageTree.UnlinkShape` | arch/common/aspace_walk.h:298-303 | taking an empty table out keeps the tree well formed |
| `PageMap.MapCompose` | arch/common/aspace_walk.h:218-267 | mapping a prefix and then the pages under the next entry is mapping the longer prefix, leaf by leaf and table by table |
| `PageMap.MapFlat` | arch/common/aspace_walk.h:218-267 | a partial map has changed the flat view on exactly the pages done, to the frames and attributes asked for |
| `PageMap.MapNoEmpty` | arch/common/aspace_walk.h:218-267 | a completed map leaves no empty table below the root |
| `PageMap.MapSettles` | arch/common/aspace_walk.h:342-370 | a completed map changes the flat view on exactly the range |
| `PageMap.MapLinksNeeded` | arch/common/aspace_walk.h:169-267 | a completed map links exactly the tables the range reaches and the tree lacked, one frame each |
| `PageMap.MapShort` | arch/common/aspace_walk.h:244-251 | a map that runs out of frames had fewer free than the tables needed |
| `PageMap.MappedNeedsNone` | arch/common/aspace_walk.h:342-370 | a wholly mapped range needs no table, so a remap cannot fail for want of one |
| `PageMap.ChunkSeen` | arch/common/aspace_walk.h:169-192 | the table missing at a height is seen from the first page of its span the range reaches |
| `PageRemove.PruneCompose` | arch/common/aspace_walk.h:272-307 | pruning the entries of a table one after another prunes exactly the emptied tables of all of them |
| `PageRemove.PruneTaken` | arch/common/aspace_walk.h:298-303 | taking out a child left empty is what the prune of its entry means |
| `PageRemove.FrameEven` | arch/common/aspace_walk.h:58-59 | a frame of an even granule has the valid bit clear |
| `PageRemove.DetachedReadsInvalid` | arch/common/aspace_walk.h:269-303 | every word of a detached table has bit 0 clear, its first one being the next detached table's address |
| `PageRemove.ChainPush` | arch/common/aspace_walk.h:298-303 | detaching a table puts it at the head of the chain threaded through detached tables |
| `PageRemove.ChainPop` | arch/common/aspace_walk.h:331-337 | following the link of the head frees that table and leaves the rest chained |
| `PageRemove.UnwindKeeps` | arch/common/aspace_walk.h:362-367 | unwinding a failed map keeps every table that was there before |
| `PageRemove.UnwindDrops` | arch/common/aspace_walk.h:362-367 | unwinding a failed map drops every table it linked |
| `PageRemove.UnwindRestores` | arch/common/aspace_walk.h:362-367 | a failed map unwound leaves the tables, every entry and the free frames' number as before |
| `PageRemove.UnmapFlat` | arch/common/aspace_walk.h:311-338 | clearing and pruning a run changes the flat view on exactly the run |
| `PageRemove.UnmapNoEmpty` | arch/common/aspace_walk.h:272-338 | after it no table below the root is empty |
| `PageRemove.UnmapSettles` | arch/common/aspace_walk.h:372-383 | both, over the whole range, with frames conserved |
| `PageWalk.Walker.constructor` | arch/common/aspace_walk.h:76-82 | an empty root is settled |
| `PageWalk.Walker.WalkLeaf` | arch/common/aspace_walk.h:106-129 | finds the last-level entry of a page exactly when its table is there, and otherwise whether a larger leaf covers it |
| `PageWalk.Walker.StoreOne` | arch/common/aspace_walk.h:224-237 | one leaf stored, the old one cleared first and what its removal owes noted |
| `PageWalk.Walker.LinkTable` | arch/common/aspace_walk.h:244-253 | links a table where the entry names none, exactly when a frame is free |
| `PageWalk.Walker.MapInto` | arch/common/aspace_walk.h:218-267 | the recursion maps a prefix of its run, all of it unless the frames ran out, and links tables of that prefix only |
| `PageWalk.Walker.TableEmpty` | arch/common/aspace_walk.h:84-94 | true exactly when every entry is zero |
| `PageWalk.Walker.DetachEmpty` | arch/common/aspace_walk.h:272-307 | prunes the range below a table, chains exactly the tables taken out, and reports whether the table is empty |
| `PageWalk.Walker.GiveBack` | arch/common/aspace_walk.h:331-337 | frees every chained table once and counts each |
| `PageWalk.Walker.RemoveRun` | arch/common/aspace_walk.h:311-338 | clears, detaches and frees a run, stopping at the first unmapped page |
| `PageWalk.Walker.WalkMap` | arch/common/aspace_walk.h:342-370 | refuses exactly mixed or blocked ranges, fails exactly when the free frames are fewer than the tables needed, else changes the flat view on exactly the range; on any refusal nothing has changed, the 32-bit table count included |
| `PageWalk.Walker.WalkUnmap` | arch/common/aspace_walk.h:372-383 | removes exactly a wholly mapped range or refuses with no edit, frames conserved and no empty table left |
| `PageWalk.Walker.TableHolding` | arch/common/aspace_walk.h:151-164 | the table of a height holding a page, exactly when it is linked |
| `PageWalk.Walker.TablesNeeded` | arch/common/aspace_walk.h:169-192 | the count equals the number of tables a map of the range would link |
| `AmpSafety.ReleaseHolds` | kernel/amp/ampwindow.cc:624-644 | a release frees its own slot of the held run and no other, wherever in the run it is |
| `AmpSafety.ReleaseInv` | kernel/amp/ampwindow.cc:624-644 | a release keeps the invariant: the run within the ring, its oldest slot unreleased, each live record naming its own held slot |
| `AmpSafety.SendInv` | kernel/amp/ampwindow.cc:201-219 | a send keeps it whatever the peer's tail reads |
| `AmpSafety.AnswerPairInv` | kernel/amp/ampwindow.cc:234-260 | answering every record of an abandoned run keeps it |
| `AmpSafety.RetryInv` | kernel/amp/ampwindow.cc:826-858 | a pass over deferred answers keeps it |
| `AmpSafety.DepthOkInv` | kernel/amp/ampwindow.cc:495-534 | the depth test, its strikes and its resynchronisation keep it, for any head |
| `AmpSafety.TakeCallInv` | kernel/amp/ampwindow.cc:761-813 | a take keeps it, for any head, header and reply tail |
| `AmpSafety.DispatchInv` | kernel/amp/ampwindow.cc:281-301 | so does a dispatch |
| `AmpSafety.ReplyInv` | kernel/amp/ampwindow.cc:997-1028 | so does a reply by token |
| `AmpRun.StepOlder` | kernel/amp/ampwindow.cc:159-174 | no step lowers a record's generation, and any that ends a seating raises it |
| `AmpRun.TokenNames` | kernel/amp/ampwindow.cc:124-174 | within 2^16 deaths of its record, a token resolves exactly while its seating lives |
| `AmpRun.StepInv` | kernel/amp/ampwindow.cc:234-260 | every step of a node keeps the invariant and every token minted |
| `AmpRun.EveryRun` | kernel/amp/ampwindow.cc:495-534 | so does every run, against an arbitrary peer |
| `AmpLaws.BelieveSays` | kernel/amp/ampwindow.cc:201-219 | a far tail is believed exactly if it leaves no more than a ring, or on its last strike, when the head this node owns becomes it |
| `AmpLaws.TailBelievedWithin` | kernel/amp/ampwindow.cc:201-219 | of any four reads of a far tail in a row one is believed, whatever the peer stores |
| `AmpLaws.DepthSays` | kernel/amp/ampwindow.cc:495-534 | a far head is believed exactly if it fits the ring; refused it changes only the strikes, until on the last one the tail becomes it, with nothing held and every held call answered or owed |
| `AmpLaws.SendSays` | kernel/amp/ampwindow.cc:410-457 | an answer is published exactly when the tail read is believed and leaves a slot free, and then its tag is the last published |
| `AmpLaws.ReservedSays` | kernel/amp/ampwindow.cc:577-616 | one more call may be taken exactly when the tail read is believed and the free reply slots exceed the held calls unanswered and the records of abandoned runs |
| `AmpLaws.TakeJudges` | kernel/amp/ampwindow.cc:539-561 | which verdict a take gives, from the ring, the header and the reply tail alone: too long, not minted, the reply port, no answer reserved, or taken |
| `AmpLaws.TakeLeaves` | kernel/amp/ampwindow.cc:761-813 | a call taken is the run's next slot, unanswered; a refused header's slot is passed over and freed; otherwise it is left unread; no answer and no record changes |
| `AmpLaws.DispatchSays` | kernel/amp/ampwindow.cc:281-301 | a taken call delivered with its record free is seated under a token not used before; any other is answered here, if the ring takes it, and its slot freed |
| `AmpLaws.ReplySays` | kernel/amp/ampwindow.cc:997-1028 | an answer that goes out ends its record and frees its slot; one that does not is counted and keeps its slot, its token dead; a dead token changes nothing |
| `AmpLaws.RetrySays` | kernel/amp/ampwindow.cc:832-857 | a deferred answer tried again is published, kept, or on its last pass given up on; published or given up on, its record ends and its slot is freed |
| `AmpLaws.AnswerSays` | kernel/amp/ampwindow.cc:234-260 | a caller of an abandoned run is answered empty and counted, or its record is left to be answered later |
| `AmpAnswers.AnsweredOnce` | kernel/amp/ampwindow.cc:234-301 | in every run against an arbitrary peer, the calls taken from each caller are exactly those answered, those owed, the one being delivered, and those whose answer was refused or given up on |
| `AmpReserve.StepReserves` | kernel/amp/ampwindow.cc:577-616 | a credible step keeps reply occupancy plus replies owed within the ring |
| `AmpReserve.ReservationConserved` | kernel/amp/ampwindow.cc:577-616 | so does every credible run, and no answer's bytes are ever lost |
| `AmpReserve.BootHolds` | kernel/amp/ampwindow.cc:577-616 | the reservation holds at boot |
| `AmpReserve.NoReplyRefused` | kernel/amp/ampwindow.cc:997-1028 | an answer through a live token is published and ends its record, never refused |
| `AmpReserve.AnsweredExactly` | kernel/amp/ampwindow.cc:564-616 | in every credible run from boot none is given up on: the calls taken are exactly those answered, owed or being delivered |
| `AmpNode.Node.constructor` | kernel/amp/ampwindow.cc:1095-1142 | a node with nothing held satisfies the invariant |
| `AmpNode.Node.ReleaseOn` | kernel/amp/ampwindow.cc:624-644 | the bit loop over the released word computes the release of one slot: the tail past exactly the released prefix |
| `AmpNode.Node.TailBelieved` | kernel/amp/ampwindow.cc:201-219 | a credible tail is believed at once, another on its last strike, when the head this node owns becomes the tail read |
| `AmpNode.Node.SendReply` | kernel/amp/ampwindow.cc:410-457 | publishes one answer or says why not |
| `AmpNode.Node.RecordAnswerPair` | kernel/amp/ampwindow.cc:234-260 | the loop answers every live record of the pair, or leaves it owed |
| `AmpNode.Node.CheckDepth` | kernel/amp/ampwindow.cc:495-534 | a credible head is believed; another is struck, and on the last strike the tail this node owns becomes the head read, with nothing held |
| `AmpNode.Node.ReplyReserved` | kernel/amp/ampwindow.cc:577-616 | the two counting loops decide whether one more reply fits beside those owed |
| `AmpNode.Node.Take` | kernel/amp/ampwindow.cc:761-813 | one call taken: the verdict is that of the ring, the header and the reply tail read, test by test; a call taken is one more held and unanswered, a refused header's slot is passed over, and nothing is taken of an empty or incredible ring |
| `AmpNode.Node.Seat` | kernel/amp/ampwindow.cc:950-970 | a record seated in the call's own slot, if that one is free |
| `AmpNode.Node.DispatchCall` | kernel/amp/ampwindow.cc:281-301 | a taken call delivered and seated, or answered at once and its slot released |
| `AmpNode.Node.InboundReply` | kernel/amp/ampwindow.cc:997-1028 | a reply by token: sent and released, or deferred; nothing for a dead token |
| `AmpNode.Node.AnswerDeferred` | kernel/amp/ampwindow.cc:826-858 | the pass over deferred answers |
| `AmpNode.Node.RetrySlot` | kernel/amp/ampwindow.cc:832-857 | one deferred answer retried, or given up after its passes |
| `AmpReplies.BootOk` | kernel/amp/ampwindow.cc:80-86 | with nothing held the invariant holds, wherever the indices are found |
| `AmpReplies.LiveIff` | kernel/amp/ampwindow.cc:1048-1070 | a hold resolves exactly while its ring has not been resynchronised since it was taken |
| `AmpReplies.GiveBackExact` | kernel/amp/ampwindow.cc:1072-1093 | a hold given back frees its own slot and no other's; one a resynchronisation ended frees nothing |
| `AmpReplies.HeldNotWritten` | kernel/amp/ampwindow.cc:624-644 | a producer within the room past the run never writes a held slot |
| `AmpReplies.CheckDepthOk` | kernel/amp/ampwindow.cc:495-534 | the depth test, its strikes and its resynchronisation keep every slot's owner, for any head |
| `AmpReplies.KeepOk` | kernel/amp/ampwindow.cc:658-678 | a reply delivered goes to a hold no other caller has |
| `AmpReplies.TakeOk` | kernel/amp/ampwindow.cc:681-739 | a take keeps every slot's owner, for any head and header |
| `AmpReplies.TakeJudges` | kernel/amp/ampwindow.cc:681-739 | which verdict a take of a reply gives, from the ring and the header alone |
| `AmpReplies.TakeLeaves` | kernel/amp/ampwindow.cc:681-739 | a reply taken is the run's next slot, a refused one's slot is passed over and freed, and otherwise nothing moves |
| `AmpReplies.RunKeeps` | kernel/amp/ampwindow.cc:681-739 | in every run a slot is unreleased exactly while one hold of the ring's generation names it |
| `AmpReplies.HeldUntil` | kernel/amp/ampwindow.cc:486-534 | in every run a caller keeps its reply until it gives it back or the ring is resynchronised, whatever else is taken or returned |
| `AmpReplyRing.ReplyRing.constructor` | kernel/amp/ampwindow.cc:80-86 | no reply is held at first |
| `AmpReplyRing.ReplyRing.CheckDepth` | kernel/amp/ampwindow.cc:495-534 | the depth test of a reply ring, whose resynchronisation moves its generation |
| `AmpReplyRing.ReplyRing.Take` | kernel/amp/ampwindow.cc:681-739 | one reply taken: the verdict is that of the ring and the header, test by test, the count of slots passed moves on one for a header read, and the producer is rung exactly when the tail moved |
| `AmpReplyRing.ReplyRing.Dispatch` | kernel/amp/ampwindow.cc:646-678 | a taken reply held by its caller, or released, ringing the producer exactly when the tail moved |
| `AmpReplyRing.ReplyRing.Live` | kernel/amp/ampwindow.cc:1048-1070 | true exactly for a hold of this generation on an unreleased slot of the run |
| `AmpReplyRing.ReplyRing.GiveBack` | kernel/amp/ampwindow.cc:1072-1093 | a hold's slot released, or nothing for a hold of an older generation |
| `AmpFifo.NextInv` | kernel/amp/ampwindow.cc:410-457 | every single access of a sender and a taker keeps the ring's invariant, indices wrapping at 2^32 |
| `AmpFifo.TakeInOrder` | kernel/amp/ampwindow.cc:761-813 | what is taken next is the next message accepted |
| `AmpFifo.TakenIsPrefix` | kernel/amp/ampwindow.cc:681-739 | in every run the messages taken are a prefix of those accepted, in order and once each |
| `AmpFifo.BootInv` | kernel/amp/ampwindow.cc:1095-1142 | a ring with both ends at the index it is found at satisfies the invariant |
| `AmpFifo.HeldKeeps` | kernel/amp/ampwindow.cc:624-644 | over every run, a message taken and not freed by its end sat unchanged in its slot at every state of it, in whatever order others are released |
| `HeldTheory.AppendOk` | kernel/init/console_tx.cc:789-834 | an append keeps the store well formed |
| `HeldTheory.AppendExact` | kernel/init/console_tx.cc:789-834 | an append opens its record last, puts a whole line at the end of its own record exactly when it is accepted, and disturbs no other; when it answers 0 nothing changed |
| `HeldTheory.CommitExact` | kernel/init/console_tx.cc:836-890 | a commit publishes exactly that record's lines in append order, behind all committed before, and leaves the other open records and their order |
| `HeldTheory.CommitNone` | kernel/init/console_tx.cc:836-904 | a key with no open record commits and abandons nothing |
| `HeldTheory.AbandonExact` | kernel/init/console_tx.cc:892-904 | abandoning a record removes its lines and nothing else |
| `HeldTheory.TextWithout` | kernel/init/console_tx.cc:765-778 | taking out one record's entries leaves every other record's text |
| `HeldTheory.TakeStream` | kernel/init/console_tx.cc:997-1004 | taking advances the reader over exactly the bytes it was shown, across record ends |
| `HeldTheory.CommitStream` | kernel/init/console_tx.cc:836-890 | a commit appends the record's text to what is pending |
| `HeldLedger.SizesAgree` | kernel/init/console_tx.cc:812-826 | the interleaved entries take up a marker a record and a header a line |
| `HeldLedger.IdFree` | kernel/init/console_tx.cc:799-806 | an id is found free exactly while fewer than 128 records are open |
| `HeldLedger.AppendIs` | kernel/init/console_tx.cc:789-834 | an append is the ledger's, and answers 0 exactly when its record is not open and cannot be opened |
| `HeldLedger.CommitIs` | kernel/init/console_tx.cc:836-890 | a commit is the ledger's, found exactly when the record is open |
| `HeldLedger.AbandonIs` | kernel/init/console_tx.cc:892-904 | an abandon is the ledger's |
| `HeldRun.StepRefines` | kernel/init/console_tx.cc:789-1004 | every operation on the interleaved store is exactly that operation on a ledger of records with their own lines, which itself decides what is refused |
| `HeldRun.EveryRun` | kernel/init/console_tx.cc:789-1004 | every run of the store is the same run of the ledger |
| `HeldRun.EveryRecord` | kernel/init/console_tx.cc:816-834 | in every run each record, open or committed, is the join of the first of the lines appended to it, and of all of them unless one was dropped; a reader gets the committed ones in commit order |
| `HeldRun.CutFrom` | kernel/init/console_tx.cc:925-946 | a record its reader was cut in is written from the start of the first line after the cut, and no earlier line start is skipped |
| `HeldRun.PanicWritesAll` | kernel/init/console_tx.cc:906-965 | with nothing half taken, a panic writes what committing every open record in opening order and reading everything gives |
| `HeldBytes.EntryAt` | kernel/init/console_tx.cc:600-670 | the bytes of an entry read back as its id, kind, key, full mark, length and text |
| `HeldBytes.WalkStep` | kernel/init/console_tx.cc:612-650 | walking a stretch from entry to entry finds each entry where it was laid, and its end |
| `HeldBytes.RecordNext` | kernel/init/console_tx.cc:600-655 | a committed record reads back by its length |
| `HeldBytes.Rotates` | kernel/init/console_tx.cc:849-860 | three reversals put the second of two stretches in front of the first |
| `HeldStore.Held.Create` | kernel/init/console_tx.cc:66-77 | the store starts empty and well laid out |
| `HeldStore.Held.Put` | kernel/init/console_tx.cc:808-832 | a byte an append stores past the head leaves the store reading as it did, so a panic between any two of them sees it before the append |
| `HeldStore.Held.FindMark` | kernel/init/console_tx.cc:673-691 | the walk finds the marker of the open record with that key or id, or the head |
| `HeldStore.Held.RecordBytes` | kernel/init/console_tx.cc:693-704 | the walk sums the record's text |
| `HeldStore.Held.PickId` | kernel/init/console_tx.cc:799-803 | the least id no open record has |
| `HeldStore.Held.MoveDown` | kernel/init/console_tx.cc:706-715 | the bytes copied down, overlapping or not, and no other changed |
| `HeldStore.Held.Reverse` | kernel/init/console_tx.cc:717-729 | a stretch reversed in place |
| `HeldStore.Held.Rotate` | kernel/init/console_tx.cc:855-857 | two neighbouring stretches exchanged in place |
| `HeldStore.Held.Gather` | kernel/init/console_tx.cc:847-860 | the record's entries brought to the front of the open area in order, the others behind in theirs |
| `HeldStore.Held.Squeeze` | kernel/init/console_tx.cc:861-871 | the gathered entries' headers dropped: the record's text, joined |
| `HeldStore.Held.CloseUp` | kernel/init/console_tx.cc:872-886 | the others moved down and the record's length written in front, or nothing kept of an empty record |
| `HeldStore.Held.Settle` | kernel/init/console_tx.cc:733-763 | steps past records taken whole; with none left the open area moves to the start |
| `HeldStore.Held.Drop` | kernel/init/console_tx.cc:765-778 | one record's entries dropped, the rest closed up in order |
| `HeldStore.Held.HoldLine` | kernel/init/console_tx.cc:816-833 | one line held in an open record, or the record marked full |
| `HeldStore.Held.Append` | kernel/init/console_tx.cc:789-834 | the whole append in the bytes is the append of the specification |
| `HeldStore.Held.Commit` | kernel/init/console_tx.cc:836-890 | the in-place commit is the commit of the specification |
| `HeldStore.Held.Abandon` | kernel/init/console_tx.cc:892-904 | the in-place abandon is the specification's |
| `HeldStore.Held.Ready` | kernel/init/console_tx.cc:980-989 | what is left of the first committed record |
| `HeldStore.Held.Data` | kernel/init/console_tx.cc:991-995 | what a reader is shown is the front of what is pending |
| `HeldStore.Held.Take` | kernel/init/console_tx.cc:997-1004 | the take of the specification |
| `HeldStore.Held.Clear` | kernel/init/console_tx.cc:967-978 | empties the store unless it is being changed |
| `HeldStore.Held.WriteCommitted` | kernel/init/console_tx.cc:921-947 | the committed records, the first from the line after its reader's cut |
| `HeldStore.Held.WriteOpen` | kernel/init/console_tx.cc:948-964 | each open record's lines, records in the order they opened |
| `HeldStore.Held.WriteSync` | kernel/init/console_tx.cc:906-965 | the whole of what is held, at any point between two stores of an operation, or nothing while the store is being changed |
| `TxStream.ExpandBack` | kernel/init/console_tx.cc:152-199 | a line expanded reads back as itself, whatever carriage returns it had |
| `TxStream.ExpandPairs` | kernel/init/console_tx.cc:185-199 | in what goes out every newline stands after a carriage return |
| `TxStream.ExpandRaw` | kernel/init/console_tx.cc:185-199 | a raw line goes out as it is |
| `TxStream.InsertedIs` | kernel/init/console_tx.cc:173-226 | an accepted line is held whole behind what was there, but for the oldest byte, which an idle device is given at once |
| `TxDrain.StepInv` | kernel/init/console_tx.cc:173-359 | every lock body of any number of producers keeps: while a byte is in the ring, someone drains up to the last one queued, or has been handed it |
| `TxDrain.StreamStep` | kernel/init/console_tx.cc:173-499 | a step adds an accepted line whole at the end of the stream, reorders nothing, and loses only what a stuck channel or a cut-off push does |
| `TxDrain.LostWhere` | kernel/init/console_tx.cc:323-333 | a byte lost was in the ring as a stuck channel was given up on, or in the hand of a push a flush cut short |
| `TxDrain.EveryByte` | kernel/init/console_tx.cc:173-499 | in every run the bytes of device, hand and ring have strictly increasing places in the accepted lines, CR+LF expanded, and every other place is one lost |
| `TxDrain.StreamConserved` | kernel/init/console_tx.cc:173-334 | so with nothing lost they are exactly the accepted lines, whole and in order |
| `TxDrain.NoneStranded` | kernel/init/console_tx.cc:262-334 | in every run with no interrupt, once no producer drains the ring is empty: no line is left behind, the hand-over of a nested drain included |
| `TxDrain.ReturnMeansGone` | kernel/init/console_tx.cc:283-310 | a producer that returns on its own leaves with every byte up to its point gone from the ring, whoever sent it |
| `TxDrain.PointHolds` | kernel/init/console_tx.cc:296-321 | a point handed to a producer in its push is never behind its own |
| `TxDrain.TakesOwn` | kernel/init/console_tx.cc:296-318 | a byte is taken only by a producer still short of its point, with no other push under way, and is the oldest |
| `TxDrain.TurnPushes` | kernel/init/console_tx.cc:296-321 | a producer short of its point that finds a slot free gives the device the oldest byte, and nothing is left in its hand |
| `TxDrain.NeverStalls` | kernel/init/console_tx.cc:206-225 | in every run of a device whose interrupt only a finished byte raises, one is to come while a byte is in the ring, after a reprogramming too |
| `TxRing.UsedIs` | kernel/init/console_tx.cc:79-83 | masked 32-bit subtraction of two indices is the number of bytes held |
| `TxRing.LineNeeded` | kernel/init/console_tx.cc:152-166 | the loop counts the expanded line |
| `TxRing.Ring.CopyLine` | kernel/init/console_tx.cc:185-199 | the copy stores the expanded line past the head, around the end of the ring |
| `TxRing.Ring.InsertLocked` | kernel/init/console_tx.cc:173-226 | a line goes in whole exactly when it fits and no insert is under way; the device is given the oldest byte exactly when the ring or the line was empty, nothing is being pushed, there is a byte and a slot is free |
| `TxRing.Ring.Reprime` | kernel/init/console_tx.cc:506-513 | a reprogrammed device is given the oldest byte exactly when there is one, a slot is free and nothing is being pushed |
| `TxRing.Ring.QueueLine` | kernel/init/console_tx.cc:236-253 | the queueing step of the producers' protocol, and the low 32 bits of the point to drain up to |
| `TxRing.Point` | kernel/init/console_tx.cc:303-307 | the signed 32-bit difference decides whether a point has been passed, by however many drains |
| `TxRing.Ring.DrainTurn` | kernel/init/console_tx.cc:296-318 | one lock body of a drain is one turn of the protocol: handed over, over, a byte taken, or no slot |
| `TxRing.Ring.PushDone` | kernel/init/console_tx.cc:312-321 | the byte in hand is at the device and the push over, and a point handed to it becomes its own |
| `TxRing.Ring.Isr` | kernel/init/console_tx.cc:436-467 | sends exactly as many as the device takes, from the oldest on |
| `TxRing.Ring.DrainInProducer` | kernel/init/console_tx.cc:291-334 | alone, it sends exactly the bytes up to its point, none if that was passed, or what a stuck channel took |
| `TxRing.Ring.GiveUp` | kernel/init/console_tx.cc:325-332 | a stuck channel's step of the protocol: the ring emptied |
| `TxRing.Ring.MakeRoom` | kernel/init/console_tx.cc:336-359 | the point to drain up to so that the line just fits, or a wait for the interrupt |
| `TxRing.Ring.Flush` | kernel/init/console_tx.cc:469-499 | everything the device takes sent, from the oldest on, the rest of a stuck channel discarded, inside a cut-off push too |
| `IrqPub.ReserveOk` | kernel/irq/irq.cc:410-423 | reserving keeps the chains and the words consistent and reserves one record more |
| `IrqPub.ReserveUndone` | kernel/irq/irq.cc:410-430 | a reservation handed back leaves the records and the free chain's order as they were |
| `IrqPub.CommitOk` | kernel/irq/irq.cc:434-440 | publishing a reserved record from an unbound line keeps them |
| `IrqPub.RetireOk` | kernel/irq/irq.cc:377-405 | releasing a line keeps them |
| `IrqPub.CloseOk` | kernel/irq/irq.cc:246-266 | closing a batch keeps them |
| `IrqPub.ReclaimOk` | kernel/irq/irq.cc:316-341 | reclaiming a record keeps them |
| `IrqPub.NeverRunsOut` | kernel/irq/irq.cc:410-423 | outside a claim there is a free record for every unbound line |
| `IrqPub.DrainFrees` | kernel/irq/irq.cc:346-371 | with no core inside a dispatch a drain frees every released line and touches no bound one |
| `IrqLaws.AttachHands` | kernel/irq/irq.cc:545-560 | a line is bound exactly if it was unbound; a dispatch then finds what was bound, and every other line and its handler are as they were |
| `IrqLaws.RetireSays` | kernel/irq/irq.cc:377-405 | a released line retires, its record owing the binding named, or what it owed before, and no other line changes |
| `IrqLaws.ReclaimSays` | kernel/irq/irq.cc:316-341 | a record reclaimed unbinds its own line and owes nothing, and no other line changes |
| `IrqLaws.DrainKeeps` | kernel/irq/irq.cc:346-371 | a drain leaves every bound line handing out what it did, on whatever epochs it reads |
| `IrqLaws.DrainOwed` | kernel/irq/irq.cc:316-371 | a binding slot owed is given back once: those a drain gives back and those still owed are those owed before |
| `IrqLaws.DrainReturnsAll` | kernel/irq/irq.cc:346-371 | with no core inside a dispatch a drain gives back every binding slot owed |
| `IrqGrace.StepInv` | kernel/irq/irq.cc:246-405 | every step keeps: a record held by a dispatch is in use, as it was read, for the line it was read from, and its core still counts as inside while it drains |
| `IrqGrace.TestInv` | kernel/irq/irq.cc:271-285 | a core whose sample was even, or has moved on, holds no record of the batch |
| `IrqGrace.GracePeriod` | kernel/irq/irq.cc:1051-1077 | in every run, while a dispatch runs, its record is not reclaimed, its line not rebound and its binding slot not freed |
| `IrqGrace.ReclaimsNoneHeld` | kernel/irq/irq.cc:316-341 | the record a drain reclaims is held by no dispatch on any core |
| `IrqBound.Delivered` | kernel/irq/irq.cc:496-507 | in every run a dispatch reads the handler last bound to its line, and none once it was released since |
| `IrqBound.BindingsConserved` | kernel/irq/irq.cc:1011-1048 | in every run in which a claimed line is released through its claim, the binding slots in use are exactly those of the records in use |
| `IrqBound.DrainEnds` | kernel/irq/irq.cc:346-371 | each step of a drain brings its end nearer, and no dispatch puts it off |
| `IrqBound.QuietPasses` | kernel/irq/irq.cc:271-285 | a core in no dispatch never holds a drain up |
| `IrqTable.Table.Reset` | kernel/irq/irq.cc:443-465 | every record free, lowest first, every line unbound |
| `IrqTable.Table.Reserve` | kernel/irq/irq.cc:410-423 | the head of the free chain, or -1 |
| `IrqTable.Table.Unreserve` | kernel/irq/irq.cc:425-430 | the record back at the head of the free chain |
| `IrqTable.Table.Commit` | kernel/irq/irq.cc:434-440 | a reserved record named from its line |
| `IrqTable.Table.BatchClose` | kernel/irq/irq.cc:246-266 | the pending chain becomes the draining batch, restated record by record, and the epochs read are its sample |
| `IrqTable.Table.BatchElapsed` | kernel/irq/irq.cc:271-285 | true exactly when every core inside at the sample has left |
| `IrqTable.Table.Reclaim` | kernel/irq/irq.cc:316-341 | one record freed with the line it held, and the binding slot it owed given back |
| `IrqTable.Table.Drain` | kernel/irq/irq.cc:346-371 | two passes: the batch left open, then what was retired since; every bound line is left as it was, and the binding slots owed by what is reclaimed are given back |
| `IrqTable.Table.Release` | kernel/irq/irq.cc:377-405 | the line names no record or a retiring one, every other bound line hands out what it did, and a drain is tried |
| `IrqTable.Table.Attach` | kernel/irq/irq.cc:545-560 | binds a line exactly when it is unbound after a drain; a dispatch is then handed what was bound, and every other line is as the drain left it |
| `IrqTable.Table.Claim` | kernel/irq/irq.cc:591-707 | over budget or retiring answers again, bound busy, else what its installation says; done, a dispatch is handed what was claimed and every other line is as the drain left it; a refusal leaves the records exactly as the drain did |
| `IrqTable.Table.Published` | kernel/irq/irq.cc:496-507 | a dispatch is handed the line's own record, or none if it is unbound or retiring |
| `BellRun.StepInv` | kernel/irq/irq_route.cc:81-99 | every single access keeps: asks performed once each and in order, the mailbox the outstanding one, an answer only after its ask ran |
| `BellRun.ReturnMeansDone` | kernel/irq/irq_route.cc:81-99 | when an ask returns, everything its core asked of the owner is done, this ask last |
| `BellRun.NeverOverwritten` | kernel/irq/irq_route.cc:81-99 | a mailbox is written only when all it carried is performed |
| `BellRun.PublishedCount` | kernel/irq/irq_route.cc:81-99 | asks are published one at a time: as many as returned, and the outstanding one |
| `BellRun.ExactlyOnce` | kernel/irq/irq_route.cc:153-170 | in every run, at each return the owner has performed exactly as many of that core's asks as have returned |
| `BellWait.PollAnswers` | arch/common/doorbell_protocol.cc:316-333 | the service body run to its end answers every request to its core and changes no other core's answers |
| `BellWait.PollLowers` | arch/common/doorbell_protocol.cc:88-119 | it lowers the number of unanswered requests whenever its core owed one |
| `BellWait.OwnStep` | arch/common/doorbell_protocol.cc:316-333 | each step of a core's service brings the answer to a request nearer, wherever in its body it is |
| `BellWait.RequestAnswered` | arch/common/doorbell_protocol.cc:316-333 | in every run, whatever the other cores do between, a request is answered within a bounded number of its core's service steps |
| `BellWait.BodyEnds` | arch/common/doorbell_protocol.cc:316-333 | a service body under way ends within the steps it has left, in every interleaving |
| `BellWait.PollsAnswer` | arch/common/doorbell_protocol.cc:374-412 | a poll anywhere in a run, its steps interleaved with everyone's, answers every request to its core that stood at the start |
| `BellWait.PollsFree` | arch/common/doorbell_protocol.cc:374-412 | once every core has polled, whichever way their steps fell, every wait that stood is over |
| `BellWait.RingServed` | arch/common/doorbell_protocol.cc:342-365 | a ring is one request more, and the answer to it comes from a poll after it |
| `BellWait.NoDeadlock` | arch/common/doorbell_protocol.cc:374-412 | from any state of a run, in every interleaving that gives each core's service 14 n + 1 steps, every wait that stood has returned or may; no service step is ever blocked |
| `Doorbell.Cells.Pending` | arch/common/doorbell_protocol.cc:137-148 | true exactly when a request to the core is unanswered |
| `Doorbell.Cells.BlankShows` | arch/common/doorbell_protocol.cc:43-44 | blank cells are the boot state of the protocol |
| `Doorbell.Cells.Snapshot` | arch/common/doorbell_protocol.cc:88-102 | reads every request, step by step as the protocol's service does, and says whether one is owed |
| `Doorbell.Cells.RouteService` | kernel/irq/irq_route.cc:153-170 | performs every outstanding ask once, lowest core first, as the protocol's service does |
| `Doorbell.Cells.PublishAnswers` | arch/common/doorbell_protocol.cc:108-119 | answers exactly what was snapshotted |
| `Doorbell.Cells.Service` | arch/common/doorbell_protocol.cc:316-333 | the body run from off to off is a run of the protocol's service steps: nothing owed, nothing done; else every ask performed and every request answered |
| `Doorbell.Cells.Send` | arch/common/doorbell_protocol.cc:342-365 | one request to each core of the mask, the protocol's own step, the caller's own serviced at once |
| `Doorbell.Cells.Answered` | arch/common/doorbell_protocol.cc:414-430 | true exactly when every peer of the mask has answered |
| `Words.DropLowest` | kernel/mem/frame.cc:246-256 | masking a word with its predecessor clears its lowest set bit and no other |
| `Words.AboveBit` | kernel/mem/frame.cc:237-238 | all ones shifted left k have exactly the bits from k on |
| `FrameMap.CountTaking` | kernel/mem/frame.cc:169-181 | taking a free run lowers the free count by its length |
| `FrameMap.Breaks` | kernel/mem/frame.cc:246-256 | a taken frame ends every run that reaches it |
| `FrameMap.Completes` | kernel/mem/frame.cc:246-261 | a run that reaches its length is the lowest |
| `FrameAlloc.LowestFree` | kernel/mem/frame.cc:203-216 | inverting, masking and counting trailing zeros finds the lowest free frame of the word from a bit on, or shows there is none |
| `FrameAlloc.RestNext` | kernel/mem/frame.cc:246-256 | the lowest set bit is the next taken frame and the frames before it are free |
| `FrameAlloc.OverheadIs` | kernel/mem/frame.cc:84-84 | the frames reserved hold the bitmap, and one fewer would not |
| `FrameAlloc.PastBitmap` | kernel/mem/frame.cc:183-219 | a frame past those reserved lies past the bitmap and within the range |
| `FrameAlloc.Pow2Is` | kernel/mem/frame.cc:57-70 | the granule test is met by the powers of two and nothing else |
| `FrameAlloc.FrameAllocator.Init` | kernel/mem/frame.cc:57-116 | adopts a range exactly if its start is not 0 and aligned, the granule a power of two, and a frame is left past the bitmap; then the fewest frames that hold the bitmap are taken and every other free |
| `FrameAlloc.FrameAllocator.IndexOf` | kernel/mem/frame.cc:118-136 | an address is a frame's exactly when it is found, and then that frame |
| `FrameAlloc.FrameAllocator.WordAt` | kernel/mem/frame.cc:43-51 | a word's bits are its bytes', low byte first |
| `FrameAlloc.FrameAllocator.ScanWord` | kernel/mem/frame.cc:138-159 | a word's bits are the flags of its frames, read as taken past the last |
| `FrameAlloc.FrameAllocator.TakeOne` | kernel/mem/frame.cc:161-167 | one frame taken and the count lowered |
| `FrameAlloc.FrameAllocator.TakeRun` | kernel/mem/frame.cc:169-181 | a run taken and the count lowered by its length |
| `FrameAlloc.FrameAllocator.Pass` | kernel/mem/frame.cc:193-217 | a pass finds a free frame at or past its start, or shows its range full |
| `FrameAlloc.FrameAllocator.Alloc` | kernel/mem/frame.cc:183-219 | hands out a free frame past the bitmap's last byte exactly when there is one, whatever the hint |
| `FrameAlloc.FrameAllocator.FindRun` | kernel/mem/frame.cc:227-265 | the sweep finds the lowest run of that length, or shows there is none anywhere |
| `FrameAlloc.FrameAllocator.AllocRun` | kernel/mem/frame.cc:221-266 | takes the lowest run of that length, past the bitmap's last byte; 0 exactly when none exists |
| `FrameAlloc.FrameAllocator.Release` | kernel/mem/frame.cc:268-291 | frees an allocated frame that was handed out; anything else is refused and changes nothing |
| `FrameAlloc.FrameAllocator.IsAllocated` | kernel/mem/frame.cc:293-301 | true exactly of an allocated frame's address |
| `Borrowing.NoCycle` | kernel/domain/domain.cc:458-474 | no domain borrows from itself through any chain of edges |
| `Borrowing.DropOk` | kernel/domain/domain.cc:506-529 | giving up a reference keeps every count equal to outside references plus borrowers |
| `Borrowing.DropFrees` | kernel/domain/domain.cc:506-529 | a release frees exactly the domains up its chain that had one reference, lowers the count it stops at, and changes nothing else |
| `Borrowing.ClaimedOk` | kernel/domain/domain.cc:113-169 | a slot reused has no edge, no space and no borrower |
| `Borrowing.ClaimedAnew` | kernel/domain/domain.cc:128-136 | a slot reused has the next generation, no reference and no edge, and every other domain is as it was |
| `Borrowing.DonorHeld` | kernel/domain/domain.cc:458-474 | what a domain borrows from is referred to, not free, and not the slot a new domain takes |
| `Borrowing.LentOk` | kernel/domain/domain.cc:458-474 | the edge of a new borrower keeps the counts and the order of borrowing |
| `Borrowing.ReturnedOk` | kernel/domain/domain.cc:302-314 | returning a handoff turns its edge into the caller's reference |
| `DomainPool.PassedOver` | kernel/domain/domain.cc:463-474 | a handoff passed on makes a borrower of the domain it came from and none of the one it was passed through |
| `DomainPool.Domains.constructor` | kernel/domain/domain.cc:172-193 | the boot pool satisfies the invariant |
| `DomainPool.Domains.FreeSlot` | kernel/domain/domain.cc:48-63 | the slot freed last, else one never claimed |
| `DomainPool.Domains.FreePut` | kernel/domain/domain.cc:34-45 | an unreferenced domain heads the free list, once |
| `DomainPool.Domains.DropSpace` | kernel/domain/domain.cc:82-107 | the space dropped and the edge handed back |
| `DomainPool.Domains.ClaimSlot` | kernel/domain/domain.cc:113-169 | a fresh domain of the slot's next generation exactly when a slot, the budget, a space and the image allow; refused, the slot is free again |
| `DomainPool.Domains.DomainFor` | kernel/domain/domain.cc:408-484 | a new domain borrowing from the donor, or from the domain the donor was handed the memory by; a refused handoff leaves no domain and no edge |
| `DomainPool.Domains.DomainRef` | kernel/domain/domain.cc:495-504 | one reference more, not counted for an immortal domain |
| `DomainPool.Domains.Release` | kernel/domain/domain.cc:506-529 | the loop terminates and computes the release of the specification |
| `DomainPool.Domains.RetireHandoff` | kernel/domain/domain.cc:302-314 | the donor's reference passes to the caller, who may release it |
| `DomainPool.Domains.RetireHandles` | kernel/domain/domain.cc:286-292 | a counted domain's generation moves on, and nothing else changes |
| `DomainRun.StepInv` | kernel/domain/domain.cc:113-529 | every operation keeps: counts that are the references, an order of borrowing, each donor the domain that reserved the memory, each generation the times its slot was given up |
| `DomainRun.EveryRun` | kernel/domain/domain.cc:408-529 | in every run each domain counts exactly what refers to it, borrows through no cycle, and borrows from the domain that reserved the memory, which is not free |
| `DomainRun.StepAges` | kernel/domain/domain.cc:113-136 | only the slot a new domain takes, and a domain whose handles are retired, ages |
| `DomainRun.HandleNames` | kernel/domain/domain.cc:226-255 | between any two points of any run a handle names its domain exactly while its slot was given up a multiple of 2^16 times since and is referred to; it never names another slot's |
| `ConsoleOwner.StepInv` | kernel/init/console.cc:391-555 | every step keeps: no counted writer at a driver's device, and a publisher that found none still finds none |
| `ConsoleOwner.Exclusion` | kernel/init/console.cc:448-493 | in every run USER_OWNED implies no counted kernel writer at the device, across the lock gap of the hand-over, its publisher slain there or not |
| `ConsoleOwner.NeverKernelAgain` | kernel/init/console.cc:61-76 | no run returns to KERNEL_OWNED |
| `ConsoleOwner.PanicLeft` | kernel/init/console.cc:1405-1419 | a step leaves PANICKED exactly when it stores for a body that read the state before an unlocked panic |
| `ConsoleOwner.PanicFinal` | kernel/init/console.cc:1350-1383 | a run whose panics take the lock never leaves PANICKED |
| `ConsoleOwner.PanicOverwritten` | kernel/init/console.cc:462-478 | a run in which an unlocked panic is overwritten by a hand-over |
| `ConsoleOwner.DeathReclaims` | kernel/init/console.cc:528-555 | a noted death acted on with the window free takes the device from the driver, after its life or at its hand-over |
| `ConsoleOwner.KernelKeeps` | kernel/init/console.cc:391-426 | until a panic or another publish, a run keeps a device the kernel owns |
| `ConsoleOwner.DeadDriverLoses` | kernel/init/console.cc:528-555 | in every run, once a driver's death is acted on and until a panic or another publish, every writer that comes is counted in |
| `ConsoleOwner.NoteStands` | kernel/init/console.cc:496-555 | a death noted stays noted until exactly a publish begins or, outside a hand-off, the window is found free |
| `ConsoleDevice.Device.ChipWriterEnter` | kernel/init/console.cc:391-426 | a writer is counted in exactly in an owning state |
| `ConsoleDevice.Device.ChipWriterLeave` | kernel/init/console.cc:484-493 | a writer counted out |
| `ConsoleDevice.Device.HandoverBegin` | kernel/init/console.cc:448-456 | HANDING_OFF, a stale death note retired, the publisher noted |
| `ConsoleDevice.Device.WritersGone` | kernel/init/console.cc:574-578 | no counted writer left, which then stays so for its publisher |
| `ConsoleDevice.Device.OwnerSetUser` | kernel/init/console.cc:462-478 | from HANDING_OFF the hand-over, or, if its driver died during it and the window is free, the device reclaimed and the note cleared; any other state, a panic among them, is kept |
| `ConsoleDevice.Device.OnDriverDeath` | kernel/init/console.cc:528-555 | a noted death found with the window free takes the device from the driver and clears the note; otherwise, or during a hand-off, nothing changes |
| `ConsoleDevice.Device.KconsoleSlain` | kernel/init/console.cc:1099-1132 | a slain thread is off the device, and a publish it was draining is called off |
| `ConsoleDevice.Device.KpanicEnter` | kernel/init/console.cc:1350-1383 | the panic state from any other |
| `SampleHistory.StepInv` | examples/composition/sample.h:37-53 | an even sequence that has not moved means no store at all, whatever store a writer died at |
| `SampleHistory.ReadsLatest` | examples/composition/sample.h:58-81 | in every run a read that ends answers with the latest reading at that moment |
| `SampleHistory.AppendEnds` | examples/composition/sample.h:37-53 | an append with nothing between its stores counts its reading and leaves the sequence even and moved, whatever a writer before it left |
| `SampleHistory.ReadEnds` | examples/composition/sample.h:58-81 | a reader that starts on an even sequence and meets no store ends |
| `SampleHistory.History.Append` | examples/composition/sample.h:37-53 | appends whatever the predecessor left; the sequence ends even and has moved |
| `SampleHistory.History.Latest` | examples/composition/sample.h:58-81 | the latest reading, or none exactly when none was counted or a writer died mid-append |

## Left out

- Page walk: hardware entry encodings, TLB and cache maintenance; `edits_done`, `invalidate_page` and the other hooks are abstract, and `free_subtree` is not modelled.
- Page walk: the walk assumes no empty non-root table before a call and a range clear of kept root slots; `pages` times the granule does not overflow.
- AMP: the counters other than unsent, port binding, the payload bytes and badges, and the packing of a reply hold into a token's two halves.
- AmpRun.TokenNames: holds within 2^16 deaths of one record, the width of a token's generation.
- AmpReplies.LiveIff: holds within 2^16 resynchronisations of the hold's taking, the width of a ring's generation.
- AmpReserve.ReservationConserved: assumes the peer's own indices only advance over what is outstanding; without it `AmpRun.EveryRun` still holds.
- Held store: the source's branches for a store found torn (a record or entry that does not fit) cannot be reached from the invariant and are not modelled beyond a proof of that; fences and the host test hook are left out.
- HeldStore.Held.Append: a record's bound is at most 65535, the largest length a committed record can carry.
- Transmit ring: parking and waking of writers; arming and disarming; a push a flush cuts short never resumes.
- TxDrain.NeverStalls: a device found with no slot free is at a byte, whose end raises an interrupt.
- TxRing.Ring.DrainTurn: a producer's point is less than 2^31 bytes behind what has left, the range of the signed test, and the ring no larger.
- TxRing.Ring.MakeRoom: the line fits an empty ring, as kernel/syscall/syscall.cc asserts of every chunk; past that the point to reach is beyond what is queued.
- Interrupt records: notification delivery and the payer lists; what a claim's budget, binding pool and capability table answer are parameters, its admission of a line freed by the console is left out, and its reserve and publish are one step of `IrqGrace`.
- IrqBound.BindingsConserved: a claimed line is released through its claim; the source's other release is the console's, of a line it attached itself.
- IrqTable.Table.Drain: the epochs it reads are parameters, one vector for each sample and each test.
- Doorbell: the raise itself, the deadline of a wait and its panic, the self-test rounds, and sequence numbers past 2^32 within one wait.
- Doorbell: `irq_line_op`'s choice between the local and the routed path.
- Frame allocator: words of 64 bits only; addresses and sizes are unbounded, and masking with a power of two less one is written as a remainder.
- Domains: address spaces are present or absent and ranges, lends and region lists are left out; what the budget, the space and the handoff answer are parameters, and a count does not saturate at 2^16.
- Console ownership: line formatting, the record waiters and the AMP console claim.
- SampleHistory.ReadsLatest: the sequence and the count of readings do not wrap.
- Below sequential consistency nothing is claimed; fences are not modelled.
