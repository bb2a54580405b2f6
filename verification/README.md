# Confluence: a verified model of the collaborative editor

Confluence is a collaborative text editor. Every replica keeps the document in a Fugue sequence CRDT: a tree of
characters, each hung once and for all on the left or right of another, whose in-order traversal is the document.
Operations arrive in any order and wait in a causal buffer until what they refer to is there. A server orders and
stores operations, sends snapshots and catch-up chunks, and gives up what waits too long. The client shows the document
in DOM text nodes that it patches in place.

This project models that behaviour in Dafny and proves what holds of it over all inputs, all runs and all reachable
states. Code that changes things in place is a class with those fields (the tree, the engine, the coordinator, the byte
writer and reader, the editor) and each method is proved against a function of the old state; the laws are then proved
about those functions.

## How it is put together

| modules | what they hold |
|---|---|
| Identifiers, Operations, FugueShape | identifiers, operations, the document as an inductive first-child/next-sibling tree |
| FugueTrees | the tree with sibling lists and subtree sizes updated in place, related to that inductive tree |
| EngineState, Engines | one replica as a value with its transitions, and as a class whose methods refine them |
| OpSets, DocumentOrder, Replica, Convergence, FlagOrder, InOrder | what a replica holds as a function of the set of operations it received, and of their order where that counts |
| Network, Runs, OrderedRuns | any number of replicas that type, erase, undo, redo and deliver any minted operation to anyone, any number of times |
| Collection, Horizon, CollectedReplica, CollectedParent | garbage collection, the undo horizon, and what deliveries do to a replica that collected |
| LocalEdits, LocalRuns, Expand | local edits as sequence edits, run frames |
| Histories, UndoRedo, Resurrection | undo and redo, alone and against another replica's deletions |
| Seed, SnapshotSeed, WarmRecords, Audit | starting from a snapshot against replaying the log |
| Bytes, Varint, Utf8, Texts, Primitives, SnapshotBody, OpsFrames, OpsCodec, Wire | the wire formats and their round trips |
| FrameForms, SnapshotForms | the same formats byte by byte, with literal numbers |
| Intake, Release, Coordination, Grouping, Resent, Eviction, Sweeps, Commits, Durability, Gaps, NumberOrder, Records, Coordinators | the server's write path, what a message sets free, eviction, commit queue, numbering and commit records |
| LogDocument, Catchup, Rejoin, InFlight | the log against the document, catch-up chunks, and a client that reconnects |
| Utf16, RenderIndex, DomWriters, Keystrokes | the editor's text nodes, position mapping and keystrokes |

## Where the code and its documentation part

The model follows the code. In ten places it does not do what is documented or expected of it. Each has the exact
condition under which the claim holds, for all inputs, and the first seven a concrete failure besides.

- Undelete is documented as independent of arrival order (packages/engine/src/engine.ts:326-331).
  `FlagOrder.FourInTwoOrders` delivers four operations in two orders and ends with two documents;
  `FlagOrder.OrderImmaterialJustWhenSettled` says exactly which sets of operations allow no such pair of orders. If
  each replica's operations arrive in order, `InOrder.OrderedOrdersAgreeExactly` gives the exact condition, which
  ordinary undo meets (`OrderedRuns.OwnDeletionsConverge`).
- Undo and redo are documented never to resurrect another replica's deletion (packages/engine/src/engine.ts:673-690).
  `Resurrection.RunResurrects` is a run of nine actions in which they do; `Resurrection.ResurrectsExactly` says exactly
  from which stacks some sequence of undos and redos does.
- The commit mark is documented as a gap-free durable prefix (packages/server/src/documentCoordinator.ts:174-188). It is
  one exactly until a commit succeeds after a failed one (`Durability.GapFreeExactly`), as in `Gaps.GapRun`, and
  `Durability.CatchUpExactly` says from which numbers a catch-up is then still complete.
- The log's numbering is documented as causally valid (packages/server/src/documentCoordinator.ts:614-619).
  `NumberOrder.NumberingNeedNotBeCausal` numbers a character before the one it hangs from. It is causal exactly if no
  message sets an insert free behind an operation that waits for it: `NumberOrder.NumberingCausalExactly` for one
  message, `NumberOrder.RunCausalExactly` for a run; `NumberOrder.CausalArrival` covers arrival in causal order. Replay
  is not harmed: `Seed.WarmStartIsReplay` holds for any order of the suffix.
- A tombstone is documented as safe to collect once every active replica has observed its deletion
  (packages/engine/src/engine.ts:741-756). Only the coordinator collects (packages/server/src/gcScheduler.ts:80-112), and
  a client that kept the tombstone may hang the next character from it: `CollectedParent.TypedBehindCollected`.
  `CollectedParent.TypingReachesExactly` says exactly where typing still arrives, and
  `CollectedReplica.CollectingUnseenExactly` from which deliveries a collection cannot be noticed.
- What a catch-up leaves out is documented to follow by live broadcast (packages/server/src/handshake.ts:134-139). It is
  broadcast when it is numbered, before its commit, so a client that comes in between gets it from neither, unless it
  reconnects again: `InFlight.InFlightMissed`. `Rejoin.RejoinsExactly` says exactly when a client gets everything and ends with the
  coordinator's document.
- A snapshot's values are documented to round trip (packages/protocol/src/snapshotBody.ts:61-67).
  `SnapshotBody.HalvesRefused` encodes two nodes the decoder refuses; `SnapshotBody.SnapshotRoundTrip` and
  `OpsFrames.FrameRoundTrip` hold exactly if the values are characters.
- The expansion of a run is documented to match typing unconditionally (packages/protocol/src/expand.ts:78-92).
  `LocalRuns.RunExpands` gives the exact condition; `Runs.TypingIsItsRunFrame` shows that reachable replicas meet it.
- A local insert at `v` is expected to splice at `v`; it does exactly unless `v` is 0 and something visible hangs left
  of the root (`LocalEdits.InsertSplices`), which no run reaches (`Runs.TypingSplices`).
- Deleting is expected to keep the editor equal to the engine's text. It does exactly unless the range starts inside the
  document and ends past it, where the engine deletes what there is and the editor refuses: `Keystrokes.DeleteRangeAt`.

## Reading the contracts

A replica's whole state is a `State` value; `Flat(tree)` is the node sequence, `Vis` its visible part, `Text` the values.
`Origins(Flat(tree))` are the nodes without their flags. `Settled` says that no greatest delete of a node comes from a
replica that also undeleted it. `Sound`, `Orderly` and `Inv` are the invariants of the server, its commit queue and the
network of replicas. A thrown error is a result value or a `None`, and the contract says when it happens.

## Model

| member | source | states |
|---|---|---|
| Identifiers.CompareIdsTotalOrder | packages/engine/src/identifier.ts:23-28 | identifiers are strictly totally ordered, counter first and then replica, and only equal ones compare as 0 |
| FugueTrees.FugueTree.Attach | packages/engine/src/fugueTree.ts:155-181 | splices the new leaf into its sorted sibling list and corrects every size above it; refuses an unknown parent and then changes nothing |
| FugueTrees.FugueTree.UpdateSize | packages/engine/src/fugueTree.ts:183-188 | adds the two deltas to the start node and exactly its ancestors |
| FugueTrees.FugueTree.SetDeleted | packages/engine/src/fugueTree.ts:190-202 | changes one node's flag and attribution and every visible size above it; refuses an unknown node |
| FugueTrees.FugueTree.NodeAtVisible | packages/engine/src/fugueTree.ts:210-242 | the size-guided descent ends at the i-th visible node of the in-order sequence, for every i in range and nothing else |
| FugueTrees.FugueTree.DecidePlacement | packages/engine/src/fugueTree.ts:253-261 | where a character typed at a visible position hangs: right of its left origin if nothing is there, otherwise left of the leftmost node there |
| FugueTrees.FugueTree.LeftmostDescendant | packages/engine/src/fugueTree.ts:275-281 | following first left children ends at the first node of the subtree in order |
| FugueTrees.FugueTree.ToArray | packages/engine/src/fugueTree.ts:284-310 | the walk with an explicit stack terminates and gives the recursive in-order traversal |
| FugueTrees.FugueTree.Remove | packages/engine/src/fugueTree.ts:326-344 | unlinks a childless node and its sizes; an unknown node is reported and a node with children is refused, and neither changes anything |
| FugueTrees.FugueTree.TryRemoveLeaf | packages/engine/src/fugueTree.ts:366-380 | removes exactly the nodes without children, refusing otherwise |
| FugueTrees.FugueTree.VisibleIndexRightOf | packages/engine/src/fugueTree.ts:425-451 | counts the visible nodes at or before a node, live or tombstoned; 0 for the start or an unknown node |
| FugueTrees.AttachRecords | packages/engine/src/fugueTree.ts:155-188 | the records after an attach, with all sizes, describe exactly the tree with the new leaf |
| FugueTrees.UnlinkRecords | packages/engine/src/fugueTree.ts:326-344 | the records after a removal describe exactly the tree without the node |
| FugueShape.DocBeforeUp | packages/engine/src/fugueTree.ts:425-451 | walking up from a node adds exactly what stands before it at every level: the in-order prefix is the sum along the path |
| FugueShape.FlatAttach | packages/engine/src/fugueTree.ts:155-181 | attaching changes the document only inside the parent's subtree; everything before and after it stays |
| FugueShape.FlatPrune | packages/engine/src/fugueTree.ts:326-344 | cutting a set closed under descendants removes exactly its nodes and leaves the others in order |
| Engines.Engine.Text | packages/engine/src/engine.ts:247-251 | the visible values in document order |
| Engines.Engine.Mint | packages/engine/src/engine.ts:212-216 | the next identifier of this replica |
| Engines.Engine.IsReady | packages/engine/src/engine.ts:279-284 | an operation is ready exactly if the node it needs is present |
| Engines.Engine.DrainPending | packages/engine/src/engine.ts:383-403 | backward sweeps, spliced in place, run to a fixpoint and end |
| Engines.Engine.ApplyRemote | packages/engine/src/engine.ts:412-431 | ignores what was applied, buffers what is not ready, otherwise applies and drains; the whole new state |
| Engines.Engine.RejectPending | packages/engine/src/engine.ts:482-489 | drops the first buffered operation with that identifier and nothing else |
| Engines.Engine.TryRevertLocalInsert | packages/engine/src/engine.ts:509-511 | takes an insert back exactly while nothing hangs from it |
| Engines.Engine.ResolveCaret | packages/engine/src/engine.ts:546-548 | the caret index right of an anchor, live or tombstoned |
| Engines.Engine.LocalInsert | packages/engine/src/engine.ts:559-583 | mints, places, applies and records an insert, after which there is nothing to redo; out of range throws and changes nothing |
| Engines.Engine.LocalDelete | packages/engine/src/engine.ts:599-619 | deletes at one visible position over and over, stopping at the end of the document; there is nothing to redo afterwards |
| Histories.TypingEndsRedo | packages/engine/src/engine.ts:559-583 | after a character is typed, redo answers that there is nothing to do and changes nothing |
| Histories.ErasingEndsRedo | packages/engine/src/engine.ts:599-619 | likewise after any erasure, of no characters too |
| Histories.EditsMintNext | packages/engine/src/engine.ts:212-216 | typing mints the identifier after the clock, erasing one after the other from there, and the highest counters seen from others stay |
| Histories.UndoPresses | packages/engine/src/engine.ts:691-739 | an undo takes the last entry off; it does nothing on an empty stack, forgets an entry that cannot be taken back, and otherwise mints the reversal of that entry and leaves it for redo |
| Histories.RedoPresses | packages/engine/src/engine.ts:691-739 | redo, the same the other way round |
| Histories.RemoteKeepsHistory | packages/engine/src/engine.ts:412-431 | what arrives from others leaves both stacks as they were |
| Engines.Engine.StepUndoRedo | packages/engine/src/engine.ts:691-716 | one step of undo or redo: empty, unavailable or the minted inverse, and what is pushed |
| Engines.Engine.Undo | packages/engine/src/engine.ts:727-729 | undo, whose unreachable throw is never reached |
| Engines.Engine.Redo | packages/engine/src/engine.ts:737-739 | redo, likewise |
| Engines.Engine.SweepAnchored | packages/engine/src/engine.ts:802-831 | the anchor sweep is incomplete exactly if the budget ran out right after a pass that still dropped something; otherwise it keeps exactly what the fixpoint keeps |
| Engines.Engine.RemoveAll | packages/engine/src/engine.ts:843-866 | the leaves-first loop always empties the remaining set, never meets a node with children, and leaves exactly the collected state |
| Engines.Engine.Collect | packages/engine/src/engine.ts:771-869 | an incomplete sweep changes nothing; a complete one removes the greatest closed set of candidates and reports its size; incomplete exactly if the budget ran out after a pass that still dropped something |
| EngineState.UndoRedoNeverThrow | packages/engine/src/engine.ts:650-659 | reversing an entry never repeats an insert |
| OpSets.InsertBuilt | packages/engine/src/fugueTree.ts:155-181 | a new leaf spliced in by rank leaves a sorted sibling list of exactly the old siblings and it |
| OpSets.AttachBuilt | packages/engine/src/fugueTree.ts:155-181 | attaching a new leaf anywhere leaves the tree built, lists sorted all the way down, from exactly the old operations and the new one |
| OpSets.BuiltSame | packages/engine/src/fugueTree.ts:155-181 | two sorted sibling lists built from the same operations have the same shape, all the way down |
| DocumentOrder.SiblingsOrder | packages/engine/src/fugueTree.ts:70-78 | what hangs from one sibling stands before what hangs from another if and only if the one is on the left and the other on the right, or on the same side it binds and the other does not, or both do alike and its replica is smaller |
| DocumentOrder.SidesOrder | packages/engine/src/fugueTree.ts:284-310 | what hangs left of a character stands before it, what hangs right of it behind it |
| DocumentOrder.OrderDecided | packages/engine/src/fugueTree.ts:284-310 | so the order of any two characters is decided: one hangs below the other through one of its children, or two siblings stand over them |
| DocumentOrder.RunOrder | packages/engine/src/fugueTree.ts:155-181 | that is the order at every replica of every run, whatever order the characters arrived in |
| Replica.FlagsDetermined | packages/engine/src/engine.ts:297-305 | with settled deletions a node's flags are a function of the set of operations applied |
| Replica.DrainCore | packages/engine/src/engine.ts:383-403 | draining keeps the account of what was received: every operation received is applied or waiting |
| Replica.NoProgress | packages/engine/src/engine.ts:383-403 | a sweep that splices nothing out leaves no ready or repeated operation |
| Convergence.AppliedIsLeastClosure | packages/engine/src/engine.ts:357-431 | after any deliveries the applied operations are exactly the least causally closed subset of those received, which the input alone determines |
| Convergence.SameReceivedSameDocument | packages/engine/src/engine.ts:357-431 | two replicas that received the same operations applied and hold back the same, and show the same nodes in the same order |
| Convergence.DeliveryOrderIrrelevant | packages/engine/src/engine.ts:412-431 | for any operations with distinct identifiers and sibling ranks, any order with any repetitions gives the same |
| Convergence.MoreReceived | packages/engine/src/engine.ts:412-431 | receiving more never takes anything back: what was applied stays applied |
| Network.StepInv | packages/engine/src/engine.ts:212-229 | every mint, edit, undo, redo or delivery of any minted operation keeps the global invariant: identifiers unique, no two siblings minted by one replica, every replica accounts for what it received |
| Runs.RunInv | packages/engine/src/engine.ts:212-431 | the invariant holds in every run of any number of replicas |
| Runs.ReplicasConverge | packages/engine/src/fugueTree.ts:155-181 | in every run, undo and redo included, equal received sets mean equal applied sets, equal buffers and equal node order, and equal flags unless a greatest deletion was undone by its own replica |
| Runs.EditsConverge | packages/engine/src/engine.ts:297-431 | with typing and erasing only, equal received sets mean identical trees: order, tombstones and attributions |
| Runs.SiblingsFromDistinctReplicas | packages/engine/src/fugueTree.ts:70-78 | in every run siblings come from different replicas, so the order that ignores the counter is strict and total; nothing hangs left of the root |
| Runs.ArrivalNeverTies | packages/engine/src/fugueTree.ts:174-179 | no arriving insert ever ties with a sibling, so arrival order never decides |
| Runs.NothingHeldBack | packages/engine/src/engine.ts:383-403 | a replica that received everything minted waits for nothing and has applied everything |
| Runs.AttributionsDistinct | packages/engine/src/engine.ts:297-305 | no delete is the attribution of two nodes |
| FlagOrder.OrderImmaterialJustWhenSettled | packages/engine/src/engine.ts:297-355 | every order of delivery, with any repetitions, gives the same tree if and only if, in the least causally closed subset of the operations, no greatest delete of a node comes from a replica that also undeleted it |
| FlagOrder.UndeleteNeedNotCommute | packages/engine/src/engine.ts:326-355 | the documented order independence of undelete fails wherever a visible node is deleted, undeleted by the same replica, and deleted with a smaller identifier: live in one order, deleted in the other |
| FlagOrder.FourInTwoOrders | packages/engine/src/engine.ts:326-355 | the same shown from an empty replica: four operations delivered in two orders end with the character shown and hidden |
| InOrder.OrderedOrdersAgreeExactly | packages/engine/src/engine.ts:297-355 | when every operation comes after what it needs and each replica's deletes and undeletes of a node in the order minted, all orders give the same tree if and only if, for every node whose greatest delete its replica took back, every delete was taken back |
| OrderedRuns.OrderedReplicasConverge | packages/engine/src/engine.ts:297-355 | in every run whose arrivals are in that order, nothing waits at replicas that received the same, and under that condition their trees are equal, flags after ordinary undo included |
| OrderedRuns.OwnDeletionsConverge | packages/engine/src/engine.ts:297-355 | in particular always, as long as no two replicas deleted the same node |
| Collection.SweepGreatest | packages/engine/src/engine.ts:796-831 | the sweep ends at the greatest subset of the candidates closed under children |
| Collection.SomeLeafRemains | packages/engine/src/engine.ts:847-866 | while something remains to be removed, some of it has no remaining child |
| Collection.RemovingStep | packages/engine/src/engine.ts:849-865 | removing such a node keeps the account of what is gone and what remains |
| Collection.CollectKeeps | packages/engine/src/engine.ts:771-869 | the collected nodes go, the survivors keep order, text and a surviving parent |
| Horizon.CollectsExactly | packages/engine/src/engine.ts:771-831 | a node is collected if and only if it and everything below it is a tombstone past the horizon: recorded at or below the frontier, and old enough or followed by enough operations of the deleting replica |
| Horizon.ChildlessGoes | packages/engine/src/engine.ts:771-795 | the same for a tombstone without children, in terms of its record, the time and the counters alone |
| Horizon.DeliveredCounters | packages/engine/src/engine.ts:357-362 | after any deliveries the highest counter noted for a replica is the greatest among its applied operations, there is none if none is, and the clock is the greatest of all |
| Collection.CollectComposes | packages/engine/src/engine.ts:771-869 | collecting at a frontier and time and again at later ones is collecting once at the later, deletion contexts included |
| Runs.CollectingComposes | packages/engine/src/engine.ts:771-869 | the condition for that holds in every reachable replica |
| CollectedReplica.CollectingUnseenExactly | packages/engine/src/engine.ts:771-869 | whatever is delivered after a collection, the replica applies exactly what it would have applied without it if and only if nothing new that is delivered needs a collected node; then also the same waits, the text is the same, and the nodes are the same but for the collected ones |
| Runs.CollectingUnseen | packages/engine/src/engine.ts:771-869 | the same at every replica of every run, for any operations minted anywhere |
| CollectedParent.TypingReachesExactly | packages/engine/src/fugueTree.ts:253-281 | a character that a replica with the same document types at v reaches the one that collected if and only if what hangs right of the place does not start with a collected node |
| CollectedParent.TypedBehindCollected | packages/server/src/gcScheduler.ts:80-112 | an instance where it does not: two characters, the second erased, seen by all and collected by the coordinator; the next character typed behind the first hangs from the tombstone and is not applied |
| LocalEdits.LandsAfterOrigin | packages/engine/src/fugueTree.ts:253-261 | the new node directly follows its left origin in the full order, tombstones included |
| LocalEdits.InsertLands | packages/engine/src/engine.ts:559-583 | the whole node sequence and the visible one after a local insert |
| LocalEdits.InsertTextLands | packages/engine/src/engine.ts:559-583 | the text after a local insert at any position |
| LocalEdits.InsertSplices | packages/engine/src/engine.ts:559-583 | inserting at v is the plain splice at v if and only if v > 0 or nothing visible hangs left of the root |
| Runs.TypingSplices | packages/engine/src/engine.ts:559-583 | in every run it is the plain splice at every position |
| LocalRuns.LocalDeleteErases | packages/engine/src/engine.ts:599-619 | erasing tombstones exactly the visible nodes v..v+k, clamped, and mints what one batch frame expands to |
| LocalRuns.RunExpands | packages/protocol/src/expand.ts:94-111 | a typed burst mints exactly its expanded run frame if and only if it is one character, or starts behind position 0, or nothing visible hangs left of the root |
| Runs.TypingIsItsRunFrame | packages/protocol/src/expand.ts:94-111 | in every run it always does |
| Expand.ExpandInsertRun | packages/protocol/src/expand.ts:94-111 | the loop expands a run into consecutive counters, the first where the run says, each other one right of the one before |
| UndoRedo.UndoRedoRestores | packages/engine/src/engine.ts:691-739 | from any healthy pair of stacks, k undos and k redos restore the visibility of every node, and the text |
| UndoRedo.SessionHealthy | packages/engine/src/engine.ts:575-581 | any local edits, undos and redos keep the stacks such histories |
| UndoRedo.UndoAllRestores | packages/engine/src/engine.ts:691-739 | after any local session, undoing the whole stack restores the text it started from |
| UndoRedo.SessionUndoRedo | packages/engine/src/engine.ts:691-739 | in any local session k undos and k redos change nothing one can see |
| Resurrection.ResurrectsExactly | packages/engine/src/engine.ts:673-739 | the documented promise never to resurrect another replica's deletion has an exact condition: some sequence of undos and redos revives the node if and only if the two stacks hold an entry whose reversal deletes it and one whose reversal undeletes it |
| Resurrection.RunResurrectsExactly | packages/engine/src/engine.ts:673-739 | and the condition decides at every replica of every run |
| Resurrection.RedoResurrects | packages/engine/src/engine.ts:673-739 | the promise fails: two undos and two redos of entries without effect take the attribution over and revive the node |
| Resurrection.RunResurrects | packages/engine/src/engine.ts:673-739 | a run of two replicas and nine actions in which it fails, for any character |
| Runs.StacksAreOwn | packages/engine/src/engine.ts:575-581 | in every run both stacks hold only the replica's own operations, and undo and redo never throw |
| SnapshotSeed.ReplaySnapshotNodesInto | packages/protocol/src/snapshotSeed.ts:61-84 | two loops through the engine deliver every insert and then every winning delete |
| SnapshotSeed.SeedEngineFromSnapshot | packages/protocol/src/snapshotSeed.ts:87-91 | a fresh engine after that delivery |
| Seed.SeedRebuilds | packages/protocol/src/snapshotSeed.ts:61-84 | whoever received exactly the seed of a document, in any order, holds that document and waits for nothing |
| Seed.SeedingRebuilds | packages/protocol/src/snapshotSeed.ts:61-84 | seeding from the nodes of any replica, left children fed before their parents, rebuilds its tree with nothing waiting |
| Seed.WarmStartIsReplay | packages/server/src/documentCoordinator.ts:627-656 | snapshot and suffix, undeletes included, give exactly the tree of a full replay, and a start is refused exactly if that replay leaves something waiting |
| SnapshotSeed.WarmStartEngine | packages/server/src/documentCoordinator.ts:636-649 | the start of a coordinator's engine, with its refusal |
| WarmRecords.WarmRecordsExactly | packages/server/src/documentCoordinator.ts:627-656 | after a start from a snapshot and a suffix, the tombstones with a record are exactly those whose delete is in the suffix, each under its number and time there |
| SnapshotSeed.TransferRebuilds | packages/protocol/src/snapshotSeed.ts:61-91 | a sent snapshot decodes to the document's nodes if and only if they hold characters only, and seeding from them rebuilds the document with nothing waiting |
| Audit.CutOffExact | packages/server/src/audit.ts:52-61 | stopping at the first later entry keeps exactly the entries up to the cut in an ordered log |
| Audit.ReplayThrough | packages/server/src/audit.ts:52-61 | a fresh engine with exactly that prefix applied |
| Audit.BisectSnapshotDivergence | packages/server/src/audit.ts:89-119 | the snapshot found disagrees and the one before it agrees; it is the first that disagrees if disagreement persists |
| Bytes.ByteWriter.WriteByte | packages/protocol/src/bytes.ts:12-14 | appends the low eight bits |
| Bytes.ByteWriter.WriteBytes | packages/protocol/src/bytes.ts:16-20 | appends a chunk byte by byte |
| Bytes.ByteReader.ReadByte | packages/protocol/src/bytes.ts:47-52 | takes one byte or reports truncation without moving past the end |
| Bytes.ByteReader.ReadBytes | packages/protocol/src/bytes.ts:54-64 | takes a slice that is there or reports truncation |
| Bytes.ByteReader.AtEnd | packages/protocol/src/bytes.ts:67-69 | true exactly if nothing is left |
| Varint.WriteVarint | packages/protocol/src/varint.ts:17-34 | writes the LEB128 form, refusing exactly the values outside 0..2^53-1 |
| Varint.ReadVarint | packages/protocol/src/varint.ts:42-66 | reads what parsing gives, with the cap of ten bytes and the bound on the value |
| Varint.VarintRoundTrip | packages/protocol/src/varint.ts:17-66 | reading what was written gives the value back whatever follows, so the code is prefix-decodable |
| Varint.VarintAtMostEight | packages/protocol/src/varint.ts:17-34 | every value takes at most eight bytes |
| Varint.VarintForm | packages/protocol/src/varint.ts:17-34 | the bytes are the groups of seven bits of the value, the low one first, the high bit set on all but the last, with no empty group at the end |
| Varint.ReadExactly | packages/protocol/src/varint.ts:42-66 | every outcome of reading: too many continued bytes, too few bytes, a value past 2^53-1, or the value of the groups |
| Utf8.EncodeDecode | packages/protocol/src/primitives.ts:48-63 | decoding encoded text gives the text back |
| Utf8.DecodeEncode | packages/protocol/src/primitives.ts:55-63 | the strict decoder accepts nothing but encodings: overlong forms, surrogates and stray bytes are refused |
| Utf8.ScalarForm | packages/protocol/src/primitives.ts:48-53 | the one to four bytes of a character and what they stand for |
| Primitives.EncodeStamp | packages/protocol/src/primitives.ts:12-15 | writes counter and replica, refusing unsafe ones |
| Primitives.DecodeStamp | packages/protocol/src/primitives.ts:17-21 | reads them |
| Primitives.StampRoundTrip | packages/protocol/src/primitives.ts:12-21 | a stamp reads back whatever follows |
| Primitives.EncodeOptionalStamp | packages/protocol/src/primitives.ts:32-36 | writes a stamp or nothing |
| Primitives.DecodeOptionalStamp | packages/protocol/src/primitives.ts:38-40 | reads one exactly if announced |
| Primitives.OptionalStampRoundTrip | packages/protocol/src/primitives.ts:32-40 | an optional stamp reads back |
| SnapshotBody.GroupIntoChainBlocks | packages/protocol/src/snapshotBody.ts:114-132 | the loop computes the grouping into chains |
| SnapshotBody.GroupMaximal | packages/protocol/src/snapshotBody.ts:99-132 | the grouping covers the nodes in order, every block is a chain, and no two neighbours could be joined |
| SnapshotBody.MaximalUnique | packages/protocol/src/snapshotBody.ts:99-132 | there is only one such grouping |
| Texts.RepairedExactly | packages/protocol/src/snapshotBody.ts:150-152 | joining values into a string and encoding it keeps their number if and only if no two surrogates pair up, and then replaces each lone one |
| SnapshotBody.BlockRoundTrip | packages/protocol/src/snapshotBody.ts:138-219 | a block reads back as its chain, flags, parent, values and attribution, lone surrogates replaced, and is refused exactly if surrogates pair up in it |
| SnapshotBody.AnyGroupingRoundTrips | packages/protocol/src/snapshotBody.ts:134-223 | decoding gives the nodes back whatever the grouping into chains, lone surrogates replaced; it is refused exactly if surrogates pair up in some block |
| SnapshotBody.SnapshotRoundTrip | packages/protocol/src/snapshotBody.ts:134-223 | whatever the encoder accepts, decoding gives exactly the nodes back if and only if their values are characters |
| SnapshotBody.ReencodesAlike | packages/protocol/src/snapshotBody.ts:134-223 | encoding what was decoded gives the same bytes, so the replacement of lone surrogates happens once |
| SnapshotBody.HalvesRefused | packages/protocol/src/snapshotBody.ts:134-223 | two typed surrogates that pair up make a snapshot its own decoder refuses |
| SnapshotForms.GroupsExactly | packages/protocol/src/snapshotBody.ts:99-132 | a node shares the block of the node before it if and only if it continues it: next counter, same replica, hung right of it, everything else alike |
| SnapshotForms.SnapshotForm | packages/protocol/src/snapshotBody.ts:134-156 | the bytes of a snapshot with small fields, literally: the number of blocks, and each block's flags, identifier, length, parent, text length, text and attribution; they decode to the nodes |
| SnapshotForms.RunIsOneBlock | packages/protocol/src/snapshotBody.ts:99-132 | a typed run is one block |
| SnapshotForms.TrailingRefused | packages/protocol/src/snapshotBody.ts:215-220 | anything behind the blocks is refused |
| SnapshotForms.FlagsRefused | packages/protocol/src/snapshotBody.ts:163-169 | a reserved flag is refused |
| SnapshotForms.EmptyRefused | packages/protocol/src/snapshotBody.ts:170-177 | a block of no nodes is refused |
| SnapshotForms.CountRefused | packages/protocol/src/snapshotBody.ts:180-197 | a block whose text has another number of characters than it announces is refused |
| SnapshotBody.EncodeStructureSnapshotBody | packages/protocol/src/snapshotBody.ts:134-156 | the bytes of the grouped nodes, refusing exactly the values no string holds and what a varint cannot carry |
| SnapshotBody.DecodeStructureSnapshotBody | packages/protocol/src/snapshotBody.ts:158-223 | the decoder, with each of its refusals |
| OpsCodec.EncodeFrame | packages/protocol/src/codec.ts:350-381 | the frame of a message, refusing exactly the messages a frame cannot carry |
| OpsCodec.DecodeFrame | packages/protocol/src/codec.ts:394-463 | the decoder agrees with parsing on every byte string, for either direction, refusals and trailing bytes included |
| OpsCodec.EncodeOpInsertRunPayload | packages/protocol/src/codec.ts:119-137 | a run payload; fewer than two characters, or a value no string holds, are refused |
| OpsCodec.DecodeOpInsertRunPayload | packages/protocol/src/codec.ts:139-185 | its decoder, count and text checked against each other |
| OpsCodec.EncodeOpDeleteBatchPayload | packages/protocol/src/codec.ts:205-218 | a batch payload |
| OpsCodec.DecodeOpDeleteBatchPayload | packages/protocol/src/codec.ts:220-239 | its decoder |
| OpsCodec.EncodeOpAckPayload | packages/protocol/src/codec.ts:259-265 | an acknowledgement payload |
| OpsCodec.DecodeOpAckPayload | packages/protocol/src/codec.ts:267-276 | its decoder |
| OpsCodec.EncodeOpRejectPayload | packages/protocol/src/codec.ts:282-293 | a rejection payload |
| OpsCodec.DecodeOpRejectPayload | packages/protocol/src/codec.ts:295-320 | its decoder, unknown reasons refused |
| OpsFrames.FrameRoundTrip | packages/protocol/src/codec.ts:350-463 | every frame the encoder makes is decoded to the same message if and only if its sender may send it and its text is characters; every other outcome is named, bytes behind the frame included |
| OpsFrames.AcceptedIsLegal | packages/protocol/src/codec.ts:394-463 | whatever bytes arrive, an accepted message is one its sender may send and a frame can carry |
| FrameForms.Envelope | packages/protocol/src/messages.ts:35-43 | the first three bytes of a frame: version 1, channel 1, and the number of its type |
| FrameForms.InsertForm | packages/protocol/src/codec.ts:81-117 | the bytes of an insert with small fields, literally: number, flags, identifier, parent, character; they decode to it, but for a client that numbered it itself |
| FrameForms.RunForm | packages/protocol/src/codec.ts:119-185 | the bytes of a run likewise: the head of an insert, how many characters, how many bytes, the text |
| FrameForms.MarkForm | packages/protocol/src/codec.ts:187-257 | the bytes of a delete and of an undelete likewise: number, target, identifier |
| FrameForms.BatchForm | packages/protocol/src/codec.ts:205-239 | the bytes of a batch likewise: number, author, first counter, how many, the targets |
| FrameForms.AckForm | packages/protocol/src/codec.ts:259-276 | the bytes of acknowledgements likewise, and that a client may not send them |
| FrameForms.RejectForm | packages/protocol/src/codec.ts:282-320 | the bytes of rejections likewise, with the number of each reason and the detail, and that a client may not send them |
| FrameForms.FramedExactly | packages/protocol/src/codec.ts:350-381 | a message can be framed if and only if every number in it is at most 2^53-1, runs and batches have two members at least, and text is of code points |
| FrameForms.TrailingRefused | packages/protocol/src/codec.ts:455-463 | no frame is accepted with anything behind it |
| FrameForms.EnvelopeRefused | packages/protocol/src/codec.ts:394-454 | what is refused for its first three bytes, in the order of the checks |
| FrameForms.FlagsRefused | packages/protocol/src/codec.ts:47-57 | a reserved flag of an insert or a run is refused |
| FrameForms.RunRefused | packages/protocol/src/codec.ts:139-185 | a run of fewer than two characters, or of another number than it announces, is refused |
| FrameForms.BatchRefused | packages/protocol/src/codec.ts:220-239 | a batch of fewer than two targets is refused |
| FrameForms.ReasonRefused | packages/protocol/src/codec.ts:295-320 | an unknown reason is refused |
| Wire.OperationsToRunMessages | packages/client/src/sync/wireHelpers.ts:105-132 | inserts become messages for exactly these inserts, as few as there are chains |
| Wire.DeleteOperationsToMessages | packages/client/src/sync/wireHelpers.ts:182-209 | deletes likewise, by author and consecutive counters |
| Wire.OperationsToWireMessages | packages/client/src/sync/wireHelpers.ts:152-179 | any mixed list becomes messages that stand for exactly these operations in order, and no list of messages for them is shorter |
| Wire.NeverFewerMessages | packages/client/src/sync/wireHelpers.ts:88-103 | a message never spans two operations that do not continue each other |
| Wire.FramesDeliver | packages/server/src/ingest.ts:18-36 | the far end expands the decoded frames to what the messages stand for |
| Wire.WireRoundTrip | packages/client/src/sync/wireHelpers.ts:152-179 | operations to messages to frames and back gives exactly the operations |
| Intake.DrainProgress | packages/engine/src/engine.ts:383-403 | draining removes from the buffer exactly what it applies |
| Intake.MessageTaken | packages/server/src/writePath.ts:311-343 | for every kind of message: the buffer loses exactly what was set free and gains exactly what is not ready, and nothing the message buffered is set free by a later part of it |
| Coordination.FastIsSlow | packages/server/src/writePath.ts:345-350 | the fast path does what the slow path would, but for grouping the commits |
| Grouping.Grouped | packages/server/src/writePath.ts:311-604 | what a message makes ready is numbered first, in its order and for its sender, then what it sets free, in the order of the buffer and each for its own sender; there is one commit for the message if it was ready as a whole and set nothing free, otherwise one for each operation |
| Release.FreedExactly | packages/engine/src/engine.ts:383-431 | what a message applies, of itself and of the buffer, is exactly the least part closed under what it supports |
| Resent.AppliedNumberedAgain | packages/server/src/writePath.ts:311-493 | an applied operation that arrives again changes nothing in the document, but is numbered and committed a second time |
| Resent.WaitingWaitsTwice | packages/server/src/writePath.ts:311-350 | a waiting operation that arrives again is not numbered; it waits twice, for its last sender |
| Resent.FreedOnce | packages/server/src/writePath.ts:305-343 | and when it is set free it is numbered once |
| Coordination.ProcessSound | packages/server/src/writePath.ts:311-604 | one message keeps every accepted operation accounted for under its own sender, numbers contiguous, and the recorded origins exactly those of the waiting operations |
| Coordination.AllAreOwn | packages/server/src/writePath.ts:237-246 | where the first operation of a message carries the session's replica, all of them do |
| Records.MessageNotes | packages/server/src/writePath.ts:379-384 | processing a message records for each delete it numbers exactly that number and the time, and touches no other record but those of deletes that went |
| Records.NotBelowItsNumber | packages/server/src/gcScheduler.ts:80-112 | in every run of the coordinator: no collection at a frontier below the number of a delete removes its tombstone |
| Records.TombstoneGoesExactly | packages/server/src/gcScheduler.ts:80-112 | and a childless tombstone goes if and only if the frontier has reached the number of its delete and it is old enough or followed by enough operations of the deleting replica |
| Resent.AgainStaysSound | packages/server/src/writePath.ts:311-493 | numbering an applied operation again keeps the account, the numbers and the commits in step, and the log as causal as it was |
| Resent.CopyAccounted | packages/server/src/writePath.ts:311-350 | a waiting copy keeps the account by operations; the account with senders is kept if and only if the copy has the same sender |
| Resent.FreedLosesOne | packages/server/src/writePath.ts:305-343 | when two copies are set free, exactly one of them drops out of the account |
| NumberOrder.CausalReads | packages/server/src/documentCoordinator.ts:614-625 | causal order read position by position: what each operation needs was there or an earlier one inserted it |
| NumberOrder.NumberingNeedNotBeCausal | packages/server/src/writePath.ts:563-604 | the documented causal order of the numbering fails: three characters arriving last first are numbered with the third before the second it hangs from |
| NumberOrder.NumberingCausalExactly | packages/server/src/writePath.ts:311-604 | the operations of one message and those it sets free are numbered in causal order if and only if, in the buffer before it came, nothing waited in front of the insert it needs while that insert is set free |
| NumberOrder.RunCausalExactly | packages/server/src/documentCoordinator.ts:614-625 | in every run the whole numbering is causal if and only if no message ever found such a pair |
| NumberOrder.CausalArrival | packages/server/src/documentCoordinator.ts:614-625 | if every operation arrives after the insert it needs, nothing ever waits and the numbering is the order of arrival |
| Eviction.EvictSound | packages/server/src/offlineWindowScheduler.ts:126-140 | giving up one waiting operation keeps the account |
| Eviction.AgePassExact | packages/server/src/offlineWindowScheduler.ts:95-141 | the age pass gives up exactly what was noticed long enough ago and notes the rest |
| Eviction.SizePassExact | packages/server/src/offlineWindowScheduler.ts:184-221 | the size pass gives up exactly the overflow, and nothing seen later than something kept |
| Eviction.SweepExact | packages/server/src/offlineWindowScheduler.ts:86-222 | a sweep keeps the account and bounds the buffer in age and size |
| Sweeps.SweepExactly | packages/server/src/offlineWindowScheduler.ts:86-222 | a sweep gives up what was noticed the timeout ago or earlier, and of the rest as many as are too many, the longest noticed first and of those noticed together the first in the buffer; it notes what it sees for the first time and forgets what is gone |
| Commits.StepOrderly | packages/server/src/documentCoordinator.ts:222-235 | every event, in any interleaving, keeps commits in numbering order, durability their successes and the mark the last of them |
| Durability.RunOrderly | packages/server/src/documentCoordinator.ts:222-235 | so in every run |
| Durability.AcceptedPartitioned | packages/server/src/writePath.ts:311-350 | in every run an accepted operation is finalized, waiting or evicted, exactly one of the three, under its own sender, and nothing else is any |
| Durability.OriginNeverMissing | packages/server/src/writePath.ts:563-583 | the recorded origins are exactly the waiting operations', so the missing-origin branch is dead |
| Durability.SequenceNumbers | packages/server/src/writePath.ts:592-604 | numbers are contiguous, one for each finalized operation, none for a waiting one |
| Durability.GapFreeExactly | packages/server/src/documentCoordinator.ts:195-235 | everything up to the mark is durable if and only if no commit succeeded after one failed; the documentation promises it always |
| Gaps.GapRun | packages/server/src/documentCoordinator.ts:195-235 | a run in which it fails: two messages, the first commit fails, the second succeeds, and the mark covers an operation that is not durable |
| Durability.DurableWithin | packages/server/src/documentCoordinator.ts:222-235 | a durable operation is finalized and numbered within the mark |
| Durability.AcknowledgedStays | packages/server/src/writePath.ts:455-493 | once acknowledged, an operation stays durable, applied and within the mark however the run goes on, and is in every later catch-up that starts below it |
| Durability.CatchUpExactly | packages/server/src/handshake.ts:156-176 | in every run a catch-up sends every operation it promises if and only if each commit that failed before a later success ends at or below the number it starts from |
| Durability.CatchUpComplete | packages/server/src/handshake.ts:156-176 | so from any number, as long as no commit succeeded after one failed |
| LogDocument.LogIsDocument | packages/server/src/writePath.ts:311-604 | in every run, whatever waits or was given up, the coordinator's document is the one its log makes: any replica that received the start and the numbered operations, in any order, holds it with nothing waiting |
| Rejoin.RebuiltFrom | packages/client/src/sync/syncClient.ts:1255-1265 | a replica fed only some of a document's operations, all inserts among them, has the same nodes in the same order, and the same flags if deletions are settled and the greatest of each node is among them |
| Rejoin.RejoinsExactly | packages/client/src/sync/syncClient.ts:1255-1367 | at any point of any run a client that rebuilds from its nodes, applies the chunks and then what is relayed ends with the coordinator's document if no commit succeeded behind a failed one above its number and nothing numbered was still uncommitted; a client that held nothing above its number gets every operation only then |
| InFlight.InFlightMissed | packages/server/src/writePath.ts:387-454 | a run in which it does not: an operation numbered and relayed before the client came, and committed after, is neither in the catch-up nor relayed again |
| Coordinators.Coordinator.WarmStart | packages/server/src/documentCoordinator.ts:627-656 | the coordinator's start: the warm engine, its numbering and its mark, or a refusal |
| Coordinators.Coordinator.ApplyMessage | packages/server/src/writePath.ts:316-328 | applies a message in order and records the sender of what is buffered |
| Coordinators.Coordinator.PendingBefore | packages/server/src/writePath.ts:305-314 | the buffer as a map by identifier: first place, last value |
| Coordinators.Coordinator.SideEffects | packages/server/src/writePath.ts:335-341 | finds exactly the operations that left the buffer, in order |
| Coordinators.Coordinator.RunFastPath | packages/server/src/writePath.ts:358-454 | numbers, records and queues one commit |
| Coordinators.Coordinator.TakeOrigins | packages/server/src/writePath.ts:563-583 | looks up and forgets the senders of freed operations |
| Coordinators.Coordinator.RunSlowPath | packages/server/src/writePath.ts:542-666 | numbers everything ready and queues a commit for each |
| Coordinators.Coordinator.AcceptMessage | packages/server/src/writePath.ts:311-350 | the atomic part of the write path |
| Coordinators.Coordinator.ProcessIncomingOperation | packages/server/src/writePath.ts:160-351 | a message is accepted if and only if the document is not locked, the session may write, the first operation carries the session's replica and the rate allows it; otherwise the reason is the first check that fails, and nothing changes |
| Coordinators.Coordinator.EnqueueCommit | packages/server/src/documentCoordinator.ts:222-235 | queues behind every earlier commit |
| Coordinators.Coordinator.SettleCommit | packages/server/src/documentCoordinator.ts:224-233 | the store's answer to the oldest outstanding commit |
| Coordinators.Coordinator.Acknowledge | packages/server/src/writePath.ts:475-493 | acknowledges only a commit that succeeded |
| Coordinators.Coordinator.AgeSweep | packages/server/src/offlineWindowScheduler.ts:95-141 | the age loop over a snapshot of the buffer |
| Coordinators.Coordinator.PruneTracking | packages/server/src/offlineWindowScheduler.ts:143-155 | forgets what no longer waits |
| Coordinators.Coordinator.SizeSweep | packages/server/src/offlineWindowScheduler.ts:184-221 | the size loop, oldest first |
| Coordinators.Coordinator.RunOfflineWindow | packages/server/src/offlineWindowScheduler.ts:86-222 | a whole sweep |
| Catchup.ChunkCatchupOperations | packages/server/src/handshake.ts:105-128 | nonempty chunks that make up the range in order, each within 256 operations and 64 KB unless one operation alone exceeds it, ending at its last number; no split within the limits has fewer |
| Catchup.PiecesFewest | packages/server/src/handshake.ts:105-128 | filling each chunk as far as it goes is optimal |
| Catchup.PiecesExactly | packages/server/src/handshake.ts:105-128 | a new chunk is begun exactly when the next operation has no room in the one before: 256 operations, or more than 65536 bytes together |
| Utf16.JoinSurvivesJustWhenWhole | packages/client/src/binding/unicodeOffsets.ts:1-9 | joining characters and iterating gives them back if and only if no lone high surrogate meets a lone low one |
| Utf16.SpliceSurvivesJustWhenWhole | packages/client/src/binding/domWriter.ts:72-82 | putting any string into any other at a character start adds up their characters, in order, if and only if no lone high surrogate meets a lone low one at the two joints |
| Utf16.EncodeCodePoints | packages/client/src/binding/unicodeOffsets.ts:1-9 | iterating any string and joining gives the string, lone surrogates and all |
| Utf16.UnitsForm | packages/client/src/binding/unicodeOffsets.ts:1-9 | the one or two code units of a character and what they stand for |
| Utf16.ScalarToUtf16 | packages/client/src/binding/unicodeOffsets.ts:12-33 | the code unit at which a character starts; refuses exactly the offsets out of range |
| Utf16.Utf16ToScalar | packages/client/src/binding/unicodeOffsets.ts:36-62 | the inverse; refuses exactly the offsets out of range or inside a surrogate pair |
| Utf16.CutsAvoidPairs | packages/client/src/binding/unicodeOffsets.ts:73-82 | no character starts inside a pair, judged from the neighbouring code units alone |
| Utf16.OffsetIsCut | packages/client/src/binding/unicodeOffsets.ts:73-82 | and every other offset is the start of a character or the end |
| RenderIndex.FindRunForVis | packages/client/src/binding/renderIndex.ts:38-60 | the binary search finds the last run starting at or before a position, for exactly the positions of the document |
| RenderIndex.TotalIsViewLength | packages/client/src/binding/renderIndex.ts:20-26 | the end of the last run is the length of everything shown |
| RenderIndex.VisToDom | packages/client/src/binding/positionMapping.ts:15-33 | a DOM position that denotes the document position and is never inside a surrogate pair |
| RenderIndex.DomToVis | packages/client/src/binding/positionMapping.ts:41-56 | the document position a DOM position denotes; a text position is refused exactly if the node or offset denotes none |
| RenderIndex.DenotesOne | packages/client/src/binding/positionMapping.ts:41-56 | a DOM position denotes at most one document position |
| RenderIndex.NormalizeElementPosition | packages/client/src/binding/positionMapping.ts:76-99 | an element position counts the characters of the children before it |
| RenderIndex.ElementPositionIsRunStart | packages/client/src/binding/positionMapping.ts:58-99 | whatever elements stand between the text nodes, it is the start of the next run |
| RenderIndex.ThereAndBack | packages/client/src/binding/positionMapping.ts:15-56 | to the DOM and back is the identity on every position, in the empty document too |
| RenderIndex.BoundaryTwice | packages/client/src/binding/renderIndex.ts:28-37 | a run's end and the next run's start are two names for one position |
| DomWriters.DomWriter.Mount | packages/client/src/binding/domWriter.ts:34-45 | replaces the editor by runs showing exactly the text, 512 characters in each but the last |
| DomWriters.DomWriter.InsertText | packages/client/src/binding/domWriter.ts:54-93 | splices the text in at a document position, keeps every run exact, nonempty and at most 512, moves no text node, and, with assertions on, fails exactly if the caller's text differs |
| DomWriters.DomWriter.DeleteRange | packages/client/src/binding/domWriter.ts:96-139 | cuts the range out across any number of runs and terminates; makes no text node; out of range changes nothing |
| DomWriters.DomWriter.DeleteFromRun | packages/client/src/binding/domWriter.ts:112-136 | each round deletes at least one character, so the loop ends and its inconsistency throw is dead |
| DomWriters.DomWriter.SplitOversizedRun | packages/client/src/binding/domWriter.ts:214-243 | splits without changing what is shown, new text nodes in order right after the old one |
| DomWriters.DomWriter.Locate | packages/client/src/binding/positionMapping.ts:15-56 | at any time every position the editor shows has a place among its own text nodes that leads back to it |
| DomWriters.DomWriter.RenumberStartVis | packages/client/src/binding/domWriter.ts:245-251 | recomputes every start and nothing else |
| DomWriters.DomWriter.AppendRunsForText | packages/client/src/binding/domWriter.ts:195-211 | appends runs showing the text, 512 characters in each but the last |
| DomWriters.DomWriter.MaterializedText | packages/client/src/binding/domWriter.ts:142-144 | the text nodes' strings, joined |
| DomWriters.DomWriter.AssertConsistent | packages/client/src/binding/domWriter.ts:163-193 | with assertions on, it holds exactly if the joined text is as expected and every run is measured and placed |
| DomWriters.JoinedShowsView | packages/client/src/binding/domWriter.ts:142-144 | joining the strings loses nothing of what the runs show |
| Keystrokes.LocalInsertText | packages/client/src/sync/syncClient.ts:765-775 | typing character by character gives the text with the first character where it lands and the rest behind it by position: the plain splice, unless the position is 0 and something visible hangs left of the root |
| Keystrokes.LocalDelete | packages/client/src/sync/syncClient.ts:733-744 | the engine erases as much of the range as there is |
| Keystrokes.InsertTextAt | packages/client/src/input/inputPipeline.ts:155-179 | what editor and engine show after typing or pasting; they agree and the comparison does not fail unless the position is 0 and something visible hangs left of the root |
| Keystrokes.DeleteRangeAt | packages/client/src/input/inputPipeline.ts:182-200 | for any range, engine and editor stay in step if and only if it does not start inside the document and end past it; what each then shows |

## Left out

- Runs.ReplicasConverge: collection and reverting a rejected insert are not steps of these runs; an insert whose parent was collected elsewhere waits for ever, so convergence is stated without them, and `Runs.CollectingUnseen` says exactly when a collection after a run makes no difference. Undelete reaches the runs through undo and redo, with the flags agreeing under the stated condition.
- FugueTrees.FugueTree.Attach: the nodes live in a map from identifier to record instead of linked objects, so pointer identity is not modelled; the identifier must be new, which the engine's applied set guarantees.
- Engines.Engine.Collect: the time budget is an arbitrary predicate on the number of passes instead of a clock.
- Engines.Engine.LocalInsert: whether a character continues a grapheme cluster is an input bit; the Unicode tables are not modelled.
- Coordinators.Coordinator.ProcessIncomingOperation: authorization, the circuit breaker and the rate limits are inputs. Relayed bytes, metrics, logging, crash injection, snapshot scheduling and disconnects are not modelled.
- Coordinators.Coordinator.RunFastPath: the switch that acknowledges before the commit is off.
- Coordinators.Coordinator.SettleCommit: the store succeeds or fails; the SQL behind it, and the promise chain beyond its first-in first-out order, are not modelled.
- Coordinators.Coordinator.RunOfflineWindow: evicted operations are recorded, not grouped into one rejection per session and sent; the built-in stable sort is a stable insertion sort as a function.
- Coordinators.Coordinator.WarmStart: the persisted number is what the store returns; the rebuild from the log and replica id allocation are not modelled.
- Durability.CatchUpExactly: the range query returns the durable operations in the range; the handshake around it (WELCOME, ALREADY_HAVE, the choice of mode) is not modelled.
- Rejoin.RejoinsExactly: the client has no unacknowledged operations of its own and sends none meanwhile, so nothing is filtered from its nodes; how it comes to report the number up to which it holds the log is not modelled, nor is a client that holds deletions which a warm start from a snapshot dropped.
- Catchup.ChunkCatchupOperations: an operation's encoded size is an input.
- Audit.BisectSnapshotDivergence: what is compared is the replayed text; recording the result of an audit is not modelled.
- Varint.ReadVarint: floating point is mathematical integers with the check against 2^53-1.
- Wire.OperationsToWireMessages: undeletes are handled by a loop of their own instead of inline.
- DomWriters.DomWriter.InsertText: text holds no lone surrogate; `Utf16.SpliceSurvivesJustWhenWhole` says exactly when a splice with lone ones would still keep the index exact. Text nodes are values in the run list, and the root's children a list of their numbers, so no other code can hold on to them.
- DomWriters.DomWriter.Mount: text holds no lone surrogate, as for InsertText.
- DomWriters.DomWriter.AppendRunsForText: text holds no lone surrogate, as for InsertText.
- DomWriters.DomWriter.DeleteFromRun: the body of the loop in DeleteRange.
- Intake.MessageTaken: the message's operations are new to the coordinator; `Resent` says what becomes of one sent again.
- Coordination.ProcessSound: the same; `Resent.AgainStaysSound`, `Resent.CopyAccounted` and `Resent.FreedLosesOne` say what one sent again does to the account. The store, which skips its second row by its unique stamp, is not modelled.
- NumberOrder.NumberingCausalExactly: the same; an operation numbered again leaves the log as causal as it was (`Resent.AgainStaysSound`).
- Keystrokes.InsertTextAt: text holds no lone surrogate; the caret, selections, the mutation sentinel and the offline window are not modelled.
- Control and presence frames, UUIDs and debug projection: the same kind of round trip as the OPS frames.
- WebSocket and HTTP plumbing, React, the browser's selection and input method handling, presence rendering: input, output and user interface.
- Authentication, tickets, permissions, metrics, logging, timers, admin commands, migrations: library wrappers and single branches.
- The rest of the reconnection handshake, the durable queue and the reconciliation of offline edits.
