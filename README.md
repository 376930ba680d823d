# PixelTuio, modelled in Dafny

PixelTuio turns the touches of a Microsoft Surface (SUR40) into a TUIO 1.1
stream. Each tick, the application's touch handler `process_touches` works out
which session ids are new, which moved and which disappeared. It drives a small
TUIO server that keeps two session tables:

- cursors, for fingers, on the `/tuio/2Dcur` profile;
- objects, for tagged objects, on the `/tuio/2Dobj` profile.

On every commit the server sends one OSC bundle per table. Each bundle is an
`alive` message listing every live session id, then one `set` message per
entity, then an `fseq` message carrying the frame counter.

The project has one module per part of the source.

- `TuioTypes` (Types.dfy). The value types of the model:
  - the C# `int` and `long` widths, the unchecked `(Int32)` cast and the
    wrapping `++`;
  - floats kept as opaque bit patterns;
  - OSC messages as an address with a typed argument list.
- `TuioObjects` (TuioObject.dfy). The `TuioObject` class. Its id and class id
  are set only by the constructor. Location and orientation are mutable.
- `SessionTable` (SessionTable.dfy). The guarded add, update and delete
  operations as functions on the value of a table.
- `TuioServerModel` (TuioServer.dfy). The `TuioServer` class:
  - the cursor dictionary as a map of cursor values;
  - the object dictionary as a map of `TuioObject` references, updated in
    place;
  - the frame counter;
  - the bundle builders with their loops.

  Sending a bundle appends it to the field `sent`. The builders are proved
  against the protocol functions. The invariant `Valid`, which every
  table operation keeps, says that each entry is stored under its own id and
  that each stored object keeps the zero speed and motion acceleration it was
  created with.
- `TuioProtocol` (Protocol.dfy). The message layouts and bundle layout as
  functions. It also holds a strict receiver (decoders). The receiver is
  proved to invert the cursor encoder in both directions; object class ids
  are read back narrowed to int32. Lemmas state the layout of a committed
  bundle, the entry each `set` message carries, and what a receiver reads
  back from it.
- `Differencer` (Differencer.dfy). `process_touches` as a function `Process` on
  the session state: both tables, the tracked ids `tuio_ids` and the frame
  counter. Lemmas cover:
  - the tracked set after a batch;
  - the symmetric differences of the deletion step;
  - the empty batch;
  - the frame counter;
  - the invariant across calls;
  - ids whose classification changes between batches.
- `PixelTuio` (App1.dfy). The class `App1` with the `tuio_ids` field and its
  server. `ProcessTouches` runs the same loops in place and is proved to
  produce `Process` of the previous state and to send the two bundles of the
  new tables.

Two choices shape the model.

- Enumeration order. A `foreach` over a .NET `Dictionary` yields entries in an
  order the model leaves open. `CursorValues` and `ObjectValues` pick one
  enumeration per bundle that lists every entry exactly once. The alive
  builder and the set builder both use that same enumeration, because the
  dictionary is not changed between the two loops.
- The classification of a touch. The Surface SDK decides whether a touch is a
  finger, a tag or neither, from its recognition flags and the device's
  capabilities. The model receives that decision as `Touch.kind`.

Two remarks about the source.

- The deletion step computes the obsolete ids with a symmetric difference (App1.cs:120-121). This
  is harmless. Every id observed in a batch has been added to `tuio_ids` by
  the time the difference is taken, so it equals the set difference
  "tracked minus observed", and the second symmetric difference (App1.cs:127)
  leaves exactly the observed ids (`Differencer.PruneIsSetDifference`,
  `Differencer.ProcessTracked`).
- An id may change kind between batches, for example a finger that is later
  recognised as a tag. A touch now recognised as a tag should be announced on
  `/tuio/2Dobj`, not as a stale cursor. The code does not move it (see
  Findings). The model follows the code and also gives the corrected routing.

## Model

| member | source | states |
|---|---|---|
| TuioTypes.ToInt32 | TuioServer.cs:270-271 | the `(Int32)` cast of a long class id agrees with it modulo 2^32 and equals it whenever it fits in 32 bits |
| TuioTypes.ToInt32Lossless | TuioServer.cs:271 | the cast loses nothing exactly when the class id is in int32 range |
| TuioTypes.ToInt32Collides | TuioObject.cs:19 | the long class ids 2^32 and 0 are sent as the same int32, although the doc comment calls the field int32 |
| TuioTypes.Inc32 | TuioServer.cs:73-76 | the frame counter's `++`: the successor modulo 2^32, one more below int.MaxValue, int.MinValue after it |
| TuioObjects.TuioObject.constructor | TuioObject.cs:46-52 | id, class id, location and orientation are the arguments; speed and motion acceleration keep their zero defaults |
| SessionTable.AddCursor | TuioServer.cs:96-101 | the key set gains the id; every existing entry, including one under that id, is unchanged; a new id maps to a cursor with that id and location |
| SessionTable.UpdateCursor | TuioServer.cs:108-113 | same keys; only the id's cursor changes, and only its location; an unknown id changes nothing |
| SessionTable.DeleteCursor | TuioServer.cs:119-123 | the id is absent afterwards and every other entry is unchanged |
| SessionTable.AddObject | TuioServer.cs:135-140 | as AddCursor, with class id, location and orientation |
| SessionTable.UpdateObject | TuioServer.cs:147-155 | same keys; only location and orientation of that id change; no entry's id or class id ever changes, whatever class id is passed |
| SessionTable.DeleteObject | TuioServer.cs:161-166 | the id is absent afterwards and every other entry is unchanged |
| SessionTable.AddCursorIdempotent | TuioServer.cs:96-101 | a second add of the same id changes nothing |
| SessionTable.AddObjectIdempotent | TuioServer.cs:135-140 | a second add of the same id changes nothing |
| SessionTable.DeleteIdempotent | TuioServer.cs:119-123 | deleting twice is deleting once, for both tables |
| TuioServerModel.Snapshots | TuioServer.cs:213-216 | the transmitted state of each enumerated object, position by position |
| TuioServerModel.AppendEach | TuioServer.cs:178-179 | appending every message of a list to a bundle, in order |
| TuioServerModel.TuioServer.ObjectTable | TuioServer.cs:40 | the value of the object dictionary has exactly the dictionary's keys |
| TuioServerModel.TuioServer.constructor | TuioServer.cs:58-64 | both tables empty, frame counter 0, nothing sent |
| TuioServerModel.TuioServer.InitFrame | TuioServer.cs:73-76 | the counter advances by Inc32; nothing else may change |
| TuioServerModel.TuioServer.CommitFrame | TuioServer.cs:81-85 | exactly two bundles are appended to what was sent: first a cursor bundle of the cursor table, then an object bundle of the object table, both carrying the current frame; tables and counter are untouched |
| TuioServerModel.TuioServer.AddTuioCursor | TuioServer.cs:96-101 | the cursor table becomes AddCursor of the old one |
| TuioServerModel.TuioServer.UpdateTuioCursor | TuioServer.cs:108-113 | the cursor table becomes UpdateCursor of the old one |
| TuioServerModel.TuioServer.DeleteTuioCursor | TuioServer.cs:119-123 | the cursor table becomes DeleteCursor of the old one |
| TuioServerModel.TuioServer.AddTuioObject | TuioServer.cs:135-140 | the object table's value becomes AddObject of the old one, by storing a newly allocated object |
| TuioServerModel.TuioServer.UpdateTuioObject | TuioServer.cs:147-155 | only the location and orientation of the stored object change, in place: the table's value becomes UpdateObject of the old one, and the server invariant (entries keyed by id, every stored object still at its zero speed and motion acceleration) is kept |
| TuioServerModel.TuioServer.DeleteTuioObject | TuioServer.cs:161-166 | the id is removed from the dictionary, so the table's value becomes DeleteObject of the old one |
| TuioServerModel.TuioServer.CursorValues | TuioServer.cs:202-203 | the cursors listed once each, in some order, each under its own key |
| TuioServerModel.TuioServer.ObjectValues | TuioServer.cs:214-215 | the objects listed once each, in some order, each under its own key |
| TuioServerModel.TuioServer.GetCursorAliveMessage | TuioServer.cs:197-207 | `/tuio/2Dcur` `alive` followed by the ids of the enumeration, in order |
| TuioServerModel.TuioServer.GetObjectAliveMessage | TuioServer.cs:209-219 | `/tuio/2Dobj` `alive` followed by the ids of the enumeration, in order |
| TuioServerModel.TuioServer.GetCursorMessages | TuioServer.cs:243-259 | one 8-argument cursor `set` message per enumerated cursor, in the same order |
| TuioServerModel.TuioServer.GetObjectMessages | TuioServer.cs:261-282 | one 11-argument object `set` message per enumerated object, in the same order |
| TuioServerModel.TuioServer.GetCursorFrameBundle | TuioServer.cs:173-183 | the alive message, the set messages and the fseq message of one enumeration of the cursor table, with the current frame |
| TuioServerModel.TuioServer.GetObjectFrameBundle | TuioServer.cs:185-195 | the same for the object table |
| TuioProtocol.DistinctCardinality | TuioServer.cs:203-204 | a list of distinct ids has as many elements as its set of ids |
| TuioProtocol.EnumerationSize | TuioServer.cs:202-204 | an enumeration of a table is exactly as long as the table |
| TuioProtocol.IdsRoundTrip | TuioServer.cs:201-204 | the receiver reads back exactly the ids put after `alive` |
| TuioProtocol.IdsDecodeExact | TuioServer.cs:201-204 | any accepted id list is the encoding of the ids it reads |
| TuioProtocol.FrameRoundTrip | TuioServer.cs:173-183 | a bundle of alive, set messages and fseq decodes to those ids, set messages and frame |
| TuioProtocol.FrameDecodeExact | TuioServer.cs:173-183 | any accepted bundle is the bundle assembled from what it decodes to |
| TuioProtocol.CursorSetDecodeExact | TuioServer.cs:243-259 | any accepted cursor `set` message is the encoding of the cursor it decodes to |
| TuioProtocol.ObjectSetDecodeExact | TuioServer.cs:261-282 | any accepted object `set` message is the encoding of the object it decodes to |
| TuioProtocol.CursorSetsRoundTrip | TuioServer.cs:243-259 | a list of cursor `set` messages decodes to the cursors encoded |
| TuioProtocol.CursorSetsDecodeExact | TuioServer.cs:243-259 | any accepted list of cursor `set` messages is the encoding of what it decodes to |
| TuioProtocol.ObjectSetsRoundTrip | TuioServer.cs:261-282 | a list of object `set` messages decodes to the objects encoded, each class id narrowed to int32 |
| TuioProtocol.ObjectSetsDecodeExact | TuioServer.cs:261-282 | any accepted list of object `set` messages is the encoding of what it decodes to |
| TuioProtocol.CursorBundleRoundTrip | TuioServer.cs:173-183 | a receiver reads back exactly the cursors, in order, and the frame of a cursor bundle |
| TuioProtocol.CursorBundleDecodeExact | TuioServer.cs:173-183 | every cursor bundle the receiver accepts is the cursor bundle of what it reads |
| TuioProtocol.ObjectBundleRoundTrip | TuioServer.cs:185-195 | a receiver reads back the objects, in order, with class ids narrowed to int32, and the frame of an object bundle |
| TuioProtocol.ObjectBundleDecodeExact | TuioServer.cs:185-195 | every object bundle the receiver accepts is the object bundle of what it reads |
| TuioProtocol.NarrowedIdentity | TuioServer.cs:271 | the object round trip is lossless exactly when every class id fits in 32 bits |
| TuioProtocol.AliveNamesTable | TuioServer.cs:201-204 | the alive ids of an enumeration name every key of the table, and only those, once each |
| TuioProtocol.AliveFacts | TuioServer.cs:197-207 | the alive message has 1 + table size arguments, the `alive` string first, then the enumeration's ids, distinct and naming exactly the table's keys |
| TuioProtocol.CursorBundleFacts | TuioServer.cs:173-183 | a cursor bundle of an enumeration: 2 + table size messages, alive first, the i-th set message carrying the table's entry for the i-th id, fseq last |
| TuioProtocol.CursorFrameFacts | TuioServer.cs:173-259 | a committed cursor bundle: 2 + table size messages; alive names each key once, in the order of the set messages; each set message carries that key's cursor; fseq carries the frame; a receiver decodes an enumeration of the table and that frame |
| TuioProtocol.ObjectBundleFacts | TuioServer.cs:185-195 | the object counterpart of CursorBundleFacts |
| TuioProtocol.ObjectFrameFacts | TuioServer.cs:185-282 | the object counterpart of CursorFrameFacts, with 11-argument set messages; a receiver accepts the bundle, reads the frame, and reads an enumeration of the table with each class id narrowed to int32 |
| Differencer.Observed | App1.cs:62-99 | current_frame_tuio_ids is exactly the set of ids of the batch's finger and tag touches |
| Differencer.SymmetricExcept | App1.cs:121 | HashSet.SymmetricExceptWith: an element is in the result iff it is in exactly one operand |
| Differencer.DeleteFromBoth | App1.cs:122-126 | both tables lose exactly the given ids, every remaining entry is unchanged, tracked ids and counter untouched |
| Differencer.RouteAllTracked | App1.cs:68-115 | the foreach adds exactly the observed ids to tuio_ids and leaves the counter alone |
| Differencer.RouteInv | App1.cs:80-111 | routing one touch keeps the two tables disjoint with tuio_ids as their union |
| Differencer.RouteAllInv | App1.cs:68-115 | the same for the whole foreach |
| Differencer.SymmetricExceptIsDifference | App1.cs:120-127 | when the observed ids are tracked, the first symmetric difference is tracked minus observed and the second leaves exactly the observed ids |
| Differencer.PruneIsSetDifference | App1.cs:118-127 | after the foreach, the deletion step equals deleting tracked-minus-observed from both tables and tracking the observed ids |
| Differencer.ProcessTracked | App1.cs:65-137 | after a batch tuio_ids is exactly its finger and tag ids; after an empty batch it is empty |
| Differencer.ProcessFrame | App1.cs:65-67 | a non-empty batch advances the counter by Inc32, an empty batch leaves it unchanged |
| Differencer.ProcessEmptyBatch | App1.cs:129-137 | an empty batch empties both tables and tuio_ids and keeps the counter |
| Differencer.ProcessDeletesDeparted | App1.cs:120-136 | every id that leaves tuio_ids is absent from both tables |
| Differencer.ProcessInv | App1.cs:80-137 | the cursor and object keys stay disjoint with tuio_ids as their union |
| Differencer.ProcessBatchesInv | App1.cs:49-50 | from a new server and empty tuio_ids, the invariant holds after any sequence of batches |
| Differencer.RouteAllKeepsCursor | App1.cs:103-105 | tag touches of a tracked cursor id update nothing: the cursor is unchanged and no object appears |
| Differencer.RouteAllKeepsObject | App1.cs:80-83 | finger touches of a tracked object id update nothing: the object is unchanged and no cursor appears |
| Differencer.ReclassifiedCursorStays | App1.cs:103-105 | a cursor whose id now arrives only as a tag keeps its old cursor entry, stays tracked, and never becomes an object |
| Differencer.ReclassifiedObjectStays | App1.cs:80-83 | an object whose id now arrives only as a finger keeps its old object entry, stays tracked, and never becomes a cursor |
| Differencer.RouteAllConsistent | App1.cs:68-115 | when no id changes kind, the foreach adds exactly the finger ids to the cursor keys and the tag ids to the object keys |
| Differencer.ObservedByKind | App1.cs:71-99 | the observed ids are the finger ids together with the tag ids |
| Differencer.ProcessConsistentBatch | App1.cs:65-128 | when no id changes kind, the cursor keys are exactly the batch's finger ids and the object keys its tag ids |
| Differencer.ReclassificationAsWritten | App1.cs:80-111 | a finger 7 followed by a tag 7 leaves 7 a cursor and creates no object |
| Differencer.MigratingRouteKeys | App1.cs:80-111 | corrected routing of one touch keeps the invariant and puts the id in the table of its kind only |
| Differencer.MigratingRouteAllInv | App1.cs:68-115 | corrected routing keeps the invariant and tracks exactly the observed ids in addition |
| Differencer.MoveKeys | App1.cs:80-111 | moving an id between key sets that are split by kind keeps them split by kind |
| Differencer.MigratingRouteAllKeys | App1.cs:68-115 | with corrected routing, the cursor keys lose the tag ids and gain the finger ids, and the object keys the reverse |
| Differencer.MigratingProcessSortsByKind | App1.cs:65-128 | with corrected routing, the cursor keys are exactly the finger ids and the object keys exactly the tag ids, whatever the tables held before |
| Differencer.ReclassificationMigrates | App1.cs:80-111 | with corrected routing, a finger 7 followed by a tag 7 leaves 7 an object only |
| PixelTuio.App1.constructor | App1.cs:46-56 | a new server and no tracked ids: the initial session, nothing sent |
| PixelTuio.App1.DeleteId | App1.cs:124-125 | one pass of a deletion loop removes the id from both tables and nothing else |
| PixelTuio.App1.DeleteFromTables | App1.cs:122-126 | every given id is deleted from both tables; no other entry changes |
| PixelTuio.App1.RouteFinger | App1.cs:71-90 | the finger branch performs Route on the session |
| PixelTuio.App1.RouteTag | App1.cs:92-113 | the tag branch performs Route on the session, updating a stored object in place |
| PixelTuio.App1.RouteTouch | App1.cs:71-113 | one pass of the foreach performs Route on the session |
| PixelTuio.App1.RouteEach | App1.cs:68-115 | the foreach performs RouteAll on the session and collects exactly the observed ids |
| PixelTuio.App1.PruneTables | App1.cs:120-127 | the deletion step performs Prune on the session |
| PixelTuio.App1.TrackBatch | App1.cs:65-128 | the non-empty branch performs Process on the session |
| PixelTuio.App1.ForgetAll | App1.cs:129-138 | the empty branch performs Process on the session |
| PixelTuio.App1.ProcessTouches | App1.cs:58-143 | the session becomes Process of the old one; tuio_ids is the batch's finger and tag ids, or empty for an empty batch; the counter advances only on a non-empty batch; exactly two bundles are sent, the cursor bundle and the object bundle of the new tables carrying the new counter |

## Left out

- Network I/O. The UDP endpoint (`IPEndPoint`, `IPAddress.Parse`) and `OscBundle.Send` are left out. Sending is an append to `TuioServer.sent`.
- OSC byte encoding. Bespoke.Common.Osc is not part of this model. Messages are an address with a typed argument list.
- Concurrency. The `lock` blocks and the unlocked reads in the update methods are left out, because the model is single-threaded.
- Floating point. The coordinate normalisation `touch.X / size_x` and all float payloads are left out. Locations and angles are opaque bit patterns carried through unchanged, and a touch arrives already normalised.
- Touch classification. The Surface SDK's recognition flags and capability checks are abstracted to `Touch.kind`.
- The tag value. The model takes the SDK's tag value (`touch.Tag.Value`) as `Touch.tag`, whatever the touch's recognition state.
- Debug output. The `Debug.WriteLine` in DeleteTuioObject is left out.
- The return value. `process_touches` returns a count that is always 0, and the model does not return it.
- Dictionary enumeration order. It is left open, which is weaker than .NET's deterministic order. The alive builder and the set builder receive one shared enumeration; in the source they enumerate the same unchanged dictionary twice.
- TuioCursor. Its source is not part of this model. It is modelled as a value (id, location), and UpdateTuioCursor replaces the stored value instead of assigning the location of a shared cursor object.
- The rest of App1.cs. The XNA/Surface windowing, initialisation, drawing, event handlers and disposal are not part of this model.
- TuioServerModel.TuioServer.GetCursorAliveMessage: receives the enumeration of the cursor table as a parameter instead of enumerating the dictionary itself. The same holds for GetObjectAliveMessage, GetCursorMessages and GetObjectMessages.
- The per-entity builders. GetCursorMessage, GetObjectMessage and the two Get*SequenceMessage builders are modelled as the functions `CursorSetMessage`, `ObjectSetMessage` and `SequenceMessage` in TuioProtocol.

## Findings

| source | as written | input that shows it | evidently intended | confidence | as-written member | corrected member |
|---|---|---|---|---|---|---|
| App1.cs:80-111 | a touch whose id is already tracked is routed to the update of the table of its current kind, which ignores ids it does not hold, so an id that changes kind stays in its old table and the new table never gains it | batch [finger 7], then batch [tag 7]: 7 stays a cursor with its old location and no object 7 is ever announced | an id that changes kind moves: it is deleted from the old table and added to the table of its new kind | not executed | Differencer.ReclassificationAsWritten | Differencer.MigratingProcessSortsByKind |
