/**
 The per-tick frame differencer (App1.process_touches) as a function on the
 session state it reads and writes, and the facts proved about it. The
 class App1 runs the same steps in place and is proved equal to `Process`.
 */
module Differencer {
  import opened TuioTypes
  import opened SessionTable

  /** How the surface classified a touch: finger recognised (or finger
      recognition unsupported), else tag recognised (or tag recognition
      unsupported), else neither. */
  datatype TouchKind = Finger | Tag | Unclassified

  /** One touch of a batch; its location is already normalised to the
      surface, `tag` is the tag value and `orientation` the touch angle. */
  datatype Touch = Touch(id: int32, kind: TouchKind, location: PointF, tag: int64, orientation: Float32)

  /** What process_touches reads and writes: the two server tables, the
      tracked ids (tuio_ids) and the server's frame counter. */
  datatype Session = Session(cursors: map<int32, TuioCursor>, objects: map<int32, ObjectState>,
                             tracked: set<int32>, frame: int32)

  /** The state before the first batch: a new server and an empty tuio_ids. */
  const Initial: Session := Session(map[], map[], {}, 0)

  /** The differencer's invariant: every tracked id is in exactly one table,
      and every table entry is tracked. */
  ghost predicate Inv(s: Session)
  {
    && s.cursors.Keys !! s.objects.Keys
    && s.cursors.Keys + s.objects.Keys == s.tracked
  }

  /** current_frame_tuio_ids: the ids of the classified touches of a batch. */
  function Observed(ts: seq<Touch>): (r: set<int32>)
    ensures forall i :: 0 <= i < |ts| && ts[i].kind != Unclassified ==> ts[i].id in r
    ensures forall id :: id in r ==> exists i :: 0 <= i < |ts| && ts[i].kind != Unclassified && ts[i].id == id
  {
    if ts == [] then {}
    else
      var last := ts[|ts| - 1];
      Observed(ts[..|ts| - 1]) + (if last.kind == Unclassified then {} else {last.id})
  }

  /** The ids of the finger touches of a batch. */
  function FingerIds(ts: seq<Touch>): set<int32>
  {
    if ts == [] then {}
    else FingerIds(ts[..|ts| - 1]) + (if ts[|ts| - 1].kind == Finger then {ts[|ts| - 1].id} else {})
  }

  /** The ids of the tag touches of a batch. */
  function TagIds(ts: seq<Touch>): set<int32>
  {
    if ts == [] then {}
    else TagIds(ts[..|ts| - 1]) + (if ts[|ts| - 1].kind == Tag then {ts[|ts| - 1].id} else {})
  }

  /** One pass of the foreach: a finger touch goes to the cursor table, a tag
      touch to the object table; an id already tracked is updated, any other
      id is added and becomes tracked. */
  function Route(s: Session, t: Touch): Session
  {
    match t.kind
    case Finger =>
      if t.id in s.tracked then s.(cursors := UpdateCursor(s.cursors, t.id, t.location))
      else s.(cursors := AddCursor(s.cursors, t.id, t.location), tracked := s.tracked + {t.id})
    case Tag =>
      if t.id in s.tracked then s.(objects := UpdateObject(s.objects, t.id, t.tag, t.location, t.orientation))
      else s.(objects := AddObject(s.objects, t.id, t.tag, t.location, t.orientation), tracked := s.tracked + {t.id})
    case Unclassified => s
  }

  /** The whole foreach, touch by touch in batch order. */
  function RouteAll(s: Session, ts: seq<Touch>): Session
  {
    if ts == [] then s else Route(RouteAll(s, ts[..|ts| - 1]), ts[|ts| - 1])
  }

  /** HashSet.SymmetricExceptWith: the elements in exactly one of the sets. */
  function SymmetricExcept(a: set<int32>, b: set<int32>): (r: set<int32>)
    ensures forall x :: x in r <==> (x in a) != (x in b)
  {
    (a - b) + (b - a)
  }

  /** DeleteTuioCursor and DeleteTuioObject for every id of `ids`. */
  function DeleteFromBoth(s: Session, ids: set<int32>): (r: Session)
    ensures r.cursors.Keys == s.cursors.Keys - ids && r.objects.Keys == s.objects.Keys - ids
    ensures forall k :: k in r.cursors ==> r.cursors[k] == s.cursors[k]
    ensures forall k :: k in r.objects ==> r.objects[k] == s.objects[k]
    ensures r.tracked == s.tracked && r.frame == s.frame
  {
    s.(cursors := s.cursors - ids, objects := s.objects - ids)
  }

  /** The deletion step after the loop, as written: obsolete is tuio_ids
      symmetric-except the current ids; both tables lose the obsolete ids
      and tuio_ids is then symmetric-excepted with obsolete. */
  function Prune(routed: Session, current: set<int32>): Session
  {
    var obsolete := SymmetricExcept(routed.tracked, current);
    var pruned := DeleteFromBoth(routed, obsolete);
    pruned.(tracked := SymmetricExcept(pruned.tracked, obsolete))
  }

  /** process_touches: a non-empty batch opens a frame, routes every touch
      and prunes; an empty batch deletes every tracked id and clears
      tuio_ids without opening a frame. */
  function Process(s: Session, ts: seq<Touch>): Session
  {
    if |ts| > 0 then Prune(RouteAll(s.(frame := Inc32(s.frame)), ts), Observed(ts))
    else DeleteFromBoth(s, s.tracked).(tracked := {})
  }

  // ----- The foreach -----

  /** Routing only ever adds the ids it observes to the tracked set, and
      never touches the frame counter. */
  lemma {:induction false} RouteAllTracked(s: Session, ts: seq<Touch>)
    ensures RouteAll(s, ts).tracked == s.tracked + Observed(ts)
    ensures RouteAll(s, ts).frame == s.frame
  {
    if ts != [] {
      RouteAllTracked(s, ts[..|ts| - 1]);
    }
  }

  lemma RouteInv(s: Session, t: Touch)
    requires Inv(s)
    ensures Inv(Route(s, t))
  {
  }

  lemma {:induction false} RouteAllInv(s: Session, ts: seq<Touch>)
    requires Inv(s)
    ensures Inv(RouteAll(s, ts))
  {
    if ts != [] {
      RouteAllInv(s, ts[..|ts| - 1]);
      RouteInv(RouteAll(s, ts[..|ts| - 1]), ts[|ts| - 1]);
    }
  }

  // ----- The symmetric difference -----

  /** After the loop the current ids are all tracked, so the symmetric
      difference of line 121 is the set difference tuio_ids minus current,
      and the one of line 127 leaves exactly the current ids. */
  lemma SymmetricExceptIsDifference(tracked: set<int32>, current: set<int32>)
    requires current <= tracked
    ensures SymmetricExcept(tracked, current) == tracked - current
    ensures SymmetricExcept(tracked, tracked - current) == current
  {
  }

  /** The deletion step as the plain set difference tracked minus observed. */
  lemma {:induction false} PruneIsSetDifference(s: Session, ts: seq<Touch>)
    requires ts != []
    ensures var routed := RouteAll(s.(frame := Inc32(s.frame)), ts);
            Prune(routed, Observed(ts)) == DeleteFromBoth(routed, routed.tracked - Observed(ts)).(tracked := Observed(ts))
  {
    var routed := RouteAll(s.(frame := Inc32(s.frame)), ts);
    RouteAllTracked(s.(frame := Inc32(s.frame)), ts);
    SymmetricExceptIsDifference(routed.tracked, Observed(ts));
  }

  // ----- process_touches -----

  /** After a batch, tuio_ids holds exactly the ids of the batch's finger
      and tag touches; after an empty batch it is empty. */
  lemma ProcessTracked(s: Session, ts: seq<Touch>)
    ensures Process(s, ts).tracked == if ts == [] then {} else Observed(ts)
  {
    if ts != [] {
      PruneIsSetDifference(s, ts);
    }
  }

  /** Exactly one InitFrame per non-empty batch and none for an empty one. */
  lemma ProcessFrame(s: Session, ts: seq<Touch>)
    ensures Process(s, ts).frame == if ts == [] then s.frame else Inc32(s.frame)
  {
    if ts != [] {
      RouteAllTracked(s.(frame := Inc32(s.frame)), ts);
    }
  }

  /** An empty batch empties both tables and tuio_ids and keeps the counter. */
  lemma ProcessEmptyBatch(s: Session)
    requires Inv(s)
    ensures Process(s, []) == Session(map[], map[], {}, s.frame)
  {
    assert Process(s, []).cursors.Keys == {};
    assert Process(s, []).objects.Keys == {};
  }

  /** Every id that stops being tracked is gone from both tables. */
  lemma ProcessDeletesDeparted(s: Session, ts: seq<Touch>)
    ensures var r := Process(s, ts);
            forall id :: id in s.tracked && id !in r.tracked ==> id !in r.cursors && id !in r.objects
  {
    if ts != [] {
      PruneIsSetDifference(s, ts);
      RouteAllTracked(s.(frame := Inc32(s.frame)), ts);
    }
  }

  /** The invariant holds across calls. */
  lemma ProcessInv(s: Session, ts: seq<Touch>)
    requires Inv(s)
    ensures Inv(Process(s, ts))
  {
    if ts != [] {
      var s0 := s.(frame := Inc32(s.frame));
      RouteAllInv(s0, ts);
      PruneIsSetDifference(s, ts);
      RouteAllTracked(s0, ts);
    }
  }

  /** The invariant holds after any sequence of batches from the start. */
  function ProcessBatches(s: Session, batches: seq<seq<Touch>>): Session
  {
    if batches == [] then s else Process(ProcessBatches(s, batches[..|batches| - 1]), batches[|batches| - 1])
  }

  lemma {:induction false} ProcessBatchesInv(batches: seq<seq<Touch>>)
    ensures Inv(ProcessBatches(Initial, batches))
  {
    if batches != [] {
      ProcessBatchesInv(batches[..|batches| - 1]);
      ProcessInv(ProcessBatches(Initial, batches[..|batches| - 1]), batches[|batches| - 1]);
    }
  }

  // ----- Reclassified ids -----

  /** Touches of a tracked cursor id that are all tags leave that cursor as
      it was and never create an object for it. */
  lemma {:induction false} RouteAllKeepsCursor(s: Session, ts: seq<Touch>, id: int32)
    requires Inv(s) && id in s.cursors
    requires forall i :: 0 <= i < |ts| && ts[i].id == id ==> ts[i].kind != Finger
    ensures id in RouteAll(s, ts).cursors && RouteAll(s, ts).cursors[id] == s.cursors[id]
    ensures id !in RouteAll(s, ts).objects
  {
    if ts != [] {
      var init := ts[..|ts| - 1];
      RouteAllKeepsCursor(s, init, id);
      RouteAllTracked(s, init);
    }
  }

  /** Touches of a tracked object id that are all fingers leave that object as
      it was and never create a cursor for it. */
  lemma {:induction false} RouteAllKeepsObject(s: Session, ts: seq<Touch>, id: int32)
    requires Inv(s) && id in s.objects
    requires forall i :: 0 <= i < |ts| && ts[i].id == id ==> ts[i].kind != Tag
    ensures id in RouteAll(s, ts).objects && RouteAll(s, ts).objects[id] == s.objects[id]
    ensures id !in RouteAll(s, ts).cursors
  {
    if ts != [] {
      var init := ts[..|ts| - 1];
      RouteAllKeepsObject(s, init, id);
      RouteAllTracked(s, init);
    }
  }

  /** A cursor whose id now arrives only as a tag stays a cursor with its old
      location, and the object table gains nothing: the update goes to the
      object table, which does not hold the id. */
  lemma ReclassifiedCursorStays(s: Session, ts: seq<Touch>, id: int32)
    requires Inv(s) && id in s.cursors
    requires exists i :: 0 <= i < |ts| && ts[i].id == id && ts[i].kind == Tag
    requires forall i :: 0 <= i < |ts| && ts[i].id == id ==> ts[i].kind != Finger
    ensures var r := Process(s, ts);
            id in r.cursors && r.cursors[id] == s.cursors[id] && id !in r.objects && id in r.tracked
  {
    var s0 := s.(frame := Inc32(s.frame));
    RouteAllKeepsCursor(s0, ts, id);
    PruneIsSetDifference(s, ts);
  }

  /** An object whose id now arrives only as a finger stays an object. */
  lemma ReclassifiedObjectStays(s: Session, ts: seq<Touch>, id: int32)
    requires Inv(s) && id in s.objects
    requires exists i :: 0 <= i < |ts| && ts[i].id == id && ts[i].kind == Finger
    requires forall i :: 0 <= i < |ts| && ts[i].id == id ==> ts[i].kind != Tag
    ensures var r := Process(s, ts);
            id in r.objects && r.objects[id] == s.objects[id] && id !in r.cursors && id in r.tracked
  {
    var s0 := s.(frame := Inc32(s.frame));
    RouteAllKeepsObject(s0, ts, id);
    PruneIsSetDifference(s, ts);
  }

  // ----- Batches without reclassification -----

  /** No id of the batch is both a finger and a tag, and none changes kind
      with respect to the tables. */
  ghost predicate Consistent(s: Session, ts: seq<Touch>)
  {
    && FingerIds(ts) !! TagIds(ts)
    && FingerIds(ts) !! s.objects.Keys
    && TagIds(ts) !! s.cursors.Keys
  }

  lemma {:induction false} RouteAllConsistent(s: Session, ts: seq<Touch>)
    requires Inv(s) && Consistent(s, ts)
    ensures RouteAll(s, ts).cursors.Keys == s.cursors.Keys + FingerIds(ts)
    ensures RouteAll(s, ts).objects.Keys == s.objects.Keys + TagIds(ts)
  {
    if ts != [] {
      var init := ts[..|ts| - 1];
      assert FingerIds(init) <= FingerIds(ts) && TagIds(init) <= TagIds(ts);
      RouteAllConsistent(s, init);
      RouteAllInv(s, init);
      var t := ts[|ts| - 1];
      assert t.kind == Finger ==> t.id in FingerIds(ts) && t.id !in RouteAll(s, init).objects;
      assert t.kind == Tag ==> t.id in TagIds(ts) && t.id !in RouteAll(s, init).cursors;
    }
  }

  lemma {:induction false} ObservedByKind(ts: seq<Touch>)
    ensures Observed(ts) == FingerIds(ts) + TagIds(ts)
  {
    if ts != [] {
      ObservedByKind(ts[..|ts| - 1]);
    }
  }

  /** When no id changes kind, the cursor table holds exactly the batch's
      finger ids and the object table exactly its tag ids. */
  lemma ProcessConsistentBatch(s: Session, ts: seq<Touch>)
    requires Inv(s) && ts != [] && Consistent(s, ts)
    ensures Process(s, ts).cursors.Keys == FingerIds(ts)
    ensures Process(s, ts).objects.Keys == TagIds(ts)
  {
    var s0 := s.(frame := Inc32(s.frame));
    RouteAllConsistent(s0, ts);
    RouteAllTracked(s0, ts);
    PruneIsSetDifference(s, ts);
    ObservedByKind(ts);
  }

  // ----- Reclassification: the behaviour as written and as intended -----

  /** A finger touch 7, then a tag touch 7: as written, id 7 is still a cursor
      and no object 7 exists although the second batch saw only a tag. */
  lemma ReclassificationAsWritten()
    ensures var p := PointF(Zero, Zero);
            var first := [Touch(7, Finger, p, 0, Zero)];
            var second := [Touch(7, Tag, p, 0, Zero)];
            var r := Process(Process(Initial, first), second);
            && TagIds(second) == {7}
            && 7 in r.cursors && 7 !in r.objects
  {
    var p := PointF(Zero, Zero);
    var first := [Touch(7, Finger, p, 0, Zero)];
    var second := [Touch(7, Tag, p, 0, Zero)];
    assert first[..0] == [] && second[..0] == [];
    var s1 := Process(Initial, first);
    assert FingerIds(first) == {7} && TagIds(first) == {};
    ProcessConsistentBatch(Initial, first);
    ProcessInv(Initial, first);
    assert second[0].id == 7 && second[0].kind == Tag;
    ReclassifiedCursorStays(s1, second, 7);
  }

  /** Corrected routing: a touch whose id sits in the other table moves to
      the table of its current kind (deleted from the old table, added to the
      new one). */
  function MigratingRoute(s: Session, t: Touch): Session
  {
    match t.kind
    case Finger =>
      if t.id in s.cursors then s.(cursors := UpdateCursor(s.cursors, t.id, t.location))
      else s.(cursors := AddCursor(s.cursors, t.id, t.location), objects := DeleteObject(s.objects, t.id),
              tracked := s.tracked + {t.id})
    case Tag =>
      if t.id in s.objects then s.(objects := UpdateObject(s.objects, t.id, t.tag, t.location, t.orientation))
      else s.(objects := AddObject(s.objects, t.id, t.tag, t.location, t.orientation),
              cursors := DeleteCursor(s.cursors, t.id), tracked := s.tracked + {t.id})
    case Unclassified => s
  }

  function MigratingRouteAll(s: Session, ts: seq<Touch>): Session
  {
    if ts == [] then s else MigratingRoute(MigratingRouteAll(s, ts[..|ts| - 1]), ts[|ts| - 1])
  }

  /** process_touches with migrating routing; pruning and the empty batch are
      unchanged. */
  function MigratingProcess(s: Session, ts: seq<Touch>): Session
  {
    if |ts| > 0 then Prune(MigratingRouteAll(s.(frame := Inc32(s.frame)), ts), Observed(ts))
    else DeleteFromBoth(s, s.tracked).(tracked := {})
  }

  /** One migrating step keeps the invariant and moves the id into the table
      of its kind. */
  lemma MigratingRouteKeys(s: Session, t: Touch)
    requires Inv(s)
    ensures var r := MigratingRoute(s, t);
            && Inv(r)
            && r.tracked == s.tracked + (if t.kind == Unclassified then {} else {t.id})
            && r.cursors.Keys == (if t.kind == Finger then s.cursors.Keys + {t.id}
                                  else if t.kind == Tag then s.cursors.Keys - {t.id} else s.cursors.Keys)
            && r.objects.Keys == (if t.kind == Tag then s.objects.Keys + {t.id}
                                  else if t.kind == Finger then s.objects.Keys - {t.id} else s.objects.Keys)
  {
  }

  lemma {:induction false} MigratingRouteAllInv(s: Session, ts: seq<Touch>)
    requires Inv(s)
    ensures Inv(MigratingRouteAll(s, ts))
    ensures MigratingRouteAll(s, ts).tracked == s.tracked + Observed(ts)
  {
    if ts != [] {
      MigratingRouteAllInv(s, ts[..|ts| - 1]);
      MigratingRouteKeys(MigratingRouteAll(s, ts[..|ts| - 1]), ts[|ts| - 1]);
    }
  }

  /** Removing then adding one id, on a table already split by kind. */
  lemma MoveKeys(keys: set<int32>, fs: set<int32>, gs: set<int32>, added: set<int32>, removed: set<int32>)
    requires added !! gs && removed !! fs
    ensures ((keys - gs) + fs - removed) + added == (keys - (gs + removed)) + (fs + added)
  {
  }

  lemma {:induction false} MigratingRouteAllKeys(s: Session, ts: seq<Touch>)
    requires Inv(s) && FingerIds(ts) !! TagIds(ts)
    ensures MigratingRouteAll(s, ts).cursors.Keys == (s.cursors.Keys - TagIds(ts)) + FingerIds(ts)
    ensures MigratingRouteAll(s, ts).objects.Keys == (s.objects.Keys - FingerIds(ts)) + TagIds(ts)
  {
    if ts != [] {
      var init := ts[..|ts| - 1];
      var t := ts[|ts| - 1];
      var fs, gs := FingerIds(init), TagIds(init);
      var fingerNow := if t.kind == Finger then {t.id} else {};
      var tagNow := if t.kind == Tag then {t.id} else {};
      assert FingerIds(ts) == fs + fingerNow && TagIds(ts) == gs + tagNow;
      MigratingRouteAllKeys(s, init);
      var r0 := MigratingRouteAll(s, init);
      MigratingRouteAllInv(s, init);
      MigratingRouteKeys(r0, t);
      MoveKeys(s.cursors.Keys, fs, gs, fingerNow, tagNow);
      MoveKeys(s.objects.Keys, gs, fs, tagNow, fingerNow);
    }
  }

  /** With migrating routing, whenever no id is both a finger and a tag
      within the batch, the cursor table holds exactly the finger ids and the
      object table exactly the tag ids, whatever the tables held before. */
  lemma MigratingProcessSortsByKind(s: Session, ts: seq<Touch>)
    requires Inv(s) && ts != [] && FingerIds(ts) !! TagIds(ts)
    ensures var r := MigratingProcess(s, ts);
            && Inv(r)
            && r.tracked == Observed(ts)
            && r.cursors.Keys == FingerIds(ts)
            && r.objects.Keys == TagIds(ts)
  {
    var s0 := s.(frame := Inc32(s.frame));
    MigratingRouteAllInv(s0, ts);
    MigratingRouteAllKeys(s0, ts);
    ObservedByKind(ts);
    SymmetricExceptIsDifference(MigratingRouteAll(s0, ts).tracked, Observed(ts));
  }

  /** The same two batches with migrating routing: 7 ends up an object only. */
  lemma ReclassificationMigrates()
    ensures var p := PointF(Zero, Zero);
            var first := [Touch(7, Finger, p, 0, Zero)];
            var second := [Touch(7, Tag, p, 0, Zero)];
            var r := MigratingProcess(MigratingProcess(Initial, first), second);
            7 !in r.cursors && 7 in r.objects
  {
    var p := PointF(Zero, Zero);
    var first := [Touch(7, Finger, p, 0, Zero)];
    var second := [Touch(7, Tag, p, 0, Zero)];
    assert first[..0] == [] && second[..0] == [];
    var s1 := MigratingProcess(Initial, first);
    MigratingProcessSortsByKind(Initial, first);
    MigratingProcessSortsByKind(s1, second);
  }
}
