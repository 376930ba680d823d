/**
 The guarded table operations of the TUIO server, on the value of each
 table: add only inserts an absent id, update never creates, delete is
 idempotent. The server class applies exactly these to its dictionaries.
 */
module SessionTable {
  import opened TuioTypes

  /** AddTuioCursor: insert a new cursor unless the id is already present. */
  function AddCursor(t: map<int32, TuioCursor>, id: int32, location: PointF): (r: map<int32, TuioCursor>)
    ensures r.Keys == t.Keys + {id}
    ensures forall k :: k in t ==> r[k] == t[k]
    ensures id !in t ==> r[id] == TuioCursor(id, location)
  {
    if id in t then t else t[id := TuioCursor(id, location)]
  }

  /** UpdateTuioCursor: move an existing cursor; unknown ids are ignored. */
  function UpdateCursor(t: map<int32, TuioCursor>, id: int32, location: PointF): (r: map<int32, TuioCursor>)
    ensures r.Keys == t.Keys
    ensures forall k :: k in t && k != id ==> r[k] == t[k]
    ensures id in t ==> r[id] == t[id].(location := location)
  {
    if id in t then t[id := t[id].(location := location)] else t
  }

  /** DeleteTuioCursor: remove the id if present. */
  function DeleteCursor(t: map<int32, TuioCursor>, id: int32): (r: map<int32, TuioCursor>)
    ensures r.Keys == t.Keys - {id}
    ensures forall k :: k in r ==> r[k] == t[k]
  {
    t - {id}
  }

  /** AddTuioObject: insert a new object unless the id is already present. */
  function AddObject(t: map<int32, ObjectState>, id: int32, classId: int64, location: PointF, orientation: Float32)
    : (r: map<int32, ObjectState>)
    ensures r.Keys == t.Keys + {id}
    ensures forall k :: k in t ==> r[k] == t[k]
    ensures id !in t ==> r[id] == ObjectState(id, classId, location, orientation)
  {
    if id in t then t else t[id := ObjectState(id, classId, location, orientation)]
  }

  /** UpdateTuioObject: set location and orientation of an existing object.
      The class id argument is ignored, so an object's class never changes. */
  function UpdateObject(t: map<int32, ObjectState>, id: int32, classId: int64, location: PointF, orientation: Float32)
    : (r: map<int32, ObjectState>)
    ensures r.Keys == t.Keys
    ensures forall k :: k in t && k != id ==> r[k] == t[k]
    ensures id in t ==> r[id] == t[id].(location := location, orientation := orientation)
    ensures forall k :: k in t ==> r[k].id == t[k].id && r[k].classId == t[k].classId
  {
    if id in t then t[id := t[id].(location := location, orientation := orientation)] else t
  }

  /** DeleteTuioObject: remove the id if present. */
  function DeleteObject(t: map<int32, ObjectState>, id: int32): (r: map<int32, ObjectState>)
    ensures r.Keys == t.Keys - {id}
    ensures forall k :: k in r ==> r[k] == t[k]
  {
    t - {id}
  }

  /** Adding an id twice is adding it once, whatever the second location. */
  lemma AddCursorIdempotent(t: map<int32, TuioCursor>, id: int32, l1: PointF, l2: PointF)
    ensures AddCursor(AddCursor(t, id, l1), id, l2) == AddCursor(t, id, l1)
  {
  }

  lemma AddObjectIdempotent(t: map<int32, ObjectState>, id: int32, c1: int64, l1: PointF, a1: Float32,
                            c2: int64, l2: PointF, a2: Float32)
    ensures AddObject(AddObject(t, id, c1, l1, a1), id, c2, l2, a2) == AddObject(t, id, c1, l1, a1)
  {
  }

  /** Deleting is idempotent. */
  lemma DeleteIdempotent(c: map<int32, TuioCursor>, o: map<int32, ObjectState>, id: int32)
    ensures DeleteCursor(DeleteCursor(c, id), id) == DeleteCursor(c, id)
    ensures DeleteObject(DeleteObject(o, id), id) == DeleteObject(o, id)
  {
  }

  /** Every entry is stored under its own session id. */
  ghost predicate CursorsKeyed(t: map<int32, TuioCursor>)
  {
    forall k :: k in t ==> t[k].id == k
  }
}
