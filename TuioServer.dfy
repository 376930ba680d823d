/**
 The TUIO server: two session tables (cursors and objects) updated in place,
 a frame counter, and the frame encoder that turns a snapshot of each table
 into a bundle. Sending is modelled by appending the bundle to `sent`.
 */
module TuioServerModel {
  import opened TuioTypes
  import opened TuioProtocol
  import opened SessionTable
  import opened TuioObjects

  /** The transmitted state of each object of `os`, in order. */
  ghost function Snapshots(os: seq<TuioObject>): (r: seq<ObjectState>)
    reads os
    ensures |r| == |os|
    ensures forall i :: 0 <= i < |os| ==> r[i] == os[i].State()
  {
    if os == [] then [] else Snapshots(os[..|os| - 1]) + [os[|os| - 1].State()]
  }

  /** The foreach that appends each message of `msgs` to a bundle. */
  method AppendEach(bundle: seq<Msg>, msgs: seq<Msg>) returns (r: seq<Msg>)
    ensures r == bundle + msgs
  {
    r := bundle;
    for i := 0 to |msgs|
      invariant r == bundle + msgs[..i]
    {
      r := r + [msgs[i]];
    }
    assert msgs[..|msgs|] == msgs;
  }

  class TuioServer {
    var cursors: map<int32, TuioCursor>
    var objects: map<int32, TuioObject>
    var currentFrame: int32
    /** The bundles handed to the UDP endpoint, oldest first. */
    var sent: seq<seq<Msg>>

    /** Every entry is stored under its own session id (so no object is
        shared by two keys), and every stored object still has the zero
        speed and motion acceleration it was created with. */
    ghost predicate Valid()
      reads this`cursors, this`objects, objects.Values
    {
      && CursorsKeyed(cursors)
      && (forall k :: k in objects ==> objects[k].id == k)
      && (forall k :: k in objects ==> objects[k].speed == PointF(Zero, Zero) && objects[k].motionAcceleration == Zero)
    }

    /** The value of the object table: what each object would transmit. */
    ghost function ObjectTable(): (t: map<int32, ObjectState>)
      reads this`objects, objects.Values
      ensures t.Keys == objects.Keys
    {
      map k | k in objects :: objects[k].State()
    }

    /** TuioServer(host, port): empty tables, frame 0, nothing sent. */
    constructor ()
      ensures Valid()
      ensures cursors == map[] && objects == map[] && ObjectTable() == map[]
      ensures currentFrame == 0 && sent == []
    {
      cursors := map[];
      objects := map[];
      currentFrame := 0;
      sent := [];
    }

    /** Starts a frame: the counter advances by one (wrapping like a C# int). */
    method InitFrame()
      modifies this`currentFrame
      ensures currentFrame == Inc32(old(currentFrame))
    {
      currentFrame := Inc32(currentFrame);
    }

    /** Builds both bundles from the current tables and sends them, cursor
        bundle first. Tables and counter are left as they are. */
    method CommitFrame()
      requires Valid()
      modifies this`sent
      ensures |sent| == |old(sent)| + 2 && sent[..|old(sent)|] == old(sent)
      ensures IsCursorFrame(sent[|sent| - 2], cursors, currentFrame)
      ensures IsObjectFrame(sent[|sent| - 1], ObjectTable(), currentFrame)
    {
      var cursorBundle := GetCursorFrameBundle();
      var objectBundle := GetObjectFrameBundle();
      sent := sent + [cursorBundle];
      sent := sent + [objectBundle];
    }

    method AddTuioCursor(id: int32, location: PointF)
      requires Valid()
      modifies this`cursors
      ensures Valid()
      ensures cursors == AddCursor(old(cursors), id, location)
    {
      if id !in cursors {
        cursors := cursors[id := TuioCursor(id, location)];
      }
    }

    method UpdateTuioCursor(id: int32, location: PointF)
      requires Valid()
      modifies this`cursors
      ensures Valid()
      ensures cursors == UpdateCursor(old(cursors), id, location)
    {
      if id in cursors {
        cursors := cursors[id := cursors[id].(location := location)];
      }
    }

    method DeleteTuioCursor(id: int32)
      requires Valid()
      modifies this`cursors
      ensures Valid()
      ensures cursors == DeleteCursor(old(cursors), id)
    {
      cursors := cursors - {id};
    }

    /** Inserts a freshly allocated object unless the id is present. */
    method AddTuioObject(id: int32, classId: int64, location: PointF, orientation: Float32)
      requires Valid()
      modifies this`objects
      ensures Valid()
      ensures ObjectTable() == AddObject(old(ObjectTable()), id, classId, location, orientation)
      ensures forall o :: o in objects.Values ==> o in old(objects.Values) || fresh(o)
    {
      if id !in objects {
        var o := new TuioObject(id, classId, location, orientation);
        objects := objects[id := o];
      }
    }

    /** Writes the new location and orientation into the stored object; the
        class id argument is not used. */
    method UpdateTuioObject(id: int32, classId: int64, location: PointF, orientation: Float32)
      requires Valid()
      modifies if id in objects then {objects[id]} else {}
      ensures Valid()
      ensures ObjectTable() == UpdateObject(old(ObjectTable()), id, classId, location, orientation)
    {
      if id in objects {
        var o := objects[id];
        o.location := location;
        o.orientation := orientation;
      }
    }

    method DeleteTuioObject(id: int32)
      requires Valid()
      modifies this`objects
      ensures Valid()
      ensures objects == old(objects) - {id}
      ensures ObjectTable() == DeleteObject(old(ObjectTable()), id)
    {
      objects := objects - {id};
    }

    // ----- Frame encoder -----

    /** The cursors in the order a `foreach` over `_cursors.Values` yields
        them: each exactly once, in an order the model leaves open. */
    method CursorValues() returns (values: seq<TuioCursor>)
      requires Valid()
      ensures EnumeratesCursors(values, cursors)
    {
      values := [];
      var rest := cursors.Keys;
      while rest != {}
        invariant rest <= cursors.Keys
        invariant EnumeratesCursors(values, cursors - rest)
        decreases rest
      {
        var k :| k in rest;
        ghost var ids := CursorIds(values);
        assert k !in Elems(ids);
        values := values + [cursors[k]];
        assert CursorIds(values) == ids + [k];
        assert Elems(ids + [k]) == Elems(ids) + {k};
        rest := rest - {k};
      }
      assert cursors - rest == cursors;
    }

    /** The objects in the order a `foreach` over `_objects.Values` yields them. */
    method ObjectValues() returns (values: seq<TuioObject>)
      requires Valid()
      ensures EnumeratesObjects(Snapshots(values), ObjectTable())
    {
      ghost var table := ObjectTable();
      values := [];
      var rest := objects.Keys;
      while rest != {}
        invariant rest <= objects.Keys
        invariant EnumeratesObjects(Snapshots(values), table - rest)
        decreases rest
      {
        var k :| k in rest;
        ghost var prev := values;
        ghost var snaps := Snapshots(values);
        assert table[k] == objects[k].State() && table[k].id == k;
        EnumerationStep(ObjectIds(snaps), snaps, table, rest, k);
        assert ObjectIds(snaps + [table[k]]) == ObjectIds(snaps) + [k];
        values := values + [objects[k]];
        assert values[..|values| - 1] == prev;
        assert Snapshots(values) == snaps + [table[k]];
        rest := rest - {k};
      }
      assert table - rest == table;
    }

    /** GetCursorAliveMessage over the enumeration `values`. */
    method GetCursorAliveMessage(values: seq<TuioCursor>) returns (msg: Msg)
      ensures msg == AliveMessage(CursorAddress, CursorIds(values))
    {
      msg := Msg(CursorAddress, [S("alive")]);
      for i := 0 to |values|
        invariant msg == AliveMessage(CursorAddress, CursorIds(values[..i]))
      {
        msg := msg.(args := msg.args + [I(values[i].id)]);
      }
      assert values[..|values|] == values;
    }

    /** GetObjectAliveMessage over the enumeration `values`. */
    method GetObjectAliveMessage(values: seq<TuioObject>) returns (msg: Msg)
      ensures msg == AliveMessage(ObjectAddress, ObjectIds(Snapshots(values)))
    {
      msg := Msg(ObjectAddress, [S("alive")]);
      for i := 0 to |values|
        invariant msg == AliveMessage(ObjectAddress, ObjectIds(Snapshots(values[..i])))
      {
        msg := msg.(args := msg.args + [I(values[i].id)]);
      }
      assert values[..|values|] == values;
    }

    /** GetCursorMessages: one set message per cursor of the enumeration. */
    method GetCursorMessages(values: seq<TuioCursor>) returns (msgs: seq<Msg>)
      ensures msgs == CursorSetMessages(values)
    {
      msgs := [];
      for i := 0 to |values|
        invariant msgs == CursorSetMessages(values[..i])
      {
        msgs := msgs + [CursorSetMessage(values[i])];
      }
      assert values[..|values|] == values;
    }

    /** GetObjectMessages: one set message per object of the enumeration. */
    method GetObjectMessages(values: seq<TuioObject>) returns (msgs: seq<Msg>)
      ensures msgs == ObjectSetMessages(Snapshots(values))
    {
      msgs := [];
      for i := 0 to |values|
        invariant msgs == ObjectSetMessages(Snapshots(values[..i]))
      {
        msgs := msgs + [ObjectSetMessage(values[i].State())];
      }
      assert values[..|values|] == values;
    }

    /** Alive message, then every set message, then the sequence message. */
    method GetCursorFrameBundle() returns (bundle: seq<Msg>)
      requires Valid()
      ensures IsCursorFrame(bundle, cursors, currentFrame)
    {
      var values := CursorValues();
      var alive := GetCursorAliveMessage(values);
      var msgs := GetCursorMessages(values);
      bundle := AppendEach([alive], msgs);
      bundle := bundle + [SequenceMessage(CursorAddress, currentFrame)];
      assert bundle == CursorFrameBundle(values, currentFrame);
    }

    method GetObjectFrameBundle() returns (bundle: seq<Msg>)
      requires Valid()
      ensures IsObjectFrame(bundle, ObjectTable(), currentFrame)
    {
      var values := ObjectValues();
      ghost var snapshots := Snapshots(values);
      var alive := GetObjectAliveMessage(values);
      var msgs := GetObjectMessages(values);
      bundle := AppendEach([alive], msgs);
      bundle := bundle + [SequenceMessage(ObjectAddress, currentFrame)];
      assert bundle == ObjectFrameBundle(snapshots, currentFrame);
      assert EnumeratesObjects(snapshots, ObjectTable());
    }
  }
}
