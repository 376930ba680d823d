/**
 The Surface application's touch handler: `tuioIds` is the set of session
 ids it has announced, `server` the TUIO server it drives. ProcessTouches
 runs once per tick and is proved to perform `Differencer.Process` on the
 server's tables, then to send one cursor and one object bundle.
 */
module PixelTuio {
  import opened TuioTypes
  import opened TuioProtocol
  import opened TuioServerModel
  import opened Differencer
  import opened SessionTable

  class App1 {
    const server: TuioServer
    /** tuio_ids */
    var tuioIds: set<int32>

    /** The server's own invariant, and the differencer's: every tracked id
        is in exactly one table, and only tracked ids are. */
    ghost predicate Valid()
      reads this`tuioIds, server`cursors, server`objects, server`currentFrame, server.objects.Values
    {
      && server.Valid()
      && Inv(Snapshot())
    }

    /** The session state process_touches works on. */
    ghost function Snapshot(): Session
      reads this`tuioIds, server`cursors, server`objects, server`currentFrame, server.objects.Values
    {
      Session(server.cursors, server.ObjectTable(), tuioIds, server.currentFrame)
    }

    /** App1(): a new server and no tracked ids. */
    constructor ()
      ensures Valid() && fresh(server)
      ensures Snapshot() == Initial && server.sent == []
    {
      server := new TuioServer();
      tuioIds := {};
    }

    /** One pass of the deletion loops: the id leaves both tables. */
    method DeleteId(id: int32)
      requires server.Valid()
      modifies server`cursors, server`objects
      ensures server.Valid()
      ensures server.cursors == old(server.cursors) - {id}
      ensures server.objects == old(server.objects) - {id}
    {
      server.DeleteTuioCursor(id);
      server.DeleteTuioObject(id);
    }

    /** Deletes every id of `ids` from both tables (the two deletion loops of
        process_touches). */
    method DeleteFromTables(ids: set<int32>)
      requires server.Valid()
      modifies server`cursors, server`objects
      ensures server.Valid()
      ensures server.cursors == old(server.cursors) - ids
      ensures server.objects == old(server.objects) - ids
      ensures server.ObjectTable() == old(server.ObjectTable()) - ids
    {
      var rest := ids;
      while rest != {}
        invariant rest <= ids
        invariant server.Valid()
        invariant server.cursors == old(server.cursors) - (ids - rest)
        invariant server.objects == old(server.objects) - (ids - rest)
        decreases rest
      {
        var id :| id in rest;
        DeleteId(id);
        rest := rest - {id};
        assert ids - rest == (ids - (rest + {id})) + {id};
      }
      assert ids - rest == ids;
      assert server.ObjectTable() == old(server.ObjectTable()) - ids;
    }

    /** The finger branch of the foreach: a tracked id updates its cursor,
        any other id is added as a cursor and becomes tracked. */
    method RouteFinger(t: Touch)
      requires server.Valid() && t.kind == Finger
      modifies this`tuioIds, server`cursors
      ensures server.Valid()
      ensures Snapshot() == Route(old(Snapshot()), t)
    {
      ghost var s := Snapshot();
      if t.id in tuioIds {
        server.UpdateTuioCursor(t.id, t.location);
        assert Snapshot() == s.(cursors := UpdateCursor(s.cursors, t.id, t.location));
      } else {
        server.AddTuioCursor(t.id, t.location);
        tuioIds := tuioIds + {t.id};
        assert Snapshot() == s.(cursors := AddCursor(s.cursors, t.id, t.location), tracked := s.tracked + {t.id});
      }
    }

    /** The tag branch of the foreach: a tracked id updates its object in
        place, any other id is added as a new object and becomes tracked. */
    method RouteTag(t: Touch)
      requires server.Valid() && t.kind == Tag
      modifies this`tuioIds, server`objects, server.objects.Values
      ensures server.Valid()
      ensures Snapshot() == Route(old(Snapshot()), t)
      ensures forall o :: o in server.objects.Values ==> o in old(server.objects.Values) || fresh(o)
    {
      ghost var s := Snapshot();
      if t.id in tuioIds {
        server.UpdateTuioObject(t.id, t.tag, t.location, t.orientation);
        assert Snapshot() == s.(objects := UpdateObject(s.objects, t.id, t.tag, t.location, t.orientation));
      } else {
        server.AddTuioObject(t.id, t.tag, t.location, t.orientation);
        tuioIds := tuioIds + {t.id};
        assert Snapshot() == s.(objects := AddObject(s.objects, t.id, t.tag, t.location, t.orientation), tracked := s.tracked + {t.id});
      }
    }

    /** One pass of the foreach of process_touches: a finger touch goes to
        the cursor table, a tag touch to the object table, any other touch is
        skipped. */
    method RouteTouch(t: Touch)
      requires server.Valid()
      modifies this`tuioIds, server`cursors, server`objects, server.objects.Values
      ensures server.Valid()
      ensures Snapshot() == Route(old(Snapshot()), t)
      ensures forall o :: o in server.objects.Values ==> o in old(server.objects.Values) || fresh(o)
    {
      match t.kind {
        case Finger => RouteFinger(t);
        case Tag => RouteTag(t);
        case Unclassified =>
      }
    }

    /** The foreach of process_touches: routes every touch in batch order
        and collects the ids of the classified ones (current_frame_tuio_ids). */
    method RouteEach(touches: seq<Touch>) returns (current: set<int32>)
      requires server.Valid()
      modifies this`tuioIds, server`cursors, server`objects, server.objects.Values
      ensures server.Valid()
      ensures Snapshot() == RouteAll(old(Snapshot()), touches)
      ensures current == Observed(touches)
    {
      ghost var start := Snapshot();
      current := {};
      for i := 0 to |touches|
        invariant server.Valid()
        invariant Snapshot() == RouteAll(start, touches[..i])
        invariant current == Observed(touches[..i])
        invariant forall o :: o in server.objects.Values ==> o in old(server.objects.Values) || fresh(o)
      {
        assert touches[..i + 1][..i] == touches[..i];
        RouteTouch(touches[i]);
        if touches[i].kind != Unclassified {
          current := current + {touches[i].id};
        }
      }
      assert touches[..|touches|] == touches;
    }

    /** The non-empty branch of process_touches: opens a frame, routes every
        touch in order, then deletes the ids tracked but not seen this time. */
    method TrackBatch(touches: seq<Touch>)
      requires server.Valid() && |touches| > 0
      modifies this`tuioIds, server`cursors, server`objects, server`currentFrame, server.objects.Values
      ensures server.Valid()
      ensures Snapshot() == Process(old(Snapshot()), touches)
    {
      ghost var s0 := Snapshot();
      server.InitFrame();
      assert Snapshot() == s0.(frame := Inc32(s0.frame));
      var current := RouteEach(touches);
      PruneTables(current);
    }

    /** The deletion step after the foreach: the ids of tuio_ids not seen in
        this batch leave both tables, and tuio_ids is reduced accordingly. */
    method PruneTables(current: set<int32>)
      requires server.Valid()
      modifies this`tuioIds, server`cursors, server`objects
      ensures server.Valid()
      ensures Snapshot() == Prune(old(Snapshot()), current)
    {
      ghost var routed := Snapshot();
      var obsolete := SymmetricExcept(tuioIds, current);
      DeleteFromTables(obsolete);
      assert Snapshot() == DeleteFromBoth(routed, obsolete);
      tuioIds := SymmetricExcept(tuioIds, obsolete);
    }

    /** The empty-batch branch: every tracked id is deleted from both tables
        and nothing is tracked any more; no frame is opened. */
    method ForgetAll()
      requires server.Valid()
      modifies this`tuioIds, server`cursors, server`objects
      ensures server.Valid()
      ensures Snapshot() == Process(old(Snapshot()), [])
    {
      DeleteFromTables(tuioIds);
      tuioIds := {};
    }

    /** process_touches: handles the batch, then commits either way, sending
        the cursor bundle and the object bundle of the new tables. */
    method ProcessTouches(touches: seq<Touch>)
      requires Valid()
      modifies this`tuioIds, server, server.objects.Values
      ensures Valid()
      ensures Snapshot() == Process(old(Snapshot()), touches)
      ensures tuioIds == if touches == [] then {} else Observed(touches)
      ensures server.currentFrame == if touches == [] then old(server.currentFrame) else Inc32(old(server.currentFrame))
      ensures |server.sent| == |old(server.sent)| + 2
      ensures server.sent[..|old(server.sent)|] == old(server.sent)
      ensures IsCursorFrame(server.sent[|server.sent| - 2], server.cursors, server.currentFrame)
      ensures IsObjectFrame(server.sent[|server.sent| - 1], server.ObjectTable(), server.currentFrame)
    {
      ghost var s := Snapshot();
      ProcessInv(s, touches);
      ProcessTracked(s, touches);
      ProcessFrame(s, touches);
      if |touches| > 0 {
        TrackBatch(touches);
      } else {
        ForgetAll();
      }
      ghost var processed := Snapshot();
      assert processed == Process(s, touches) && Valid();
      server.CommitFrame();
      assert Snapshot() == processed;
    }
  }
}
