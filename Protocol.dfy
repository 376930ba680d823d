/**
 The TUIO 1.1 2D surface profiles as the server lays them out: for each
 entity kind one bundle made of an `alive` message, one `set` message per
 live entity and an `fseq` message. Also a strict receiver (the decoders)
 that reads such a bundle back, and the facts that tie the two together.
 OSC byte encoding is not modelled: a message is its address and its typed
 argument list.
 */
module TuioProtocol {
  import opened TuioTypes

  const CursorAddress: string := "/tuio/2Dcur"
  const ObjectAddress: string := "/tuio/2Dobj"

  // ----- Encoding -----

  function IdArgs(ids: seq<int32>): seq<Arg>
  {
    seq(|ids|, i requires 0 <= i < |ids| => I(ids[i]))
  }

  /** `alive` followed by every live session id. */
  function AliveMessage(address: string, ids: seq<int32>): Msg
  {
    Msg(address, [S("alive")] + IdArgs(ids))
  }

  /** `fseq` followed by the frame counter. */
  function SequenceMessage(address: string, frame: int32): Msg
  {
    Msg(address, [S("fseq"), I(frame)])
  }

  /** /tuio/2Dcur set s x y, then four zero floats (m, r and two unnamed ones). */
  function CursorSetMessage(c: TuioCursor): Msg
  {
    Msg(CursorAddress, [S("set"), I(c.id), F(c.location.x), F(c.location.y),
                        F(Zero), F(Zero), F(Zero), F(Zero)])
  }

  /** /tuio/2Dobj set s i x y a X Y A m r: the class id is narrowed to int32,
      speeds and accelerations are sent as zero. */
  function ObjectSetMessage(o: ObjectState): Msg
  {
    Msg(ObjectAddress, [S("set"), I(o.id), I(ToInt32(o.classId)), F(o.location.x), F(o.location.y),
                        F(o.orientation), F(Zero), F(Zero), F(Zero), F(Zero), F(Zero)])
  }

  function CursorIds(cs: seq<TuioCursor>): seq<int32>
  {
    seq(|cs|, i requires 0 <= i < |cs| => cs[i].id)
  }

  function ObjectIds(os: seq<ObjectState>): seq<int32>
  {
    seq(|os|, i requires 0 <= i < |os| => os[i].id)
  }

  function CursorSetMessages(cs: seq<TuioCursor>): seq<Msg>
  {
    seq(|cs|, i requires 0 <= i < |cs| => CursorSetMessage(cs[i]))
  }

  function ObjectSetMessages(os: seq<ObjectState>): seq<Msg>
  {
    seq(|os|, i requires 0 <= i < |os| => ObjectSetMessage(os[i]))
  }

  /** Bundle assembly order: alive, then the set messages, then fseq. */
  function FrameBundle(address: string, ids: seq<int32>, sets: seq<Msg>, frame: int32): seq<Msg>
  {
    [AliveMessage(address, ids)] + sets + [SequenceMessage(address, frame)]
  }

  /** The cursor bundle built from the cursors in enumeration order `cs`. */
  function CursorFrameBundle(cs: seq<TuioCursor>, frame: int32): seq<Msg>
  {
    FrameBundle(CursorAddress, CursorIds(cs), CursorSetMessages(cs), frame)
  }

  /** The object bundle built from the objects in enumeration order `os`. */
  function ObjectFrameBundle(os: seq<ObjectState>, frame: int32): seq<Msg>
  {
    FrameBundle(ObjectAddress, ObjectIds(os), ObjectSetMessages(os), frame)
  }

  // ----- Enumerating a table -----

  function Elems(ids: seq<int32>): set<int32>
  {
    set k | k in ids
  }

  predicate Distinct(ids: seq<int32>)
  {
    forall i, j :: 0 <= i < j < |ids| ==> ids[i] != ids[j]
  }

  /** `es`, keyed by `ids`, lists every entry of `table` exactly once: what a
      `foreach` over a Dictionary's Values yields, in an order the model
      leaves open. */
  predicate Enumerates<E(==)>(ids: seq<int32>, es: seq<E>, table: map<int32, E>)
  {
    && |ids| == |es|
    && Distinct(ids)
    && (forall i :: 0 <= i < |es| ==> ids[i] in table && table[ids[i]] == es[i])
    && table.Keys == Elems(ids)
  }

  predicate EnumeratesCursors(cs: seq<TuioCursor>, table: map<int32, TuioCursor>)
  {
    Enumerates(CursorIds(cs), cs, table)
  }

  predicate EnumeratesObjects(os: seq<ObjectState>, table: map<int32, ObjectState>)
  {
    Enumerates(ObjectIds(os), os, table)
  }

  lemma {:induction false} DistinctCardinality(ids: seq<int32>)
    requires Distinct(ids)
    ensures |Elems(ids)| == |ids|
  {
    if ids != [] {
      var rest := ids[1..];
      assert Distinct(rest) by {
        forall i, j | 0 <= i < j < |rest|
          ensures rest[i] != rest[j]
        {
          assert rest[i] == ids[i + 1] && rest[j] == ids[j + 1];
        }
      }
      DistinctCardinality(rest);
      assert ids[0] !in rest by {
        forall j | 0 <= j < |rest|
          ensures rest[j] != ids[0]
        {
          assert rest[j] == ids[j + 1];
        }
      }
      assert Elems(ids) == {ids[0]} + Elems(rest) by {
        assert ids == [ids[0]] + rest;
      }
    }
  }

  /** An enumeration is exactly as long as the table it enumerates. */
  lemma EnumerationSize<E>(ids: seq<int32>, es: seq<E>, table: map<int32, E>)
    requires Enumerates(ids, es, table)
    ensures |es| == |table|
  {
    DistinctCardinality(ids);
  }

  /** Enumerating one more key of `table` extends an enumeration of the
      entries already visited. */
  lemma EnumerationStep<E>(ids: seq<int32>, es: seq<E>, table: map<int32, E>, rest: set<int32>, k: int32)
    requires Enumerates(ids, es, table - rest)
    requires rest <= table.Keys && k in rest
    ensures Enumerates(ids + [k], es + [table[k]], table - (rest - {k}))
  {
    assert Elems(ids + [k]) == Elems(ids) + {k};
  }

  /** The cursor bundle of some enumeration of `table`, carrying `frame`. */
  ghost predicate IsCursorFrame(b: seq<Msg>, table: map<int32, TuioCursor>, frame: int32)
  {
    exists cs :: EnumeratesCursors(cs, table) && b == CursorFrameBundle(cs, frame)
  }

  /** The object bundle of some enumeration of `table`, carrying `frame`. */
  ghost predicate IsObjectFrame(b: seq<Msg>, table: map<int32, ObjectState>, frame: int32)
  {
    exists os :: EnumeratesObjects(os, table) && b == ObjectFrameBundle(os, frame)
  }

  // ----- Decoding: a strict receiver -----

  function DecodeIds(args: seq<Arg>): Option<seq<int32>>
  {
    if args == [] then Some([])
    else if !args[0].I? then None
    else match DecodeIds(args[1..])
      case None => None
      case Some(rest) => Some([args[0].i] + rest)
  }

  /** The kind-independent frame of a bundle: alive ids, set messages, frame number. */
  datatype Frame = Frame(ids: seq<int32>, sets: seq<Msg>, frame: int32)

  function DecodeFrame(address: string, b: seq<Msg>): Option<Frame>
  {
    if |b| < 2 then None
    else
      var alive, fseq := b[0], b[|b| - 1];
      if alive.address != address || |alive.args| == 0 || alive.args[0] != S("alive") then None
      else if fseq.address != address || |fseq.args| != 2 || fseq.args[0] != S("fseq") || !fseq.args[1].I? then None
      else match DecodeIds(alive.args[1..])
        case None => None
        case Some(ids) => Some(Frame(ids, b[1..|b| - 1], fseq.args[1].i))
  }

  function DecodeCursorSet(m: Msg): Option<TuioCursor>
  {
    if && m.address == CursorAddress && |m.args| == 8 && m.args[0] == S("set")
       && m.args[1].I? && m.args[2].F? && m.args[3].F?
       && m.args[4..] == [F(Zero), F(Zero), F(Zero), F(Zero)]
    then Some(TuioCursor(m.args[1].i, PointF(m.args[2].f, m.args[3].f)))
    else None
  }

  function DecodeObjectSet(m: Msg): Option<ObjectState>
  {
    if && m.address == ObjectAddress && |m.args| == 11 && m.args[0] == S("set")
       && m.args[1].I? && m.args[2].I? && m.args[3].F? && m.args[4].F? && m.args[5].F?
       && m.args[6..] == [F(Zero), F(Zero), F(Zero), F(Zero), F(Zero)]
    then Some(ObjectState(m.args[1].i, m.args[2].i, PointF(m.args[3].f, m.args[4].f), m.args[5].f))
    else None
  }

  function DecodeCursorSets(ms: seq<Msg>): Option<seq<TuioCursor>>
  {
    if ms == [] then Some([])
    else match DecodeCursorSet(ms[0])
      case None => None
      case Some(c) =>
        match DecodeCursorSets(ms[1..])
        case None => None
        case Some(rest) => Some([c] + rest)
  }

  function DecodeObjectSets(ms: seq<Msg>): Option<seq<ObjectState>>
  {
    if ms == [] then Some([])
    else match DecodeObjectSet(ms[0])
      case None => None
      case Some(o) =>
        match DecodeObjectSets(ms[1..])
        case None => None
        case Some(rest) => Some([o] + rest)
  }

  datatype CursorFrame = CursorFrame(cursors: seq<TuioCursor>, frame: int32)
  datatype ObjectFrame = ObjectFrame(objects: seq<ObjectState>, frame: int32)

  /** A cursor bundle whose alive list names exactly its set messages' ids. */
  function DecodeCursorBundle(b: seq<Msg>): Option<CursorFrame>
  {
    match DecodeFrame(CursorAddress, b)
    case None => None
    case Some(f) =>
      match DecodeCursorSets(f.sets)
      case None => None
      case Some(cs) => if CursorIds(cs) == f.ids then Some(CursorFrame(cs, f.frame)) else None
  }

  /** An object bundle whose alive list names exactly its set messages' ids. */
  function DecodeObjectBundle(b: seq<Msg>): Option<ObjectFrame>
  {
    match DecodeFrame(ObjectAddress, b)
    case None => None
    case Some(f) =>
      match DecodeObjectSets(f.sets)
      case None => None
      case Some(os) => if ObjectIds(os) == f.ids then Some(ObjectFrame(os, f.frame)) else None
  }

  /** What a receiver can learn of `os`: the class ids after the int32 cast. */
  function Narrowed(os: seq<ObjectState>): seq<ObjectState>
  {
    seq(|os|, i requires 0 <= i < |os| => os[i].(classId := ToInt32(os[i].classId)))
  }

  // ----- Round trips -----

  lemma {:induction false} IdsRoundTrip(ids: seq<int32>)
    ensures DecodeIds(IdArgs(ids)) == Some(ids)
  {
    if ids != [] {
      assert IdArgs(ids)[1..] == IdArgs(ids[1..]);
      IdsRoundTrip(ids[1..]);
      assert [ids[0]] + ids[1..] == ids;
    }
  }

  lemma {:induction false} IdsDecodeExact(args: seq<Arg>)
    requires DecodeIds(args).Some?
    ensures IdArgs(DecodeIds(args).value) == args
  {
    if args != [] {
      IdsDecodeExact(args[1..]);
      var rest := DecodeIds(args[1..]).value;
      assert DecodeIds(args).value == [args[0].i] + rest;
      assert IdArgs([args[0].i] + rest) == [args[0]] + IdArgs(rest);
      assert [args[0]] + args[1..] == args;
    }
  }

  lemma FrameRoundTrip(address: string, ids: seq<int32>, sets: seq<Msg>, frame: int32)
    ensures DecodeFrame(address, FrameBundle(address, ids, sets, frame)) == Some(Frame(ids, sets, frame))
  {
    var b := FrameBundle(address, ids, sets, frame);
    assert b[0].args[1..] == IdArgs(ids);
    IdsRoundTrip(ids);
    assert b[1..|b| - 1] == sets;
  }

  lemma FrameDecodeExact(address: string, b: seq<Msg>)
    requires DecodeFrame(address, b).Some?
    ensures var f := DecodeFrame(address, b).value;
            FrameBundle(address, f.ids, f.sets, f.frame) == b
  {
    var f := DecodeFrame(address, b).value;
    IdsDecodeExact(b[0].args[1..]);
    assert [S("alive")] + b[0].args[1..] == b[0].args;
    assert b[|b| - 1].args == [S("fseq"), I(f.frame)];
    assert [b[0]] + b[1..|b| - 1] + [b[|b| - 1]] == b;
  }

  lemma CursorSetDecodeExact(m: Msg)
    requires DecodeCursorSet(m).Some?
    ensures CursorSetMessage(DecodeCursorSet(m).value) == m
  {
    var c := DecodeCursorSet(m).value;
    assert m.args == [S("set"), I(c.id), F(c.location.x), F(c.location.y)] + m.args[4..];
  }

  lemma ObjectSetDecodeExact(m: Msg)
    requires DecodeObjectSet(m).Some?
    ensures ObjectSetMessage(DecodeObjectSet(m).value) == m
  {
    var o := DecodeObjectSet(m).value;
    assert ToInt32(o.classId) == o.classId;
    assert m.args == [S("set"), I(o.id), I(o.classId), F(o.location.x), F(o.location.y), F(o.orientation)]
                     + m.args[6..];
  }

  lemma {:induction false} CursorSetsRoundTrip(cs: seq<TuioCursor>)
    ensures DecodeCursorSets(CursorSetMessages(cs)) == Some(cs)
  {
    if cs != [] {
      assert CursorSetMessages(cs)[1..] == CursorSetMessages(cs[1..]);
      CursorSetsRoundTrip(cs[1..]);
      assert [cs[0]] + cs[1..] == cs;
    }
  }

  lemma {:induction false} CursorSetsDecodeExact(ms: seq<Msg>)
    requires DecodeCursorSets(ms).Some?
    ensures CursorSetMessages(DecodeCursorSets(ms).value) == ms
  {
    if ms != [] {
      CursorSetsDecodeExact(ms[1..]);
      CursorSetDecodeExact(ms[0]);
      var c := DecodeCursorSet(ms[0]).value;
      var rest := DecodeCursorSets(ms[1..]).value;
      assert CursorSetMessages([c] + rest) == [ms[0]] + CursorSetMessages(rest);
      assert [ms[0]] + ms[1..] == ms;
    }
  }

  lemma {:induction false} ObjectSetsRoundTrip(os: seq<ObjectState>)
    ensures DecodeObjectSets(ObjectSetMessages(os)) == Some(Narrowed(os))
  {
    if os != [] {
      var ms := ObjectSetMessages(os);
      assert ms[1..] == ObjectSetMessages(os[1..]);
      ObjectSetsRoundTrip(os[1..]);
      assert DecodeObjectSets(ms[1..]) == Some(Narrowed(os[1..]));
      assert ms[0].args[6..] == [F(Zero), F(Zero), F(Zero), F(Zero), F(Zero)];
      assert DecodeObjectSet(ms[0]) == Some(Narrowed(os)[0]);
      assert Narrowed(os)[1..] == Narrowed(os[1..]);
      assert [Narrowed(os)[0]] + Narrowed(os[1..]) == Narrowed(os);
    } else {
      assert Narrowed(os) == [];
    }
  }

  lemma {:induction false} ObjectSetsDecodeExact(ms: seq<Msg>)
    requires DecodeObjectSets(ms).Some?
    ensures ObjectSetMessages(DecodeObjectSets(ms).value) == ms
  {
    if ms != [] {
      ObjectSetsDecodeExact(ms[1..]);
      ObjectSetDecodeExact(ms[0]);
      var o := DecodeObjectSet(ms[0]).value;
      var rest := DecodeObjectSets(ms[1..]).value;
      assert ObjectSetMessages([o] + rest) == [ms[0]] + ObjectSetMessages(rest);
      assert [ms[0]] + ms[1..] == ms;
    }
  }

  /** A receiver reads back exactly the cursors and the frame that were encoded. */
  lemma CursorBundleRoundTrip(cs: seq<TuioCursor>, frame: int32)
    ensures DecodeCursorBundle(CursorFrameBundle(cs, frame)) == Some(CursorFrame(cs, frame))
  {
    FrameRoundTrip(CursorAddress, CursorIds(cs), CursorSetMessages(cs), frame);
    CursorSetsRoundTrip(cs);
  }

  /** Every bundle the receiver accepts is the encoding of what it read. */
  lemma CursorBundleDecodeExact(b: seq<Msg>)
    requires DecodeCursorBundle(b).Some?
    ensures var fr := DecodeCursorBundle(b).value;
            CursorFrameBundle(fr.cursors, fr.frame) == b
  {
    FrameDecodeExact(CursorAddress, b);
    CursorSetsDecodeExact(DecodeFrame(CursorAddress, b).value.sets);
  }

  /** A receiver reads back the objects and the frame that were encoded, with
      each class id narrowed to int32. */
  lemma ObjectBundleRoundTrip(os: seq<ObjectState>, frame: int32)
    ensures DecodeObjectBundle(ObjectFrameBundle(os, frame)) == Some(ObjectFrame(Narrowed(os), frame))
  {
    FrameRoundTrip(ObjectAddress, ObjectIds(os), ObjectSetMessages(os), frame);
    ObjectSetsRoundTrip(os);
    assert ObjectIds(Narrowed(os)) == ObjectIds(os);
  }

  lemma ObjectBundleDecodeExact(b: seq<Msg>)
    requires DecodeObjectBundle(b).Some?
    ensures var fr := DecodeObjectBundle(b).value;
            ObjectFrameBundle(fr.objects, fr.frame) == b
  {
    FrameDecodeExact(ObjectAddress, b);
    ObjectSetsDecodeExact(DecodeFrame(ObjectAddress, b).value.sets);
  }

  /** The object round trip is lossless exactly when every class id fits in 32 bits. */
  lemma NarrowedIdentity(os: seq<ObjectState>)
    ensures Narrowed(os) == os <==> forall i :: 0 <= i < |os| ==> -0x8000_0000 <= os[i].classId < 0x8000_0000
  {
    if Narrowed(os) == os {
      forall i | 0 <= i < |os|
        ensures -0x8000_0000 <= os[i].classId < 0x8000_0000
      {
        assert Narrowed(os)[i].classId == os[i].classId;
      }
    }
  }

  // ----- What a committed bundle says about the table -----

  /** The alive arguments of an enumeration name every key of the table once. */
  lemma AliveNamesTable<E>(ids: seq<int32>, es: seq<E>, table: map<int32, E>)
    requires Enumerates(ids, es, table)
    ensures forall k :: k in table <==> I(k) in IdArgs(ids)
    ensures forall i, j :: 0 <= i < j < |ids| ==> IdArgs(ids)[i] != IdArgs(ids)[j]
  {
    forall k
      ensures k in table <==> I(k) in IdArgs(ids)
    {
      if k in table {
        var i :| 0 <= i < |ids| && ids[i] == k;
        assert IdArgs(ids)[i] == I(k);
      }
    }
  }

  /** The alive arguments after "alive" are the ids of the set messages,
      position by position, and name every key of the table exactly once. */
  lemma AliveFacts<E>(alive: Msg, ids: seq<int32>, table: map<int32, E>, es: seq<E>)
    requires Enumerates(ids, es, table) && alive.args == [S("alive")] + IdArgs(ids)
    ensures |alive.args| == 1 + |table| && alive.args[0] == S("alive")
    ensures forall k :: k in table <==> I(k) in alive.args[1..]
    ensures forall i, j :: 1 <= i < j < |alive.args| ==> alive.args[i] != alive.args[j]
    ensures forall i :: 1 <= i < |alive.args| ==> alive.args[i] == I(ids[i - 1])
  {
    var a := alive.args;
    forall i | 1 <= i < |a|
      ensures a[i] == I(ids[i - 1])
    {
      assert a[i] == IdArgs(ids)[i - 1];
    }
    assert |a| == 1 + |table| by {
      EnumerationSize(ids, es, table);
    }
    assert forall k :: k in table <==> I(k) in a[1..] by {
      AliveNamesTable(ids, es, table);
      assert a[1..] == IdArgs(ids);
    }
    forall i, j | 1 <= i < j < |a|
      ensures a[i] != a[j]
    {
      assert ids[i - 1] != ids[j - 1];
    }
  }

  lemma CursorBundleFacts(b: seq<Msg>, cs: seq<TuioCursor>, table: map<int32, TuioCursor>, frame: int32)
    requires EnumeratesCursors(cs, table) && b == CursorFrameBundle(cs, frame)
    ensures |b| == 2 + |table|
    ensures b[0].address == CursorAddress && b[0].args == [S("alive")] + IdArgs(CursorIds(cs))
    ensures forall i :: 1 <= i <= |table| ==> b[i] == CursorSetMessage(table[CursorIds(cs)[i - 1]])
    ensures b[|b| - 1] == SequenceMessage(CursorAddress, frame)
  {
    EnumerationSize(CursorIds(cs), cs, table);
    forall i | 1 <= i <= |table|
      ensures b[i] == CursorSetMessage(table[CursorIds(cs)[i - 1]])
    {
      assert b[i] == CursorSetMessages(cs)[i - 1];
    }
  }

  /** The cursor bundle of a table: 2 + |table| messages; the alive message
      names every key exactly once and in the order of the set messages;
      each set message carries that key's cursor; fseq carries the frame;
      and a receiver decodes an enumeration of the table and the frame. */
  lemma CursorFrameFacts(b: seq<Msg>, table: map<int32, TuioCursor>, frame: int32)
    requires IsCursorFrame(b, table, frame)
    ensures |b| == 2 + |table|
    ensures b[0].address == CursorAddress && |b[0].args| == 1 + |table| && b[0].args[0] == S("alive")
    ensures forall k :: k in table <==> I(k) in b[0].args[1..]
    ensures forall i, j :: 1 <= i < j < |b[0].args| ==> b[0].args[i] != b[0].args[j]
    ensures forall i :: 1 <= i <= |table| ==>
              b[0].args[i].I? && b[0].args[i].i in table && b[i] == CursorSetMessage(table[b[0].args[i].i])
    ensures b[|b| - 1] == SequenceMessage(CursorAddress, frame)
    ensures DecodeCursorBundle(b).Some? && DecodeCursorBundle(b).value.frame == frame
    ensures EnumeratesCursors(DecodeCursorBundle(b).value.cursors, table)
  {
    var cs :| EnumeratesCursors(cs, table) && b == CursorFrameBundle(cs, frame);
    var ids := CursorIds(cs);
    CursorBundleFacts(b, cs, table, frame);
    AliveFacts(b[0], ids, table, cs);
    forall i | 1 <= i <= |table|
      ensures b[0].args[i].I? && b[0].args[i].i in table && b[i] == CursorSetMessage(table[b[0].args[i].i])
    {
      assert b[0].args[i] == I(ids[i - 1]);
    }
    assert DecodeCursorBundle(b) == Some(CursorFrame(cs, frame)) by {
      CursorBundleRoundTrip(cs, frame);
    }
  }

  lemma ObjectBundleFacts(b: seq<Msg>, os: seq<ObjectState>, table: map<int32, ObjectState>, frame: int32)
    requires EnumeratesObjects(os, table) && b == ObjectFrameBundle(os, frame)
    ensures |b| == 2 + |table|
    ensures b[0].address == ObjectAddress && b[0].args == [S("alive")] + IdArgs(ObjectIds(os))
    ensures forall i :: 1 <= i <= |table| ==> b[i] == ObjectSetMessage(table[ObjectIds(os)[i - 1]])
    ensures b[|b| - 1] == SequenceMessage(ObjectAddress, frame)
  {
    EnumerationSize(ObjectIds(os), os, table);
    forall i | 1 <= i <= |table|
      ensures b[i] == ObjectSetMessage(table[ObjectIds(os)[i - 1]])
    {
      assert b[i] == ObjectSetMessages(os)[i - 1];
    }
  }

  /** The object counterpart of CursorFrameFacts: 11-argument set messages
      whose class id is the table's, narrowed to int32; a receiver reads an
      enumeration of the table with every class id narrowed. */
  lemma ObjectFrameFacts(b: seq<Msg>, table: map<int32, ObjectState>, frame: int32)
    requires IsObjectFrame(b, table, frame)
    ensures |b| == 2 + |table|
    ensures b[0].address == ObjectAddress && |b[0].args| == 1 + |table| && b[0].args[0] == S("alive")
    ensures forall k :: k in table <==> I(k) in b[0].args[1..]
    ensures forall i, j :: 1 <= i < j < |b[0].args| ==> b[0].args[i] != b[0].args[j]
    ensures forall i :: 1 <= i <= |table| ==>
              b[0].args[i].I? && b[0].args[i].i in table && b[i] == ObjectSetMessage(table[b[0].args[i].i])
    ensures b[|b| - 1] == SequenceMessage(ObjectAddress, frame)
    ensures DecodeObjectBundle(b).Some? && DecodeObjectBundle(b).value.frame == frame
    ensures exists os :: EnumeratesObjects(os, table) && DecodeObjectBundle(b).value.objects == Narrowed(os)
  {
    var os :| EnumeratesObjects(os, table) && b == ObjectFrameBundle(os, frame);
    var ids := ObjectIds(os);
    ObjectBundleFacts(b, os, table, frame);
    AliveFacts(b[0], ids, table, os);
    forall i | 1 <= i <= |table|
      ensures b[0].args[i].I? && b[0].args[i].i in table && b[i] == ObjectSetMessage(table[b[0].args[i].i])
    {
      assert b[0].args[i] == I(ids[i - 1]);
    }
    assert DecodeObjectBundle(b) == Some(ObjectFrame(Narrowed(os), frame)) by {
      ObjectBundleRoundTrip(os, frame);
    }
  }
}
