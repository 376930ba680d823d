/**
 The TUIO object entity. Id and ClassId have private setters and are only
 assigned by the constructor, so they are constants here; Location and
 Orientation are public properties that the server overwrites in place.
 */
module TuioObjects {
  import opened TuioTypes

  class TuioObject {
    /** s: session id */
    const id: int32
    /** i: class (fiducial) id, declared `long` */
    const classId: int64
    /** x, y */
    var location: PointF
    /** a */
    var orientation: Float32
    /** never set by this code: keeps its default value */
    var speed: PointF
    /** m: never set by this code: keeps its default value */
    var motionAcceleration: Float32

    constructor (id: int32, classId: int64, location: PointF, orientation: Float32)
      ensures this.id == id && this.classId == classId
      ensures this.location == location && this.orientation == orientation
      ensures speed == PointF(Zero, Zero) && motionAcceleration == Zero
      ensures State() == ObjectState(id, classId, location, orientation)
    {
      this.id := id;
      this.classId := classId;
      this.location := location;
      this.orientation := orientation;
      speed := PointF(Zero, Zero);
      motionAcceleration := Zero;
    }

    /** The part of the object a `set` message transmits. */
    function State(): ObjectState
      reads this
    {
      ObjectState(id, classId, location, orientation)
    }
  }
}
