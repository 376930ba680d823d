/**
 Value types shared by the TUIO server model: the C# integer widths the
 source relies on, opaque single-precision floats, points, OSC messages and
 the two entity records.
 */
module TuioTypes {

  /** C# `int` (System.Int32). */
  type int32 = x: int | -0x8000_0000 <= x < 0x8000_0000

  /** C# `long` (System.Int64). */
  type int64 = x: int | -0x8000_0000_0000_0000 <= x < 0x8000_0000_0000_0000

  datatype Option<T> = None | Some(value: T)

  /** A C# `float`, kept as its IEEE-754 bit pattern: the model carries
      coordinates and angles through unchanged and never computes with them. */
  datatype Float32 = Float32(bits: bv32)

  /** `0.0f` */
  const Zero: Float32 := Float32(0)

  /** System.Drawing.PointF */
  datatype PointF = PointF(x: Float32, y: Float32)

  /** One OSC argument, typed as OSC 1.0 types it: string, int32 or float32. */
  datatype Arg = S(s: string) | I(i: int32) | F(f: Float32)

  /** An OSC message: an address pattern and its argument list. */
  datatype Msg = Msg(address: string, args: seq<Arg>)

  /** A TUIO cursor: its session id and its normalised location. */
  datatype TuioCursor = TuioCursor(id: int32, location: PointF)

  /** The transmitted state of a TUIO object (see TuioObject.State). */
  datatype ObjectState = ObjectState(id: int32, classId: int64, location: PointF, orientation: Float32)

  /** The unchecked `(Int32)` cast of a `long`: keeps the low 32 bits, read
      as two's complement. */
  function ToInt32(v: int64): (r: int32)
    ensures (v - r) % 0x1_0000_0000 == 0
    ensures -0x8000_0000 <= v < 0x8000_0000 ==> r == v
  {
    var low := v % 0x1_0000_0000;
    if low < 0x8000_0000 then low else low - 0x1_0000_0000
  }

  /** The cast loses nothing exactly when the class id already fits in 32 bits. */
  lemma ToInt32Lossless(v: int64)
    ensures ToInt32(v) == v <==> -0x8000_0000 <= v < 0x8000_0000
  {
  }

  /** Two different class ids that the cast sends to the same int32. */
  lemma ToInt32Collides()
    ensures ToInt32(0x1_0000_0000) == ToInt32(0) == 0
  {
  }

  /** The unchecked `++` on a C# `int`: the successor, wrapping from
      int.MaxValue to int.MinValue. */
  function Inc32(x: int32): (r: int32)
    ensures (r - x - 1) % 0x1_0000_0000 == 0
    ensures x < 0x7FFF_FFFF ==> r == x + 1 && r > x
    ensures x == 0x7FFF_FFFF ==> r == -0x8000_0000
  {
    if x == 0x7FFF_FFFF then -0x8000_0000 else x + 1
  }
}
