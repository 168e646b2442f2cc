/** Small value types shared by every model in this project. */
module Common {
  datatype Option<+T> = None | Some(value: T)

  /** A position, on the page in pixels or on the ground in metres. */
  datatype Point = Point(x: real, y: real)

  function Abs(x: real): real { if x < 0.0 then -x else x }

  /** One byte; only lengths and newline positions of byte strings matter here. */
  type Byte = b: int | 0 <= b < 256
  type Bytes = seq<Byte>

  const MIB := 1024 * 1024

  const NEWLINE: Byte := 10
}
