/** The values that travel from the feed to the arena: machine integers, C strings
    and the flat vehicle record. */
module Records {

  type Char = x: int | 0 <= x < 0x100
  newtype Int32 = x: int | -0x8000_0000 <= x < 0x8000_0000
  type Uint32 = x: int | 0 <= x < 0x1_0000_0000
  type Uint64 = x: int | 0 <= x < 0x1_0000_0000_0000_0000

  /** A C string without its terminator. */
  type CString = s: seq<Char> | forall i :: 0 <= i < |s| ==> s[i] != 0

  /** The character arrays of the record, terminator included. */
  type Field16 = s: seq<Char> | |s| == 16 witness seq(16, _ => 0)
  type Field32 = s: seq<Char> | |s| == 32 witness seq(32, _ => 0)

  /** A single-precision number as its bit pattern. Numbers are only copied, so
      nothing here depends on how the bits are read; all bits clear is 0.0. */
  datatype Float = Float(bits: Uint32)

  const ZERO: Float := Float(0)

  datatype Option<+T> = None | Some(value: T) {
    function GetOr(default: T): T {
      match this
      case None => default
      case Some(v) => v
    }
  }

  datatype VehicleData = VehicleData(
    fleetNumber: Field16,
    internalId: Field16,
    routeId: Field16,
    lat: Float,
    lon: Float,
    speed: Float,
    occupancyStatus: Int32,
    occupancyPercentage: Int32,
    bearing: Float,
    timestamp: Uint64,
    currentStatus: Int32,
    congestionLevel: Int32,
    stopId: Field32)
}
