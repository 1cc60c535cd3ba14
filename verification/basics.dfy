/** Platform value types that the format only copies around. */
module Basics {

  /** One byte of a blob. */
  newtype Byte = b: int | 0 <= b < 256

  /** The contents of a regular file (Foundation's `Data`). */
  type Bytes = seq<Byte>

  /** Swift's `Int64`, used for world seeds. */
  type Int64 = x: int | -0x8000_0000_0000_0000 <= x < 0x8000_0000_0000_0000

  /** A `CGFloat` on a 64-bit platform: an IEEE 754 double, held as its bit
      pattern. The format only copies coordinates, never computes with them. */
  type Float64 = bv64

  /** A `CGPoint`. */
  datatype Point = Point(x: Float64, y: Float64)

  /** The bit patterns of the coordinates the fixtures use. */
  const PosZero: Float64 := 0x0000_0000_0000_0000      // 0.0
  const F116: Float64 := 0x405D_0000_0000_0000         // 116.0
  const FMinus31: Float64 := 0xC03F_0000_0000_0000     // -31.0
  const F1847: Float64 := 0x409C_DC00_0000_0000        // 1847.0

  /** A `UUID`, represented by the text of its `uuidString`. */
  datatype Uuid = Uuid(uuidString: string)

  /** SwiftUI's `TabViewCustomization`, an opaque platform payload. */
  datatype TabCustomization = TabCustomization(payload: Bytes)

  /** `TabViewCustomization()`. */
  const DefaultTabCustomization: TabCustomization := TabCustomization([])

  /** `MCMapBluemapIntegration`: network-service settings the format stores
      but does not interpret. */
  datatype BluemapIntegration = BluemapIntegration(payload: Bytes)

  /** `MCMapBluemapIntegration(baseURL: "")`. */
  const DefaultBluemap: BluemapIntegration := BluemapIntegration([])
}
