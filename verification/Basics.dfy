/** Optional values, as std::optional and nullable pointers in the agent. */
module Wrappers {
  datatype Option<+T> = None | Some(value: T) {
    function GetOr(default: T): T {
      match this
      case Some(v) => v
      case None => default
    }
  }
}

/** The integer widths the agent declares. Arithmetic is on unbounded integers;
    every wrap, cast or saturation of the C++ code is written out where it happens. */
module FixedWidth {
  const TWO_32: int := 0x1_0000_0000
  const TWO_63: int := 0x8000_0000_0000_0000
  const TWO_64: int := 0x1_0000_0000_0000_0000

  type uint8 = n: int | 0 <= n < 256
  type uint16 = n: int | 0 <= n < 0x1_0000
  type uint32 = n: int | 0 <= n < TWO_32
  type uint64 = n: int | 0 <= n < TWO_64
  type int32 = n: int | -0x8000_0000 <= n < 0x8000_0000
  type int64 = n: int | -TWO_63 <= n < TWO_63

  // static_cast to an unsigned or signed type of the stated width
  function CastU32(n: int): uint32 { n % TWO_32 }

  function CastI32(n: int): int32 {
    var low := n % TWO_32;
    if low < 0x8000_0000 then low else low - TWO_32
  }

  function WrapI64(n: int): int64 {
    var low := n % TWO_64;
    if low < TWO_63 then low else low - TWO_64
  }

  function WrapU64(n: int): uint64 { n % TWO_64 }

  // std::min, on sizes
  function Min(a: nat, b: nat): nat { if a <= b then a else b }
}
