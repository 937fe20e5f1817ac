/** Vocabulary shared by every component: optional values, fallible results and the
    machine widths the Rust code computes in. */
module Base {

  datatype Option<+T> = None | Some(value: T)

  datatype Result<+T, +E> = Ok(value: T) | Err(error: E)

  type u32 = x: int | 0 <= x < 0x1_0000_0000

  type usize = x: int | 0 <= x < 0x1_0000_0000_0000_0000

  type byte = x: int | 0 <= x < 256

  type Bytes = seq<byte>

  const U32_RANGE: nat := 0x1_0000_0000
  const USIZE_MAX: nat := 0xFFFF_FFFF_FFFF_FFFF
  const USIZE_RANGE: nat := 0x1_0000_0000_0000_0000
  /** The longest byte string a Rust allocation can hold. */
  const ISIZE_MAX: nat := 0x7FFF_FFFF_FFFF_FFFF

  /** `x as u32`, and `u32` arithmetic in a release build: the low 32 bits are kept. */
  function AsU32(x: nat): u32 {
    x % U32_RANGE
  }

  /** `later.saturating_duration_since(earlier)`. */
  function Since(later: nat, earlier: nat): nat {
    if later >= earlier then later - earlier else 0
  }

  function Min(a: nat, b: nat): nat {
    if a <= b then a else b
  }

  function Max(a: nat, b: nat): nat {
    if a >= b then a else b
  }

  /** A history without its last event. */
  function Front<T>(s: seq<T>): seq<T>
    requires s != []
  {
    s[..|s| - 1]
  }

  function Last<T>(s: seq<T>): T
    requires s != []
  {
    s[|s| - 1]
  }
}
