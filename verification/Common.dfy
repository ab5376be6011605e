/** Types that several components share. */
module Common {
  type Byte = bv8
  type Bytes = seq<Byte>

  /** A value that may be missing: a null pointer or a failed look-up. */
  datatype Option<+T> = None | Some(value: T)

  const MEBIBYTE: nat := 1024 * 1024
  const SIZE_MAX: nat := 0xFFFF_FFFF_FFFF_FFFF

  function Min(a: nat, b: nat): nat { if a < b then a else b }
}
