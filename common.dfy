/** Small definitions shared by every model in this project. */
module Common {
  datatype Option<T> = None | Some(value: T)

  /** A value, or the positive errno the driver returns negated. */
  datatype Result<T> = Ok(value: T) | Err(code: int)

  /** Linux errno values, returned negated by the driver. */
  const EINVAL: int := 22
  const ENOSYS: int := 38

  /** Size in bytes of one VRAM block / page. */
  const PAGE_SIZE: nat := 4096

  const TWO_32: nat := 0x1_0000_0000
  const TWO_64: nat := 0x1_0000_0000_0000_0000

  type u8 = x: int | 0 <= x < 256
  type u32 = x: int | 0 <= x < 0x1_0000_0000

  function Min(a: int, b: int): int { if a <= b then a else b }
  function Max(a: int, b: int): int { if a >= b then a else b }

  /** The value the sysfs setters store: `v` pulled into `[lo, hi]`. */
  function Clamp(v: int, lo: int, hi: int): (r: int)
    requires lo <= hi
    ensures lo <= r <= hi
    ensures lo <= v <= hi ==> r == v
    ensures v < lo ==> r == lo
    ensures v > hi ==> r == hi
  {
    if v < lo then lo else if v > hi then hi else v
  }
}
