/** Types shared by the whole model: optional values, results, machine integers
    and the two power sources. */
module Common {

  datatype Option<+T> = None | Some(value: T) {
    function GetOr(default: T): T {
      if Some? then value else default
    }
  }

  datatype Result<+T, +E> = Ok(value: T) | Err(error: E)

  const U32_MAX: nat := 0xFFFF_FFFF
  const U64_MAX: nat := 0xFFFF_FFFF_FFFF_FFFF

  type u8 = x: int | 0 <= x < 0x100
  type u32 = x: int | 0 <= x <= U32_MAX
  type u64 = x: int | 0 <= x <= U64_MAX

  /** `u64::saturating_add`. */
  function SatAdd(a: u64, b: u64): (r: u64)
    ensures r == a + b || (r == 0xFFFF_FFFF_FFFF_FFFF && r < a + b)
  {
    if a + b <= U64_MAX then a + b else U64_MAX
  }

  /** `u64::saturating_sub`. */
  function SatSub(a: u64, b: u64): (r: u64)
    ensures r + b == a || (r == 0 && a < b)
  {
    if a >= b then a - b else 0
  }

  function Max(a: int, b: int): (r: int)
    ensures a <= r && b <= r && r in {a, b}
  {
    if a >= b then a else b
  }

  function Min(a: int, b: int): (r: int)
    ensures r <= a && r <= b && r in {a, b}
  {
    if a <= b then a else b
  }

  datatype PowerSource = OnAc | OnBattery

  function OtherSource(s: PowerSource): (other: PowerSource)
    ensures other != s
  {
    if s.OnAc? then OnBattery else OnAc
  }
}
