/** Fixed-width arithmetic: the checked operations of a host whose largest value is `max`. */
module Machine {
  import opened Wrappers

  const U32_MAX: nat := 0xFFFF_FFFF
  const U64_MAX: nat := 0xFFFF_FFFF_FFFF_FFFF

  function CheckedAdd(max: nat, a: nat, b: nat): Option<nat>
  {
    if a + b <= max then Some(a + b) else None
  }

  function CheckedMul(max: nat, a: nat, b: nat): Option<nat>
  {
    if a * b <= max then Some(a * b) else None
  }

  function SaturatingSub(a: nat, b: nat): nat
  {
    if a >= b then a - b else 0
  }

  function Min(a: nat, b: nat): nat
  {
    if a <= b then a else b
  }
}
