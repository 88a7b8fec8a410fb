/**
 The 4-bit register index (src/cpu/register.rs). It names one of the
 sixteen general registers V0..VF and never holds a register's value.
 */
module Registers {
  import opened Base

  /** Number of general registers. */
  const Count: int := 16

  type Register = x: int | 0 <= x < 16

  /** `Register::new`: accepts exactly the values below 16. */
  function New(x: Byte): (r: Result<Register>)
    ensures r.Ok? <==> x < Count
    ensures r.Ok? ==> Get(r.value) == x
    ensures r.Err? ==> r.fault == RegisterOutOfRange
  {
    if x < Count then Ok(x) else Err(RegisterOutOfRange)
  }

  /** `Register::get`: the index as a byte. */
  function Get(reg: Register): Byte {
    reg
  }

  /** `Register::idx`: the same number, always a valid index into V0..VF. */
  function Idx(reg: Register): (r: nat)
    ensures r == Get(reg)
    ensures r < Count
  {
    reg
  }
}
