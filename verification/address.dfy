/**
 The 12-bit address type (src/cpu/address.rs). An address is validated on
 construction, and `add`/`sub` build a new address from the u16 result, so
 leaving 0..4095 is a fault rather than a wrap-around.
 */
module Addresses {
  import opened Base

  /** Number of addressable bytes. */
  const Size: int := 0x1000

  type Address = x: int | 0 <= x < 0x1000

  /** `Address::new`: accepts exactly the values below 4096. */
  function New(x: Word): (r: Result<Address>)
    ensures r.Ok? <==> x < Size
    ensures r.Ok? ==> Get(r.value) == x
    ensures r.Err? ==> r.fault == AddressOutOfRange
  {
    if x < Size then Ok(x) else Err(AddressOutOfRange)
  }

  /** `Address::get`: the address as an index. */
  function Get(a: Address): nat {
    a
  }

  /** `From<u16> for Address`: the same check as `New`. */
  function FromWord(x: Word): (r: Result<Address>)
    ensures r == New(x)
    ensures r.Ok? <==> x < Size
  {
    New(x)
  }

  /**
   `Address::add`. The u16 sum `self.x + y` panics on overflow (checked
   arithmetic) before `New` rejects a sum of 4096 or more.
   */
  function Add(a: Address, y: Word): (r: Result<Address>)
    ensures r.Ok? <==> Get(a) + y < Size
    ensures r.Ok? ==> Get(r.value) == Get(a) + y
    ensures r.Err? ==> r.fault == (if Get(a) + y < 0x1_0000 then AddressOutOfRange else ArithmeticOverflow)
  {
    if a + y >= 0x1_0000 then Err(ArithmeticOverflow) else New(a + y)
  }

  /** `Address::sub`. The u16 difference panics when `y` exceeds the address. */
  function Sub(a: Address, y: Word): (r: Result<Address>)
    ensures r.Ok? <==> y <= Get(a)
    ensures r.Ok? ==> Get(r.value) == Get(a) - y
    ensures r.Err? ==> r.fault == ArithmeticOverflow
  {
    if y > a then Err(ArithmeticOverflow) else New(a - y)
  }

  /** Subtracting what was just added gives back the original address. */
  lemma AddThenSub(a: Address, y: Word)
    requires Add(a, y).Ok?
    ensures Sub(Add(a, y).value, y) == Ok(a)
  {
  }

  /** Adding what was just subtracted gives back the original address. */
  lemma SubThenAdd(a: Address, y: Word)
    requires Sub(a, y).Ok?
    ensures Add(Sub(a, y).value, y) == Ok(a)
  {
  }
}
