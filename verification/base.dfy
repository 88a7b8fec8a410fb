/**
 Shared vocabulary of the CHIP-8 core: the machine integer widths it works
 in, the failure datatypes that stand for the emulator's panics, and the
 three bitwise byte operations the executor needs.
 */
module Base {

  /** An unsigned 8-bit value (Rust `u8`). */
  type Byte = x: int | 0 <= x < 0x100

  /** An unsigned 16-bit value (Rust `u16`). */
  type Word = x: int | 0 <= x < 0x1_0000

  /** A 4-bit value, such as one nibble of an opcode. */
  type Nibble = x: int | 0 <= x < 0x10

  /** Why the emulator stopped. Every variant stands for a Rust panic. */
  datatype Fault =
    | AddressOutOfRange          // assert!(x < 4096) in Address::new
    | RegisterOutOfRange         // assert!(x < 16) in Register::new
    | KeyOutOfRange              // assert!(x < 16) in Key::new
    | ArithmeticOverflow         // u16 addition or subtraction left its range
    | LengthMismatch             // copy_from_slice between slices of different lengths
    | StackUnderflow             // stack.pop().unwrap() on an empty stack
    | IllegalInstruction(word: Word)  // Instruction::new(word).unwrap() on None

  /** The conventional optional value, failure-compatible for `:-`. */
  datatype Option<+T> = None | Some(value: T) {
    predicate IsFailure() {
      None?
    }

    function PropagateFailure<U>(): Option<U>
      requires None?
    {
      None
    }

    function Extract(): T
      requires Some?
    {
      value
    }
  }

  /** Either a value or the fault that aborted the computation. */
  datatype Result<+T> = Ok(value: T) | Err(fault: Fault) {
    predicate IsFailure() {
      Err?
    }

    function PropagateFailure<U>(): Result<U>
      requires Err?
    {
      Err(fault)
    }

    function Extract(): T
      requires Ok?
    {
      value
    }
  }

  function BitOr(a: Byte, b: Byte): Byte {
    ((a as bv8) | (b as bv8)) as int
  }

  function BitAnd(a: Byte, b: Byte): Byte {
    ((a as bv8) & (b as bv8)) as int
  }

  function BitXor(a: Byte, b: Byte): Byte {
    ((a as bv8) ^ (b as bv8)) as int
  }

  /** Masking with 0x00 clears a byte. */
  lemma BitAndZero(a: Byte)
    ensures BitAnd(a, 0) == 0
  {
  }

  /** A byte XORed with itself is zero. */
  lemma BitXorSelf(a: Byte)
    ensures BitXor(a, a) == 0
  {
  }

  /** 2 to the power k. */
  function Pow2(k: nat): (r: nat)
    ensures r > 0
  {
    if k == 0 then 1 else 2 * Pow2(k - 1)
  }
}
