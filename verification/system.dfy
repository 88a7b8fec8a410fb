/**
 The CHIP-8 machine (src/system.rs): its state, construction from a ROM,
 the fetch/decode/execute step, one 60 Hz timer tick, and the keypad and
 sound accessors. Every Rust panic on the way is an `Err` carrying its
 `Fault`. The random byte that `Rand` uses is a parameter of the step.
 */
module Machine {
  import opened Base
  import opened Addresses
  import opened Registers
  import opened Memories
  import opened Instructions
  import opened Input
  import opened Output

  /** Where the built-in font is loaded. */
  const FontBase: Address := 0x050

  /** Where the ROM is loaded, and the initial program counter. */
  const ProgramStart: Address := 0x200

  /** The flag register VF. */
  const VF: Register := 0xF

  /** The sixteen 5-byte glyphs 0..F of the built-in font. */
  const Font: seq<Byte> := [
    0xF0, 0x90, 0x90, 0x90, 0xF0, // 0
    0x20, 0x60, 0x20, 0x20, 0x70, // 1
    0xF0, 0x10, 0xF0, 0x80, 0xF0, // 2
    0xF0, 0x10, 0xF0, 0x10, 0xF0, // 3
    0x90, 0x90, 0xF0, 0x10, 0x10, // 4
    0xF0, 0x80, 0xF0, 0x10, 0xF0, // 5
    0xF0, 0x80, 0xF0, 0x90, 0xF0, // 6
    0xF0, 0x10, 0x20, 0x40, 0x40, // 7
    0xF0, 0x90, 0xF0, 0x90, 0xF0, // 8
    0xF0, 0x90, 0xF0, 0x10, 0xF0, // 9
    0xF0, 0x90, 0xF0, 0x90, 0x90, // A
    0xE0, 0x90, 0xE0, 0x90, 0xE0, // B
    0xF0, 0x80, 0x80, 0x80, 0xF0, // C
    0xE0, 0x90, 0x90, 0x90, 0xE0, // D
    0xF0, 0x80, 0xF0, 0x80, 0xF0, // E
    0xF0, 0x80, 0xF0, 0x80, 0x80  // F
  ]

  /** The sixteen 8-bit registers V0..VF. */
  type RegisterFile = v: seq<Byte> | |v| == 16 witness seq(16, _ => 0)

  /**
   `System` without its two floating-point time accumulators: display,
   keypad, memory, call stack, program counter, index register, the
   registers, and the delay and sound timers.
   */
  datatype System = System(
    display: Screen,
    keypad: Keypad,
    memory: Memory,
    stack: seq<Address>,
    pc: Address,
    i: Address,
    v: RegisterFile,
    delayTimer: Byte,
    soundTimer: Byte)

  /** The value of register `r`. */
  function V(s: System, r: Register): Byte {
    s.v[Idx(r)]
  }

  /** `s` with register `r` set to `value`. */
  function SetV(s: System, r: Register, value: Byte): (t: System)
    ensures V(t, r) == value
    ensures forall q: Register :: q != r ==> V(t, q) == V(s, q)
    ensures t.(v := s.v) == s
  {
    s.(v := s.v[Idx(r) := value])
  }

  /** A register file with every register zero. */
  function ZeroRegisters(): RegisterFile {
    seq(16, _ => 0)
  }

  /**
   `System::new`: the font at 0x050, the ROM at 0x200, `pc` = 0x200 and
   everything else zero, empty or released. Loading fails for an empty ROM
   and for one that does not fit below 4096.
   */
  function New(rom: seq<Byte>): (r: Result<System>)
    ensures r.Ok? <==> 0 < |rom| <= Size - ProgramStart
    ensures r.Ok? ==> forall k :: 0 <= k < |Font| ==> Read8(r.value.memory, FontBase + k) == Font[k]
    ensures r.Ok? ==> forall k :: 0 <= k < |rom| ==> Read8(r.value.memory, ProgramStart + k) == rom[k]
    ensures r.Ok? ==> forall a: Address ::
      (a < FontBase || FontBase + |Font| <= a < ProgramStart || ProgramStart + |rom| <= a) ==> Read8(r.value.memory, a) == 0
    ensures r.Ok? ==> r.value.pc == ProgramStart && r.value.i == 0 && r.value.stack == []
    ensures r.Ok? ==> forall q: Register :: V(r.value, q) == 0
    ensures r.Ok? ==> r.value.delayTimer == 0 && r.value.soundTimer == 0
    ensures r.Ok? ==> IsBlank(r.value.display) && NonePressed(r.value.keypad)
  {
    // The font load and both address conversions cannot fail.
    var ram := Memories.New();
    var withFont := Memories.Write(ram, Addresses.FromWord(0x050).value, Font).value;
    var withRom :- Memories.Write(withFont, Addresses.FromWord(0x200).value, rom);
    Ok(System(NewScreen(), NewKeypad(), withRom, [], 0x200, 0, ZeroRegisters(), 0, 0))
  }

  /** `u8::overflowing_add`: the wrapped sum and whether it wrapped. */
  function OverflowingAdd(a: Byte, b: Byte): (r: (Byte, bool))
    ensures r.0 + (if r.1 then 0x100 else 0) == a + b
  {
    ((a + b) % 0x100, a + b >= 0x100)
  }

  /** `u8::overflowing_sub`: the wrapped difference and whether it borrowed. */
  function OverflowingSub(a: Byte, b: Byte): (r: (Byte, bool))
    ensures r.0 - (if r.1 then 0x100 else 0) == a - b
  {
    ((a - b) % 0x100, a < b)
  }

  /** 1 for true, 0 for false: `flag as u8`. */
  function FlagByte(flag: bool): Byte {
    if flag then 1 else 0
  }

  /**
   How an arm of `execute` ends: `Continue` falls through to the trailing
   `pc += 2`; `Done` is an arm that returns early (Jump, Call, JumpV0).
   */
  datatype Flow = Continue(state: System) | Done(state: System)

  /** A conditional skip: `pc += 2` when `condition` holds. */
  function SkipIf(s: System, condition: bool): Result<Flow> {
    if condition then
      var pc :- Addresses.Add(s.pc, 2);
      Ok(Continue(s.(pc := pc)))
    else Ok(Continue(s))
  }

  /** The `match` of `System::execute`, one arm per instruction. */
  function Arm(s: System, ins: Instruction, rand: Byte): Result<Flow> {
    match ins
    case Clear => Ok(Continue(s.(display := Output.Clear(s.display))))
    case Return =>
      if |s.stack| == 0 then Err(StackUnderflow)
      else Ok(Continue(s.(pc := s.stack[|s.stack| - 1], stack := s.stack[..|s.stack| - 1])))
    case Jump(a) => Ok(Done(s.(pc := a)))
    case Call(a) => Ok(Done(s.(stack := s.stack + [s.pc], pc := a)))
    case EqNum(x, n) => SkipIf(s, V(s, x) == n)
    case NeqNum(x, n) => SkipIf(s, V(s, x) != n)
    case Eq(x, y) => SkipIf(s, V(s, x) == V(s, y))
    case Neq(x, y) => SkipIf(s, V(s, x) != V(s, y))
    case SetNum(x, n) => Ok(Continue(SetV(s, x, n)))
    case AddNum(x, n) => Ok(Continue(SetV(s, x, OverflowingAdd(V(s, x), n).0)))
    case Move(x, y) => Ok(Continue(SetV(s, x, V(s, y))))
    case Or(x, y) => Ok(Continue(SetV(s, x, BitOr(V(s, x), V(s, y)))))
    case And(x, y) => Ok(Continue(SetV(s, x, BitAnd(V(s, x), V(s, y)))))
    case Xor(x, y) => Ok(Continue(SetV(s, x, BitXor(V(s, x), V(s, y)))))
    case Add(x, y) =>
      var (result, overflow) := OverflowingAdd(V(s, x), V(s, y));
      Ok(Continue(SetV(SetV(s, VF, FlagByte(overflow)), x, result)))
    case Sub(x, y) =>
      var (result, overflow) := OverflowingSub(V(s, x), V(s, y));
      Ok(Continue(SetV(SetV(s, VF, FlagByte(!overflow)), x, result)))
    case Shr(x, y) =>
      // VF is written first and V[y] is read again afterwards.
      var flagged := SetV(s, VF, V(s, y) % 2);
      Ok(Continue(SetV(flagged, x, V(flagged, y) / 2)))
    case Subb(x, y) =>
      var (result, overflow) := OverflowingSub(V(s, y), V(s, x));
      Ok(Continue(SetV(SetV(s, VF, FlagByte(!overflow)), x, result)))
    case Shl(x, y) =>
      var flagged := SetV(s, VF, V(s, y) / 0x80);
      Ok(Continue(SetV(flagged, x, (V(flagged, y) * 2) % 0x100)))
    case SetIdx(a) => Ok(Continue(s.(i := a)))
    case JumpV0(a) =>
      var target :- Addresses.Add(a, V(s, 0));
      Ok(Done(s.(pc := target)))
    case Rand(x, n) => Ok(Continue(SetV(s, x, BitAnd(rand, n))))
    case Draw(x, y, height) =>
      var sprite :- Memories.Read(s.memory, s.i, height);
      var (screen, collision) := Output.Draw(s.display, V(s, x), V(s, y), sprite);
      Ok(Continue(SetV(s.(display := screen), VF, FlagByte(collision))))
    case KeyEq(x) =>
      var key :- NewKey(V(s, x));
      SkipIf(s, IsPressed(s.keypad, key))
    case KeyNeq(x) =>
      var key :- NewKey(V(s, x));
      SkipIf(s, !IsPressed(s.keypad, key))
    case GetDelay(x) => Ok(Continue(SetV(s, x, s.delayTimer)))
    case WaitKey(x) =>
      (match GetKey(s.keypad)
       case Some(key) => Ok(Continue(SetV(s, x, KeyGet(key))))
       case None =>
         var pc :- Addresses.Sub(s.pc, 2);
         Ok(Continue(s.(pc := pc))))
    case SetDelay(x) => Ok(Continue(s.(delayTimer := V(s, x))))
    case SetSound(x) => Ok(Continue(s.(soundTimer := V(s, x))))
    case AddIdx(x) =>
      var a :- Addresses.Add(s.i, V(s, x));
      Ok(Continue(s.(i := a)))
    case SetSprite(x) =>
      // At most 0x050 + 5 * 0xFF = 0x54B, so the conversion cannot fail.
      Ok(Continue(s.(i := Addresses.FromWord(0x050 + V(s, x) * 5).value)))
    case StoreBcd(x) =>
      var value := V(s, x);
      var m :- Memories.Write(s.memory, s.i, [value / 100, (value / 10) % 10, value % 10]);
      Ok(Continue(s.(memory := m)))
    case Store(x) =>
      var m :- Memories.Write(s.memory, s.i, s.v[..Idx(x) + 1]);
      var a :- Addresses.Add(s.i, 1 + Registers.Get(x));
      Ok(Continue(s.(memory := m, i := a)))
    case Load(x) =>
      var data :- Memories.Read(s.memory, s.i, 1 + Registers.Get(x));
      var loaded := data + s.v[Idx(x) + 1..];
      var a :- Addresses.Add(s.i, 1 + Registers.Get(x));
      Ok(Continue(s.(v := loaded, i := a)))
  }

  /** `System::execute`: the arm, then `pc += 2` unless the arm returned early. */
  function Execute(s: System, ins: Instruction, rand: Byte): Result<System> {
    var flow :- Arm(s, ins, rand);
    match flow
    case Done(t) => Ok(t)
    case Continue(t) =>
      var pc :- Addresses.Add(t.pc, 2);
      Ok(t.(pc := pc))
  }

  /** The opcode word at `pc`, when `pc` is not the last address. */
  function Fetch(s: System): Result<Word> {
    Memories.Read16(s.memory, s.pc)
  }

  /** `Instruction::new(opcode).unwrap()`. */
  function DecodeOrFault(w: Word): (r: Result<Instruction>)
    ensures r.Ok? <==> Decodable(w)
    ensures r.Ok? ==> Encode(r.value) == w
    ensures r.Err? ==> r.fault == IllegalInstruction(w)
  {
    DecodeDomain(w);
    match Decode(w)
    case Some(ins) => EncodeDecode(w); Ok(ins)
    case None => Err(IllegalInstruction(w))
  }

  /** The instruction at `pc`: `read16` and then `Instruction::new(..).unwrap()`. */
  function FetchInstruction(s: System): Result<Instruction> {
    var opcode :- Fetch(s);
    DecodeOrFault(opcode)
  }

  /** One instruction cycle of `System::update`: fetch, decode, execute. */
  function Step(s: System, rand: Byte): Result<System> {
    var ins :- FetchInstruction(s);
    Execute(s, ins, rand)
  }

  /**
   The instruction loop of `System::update` for as many cycles as `rands`
   has entries, the k-th cycle drawing `rands[k]` as its random byte; the
   first fault ends the run.
   */
  function Run(s: System, rands: seq<Byte>): Result<System>
    decreases |rands|
  {
    if |rands| == 0 then Ok(s)
    else
      var t :- Step(s, rands[0]);
      Run(t, rands[1..])
  }

  /** One 60 Hz tick of `System::update`: each nonzero timer counts down by one. */
  function TimerTick(s: System): (t: System)
    ensures t.delayTimer == if s.delayTimer == 0 then 0 else s.delayTimer - 1
    ensures t.soundTimer == if s.soundTimer == 0 then 0 else s.soundTimer - 1
    ensures t.(delayTimer := s.delayTimer, soundTimer := s.soundTimer) == s
  {
    var delay := if s.delayTimer > 0 then s.delayTimer - 1 else s.delayTimer;
    var sound := if s.soundTimer > 0 then s.soundTimer - 1 else s.soundTimer;
    s.(delayTimer := delay, soundTimer := sound)
  }

  /** The timer loop of `System::update` for `n` ticks. */
  function Ticks(s: System, n: nat): System
    decreases n
  {
    if n == 0 then s else Ticks(TimerTick(s), n - 1)
  }

  /** `System::get_sound`: the tone sounds while the sound timer is nonzero. */
  function GetSound(s: System): bool {
    s.soundTimer > 0
  }

  /** `System::get_pixels`. */
  function Pixels(s: System): Screen {
    Output.GetPixels(s.display)
  }

  /** `System::update_keypad`: records one key and changes nothing else. */
  function UpdateKeypad(s: System, key: Key, pressed: bool): (t: System)
    ensures IsPressed(t.keypad, key) == pressed
    ensures forall other: Key :: other != key ==> IsPressed(t.keypad, other) == IsPressed(s.keypad, other)
    ensures t.(keypad := s.keypad) == s
  {
    s.(keypad := SetPressed(s.keypad, key, pressed))
  }
}
