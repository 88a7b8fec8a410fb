/**
 Properties of one instruction cycle of the machine (src/system.rs): where
 the program counter goes, exactly when an instruction faults, how the
 arithmetic instructions set the flag register VF, what each instruction
 leaves alone, and how the timers and the wait-for-key instruction behave
 over many cycles.
 */
module MachineProperties {
  import opened Base
  import Addresses
  import opened Registers
  import Memories
  import opened Instructions
  import Input
  import Output
  import opened Machine

  // ----- Independent descriptions of the program counter and of faults -----

  /** The conditional skips 3XNN, 4XNN, 5XY0, 9XY0, EX9E and EXA1. */
  predicate IsSkip(ins: Instruction) {
    ins.EqNum? || ins.NeqNum? || ins.Eq? || ins.Neq? || ins.KeyEq? || ins.KeyNeq?
  }

  /** Whether the skip `ins` skips in state `s`; a key skip on a register above 0xF never does. */
  predicate SkipTaken(s: System, ins: Instruction)
    requires IsSkip(ins)
  {
    match ins
    case EqNum(x, n) => V(s, x) == n
    case NeqNum(x, n) => V(s, x) != n
    case Eq(x, y) => V(s, x) == V(s, y)
    case Neq(x, y) => V(s, x) != V(s, y)
    case KeyEq(x) => V(s, x) < 16 && Input.IsPressed(s.keypad, V(s, x))
    case KeyNeq(x) => V(s, x) < 16 && !Input.IsPressed(s.keypad, V(s, x))
  }

  /** Instructions that set the program counter other than by stepping over themselves. */
  predicate MovesPc(ins: Instruction) {
    ins.Return? || ins.Jump? || ins.Call? || ins.JumpV0? || ins.WaitKey? || IsSkip(ins)
  }

  /** Instructions that may write a register. */
  predicate WritesRegisters(ins: Instruction) {
    ins.SetNum? || ins.AddNum? || ins.Move? || ins.Or? || ins.And? || ins.Xor? || ins.Add? ||
    ins.Sub? || ins.Shr? || ins.Subb? || ins.Shl? || ins.Rand? || ins.Draw? || ins.GetDelay? ||
    ins.WaitKey? || ins.Load?
  }

  /** Whether `pc + 2` leaves memory, as the trailing `pc += 2` of `execute` checks. */
  predicate StepLeaves(s: System) {
    s.pc + 2 >= Addresses.Size
  }

  /**
   The circumstances in which executing `ins` in `s` faults, instruction by
   instruction: each range an access or jump reaches, stated without
   reference to how `Execute` is computed.
   */
  predicate Faults(s: System, ins: Instruction) {
    match ins
    case Jump(_) => false
    case Call(_) => false
    case Return => |s.stack| == 0 || s.stack[|s.stack| - 1] + 2 >= Addresses.Size
    case JumpV0(a) => a + V(s, 0) >= Addresses.Size
    case EqNum(_, _) => s.pc + (if SkipTaken(s, ins) then 4 else 2) >= Addresses.Size
    case NeqNum(_, _) => s.pc + (if SkipTaken(s, ins) then 4 else 2) >= Addresses.Size
    case Eq(_, _) => s.pc + (if SkipTaken(s, ins) then 4 else 2) >= Addresses.Size
    case Neq(_, _) => s.pc + (if SkipTaken(s, ins) then 4 else 2) >= Addresses.Size
    case KeyEq(x) => V(s, x) >= 16 || s.pc + (if SkipTaken(s, ins) then 4 else 2) >= Addresses.Size
    case KeyNeq(x) => V(s, x) >= 16 || s.pc + (if SkipTaken(s, ins) then 4 else 2) >= Addresses.Size
    case WaitKey(_) => if Input.NonePressed(s.keypad) then s.pc < 2 else StepLeaves(s)
    case Draw(_, _, n) => n == 0 || s.i + n > Addresses.Size || StepLeaves(s)
    case AddIdx(x) => s.i + V(s, x) >= Addresses.Size || StepLeaves(s)
    case StoreBcd(_) => s.i + 3 > Addresses.Size || StepLeaves(s)
    case Store(x) => s.i + x + 1 >= Addresses.Size || StepLeaves(s)
    case Load(x) => s.i + x + 1 >= Addresses.Size || StepLeaves(s)
    case _ => StepLeaves(s)
  }

  /**
   Where a successful instruction `ins` run in `s` leaves the program
   counter of the result `t`.
   */
  predicate PcRule(s: System, ins: Instruction, t: System) {
    && ((ins.Jump? || ins.Call?) ==> t.pc == ins.target)
    && (ins.JumpV0? ==> t.pc == ins.target + V(s, 0))
    && (ins.Return? ==> |s.stack| > 0 && t.pc == s.stack[|s.stack| - 1] as int + 2)
    && (IsSkip(ins) ==> t.pc == s.pc as int + if SkipTaken(s, ins) then 4 else 2)
    && (ins.WaitKey? ==> t.pc == if Input.NonePressed(s.keypad) then s.pc else s.pc as int + 2)
    && (!MovesPc(ins) ==> t.pc == s.pc as int + 2)
  }

  /** Which parts of the state a successful instruction `ins` may change. */
  predicate FrameRule(s: System, ins: Instruction, t: System) {
    && t.keypad == s.keypad
    && (t.display != s.display ==> ins.Clear? || ins.Draw?)
    && (t.memory != s.memory ==> ins.StoreBcd? || ins.Store?)
    && (t.stack != s.stack ==> ins.Call? || ins.Return?)
    && (t.i != s.i ==> ins.SetIdx? || ins.AddIdx? || ins.SetSprite? || ins.Store? || ins.Load?)
    && (t.v != s.v ==> WritesRegisters(ins))
    && (t.delayTimer != s.delayTimer ==> ins.SetDelay?)
    && (t.soundTimer != s.soundTimer ==> ins.SetSound?)
  }

  /** `ins` faults exactly as `Faults` says, and otherwise keeps the pc and frame rules. */
  predicate Conforms(s: System, ins: Instruction, rand: Byte) {
    var r := Execute(s, ins, rand);
    && (r.Err? <==> Faults(s, ins))
    && (r.Ok? ==> PcRule(s, ins, r.value) && FrameRule(s, ins, r.value))
  }

  /** `Conforms` for the instructions that move pc other than by 2. */
  lemma ControlConforms(s: System, ins: Instruction, rand: Byte)
    requires ins.Return? || ins.Jump? || ins.Call? || ins.JumpV0? || ins.WaitKey?
    ensures Conforms(s, ins, rand)
  {
  }

  /** `Conforms` for the skips that compare registers and immediates. */
  lemma SkipConforms(s: System, ins: Instruction, rand: Byte)
    requires ins.EqNum? || ins.NeqNum? || ins.Eq? || ins.Neq?
    ensures Conforms(s, ins, rand)
  {
  }

  /** `Conforms` for the skips on a key. */
  lemma KeySkipConforms(s: System, ins: Instruction, rand: Byte)
    requires ins.KeyEq? || ins.KeyNeq?
    ensures Conforms(s, ins, rand)
  {
  }

  /** `Conforms` for the instructions that write one register from registers or an immediate. */
  lemma RegisterConforms(s: System, ins: Instruction, rand: Byte)
    requires ins.SetNum? || ins.AddNum? || ins.Move? || ins.Or? || ins.And? || ins.Xor? || ins.Rand?
    ensures Conforms(s, ins, rand)
  {
  }

  /** `Conforms` for the arithmetic instructions that also write VF. */
  lemma FlagConforms(s: System, ins: Instruction, rand: Byte)
    requires ins.Add? || ins.Sub? || ins.Shr? || ins.Subb? || ins.Shl?
    ensures Conforms(s, ins, rand)
  {
  }

  /** `Conforms` for drawing a sprite. */
  lemma DrawConforms(s: System, ins: Instruction, rand: Byte)
    requires ins.Draw?
    ensures Conforms(s, ins, rand)
  {
  }

  /** `Conforms` for the clear, timer and index-register instructions. */
  lemma DeviceConforms(s: System, ins: Instruction, rand: Byte)
    requires ins.Clear? || ins.GetDelay? || ins.SetDelay? || ins.SetSound? || ins.SetIdx? || ins.AddIdx? || ins.SetSprite?
    ensures Conforms(s, ins, rand)
  {
  }

  /** `Conforms` for the instructions that copy between registers and memory. */
  lemma MemoryConforms(s: System, ins: Instruction, rand: Byte)
    requires ins.StoreBcd? || ins.Store? || ins.Load?
    ensures Conforms(s, ins, rand)
  {
  }

  /** Every instruction conforms. */
  lemma AllConform(s: System, ins: Instruction, rand: Byte)
    ensures Conforms(s, ins, rand)
  {
    if ins.Return? || ins.Jump? || ins.Call? || ins.JumpV0? || ins.WaitKey? {
      ControlConforms(s, ins, rand);
    } else if ins.KeyEq? || ins.KeyNeq? {
      KeySkipConforms(s, ins, rand);
    } else if IsSkip(ins) {
      SkipConforms(s, ins, rand);
    } else if ins.Draw? {
      DrawConforms(s, ins, rand);
    } else if ins.SetNum? || ins.AddNum? || ins.Move? || ins.Or? || ins.And? || ins.Xor? || ins.Rand? {
      RegisterConforms(s, ins, rand);
    } else if ins.Add? || ins.Sub? || ins.Shr? || ins.Subb? || ins.Shl? {
      FlagConforms(s, ins, rand);
    } else if ins.StoreBcd? || ins.Store? || ins.Load? {
      MemoryConforms(s, ins, rand);
    } else {
      DeviceConforms(s, ins, rand);
    }
  }

  // ----- Program counter, faults and frame -----

  /**
   Where a successful instruction leaves the program counter: jumps and
   calls at their target, JumpV0 at target + V0, Return two past the popped
   address, a skip four or two further on, WaitKey in place while no key is
   down, and everything else at the next instruction.
   */
  lemma PcPolicy(s: System, ins: Instruction, rand: Byte)
    requires Execute(s, ins, rand).Ok?
    ensures PcRule(s, ins, Execute(s, ins, rand).value)
  {
    AllConform(s, ins, rand);
  }

  /** An instruction faults exactly in the circumstances `Faults` lists. */
  lemma FaultsExactly(s: System, ins: Instruction, rand: Byte)
    ensures Execute(s, ins, rand).Err? <==> Faults(s, ins)
  {
    AllConform(s, ins, rand);
  }

  /**
   What each instruction leaves alone: the keypad always; the screen unless
   it clears or draws; memory unless it stores; the stack unless it calls
   or returns; I, the registers and the timers unless it writes them.
   */
  lemma ExecuteFrame(s: System, ins: Instruction, rand: Byte)
    requires Execute(s, ins, rand).Ok?
    ensures FrameRule(s, ins, Execute(s, ins, rand).value)
  {
    AllConform(s, ins, rand);
  }

  // ----- Subroutines -----

  /** Call pushes the address of the calling instruction and jumps; it never faults. */
  lemma CallPushes(s: System, a: Addresses.Address, rand: Byte)
    ensures Execute(s, Call(a), rand) == Ok(s.(stack := s.stack + [s.pc], pc := a))
  {
  }

  /** Return on an empty stack is a stack underflow. */
  lemma ReturnOnEmptyStack(s: System, rand: Byte)
    requires |s.stack| == 0
    ensures Execute(s, Return, rand) == Err(StackUnderflow)
  {
  }

  /**
   A subroutine that leaves the stack as its call found it returns to the
   instruction after the call, with the caller's stack restored.
   */
  lemma CallThenReturn(s: System, a: Addresses.Address, t: System, rand: Byte, rand': Byte)
    requires s.pc + 2 < Addresses.Size
    requires t.stack == Execute(s, Call(a), rand).value.stack
    ensures Execute(t, Return, rand') == Ok(t.(stack := s.stack, pc := s.pc + 2))
  {
    CallPushes(s, a, rand);
    assert t.stack[..|t.stack| - 1] == s.stack;
  }

  // ----- Arithmetic and the flag register -----

  /**
   8XY4: VX gets the sum modulo 256 and VF the carry; the flag is written
   first, so with X = F the sum overwrites it.
   */
  lemma AddSetsCarry(s: System, x: Register, y: Register, rand: Byte)
    requires !StepLeaves(s)
    ensures Execute(s, Add(x, y), rand).Ok?
    ensures var t := Execute(s, Add(x, y), rand).value;
      && V(t, x) == (V(s, x) + V(s, y)) % 0x100
      && (x != VF ==> (V(t, VF) == 1 <==> V(s, x) + V(s, y) > 0xFF) && V(t, VF) <= 1)
      && (forall q: Register :: q != x && q != VF ==> V(t, q) == V(s, q))
      && t == s.(v := t.v, pc := s.pc + 2)
  {
  }

  /** 8XY5: VX gets VX - VY modulo 256 and VF is 1 exactly when there is no borrow. */
  lemma SubSetsNoBorrow(s: System, x: Register, y: Register, rand: Byte)
    requires !StepLeaves(s)
    ensures Execute(s, Sub(x, y), rand).Ok?
    ensures var t := Execute(s, Sub(x, y), rand).value;
      && V(t, x) == (V(s, x) - V(s, y)) % 0x100
      && (x != VF ==> (V(t, VF) == 1 <==> V(s, x) >= V(s, y)) && V(t, VF) <= 1)
      && (forall q: Register :: q != x && q != VF ==> V(t, q) == V(s, q))
      && t == s.(v := t.v, pc := s.pc + 2)
  {
  }

  /** 8XY7: VX gets VY - VX modulo 256 and VF is 1 exactly when there is no borrow. */
  lemma SubbSetsNoBorrow(s: System, x: Register, y: Register, rand: Byte)
    requires !StepLeaves(s)
    ensures Execute(s, Subb(x, y), rand).Ok?
    ensures var t := Execute(s, Subb(x, y), rand).value;
      && V(t, x) == (V(s, y) - V(s, x)) % 0x100
      && (x != VF ==> (V(t, VF) == 1 <==> V(s, y) >= V(s, x)) && V(t, VF) <= 1)
      && (forall q: Register :: q != x && q != VF ==> V(t, q) == V(s, q))
      && t == s.(v := t.v, pc := s.pc + 2)
  {
  }

  /** 7XNN: VX gets VX + NN modulo 256 and no other register, VF included, changes. */
  lemma AddNumKeepsFlag(s: System, x: Register, n: Byte, rand: Byte)
    requires !StepLeaves(s)
    ensures Execute(s, AddNum(x, n), rand).Ok?
    ensures var t := Execute(s, AddNum(x, n), rand).value;
      && V(t, x) == (V(s, x) + n) % 0x100
      && (forall q: Register :: q != x ==> V(t, q) == V(s, q))
      && t == s.(v := t.v, pc := s.pc + 2)
  {
  }

  /** 8XY1: VX becomes VX OR VY; VF and every other register are kept. */
  lemma OrKeepsFlag(s: System, x: Register, y: Register, rand: Byte)
    requires !StepLeaves(s)
    ensures Execute(s, Or(x, y), rand).Ok?
    ensures var t := Execute(s, Or(x, y), rand).value;
      && V(t, x) == BitOr(V(s, x), V(s, y))
      && (forall q: Register :: q != x ==> V(t, q) == V(s, q))
      && t == s.(v := t.v, pc := s.pc + 2)
  {
  }

  /** 8XY2: VX becomes VX AND VY; VF and every other register are kept. */
  lemma AndKeepsFlag(s: System, x: Register, y: Register, rand: Byte)
    requires !StepLeaves(s)
    ensures Execute(s, And(x, y), rand).Ok?
    ensures var t := Execute(s, And(x, y), rand).value;
      && V(t, x) == BitAnd(V(s, x), V(s, y))
      && (forall q: Register :: q != x ==> V(t, q) == V(s, q))
      && t == s.(v := t.v, pc := s.pc + 2)
  {
  }

  /**
   8XY3: VX becomes VX XOR VY, so 8XX3 clears VX; VF and every other
   register are kept.
   */
  lemma XorKeepsFlag(s: System, x: Register, y: Register, rand: Byte)
    requires !StepLeaves(s)
    ensures Execute(s, Xor(x, y), rand).Ok?
    ensures var t := Execute(s, Xor(x, y), rand).value;
      && V(t, x) == BitXor(V(s, x), V(s, y))
      && (x == y ==> V(t, x) == 0)
      && (forall q: Register :: q != x ==> V(t, q) == V(s, q))
      && t == s.(v := t.v, pc := s.pc + 2)
  {
    BitXorSelf(V(s, x));
  }

  /**
   8XY6: VF gets the low bit of VY and VX gets VY halved. VY is read again
   after VF is written, so with Y = F the value halved is the new flag.
   */
  lemma ShrShiftsY(s: System, x: Register, y: Register, rand: Byte)
    requires !StepLeaves(s)
    ensures Execute(s, Shr(x, y), rand).Ok?
    ensures var t := Execute(s, Shr(x, y), rand).value;
      && V(t, x) == (if y == VF then 0 else V(s, y) / 2)
      && (x != VF ==> (V(t, VF) == 1 <==> V(s, y) % 2 == 1) && V(t, VF) <= 1)
      && (forall q: Register :: q != x && q != VF ==> V(t, q) == V(s, q))
      && t == s.(v := t.v, pc := s.pc + 2)
  {
  }

  /**
   8XYE: VF gets the high bit of VY and VX gets VY doubled modulo 256; with
   Y = F the value doubled is the new flag.
   */
  lemma ShlShiftsY(s: System, x: Register, y: Register, rand: Byte)
    requires !StepLeaves(s)
    ensures Execute(s, Shl(x, y), rand).Ok?
    ensures var t := Execute(s, Shl(x, y), rand).value;
      && V(t, x) == (if y == VF then (if V(s, y) >= 0x80 then 2 else 0) else (V(s, y) * 2) % 0x100)
      && (x != VF ==> (V(t, VF) == 1 <==> V(s, y) >= 0x80) && V(t, VF) <= 1)
      && (forall q: Register :: q != x && q != VF ==> V(t, q) == V(s, q))
      && t == s.(v := t.v, pc := s.pc + 2)
  {
  }

  // ----- Loads into a register, I and the timers -----

  /** 6XNN: VX becomes NN and no other register changes. */
  lemma SetNumLoadsRegister(s: System, x: Register, n: Byte, rand: Byte)
    requires !StepLeaves(s)
    ensures Execute(s, SetNum(x, n), rand).Ok?
    ensures var t := Execute(s, SetNum(x, n), rand).value;
      && V(t, x) == n
      && (forall q: Register :: q != x ==> V(t, q) == V(s, q))
      && t == s.(v := t.v, pc := s.pc + 2)
  {
  }

  /** 8XY0: VX becomes VY and no other register changes. */
  lemma MoveCopiesRegister(s: System, x: Register, y: Register, rand: Byte)
    requires !StepLeaves(s)
    ensures Execute(s, Move(x, y), rand).Ok?
    ensures var t := Execute(s, Move(x, y), rand).value;
      && V(t, x) == V(s, y)
      && (forall q: Register :: q != x ==> V(t, q) == V(s, q))
      && t == s.(v := t.v, pc := s.pc + 2)
  {
  }

  /**
   CXNN: VX becomes the random byte masked by NN, so a zero mask gives
   zero.
   */
  lemma RandMasksByte(s: System, x: Register, n: Byte, rand: Byte)
    requires !StepLeaves(s)
    ensures Execute(s, Rand(x, n), rand).Ok?
    ensures var t := Execute(s, Rand(x, n), rand).value;
      && V(t, x) == BitAnd(rand, n)
      && (n == 0 ==> V(t, x) == 0)
      && (forall q: Register :: q != x ==> V(t, q) == V(s, q))
      && t == s.(v := t.v, pc := s.pc + 2)
  {
    BitAndZero(rand);
    assert Execute(s, Rand(x, n), rand) == Ok(SetV(s, x, BitAnd(rand, n)).(pc := s.pc + 2));
  }

  /** FX07: VX becomes the delay timer and no other register changes. */
  lemma GetDelayReadsTimer(s: System, x: Register, rand: Byte)
    requires !StepLeaves(s)
    ensures Execute(s, GetDelay(x), rand).Ok?
    ensures var t := Execute(s, GetDelay(x), rand).value;
      && V(t, x) == s.delayTimer
      && (forall q: Register :: q != x ==> V(t, q) == V(s, q))
      && t == s.(v := t.v, pc := s.pc + 2)
  {
  }

  /** FX15: the delay timer becomes VX; nothing else changes but pc. */
  lemma SetDelayLoadsTimer(s: System, x: Register, rand: Byte)
    requires !StepLeaves(s)
    ensures Execute(s, SetDelay(x), rand) == Ok(s.(delayTimer := V(s, x), pc := s.pc + 2))
  {
  }

  /** FX18: the sound timer becomes VX; nothing else changes but pc. */
  lemma SetSoundLoadsTimer(s: System, x: Register, rand: Byte)
    requires !StepLeaves(s)
    ensures Execute(s, SetSound(x), rand) == Ok(s.(soundTimer := V(s, x), pc := s.pc + 2))
  {
  }

  /** ANNN: I becomes NNN; nothing else changes but pc. */
  lemma SetIdxLoadsIndex(s: System, a: Addresses.Address, rand: Byte)
    requires !StepLeaves(s)
    ensures Execute(s, SetIdx(a), rand) == Ok(s.(i := a, pc := s.pc + 2))
  {
  }

  /**
   FX1E: I advances by VX while the sum stays inside memory; past the end
   the checked address fails.
   */
  lemma AddIdxAdvancesIndex(s: System, x: Register, rand: Byte)
    requires !StepLeaves(s)
    ensures s.i + V(s, x) < Addresses.Size ==>
      Execute(s, AddIdx(x), rand) == Ok(s.(i := s.i + V(s, x), pc := s.pc + 2))
    ensures s.i + V(s, x) >= Addresses.Size ==>
      Execute(s, AddIdx(x), rand) == Err(AddressOutOfRange)
  {
  }

  /** 00E0: the screen goes blank; nothing else changes but pc. */
  lemma ClearBlanksScreen(s: System, rand: Byte)
    requires !StepLeaves(s)
    ensures Execute(s, Clear, rand).Ok?
    ensures var t := Execute(s, Clear, rand).value;
      && Output.IsBlank(t.display)
      && t == s.(display := t.display, pc := s.pc + 2)
  {
  }

  // ----- Waiting for a key -----

  /** FX0A with no key down leaves the whole machine as it was. */
  lemma WaitKeyWithoutKeyWaits(s: System, x: Register, rand: Byte)
    requires Input.NonePressed(s.keypad) && s.pc >= 2
    ensures Execute(s, WaitKey(x), rand) == Ok(s)
  {
  }

  /** FX0A with a key down puts the lowest pressed key in VX and moves on. */
  lemma WaitKeyTakesLowestKey(s: System, x: Register, rand: Byte)
    requires !Input.NonePressed(s.keypad) && !StepLeaves(s)
    ensures Execute(s, WaitKey(x), rand).Ok?
    ensures var t := Execute(s, WaitKey(x), rand).value;
      && V(t, x) < 16 && Input.IsPressed(s.keypad, V(t, x))
      && (forall k: Input.Key :: k < V(t, x) ==> !Input.IsPressed(s.keypad, k))
      && (forall q: Register :: q != x ==> V(t, q) == V(s, q))
      && t == s.(v := t.v, pc := s.pc + 2)
  {
  }

  /** The word at `pc` is the big-endian pair of bytes there. */
  lemma FetchReadsBigEndian(s: System)
    requires s.pc < Addresses.Size - 1
    ensures Fetch(s) == Ok(Memories.Read8(s.memory, s.pc) * 0x100 + Memories.Read8(s.memory, s.pc + 1))
  {
    var w := Fetch(s).value;
    assert w == (w / 0x100) * 0x100 + w % 0x100;
  }

  /** Decoding the template encoding of an instruction gives back that instruction. */
  lemma DecodeOrFaultOfEncode(ins: Instruction)
    ensures DecodeOrFault(Encode(ins)) == Ok(ins)
  {
    DecodeEncode(ins);
  }

  /**
   The fetch and decode of a cycle: it faults at the last address, and
   otherwise decodes the big-endian word at `pc`.
   */
  lemma FetchDecodes(s: System)
    ensures s.pc == Addresses.Size - 1 ==> FetchInstruction(s) == Err(AddressOutOfRange)
    ensures s.pc < Addresses.Size - 1 ==>
      FetchInstruction(s) == DecodeOrFault(Memories.Read8(s.memory, s.pc) * 0x100 + Memories.Read8(s.memory, s.pc + 1))
  {
    if s.pc < Addresses.Size - 1 {
      FetchReadsBigEndian(s);
    }
  }

  /** One cycle on a FX0A opcode with no key down changes nothing. */
  lemma WaitingStepStaysPut(s: System, x: Register, rand: Byte)
    requires s.pc >= 2 && s.pc < Addresses.Size - 1
    requires Memories.Read8(s.memory, s.pc) == 0xF0 + x && Memories.Read8(s.memory, s.pc + 1) == 0x0A
    requires Input.NonePressed(s.keypad)
    ensures Step(s, rand) == Ok(s)
  {
    FetchDecodes(s);
    assert Encode(WaitKey(x)) == Memories.Read8(s.memory, s.pc) * 0x100 + Memories.Read8(s.memory, s.pc + 1);
    DecodeOrFaultOfEncode(WaitKey(x));
    assert FetchInstruction(s) == Ok(WaitKey(x));
    WaitKeyWithoutKeyWaits(s, x, rand);
  }

  /** However many cycles run, a machine waiting on FX0A with no key down stays put. */
  lemma {:induction false} WaitingRunStaysPut(s: System, x: Register, rands: seq<Byte>)
    requires s.pc >= 2 && s.pc < Addresses.Size - 1
    requires Memories.Read8(s.memory, s.pc) == 0xF0 + x && Memories.Read8(s.memory, s.pc + 1) == 0x0A
    requires Input.NonePressed(s.keypad)
    ensures Run(s, rands) == Ok(s)
    decreases |rands|
  {
    if |rands| > 0 {
      WaitingStepStaysPut(s, x, rands[0]);
      WaitingRunStaysPut(s, x, rands[1..]);
    }
  }

  /**
   Running the cycles of `a` and then those of `b` is one run of `a + b`;
   a fault in the first part ends the whole run with that fault.
   */
  lemma {:induction false} RunConcat(s: System, a: seq<Byte>, b: seq<Byte>)
    ensures Run(s, a + b) == match Run(s, a) case Ok(t) => Run(t, b) case Err(f) => Err(f)
    decreases |a|
  {
    if |a| == 0 {
      assert a + b == b;
    } else {
      assert (a + b)[0] == a[0];
      assert (a + b)[1..] == a[1..] + b;
      var r := Step(s, a[0]);
      if r.Ok? {
        RunConcat(r.value, a[1..], b);
      }
    }
  }

  // ----- The index register and memory -----

  /** FX29 points I at the five-byte glyph of VX's value and cannot fault on its own. */
  lemma SetSpritePointsAtGlyph(s: System, x: Register, rand: Byte)
    requires !StepLeaves(s)
    ensures Execute(s, SetSprite(x), rand) == Ok(s.(i := FontBase + 5 * V(s, x), pc := s.pc + 2))
  {
  }

  /** After `New`, the five bytes at the glyph address of digit `d` are that digit's glyph. */
  lemma GlyphAfterNew(rom: seq<Byte>, d: nat)
    requires Machine.New(rom).Ok? && d < 16
    ensures Memories.Read(Machine.New(rom).value.memory, FontBase + 5 * d, 5) == Ok(Font[5 * d..5 * d + 5])
  {
    var m := Machine.New(rom).value.memory;
    var glyph := Memories.Read(m, FontBase + 5 * d, 5).value;
    forall k | 0 <= k < 5
      ensures glyph[k] == Font[5 * d..5 * d + 5][k]
    {
      assert glyph[k] == Memories.Read8(m, FontBase + 5 * d + k);
      assert Memories.Read8(m, FontBase + (5 * d + k)) == Font[5 * d + k];
    }
    assert glyph == Font[5 * d..5 * d + 5];
  }

  /** FX33 in closed form, when the three digits fit in memory. */
  lemma ExecuteStoreBcd(s: System, x: Register, rand: Byte)
    requires s.i + 3 <= Addresses.Size && !StepLeaves(s)
    ensures var digits := [V(s, x) / 100, (V(s, x) / 10) % 10, V(s, x) % 10];
      && Memories.Write(s.memory, s.i, digits).Ok?
      && Execute(s, StoreBcd(x), rand) == Ok(s.(memory := Memories.Write(s.memory, s.i, digits).value, pc := s.pc + 2))
  {
  }

  /** FX55 in closed form, when V0..VX fit in memory and I + X + 1 stays an address. */
  lemma ExecuteStore(s: System, x: Register, rand: Byte)
    requires s.i + x + 1 < Addresses.Size && !StepLeaves(s)
    ensures Memories.Write(s.memory, s.i, s.v[..x + 1]).Ok?
    ensures Execute(s, Store(x), rand) ==
      Ok(s.(memory := Memories.Write(s.memory, s.i, s.v[..x + 1]).value, i := s.i + x + 1, pc := s.pc + 2))
  {
  }

  /** FX65 in closed form, when I + X + 1 stays an address. */
  lemma ExecuteLoad(s: System, x: Register, rand: Byte)
    requires s.i + x + 1 < Addresses.Size && !StepLeaves(s)
    ensures Memories.Read(s.memory, s.i, x + 1).Ok?
    ensures Execute(s, Load(x), rand) ==
      Ok(s.(v := Memories.Read(s.memory, s.i, x + 1).value + s.v[x + 1..], i := s.i + x + 1, pc := s.pc + 2))
  {
  }

  /** An arm that continues is followed by the step to the next instruction. */
  lemma ExecuteContinues(s: System, ins: Instruction, rand: Byte, t: System)
    requires Arm(s, ins, rand) == Ok(Continue(t)) && t.pc + 2 < Addresses.Size
    ensures Execute(s, ins, rand) == Ok(t.(pc := t.pc + 2))
  {
  }

  /** The DXYN arm before the trailing step: read the sprite, draw it, set VF. */
  lemma ArmDraw(s: System, x: Register, y: Register, n: Nibble, rand: Byte)
    requires 0 < n && s.i + n <= Addresses.Size
    ensures var drawn := Output.Draw(s.display, V(s, x), V(s, y), s.memory[s.i..s.i + n]);
      Arm(s, Draw(x, y, n), rand) == Ok(Continue(SetV(s.(display := drawn.0), VF, FlagByte(drawn.1))))
  {
    assert Memories.Read(s.memory, s.i, n) == Ok(s.memory[s.i..s.i + n]);
  }

  /**
   FX33 stores the three decimal digits of VX at I, I + 1, I + 2, most
   significant first, and changes no other byte.
   */
  lemma StoreBcdWritesDigits(s: System, x: Register, rand: Byte)
    requires s.i + 3 <= Addresses.Size && !StepLeaves(s)
    ensures Execute(s, StoreBcd(x), rand).Ok?
    ensures var t := Execute(s, StoreBcd(x), rand).value;
      var m := t.memory;
      && Memories.Read8(m, s.i + 1) < 10 && Memories.Read8(m, s.i + 2) < 10
      && 100 * Memories.Read8(m, s.i) + 10 * Memories.Read8(m, s.i + 1) + Memories.Read8(m, s.i + 2) == V(s, x)
      && (forall a: Addresses.Address :: (a < s.i || s.i + 3 <= a) ==> Memories.Read8(m, a) == Memories.Read8(s.memory, a))
      && t == s.(memory := m, pc := s.pc + 2)
  {
    ExecuteStoreBcd(s, x, rand);
  }

  /**
   FX55 copies V0..VX to I..I+X and advances I past them. The write would
   fit when I + X + 1 is 4096, but advancing I there faults.
   */
  lemma StoreCopiesRegisters(s: System, x: Register, rand: Byte)
    requires s.i + x + 1 < Addresses.Size && !StepLeaves(s)
    ensures Execute(s, Store(x), rand).Ok?
    ensures var t := Execute(s, Store(x), rand).value;
      && (forall k :: 0 <= k <= x ==> Memories.Read8(t.memory, s.i + k) == V(s, k))
      && (forall a: Addresses.Address :: (a < s.i || s.i + x < a) ==> Memories.Read8(t.memory, a) == Memories.Read8(s.memory, a))
      && t == s.(memory := t.memory, i := s.i + x + 1, pc := s.pc + 2)
  {
    ExecuteStore(s, x, rand);
  }

  /** FX65 copies I..I+X to V0..VX, keeps the higher registers and advances I. */
  lemma LoadCopiesMemory(s: System, x: Register, rand: Byte)
    requires s.i + x + 1 < Addresses.Size && !StepLeaves(s)
    ensures Execute(s, Load(x), rand).Ok?
    ensures var t := Execute(s, Load(x), rand).value;
      && (forall k: Register :: k <= x ==> V(t, k) == Memories.Read8(s.memory, s.i + k))
      && (forall k: Register :: x < k ==> V(t, k) == V(s, k))
      && t == s.(v := t.v, i := s.i + x + 1, pc := s.pc + 2)
  {
    ExecuteLoad(s, x, rand);
  }

  /** Loading from where V0..VX were just stored gives back the registers. */
  lemma StoreThenLoad(s: System, x: Register, rand: Byte, rand': Byte)
    requires s.i + x + 1 < Addresses.Size && s.pc + 4 < Addresses.Size
    ensures Execute(s, Store(x), rand).Ok?
    ensures var t := Execute(s, Store(x), rand).value;
      Execute(t.(i := s.i), Load(x), rand').Ok? && Execute(t.(i := s.i), Load(x), rand').value.v == s.v
  {
    StoreCopiesRegisters(s, x, rand);
    var t := Execute(s, Store(x), rand).value;
    LoadCopiesMemory(t.(i := s.i), x, rand');
    var u := Execute(t.(i := s.i), Load(x), rand').value;
    assert forall k: Register :: V(u, k) == V(s, k);
    assert forall k | 0 <= k < 16 :: u.v[k] == s.v[k] by {
      forall k | 0 <= k < 16 ensures u.v[k] == s.v[k] {
        assert V(u, k) == V(s, k);
      }
    }
  }

  // ----- Drawing -----

  /**
   DXYN draws the N bytes at I at (VX, VY): a pixel changes exactly when a
   set sprite bit lands on it, VF is 1 exactly when a set bit lands on a lit
   pixel, and only the screen and VF change.
   */
  lemma DrawSetsCollisionFlag(s: System, x: Register, y: Register, n: Nibble, rand: Byte)
    requires 0 < n && s.i + n <= Addresses.Size && !StepLeaves(s)
    ensures Execute(s, Draw(x, y, n), rand).Ok?
    ensures var t := Execute(s, Draw(x, y, n), rand).value;
      var sprite := s.memory[s.i..s.i + n];
      && (V(t, VF) == 1 <==> Output.HitsLitPixel(s.display, sprite, V(s, x), V(s, y)))
      && V(t, VF) <= 1
      && (forall c: Output.Column, r: Output.Row ::
            Output.Pixel(t.display, c, r) == (Output.Pixel(s.display, c, r) != Output.Targeted(sprite, V(s, x), V(s, y), c, r)))
      && (forall q: Register :: q != VF ==> V(t, q) == V(s, q))
      && t == s.(display := t.display, v := t.v, pc := s.pc + 2)
  {
    var sprite := s.memory[s.i..s.i + n];
    var drawn := Output.Draw(s.display, V(s, x), V(s, y), sprite);
    ArmDraw(s, x, y, n, rand);
    ExecuteContinues(s, Draw(x, y, n), rand, SetV(s.(display := drawn.0), VF, FlagByte(drawn.1)));
    Output.DrawCollision(s.display, V(s, x), V(s, y), sprite);
    Output.DrawFlipsTargets(s.display, V(s, x), V(s, y), sprite);
  }

  // ----- Timers -----

  /** After `n` ticks each timer has counted down by `n`, stopping at zero. */
  lemma {:induction false} TicksCountDown(s: System, n: nat)
    ensures Ticks(s, n).delayTimer == if s.delayTimer > n then s.delayTimer - n else 0
    ensures Ticks(s, n).soundTimer == if s.soundTimer > n then s.soundTimer - n else 0
    ensures Ticks(s, n) == s.(delayTimer := Ticks(s, n).delayTimer, soundTimer := Ticks(s, n).soundTimer)
    decreases n
  {
    if n > 0 {
      TicksCountDown(TimerTick(s), n - 1);
    }
  }

  /** The tone still sounds after `n` ticks exactly when the sound timer was above `n`. */
  lemma SoundLastsTimerTicks(s: System, n: nat)
    ensures GetSound(Ticks(s, n)) <==> s.soundTimer > n
  {
    TicksCountDown(s, n);
  }
}
