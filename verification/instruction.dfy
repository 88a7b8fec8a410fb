/**
 The CHIP-8 instruction set and its decoder (src/cpu/instruction.rs).
 A 16-bit opcode is read as four nibbles; the first nibble, and for some
 rows the last one or two, choose the variant, and the remaining nibbles
 are the operands.
 */
module Instructions {
  import opened Base
  import opened Addresses
  import opened Registers

  /**
   One decoded opcode. The comment on each variant is its opcode template:
   NNN is `target`, X is `x`, Y is `y`, NN is `num` and N is `height`.
   The key-skip variants carry register X: the executor looks up the key
   whose number is held in VX.
   */
  datatype Instruction =
    | Clear                                   // 00E0
    | Return                                  // 00EE
    | Jump(target: Address)                   // 1NNN
    | Call(target: Address)                   // 2NNN
    | EqNum(x: Register, num: Byte)           // 3XNN
    | NeqNum(x: Register, num: Byte)          // 4XNN
    | Eq(x: Register, y: Register)            // 5XY0
    | SetNum(x: Register, num: Byte)          // 6XNN
    | AddNum(x: Register, num: Byte)          // 7XNN
    | Move(x: Register, y: Register)          // 8XY0
    | Or(x: Register, y: Register)            // 8XY1
    | And(x: Register, y: Register)           // 8XY2
    | Xor(x: Register, y: Register)           // 8XY3
    | Add(x: Register, y: Register)           // 8XY4
    | Sub(x: Register, y: Register)           // 8XY5
    | Shr(x: Register, y: Register)           // 8XY6
    | Subb(x: Register, y: Register)          // 8XY7
    | Shl(x: Register, y: Register)           // 8XYE
    | Neq(x: Register, y: Register)           // 9XY0
    | SetIdx(target: Address)                 // ANNN
    | JumpV0(target: Address)                 // BNNN
    | Rand(x: Register, num: Byte)            // CXNN
    | Draw(x: Register, y: Register, height: Nibble)  // DXYN
    | KeyEq(x: Register)                      // EX9E
    | KeyNeq(x: Register)                     // EXA1
    | GetDelay(x: Register)                   // FX07
    | WaitKey(x: Register)                    // FX0A
    | SetDelay(x: Register)                   // FX15
    | SetSound(x: Register)                   // FX18
    | AddIdx(x: Register)                     // FX1E
    | SetSprite(x: Register)                  // FX29
    | StoreBcd(x: Register)                   // FX33
    | Store(x: Register)                      // FX55
    | Load(x: Register)                       // FX65
  {
    /** The variant has an NNN operand. */
    predicate HasTarget() {
      Jump? || Call? || SetIdx? || JumpV0?
    }

    /** The variant has an NN operand. */
    predicate HasNum() {
      EqNum? || NeqNum? || SetNum? || AddNum? || Rand?
    }

    /** The variant has a Y operand. */
    predicate HasY() {
      Eq? || Move? || Or? || And? || Xor? || Add? || Sub? || Shr? || Subb? || Shl? || Neq? || Draw?
    }

    /** The variant has an X operand. */
    predicate HasX() {
      !(Clear? || Return? || HasTarget())
    }
  }

  /** The first (most significant) nibble of an opcode. */
  function Nib1(w: Word): Nibble {
    w / 0x1000
  }

  /** Bits 8-11: `(data & 0x0F00) >> 8`. */
  function Nib2(w: Word): Nibble {
    (w / 0x100) % 0x10
  }

  /** Bits 4-7: `(data & 0x00F0) >> 4`. */
  function Nib3(w: Word): Nibble {
    (w / 0x10) % 0x10
  }

  /** Bits 0-3: `data & 0x000F`. */
  function Nib4(w: Word): Nibble {
    w % 0x10
  }

  /**
   `Instruction::new`: all operands are built first (the address from the
   low 12 bits, the registers from bits 8-11 and 4-7, the immediate from
   the low byte) and the nibble table then picks the variant. Building the
   operands never fails, which is why the `.value` selections verify.
   */
  function Decode(w: Word): Option<Instruction> {
    var addr := Addresses.New(w % 0x1000).value;
    var regX := Registers.New(Nib2(w)).value;
    var regY := Registers.New(Nib3(w)).value;
    var num: Byte := w % 0x100;
    match (Nib1(w), Nib2(w), Nib3(w), Nib4(w))
    case (0x0, 0x0, 0xE, 0x0) => Some(Clear)
    case (0x0, 0x0, 0xE, 0xE) => Some(Return)
    case (0x0, _, _, _) => None
    case (0x1, _, _, _) => Some(Jump(addr))
    case (0x2, _, _, _) => Some(Call(addr))
    case (0x3, _, _, _) => Some(EqNum(regX, num))
    case (0x4, _, _, _) => Some(NeqNum(regX, num))
    case (0x5, _, _, 0x0) => Some(Eq(regX, regY))
    case (0x6, _, _, _) => Some(SetNum(regX, num))
    case (0x7, _, _, _) => Some(AddNum(regX, num))
    case (0x8, _, _, 0x0) => Some(Move(regX, regY))
    case (0x8, _, _, 0x1) => Some(Or(regX, regY))
    case (0x8, _, _, 0x2) => Some(And(regX, regY))
    case (0x8, _, _, 0x3) => Some(Xor(regX, regY))
    case (0x8, _, _, 0x4) => Some(Add(regX, regY))
    case (0x8, _, _, 0x5) => Some(Sub(regX, regY))
    case (0x8, _, _, 0x6) => Some(Shr(regX, regY))
    case (0x8, _, _, 0x7) => Some(Subb(regX, regY))
    case (0x8, _, _, 0xE) => Some(Shl(regX, regY))
    case (0x9, _, _, 0x0) => Some(Neq(regX, regY))
    case (0xA, _, _, _) => Some(SetIdx(addr))
    case (0xB, _, _, _) => Some(JumpV0(addr))
    case (0xC, _, _, _) => Some(Rand(regX, num))
    case (0xD, _, _, _) => Some(Draw(regX, regY, Nib4(w)))
    case (0xE, _, 0x9, 0xE) => Some(KeyEq(regX))
    case (0xE, _, 0xA, 0x1) => Some(KeyNeq(regX))
    case (0xF, _, 0x0, 0x7) => Some(GetDelay(regX))
    case (0xF, _, 0x0, 0xA) => Some(WaitKey(regX))
    case (0xF, _, 0x1, 0x5) => Some(SetDelay(regX))
    case (0xF, _, 0x1, 0x8) => Some(SetSound(regX))
    case (0xF, _, 0x1, 0xE) => Some(AddIdx(regX))
    case (0xF, _, 0x2, 0x9) => Some(SetSprite(regX))
    case (0xF, _, 0x3, 0x3) => Some(StoreBcd(regX))
    case (0xF, _, 0x5, 0x5) => Some(Store(regX))
    case (0xF, _, 0x6, 0x5) => Some(Load(regX))
    case _ => None
  }

  /**
   The opcodes the table recognises, stated row by row: the two fixed
   0x0 opcodes, every word of the ten rows with no sub-opcode, and the
   listed last nibbles or low bytes of the 5, 8, 9, E and F rows.
   */
  predicate Decodable(w: Word) {
    var op := Nib1(w);
    var low := w % 0x100;
    || w == 0x00E0
    || w == 0x00EE
    || op in {0x1, 0x2, 0x3, 0x4, 0x6, 0x7, 0xA, 0xB, 0xC, 0xD}
    || (op in {0x5, 0x9} && Nib4(w) == 0x0)
    || (op == 0x8 && Nib4(w) in {0x0, 0x1, 0x2, 0x3, 0x4, 0x5, 0x6, 0x7, 0xE})
    || (op == 0xE && low in {0x9E, 0xA1})
    || (op == 0xF && low in {0x07, 0x0A, 0x15, 0x18, 0x1E, 0x29, 0x33, 0x55, 0x65})
  }

  /**
   The opcode template of each variant with its operand nibbles set to
   zero. The 35 values are pairwise distinct.
   */
  function Opcode(ins: Instruction): Word {
    match ins
    case Clear => 0x00E0
    case Return => 0x00EE
    case Jump(_) => 0x1000
    case Call(_) => 0x2000
    case EqNum(_, _) => 0x3000
    case NeqNum(_, _) => 0x4000
    case Eq(_, _) => 0x5000
    case SetNum(_, _) => 0x6000
    case AddNum(_, _) => 0x7000
    case Move(_, _) => 0x8000
    case Or(_, _) => 0x8001
    case And(_, _) => 0x8002
    case Xor(_, _) => 0x8003
    case Add(_, _) => 0x8004
    case Sub(_, _) => 0x8005
    case Shr(_, _) => 0x8006
    case Subb(_, _) => 0x8007
    case Shl(_, _) => 0x800E
    case Neq(_, _) => 0x9000
    case SetIdx(_) => 0xA000
    case JumpV0(_) => 0xB000
    case Rand(_, _) => 0xC000
    case Draw(_, _, _) => 0xD000
    case KeyEq(_) => 0xE09E
    case KeyNeq(_) => 0xE0A1
    case GetDelay(_) => 0xF007
    case WaitKey(_) => 0xF00A
    case SetDelay(_) => 0xF015
    case SetSound(_) => 0xF018
    case AddIdx(_) => 0xF01E
    case SetSprite(_) => 0xF029
    case StoreBcd(_) => 0xF033
    case Store(_) => 0xF055
    case Load(_) => 0xF065
  }

  /** Fills the operand fields of the opcode template: NNN, X, Y, NN and N. */
  function Encode(ins: Instruction): Word {
    match ins
    case Clear => 0x00E0
    case Return => 0x00EE
    case Jump(a) => 0x1000 + a
    case Call(a) => 0x2000 + a
    case EqNum(x, n) => 0x3000 + x * 0x100 + n
    case NeqNum(x, n) => 0x4000 + x * 0x100 + n
    case Eq(x, y) => 0x5000 + x * 0x100 + y * 0x10
    case SetNum(x, n) => 0x6000 + x * 0x100 + n
    case AddNum(x, n) => 0x7000 + x * 0x100 + n
    case Move(x, y) => 0x8000 + x * 0x100 + y * 0x10
    case Or(x, y) => 0x8001 + x * 0x100 + y * 0x10
    case And(x, y) => 0x8002 + x * 0x100 + y * 0x10
    case Xor(x, y) => 0x8003 + x * 0x100 + y * 0x10
    case Add(x, y) => 0x8004 + x * 0x100 + y * 0x10
    case Sub(x, y) => 0x8005 + x * 0x100 + y * 0x10
    case Shr(x, y) => 0x8006 + x * 0x100 + y * 0x10
    case Subb(x, y) => 0x8007 + x * 0x100 + y * 0x10
    case Shl(x, y) => 0x800E + x * 0x100 + y * 0x10
    case Neq(x, y) => 0x9000 + x * 0x100 + y * 0x10
    case SetIdx(a) => 0xA000 + a
    case JumpV0(a) => 0xB000 + a
    case Rand(x, n) => 0xC000 + x * 0x100 + n
    case Draw(x, y, h) => 0xD000 + x * 0x100 + y * 0x10 + h
    case KeyEq(x) => 0xE09E + x * 0x100
    case KeyNeq(x) => 0xE0A1 + x * 0x100
    case GetDelay(x) => 0xF007 + x * 0x100
    case WaitKey(x) => 0xF00A + x * 0x100
    case SetDelay(x) => 0xF015 + x * 0x100
    case SetSound(x) => 0xF018 + x * 0x100
    case AddIdx(x) => 0xF01E + x * 0x100
    case SetSprite(x) => 0xF029 + x * 0x100
    case StoreBcd(x) => 0xF033 + x * 0x100
    case Store(x) => 0xF055 + x * 0x100
    case Load(x) => 0xF065 + x * 0x100
  }

  /**
   The nibbles of an opcode that its row of the table tests, with the
   operand nibbles (the ones the table leaves as `_`) cleared.
   */
  function FixedBits(w: Word): Word {
    var op := Nib1(w);
    if op == 0x0 then w
    else if op in {0x5, 0x8, 0x9} then op * 0x1000 + Nib4(w)
    else if op in {0xE, 0xF} then op * 0x1000 + w % 0x100
    else op * 0x1000
  }

  /** A word is the sum of its four nibbles in place. */
  lemma Nibbles(w: Word)
    ensures w == Nib1(w) * 0x1000 + Nib2(w) * 0x100 + Nib3(w) * 0x10 + Nib4(w)
    ensures w % 0x1000 == Nib2(w) * 0x100 + Nib3(w) * 0x10 + Nib4(w)
    ensures w % 0x100 == Nib3(w) * 0x10 + Nib4(w)
  {
  }

  /** The nibbles of a word assembled from four nibbles are those nibbles. */
  lemma NibblesOfJoin(a: Nibble, b: Nibble, c: Nibble, d: Nibble)
    ensures var w := a * 0x1000 + b * 0x100 + c * 0x10 + d;
      && Nib1(w) == a && Nib2(w) == b && Nib3(w) == c && Nib4(w) == d
      && w % 0x1000 == b * 0x100 + c * 0x10 + d
      && w % 0x100 == c * 0x10 + d
  {
    var low := c * 0x10 + d;
    var mid := b * 0x100 + low;
    var w := a * 0x1000 + mid;
    DivMod(a, mid, 0x1000);
    DivMod(a * 0x10 + b, low, 0x100);
    assert w == (a * 0x10 + b) * 0x100 + low;
    DivMod(a, b, 0x10);
    assert w == (a * 0x100 + b * 0x10 + c) * 0x10 + d;
    DivMod(a * 0x100 + b * 0x10 + c, d, 0x10);
    DivMod(a * 0x10 + b, c, 0x10);
  }

  /** Quotient and remainder of `q * k + r` by one of the nibble scales `k`. */
  lemma DivMod(q: nat, r: nat, k: nat)
    requires k in {0x10, 0x100, 0x1000} && r < k
    ensures (q * k + r) / k == q && (q * k + r) % k == r
  {
    if k == 0x10 {
    } else if k == 0x100 {
    } else {
    }
  }

  /** The decoder accepts exactly the words of the opcode table. */
  lemma DecodeDomain(w: Word)
    ensures Decode(w).Some? <==> Decodable(w)
  {
    Nibbles(w);
  }

  /** Round trip for the variants with an NNN operand. */
  lemma DecodeEncodeTarget(ins: Instruction)
    requires ins.HasTarget()
    ensures Decode(Encode(ins)) == Some(ins)
  {
    var a: int := ins.target;
    var op: int := Nib1(Opcode(ins));
    var w := Encode(ins);
    assert a == (a / 0x100) * 0x100 + ((a / 0x10) % 0x10) * 0x10 + a % 0x10;
    assert w == op * 0x1000 + (a / 0x100) * 0x100 + ((a / 0x10) % 0x10) * 0x10 + a % 0x10;
    NibblesOfJoin(op, a / 0x100, (a / 0x10) % 0x10, a % 0x10);
    assert Nib1(w) == op && w % 0x1000 == a;
    match ins
    case Jump(_) => assert Decode(w) == Some(Jump(ins.target));
    case Call(_) => assert Decode(w) == Some(Call(ins.target));
    case SetIdx(_) => assert Decode(w) == Some(SetIdx(ins.target));
    case JumpV0(_) => assert Decode(w) == Some(JumpV0(ins.target));
  }

  /** Round trip for the variants with X and NN operands. */
  lemma DecodeEncodeNum(ins: Instruction)
    requires ins.HasNum()
    ensures Decode(Encode(ins)) == Some(ins)
  {
    var op: int, n: int := Nib1(Opcode(ins)), ins.num;
    assert n == (n / 0x10) * 0x10 + n % 0x10;
    assert Encode(ins) == op * 0x1000 + ins.x * 0x100 + (n / 0x10) * 0x10 + n % 0x10;
    NibblesOfJoin(op, ins.x, n / 0x10, n % 0x10);
  }

  /** Round trip for the 5, 9 and D rows. */
  lemma DecodeEncodeXY(ins: Instruction)
    requires ins.Eq? || ins.Neq? || ins.Draw?
    ensures Decode(Encode(ins)) == Some(ins)
  {
    var op: int, last: int := Nib1(Opcode(ins)), if ins.Draw? then ins.height else 0x0;
    assert Encode(ins) == op * 0x1000 + ins.x * 0x100 + ins.y * 0x10 + last;
    NibblesOfJoin(op, ins.x, ins.y, last);
  }

  /** Round trip for the 8 row, whose last nibble selects the operation. */
  lemma DecodeEncodeAlu(ins: Instruction)
    requires ins.HasY() && !(ins.Eq? || ins.Neq? || ins.Draw?)
    ensures Decode(Encode(ins)) == Some(ins)
  {
    var last: int := Nib4(Opcode(ins));
    assert Encode(ins) == 0x8 * 0x1000 + ins.x * 0x100 + ins.y * 0x10 + last;
    NibblesOfJoin(0x8, ins.x, ins.y, last);
  }

  /** Round trip for the E row. */
  lemma DecodeEncodeKey(ins: Instruction)
    requires ins.KeyEq? || ins.KeyNeq?
    ensures Decode(Encode(ins)) == Some(ins)
  {
    var c: int, d: int := Nib3(Opcode(ins)), Nib4(Opcode(ins));
    assert Encode(ins) == 0xE * 0x1000 + ins.x * 0x100 + c * 0x10 + d;
    NibblesOfJoin(0xE, ins.x, c, d);
  }

  /** Round trip for the F row. */
  lemma DecodeEncodeMisc(ins: Instruction)
    requires ins.HasX() && !ins.HasY() && !ins.HasNum() && !(ins.KeyEq? || ins.KeyNeq?)
    ensures Decode(Encode(ins)) == Some(ins)
  {
    var low := Opcode(ins) % 0x100;
    assert low in {0x07, 0x0A, 0x15, 0x18, 0x1E, 0x29, 0x33, 0x55, 0x65};
    NibblesOfJoin(0xF, ins.x, low / 0x10, low % 0x10);
  }

  /** Every instruction survives encoding and decoding. */
  lemma DecodeEncode(ins: Instruction)
    ensures Decode(Encode(ins)) == Some(ins)
  {
    if ins.Clear? || ins.Return? {
    } else if ins.HasTarget() {
      DecodeEncodeTarget(ins);
    } else if ins.HasNum() {
      DecodeEncodeNum(ins);
    } else if ins.Eq? || ins.Neq? || ins.Draw? {
      DecodeEncodeXY(ins);
    } else if ins.HasY() {
      DecodeEncodeAlu(ins);
    } else if ins.KeyEq? || ins.KeyNeq? {
      DecodeEncodeKey(ins);
    } else {
      DecodeEncodeMisc(ins);
    }
  }

  /** Every decodable word is the encoding of what it decodes to. */
  lemma EncodeDecode(w: Word)
    requires Decode(w).Some?
    ensures Encode(Decode(w).value) == w
  {
    Nibbles(w);
    var op := Nib1(w);
    if op in {0x0, 0x1, 0x2, 0x3, 0x4, 0x6, 0x7, 0xA, 0xB, 0xC} {
      EncodeDecodeWhole(w);
    } else if op in {0x5, 0x8, 0x9, 0xD} {
      EncodeDecodeXY(w);
    } else {
      EncodeDecodeX(w);
    }
  }

  /** `EncodeDecode` for the rows whose operands fill the word. */
  lemma EncodeDecodeWhole(w: Word)
    requires Decode(w).Some? && Nib1(w) in {0x0, 0x1, 0x2, 0x3, 0x4, 0x6, 0x7, 0xA, 0xB, 0xC}
    ensures Encode(Decode(w).value) == w
  {
    Nibbles(w);
  }

  /** `EncodeDecode` for the rows with X and Y operands. */
  lemma EncodeDecodeXY(w: Word)
    requires Decode(w).Some? && Nib1(w) in {0x5, 0x8, 0x9, 0xD}
    ensures Encode(Decode(w).value) == w
  {
    Nibbles(w);
  }

  /** `EncodeDecode` for the E and F rows. */
  lemma EncodeDecodeX(w: Word)
    requires Decode(w).Some? && Nib1(w) in {0xE, 0xF}
    ensures Encode(Decode(w).value) == w
  {
    Nibbles(w);
  }

  /** Decoding and encoding are inverse: `w` decodes to `ins` iff `ins` encodes to `w`. */
  lemma DecodeIffEncode(w: Word, ins: Instruction)
    ensures Decode(w) == Some(ins) <==> Encode(ins) == w
  {
    if Decode(w) == Some(ins) {
      EncodeDecode(w);
    }
    if Encode(ins) == w {
      DecodeEncode(ins);
    }
  }

  /** The template of a decoded instruction is the word with its operand nibbles cleared. */
  lemma OpcodeIsFixedBits(w: Word)
    requires Decode(w).Some?
    ensures Opcode(Decode(w).value) == FixedBits(w)
  {
    Nibbles(w);
  }

  /**
   The variant is chosen by the tested nibbles alone: two words that agree
   on them both decode or both fail, and decode to the same template.
   */
  lemma OperandsDoNotChooseVariant(w: Word, w': Word)
    requires FixedBits(w) == FixedBits(w')
    ensures Decode(w).Some? <==> Decode(w').Some?
    ensures Decode(w).Some? ==> Opcode(Decode(w).value) == Opcode(Decode(w').value)
  {
    Nibbles(w);
    Nibbles(w');
    if Decode(w).Some? {
      OpcodeIsFixedBits(w);
      OpcodeIsFixedBits(w');
    }
  }

  /** The operands of a decoded instruction sit at their fixed bit positions. */
  lemma DecodeOperands(w: Word)
    requires Decode(w).Some?
    ensures var ins := Decode(w).value;
      && (ins.HasTarget() ==> ins.target == w % 0x1000)
      && (ins.HasX() ==> ins.x == (w / 0x100) % 0x10)
      && (ins.HasY() ==> ins.y == (w / 0x10) % 0x10)
      && (ins.HasNum() ==> ins.num == w % 0x100)
      && (ins.Draw? ==> ins.height == w % 0x10)
  {
  }

  /** The documented sample opcodes. */
  lemma DecodeSamples()
    ensures Decode(0x00E0) == Some(Clear)
    ensures Decode(0x00EE) == Some(Return)
    ensures Decode(0x1ABC) == Some(Jump(0xABC))
    ensures Decode(0xFA33) == Some(StoreBcd(0xA))
    ensures Decode(0xD125) == Some(Draw(0x1, 0x2, 0x5))
    ensures Decode(0x0123) == None
    ensures Decode(0x8AB8) == None
  {
  }
}
