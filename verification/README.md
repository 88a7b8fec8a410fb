# CHIP-8 emulator core in Dafny

A model of the core of a CHIP-8 virtual machine written in Rust. It covers:

- the checked 12-bit address, the 4-bit register and key types;
- the 4 KiB memory with range and big-endian word access;
- the opcode decoder for the 35-row instruction table;
- the 16-key keypad;
- the 64×32 XOR sprite screen with wrap-around and collision detection;
- the `System` state: construction from a ROM, the per-opcode `execute`, the fetch/decode/execute cycle and the 60 Hz timer tick.

Every Rust `assert!`, `unwrap` and checked-arithmetic panic on the way becomes an `Err` carrying a `Fault`:

- an address, register or key out of range;
- a u16 overflow;
- a length mismatch;
- a stack underflow;
- an illegal instruction.

Overflow follows a debug build: the u16 additions and subtractions in `Address::add`, `Address::sub` and `len - 1` fail rather than wrap.

The model is split into these modules:

| module | file | what it holds |
|---|---|---|
| `Base` | `base.dfy` | byte and word types, `Option` and `Result`, the bitwise `BitOr`/`BitAnd`/`BitXor` and `Pow2` |
| `Addresses` | `address.dfy` | the 12-bit address |
| `Registers` | `register.dfy` | the register index |
| `Memories` | `memory.dfy` | the memory |
| `Instructions` | `instruction.dfy` | the decoder, plus an encoder that writes each variant's opcode template |
| `Input` | `input.dfy` | keys and keypad |
| `Output` | `output.dfy` | the screen |
| `Machine` | `system.dfy` | the system |
| `MachineProperties` | `system_props.dfy` | properties of the execution step |

The random byte that `Rand` draws is a parameter of `Execute`, `Step` and `Run`.

## Behaviour fixed by the code

- **Shifts.** `Shr` and `Shl` take their source from VY, not VX (src/system.rs:156-172).
  - VF is written before VY is read again.
  - So with Y = F, the value shifted is the new flag: `Shr` leaves 0 in VX, and `Shl` leaves 0 or 2.
- **Return and skips.** Only `Jump`, `Call` and `JumpV0` skip the trailing `pc += 2` (src/system.rs:224).
  - `Return` continues two bytes past the popped address, i.e. just after the `Call`.
  - A taken skip moves `pc` by 4 in total.
- **Key skips.** The decoder file has `KeyEq(Key)` and `KeyNeq(Key)` built from the X nibble itself. The executor instead matches arms named `KeyUp(reg)` and `KeyDown(reg)` (src/system.rs:185-196) and looks up the key numbered VX, so the two files do not agree on these variants and the source as given does not compile.
  - The model follows the executor: EX9E and EXA1 carry register X.
  - EX9E (`KeyEq` here) behaves as `KeyUp`: it skips when the key is pressed. EXA1 (`KeyNeq` here) behaves as `KeyDown`: it skips when the key is not pressed.
  - They fail with `KeyOutOfRange` when VX > 0xF.
- **WaitKey with no key pressed.** It subtracts 2 from `pc` and the trailing step adds 2 back, so the instruction is fetched again on the next cycle.
  - `pc` is therefore unchanged.
  - At `pc` < 2 the subtraction underflows and faults.
- **Redrawing a sprite.** When a sprite of at most 32 rows has a set bit and its first draw reports no collision (no set bit lands on a lit pixel), a second identical draw always reports one (`Output.RedrawCollides`); the second draw restores the grid (`Output.DrawTwiceRestores`).
- **The index register** is an `Address`, so it is checked against 4096 like `pc`.

## Model

| member | source | states |
|---|---|---|
| `Addresses.New` | src/cpu/address.rs:5-8 | construction succeeds exactly for values below 4096 and keeps the value; otherwise it fails with AddressOutOfRange |
| `Addresses.FromWord` | src/cpu/address.rs:21-25 | the conversion from u16 accepts and rejects exactly what `new` does |
| `Addresses.Get` | src/cpu/address.rs:18 | the value an address holds; `Addresses.New` states that it is the value the address was built from and is below 4096 |
| `Addresses.Add` | src/cpu/address.rs:10-12 | `a + y` succeeds exactly when it is below 4096 and yields that sum; a sum past 0xFFFF is an overflow, with no wrap-around |
| `Addresses.Sub` | src/cpu/address.rs:14-16 | `a - y` succeeds exactly when `y <= a` and yields the difference; otherwise it underflows |
| `Addresses.AddThenSub` | src/cpu/address.rs:10-16 | subtracting what was just added gives back the original address |
| `Addresses.SubThenAdd` | src/cpu/address.rs:10-16 | adding back what was just subtracted gives back the original address |
| `Registers.New` | src/cpu/register.rs:5-8 | a register exists exactly for values below 16 and `get` returns the value given |
| `Registers.Get` | src/cpu/register.rs:10 | the register number; `Registers.New` states that it is the value the register was built from and is below 16 |
| `Registers.Idx` | src/cpu/register.rs:10-11 | the index equals `get` and is a valid index into the 16 registers |
| `Input.NewKey` | src/input.rs:5-8 | a key exists exactly for values below 16 and `get` returns the value given |
| `Input.KeyGet` | src/input.rs:10 | the key number; `Input.NewKey` states that it is the value the key was built from and is below 16 |
| `Input.KeyIdx` | src/input.rs:10-11 | the key index equals `get` and is below 16 |
| `Input.NewKeypad` | src/input.rs:20-22 | a new keypad has no key pressed |
| `Input.SetPressed` | src/input.rs:24-30 | afterwards `is_pressed(k)` is the state given, and the other 15 keys keep their state |
| `Input.IsPressed` | src/input.rs:28-30 | the state recorded for a key; `Input.SetPressed` states that it reads back the state last set, and `Input.GetKey` that the lowest key for which it holds is reported |
| `Input.GetKey` | src/input.rs:32-39 | `None` exactly when no key is pressed; otherwise a pressed key with no lower key pressed |
| `Input.FirstPressedFrom` | src/input.rs:33-38 | the scan from index `i` finds the first pressed key at or after `i`, and finds none exactly when none is pressed there |
| `Input.PressedKeyIsFound` | src/input.rs:32-39 | when key `k` is pressed, `get_key` reports some key no higher than `k` |
| `Memories.New` | src/cpu/memory.rs:8-10 | every byte of a new memory is zero |
| `Memories.Write` | src/cpu/memory.rs:12-14 | a write succeeds exactly when the data is non-empty and ends at or below 4096, and an empty write is an overflow; the written range holds the data and every other byte is unchanged |
| `Memories.Write8` | src/cpu/memory.rs:17-19 | exactly the addressed byte changes, to the value written |
| `Memories.Read8` | src/cpu/memory.rs:31-33 | the byte at an address; `Memories.Write8`, `Memories.Read16` and `MachineProperties.FetchReadsBigEndian` are stated through it |
| `Memories.Write16` | src/cpu/memory.rs:22-25 | succeeds exactly below the last address and changes no byte other than `addr` and `addr + 1` |
| `Memories.Read` | src/cpu/memory.rs:27-29 | succeeds exactly when `0 < n` and `a + n <= 4096`; it returns `n` bytes, the k-th being the byte at `a + k` |
| `Memories.Read16` | src/cpu/memory.rs:35-38 | succeeds exactly below the last address; the high byte is the one at `a` and the low byte the one at `a + 1` |
| `Memories.ReadAfterWrite` | src/cpu/memory.rs:12-29 | reading back a range just written returns the written bytes |
| `Memories.Read16AfterWrite16` | src/cpu/memory.rs:22-38 | reading back a word just written returns that word |
| `Memories.WriteOfCurrentContents` | src/cpu/memory.rs:12-29 | writing back the bytes just read from a range leaves memory unchanged |
| `Instructions.DecodeDomain` | src/cpu/instruction.rs:55-92 | the decoder accepts exactly the opcode table: 00E0 and 00EE in row 0; 5XY0 and 9XY0; 8XYn for n in 0..7 and E; EX9E and EXA1; the nine FXnn forms; and every word of rows 1-4, 6, 7 and A-D |
| `Instructions.DecodeOperands` | src/cpu/instruction.rs:44-53 | the operands are fixed bit fields: NNN the low 12 bits, X bits 8-11, Y bits 4-7, NN the low byte, and the Draw height the low nibble |
| `Instructions.DecodeEncode` | src/cpu/instruction.rs:6-92 | writing an instruction with its opcode template and decoding the word gives back the instruction |
| `Instructions.EncodeDecode` | src/cpu/instruction.rs:55-92 | every decodable word is the template encoding of what it decodes to |
| `Instructions.DecodeIffEncode` | src/cpu/instruction.rs:6-93 | a word decodes to an instruction exactly when that instruction's template encoding is the word |
| `Instructions.OpcodeIsFixedBits` | src/cpu/instruction.rs:55-92 | the variant decoded is determined by the nibbles the table tests, with the operand nibbles cleared |
| `Instructions.OperandsDoNotChooseVariant` | src/cpu/instruction.rs:55-92 | two words that agree on the tested nibbles either both decode, to the same variant, or both fail |
| `Instructions.DecodeSamples` | src/cpu/instruction.rs:56-91 | 00E0 is Clear, 00EE is Return, other 0NNN and 8XY8 are rejected, and sample words decode to Jump, StoreBcd and Draw with their operands |
| `Instructions.Decode` | src/cpu/instruction.rs:43-93 | the decoder; `Instructions.DecodeDomain` gives the words it accepts, `Instructions.DecodeOperands` the operand fields, and `Instructions.DecodeIffEncode` the round trip with the opcode templates |
| `Output.NewScreen` | src/output.rs:14-18 | a new screen has every pixel dark |
| `Output.Clear` | src/output.rs:40-42 | clearing leaves every pixel dark, whatever was shown |
| `Output.ClearIdempotent` | src/output.rs:40-42 | clearing twice is the same as clearing once |
| `Output.Toggle` | src/output.rs:33 | the XOR of one pixel changes that pixel by the flip and no other |
| `Output.DrawBits` | src/output.rs:24-34 | the inner loop over the eight bits of one sprite row; `Output.DrawBitsGrid` and `Output.DrawBitsCollision` state its effect |
| `Output.DrawBitsGrid` | src/output.rs:24-34 | the inner loop flips exactly the pixels that a set bit of the row lands on, at column (x+j) mod 64 |
| `Output.DrawBitsCollision` | src/output.rs:24-34 | the inner loop records a collision exactly when a set bit of the row lands on a pixel that was lit |
| `Output.DrawRows` | src/output.rs:23-35 | the outer loop over the sprite rows; `Output.DrawRowsGrid` and `Output.DrawRowsCollision` state its effect |
| `Output.DrawRowsGrid` | src/output.rs:23-35 | the outer loop XORs each pixel with the parity of the set bits that land on it |
| `Output.DrawRowsCollision` | src/output.rs:23-35 | for at most 32 rows, the outer loop records a collision exactly when a set bit lands on a pixel lit before its row was drawn |
| `Output.Draw` | src/output.rs:20-38 | `draw`; its effect on the grid is `Output.DrawFlipsByParity` and `Output.DrawFlipsTargets`, its flag `Output.DrawCollision`, and `Output.DrawTwiceRestores`, `Output.RedrawCollides` and `Output.DrawEmpty` relate draws |
| `Output.DrawFlipsByParity` | src/output.rs:20-38 | after a draw, each pixel is flipped exactly when an odd number of set sprite bits land on it, for sprites of any length |
| `Output.DrawFlipsTargets` | src/output.rs:23-33 | sprite row i, bit j (MSB first) lands on ((x+j) mod 64, (y+i) mod 32); a pixel flips exactly when a set bit lands on it, and all others are unchanged |
| `Output.DrawCollision` | src/output.rs:20-38 | a draw reports a collision exactly when some set sprite bit lands on a pixel that was lit before |
| `Output.DrawTwiceRestores` | src/output.rs:33 | drawing the same sprite twice at the same place restores the grid |
| `Output.RedrawCollides` | src/output.rs:20-38 | when no set bit of a sprite lands on a lit pixel, the first draw reports no collision and a second identical draw of a sprite with a set bit always does |
| `Output.DrawEmpty` | src/output.rs:21-37 | an empty sprite changes nothing and reports no collision |
| `Machine.New` | src/system.rs:34-74 | loading succeeds exactly for a ROM of 1 to 3584 bytes; the result has the font at 0x050, the ROM at 0x200 and zero elsewhere, pc 0x200, I 0, an empty stack, zero registers and timers, a blank screen and no keys |
| `Machine.SetV` | src/system.rs:130 | writing one register sets it and changes no other register or field |
| `Machine.OverflowingAdd` | src/system.rs:142 | the wrapped sum plus 256 when it carried is the true sum |
| `Machine.OverflowingSub` | src/system.rs:151 | the wrapped difference minus 256 when it borrowed is the true difference |
| `Machine.DecodeOrFault` | src/system.rs:86 | the unwrap succeeds exactly on decodable words, whose instruction encodes back to the word; otherwise it faults with that word |
| `Machine.Arm` | src/system.rs:110-222 | the arms of `execute`; with the trailing step each arm's result is stated by a `MachineProperties` lemma: control flow by `PcPolicy`, `CallPushes` and `CallThenReturn`; register writes by `SetNumLoadsRegister`, `AddNumKeepsFlag`, `MoveCopiesRegister`, `OrKeepsFlag`, `AndKeepsFlag`, `XorKeepsFlag`, `AddSetsCarry`, `SubSetsNoBorrow`, `ShrShiftsY`, `SubbSetsNoBorrow`, `ShlShiftsY`, `RandMasksByte` and `GetDelayReadsTimer`; the rest by the I, timer, key, screen and memory lemmas below |
| `Machine.Execute` | src/system.rs:109-225 | `execute`: it faults exactly as `MachineProperties.Faults` lists (`MachineProperties.FaultsExactly`), leaves pc as `MachineProperties.PcRule` says (`MachineProperties.PcPolicy`) and changes only what `MachineProperties.FrameRule` allows (`MachineProperties.ExecuteFrame`); the per-instruction lemmas give each result |
| `Machine.Fetch` | src/system.rs:85 | `read16` at pc; `MachineProperties.FetchReadsBigEndian` states the word it reads |
| `Machine.FetchInstruction` | src/system.rs:85-86 | the fetched word decoded or faulted on; `MachineProperties.FetchDecodes` states it |
| `Machine.Step` | src/system.rs:83-87 | one cycle: fetch, decode, execute; `MachineProperties.WaitingStepStaysPut` states a cycle on FX0A with no key down |
| `Machine.Run` | src/system.rs:80-92 | the instruction loop; `MachineProperties.RunConcat` and `MachineProperties.WaitingRunStaysPut` state it |
| `Machine.Ticks` | src/system.rs:94-99 | the timer loop; `MachineProperties.TicksCountDown` states it |
| `Machine.GetSound` | src/system.rs:107 | whether the tone sounds; `MachineProperties.SoundLastsTimerTicks` states how long |
| `Machine.TimerTick` | src/system.rs:97-98 | each nonzero timer goes down by one, a zero timer stays zero, and nothing else changes |
| `Machine.UpdateKeypad` | src/system.rs:102-104 | the key given gets the state given; other keys and all other state are unchanged |
| `MachineProperties.PcPolicy` | src/system.rs:109-224 | Jump and Call land on the target and JumpV0 on target + V0; Return lands two past the popped address; a skip moves 4 when taken and 2 otherwise; WaitKey stays put while no key is down and otherwise moves 2; every other instruction moves 2 |
| `MachineProperties.FaultsExactly` | src/system.rs:109-225 | an instruction faults exactly when one of these happens: the pc step leaves memory; Return finds an empty stack; JumpV0's target is past 4095; a key register is above 0xF; Draw has height 0 or runs past 4096; I + VX is past 4095 for AddIdx; BCD's three bytes do not fit; I + X + 1 reaches 4096 for Store and Load; or WaitKey with no key runs at pc < 2 |
| `MachineProperties.ExecuteFrame` | src/system.rs:109-225 | no instruction touches the keypad; only Clear and Draw change the screen; only StoreBcd and Store change memory; only Call and Return change the stack; only the I-writing instructions change I; only the register-writing instructions change registers; only SetDelay and SetSound change the timers |
| `MachineProperties.CallPushes` | src/system.rs:114-117 | Call pushes its own address and jumps to the target, and never faults |
| `MachineProperties.ReturnOnEmptyStack` | src/system.rs:112 | Return on an empty stack is a stack underflow |
| `MachineProperties.CallThenReturn` | src/system.rs:112-224 | after a Call, a Return from any state with the stack the Call left resumes just after the Call, with the caller's stack restored |
| `MachineProperties.AddSetsCarry` | src/system.rs:138-146 | 8XY4 leaves (VX + VY) mod 256 in VX; unless X is F, it leaves VF = 1 exactly on a carry; other registers are unchanged |
| `MachineProperties.SubSetsNoBorrow` | src/system.rs:147-155 | 8XY5 leaves (VX - VY) mod 256 in VX; unless X is F, it leaves VF = 1 exactly when VX >= VY |
| `MachineProperties.SubbSetsNoBorrow` | src/system.rs:160-168 | 8XY7 leaves (VY - VX) mod 256 in VX; unless X is F, it leaves VF = 1 exactly when VY >= VX |
| `MachineProperties.AddNumKeepsFlag` | src/system.rs:131-133 | 7XNN leaves (VX + NN) mod 256 in VX and changes no other register, VF included |
| `MachineProperties.OrKeepsFlag` | src/system.rs:135 | 8XY1 leaves VX OR VY in VX and changes no other register, VF included |
| `MachineProperties.AndKeepsFlag` | src/system.rs:136 | 8XY2 leaves VX AND VY in VX and changes no other register, VF included |
| `MachineProperties.XorKeepsFlag` | src/system.rs:137 | 8XY3 leaves VX XOR VY in VX, so 0 when Y is X, and changes no other register, VF included |
| `MachineProperties.ShrShiftsY` | src/system.rs:156-159 | 8XY6 takes VF from the low bit of VY and puts VY halved in VX (0 when Y is F) |
| `MachineProperties.ShlShiftsY` | src/system.rs:169-172 | 8XYE takes VF from the high bit of VY and puts VY doubled mod 256 in VX (the doubled flag when Y is F) |
| `MachineProperties.SetNumLoadsRegister` | src/system.rs:130 | 6XNN leaves NN in VX, changes no other register and moves pc by 2 |
| `MachineProperties.MoveCopiesRegister` | src/system.rs:134 | 8XY0 leaves VY in VX, changes no other register and moves pc by 2 |
| `MachineProperties.RandMasksByte` | src/system.rs:175-177 | CXNN leaves the random byte AND NN in VX, so 0 under a zero mask, and changes no other register |
| `MachineProperties.GetDelayReadsTimer` | src/system.rs:197 | FX07 leaves the delay timer in VX and changes no other register |
| `MachineProperties.SetDelayLoadsTimer` | src/system.rs:205 | FX15 sets the delay timer to VX and changes nothing else but pc |
| `MachineProperties.SetSoundLoadsTimer` | src/system.rs:206 | FX18 sets the sound timer to VX and changes nothing else but pc |
| `MachineProperties.SetIdxLoadsIndex` | src/system.rs:173 | ANNN sets I to NNN and changes nothing else but pc |
| `MachineProperties.AddIdxAdvancesIndex` | src/system.rs:207 | FX1E sets I to I + VX when that stays below 4096 and otherwise faults with AddressOutOfRange |
| `MachineProperties.ClearBlanksScreen` | src/system.rs:111 | 00E0 leaves every pixel dark and changes nothing else but pc |
| `MachineProperties.WaitKeyWithoutKeyWaits` | src/system.rs:198-204 | FX0A with no key down leaves the whole machine unchanged |
| `MachineProperties.WaitKeyTakesLowestKey` | src/system.rs:198-204 | FX0A with a key down puts the lowest pressed key in VX, changes no other register and moves on by 2 |
| `MachineProperties.FetchReadsBigEndian` | src/system.rs:85 | the fetched opcode is the byte at pc times 256 plus the byte at pc + 1 |
| `MachineProperties.FetchDecodes` | src/system.rs:85-86 | the instruction of a cycle faults at pc 4095, and otherwise is the decoding (or the illegal-instruction fault) of the big-endian word at pc |
| `MachineProperties.DecodeOrFaultOfEncode` | src/system.rs:86 | unwrapping the decoding of an instruction's template encoding gives back that instruction |
| `MachineProperties.WaitingStepStaysPut` | src/system.rs:83-87 | one cycle on an FX0A opcode with no key down changes nothing |
| `MachineProperties.WaitingRunStaysPut` | src/system.rs:80-92 | any number of cycles on an FX0A opcode with no key down leave the machine as it was |
| `MachineProperties.RunConcat` | src/system.rs:80-92 | running the cycles of `a` and then of `b` equals running `a + b`, and a fault in `a` ends the whole run with that fault |
| `MachineProperties.SetSpritePointsAtGlyph` | src/system.rs:208 | FX29 sets I to 0x050 + 5 × VX, never faults on its own, and changes nothing else |
| `MachineProperties.GlyphAfterNew` | src/system.rs:37-54 | after loading, the five bytes at 0x050 + 5 × d are the font glyph of digit d |
| `MachineProperties.StoreBcdWritesDigits` | src/system.rs:209-212 | FX33 writes three decimal digits at I, I+1 and I+2 whose value is VX, and changes no other byte |
| `MachineProperties.StoreCopiesRegisters` | src/system.rs:213-216 | FX55 copies V0..VX to I..I+X, keeps the other bytes and advances I by X + 1 |
| `MachineProperties.LoadCopiesMemory` | src/system.rs:217-221 | FX65 copies I..I+X to V0..VX, keeps the higher registers and advances I by X + 1 |
| `MachineProperties.StoreThenLoad` | src/system.rs:213-221 | loading from where V0..VX were just stored gives back the registers |
| `MachineProperties.DrawSetsCollisionFlag` | src/system.rs:178-184 | DXYN flips exactly the pixels the N bytes at I target at (VX, VY), and sets VF to 1 exactly on a collision; no other register changes |
| `MachineProperties.TicksCountDown` | src/system.rs:94-99 | after n ticks each timer is its old value minus n, stopping at 0; nothing else changes |
| `MachineProperties.SoundLastsTimerTicks` | src/system.rs:107 | the tone still sounds after n ticks exactly when the sound timer was above n |

## Left out

- `src/main.rs` (the window, the ROM file read, the keyboard mapping and rendering): host I/O and a foreign graphics library.
- `src/cpu/mod.rs`: module re-exports only.
- The floating-point time accounting of `System::update` (`CLOCK_HZ`, `1.0 / 60.0`, src/system.rs:13, 76-81, 94-95).
  - Instead, the two loops are modelled by the number of iterations: `Run` executes one cycle per random byte, and `Ticks` applies n timer ticks.
  - How many of each a given elapsed time produces is not modelled.
- `rand::random` (src/system.rs:176): a foreign random source. The random byte is a parameter.
- The `Display` impl of `Instruction` and the `DEBUG` trace (src/cpu/instruction.rs:96-135, src/system.rs:89-91): debug text with no effect on state.
- `RenderMode` (src/output.rs:1-7): unused.
- `Output.GetPixels` and `Machine.Pixels`: they hand back the grid unchanged, so there is nothing to state about them.
- Release-build wrap-around of u16 arithmetic. The model has debug-build semantics, where an overflowing address computation panics.
- `Output.DrawCollision`: stated for sprites of at most 32 rows, which covers every DXYN sprite (at most 15 rows); past 32 rows two sprite rows land on the same screen row.
- `Output.DrawFlipsTargets`: stated for sprites of at most 32 rows, where a flip by target equals a flip by parity; `Output.DrawFlipsByParity` gives the effect for every length.
- `Output.RedrawCollides`: stated for sprites of at most 32 rows, because it rests on `Output.DrawCollision`.
  - Beyond that, two rows of one sprite land on the same screen row and cancel out.
  - For any length, `Output.DrawFlipsByParity` gives the exact effect.
  - Sprites drawn by DXYN have at most 15 rows, so the executor-level `MachineProperties.DrawSetsCollisionFlag` is exact.
- `Memories.Write16`: the two bytes written are stated through `Memories.Read16AfterWrite16` rather than in its own contract.
- The key-valued operand of the decoder's `KeyEq`/`KeyNeq`. The executor's register reading is modelled instead (see above).
