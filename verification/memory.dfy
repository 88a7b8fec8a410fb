/**
 The 4 KiB memory (src/cpu/memory.rs). Every access goes through an
 `Address`, and ranges are bounded by `addr.add(len - 1)`, so any access
 that would touch a byte past 0xFFF is a fault rather than a wrap-around.
 */
module Memories {
  import opened Base
  import opened Addresses

  type Memory = m: seq<Byte> | |m| == 0x1000 witness seq(0x1000, _ => 0)

  /** `Memory::new`: 4096 zero bytes. */
  function New(): (m: Memory)
    ensures forall a: Address :: Read8(m, a) == 0
  {
    seq(Size, _ => 0)
  }

  /**
   `Memory::write`: copies `data` to `addr..addr+|data|-1`. The length is
   cast to u16, `len - 1` underflows for an empty slice, the last address
   is `addr.add(len - 1)`, and `copy_from_slice` needs equal lengths.
   */
  function Write(m: Memory, addr: Address, data: seq<Byte>): (r: Result<Memory>)
    ensures r.Ok? <==> 0 < |data| && Get(addr) + |data| <= Size
    ensures |data| == 0 ==> r == Err(ArithmeticOverflow)
    ensures r.Ok? ==> forall k :: 0 <= k < |data| ==> r.value[addr + k] == data[k]
    ensures r.Ok? ==> forall a: Address :: (a < addr || addr + |data| <= a) ==> Read8(r.value, a) == Read8(m, a)
  {
    var len: Word := |data| % 0x1_0000;
    if len == 0 then Err(ArithmeticOverflow)
    else
      var last :- Addresses.Add(addr, len - 1);
      if |data| != len then Err(LengthMismatch)
      else Ok(m[..addr] + data + m[last + 1..])
  }

  /** `Memory::write8`: changes exactly the byte at `addr`. */
  function Write8(m: Memory, addr: Address, value: Byte): (r: Memory)
    ensures Read8(r, addr) == value
    ensures forall a: Address :: a != addr ==> Read8(r, a) == Read8(m, a)
  {
    m[Get(addr) := value]
  }

  /**
   `Memory::write16`: the high byte at `addr`, then the low byte at
   `addr.add(1)`, which faults for the last address.
   */
  function Write16(m: Memory, addr: Address, value: Word): (r: Result<Memory>)
    ensures r.Ok? <==> Get(addr) < Size - 1
    ensures r.Ok? ==> forall a: Address :: a != addr && a != addr + 1 ==> Read8(r.value, a) == Read8(m, a)
  {
    var hi := Write8(m, addr, value / 0x100);
    var next :- Addresses.Add(addr, 1);
    Ok(Write8(hi, next, value % 0x100))
  }

  /** `Memory::read`: the `len` bytes starting at `addr`. */
  function Read(m: Memory, addr: Address, len: Word): (r: Result<seq<Byte>>)
    ensures r.Ok? <==> 0 < len && Get(addr) + len <= Size
    ensures len == 0 ==> r == Err(ArithmeticOverflow)
    ensures r.Ok? ==> |r.value| == len
    ensures r.Ok? ==> forall k :: 0 <= k < len ==> r.value[k] == Read8(m, addr + k)
  {
    if len == 0 then Err(ArithmeticOverflow)
    else
      var last :- Addresses.Add(addr, len - 1);
      Ok(m[addr..last + 1])
  }

  /** `Memory::read8`. */
  function Read8(m: Memory, addr: Address): Byte {
    m[Get(addr)]
  }

  /**
   `Memory::read16`: the big-endian word at `addr`, `addr + 1`; faults
   for the last address.
   */
  function Read16(m: Memory, addr: Address): (r: Result<Word>)
    ensures r.Ok? <==> Get(addr) < Size - 1
    ensures r.Ok? ==> r.value / 0x100 == Read8(m, addr) && r.value % 0x100 == Read8(m, addr + 1)
  {
    var hi := Read8(m, addr);
    var next :- Addresses.Add(addr, 1);
    Ok(hi * 0x100 + Read8(m, next))
  }

  /** Reading back a range just written returns the written bytes. */
  lemma ReadAfterWrite(m: Memory, addr: Address, data: seq<Byte>)
    requires Write(m, addr, data).Ok?
    ensures |data| < 0x1_0000
    ensures Read(Write(m, addr, data).value, addr, |data|) == Ok(data)
  {
    var w := Write(m, addr, data).value;
    var r := Read(w, addr, |data|).value;
    assert forall k :: 0 <= k < |data| ==> r[k] == data[k];
  }

  /** Reading back a word just written returns the written word. */
  lemma Read16AfterWrite16(m: Memory, addr: Address, value: Word)
    requires Write16(m, addr, value).Ok?
    ensures Read16(Write16(m, addr, value).value, addr) == Ok(value)
  {
  }

  /** Writing back the bytes just read from a range leaves memory unchanged. */
  lemma WriteOfCurrentContents(m: Memory, addr: Address, len: Word)
    requires Read(m, addr, len).Ok?
    ensures Write(m, addr, Read(m, addr, len).value) == Ok(m)
  {
    var d := Read(m, addr, len).value;
    var w := Write(m, addr, d).value;
    assert forall a: Address :: Read8(w, a) == Read8(m, a);
    assert forall k | 0 <= k < Size :: w[k] == m[k] by {
      forall k | 0 <= k < Size ensures w[k] == m[k] {
        assert Read8(w, k) == Read8(m, k);
      }
    }
    assert w == m;
  }
}
