/** Unaligned loads and stores of the MIPS R2000 as NachOS/machine/mipssim.cc simulates them
    with SIM_FIX: LWL, LWR, SWL, SWR, and the delayed load. Memory is little-endian. */
module Unaligned {
  import opened Sequences

  type Word = bv32
  type Byte = bv8

  // ---- words and bytes ----------------------------------------------------------------

  function Assemble(b0: Byte, b1: Byte, b2: Byte, b3: Byte): Word {
    (b0 as bv32) | ((b1 as bv32) << 8) | ((b2 as bv32) << 16) | ((b3 as bv32) << 24)
  }

  function Byte0(w: Word): Byte { (w & 0xff) as bv8 }
  function Byte1(w: Word): Byte { ((w >> 8) & 0xff) as bv8 }
  function Byte2(w: Word): Byte { ((w >> 16) & 0xff) as bv8 }
  function Byte3(w: Word): Byte { ((w >> 24) & 0xff) as bv8 }

  // The four bytes of a word, low byte first.
  function Bytes(w: Word): (b: seq<Byte>)
    ensures |b| == 4
  {
    [Byte0(w), Byte1(w), Byte2(w), Byte3(w)]
  }

  lemma AssembleOnto(b0: Byte, b1: Byte, b2: Byte, b3: Byte)
    ensures Byte0(Assemble(b0, b1, b2, b3)) == b0 && Byte1(Assemble(b0, b1, b2, b3)) == b1
    ensures Byte2(Assemble(b0, b1, b2, b3)) == b2 && Byte3(Assemble(b0, b1, b2, b3)) == b3
  {
  }

  lemma AssembleBytes(w: Word)
    ensures Assemble(Byte0(w), Byte1(w), Byte2(w), Byte3(w)) == w
  {
  }

  lemma BytesOf(b0: Byte, b1: Byte, b2: Byte, b3: Byte)
    ensures Bytes(Assemble(b0, b1, b2, b3)) == [b0, b1, b2, b3]
  {
    AssembleOnto(b0, b1, b2, b3);
    hide Assemble, Byte0, Byte1, Byte2, Byte3;
  }

  // ---- the four merges, as coded ------------------------------------------------------

  function LwlMerge(old0: Word, value: Word, byte: nat): Word
    requires byte < 4
  {
    match 3 - byte
    case 0 => value
    case 1 => (old0 & 0xff) | (value << 8)
    case 2 => (old0 & 0xffff) | (value << 16)
    case 3 => (old0 & 0xffffff) | (value << 24)
  }

  function LwrMerge(old0: Word, value: Word, byte: nat): Word
    requires byte < 4
  {
    match 3 - byte
    case 0 => (old0 & 0xffffff00) | ((value >> 24) & 0xff)
    case 1 => (old0 & 0xffff0000) | ((value >> 16) & 0xffff)
    case 2 => (old0 & 0xff000000) | ((value >> 8) & 0xffffff)
    case 3 => value
  }

  function SwlMerge(value: Word, reg: Word, byte: nat): Word
    requires byte < 4
  {
    match 3 - byte
    case 0 => reg
    case 1 => (value & 0xff000000) | ((reg >> 8) & 0xffffff)
    case 2 => (value & 0xffff0000) | ((reg >> 16) & 0xffff)
    case 3 => (value & 0xffffff00) | ((reg >> 24) & 0xff)
  }

  function SwrMerge(value: Word, reg: Word, byte: nat): Word
    requires byte < 4
  {
    match 3 - byte
    case 0 => (value & 0xffffff) | (reg << 24)
    case 1 => (value & 0xffff) | (reg << 16)
    case 2 => (value & 0xff) | (reg << 8)
    case 3 => reg
  }

  // Masks and shifts, byte by byte.
  lemma Up1(b0: Byte, b1: Byte, b2: Byte, b3: Byte, v0: Byte, v1: Byte, v2: Byte, v3: Byte)
    ensures (Assemble(b0, b1, b2, b3) & 0xff) | (Assemble(v0, v1, v2, v3) << 8) == Assemble(b0, v0, v1, v2)
  {
  }

  lemma Up2(b0: Byte, b1: Byte, b2: Byte, b3: Byte, v0: Byte, v1: Byte, v2: Byte, v3: Byte)
    ensures (Assemble(b0, b1, b2, b3) & 0xffff) | (Assemble(v0, v1, v2, v3) << 16) == Assemble(b0, b1, v0, v1)
  {
  }

  lemma Up3(b0: Byte, b1: Byte, b2: Byte, b3: Byte, v0: Byte, v1: Byte, v2: Byte, v3: Byte)
    ensures (Assemble(b0, b1, b2, b3) & 0xffffff) | (Assemble(v0, v1, v2, v3) << 24) == Assemble(b0, b1, b2, v0)
  {
  }

  lemma Down1(b0: Byte, b1: Byte, b2: Byte, b3: Byte, v0: Byte, v1: Byte, v2: Byte, v3: Byte)
    ensures (Assemble(b0, b1, b2, b3) & 0xffffff00) | ((Assemble(v0, v1, v2, v3) >> 24) & 0xff) == Assemble(v3, b1, b2, b3)
  {
  }

  lemma Down2(b0: Byte, b1: Byte, b2: Byte, b3: Byte, v0: Byte, v1: Byte, v2: Byte, v3: Byte)
    ensures (Assemble(b0, b1, b2, b3) & 0xffff0000) | ((Assemble(v0, v1, v2, v3) >> 16) & 0xffff) == Assemble(v2, v3, b2, b3)
  {
  }

  lemma Down3(b0: Byte, b1: Byte, b2: Byte, b3: Byte, v0: Byte, v1: Byte, v2: Byte, v3: Byte)
    ensures (Assemble(b0, b1, b2, b3) & 0xff000000) | ((Assemble(v0, v1, v2, v3) >> 8) & 0xffffff) == Assemble(v1, v2, v3, b3)
  {
  }

  lemma Lwl0(b0: Byte, b1: Byte, b2: Byte, b3: Byte, v0: Byte, v1: Byte, v2: Byte, v3: Byte)
    ensures Bytes(LwlMerge(Assemble(b0, b1, b2, b3), Assemble(v0, v1, v2, v3), 0)) == [b0, b1, b2, v0]
  {
    hide Assemble, Bytes;
    Up3(b0, b1, b2, b3, v0, v1, v2, v3);
    BytesOf(b0, b1, b2, v0);
  }

  lemma Lwl1(b0: Byte, b1: Byte, b2: Byte, b3: Byte, v0: Byte, v1: Byte, v2: Byte, v3: Byte)
    ensures Bytes(LwlMerge(Assemble(b0, b1, b2, b3), Assemble(v0, v1, v2, v3), 1)) == [b0, b1, v0, v1]
  {
    hide Assemble, Bytes;
    Up2(b0, b1, b2, b3, v0, v1, v2, v3);
    BytesOf(b0, b1, v0, v1);
  }

  lemma Lwl2(b0: Byte, b1: Byte, b2: Byte, b3: Byte, v0: Byte, v1: Byte, v2: Byte, v3: Byte)
    ensures Bytes(LwlMerge(Assemble(b0, b1, b2, b3), Assemble(v0, v1, v2, v3), 2)) == [b0, v0, v1, v2]
  {
    hide Assemble, Bytes;
    Up1(b0, b1, b2, b3, v0, v1, v2, v3);
    BytesOf(b0, v0, v1, v2);
  }

  lemma Lwr1(b0: Byte, b1: Byte, b2: Byte, b3: Byte, v0: Byte, v1: Byte, v2: Byte, v3: Byte)
    ensures Bytes(LwrMerge(Assemble(b0, b1, b2, b3), Assemble(v0, v1, v2, v3), 1)) == [v1, v2, v3, b3]
  {
    hide Assemble, Bytes;
    Down3(b0, b1, b2, b3, v0, v1, v2, v3);
    BytesOf(v1, v2, v3, b3);
  }

  lemma Lwr2(b0: Byte, b1: Byte, b2: Byte, b3: Byte, v0: Byte, v1: Byte, v2: Byte, v3: Byte)
    ensures Bytes(LwrMerge(Assemble(b0, b1, b2, b3), Assemble(v0, v1, v2, v3), 2)) == [v2, v3, b2, b3]
  {
    hide Assemble, Bytes;
    Down2(b0, b1, b2, b3, v0, v1, v2, v3);
    BytesOf(v2, v3, b2, b3);
  }

  lemma Lwr3(b0: Byte, b1: Byte, b2: Byte, b3: Byte, v0: Byte, v1: Byte, v2: Byte, v3: Byte)
    ensures Bytes(LwrMerge(Assemble(b0, b1, b2, b3), Assemble(v0, v1, v2, v3), 3)) == [v3, b1, b2, b3]
  {
    hide Assemble, Bytes;
    Down1(b0, b1, b2, b3, v0, v1, v2, v3);
    BytesOf(v3, b1, b2, b3);
  }

  lemma FrontSlices(b0: Byte, b1: Byte, b2: Byte, b3: Byte, v0: Byte, v1: Byte, v2: Byte, v3: Byte)
    ensures [b0, b1, b2, b3][..3] + [v0, v1, v2, v3][..1] == [b0, b1, b2, v0]
    ensures [b0, b1, b2, b3][..2] + [v0, v1, v2, v3][..2] == [b0, b1, v0, v1]
    ensures [b0, b1, b2, b3][..1] + [v0, v1, v2, v3][..3] == [b0, v0, v1, v2]
    ensures [b0, b1, b2, b3][..0] + [v0, v1, v2, v3][..4] == [v0, v1, v2, v3]
  {
  }

  lemma BackSlices(b0: Byte, b1: Byte, b2: Byte, b3: Byte, v0: Byte, v1: Byte, v2: Byte, v3: Byte)
    ensures [v0, v1, v2, v3][0..] + [b0, b1, b2, b3][4..] == [v0, v1, v2, v3]
    ensures [v0, v1, v2, v3][1..] + [b0, b1, b2, b3][3..] == [v1, v2, v3, b3]
    ensures [v0, v1, v2, v3][2..] + [b0, b1, b2, b3][2..] == [v2, v3, b2, b3]
    ensures [v0, v1, v2, v3][3..] + [b0, b1, b2, b3][1..] == [v3, b1, b2, b3]
  {
  }

  // LWL takes the low bytes of the word in memory for the top of the register, LWR its high
  // bytes for the bottom; SWL and SWR store the same parts of the register.
  lemma LwlBytes(old0: Word, value: Word, byte: nat)
    requires byte < 4
    ensures Bytes(LwlMerge(old0, value, byte)) == Bytes(old0)[..3 - byte] + Bytes(value)[..byte + 1]
  {
    var b0, b1, b2, b3 := Byte0(old0), Byte1(old0), Byte2(old0), Byte3(old0);
    var v0, v1, v2, v3 := Byte0(value), Byte1(value), Byte2(value), Byte3(value);
    AssembleBytes(old0);
    AssembleBytes(value);
    assert byte == 3 ==> LwlMerge(old0, value, byte) == value;
    FrontSlices(b0, b1, b2, b3, v0, v1, v2, v3);
    hide Assemble, Byte0, Byte1, Byte2, Byte3, LwlMerge;
    if byte == 0 {
      Lwl0(b0, b1, b2, b3, v0, v1, v2, v3);
    } else if byte == 1 {
      Lwl1(b0, b1, b2, b3, v0, v1, v2, v3);
    } else if byte == 2 {
      Lwl2(b0, b1, b2, b3, v0, v1, v2, v3);
    }
  }

  lemma LwrBytes(old0: Word, value: Word, byte: nat)
    requires byte < 4
    ensures Bytes(LwrMerge(old0, value, byte)) == Bytes(value)[byte..] + Bytes(old0)[4 - byte..]
  {
    var b0, b1, b2, b3 := Byte0(old0), Byte1(old0), Byte2(old0), Byte3(old0);
    var v0, v1, v2, v3 := Byte0(value), Byte1(value), Byte2(value), Byte3(value);
    AssembleBytes(old0);
    AssembleBytes(value);
    assert byte == 0 ==> LwrMerge(old0, value, byte) == value;
    BackSlices(b0, b1, b2, b3, v0, v1, v2, v3);
    hide Assemble, Byte0, Byte1, Byte2, Byte3, LwrMerge;
    if byte == 1 {
      Lwr1(b0, b1, b2, b3, v0, v1, v2, v3);
    } else if byte == 2 {
      Lwr2(b0, b1, b2, b3, v0, v1, v2, v3);
    } else if byte == 3 {
      Lwr3(b0, b1, b2, b3, v0, v1, v2, v3);
    }
  }

  lemma SwlBytes(value: Word, reg: Word, byte: nat)
    requires byte < 4
    ensures Bytes(SwlMerge(value, reg, byte)) == Bytes(reg)[3 - byte..] + Bytes(value)[byte + 1..]
  {
    LwrBytes(value, reg, 3 - byte);
  }

  lemma SwrBytes(value: Word, reg: Word, byte: nat)
    requires byte < 4
    ensures Bytes(SwrMerge(value, reg, byte)) == Bytes(value)[..byte] + Bytes(reg)[..4 - byte]
  {
    LwlBytes(value, reg, 3 - byte);
  }

  // ---- memory -------------------------------------------------------------------------

  // The word at an address, aligned or not, low byte first.
  function WordAt(mem: seq<Byte>, a: nat): Word
    requires a + 4 <= |mem|
  {
    Assemble(mem[a], mem[a + 1], mem[a + 2], mem[a + 3])
  }

  lemma BytesOfWordAt(mem: seq<Byte>, a: nat)
    requires a + 4 <= |mem|
    ensures Bytes(WordAt(mem, a)) == mem[a..a + 4]
  {
    hide Assemble, Bytes;
    BytesOf(mem[a], mem[a + 1], mem[a + 2], mem[a + 3]);
  }

  // The word SWR writes back is the old one but for the register's low bytes, from the
  // address on; what SWL writes back ends at the address with the register's high bytes.
  lemma SwrPuts(mem: seq<Byte>, a: nat, c: nat, reg: Word)
    requires c == a - a % 4 && c + 4 <= |mem|
    ensures Splice(mem, c, Bytes(SwrMerge(WordAt(mem, c), reg, a % 4))) == Splice(mem, a, Bytes(reg)[..4 - a % 4])
  {
    hide SwrMerge, Bytes, WordAt;
    BytesOfWordAt(mem, c);
    SwrBytes(WordAt(mem, c), reg, a % 4);
    assert mem[..c] + mem[c..c + 4][..a % 4] == mem[..a];
  }

  lemma SwlPuts(mem: seq<Byte>, a: nat, c: nat, reg: Word)
    requires c == a - a % 4 && c + 4 <= |mem|
    ensures Splice(mem, c, Bytes(SwlMerge(WordAt(mem, c), reg, a % 4))) == Splice(mem, c, Bytes(reg)[3 - a % 4..])
  {
    hide SwlMerge, Bytes, WordAt;
    BytesOfWordAt(mem, c);
    SwlBytes(WordAt(mem, c), reg, a % 4);
  }

  // LWR at a, then LWL at a + 3 over its result: the word at a, whatever was there before.
  lemma LoadsWord(mem: seq<Byte>, a: nat, c: nat, d: nat, was: Word)
    requires c == a - a % 4 && d == (a + 3) - (a + 3) % 4 && d + 4 <= |mem| && a + 4 <= |mem|
    ensures LwlMerge(LwrMerge(was, WordAt(mem, c), a % 4), WordAt(mem, d), (a + 3) % 4) == WordAt(mem, a)
  {
    hide LwlMerge, LwrMerge, Bytes, WordAt;
    var k := a % 4;
    assert (a + 3) % 4 == if k == 0 then 3 else k - 1;
    LoadsParts(mem, a, c, d, k, was);
  }

  lemma LoadsParts(mem: seq<Byte>, a: nat, c: nat, d: nat, k: nat, was: Word)
    requires k < 4 && a == c + k && (if k == 0 then d == c else d == c + 4) && d + 4 <= |mem| && a + 4 <= |mem|
    ensures LwlMerge(LwrMerge(was, WordAt(mem, c), k), WordAt(mem, d), if k == 0 then 3 else k - 1) == WordAt(mem, a)
  {
    hide LwlMerge, LwrMerge, Bytes, WordAt;
    BytesOfWordAt(mem, a);
    BytesOfWordAt(mem, c);
    BytesOfWordAt(mem, d);
    LwrBytes(was, WordAt(mem, c), k);
    var x := LwrMerge(was, WordAt(mem, c), k);
    var e := if k == 0 then 3 else k - 1;
    LwlBytes(x, WordAt(mem, d), e);
    TwoParts(mem, a, c, d, k, Bytes(was));
    SameBytes(LwlMerge(x, WordAt(mem, d), e), WordAt(mem, a));
  }

  lemma TwoParts(mem: seq<Byte>, a: nat, c: nat, d: nat, k: nat, was: seq<Byte>)
    requires k < 4 && a == c + k && |was| == 4 && (if k == 0 then d == c else d == c + 4) && d + 4 <= |mem|
    ensures k == 0 ==> (mem[c..c + 4][k..] + was[4 - k..])[..0] + mem[d..d + 4][..4] == mem[a..a + 4]
    ensures k > 0 ==> (mem[c..c + 4][k..] + was[4 - k..])[..4 - k] + mem[d..d + 4][..k] == mem[a..a + 4]
  {
    if k > 0 {
      assert (mem[c..c + 4][k..] + was[4 - k..])[..4 - k] == mem[a..c + 4];
      assert mem[d..d + 4][..k] == mem[c + 4..a + 4];
    }
  }

  lemma SameBytes(v: Word, w: Word)
    requires Bytes(v) == Bytes(w)
    ensures v == w
  {
    AssembleBytes(v);
    AssembleBytes(w);
    hide Assemble, Byte0, Byte1, Byte2, Byte3;
    assert Bytes(v)[0] == Bytes(w)[0] && Bytes(v)[1] == Bytes(w)[1];
    assert Bytes(v)[2] == Bytes(w)[2] && Bytes(v)[3] == Bytes(w)[3];
  }

  // ---- the machine --------------------------------------------------------------------

  const NumGPRegs: nat := 32

  // DelayedLoad: the pending value arrives, and register 0 stays zero.
  function Delayed(regs: seq<Word>, reg: nat, value: Word): (r: seq<Word>)
    requires reg < |regs|
    ensures |r| == |regs|
  {
    regs[reg := value][0 := 0]
  }

  lemma DelayedAt(regs: seq<Word>, reg: nat, value: Word, rt: nat)
    requires reg < |regs| && rt < |regs|
    ensures Delayed(regs, reg, value)[rt] == if rt == 0 then 0 else if reg == rt then value else regs[rt]
  {
  }

  class Machine {
    const registers: array<Word>
    const memory: array<Byte>
    var loadReg: nat
    var loadValue: Word

    ghost predicate Valid()
      reads this, registers
    {
      registers.Length == NumGPRegs && loadReg < NumGPRegs && registers[0] == 0
    }

    // What an instruction that forwards the pending load sees in a register.
    ghost function Forwarded(rt: nat): Word
      requires Valid() && rt < NumGPRegs
      reads this, registers
    {
      if loadReg == rt then loadValue else registers[rt]
    }

    // What is in a register once the pending load has arrived.
    ghost function Arriving(rt: nat): Word
      requires Valid() && rt < NumGPRegs
      reads this, registers
    {
      if rt == 0 then 0 else Forwarded(rt)
    }

    method ReadMem(addr: int) returns (ok: bool, value: Word)
      requires addr % 4 == 0
      ensures ok <==> 0 <= addr && addr + 4 <= memory.Length
      ensures ok ==> value == WordAt(memory[..], addr)
    {
      ok, value := 0 <= addr && addr + 4 <= memory.Length, 0;
      if ok {
        value := Assemble(memory[addr], memory[addr + 1], memory[addr + 2], memory[addr + 3]);
      }
    }

    method WriteMem(addr: nat, value: Word)
      requires addr + 4 <= memory.Length
      modifies memory
      ensures memory[..] == Splice(old(memory[..]), addr, Bytes(value))
    {
      memory[addr], memory[addr + 1] := Byte0(value), Byte1(value);
      memory[addr + 2], memory[addr + 3] := Byte2(value), Byte3(value);
      hide Byte0, Byte1, Byte2, Byte3;
    }

    method DelayedLoad(nextReg: nat, nextValue: Word)
      requires Valid() && nextReg < NumGPRegs
      modifies this, registers
      ensures Valid() && loadReg == nextReg && loadValue == nextValue
      ensures registers[..] == Delayed(old(registers[..]), old(loadReg), old(loadValue))
    {
      registers[loadReg] := loadValue;
      loadReg, loadValue := nextReg, nextValue;
      registers[0] := 0;
    }

    // False: an exception, and nothing has changed.
    method Swr(addr: nat, rt: nat) returns (ok: bool)
      requires Valid() && rt < NumGPRegs
      modifies this, registers, memory
      ensures Valid() && (ok <==> addr - addr % 4 + 4 <= memory.Length)
      ensures ok ==> memory[..] == Splice(old(memory[..]), addr, Bytes(old(registers[rt]))[..4 - addr % 4])
      ensures ok ==> loadReg == 0 && loadValue == 0 && registers[..] == Delayed(old(registers[..]), old(loadReg), old(loadValue))
      ensures !ok ==> memory[..] == old(memory[..]) && registers[..] == old(registers[..]) && loadReg == old(loadReg)
    {
      hide SwrMerge, Bytes, WordAt, Splice;
      var byte := addr % 4;
      var value;
      ok, value := ReadMem(addr - byte);
      if !ok {
        return;
      }
      SwrPuts(memory[..], addr, addr - byte, registers[rt]);
      value := SwrMerge(value, registers[rt], byte);
      WriteMem(addr - byte, value);
      DelayedLoad(0, 0);
    }

    method Swl(addr: nat, rt: nat) returns (ok: bool)
      requires Valid() && rt < NumGPRegs
      modifies this, registers, memory
      ensures Valid() && (ok <==> addr - addr % 4 + 4 <= memory.Length)
      ensures ok ==> memory[..] == Splice(old(memory[..]), addr - addr % 4, Bytes(old(registers[rt]))[3 - addr % 4..])
      ensures ok ==> loadReg == 0 && loadValue == 0 && registers[..] == Delayed(old(registers[..]), old(loadReg), old(loadValue))
      ensures !ok ==> memory[..] == old(memory[..]) && registers[..] == old(registers[..]) && loadReg == old(loadReg)
    {
      hide SwlMerge, Bytes, WordAt, Splice;
      var byte := addr % 4;
      var value;
      ok, value := ReadMem(addr - byte);
      if !ok {
        return;
      }
      SwlPuts(memory[..], addr, addr - byte, registers[rt]);
      value := SwlMerge(value, registers[rt], byte);
      WriteMem(addr - byte, value);
      DelayedLoad(0, 0);
    }

    method Lwr(addr: nat, rt: nat) returns (ok: bool)
      requires Valid() && rt < NumGPRegs
      modifies this, registers
      ensures Valid() && (ok <==> addr - addr % 4 + 4 <= memory.Length)
      ensures ok ==> loadReg == rt && loadValue == LwrMerge(old(Forwarded(rt)), WordAt(memory[..], addr - addr % 4), addr % 4)
      ensures ok ==> registers[..] == Delayed(old(registers[..]), old(loadReg), old(loadValue))
      ensures !ok ==> registers[..] == old(registers[..]) && loadReg == old(loadReg) && loadValue == old(loadValue)
    {
      hide LwrMerge, Bytes, WordAt;
      var byte := addr % 4;
      var value;
      ok, value := ReadMem(addr - byte);
      if !ok {
        return;
      }
      var nextLoadValue := if loadReg == rt then loadValue else registers[rt];
      nextLoadValue := LwrMerge(nextLoadValue, value, byte);
      DelayedLoad(rt, nextLoadValue);
    }

    method Lwl(addr: nat, rt: nat) returns (ok: bool)
      requires Valid() && rt < NumGPRegs
      modifies this, registers
      ensures Valid() && (ok <==> addr - addr % 4 + 4 <= memory.Length)
      ensures ok ==> loadReg == rt && loadValue == LwlMerge(old(Forwarded(rt)), WordAt(memory[..], addr - addr % 4), addr % 4)
      ensures ok ==> registers[..] == Delayed(old(registers[..]), old(loadReg), old(loadValue))
      ensures !ok ==> registers[..] == old(registers[..]) && loadReg == old(loadReg) && loadValue == old(loadValue)
    {
      hide LwlMerge, Bytes, WordAt;
      var byte := addr % 4;
      var value;
      ok, value := ReadMem(addr - byte);
      if !ok {
        return;
      }
      var nextLoadValue := if loadReg == rt then loadValue else registers[rt];
      nextLoadValue := LwlMerge(nextLoadValue, value, byte);
      DelayedLoad(rt, nextLoadValue);
    }

    // SWR at an address and SWL three above store four bytes there and change no others. What
    // SWL stores is the register after a pending load, so these are the bytes of the register
    // exactly when the pending load leaves the high bytes that SWL stores as they are.
    method StoreUnaligned(addr: nat, rt: nat)
      requires Valid() && rt < NumGPRegs && (addr + 3) - (addr + 3) % 4 + 4 <= memory.Length
      modifies this, registers, memory
      ensures Valid()
      ensures var w, later := Bytes(old(registers[rt])), Bytes(old(Arriving(rt)));
              && memory[..] == Splice(old(memory[..]), addr, w[..SwrCount(addr)] + later[SwrCount(addr)..])
              && (memory[..] == Splice(old(memory[..]), addr, w) <==> later[SwrCount(addr)..] == w[SwrCount(addr)..])
    {
      hide SwrMerge, SwlMerge, Bytes, Splice, WordAt, SwrCount, Delayed;
      ghost var m0, w, later := memory[..], Bytes(registers[rt]), Bytes(Arriving(rt));
      DelayedAt(registers[..], loadReg, loadValue, rt);
      var ok := Swr(addr, rt);
      ghost var m1 := memory[..];
      assert Bytes(registers[..][rt]) == later;
      ok := Swl(addr + 3, rt);
      StoredBoth(m0, m1, memory[..], addr, w, later);
    }

    // LWR at an address and LWL three above, and the word there is in the register as soon
    // as the delayed load is over; in register 0 there is zero.
    method LoadUnaligned(addr: nat, rt: nat)
      requires Valid() && rt < NumGPRegs && (addr + 3) - (addr + 3) % 4 + 4 <= memory.Length
      modifies this, registers
      ensures Valid() && registers[rt] == if rt == 0 then 0 else WordAt(memory[..], addr)
    {
      hide LwrMerge, LwlMerge, Bytes, WordAt;
      ghost var was := Forwarded(rt);
      var ok := Lwr(addr, rt);
      ok := Lwl(addr + 3, rt);
      LoadsWord(memory[..], addr, addr - addr % 4, addr + 3 - (addr + 3) % 4, was);
      DelayedLoad(0, 0);
      assert registers[rt] == registers[..][rt];
    }
  }

  // Of the four bytes from an address on, those before the next word boundary, or none if the
  // address is itself one: what SWR stores and SWL, three above, does not store again.
  function SwrCount(a: nat): (k: nat)
    ensures k < 4 && (a + k) % 4 == 0
  {
    (4 - a % 4) % 4
  }

  // The low part and then the high part of a word, put side by side.
  lemma PutBoth(m0: seq<Byte>, m1: seq<Byte>, m2: seq<Byte>, a: nat, b: seq<Byte>, later: seq<Byte>)
    requires |b| == 4 == |later| && (a + 3) - (a + 3) % 4 + 4 <= |m0| && |m1| == |m0|
    requires m1 == Splice(m0, a, b[..4 - a % 4])
    requires m2 == Splice(m1, (a + 3) - (a + 3) % 4, later[3 - (a + 3) % 4..])
    ensures m2 == Splice(m0, a, b[..SwrCount(a)] + later[SwrCount(a)..])
  {
    var k := a % 4;
    if k > 0 {
      assert (a + 3) % 4 == k - 1;
    }
  }

  lemma SameSplice(m: seq<Byte>, a: nat, b: seq<Byte>, c: seq<Byte>)
    requires |b| == |c| && a + |b| <= |m|
    ensures Splice(m, a, b) == Splice(m, a, c) <==> b == c
  {
    assert Splice(m, a, b)[a..a + |b|] == b && Splice(m, a, c)[a..a + |c|] == c;
  }

  lemma SameBack(w: seq<Byte>, later: seq<Byte>, k: nat)
    requires k <= |w| == |later|
    ensures w[..k] + later[k..] == w <==> later[k..] == w[k..]
  {
    assert w == w[..k] + w[k..];
    assert (w[..k] + later[k..])[k..] == later[k..];
  }

  lemma StoredBoth(m0: seq<Byte>, m1: seq<Byte>, m2: seq<Byte>, a: nat, w: seq<Byte>, later: seq<Byte>)
    requires |w| == 4 == |later| && (a + 3) - (a + 3) % 4 + 4 <= |m0| && |m1| == |m0|
    requires m1 == Splice(m0, a, w[..4 - a % 4])
    requires m2 == Splice(m1, (a + 3) - (a + 3) % 4, later[3 - (a + 3) % 4..])
    ensures m2 == Splice(m0, a, w[..SwrCount(a)] + later[SwrCount(a)..])
    ensures m2 == Splice(m0, a, w) <==> later[SwrCount(a)..] == w[SwrCount(a)..]
  {
    hide Splice, SwrCount;
    PutBoth(m0, m1, m2, a, w, later);
    SameSplice(m0, a, w[..SwrCount(a)] + later[SwrCount(a)..], w);
    SameBack(w, later, SwrCount(a));
  }

  // With 0 in a register and a load of 1 into it pending, what is stored at address 0 is 1, and
  // not 0: the condition of StoreUnaligned can fail.
  lemma PendingLoadDiffers(mem: seq<Byte>)
    requires |mem| >= 4
    ensures var w, later, k := Bytes(0), Bytes(1), SwrCount(0);
            && Splice(mem, 0, w[..k] + later[k..]) == Splice(mem, 0, later)
            && Splice(mem, 0, later) != Splice(mem, 0, w)
  {
    assert Bytes(1)[0] == 1 && Bytes(0)[0] == 0;
    SameSplice(mem, 0, Bytes(1), Bytes(0));
  }

  // Stored and loaded back: the register's word again, unless the load is into register 0.
  lemma ReadBack(mem: seq<Byte>, a: nat, w: Word)
    requires a + 4 <= |mem|
    ensures WordAt(Splice(mem, a, Bytes(w)), a) == w
  {
    hide WordAt, Bytes;
    BytesOfWordAt(Splice(mem, a, Bytes(w)), a);
    assert Splice(mem, a, Bytes(w))[a..a + 4] == Bytes(w);
    SameBytes(WordAt(Splice(mem, a, Bytes(w)), a), w);
  }
}
