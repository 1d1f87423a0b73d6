/** The instruction register file: 32 sixteen-bit instruction words,
    written one per rising edge when `write_en` is high, read at
    `read_addr`, and cleared by reset. */
module InstructionRegfile {
  import opened Bits

  /** Number of entries: one per value of the 5-bit address. */
  const Entries: nat := 32

  /** A 5-bit register-file address. */
  type Address = a: nat | a < Entries

  /** The store as a value after one rising edge: the word at `addr` is
      replaced by `instr` when writing is enabled. */
  function Written(m: seq<InstrWord>, writeEn: bool, addr: Address, instr: InstrWord): (r: seq<InstrWord>)
    requires |m| == Entries
    ensures |r| == Entries
    ensures r[addr] == if writeEn then instr else m[addr]
    ensures forall a :: 0 <= a < Entries && a != addr ==> r[a] == m[a]
  {
    if writeEn then m[addr := instr] else m
  }

  /** A store with every entry zero, as reset leaves it. */
  const Cleared: seq<InstrWord> := seq(Entries, _ => 0)

  /** A write is seen by a later read of the same address, and by no other
      address; with writing disabled nothing changes. */
  lemma ReadAfterWrite(m: seq<InstrWord>, writeEn: bool, addr: Address, instr: InstrWord, read: Address)
    requires |m| == Entries
    ensures Written(m, writeEn, addr, instr)[read] ==
      if writeEn && read == addr then instr else m[read]
  {
  }

  /** Writing with `write_en` low is no edge at all for the store. */
  lemma DisabledWriteKeepsStore(m: seq<InstrWord>, addr: Address, instr: InstrWord)
    requires |m| == Entries
    ensures Written(m, false, addr, instr) == m
  {
  }

  /** The register file's storage, written in place. */
  class Regfile {
    var memory: array<InstrWord>

    /** The stored words as a value. */
    function Contents(): (r: seq<InstrWord>)
      reads this, memory
    {
      memory[..]
    }

    ghost predicate Valid()
      reads this
    {
      memory.Length == Entries
    }

    /** Power-up followed by the fixture's reset pulse. */
    constructor ()
      ensures Valid() && Contents() == Cleared && fresh(memory)
    {
      memory := new InstrWord[Entries](_ => 0);
      new;
      assert memory[..] == Cleared;
    }

    /** `instr_out` for `read_addr`. */
    function Read(addr: Address): (w: InstrWord)
      reads this, memory
      requires Valid()
      ensures w == Contents()[addr]
    {
      memory[addr]
    }

    /** Reset: every entry becomes zero. */
    method Reset()
      requires Valid()
      modifies memory
      ensures Contents() == Cleared
    {
      for k := 0 to Entries
        invariant forall j :: 0 <= j < k ==> memory[j] == 0
      {
        memory[k] := 0;
      }
      assert memory[..] == Cleared;
    }

    /** One rising edge with `write_en`, `write_addr` and `instr_in`. */
    method Step(writeEn: bool, writeAddr: Address, instrIn: InstrWord)
      requires Valid()
      modifies memory
      ensures Contents() == Written(old(Contents()), writeEn, writeAddr, instrIn)
    {
      if writeEn {
        memory[writeAddr] := instrIn;
      }
    }
  }

  /** Drives one edge per address 0 to 31 with `write_en` and `instr_in`
      held, as the benches' write loops do. */
  method WriteSweep(r: Regfile, writeEn: bool, instr: InstrWord)
    requires r.Valid()
    modifies r.memory
    ensures if writeEn then r.Contents() == seq(Entries, _ => instr) else r.Contents() == old(r.Contents())
  {
    for i := 0 to Entries
      invariant forall a :: 0 <= a < i ==> r.memory[a] == if writeEn then instr else old(r.memory[a])
      invariant forall a :: i <= a < Entries ==> r.memory[a] == old(r.memory[a])
    {
      r.Step(writeEn, i, instr);
    }
    if writeEn {
      assert r.memory[..] == seq(Entries, _ => instr);
    } else {
      assert r.memory[..] == old(r.memory[..]);
    }
  }

  /** Reads every address 0 to 31 in turn, as the benches' read loops do. */
  method ReadSweep(r: Regfile) returns (seen: seq<InstrWord>)
    requires r.Valid()
    ensures seen == r.Contents()
  {
    seen := [];
    for i := 0 to Entries
      invariant seen == r.memory[..i]
    {
      seen := seen + [r.Read(i)];
    }
  }

  /** tests/instruction_regfile.cpp, TestReadWriteToRegfile: every address
      takes the written word, and every address reads it back. */
  method TestReadWriteToRegfile() returns (seen: seq<InstrWord>)
    ensures |seen| == Entries
    ensures forall a :: 0 <= a < Entries ==> seen[a] == 0x5555
  {
    var r := new Regfile();
    WriteSweep(r, true, 0x5555);
    seen := ReadSweep(r);
  }

  /** tests/instruction_regfile.cpp, TestReset: a store filled with ones
      reads all zeros after reset. */
  method TestReset() returns (seen: seq<InstrWord>)
    ensures |seen| == Entries
    ensures forall a :: 0 <= a < Entries ==> seen[a] == 0
  {
    var r := new Regfile();
    WriteSweep(r, true, 0xFFFF);
    r.Reset();
    seen := ReadSweep(r);
  }

  /** tests/instruction_regfile.cpp, TestWriteEnableFalse: with `write_en`
      low the write loop stores nothing, so every address still reads zero. */
  method TestWriteEnableFalse() returns (seen: seq<InstrWord>)
    ensures |seen| == Entries
    ensures forall a :: 0 <= a < Entries ==> seen[a] == 0
  {
    var r := new Regfile();
    WriteSweep(r, false, 0x9999);
    seen := ReadSweep(r);
  }
}
