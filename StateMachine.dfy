/** The instruction executor of one state machine, for the subset of the
    RP2040 PIO instruction set its bench exercises: SET to the scratch
    registers X and Y, and JMP on the conditions always, !X, X--, !Y and
    Y--. Instructions are 16 bits: the opcode in bits 15:13 (000 JMP,
    111 SET), the JMP condition or SET destination in bits 7:5, and the
    jump address or SET data in bits 4:0 (sections 3.4.2 and 3.4.10 of the
    RP2040 datasheet). Bits 12:8 (delay and side-set) have no effect here.

    One instruction is issued per rising edge. The program counter is the
    counter of `ProgramCounter`, counting every edge; a JMP whose
    condition holds drives the counter's jump input, which the counter
    takes on the following edge, so a jump shows in the pc one edge after
    the edge that issued it. X-- and Y-- decrement on every issue, modulo
    2^32, and jump when the register was non-zero before the decrement. */
module StateMachine {
  import opened Bits
  import opened ProgramCounter

  /** Width of the program counter: 32 instruction slots. */
  const PcWidth: nat := 5

  /** A 5-bit instruction field: a jump address or SET data. */
  type Field5 = bv5

  datatype JmpCondition = Always | XZero | XDecrement | YZero | YDecrement

  datatype SetDestination = X | Y

  /** A decoded instruction. Encodings outside the modelled subset are
      kept as their raw word. */
  datatype Instruction =
    | Jmp(condition: JmpCondition, address: Field5)
    | Set(destination: SetDestination, data: Field5)
    | Unmodelled(word: InstrWord)

  /** Bits 7:5 of a JMP for each condition. */
  function ConditionBits(c: JmpCondition): (r: InstrWord)
  {
    match c
    case Always => 0
    case XZero => 1
    case XDecrement => 2
    case YZero => 3
    case YDecrement => 4
  }

  /** Bits 7:5 of a SET for each destination. */
  function DestinationBits(d: SetDestination): (r: InstrWord)
  {
    match d
    case X => 1
    case Y => 2
  }

  /** The opcode of SET in bits 15:13. */
  const SetOpcode: InstrWord := 7

  /** The bit pattern of an instruction (delay and side-set bits zero). */
  function Encode(i: Instruction): (w: InstrWord)
  {
    match i
    case Jmp(c, a) => (ConditionBits(c) << 5) | (a as InstrWord)
    case Set(d, v) => (SetOpcode << 13) | (DestinationBits(d) << 5) | (v as InstrWord)
    case Unmodelled(w) => w
  }

  /** Bits 12:8, which the modelled instructions ignore, cleared. */
  function WithoutDelay(w: InstrWord): (r: InstrWord)
  {
    w & 0xE0FF
  }

  /** The instruction a 16-bit word encodes. A modelled instruction
      re-encodes to the word up to bits 12:8; anything else is kept as it
      came. */
  function Decode(w: InstrWord): (i: Instruction)
    ensures !i.Unmodelled? ==> Encode(i) == WithoutDelay(w)
    ensures i.Unmodelled? ==> i.word == w
  {
    var opcode, select, low := w >> 13, (w >> 5) & 7, (w & 0x1F) as Field5;
    if opcode == 0 && select == 0 then Jmp(Always, low)
    else if opcode == 0 && select == 1 then Jmp(XZero, low)
    else if opcode == 0 && select == 2 then Jmp(XDecrement, low)
    else if opcode == 0 && select == 3 then Jmp(YZero, low)
    else if opcode == 0 && select == 4 then Jmp(YDecrement, low)
    else if opcode == SetOpcode && select == 1 then Set(X, low)
    else if opcode == SetOpcode && select == 2 then Set(Y, low)
    else Unmodelled(w)
  }

  /** An instruction value that its own encoding decodes back to: every
      JMP and SET, and a raw word outside the modelled subset. */
  predicate Canonical(i: Instruction)
  {
    i.Unmodelled? ==> Decode(i.word).Unmodelled?
  }

  /** Decoding inverts encoding. */
  lemma DecodeEncode(i: Instruction)
    requires Canonical(i)
    ensures Decode(Encode(i)) == i
  {
    match i
    case Jmp(c, a) =>
      JmpFields(c, a);
    case Set(d, v) =>
      SetFields(d, v);
    case Unmodelled(w) =>
  }

  lemma JmpFields(c: JmpCondition, a: Field5)
    ensures Encode(Jmp(c, a)) >> 13 == 0
    ensures (Encode(Jmp(c, a)) >> 5) & 7 == ConditionBits(c)
    ensures (Encode(Jmp(c, a)) & 0x1F) as Field5 == a
  {
  }

  lemma SetFields(d: SetDestination, v: Field5)
    ensures Encode(Set(d, v)) >> 13 == SetOpcode
    ensures (Encode(Set(d, v)) >> 5) & 7 == DestinationBits(d)
    ensures (Encode(Set(d, v)) & 0x1F) as Field5 == v
  {
  }

  /** Clearing bits 12:8 keeps the opcode, the condition or destination
      and the 5-bit field. */
  lemma DelayFields(w: InstrWord)
    ensures WithoutDelay(w) >> 13 == w >> 13
    ensures (WithoutDelay(w) >> 5) & 7 == (w >> 5) & 7
    ensures WithoutDelay(w) & 0x1F == w & 0x1F
  {
  }

  /** Bits 12:8 do not change what a word decodes to: a modelled word
      decodes to the same instruction with them cleared, and a word outside
      the subset stays outside it. */
  lemma DelayIgnored(w: InstrWord)
    ensures Decode(w).Unmodelled? <==> Decode(WithoutDelay(w)).Unmodelled?
    ensures !Decode(w).Unmodelled? ==> Decode(w) == Decode(WithoutDelay(w))
  {
    DelayFields(w);
  }

  /** The jump the counter takes on the next edge, if any. */
  datatype PendingJump = NoJump | JumpTo(address: nat)

  /** The wrap window of the machine's program counter. */
  datatype FsmConfig = FsmConfig(wrapTop: nat, wrapBottom: nat)

  /** The machine's registers. */
  datatype FsmState = FsmState(pc: nat, x: Word, y: Word, pending: PendingJump)

  predicate ConfigFits(cfg: FsmConfig)
  {
    cfg.wrapTop < Pow2(PcWidth) && cfg.wrapBottom < Pow2(PcWidth)
  }

  /** The pc and any pending jump address fit in five bits. */
  predicate FsmWf(s: FsmState)
  {
    s.pc < Pow2(PcWidth) && (s.pending.JumpTo? ==> s.pending.address < Pow2(PcWidth))
  }

  /** The state after the reset pulse: pc at the wrap target, scratch
      registers 0, no jump pending. */
  function ResetFsm(cfg: FsmConfig): (r: FsmState)
  {
    FsmState(cfg.wrapTop, 0, 0, NoJump)
  }

  /** Whether a JMP condition holds, judged on the registers before the
      edge (for X-- and Y--, before the decrement). */
  predicate JumpTaken(c: JmpCondition, x: Word, y: Word)
  {
    match c
    case Always => true
    case XZero => x == 0
    case XDecrement => x != 0
    case YZero => y == 0
    case YDecrement => y != 0
  }

  /** Subtraction of one modulo 2^32: 0 goes to all ones. */
  function Decrement(w: Word): (r: Word)
  {
    w - 1
  }

  /** The counter's inputs on an edge: always counting, jumping when a
      jump is pending. */
  function PcInputs(cfg: FsmConfig, pending: PendingJump): (r: PcControl)
  {
    PcControl(false, pending.JumpTo?, if pending.JumpTo? then pending.address else 0, true, cfg.wrapTop, cfg.wrapBottom)
  }

  /** The state after one rising edge on which the decoded instruction
      `i` is executed. */
  function Execute(cfg: FsmConfig, s: FsmState, i: Instruction): (r: FsmState)
    requires ConfigFits(cfg) && FsmWf(s)
    ensures FsmWf(r)
  {
    var pc := NextPc(PcWidth, s.pc, PcInputs(cfg, s.pending));
    match i
    case Jmp(c, a) =>
      FsmState(pc,
               if c == XDecrement then Decrement(s.x) else s.x,
               if c == YDecrement then Decrement(s.y) else s.y,
               if JumpTaken(c, s.x, s.y) then JumpTo(a as nat) else NoJump)
    case Set(d, v) =>
      FsmState(pc, if d == X then v as Word else s.x, if d == Y then v as Word else s.y, NoJump)
    case Unmodelled(_) =>
      FsmState(pc, s.x, s.y, NoJump)
  }

  /** The state after one rising edge on which `instr` is issued. */
  function FsmNext(cfg: FsmConfig, s: FsmState, instr: InstrWord): (r: FsmState)
    requires ConfigFits(cfg) && FsmWf(s)
    ensures FsmWf(r)
  {
    Execute(cfg, s, Decode(instr))
  }

  /** The counter moves as `ProgramCounter` prescribes whatever is issued:
      to a pending jump's address, otherwise one step through the wrap
      window. The pc never depends on the instruction of the same edge. */
  lemma PcFollowsPending(cfg: FsmConfig, s: FsmState, instr: InstrWord)
    requires ConfigFits(cfg) && FsmWf(s)
    ensures s.pending.JumpTo? ==> FsmNext(cfg, s, instr).pc == s.pending.address
    ensures s.pending.NoJump? && s.pc == cfg.wrapBottom ==> FsmNext(cfg, s, instr).pc == cfg.wrapTop
    ensures s.pending.NoJump? && s.pc != cfg.wrapBottom && s.pc + 1 < Pow2(PcWidth) ==> FsmNext(cfg, s, instr).pc == s.pc + 1
    ensures s.pending.NoJump? && s.pc != cfg.wrapBottom && s.pc + 1 == Pow2(PcWidth) ==> FsmNext(cfg, s, instr).pc == 0
  {
  }

  /** Executing a word and executing it with bits 12:8 cleared lead to the
      same state. */
  lemma ExecutionIgnoresDelay(cfg: FsmConfig, s: FsmState, instr: InstrWord)
    requires ConfigFits(cfg) && FsmWf(s)
    ensures FsmNext(cfg, s, instr) == FsmNext(cfg, s, WithoutDelay(instr))
  {
    DelayIgnored(instr);
  }

  /** A JMP leaves a jump pending exactly when its condition held, to its
      own address; only X-- and Y-- touch the scratch registers, each
      decrementing its register modulo 2^32 on every issue. */
  lemma JmpEffect(cfg: FsmConfig, s: FsmState, c: JmpCondition, a: Field5)
    requires ConfigFits(cfg) && FsmWf(s)
    ensures FsmNext(cfg, s, Encode(Jmp(c, a))).pending.JumpTo? <==> JumpTaken(c, s.x, s.y)
    ensures JumpTaken(c, s.x, s.y) ==> FsmNext(cfg, s, Encode(Jmp(c, a))).pending == JumpTo(a as nat)
    ensures FsmNext(cfg, s, Encode(Jmp(c, a))).x == if c == XDecrement then Decrement(s.x) else s.x
    ensures FsmNext(cfg, s, Encode(Jmp(c, a))).y == if c == YDecrement then Decrement(s.y) else s.y
  {
    DecodeEncode(Jmp(c, a));
  }

  /** X-- and Y-- on a zero register: no jump, and the register wraps to
      all ones. */
  lemma DecrementFromZero(cfg: FsmConfig, s: FsmState, a: Field5)
    requires ConfigFits(cfg) && FsmWf(s)
    ensures s.x == 0 ==> FsmNext(cfg, s, Encode(Jmp(XDecrement, a))).x == 0xFFFF_FFFF
    ensures s.x == 0 ==> FsmNext(cfg, s, Encode(Jmp(XDecrement, a))).pending == NoJump
    ensures s.y == 0 ==> FsmNext(cfg, s, Encode(Jmp(YDecrement, a))).y == 0xFFFF_FFFF
    ensures s.y == 0 ==> FsmNext(cfg, s, Encode(Jmp(YDecrement, a))).pending == NoJump
  {
    JmpEffect(cfg, s, XDecrement, a);
    JmpEffect(cfg, s, YDecrement, a);
  }

  /** SET writes the zero-extended 5-bit data into its destination and
      leaves the other scratch register alone. */
  lemma SetEffect(cfg: FsmConfig, s: FsmState, d: SetDestination, v: Field5)
    requires ConfigFits(cfg) && FsmWf(s)
    ensures FsmNext(cfg, s, Encode(Set(d, v))).x == if d == X then v as Word else s.x
    ensures FsmNext(cfg, s, Encode(Set(d, v))).y == if d == Y then v as Word else s.y
    ensures d == X ==> FsmNext(cfg, s, Encode(Set(d, v))).x >> 5 == 0
    ensures d == Y ==> FsmNext(cfg, s, Encode(Set(d, v))).y >> 5 == 0
    ensures FsmNext(cfg, s, Encode(Set(d, v))).pending == NoJump
  {
    DecodeEncode(Set(d, v));
  }

  /** A JMP whose condition holds puts its address in the pc two edges
      after it is issued, whatever the second edge issues. */
  lemma JumpLandsNextEdge(cfg: FsmConfig, s: FsmState, c: JmpCondition, a: Field5, next: InstrWord)
    requires ConfigFits(cfg) && FsmWf(s) && JumpTaken(c, s.x, s.y)
    ensures FsmNext(cfg, FsmNext(cfg, s, Encode(Jmp(c, a))), next).pc == a as nat
  {
    JmpEffect(cfg, s, c, a);
    PcFollowsPending(cfg, FsmNext(cfg, s, Encode(Jmp(c, a))), next);
  }

  /** The executor: its registers and its fixed wrap window. */
  class Fsm {
    const config: FsmConfig
    var pc: nat
    var x: Word
    var y: Word
    var pending: PendingJump

    function State(): (r: FsmState)
      reads this
    {
      FsmState(pc, x, y, pending)
    }

    ghost predicate Valid()
      reads this
    {
      ConfigFits(config) && FsmWf(State())
    }

    /** Power-up followed by the reset pulse. */
    constructor (config: FsmConfig)
      requires ConfigFits(config)
      ensures Valid() && this.config == config && State() == ResetFsm(config)
    {
      this.config := config;
      pc, x, y, pending := config.wrapTop, 0, 0, NoJump;
    }

    /** The reset pulse: the counter goes to the wrap target, the scratch
        registers and any pending jump are cleared. */
    method Reset()
      requires ConfigFits(config)
      modifies this
      ensures Valid() && State() == ResetFsm(config)
    {
      pc, x, y, pending := config.wrapTop, 0, 0, NoJump;
    }

    /** One rising clock edge issuing `instr`. */
    method Step(instr: InstrWord)
      requires Valid()
      modifies this
      ensures Valid() && State() == FsmNext(config, old(State()), instr)
    {
      Issue(Decode(instr));
    }

    /** One rising clock edge executing the decoded instruction `i`. */
    method Issue(i: Instruction)
      requires Valid()
      modifies this
      ensures Valid() && State() == Execute(config, old(State()), i)
    {
      var nextPc := NextPc(PcWidth, pc, PcInputs(config, pending));
      var nextX, nextY, nextPending := x, y, NoJump;
      match i {
        case Jmp(c, a) =>
          if c == XDecrement {
            nextX := Decrement(x);
          }
          if c == YDecrement {
            nextY := Decrement(y);
          }
          if JumpTaken(c, x, y) {
            nextPending := JumpTo(a as nat);
          }
        case Set(d, v) =>
          if d == X {
            nextX := v as Word;
          } else {
            nextY := v as Word;
          }
        case Unmodelled(_) =>
      }
      pc, x, y, pending := nextPc, nextX, nextY, nextPending;
    }
  }

  // ---------------------------------------------------------------------
  // The benches, replayed on a machine whose wrap window is the whole
  // program memory. The `...Edges` lemmas evaluate the bench's edges.
  // ---------------------------------------------------------------------

  /** The wrap window 0..31: the counter only rolls over from 31 to 0. */
  const FullWindow := FsmConfig(0, 31)

  lemma FullWindowFits()
    ensures ConfigFits(FullWindow) && Pow2(PcWidth) == 32
  {
  }

  lemma JumpAlwaysEdges()
    ensures FsmNext(FullWindow, ResetFsm(FullWindow), 0x0015) == FsmState(1, 0, 0, JumpTo(21))
    ensures FsmNext(FullWindow, FsmState(1, 0, 0, JumpTo(21)), 0x0015) == FsmState(21, 0, 0, JumpTo(21))
  {
  }

  /** JMP always to 0b10101: the pc holds the address one edge after the
      issuing edge. */
  method TestJumpUnconditionalInstruction() returns (pc: nat)
    ensures pc == 21
  {
    FullWindowFits();
    JumpAlwaysEdges();
    var m := new Fsm(FullWindow);
    m.Step(0x0015);
    m.Step(0x0015);
    pc := m.pc;
  }

  lemma JumpXZeroEdges()
    ensures FsmNext(FullWindow, ResetFsm(FullWindow), 0x002A) == FsmState(1, 0, 0, JumpTo(10))
    ensures FsmNext(FullWindow, FsmState(1, 0, 0, JumpTo(10)), 0xE035) == FsmState(10, 21, 0, NoJump)
    ensures FsmNext(FullWindow, FsmState(10, 21, 0, NoJump), 0x003E) == FsmState(11, 21, 0, NoJump)
    ensures FsmNext(FullWindow, FsmState(11, 21, 0, NoJump), 0x003E) == FsmState(12, 21, 0, NoJump)
  {
  }

  /** JMP !X (0x002A, to 0b01010) with X = 0 is taken, landing while
      SET X, 0b10101 (0xE035) executes; JMP !X (0x003E) issued twice with
      X non-zero is not taken, so the pc advances by two. */
  method TestJumpXZero() returns (landed: nat, advanced: nat)
    ensures landed == 10 && advanced == 12
  {
    FullWindowFits();
    JumpXZeroEdges();
    var m := new Fsm(FullWindow);
    m.Step(0x002A);
    m.Step(0xE035);
    landed := m.pc;
    m.Step(0x003E);
    m.Step(0x003E);
    advanced := m.pc;
  }

  lemma JumpYZeroEdges()
    ensures FsmNext(FullWindow, ResetFsm(FullWindow), 0x006A) == FsmState(1, 0, 0, JumpTo(10))
    ensures FsmNext(FullWindow, FsmState(1, 0, 0, JumpTo(10)), 0xE055) == FsmState(10, 0, 21, NoJump)
    ensures FsmNext(FullWindow, FsmState(10, 0, 21, NoJump), 0x007E) == FsmState(11, 0, 21, NoJump)
    ensures FsmNext(FullWindow, FsmState(11, 0, 21, NoJump), 0x007E) == FsmState(12, 0, 21, NoJump)
  {
  }

  /** The same with Y: JMP !Y (0x006A) taken with Y = 0, SET Y, 0b10101
      (0xE055), then JMP !Y (0x007E) twice not taken. */
  method TestJumpYZero() returns (landed: nat, advanced: nat)
    ensures landed == 10 && advanced == 12
  {
    FullWindowFits();
    JumpYZeroEdges();
    var m := new Fsm(FullWindow);
    m.Step(0x006A);
    m.Step(0xE055);
    landed := m.pc;
    m.Step(0x007E);
    m.Step(0x007E);
    advanced := m.pc;
  }

  lemma XDecrementEdges()
    ensures FsmNext(FullWindow, ResetFsm(FullWindow), 0xE021) == FsmState(1, 1, 0, NoJump)
    ensures FsmNext(FullWindow, FsmState(1, 1, 0, NoJump), 0x004A) == FsmState(2, 0, 0, JumpTo(10))
    ensures FsmNext(FullWindow, FsmState(2, 0, 0, JumpTo(10)), 0x005F) == FsmState(10, 0xFFFF_FFFF, 0, NoJump)
    ensures FsmNext(FullWindow, FsmState(10, 0xFFFF_FFFF, 0, NoJump), 0x005F) == FsmState(11, 0xFFFF_FFFE, 0, JumpTo(31))
  {
  }

  /** SET X, 1 (0xE021); JMP X-- (0x004A, to 0b01010) decrements X to 0
      and is taken; JMP X-- (0x005F) with X = 0 wraps X to all ones and is
      not taken, so the pc moves on from the first jump's address. */
  method TestJumpXNonZeroDecrement() returns (decremented: Word, landed: nat, wrapped: Word, advanced: nat)
    ensures decremented == 0 && landed == 10 && wrapped == 0xFFFF_FFFF && advanced == 11
  {
    FullWindowFits();
    XDecrementEdges();
    var m := new Fsm(FullWindow);
    m.Step(0xE021);
    m.Step(0x004A);
    decremented := m.x;
    m.Step(0x005F);
    landed, wrapped := m.pc, m.x;
    m.Step(0x005F);
    advanced := m.pc;
  }

  lemma YDecrementEdges()
    ensures FsmNext(FullWindow, ResetFsm(FullWindow), 0xE041) == FsmState(1, 0, 1, NoJump)
    ensures FsmNext(FullWindow, FsmState(1, 0, 1, NoJump), 0x008A) == FsmState(2, 0, 0, JumpTo(10))
    ensures FsmNext(FullWindow, FsmState(2, 0, 0, JumpTo(10)), 0x009F) == FsmState(10, 0, 0xFFFF_FFFF, NoJump)
    ensures FsmNext(FullWindow, FsmState(10, 0, 0xFFFF_FFFF, NoJump), 0x009F) == FsmState(11, 0, 0xFFFF_FFFE, JumpTo(31))
  {
  }

  /** The same with Y: SET Y, 1 (0xE041), JMP Y-- (0x008A) taken, JMP Y--
      (0x009F) from Y = 0 not taken with Y wrapping to all ones. */
  method TestJumpYNonZeroDecrement() returns (decremented: Word, landed: nat, wrapped: Word, advanced: nat)
    ensures decremented == 0 && landed == 10 && wrapped == 0xFFFF_FFFF && advanced == 11
  {
    FullWindowFits();
    YDecrementEdges();
    var m := new Fsm(FullWindow);
    m.Step(0xE041);
    m.Step(0x008A);
    decremented := m.y;
    m.Step(0x009F);
    landed, wrapped := m.pc, m.y;
    m.Step(0x009F);
    advanced := m.pc;
  }

  lemma SetImmediateEdges()
    ensures FsmNext(FullWindow, ResetFsm(FullWindow), 0xE035) == FsmState(1, 21, 0, NoJump)
    ensures FsmNext(FullWindow, FsmState(1, 21, 0, NoJump), 0xE04E) == FsmState(2, 21, 14, NoJump)
    ensures FsmNext(FullWindow, FsmState(2, 21, 14, NoJump), 0x0000) == FsmState(3, 21, 14, JumpTo(0))
  {
  }

  /** SET X, 0b10101 (0xE035) and SET Y, 0b01110 (0xE04E) each show after
      one edge; a following JMP (0x0000) leaves both registers as they
      were. */
  method TestSetImmediateXY() returns (x1: Word, y2: Word, x3: Word, y3: Word)
    ensures x1 == 21 && y2 == 14 && x3 == 21 && y3 == 14
  {
    FullWindowFits();
    SetImmediateEdges();
    var m := new Fsm(FullWindow);
    m.Step(0xE035);
    x1 := m.x;
    m.Step(0xE04E);
    y2 := m.y;
    m.Step(0x0000);
    x3, y3 := m.x, m.y;
  }
}
