/** The output shift register (OSR) of one state machine: a 32-bit register
    that is either loaded wholesale by a MOV or drained by an OUT shift, the
    bits shifted out on an edge appearing on `osr_data_out`.  Only the
    left-shift direction is modelled. */
module OutputShiftRegister {
  import opened Bits

  /** A 5-bit count field, as carried by `shift_count` and `pull_thresh`,
      held in a word so that it can serve directly as a shift amount. */
  type CountField = c: Word | c < 32

  /** The number of bits a count field stands for: 1 to 32, the field
      value itself except that the all-zero encoding means 32. */
  function DecodeCount(c: CountField): (n: nat)
    ensures 1 <= n <= WordBits
    ensures n % WordBits == c as nat
  {
    if c == 0 then WordBits else c as nat
  }

  /** The register after shifting `w` left by the count `c` encodes, the
      vacated low positions filled with zeros. */
  function ShiftLeft(w: Word, c: CountField): (r: Word)
  {
    if c == 0 then 0 else w << c
  }

  /** The top bits that a left shift by `c` pushes out of `w`, returned
      right-aligned. */
  function ShiftedOut(w: Word, c: CountField): (out: Word)
  {
    if c == 0 then w else w >> (32 - c)
  }

  /** One edge's inputs to the OSR. */
  datatype OsrInputs = OsrInputs(movEn: bool, movIn: Word, shiftEn: bool, shiftCount: CountField)

  /** The two registers the OSR exposes. */
  datatype OsrState = OsrState(osr: Word, dataOut: Word)

  /** The inputs the benches hold between the edges they drive: no load, no
      shift, count field zero. */
  function Idle(movIn: Word): (r: OsrInputs)
  {
    OsrInputs(false, movIn, false, 0)
  }

  /** The register pair after one rising edge.  A load is given priority
      over a shift on the same edge, a case no bench drives; the data output carries the shifted-out bits
      on a shifting edge and is cleared on every other edge. */
  function OsrNext(s: OsrState, inputs: OsrInputs): (r: OsrState)
  {
    if inputs.movEn then OsrState(inputs.movIn, 0)
    else if inputs.shiftEn then OsrState(ShiftLeft(s.osr, inputs.shiftCount), ShiftedOut(s.osr, inputs.shiftCount))
    else OsrState(s.osr, 0)
  }

  /** The field value 0 is the count 32: the bench's fixture relies on it
      for both `shift_count` and `pull_thresh`. */
  lemma ZeroFieldMeansThirtyTwo()
    ensures DecodeCount(0) == 32
    ensures forall c: CountField :: DecodeCount(c) == 32 ==> c == 0
  {
  }

  /** A left shift by k moves bit j - k up to bit j and clears the k low
      bits. */
  lemma ShiftLeftBit(w: Word, k: Word, j: Word)
    requires 0 < k < 32 && j < 32
    ensures ((w << k) >> j) & 1 == if j >= k then (w >> (j - k)) & 1 else 0
  {
  }

  /** A right shift by 32 - k brings the top k bits down to the bottom. */
  lemma ShiftDownBit(w: Word, k: Word, j: Word)
    requires 0 < k < 32 && j < 32
    ensures ((w >> (32 - k)) >> j) & 1 == if j < k then (w >> (j + (32 - k))) & 1 else 0
  {
  }

  /** After a left shift by n bits, bit i of the register is bit i - n of
      the old value when i >= n, and zero below: the register keeps the
      low 32 - n bits, moved to the top. */
  lemma ShiftLeftMovesBits(w: Word, c: CountField, i: Word)
    requires i < 32
    ensures (ShiftLeft(w, c) >> i) & 1 == if c != 0 && i >= c then (w >> (i - c)) & 1 else 0
  {
    if c != 0 {
      ShiftLeftBit(w, c, i);
    }
  }

  /** After a left shift by n bits, bit i of the data output is bit
      i + 32 - n of the old value for i < n, and zero above: the data output
      holds the n top bits, right-aligned, most significant first. */
  lemma ShiftedOutHoldsTopBits(w: Word, c: CountField, i: Word)
    requires i < 32
    ensures (ShiftedOut(w, c) >> i) & 1 ==
      if c == 0 then (w >> i) & 1 else if i < c then (w >> (i + (32 - c))) & 1 else 0
  {
    if c != 0 {
      ShiftDownBit(w, c, i);
    }
  }

  /** No bit is lost or duplicated by a shift: the new register and the
      shifted-out bits never overlap, and putting the shifted-out bits back
      on top of the register shifted back down restores the old value. */
  lemma ShiftLosesNoBits(w: Word, c: CountField)
    ensures ShiftLeft(w, c) & ShiftedOut(w, c) == 0
    ensures c == 0 ==> ShiftedOut(w, c) == w
    ensures c != 0 ==> (ShiftedOut(w, c) << (32 - c)) | (ShiftLeft(w, c) >> c) == w
  {
  }

  /** An edge with neither load nor shift keeps the register. */
  lemma IdleHolds(s: OsrState, inputs: OsrInputs)
    requires !inputs.movEn && !inputs.shiftEn
    ensures OsrNext(s, inputs).osr == s.osr
    ensures OsrNext(s, inputs).dataOut == 0
  {
  }

  /** A load replaces the whole register, whatever it held and whether or
      not a shift is requested on the same edge. */
  lemma MovLoads(s: OsrState, inputs: OsrInputs)
    requires inputs.movEn
    ensures OsrNext(s, inputs).osr == inputs.movIn
  {
  }

  /** A shift by 32 (field value 0) empties the register and exposes its
      entire previous contents on the data output. */
  lemma FullShiftEmpties(s: OsrState, inputs: OsrInputs)
    requires !inputs.movEn && inputs.shiftEn && DecodeCount(inputs.shiftCount) == 32
    ensures OsrNext(s, inputs).osr == 0
    ensures OsrNext(s, inputs).dataOut == s.osr
  {
    ZeroFieldMeansThirtyTwo();
  }

  /** Shifting an empty register yields zeros on the data output and leaves
      the register empty. */
  lemma EmptyShiftsZeros(s: OsrState, inputs: OsrInputs)
    requires s.osr == 0 && !inputs.movEn
    ensures OsrNext(s, inputs) == OsrState(0, 0)
  {
  }

  /** The OSR's registers, overwritten on every rising edge. */
  class Osr {
    var osr: Word
    var dataOut: Word

    function State(): (r: OsrState)
      reads this
    {
      OsrState(osr, dataOut)
    }

    /** A register preloaded with `preload`, as the benches do through the
        simulator before the first edge. */
    constructor (preload: Word)
      ensures State() == OsrState(preload, 0)
    {
      osr, dataOut := preload, 0;
    }

    /** One rising edge. */
    method Step(inputs: OsrInputs)
      modifies this
      ensures State() == OsrNext(old(State()), inputs)
    {
      if inputs.movEn {
        osr, dataOut := inputs.movIn, 0;
      } else if inputs.shiftEn {
        osr, dataOut := ShiftLeft(osr, inputs.shiftCount), ShiftedOut(osr, inputs.shiftCount);
      } else {
        dataOut := 0;
      }
    }
  }

  /** tests/output_shift_register.cpp, MovFillsEmptyOsr: with `mov_en` low
      the value on `mov_in` is not taken; raising it loads the value on the
      next edge. */
  method MovFillsEmptyOsr() returns (before: Word, after: Word)
    ensures before == 0
    ensures after == 0x0123_4567
  {
    var o := new Osr(0);
    o.Step(Idle(0x0123_4567));
    before := o.osr;
    o.Step(OsrInputs(true, 0x0123_4567, false, 0));
    after := o.osr;
  }

  /** tests/output_shift_register.cpp, MovReplacesFullOsr: a load overwrites
      a register that already holds data. */
  method MovReplacesFullOsr() returns (preloaded: Word, after: Word)
    ensures preloaded == 0xBEEE_EEEF
    ensures after == 0xC4C4_C4C4
  {
    var o := new Osr(0xBEEE_EEEF);
    preloaded := o.osr;
    o.Step(OsrInputs(true, 0xC4C4_C4C4, false, 0));
    after := o.osr;
  }

  /** tests/output_shift_register.cpp, OutShiftsBitsToDataOut: an idle edge
      keeps the preloaded value, then a 32-bit shift empties the register
      onto the data output. */
  method OutShiftsBitsToDataOut() returns (held: Word, after: Word, out: Word)
    ensures held == 0x8765_4321
    ensures after == 0
    ensures out == 0x8765_4321
  {
    var o := new Osr(0x8765_4321);
    o.Step(Idle(0));
    held := o.osr;
    o.Step(OsrInputs(false, 0, true, 0));
    after, out := o.osr, o.dataOut;
  }
}
