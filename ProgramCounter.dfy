/** The program counter of a state machine: a `width`-bit register stepped
    once per rising clock edge. The chip uses 5 bits (32 instruction slots);
    an earlier bench drives the same rule at 4 bits, so the width is a
    parameter throughout.

    On each edge the next value is chosen by a fixed priority: reset loads
    `wrapTop`; otherwise an enabled jump loads the jump target; otherwise,
    when counting is enabled, a counter sitting on `wrapBottom` goes back to
    `wrapTop`, and any other value is incremented modulo 2^width; with
    counting disabled the counter holds. */
module ProgramCounter {
  import opened Bits

  /** The counter's inputs during one clock edge. */
  datatype PcControl = PcControl(rst: bool, jumpEn: bool, jump: nat, pcEn: bool, wrapTop: nat, wrapBottom: nat)

  /** Every address input fits in the counter's width. */
  predicate ControlFits(width: nat, ctl: PcControl)
  {
    ctl.jump < Pow2(width) && ctl.wrapTop < Pow2(width) && ctl.wrapBottom < Pow2(width)
  }

  /** The inputs of an ordinary counting edge: no reset, no jump, enabled. */
  predicate Counting(ctl: PcControl)
  {
    !ctl.rst && !ctl.jumpEn && ctl.pcEn
  }

  /** The value of the counter after one rising edge. The increment is
      modulo 2^width: the top value rolls over to 0. */
  function NextPc(width: nat, pc: nat, ctl: PcControl): (r: nat)
    requires pc < Pow2(width) && ControlFits(width, ctl)
    ensures r < Pow2(width)
  {
    if ctl.rst then ctl.wrapTop
    else if ctl.jumpEn then ctl.jump
    else if !ctl.pcEn then pc
    else if pc == ctl.wrapBottom then ctl.wrapTop
    else if pc + 1 == Pow2(width) then 0
    else pc + 1
  }

  /** The counter after `n` edges with the same inputs. */
  function Run(width: nat, pc: nat, ctl: PcControl, n: nat): (r: nat)
    requires pc < Pow2(width) && ControlFits(width, ctl)
    ensures r < Pow2(width)
    decreases n
  {
    if n == 0 then pc else Run(width, NextPc(width, pc, ctl), ctl, n - 1)
  }

  /** The full priority order of one edge, case by case: reset beats
      everything, a jump beats counting, a disabled counter holds, and the
      wrap fires on equality with `wrapBottom` whatever `wrapTop` is;
      every other counting edge adds one modulo 2^width. */
  lemma NextPcCases(width: nat, pc: nat, ctl: PcControl)
    requires pc < Pow2(width) && ControlFits(width, ctl)
    ensures ctl.rst ==> NextPc(width, pc, ctl) == ctl.wrapTop
    ensures !ctl.rst && ctl.jumpEn ==> NextPc(width, pc, ctl) == ctl.jump
    ensures !ctl.rst && !ctl.jumpEn && !ctl.pcEn ==> NextPc(width, pc, ctl) == pc
    ensures Counting(ctl) && pc == ctl.wrapBottom ==> NextPc(width, pc, ctl) == ctl.wrapTop
    ensures Counting(ctl) && pc != ctl.wrapBottom && pc + 1 < Pow2(width) ==> NextPc(width, pc, ctl) == pc + 1
    ensures Counting(ctl) && pc != ctl.wrapBottom && pc + 1 == Pow2(width) ==> NextPc(width, pc, ctl) == 0
  {
  }

  /** With counting disabled and no reset or jump, any number of edges
      leaves the counter where it was. */
  lemma {:induction false} RunIdle(width: nat, pc: nat, ctl: PcControl, n: nat)
    requires pc < Pow2(width) && ControlFits(width, ctl)
    requires !ctl.rst && !ctl.jumpEn && !ctl.pcEn
    ensures Run(width, pc, ctl, n) == pc
    decreases n
  {
    if n > 0 {
      RunIdle(width, pc, ctl, n - 1);
    }
  }

  /** Counting edges that never meet `wrapBottom` add one per edge. */
  lemma {:induction false} RunCounts(width: nat, pc: nat, ctl: PcControl, n: nat)
    requires pc < Pow2(width) && ControlFits(width, ctl) && Counting(ctl)
    requires pc + n < Pow2(width)
    requires !(pc <= ctl.wrapBottom < pc + n)
    ensures Run(width, pc, ctl, n) == pc + n
    decreases n
  {
    if n > 0 {
      assert NextPc(width, pc, ctl) == pc + 1;
      RunCounts(width, pc + 1, ctl, n - 1);
    }
  }

  /** A counter inside the window [wrapTop, wrapBottom] stays inside it
      on every counting edge. */
  lemma NextPcInWindow(width: nat, pc: nat, ctl: PcControl)
    requires pc < Pow2(width) && ControlFits(width, ctl) && Counting(ctl)
    requires ctl.wrapTop <= pc <= ctl.wrapBottom
    ensures ctl.wrapTop <= NextPc(width, pc, ctl) <= ctl.wrapBottom
  {
  }

  /** ... and so for any number of counting edges: a program confined to
      its wrap window never leaves it. */
  lemma {:induction false} RunInWindow(width: nat, pc: nat, ctl: PcControl, n: nat)
    requires pc < Pow2(width) && ControlFits(width, ctl) && Counting(ctl)
    requires ctl.wrapTop <= pc <= ctl.wrapBottom
    ensures ctl.wrapTop <= Run(width, pc, ctl, n) <= ctl.wrapBottom
    decreases n
  {
    if n > 0 {
      NextPcInWindow(width, pc, ctl);
      RunInWindow(width, NextPc(width, pc, ctl), ctl, n - 1);
    }
  }

  /** A counter starting at `wrapTop` of a well-formed window comes back to
      `wrapTop` after exactly one pass over the window, one edge per slot. */
  lemma RunPeriod(width: nat, ctl: PcControl)
    requires ControlFits(width, ctl) && Counting(ctl)
    requires ctl.wrapTop <= ctl.wrapBottom
    ensures Run(width, ctl.wrapTop, ctl, ctl.wrapBottom - ctl.wrapTop) == ctl.wrapBottom
    ensures Run(width, ctl.wrapTop, ctl, ctl.wrapBottom - ctl.wrapTop + 1) == ctl.wrapTop
  {
    var n := ctl.wrapBottom - ctl.wrapTop;
    RunCounts(width, ctl.wrapTop, ctl, n);
    RunSplit(width, ctl.wrapTop, ctl, n, 1);
  }

  /** Running m + n edges is running m edges and then n more. */
  lemma {:induction false} RunSplit(width: nat, pc: nat, ctl: PcControl, m: nat, n: nat)
    requires pc < Pow2(width) && ControlFits(width, ctl)
    ensures Run(width, pc, ctl, m + n) == Run(width, Run(width, pc, ctl, m), ctl, n)
    decreases m
  {
    if m > 0 {
      RunSplit(width, NextPc(width, pc, ctl), ctl, m - 1, n);
    }
  }

  /** The counter register itself. */
  class PcRegister {
    const width: nat
    var pc: nat

    ghost predicate Valid()
      reads this
    {
      pc < Pow2(width)
    }

    /** A register of the given width holding `initial` (the benches either
        start from the simulator's all-zero state or load a value first). */
    constructor (width: nat, initial: nat)
      requires initial < Pow2(width)
      ensures Valid() && this.width == width && pc == initial
    {
      this.width := width;
      pc := initial;
    }

    /** One rising clock edge. */
    method Step(ctl: PcControl)
      requires Valid() && ControlFits(width, ctl)
      modifies this
      ensures Valid() && pc == NextPc(width, old(pc), ctl)
    {
      if ctl.rst {
        pc := ctl.wrapTop;
      } else if ctl.jumpEn {
        pc := ctl.jump;
      } else if ctl.pcEn {
        if pc == ctl.wrapBottom {
          pc := ctl.wrapTop;
        } else if pc + 1 == Pow2(width) {
          pc := 0;
        } else {
          pc := pc + 1;
        }
      }
    }
  }

  // ---------------------------------------------------------------------
  // The benches, replayed at any width (5 for the chip, 4 for the early
  // bench). Each returns what the bench observes.
  // ---------------------------------------------------------------------

  /** 2^width edges with counting disabled, then 2^width edges counting
      with the window covering the whole range: the counter reads 0 after
      every idle edge, and i before the i-th counting edge. */
  method OnlyIncrementsWithPcEnable(width: nat) returns (idle: seq<nat>, counted: seq<nat>)
    requires width >= 1
    ensures |idle| == Pow2(width) && forall i :: 0 <= i < |idle| ==> idle[i] == 0
    ensures |counted| == Pow2(width) && forall i :: 0 <= i < |counted| ==> counted[i] == i
  {
    var top := Pow2(width) - 1;
    var r := new PcRegister(width, 0);
    var ctl := PcControl(false, false, 0, false, 0, top);
    idle := [];
    while |idle| < Pow2(width)
      invariant r.Valid() && r.width == width && r.pc == 0 && |idle| <= Pow2(width)
      invariant forall i :: 0 <= i < |idle| ==> idle[i] == 0
    {
      r.Step(ctl);
      idle := idle + [r.pc];
    }
    ctl := ctl.(pcEn := true);
    counted := [];
    while |counted| < Pow2(width)
      invariant r.Valid() && r.width == width && |counted| <= Pow2(width)
      invariant r.pc == if |counted| < Pow2(width) then |counted| else 0
      invariant forall i :: 0 <= i < |counted| ==> counted[i] == i
      decreases Pow2(width) - |counted|
    {
      counted := counted + [r.pc];
      r.Step(ctl);
    }
  }

  /** Wrap thresholds from the bench: 6 steps to 7, wrapBottom 7 sends it
      back to wrapTop 2; with the window reversed (wrapTop 8 above
      wrapBottom 2) the wrap from 2 still goes to 8. */
  method Wraps(width: nat) returns (first: nat, second: nat, third: nat)
    requires width >= 4
    ensures first == 7 && second == 2 && third == 8
  {
    Pow2AtLeast16(width);
    var r := new PcRegister(width, 6);
    var ctl := PcControl(false, false, 0, true, 2, 7);
    r.Step(ctl);
    first := r.pc;
    r.Step(ctl);
    second := r.pc;
    ctl := ctl.(wrapTop := 8, wrapBottom := 2);
    r.Step(ctl);
    third := r.pc;
  }

  /** Away from wrapBottom the top value rolls over to 0. */
  method WrapsToZero(width: nat) returns (next: nat)
    requires width >= 4
    ensures next == 0
  {
    Pow2AtLeast16(width);
    var r := new PcRegister(width, Pow2(width) - 1);
    r.Step(PcControl(false, false, 0, true, 12, 11));
    next := r.pc;
  }

  /** Reset pulses with wrapTop running down from the top value to 0, with
      counting enabled: each edge leaves the counter at that edge's wrapTop. */
  method ResetSendsPcToWrapTop(width: nat) returns (seen: seq<nat>)
    ensures |seen| == Pow2(width) && forall k :: 0 <= k < |seen| ==> seen[k] == Pow2(width) - 1 - k
  {
    var r := new PcRegister(width, 0);
    seen := [];
    var i := Pow2(width);
    while i > 0
      invariant 0 <= i <= Pow2(width) && |seen| == Pow2(width) - i
      invariant r.Valid() && r.width == width
      invariant forall k :: 0 <= k < |seen| ==> seen[k] == Pow2(width) - 1 - k
    {
      i := i - 1;
      r.Step(PcControl(true, false, 0, true, i, Pow2(width) - 1));
      seen := seen + [r.pc];
    }
  }

  /** Jumps to every address from the top value down to 0, with counting
      enabled: each edge leaves the counter at that edge's target. */
  method JumpSendsPcToJumpAddr(width: nat) returns (seen: seq<nat>)
    ensures |seen| == Pow2(width) && forall k :: 0 <= k < |seen| ==> seen[k] == Pow2(width) - 1 - k
  {
    var r := new PcRegister(width, 0);
    seen := [];
    var i := Pow2(width);
    while i > 0
      invariant 0 <= i <= Pow2(width) && |seen| == Pow2(width) - i
      invariant r.Valid() && r.width == width
      invariant forall k :: 0 <= k < |seen| ==> seen[k] == Pow2(width) - 1 - k
    {
      i := i - 1;
      r.Step(PcControl(false, true, i, true, 0, Pow2(width) - 1));
      seen := seen + [r.pc];
    }
  }

  lemma {:induction false} Pow2AtLeast16(width: nat)
    requires width >= 4
    ensures Pow2(width) >= 16
  {
    if width > 4 {
      Pow2AtLeast16(width - 1);
    }
  }
}
