/** The arbitration benches replayed on the model: each lemma sets up the
    inputs one test case sets and states the outputs that test expects. */
module OutputArbitrationTests {
  import opened Bits
  import opened OutputArbitration

  /** Every pin selecting the same core. */
  function AllPins(c: CoreIndex): (r: seq<CoreIndex>)
  {
    seq(WordBits, (i: int) => c)
  }

  /** Core-select switching core every four pins: pin i selects (i / 4) mod 4. */
  function Quads(): (r: seq<CoreIndex>)
  {
    seq(WordBits, (i: int) => (i / 4) % 4)
  }

  /** Core-select switching core every pin: pin i selects i mod 4. */
  function Stripes(): (r: seq<CoreIndex>)
  {
    seq(WordBits, (i: int) => i % 4)
  }

  /** Four machines (or cores) that drive nothing. */
  const Quiet: seq<OutputPair> := [Undriven, Undriven, Undriven, Undriven]

  /** The whole chip driving nothing, as after the benches' set-up. */
  const QuietChip: seq<seq<OutputPair>> := [Quiet, Quiet, Quiet, Quiet]

  /** One pin of the mask: the definition of MaskFrom as a fact to call. */
  lemma MaskFromStep(s: seq<CoreIndex>, c: CoreIndex, k: nat)
    requires |s| == WordBits && k < WordBits
    ensures MaskFrom(s, c, k) == (MaskFrom(s, c, k + 1) << 1) | (if s[k] == c then 1 else 0)
  {
  }

  /** Four single-bit shifts into a word are one four-bit shift. */
  lemma ShiftInFour(m: Word, b3: bool, b2: bool, b1: bool, b0: bool)
    ensures (((((((m << 1) | (if b3 then 1 else 0)) << 1) | (if b2 then 1 else 0)) << 1)
        | (if b1 then 1 else 0)) << 1) | (if b0 then 1 else 0)
      == (m << 4) | (if b3 then 8 else 0) | (if b2 then 4 else 0) | (if b1 then 2 else 0) | (if b0 then 1 else 0)
  {
  }

  /** The mask advanced four pins at a time: pins k to k + 3 form the low
      nibble under the mask of the pins from k + 4 on. */
  lemma MaskFromFour(s: seq<CoreIndex>, c: CoreIndex, k: nat)
    requires |s| == WordBits && k + 4 <= WordBits
    ensures MaskFrom(s, c, k) == (MaskFrom(s, c, k + 4) << 4)
      | (if s[k + 3] == c then 8 else 0) | (if s[k + 2] == c then 4 else 0)
      | (if s[k + 1] == c then 2 else 0) | (if s[k] == c then 1 else 0)
  {
    MaskFromStep(s, c, k);
    MaskFromStep(s, c, k + 1);
    MaskFromStep(s, c, k + 2);
    MaskFromStep(s, c, k + 3);
    ShiftInFour(MaskFrom(s, c, k + 4), s[k + 3] == c, s[k + 2] == c, s[k + 1] == c, s[k] == c);
  }

  lemma QuadsMask0(s: seq<CoreIndex>)
    requires s == Quads()
    ensures SelectMask(s, 0) == 0x000F000F
  {
    assert forall k :: 0 <= k < 4 || 16 <= k < 20 ==> s[k] == 0;
    assert forall k :: 4 <= k < 16 || 20 <= k < WordBits ==> s[k] != 0;
    MaskFromFour(s, 0, 28);
    assert MaskFrom(s, 0, 28) == 0x00000000;
    MaskFromFour(s, 0, 24);
    assert MaskFrom(s, 0, 24) == 0x00000000;
    MaskFromFour(s, 0, 20);
    assert MaskFrom(s, 0, 20) == 0x00000000;
    MaskFromFour(s, 0, 16);
    assert MaskFrom(s, 0, 16) == 0x0000000F;
    MaskFromFour(s, 0, 12);
    assert MaskFrom(s, 0, 12) == 0x000000F0;
    MaskFromFour(s, 0, 8);
    assert MaskFrom(s, 0, 8) == 0x00000F00;
    MaskFromFour(s, 0, 4);
    assert MaskFrom(s, 0, 4) == 0x0000F000;
    MaskFromFour(s, 0, 0);
  }

  lemma QuadsMask1(s: seq<CoreIndex>)
    requires s == Quads()
    ensures SelectMask(s, 1) == 0x00F000F0
  {
    assert forall k :: 4 <= k < 8 || 20 <= k < 24 ==> s[k] == 1;
    assert forall k :: 0 <= k < 4 || 8 <= k < 20 || 24 <= k < WordBits ==> s[k] != 1;
    MaskFromFour(s, 1, 28);
    assert MaskFrom(s, 1, 28) == 0x00000000;
    MaskFromFour(s, 1, 24);
    assert MaskFrom(s, 1, 24) == 0x00000000;
    MaskFromFour(s, 1, 20);
    assert MaskFrom(s, 1, 20) == 0x0000000F;
    MaskFromFour(s, 1, 16);
    assert MaskFrom(s, 1, 16) == 0x000000F0;
    MaskFromFour(s, 1, 12);
    assert MaskFrom(s, 1, 12) == 0x00000F00;
    MaskFromFour(s, 1, 8);
    assert MaskFrom(s, 1, 8) == 0x0000F000;
    MaskFromFour(s, 1, 4);
    assert MaskFrom(s, 1, 4) == 0x000F000F;
    MaskFromFour(s, 1, 0);
  }

  lemma QuadsMask2(s: seq<CoreIndex>)
    requires s == Quads()
    ensures SelectMask(s, 2) == 0x0F000F00
  {
    assert forall k :: 8 <= k < 12 || 24 <= k < 28 ==> s[k] == 2;
    assert forall k :: 0 <= k < 8 || 12 <= k < 24 || 28 <= k < WordBits ==> s[k] != 2;
    MaskFromFour(s, 2, 28);
    assert MaskFrom(s, 2, 28) == 0x00000000;
    MaskFromFour(s, 2, 24);
    assert MaskFrom(s, 2, 24) == 0x0000000F;
    MaskFromFour(s, 2, 20);
    assert MaskFrom(s, 2, 20) == 0x000000F0;
    MaskFromFour(s, 2, 16);
    assert MaskFrom(s, 2, 16) == 0x00000F00;
    MaskFromFour(s, 2, 12);
    assert MaskFrom(s, 2, 12) == 0x0000F000;
    MaskFromFour(s, 2, 8);
    assert MaskFrom(s, 2, 8) == 0x000F000F;
    MaskFromFour(s, 2, 4);
    assert MaskFrom(s, 2, 4) == 0x00F000F0;
    MaskFromFour(s, 2, 0);
  }

  lemma QuadsMask3(s: seq<CoreIndex>)
    requires s == Quads()
    ensures SelectMask(s, 3) == 0xF000F000
  {
    assert forall k :: 12 <= k < 16 || 28 <= k < 32 ==> s[k] == 3;
    assert forall k :: 0 <= k < 12 || 16 <= k < 28 || 32 <= k < WordBits ==> s[k] != 3;
    MaskFromFour(s, 3, 28);
    assert MaskFrom(s, 3, 28) == 0x0000000F;
    MaskFromFour(s, 3, 24);
    assert MaskFrom(s, 3, 24) == 0x000000F0;
    MaskFromFour(s, 3, 20);
    assert MaskFrom(s, 3, 20) == 0x00000F00;
    MaskFromFour(s, 3, 16);
    assert MaskFrom(s, 3, 16) == 0x0000F000;
    MaskFromFour(s, 3, 12);
    assert MaskFrom(s, 3, 12) == 0x000F000F;
    MaskFromFour(s, 3, 8);
    assert MaskFrom(s, 3, 8) == 0x00F000F0;
    MaskFromFour(s, 3, 4);
    assert MaskFrom(s, 3, 4) == 0x0F000F00;
    MaskFromFour(s, 3, 0);
  }

  lemma StripesMask0(s: seq<CoreIndex>)
    requires s == Stripes()
    ensures SelectMask(s, 0) == 0x11111111
  {
    MaskFromFour(s, 0, 28);
    assert MaskFrom(s, 0, 28) == 0x00000001;
    MaskFromFour(s, 0, 24);
    assert MaskFrom(s, 0, 24) == 0x00000011;
    MaskFromFour(s, 0, 20);
    assert MaskFrom(s, 0, 20) == 0x00000111;
    MaskFromFour(s, 0, 16);
    assert MaskFrom(s, 0, 16) == 0x00001111;
    MaskFromFour(s, 0, 12);
    assert MaskFrom(s, 0, 12) == 0x00011111;
    MaskFromFour(s, 0, 8);
    assert MaskFrom(s, 0, 8) == 0x00111111;
    MaskFromFour(s, 0, 4);
    assert MaskFrom(s, 0, 4) == 0x01111111;
    MaskFromFour(s, 0, 0);
  }

  lemma StripesMask1(s: seq<CoreIndex>)
    requires s == Stripes()
    ensures SelectMask(s, 1) == 0x22222222
  {
    MaskFromFour(s, 1, 28);
    assert MaskFrom(s, 1, 28) == 0x00000002;
    MaskFromFour(s, 1, 24);
    assert MaskFrom(s, 1, 24) == 0x00000022;
    MaskFromFour(s, 1, 20);
    assert MaskFrom(s, 1, 20) == 0x00000222;
    MaskFromFour(s, 1, 16);
    assert MaskFrom(s, 1, 16) == 0x00002222;
    MaskFromFour(s, 1, 12);
    assert MaskFrom(s, 1, 12) == 0x00022222;
    MaskFromFour(s, 1, 8);
    assert MaskFrom(s, 1, 8) == 0x00222222;
    MaskFromFour(s, 1, 4);
    assert MaskFrom(s, 1, 4) == 0x02222222;
    MaskFromFour(s, 1, 0);
  }

  lemma StripesMask2(s: seq<CoreIndex>)
    requires s == Stripes()
    ensures SelectMask(s, 2) == 0x44444444
  {
    MaskFromFour(s, 2, 28);
    assert MaskFrom(s, 2, 28) == 0x00000004;
    MaskFromFour(s, 2, 24);
    assert MaskFrom(s, 2, 24) == 0x00000044;
    MaskFromFour(s, 2, 20);
    assert MaskFrom(s, 2, 20) == 0x00000444;
    MaskFromFour(s, 2, 16);
    assert MaskFrom(s, 2, 16) == 0x00004444;
    MaskFromFour(s, 2, 12);
    assert MaskFrom(s, 2, 12) == 0x00044444;
    MaskFromFour(s, 2, 8);
    assert MaskFrom(s, 2, 8) == 0x00444444;
    MaskFromFour(s, 2, 4);
    assert MaskFrom(s, 2, 4) == 0x04444444;
    MaskFromFour(s, 2, 0);
  }

  lemma StripesMask3(s: seq<CoreIndex>)
    requires s == Stripes()
    ensures SelectMask(s, 3) == 0x88888888
  {
    MaskFromFour(s, 3, 28);
    assert MaskFrom(s, 3, 28) == 0x00000008;
    MaskFromFour(s, 3, 24);
    assert MaskFrom(s, 3, 24) == 0x00000088;
    MaskFromFour(s, 3, 20);
    assert MaskFrom(s, 3, 20) == 0x00000888;
    MaskFromFour(s, 3, 16);
    assert MaskFrom(s, 3, 16) == 0x00008888;
    MaskFromFour(s, 3, 12);
    assert MaskFrom(s, 3, 12) == 0x00088888;
    MaskFromFour(s, 3, 8);
    assert MaskFrom(s, 3, 8) == 0x00888888;
    MaskFromFour(s, 3, 4);
    assert MaskFrom(s, 3, 4) == 0x08888888;
    MaskFromFour(s, 3, 0);
  }

  // ---- per-core priority merge ----

  lemma FsmDrivingGpioGetsSelected()
    ensures Merge(Quiet[0 := OutputPair(0xAAAA_0000, 0xFFFF_0000)][1 := OutputPair(0x0000_5555, 0x0000_FFFF)])
         == OutputPair(0xAAAA_5555, 0xFFFF_FFFF)
  {
    MergeOfFour(Quiet[0 := OutputPair(0xAAAA_0000, 0xFFFF_0000)][1 := OutputPair(0x0000_5555, 0x0000_FFFF)]);
  }

  lemma LowestIndexedFsmGetsPriority()
    ensures Merge(Quiet[2 := OutputPair(0xDEAD_BEEF, 0xFFFF_0FF0)][3 := OutputPair(0xBAAD_F00D, 0xFFFF_FFF0)])
         == OutputPair(0xDEAD_FEE0, 0xFFFF_FFF0)
  {
    MergeOfFour(Quiet[2 := OutputPair(0xDEAD_BEEF, 0xFFFF_0FF0)][3 := OutputPair(0xBAAD_F00D, 0xFFFF_FFF0)]);
  }

  // ---- per-pin core-select ----

  lemma CoreSelectMuxWorksProperly()
    ensures CoreMux([OutputPair(0, 0xFFFF_FFFF), OutputPair(0xAAAA_AAAA, 0x9999_9999), Undriven, Undriven], AllPins(1))
         == OutputPair(0xAAAA_AAAA, 0x9999_9999)
  {
    CoreMuxUniform([OutputPair(0, 0xFFFF_FFFF), OutputPair(0xAAAA_AAAA, 0x9999_9999), Undriven, Undriven], AllPins(1), 1);
  }

  lemma CoreSelectMuxMultipleSources()
    ensures CoreMux([OutputPair(0, 0xFFFF_FFFF), OutputPair(0xD15E_A5E0, 0x1111_1111),
                     OutputPair(0xC001_D00D, 0xFFFF_FFFF), OutputPair(0x0D15_EA5E, 0x8888_8888)], Quads())
         == OutputPair(0x0050_E0E0, 0x8F1F_8F1F)
  {
    var cores := [OutputPair(0, 0xFFFF_FFFF), OutputPair(0xD15E_A5E0, 0x1111_1111),
                  OutputPair(0xC001_D00D, 0xFFFF_FFFF), OutputPair(0x0D15_EA5E, 0x8888_8888)];
    var s := Quads();
    QuadsMask0(s);
    QuadsMask1(s);
    QuadsMask2(s);
    QuadsMask3(s);
    assert MuxFrom(cores, s, 3) == OutputPair(0x0000_E000, 0x8000_8000);
    assert MuxFrom(cores, s, 2) == OutputPair(0x0000_E000, 0x8F00_8F00);
    assert MuxFrom(cores, s, 1) == OutputPair(0x0050_E0E0, 0x8F10_8F10);
  }

  // ---- the full arbitrator ----

  lemma ChipShapeOf(fsms: seq<seq<OutputPair>>)
    requires |fsms| == NumCores
    requires |fsms[0]| == FsmsPerCore && |fsms[1]| == FsmsPerCore
    requires |fsms[2]| == FsmsPerCore && |fsms[3]| == FsmsPerCore
    ensures ChipShape(fsms)
  {
  }

  lemma ChipFsmDrivingGpioGetsSelected()
    ensures var fsms := QuietChip[0 := Quiet[0 := OutputPair(0xAAAA_0000, 0xFFFF_0000)][1 := OutputPair(0x0000_5555, 0x0000_FFFF)]];
            ChipShape(fsms) && Arbitrate(fsms, AllPins(0)) == OutputPair(0xAAAA_5555, 0xFFFF_FFFF)
  {
    var fsms := QuietChip[0 := Quiet[0 := OutputPair(0xAAAA_0000, 0xFFFF_0000)][1 := OutputPair(0x0000_5555, 0x0000_FFFF)]];
    ChipShapeOf(fsms);
    CoreMuxUniform(CoreOutputs(fsms), AllPins(0), 0);
    CoreOutputsAt(fsms, 0);
    FsmDrivingGpioGetsSelected();
  }

  lemma ChipLowestIndexedFsmGetsPriority()
    ensures var fsms := QuietChip[0 := Quiet[2 := OutputPair(0xDEAD_BEEF, 0xFFFF_0FF0)][3 := OutputPair(0xBAAD_F00D, 0xFFFF_FFF0)]]
                                 [1 := Quiet[0 := OutputPair(0xAAAA_AAAA, 0xFFFF_FFFF)]];
            ChipShape(fsms) && Arbitrate(fsms, AllPins(0)) == OutputPair(0xDEAD_FEE0, 0xFFFF_FFF0)
  {
    var fsms := QuietChip[0 := Quiet[2 := OutputPair(0xDEAD_BEEF, 0xFFFF_0FF0)][3 := OutputPair(0xBAAD_F00D, 0xFFFF_FFF0)]]
                         [1 := Quiet[0 := OutputPair(0xAAAA_AAAA, 0xFFFF_FFFF)]];
    ChipShapeOf(fsms);
    CoreMuxUniform(CoreOutputs(fsms), AllPins(0), 0);
    CoreOutputsAt(fsms, 0);
    LowestIndexedFsmGetsPriority();
  }

  /** The bench writes 0xFFFFFFFF over machine 0's output and leaves its
      drive at 0; that core is not selected in any case. */
  lemma ChipCoreSelectMuxWorksProperly()
    ensures var fsms := QuietChip[0 := Quiet[0 := OutputPair(0xFFFF_FFFF, 0)]]
                                 [1 := Quiet[2 := OutputPair(0xAAAA_AAAA, 0x9999_9999)]];
            ChipShape(fsms) && Arbitrate(fsms, AllPins(1)) == OutputPair(0x8888_8888, 0x9999_9999)
  {
    var fsms := QuietChip[0 := Quiet[0 := OutputPair(0xFFFF_FFFF, 0)]]
                         [1 := Quiet[2 := OutputPair(0xAAAA_AAAA, 0x9999_9999)]];
    ChipShapeOf(fsms);
    CoreMuxUniform(CoreOutputs(fsms), AllPins(1), 1);
    CoreOutputsAt(fsms, 1);
    MergeOfFour(fsms[1]);
  }

  lemma ChipCoreSelectMuxMultipleSources()
    ensures var fsms := [Quiet[0 := OutputPair(0, 0xFFFF_FFFF)], Quiet[2 := OutputPair(0xD15E_A5E0, 0x1111_1111)],
                         Quiet[3 := OutputPair(0xC001_D00D, 0xFFFF_FFFF)], Quiet[2 := OutputPair(0x0D15_EA5E, 0x8888_8888)]];
            ChipShape(fsms) && Arbitrate(fsms, Stripes()) == OutputPair(0x4800_C80C, 0xDDDD_DDDD)
  {
    var fsms := [Quiet[0 := OutputPair(0, 0xFFFF_FFFF)], Quiet[2 := OutputPair(0xD15E_A5E0, 0x1111_1111)],
                 Quiet[3 := OutputPair(0xC001_D00D, 0xFFFF_FFFF)], Quiet[2 := OutputPair(0x0D15_EA5E, 0x8888_8888)]];
    ChipShapeOf(fsms);
    MergeOfFour(fsms[0]);
    MergeOfFour(fsms[1]);
    MergeOfFour(fsms[2]);
    MergeOfFour(fsms[3]);
    var cores := [OutputPair(0, 0xFFFF_FFFF), OutputPair(0x1110_0100, 0x1111_1111),
                  OutputPair(0xC001_D00D, 0xFFFF_FFFF), OutputPair(0x0800_8808, 0x8888_8888)];
    assert CoreOutputs(fsms) == cores;
    StripesMux(cores);
  }

  lemma StripesMux(cores: seq<OutputPair>)
    requires cores == [OutputPair(0, 0xFFFF_FFFF), OutputPair(0x1110_0100, 0x1111_1111),
                       OutputPair(0xC001_D00D, 0xFFFF_FFFF), OutputPair(0x0800_8808, 0x8888_8888)]
    ensures CoreMux(cores, Stripes()) == OutputPair(0x4800_C80C, 0xDDDD_DDDD)
  {
    var s := Stripes();
    StripesMask0(s);
    StripesMask1(s);
    StripesMask2(s);
    StripesMask3(s);
    assert MuxFrom(cores, s, 3) == OutputPair(0x0800_8808, 0x8888_8888);
    assert MuxFrom(cores, s, 2) == OutputPair(0x4800_C80C, 0xCCCC_CCCC);
    assert MuxFrom(cores, s, 1) == OutputPair(0x4800_C80C, 0xCCCC_CCCC);
  }
}
