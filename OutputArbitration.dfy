/** Output arbitration: the purely combinational logic that turns the
    (value, drive) pairs of every state machine into one (value, drive) pair
    per GPIO pin. Nothing here has state or a clock: every result is a
    function of the current inputs alone.

    There are two layers. Inside a core, the four machines' pairs are merged
    by fixed priority: for each bit, the lowest-indexed machine that drives
    the bit supplies its value, and a bit nobody drives reads 0 and stays
    undriven. Across cores, a per-pin core-select signal picks, for each pin,
    which core's merged pair reaches that pin. The full arbitrator is the
    second layer applied to the results of the first. */
module OutputArbitration {
  import opened Bits

  /** A machine's (or a core's) output bus and drive mask for one cycle;
      drive bit i set means "this source asserts bit i". */
  datatype OutputPair = OutputPair(value: Word, drive: Word)

  /** The pair of a source that drives nothing. */
  const Undriven := OutputPair(0, 0)

  /** Machines per core, cores per chip. */
  const FsmsPerCore: nat := 4
  const NumCores: nat := 4

  /** The index of a core, as carried by one pin's core-select signal. */
  type CoreIndex = c: nat | c < NumCores

  // ---------------------------------------------------------------------
  // Layer 1: per-core priority merge
  // ---------------------------------------------------------------------

  /** One priority stage: where `hi` drives, its value wins; elsewhere the
      lower-priority pair `lo` shows through. */
  function Combine(hi: OutputPair, lo: OutputPair): (r: OutputPair)
  {
    OutputPair((hi.value & hi.drive) | (lo.value & !hi.drive), hi.drive | lo.drive)
  }

  /** Priority merge of an ordered sequence of pairs, lowest index first:
      a chain of priority stages ending in the undriven pair. */
  function Merge(ps: seq<OutputPair>): (r: OutputPair)
  {
    if |ps| == 0 then Undriven else Combine(ps[0], Merge(ps[1..]))
  }

  lemma CombineWithinDrive(hi: OutputPair, lo: OutputPair)
    requires lo.value & !lo.drive == 0
    ensures Combine(hi, lo).value & !Combine(hi, lo).drive == 0
  {
  }

  /** Every value bit the merge does not drive is 0. */
  lemma {:induction false} MergeWithinDrive(ps: seq<OutputPair>)
    ensures Merge(ps).value & !Merge(ps).drive == 0
  {
    if |ps| > 0 {
      MergeWithinDrive(ps[1..]);
      CombineWithinDrive(ps[0], Merge(ps[1..]));
    }
  }

  /** Some pair in `ps` drives bit `i`. */
  predicate DrivenBy(ps: seq<OutputPair>, i: BitIndex)
  {
    exists k :: 0 <= k < |ps| && Bit(ps[k].drive, i)
  }

  /** Pair `k` is the lowest-indexed pair of `ps` that drives bit `i`. */
  predicate FirstDriver(ps: seq<OutputPair>, k: nat, i: BitIndex)
  {
    k < |ps| && Bit(ps[k].drive, i) &&
    forall j :: 0 <= j < k ==> !Bit(ps[j].drive, i)
  }

  lemma CombineDriveBit(hi: OutputPair, lo: OutputPair, i: BitIndex)
    ensures Bit(Combine(hi, lo).drive, i) <==> Bit(hi.drive, i) || Bit(lo.drive, i)
  {
    BitOr(Combine(hi, lo).drive, hi.drive, lo.drive, i);
  }

  lemma CombineValueBit(hi: OutputPair, lo: OutputPair, i: BitIndex)
    ensures Bit(Combine(hi, lo).value, i) <==> if Bit(hi.drive, i) then Bit(hi.value, i) else Bit(lo.value, i)
  {
    PriorityBit(Combine(hi, lo).value, hi.value, hi.drive, lo.value, i);
  }

  lemma PriorityBit(w: Word, hv: Word, hd: Word, lv: Word, i: BitIndex)
    requires w == (hv & hd) | (lv & !hd)
    ensures Bit(w, i) <==> if Bit(hd, i) then Bit(hv, i) else Bit(lv, i)
  {
  }

  /** Some pair of a non-empty sequence drives bit i exactly when its
      first pair does or some pair of the rest does. */
  lemma DrivenByCons(ps: seq<OutputPair>, i: BitIndex)
    requires |ps| > 0
    ensures DrivenBy(ps, i) <==> Bit(ps[0].drive, i) || DrivenBy(ps[1..], i)
  {
    var rest := ps[1..];
    if DrivenBy(rest, i) {
      var k :| 0 <= k < |rest| && Bit(rest[k].drive, i);
      assert ps[k + 1] == rest[k];
    }
    if DrivenBy(ps, i) && !Bit(ps[0].drive, i) {
      var k :| 0 <= k < |ps| && Bit(ps[k].drive, i);
      assert rest[k - 1] == ps[k];
    }
  }

  /** The merged drive bit i is set exactly when some pair drives bit i. */
  lemma {:induction false} MergeDriveBit(ps: seq<OutputPair>, i: BitIndex)
    ensures Bit(Merge(ps).drive, i) <==> DrivenBy(ps, i)
  {
    if |ps| == 0 {
      BitZero(i);
    } else {
      MergeDriveBit(ps[1..], i);
      CombineDriveBit(ps[0], Merge(ps[1..]), i);
      DrivenByCons(ps, i);
    }
  }

  /** Where pair k is the first to drive bit i, the merged value bit i is
      pair k's value bit: lower-indexed machines win. */
  lemma {:induction false} MergeValueBit(ps: seq<OutputPair>, k: nat, i: BitIndex)
    requires FirstDriver(ps, k, i)
    ensures Bit(Merge(ps).value, i) <==> Bit(ps[k].value, i)
  {
    var rest := ps[1..];
    CombineValueBit(ps[0], Merge(rest), i);
    if k > 0 {
      assert !Bit(ps[0].drive, i);
      assert FirstDriver(rest, k - 1, i) by {
        assert rest[k - 1] == ps[k];
        forall j | 0 <= j < k - 1 ensures !Bit(rest[j].drive, i) {
          assert rest[j] == ps[j + 1];
        }
      }
      MergeValueBit(rest, k - 1, i);
      assert rest[k - 1] == ps[k];
    }
  }

  lemma UndrivenBit(v: Word, d: Word, i: BitIndex)
    requires v & !d == 0 && !Bit(d, i)
    ensures !Bit(v, i)
  {
  }

  /** A bit that no pair drives reads 0 in the merged value. */
  lemma MergeUndrivenBit(ps: seq<OutputPair>, i: BitIndex)
    requires !DrivenBy(ps, i)
    ensures !Bit(Merge(ps).value, i)
  {
    MergeDriveBit(ps, i);
    MergeWithinDrive(ps);
    UndrivenBit(Merge(ps).value, Merge(ps).drive, i);
  }

  /** A merge of four machines, written out as its chain of stages. */
  lemma MergeOfFour(ps: seq<OutputPair>)
    requires |ps| == FsmsPerCore
    ensures Merge(ps) == Combine(ps[0], Combine(ps[1], Combine(ps[2], Combine(ps[3], Undriven))))
  {
    assert Merge(ps[4..]) == Undriven;
    assert ps[3..][1..] == ps[4..];
    assert Merge(ps[3..]) == Combine(ps[3], Undriven);
    assert ps[2..][1..] == ps[3..];
    assert Merge(ps[2..]) == Combine(ps[2], Merge(ps[3..]));
    assert ps[1..][1..] == ps[2..];
    assert Merge(ps[1..]) == Combine(ps[1], Merge(ps[2..]));
  }

  /** The merged drive of a core is the OR of its four machines' drives. */
  lemma MergeDriveIsUnion(ps: seq<OutputPair>)
    requires |ps| == FsmsPerCore
    ensures Merge(ps).drive == ps[0].drive | ps[1].drive | ps[2].drive | ps[3].drive
  {
    MergeOfFour(ps);
  }

  /** Drive mask d shares no bit with the drive of any pair of `qs`. */
  predicate DisjointFromAll(d: Word, qs: seq<OutputPair>)
  {
    |qs| == 0 || (d & qs[0].drive == 0 && DisjointFromAll(d, qs[1..]))
  }

  /** No two pairs of `ps` drive the same bit: each pair's drive is
      disjoint from the drives of all pairs after it. */
  predicate DisjointDrives(ps: seq<OutputPair>)
  {
    |ps| == 0 || (DisjointFromAll(ps[0].drive, ps[1..]) && DisjointDrives(ps[1..]))
  }

  /** Each pair's value on the bits it drives, all ORed together: what the
      merge must produce when no two pairs compete for a bit. */
  function DrivenValues(ps: seq<OutputPair>): (r: Word)
  {
    if |ps| == 0 then 0 else (ps[0].value & ps[0].drive) | DrivenValues(ps[1..])
  }

  lemma DisjointFromCombine(d: Word, hi: OutputPair, lo: OutputPair)
    requires d & hi.drive == 0 && d & lo.drive == 0
    ensures d & Combine(hi, lo).drive == 0
  {
  }

  /** A drive mask disjoint from every pair's drive is disjoint from the
      merged drive. */
  lemma {:induction false} DisjointFromMerge(d: Word, qs: seq<OutputPair>)
    requires DisjointFromAll(d, qs)
    ensures d & Merge(qs).drive == 0
  {
    if |qs| > 0 {
      DisjointFromMerge(d, qs[1..]);
      DisjointFromCombine(d, qs[0], Merge(qs[1..]));
    }
  }

  /** A priority stage whose high input drives none of the bits the low
      input drives, where the low value lies inside its own drive, just
      ORs the two together. */
  lemma CombineDisjoint(hi: OutputPair, lo: OutputPair)
    requires lo.value & !lo.drive == 0 && hi.drive & lo.drive == 0
    ensures Combine(hi, lo).value == (hi.value & hi.drive) | lo.value
  {
  }

  lemma MergeDisjointStep(ps: seq<OutputPair>, lo: OutputPair, dv: Word)
    requires |ps| > 0 && lo == Merge(ps[1..]) && dv == DrivenValues(ps[1..]) && lo.value == dv
    requires lo.value & !lo.drive == 0 && ps[0].drive & lo.drive == 0
    ensures Merge(ps).value == DrivenValues(ps)
  {
    CombineDisjoint(ps[0], lo);
  }

  /** With pairwise disjoint drives there is no conflict: the priority merge
      gives each pair's own value on exactly the bits it drives. */
  lemma {:induction false} MergeDisjoint(ps: seq<OutputPair>)
    requires DisjointDrives(ps)
    ensures Merge(ps).value == DrivenValues(ps)
  {
    if |ps| > 0 {
      var rest := ps[1..];
      MergeDisjoint(rest);
      MergeWithinDrive(rest);
      DisjointFromMerge(ps[0].drive, rest);
      MergeDisjointStep(ps, Merge(rest), DrivenValues(rest));
    }
  }

  // ---------------------------------------------------------------------
  // Layer 2: per-pin core-select multiplexer
  // ---------------------------------------------------------------------

  /** The mask of the pins numbered k, k+1, ..., 31 whose core-select names
      core `c`, shifted down so that pin k is bit 0. */
  function MaskFrom(select: seq<CoreIndex>, c: CoreIndex, k: nat): (m: Word)
    requires |select| == WordBits && k <= WordBits
    decreases WordBits - k
  {
    if k == WordBits then 0
    else (MaskFrom(select, c, k + 1) << 1) | (if select[k] == c then 1 else 0)
  }

  /** The pins whose core-select names core `c`. */
  function SelectMask(select: seq<CoreIndex>, c: CoreIndex): (m: Word)
    requires |select| == WordBits
  {
    MaskFrom(select, c, 0)
  }

  lemma {:induction false} MaskFromBit(select: seq<CoreIndex>, c: CoreIndex, k: nat, i: BitIndex)
    requires |select| == WordBits && k <= WordBits
    ensures Bit(MaskFrom(select, c, k), i) <==> k + i as int < WordBits && select[k + i as int] == c
    decreases WordBits - k
  {
    if k == WordBits {
      BitZero(i);
    } else {
      BitShiftIn(MaskFrom(select, c, k), MaskFrom(select, c, k + 1), select[k] == c, i);
      if i > 0 {
        IndexPred(i);
        MaskFromBit(select, c, k + 1, i - 1);
      }
    }
  }

  /** Pin i belongs to the mask of core c exactly when its core-select is c. */
  lemma SelectMaskBit(select: seq<CoreIndex>, c: CoreIndex, i: BitIndex)
    requires |select| == WordBits
    ensures Bit(SelectMask(select, c), i) <==> select[i as int] == c
  {
    MaskFromBit(select, c, 0, i);
  }

  /** A core that no pin selects has an empty mask. */
  lemma {:induction false} MaskFromUnselected(select: seq<CoreIndex>, c: CoreIndex, k: nat)
    requires |select| == WordBits && k <= WordBits
    requires forall j :: k <= j < |select| ==> select[j] != c
    ensures MaskFrom(select, c, k) == 0
    decreases WordBits - k
  {
    if k < WordBits {
      MaskFromUnselected(select, c, k + 1);
    }
  }

  /** The mask with bits 0 to 31 - k set: the all-ones word shifted down
      by k places, built up pin by pin as MaskFrom builds a mask. */
  function Ones(k: nat): (r: Word)
    requires k <= WordBits
    decreases WordBits - k
  {
    if k == WordBits then 0 else (Ones(k + 1) << 1) | 1
  }

  lemma OnesFull()
    ensures Ones(0) == 0xFFFF_FFFF
  {
    assert Ones(24) == 0xFF;
    assert Ones(16) == 0xFFFF;
    assert Ones(8) == 0xFF_FFFF;
  }

  /** A core that every pin from k on selects owns all of those pins. */
  lemma {:induction false} MaskFromUniform(select: seq<CoreIndex>, c: CoreIndex, k: nat)
    requires |select| == WordBits && k <= WordBits
    requires forall j :: k <= j < |select| ==> select[j] == c
    ensures MaskFrom(select, c, k) == Ones(k)
    decreases WordBits - k
  {
    if k < WordBits {
      MaskFromUniform(select, c, k + 1);
    }
  }

  /** A core that every pin selects has the full mask. */
  lemma SelectMaskUniform(select: seq<CoreIndex>, c: CoreIndex)
    requires |select| == WordBits
    requires forall j :: 0 <= j < |select| ==> select[j] == c
    ensures SelectMask(select, c) == 0xFFFF_FFFF
  {
    MaskFromUniform(select, c, 0);
    OnesFull();
  }

  /** One AND-OR stage of the multiplexer: pair p gated by pin mask m,
      ORed onto the pair `rest` of the remaining cores. */
  function Gate(p: OutputPair, m: Word, rest: OutputPair): (r: OutputPair)
  {
    OutputPair((p.value & m) | rest.value, (p.drive & m) | rest.drive)
  }

  /** The multiplexer restricted to cores c, c+1, ...: each core's pair
      gated by its own pin mask, all ORed together. */
  function MuxFrom(cores: seq<OutputPair>, select: seq<CoreIndex>, c: nat): (r: OutputPair)
    requires |cores| == NumCores && |select| == WordBits && c <= NumCores
    decreases NumCores - c
  {
    if c == NumCores then Undriven
    else Gate(cores[c], SelectMask(select, c), MuxFrom(cores, select, c + 1))
  }

  /** The core-select multiplexer: an AND-OR selection with one pin mask
      per core, so that pin i carries core `select[i]`'s value and drive
      bit. The value is passed through as it is, not masked by drive. */
  function CoreMux(cores: seq<OutputPair>, select: seq<CoreIndex>): (r: OutputPair)
    requires |cores| == NumCores && |select| == WordBits
  {
    MuxFrom(cores, select, 0)
  }

  lemma GateValueBit(p: OutputPair, m: Word, rest: OutputPair, i: BitIndex)
    ensures Bit(Gate(p, m, rest).value, i) <==> (Bit(p.value, i) && Bit(m, i)) || Bit(rest.value, i)
  {
    BitAndOr(Gate(p, m, rest).value, p.value, m, rest.value, i);
  }

  lemma GateDriveBit(p: OutputPair, m: Word, rest: OutputPair, i: BitIndex)
    ensures Bit(Gate(p, m, rest).drive, i) <==> (Bit(p.drive, i) && Bit(m, i)) || Bit(rest.drive, i)
  {
    BitAndOr(Gate(p, m, rest).drive, p.drive, m, rest.drive, i);
  }

  lemma {:induction false} MuxFromBit(cores: seq<OutputPair>, select: seq<CoreIndex>, c: nat, i: BitIndex)
    requires |cores| == NumCores && |select| == WordBits && c <= NumCores
    ensures Bit(MuxFrom(cores, select, c).value, i) <==> c <= select[i as int] && Bit(cores[select[i as int]].value, i)
    ensures Bit(MuxFrom(cores, select, c).drive, i) <==> c <= select[i as int] && Bit(cores[select[i as int]].drive, i)
    decreases NumCores - c
  {
    if c == NumCores {
      BitZero(i);
    } else {
      MuxFromBit(cores, select, c + 1, i);
      GateValueBit(cores[c], SelectMask(select, c), MuxFrom(cores, select, c + 1), i);
      GateDriveBit(cores[c], SelectMask(select, c), MuxFrom(cores, select, c + 1), i);
      SelectMaskBit(select, c, i);
    }
  }

  /** Pin i of the multiplexer output is bit i of the selected core's pair,
      for value and drive alike; no other core reaches pin i. */
  lemma CoreMuxBit(cores: seq<OutputPair>, select: seq<CoreIndex>, i: BitIndex)
    requires |cores| == NumCores && |select| == WordBits
    ensures Bit(CoreMux(cores, select).value, i) <==> Bit(cores[select[i as int]].value, i)
    ensures Bit(CoreMux(cores, select).drive, i) <==> Bit(cores[select[i as int]].drive, i)
  {
    MuxFromBit(cores, select, 0, i);
  }

  lemma GateClosed(p: OutputPair, m: Word, rest: OutputPair, r: OutputPair)
    requires m == 0 && r == Gate(p, m, rest)
    ensures r == rest
  {
  }

  lemma GateOpen(p: OutputPair, m: Word, rest: OutputPair, r: OutputPair)
    requires m == 0xFFFF_FFFF && rest == Undriven && r == Gate(p, m, rest)
    ensures r == p
  {
  }

  /** Cores above c contribute nothing when every pin selects c. */
  lemma {:induction false} MuxFromAbove(cores: seq<OutputPair>, select: seq<CoreIndex>, c: CoreIndex, k: nat)
    requires |cores| == NumCores && |select| == WordBits && c < k <= NumCores
    requires forall j :: 0 <= j < |select| ==> select[j] == c
    ensures MuxFrom(cores, select, k) == Undriven
    decreases NumCores - k
  {
    if k < NumCores {
      MuxFromAbove(cores, select, c, k + 1);
      MaskFromUnselected(select, k, 0);
      GateClosed(cores[k], SelectMask(select, k), MuxFrom(cores, select, k + 1), MuxFrom(cores, select, k));
    }
  }

  lemma {:induction false} MuxFromUniform(cores: seq<OutputPair>, select: seq<CoreIndex>, c: CoreIndex, k: nat)
    requires |cores| == NumCores && |select| == WordBits && k <= c
    requires forall j :: 0 <= j < |select| ==> select[j] == c
    ensures MuxFrom(cores, select, k) == cores[c]
    decreases NumCores - k
  {
    var m, rest := SelectMask(select, k), MuxFrom(cores, select, k + 1);
    if k == c {
      MuxFromAbove(cores, select, c, k + 1);
      SelectMaskUniform(select, c);
      GateOpen(cores[k], m, rest, MuxFrom(cores, select, k));
    } else {
      MuxFromUniform(cores, select, c, k + 1);
      MaskFromUnselected(select, k, 0);
      GateClosed(cores[k], m, rest, MuxFrom(cores, select, k));
    }
  }

  /** When every pin selects core c, the multiplexer passes core c's pair
      through unchanged. */
  lemma CoreMuxUniform(cores: seq<OutputPair>, select: seq<CoreIndex>, c: CoreIndex)
    requires |cores| == NumCores && |select| == WordBits
    requires forall j :: 0 <= j < |select| ==> select[j] == c
    ensures CoreMux(cores, select) == cores[c]
  {
    MuxFromUniform(cores, select, c, 0);
  }

  lemma GateIgnoresClosed(p: OutputPair, q: OutputPair, m: Word, rest: OutputPair)
    requires m == 0
    ensures Gate(p, m, rest) == Gate(q, m, rest)
  {
  }

  lemma {:induction false} MuxFromIgnores(cores: seq<OutputPair>, select: seq<CoreIndex>, c: CoreIndex,
                                          p: OutputPair, k: nat)
    requires |cores| == NumCores && |select| == WordBits && k <= NumCores
    requires SelectMask(select, c) == 0
    ensures MuxFrom(cores[c := p], select, k) == MuxFrom(cores, select, k)
    decreases NumCores - k
  {
    if k < NumCores {
      MuxFromIgnores(cores, select, c, p, k + 1);
      if k == c {
        GateIgnoresClosed(p, cores[c], SelectMask(select, k), MuxFrom(cores, select, k + 1));
      } else {
        assert cores[c := p][k] == cores[k];
      }
    }
  }

  /** A core that no pin selects has no influence on the pins, whatever it
      outputs and drives. */
  lemma CoreMuxIgnoresUnselected(cores: seq<OutputPair>, select: seq<CoreIndex>, c: CoreIndex, p: OutputPair)
    requires |cores| == NumCores && |select| == WordBits
    requires forall j :: 0 <= j < |select| ==> select[j] != c
    ensures CoreMux(cores[c := p], select) == CoreMux(cores, select)
  {
    MaskFromUnselected(select, c, 0);
    MuxFromIgnores(cores, select, c, p, 0);
  }

  // ---------------------------------------------------------------------
  // The full arbitrator
  // ---------------------------------------------------------------------

  /** The shape of the chip: four cores of four machines each. */
  predicate ChipShape(fsms: seq<seq<OutputPair>>)
  {
    |fsms| == NumCores && forall c :: 0 <= c < |fsms| ==> |fsms[c]| == FsmsPerCore
  }

  /** Each core's priority-merged pair. */
  function CoreOutputs(fsms: seq<seq<OutputPair>>): (r: seq<OutputPair>)
    requires |fsms| == NumCores
    ensures |r| == NumCores
  {
    [Merge(fsms[0]), Merge(fsms[1]), Merge(fsms[2]), Merge(fsms[3])]
  }

  /** The full arbitrator: the machines of each core merged by priority,
      then routed to the pins by core-select. */
  function Arbitrate(fsms: seq<seq<OutputPair>>, select: seq<CoreIndex>): (r: OutputPair)
    requires ChipShape(fsms) && |select| == WordBits
  {
    CoreMux(CoreOutputs(fsms), select)
  }

  /** Pin i is driven exactly when some machine of the core that pin i
      selects drives bit i; machines of other cores play no part. */
  lemma ArbitrateDriveBit(fsms: seq<seq<OutputPair>>, select: seq<CoreIndex>, i: BitIndex)
    requires ChipShape(fsms) && |select| == WordBits
    ensures Bit(Arbitrate(fsms, select).drive, i) <==> DrivenBy(fsms[select[i as int]], i)
  {
    var c := select[i as int];
    CoreMuxBit(CoreOutputs(fsms), select, i);
    CoreOutputsAt(fsms, c);
    MergeDriveBit(fsms[c], i);
  }

  /** The value on pin i is that of the lowest-indexed machine, of the core
      pin i selects, that drives bit i. */
  lemma ArbitrateValueBit(fsms: seq<seq<OutputPair>>, select: seq<CoreIndex>, k: nat, i: BitIndex)
    requires ChipShape(fsms) && |select| == WordBits
    requires FirstDriver(fsms[select[i as int]], k, i)
    ensures Bit(Arbitrate(fsms, select).value, i) <==> Bit(fsms[select[i as int]][k].value, i)
  {
    var c := select[i as int];
    CoreMuxBit(CoreOutputs(fsms), select, i);
    CoreOutputsAt(fsms, c);
    MergeValueBit(fsms[c], k, i);
  }

  /** A pin that no machine of its selected core drives reads 0. */
  lemma ArbitrateUndrivenBit(fsms: seq<seq<OutputPair>>, select: seq<CoreIndex>, i: BitIndex)
    requires ChipShape(fsms) && |select| == WordBits
    requires !DrivenBy(fsms[select[i as int]], i)
    ensures !Bit(Arbitrate(fsms, select).value, i)
  {
    var c := select[i as int];
    CoreMuxBit(CoreOutputs(fsms), select, i);
    CoreOutputsAt(fsms, c);
    MergeUndrivenBit(fsms[c], i);
  }

  lemma CoreOutputsAt(fsms: seq<seq<OutputPair>>, c: CoreIndex)
    requires |fsms| == NumCores
    ensures CoreOutputs(fsms)[c] == Merge(fsms[c])
  {
  }

  lemma CoreOutputsUpdate(fsms: seq<seq<OutputPair>>, c: CoreIndex, machines: seq<OutputPair>)
    requires |fsms| == NumCores
    ensures CoreOutputs(fsms[c := machines]) == CoreOutputs(fsms)[c := Merge(machines)]
  {
    var f := fsms[c := machines];
    forall j | 0 <= j < NumCores
      ensures CoreOutputs(f)[j] == CoreOutputs(fsms)[c := Merge(machines)][j]
    {
      CoreOutputsAt(f, j);
      CoreOutputsAt(fsms, j);
    }
  }

  /** The machines of a core that no pin selects have no influence on the
      pins, whatever they output and drive. */
  lemma ArbitrateIgnoresUnselected(fsms: seq<seq<OutputPair>>, select: seq<CoreIndex>,
                                   c: CoreIndex, machines: seq<OutputPair>)
    requires ChipShape(fsms) && |select| == WordBits && |machines| == FsmsPerCore
    requires forall j :: 0 <= j < |select| ==> select[j] != c
    ensures Arbitrate(fsms[c := machines], select) == Arbitrate(fsms, select)
  {
    CoreOutputsUpdate(fsms, c, machines);
    CoreMuxIgnoresUnselected(CoreOutputs(fsms), select, c, Merge(machines));
  }
}
