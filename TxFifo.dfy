/** The transmit FIFO: a four-word circular buffer of 32-bit words. `head`
    is the slot the next push writes, `tail` the slot the next pop reads,
    and `count` the number of words held; `empty` and `full` are read off
    the count. On each rising edge a push is accepted unless the buffer is
    full, and a pop is taken unless it is empty, both judged on the state
    before the edge; an accepted push and pop may happen together. A pop
    copies the oldest word to the output register `out`, which otherwise
    keeps its value; popped slots are not cleared. */
module TxFifo {
  import opened Bits

  /** Number of slots. */
  const Depth: nat := 4

  /** Slot number `k` modulo the depth, for the sums of two slot numbers
      that pointer arithmetic produces (the pointers are two-bit counters). */
  function Wrap(k: nat): (r: nat)
    requires k < 2 * Depth
    ensures r < Depth && (r == k || r == k - Depth)
  {
    if k < Depth then k else k - Depth
  }

  lemma WrapIsMod(k: nat)
    requires k < 2 * Depth
    ensures Wrap(k) == k % 4
  {
  }

  /** The FIFO's registers. */
  datatype FifoState = FifoState(memory: seq<Word>, head: nat, tail: nat, count: nat, out: Word)

  /** The registers are consistent: four slots, pointers in range, and the
      head lying `count` slots after the tail. */
  predicate Wf(s: FifoState)
  {
    |s.memory| == Depth && s.head < Depth && s.tail < Depth && s.count <= Depth &&
    s.head == Wrap(s.tail + s.count)
  }

  predicate Empty(s: FifoState)
  {
    s.count == 0
  }

  predicate Full(s: FifoState)
  {
    s.count == Depth
  }

  /** The state reset leaves: everything zero. */
  const ResetState := FifoState([0, 0, 0, 0], 0, 0, 0, 0)

  /** A push is accepted when the FIFO is not full. */
  predicate PushTaken(s: FifoState, pushEn: bool)
  {
    pushEn && s.count < Depth
  }

  /** A pop is taken when the FIFO is not empty. */
  predicate PopTaken(s: FifoState, popEn: bool)
  {
    popEn && s.count > 0
  }

  /** The state after one rising edge. */
  function FifoNext(s: FifoState, pushEn: bool, data: Word, popEn: bool): (r: FifoState)
    requires Wf(s)
    ensures Wf(r)
  {
    var push, pop := PushTaken(s, pushEn), PopTaken(s, popEn);
    FifoState(
      if push then s.memory[s.head := data] else s.memory,
      if push then Wrap(s.head + 1) else s.head,
      if pop then Wrap(s.tail + 1) else s.tail,
      s.count + (if push then 1 else 0) - (if pop then 1 else 0),
      if pop then s.memory[s.tail] else s.out)
  }

  /** The words held, oldest first. */
  function Contents(s: FifoState): (q: seq<Word>)
    requires Wf(s)
    ensures |q| == s.count
  {
    seq(s.count, (i: int) requires 0 <= i < s.count && |s.memory| == Depth && s.tail < Depth => s.memory[Wrap(s.tail + i)])
  }

  /** The FIFO is a bounded queue: an accepted pop removes the oldest word
      and shows it on `out`, an accepted push appends the new word, a push
      into a full FIFO and a pop from an empty one change nothing, and the
      output register otherwise keeps its value. */
  lemma FifoNextIsQueue(s: FifoState, pushEn: bool, data: Word, popEn: bool)
    requires Wf(s)
    ensures var r := FifoNext(s, pushEn, data, popEn);
            var kept := if PopTaken(s, popEn) then Contents(s)[1..] else Contents(s);
            Contents(r) == if PushTaken(s, pushEn) then kept + [data] else kept
    ensures FifoNext(s, pushEn, data, popEn).out == if PopTaken(s, popEn) then Contents(s)[0] else s.out
  {
    var r := FifoNext(s, pushEn, data, popEn);
    var push, pop := PushTaken(s, pushEn), PopTaken(s, popEn);
    var off := if pop then 1 else 0;
    ContentsShift(s, r, off, push, data);
    if pop {
      ContentsAt(s, 0);
    }
  }

  /** The pointer arithmetic of one edge: moving the tail on by `off`
      slots and, if `push`, writing one word at the head drops the `off`
      oldest words and appends that word. */
  lemma ContentsShift(s: FifoState, r: FifoState, off: nat, push: bool, data: Word)
    requires EdgeShape(s, r, off, push, data)
    ensures Contents(r) == Contents(s)[off..] + (if push then [data] else [])
  {
    var want := Contents(s)[off..] + (if push then [data] else []);
    forall i | 0 <= i < |want| ensures Contents(r)[i] == want[i] {
      if i < s.count - off {
        KeptAt(s, r, off, push, data, i);
      } else {
        PushedAt(s, r, off, push, data);
      }
    }
  }

  /** How the registers of one edge relate, as FifoNext relates them. */
  predicate EdgeShape(s: FifoState, r: FifoState, off: nat, push: bool, data: Word)
  {
    Wf(s) && Wf(r) && off <= s.count && (push ==> s.count < Depth) &&
    r.tail == Wrap(s.tail + off) && r.count == s.count - off + (if push then 1 else 0) &&
    r.memory == if push then s.memory[s.head := data] else s.memory
  }

  lemma KeptAt(s: FifoState, r: FifoState, off: nat, push: bool, data: Word, i: nat)
    requires EdgeShape(s, r, off, push, data) && i < s.count - off
    ensures Contents(r)[i] == Contents(s)[i + off]
  {
    KeptSlot(s, r, off, push, data, i);
    SameWord(r, i, s, i + off);
  }

  /** Two queue positions whose slots hold the same word. */
  lemma SameWord(r: FifoState, i: nat, s: FifoState, j: nat)
    requires Wf(r) && Wf(s) && i < r.count && j < s.count
    requires r.memory[Wrap(r.tail + i)] == s.memory[Wrap(s.tail + j)]
    ensures Contents(r)[i] == Contents(s)[j]
  {
    ContentsAt(r, i);
    ContentsAt(s, j);
  }

  /** The slot holding the i-th word after the edge held the (i + off)-th
      before it, and a push never lands on a word that is kept. */
  lemma KeptSlot(s: FifoState, r: FifoState, off: nat, push: bool, data: Word, i: nat)
    requires EdgeShape(s, r, off, push, data) && i < s.count - off
    ensures r.memory[Wrap(r.tail + i)] == s.memory[Wrap(s.tail + (i + off))]
  {
    var j := Wrap(s.tail + (i + off));
    assert Wrap(r.tail + i) == j;
    assert push ==> j != s.head;
  }

  lemma PushedAt(s: FifoState, r: FifoState, off: nat, push: bool, data: Word)
    requires EdgeShape(s, r, off, push, data) && push
    ensures Contents(r)[s.count - off] == data
  {
    ContentsAt(r, s.count - off);
    assert Wrap(r.tail + s.count - off) == s.head;
  }

  lemma ContentsAt(s: FifoState, i: nat)
    requires Wf(s) && i < s.count
    ensures Contents(s)[i] == s.memory[Wrap(s.tail + i)]
  {
  }

  /** The flags agree with the count in every reachable state. */
  lemma FlagsFromCount(s: FifoState)
    requires Wf(s)
    ensures Empty(s) <==> Contents(s) == []
    ensures Full(s) <==> |Contents(s)| == Depth
    ensures !(Empty(s) && Full(s))
  {
  }

  /** Simple edges leave everything as it was: no push and no pop; a push
      into a full FIFO; a pop from an empty one. In particular the output
      register holds its value whenever no pop is taken. */
  lemma IgnoredEdges(s: FifoState, data: Word)
    requires Wf(s)
    ensures FifoNext(s, false, data, false) == s
    ensures Full(s) ==> FifoNext(s, true, data, false) == s
    ensures Empty(s) ==> FifoNext(s, false, data, true) == s
  {
  }

  /** The state after pushing each word of `xs` in turn, one per edge. */
  function PushAll(s: FifoState, xs: seq<Word>): (r: FifoState)
    requires Wf(s)
    ensures Wf(r)
    decreases |xs|
  {
    if |xs| == 0 then s else PushAll(FifoNext(s, true, xs[0], false), xs[1..])
  }

  /** `n` edges with only pop enabled: the final state and the output
      register after each edge. */
  function PopAll(s: FifoState, n: nat): (r: (FifoState, seq<Word>))
    requires Wf(s)
    ensures Wf(r.0) && |r.1| == n
    decreases n
  {
    if n == 0 then (s, [])
    else
      var t := FifoNext(s, false, 0, true);
      var rest := PopAll(t, n - 1);
      (rest.0, [t.out] + rest.1)
  }

  /** A push alone into a FIFO that is not full appends the word. */
  lemma PushAppends(s: FifoState, x: Word, t: FifoState)
    requires Wf(s) && s.count < Depth && t == FifoNext(s, true, x, false)
    ensures Contents(t) == Contents(s) + [x]
  {
    ContentsShift(s, t, 0, true, x);
  }

  /** A pop alone from a FIFO that is not empty shows the oldest word and
      drops it. */
  lemma PopTakesOldest(s: FifoState, t: FifoState)
    requires Wf(s) && s.count > 0 && t == FifoNext(s, false, 0, true)
    ensures t.out == Contents(s)[0] && Contents(t) == Contents(s)[1..]
  {
    ContentsShift(s, t, 1, false, 0);
    ContentsAt(s, 0);
  }

  /** Pushes that fit are appended in order. */
  lemma {:induction false} PushAllAppends(s: FifoState, xs: seq<Word>)
    requires Wf(s) && s.count + |xs| <= Depth
    ensures Contents(PushAll(s, xs)) == Contents(s) + xs
    decreases |xs|
  {
    if |xs| > 0 {
      var t := FifoNext(s, true, xs[0], false);
      PushAppends(s, xs[0], t);
      PushAllAppends(t, xs[1..]);
      assert PushAll(s, xs) == PushAll(t, xs[1..]);
      assert Contents(s) + [xs[0]] + xs[1..] == Contents(s) + xs;
    }
  }

  /** Pops read the held words oldest first, and leave the rest held. */
  lemma {:induction false} PopAllInOrder(s: FifoState, n: nat)
    requires Wf(s) && n <= s.count
    ensures PopAll(s, n).1 == Contents(s)[..n]
    ensures Contents(PopAll(s, n).0) == Contents(s)[n..]
    decreases n
  {
    if n > 0 {
      var t := FifoNext(s, false, 0, true);
      PopAllInOrder(t, n - 1);
      PopAllExtend(s, t, n);
    }
  }

  /** The inductive step of PopAllInOrder: one more pop in front of n - 1
      pops that read the rest in order. */
  lemma PopAllExtend(s: FifoState, t: FifoState, n: nat)
    requires Wf(s) && 0 < n <= s.count && t == FifoNext(s, false, 0, true)
    requires PopAll(t, n - 1).1 == Contents(t)[..n - 1]
    requires Contents(PopAll(t, n - 1).0) == Contents(t)[n - 1..]
    ensures PopAll(s, n).1 == Contents(s)[..n]
    ensures Contents(PopAll(s, n).0) == Contents(s)[n..]
  {
    PopTakesOldest(s, t);
    PopAllStep(s, n, t);
    var after := PopAll(t, n - 1);
    PopAllCons(Contents(s), Contents(t), t.out, after.1, Contents(after.0), n);
  }

  lemma PopAllStep(s: FifoState, n: nat, t: FifoState)
    requires Wf(s) && n > 0 && t == FifoNext(s, false, 0, true)
    ensures PopAll(s, n) == (PopAll(t, n - 1).0, [t.out] + PopAll(t, n - 1).1)
  {
  }

  /** Reading the oldest word and then the next n - 1 of the rest is
      reading the first n words. */
  lemma PopAllCons(q: seq<Word>, rest: seq<Word>, out: Word, outs: seq<Word>, remaining: seq<Word>, n: nat)
    requires 0 < n <= |q| && rest == q[1..] && out == q[0]
    requires outs == rest[..n - 1] && remaining == rest[n - 1..]
    ensures [out] + outs == q[..n] && remaining == q[n..]
  {
  }

  /** First in, first out: whatever a FIFO holds, up to four words pushed
      into it come out of it, in the order they went in, once the words
      before them have been popped. */
  lemma {:induction false} FirstInFirstOut(s: FifoState, xs: seq<Word>)
    requires Wf(s) && s.count + |xs| <= Depth
    ensures PopAll(PushAll(s, xs), s.count + |xs|).1 == Contents(s) + xs
  {
    var full := PushAll(s, xs);
    PushAllAppends(s, xs);
    var q := Contents(full);
    assert q == Contents(s) + xs;
    PopAllInOrder(full, |q|);
    assert q[..|q|] == q;
  }

  /** The FIFO's registers in hardware: the four-word memory is an array
      written in place. */
  class Fifo {
    var memory: array<Word>
    var head: nat
    var tail: nat
    var count: nat
    var out: Word

    /** The registers as a value. */
    function State(): (r: FifoState)
      reads this, memory
    {
      FifoState(memory[..], head, tail, count, out)
    }

    ghost predicate Valid()
      reads this, memory
    {
      Wf(State())
    }

    /** The `empty` flag. */
    function IsEmpty(): (b: bool)
      reads this, memory
      requires Valid()
      ensures b <==> Empty(State())
      ensures b <==> Contents(State()) == []
    {
      count == 0
    }

    /** The `full` flag. */
    function IsFull(): (b: bool)
      reads this, memory
      requires Valid()
      ensures b <==> Full(State())
      ensures b <==> |Contents(State())| == Depth
    {
      count == Depth
    }

    /** Power-up followed by the reset pulse. */
    constructor ()
      ensures Valid() && State() == ResetState && fresh(memory)
    {
      memory := new Word[Depth](_ => 0);
      head, tail, count, out := 0, 0, 0, 0;
      new;
      assert memory[..] == [0, 0, 0, 0];
    }

    /** Reset clears every slot, both pointers, the count and the output. */
    method Reset()
      requires memory.Length == Depth
      modifies this, memory
      ensures Valid() && memory == old(memory) && State() == ResetState
    {
      for k := 0 to Depth
        invariant memory == old(memory) && memory.Length == Depth
        invariant forall j :: 0 <= j < k ==> memory[j] == 0
      {
        memory[k] := 0;
      }
      head, tail, count, out := 0, 0, 0, 0;
      assert memory[..] == [0, 0, 0, 0];
    }

    /** One rising clock edge. Both decisions are taken on the state before
        the edge. */
    method Step(pushEn: bool, data: Word, popEn: bool)
      requires Valid()
      modifies this, memory
      ensures Valid() && memory == old(memory)
      ensures State() == FifoNext(old(State()), pushEn, data, popEn)
    {
      ghost var next := FifoNext(State(), pushEn, data, popEn);
      var push := pushEn && count < Depth;
      var pop := popEn && count > 0;
      if pop {
        out := memory[tail];
        tail := Wrap(tail + 1);
      }
      if push {
        memory[head] := data;
        head := Wrap(head + 1);
      }
      count := count + (if push then 1 else 0) - (if pop then 1 else 0);
      assert memory[..] == next.memory;
      assert State() == next;
    }
  }

  // ---------------------------------------------------------------------
  // The benches, replayed. Each starts from a fresh FIFO after the reset
  // pulse and returns the registers the bench inspects. The `...Edges`
  // lemmas work out the bench's edges on the state values.
  // ---------------------------------------------------------------------

  /** The first `n` slots hold `x` and the others 0. */
  function FilledWith(x: Word, n: nat): (m: seq<Word>)
    requires n <= Depth
    ensures |m| == Depth && forall j :: 0 <= j < Depth ==> m[j] == if j < n then x else 0
  {
    seq(Depth, (j: int) => if j < n then x else 0)
  }

  /** The state after `n` pushes of `x` into a reset FIFO. */
  function FilledState(x: Word, n: nat): (s: FifoState)
    requires n <= Depth
    ensures Wf(s)
  {
    FifoState(FilledWith(x, n), Wrap(n), 0, n, 0)
  }

  lemma FillEdge(x: Word, n: nat)
    requires n < Depth
    ensures FifoNext(FilledState(x, n), true, x, false) == FilledState(x, n + 1)
  {
    assert FilledWith(x, n)[n := x] == FilledWith(x, n + 1);
  }

  lemma FilledEnds(x: Word)
    ensures FilledState(x, 0) == ResetState
    ensures FilledState(x, Depth) == FifoState([x, x, x, x], 0, 0, 4, 0)
  {
    assert FilledWith(x, 0) == [0, 0, 0, 0];
    assert FilledWith(x, Depth) == [x, x, x, x];
  }

  /** 32 edges with data on the input but push disabled leave the FIFO as
      reset left it. */
  method DoesntFillWhenPushIsDisabled() returns (before: FifoState, after: FifoState)
    ensures before == ResetState && Empty(before) && !Full(before)
    ensures after == ResetState && Empty(after) && !Full(after)
  {
    var f := new Fifo();
    before := f.State();
    for i := 0 to 32
      invariant fresh(f.memory) && f.Valid() && f.State() == ResetState
    {
      IgnoredEdges(f.State(), 0x1234_5678);
      f.Step(false, 0x1234_5678, false);
    }
    after := f.State();
  }

  lemma InsertIntoEmptyEdges()
    ensures FifoNext(ResetState, true, 0x1234_5678, false) == FifoState([0x1234_5678, 0, 0, 0], 1, 0, 1, 0)
  {
  }

  method InsertIntoEmptyFifo() returns (after: FifoState)
    ensures after == FifoState([0x1234_5678, 0, 0, 0], 1, 0, 1, 0)
    ensures !Empty(after) && !Full(after)
  {
    var f := new Fifo();
    f.Step(true, 0x1234_5678, false);
    after := f.State();
    InsertIntoEmptyEdges();
  }

  /** The first push of the multiple-insert bench: into the reset FIFO. */
  lemma InsertMultipleEdge1()
    ensures FifoNext(ResetState, true, 0x9999_AAAA, false) == FifoState([0x9999_AAAA, 0, 0, 0], 1, 0, 1, 0)
  {
  }

  /** The second push: into slot 1. */
  lemma InsertMultipleEdge2()
    ensures FifoNext(FifoState([0x9999_AAAA, 0, 0, 0], 1, 0, 1, 0), true, 0x5555_FFFF, false)
         == FifoState([0x9999_AAAA, 0x5555_FFFF, 0, 0], 2, 0, 2, 0)
  {
  }

  /** The third push: into slot 2. */
  lemma InsertMultipleEdge3()
    ensures FifoNext(FifoState([0x9999_AAAA, 0x5555_FFFF, 0, 0], 2, 0, 2, 0), true, 0x83A2_A3B5, false)
         == FifoState([0x9999_AAAA, 0x5555_FFFF, 0x83A2_A3B5, 0], 3, 0, 3, 0)
  {
  }

  /** The fourth push fills slot 3, wraps the head to 0 and makes the FIFO full. */
  lemma InsertMultipleEdge4()
    ensures FifoNext(FifoState([0x9999_AAAA, 0x5555_FFFF, 0x83A2_A3B5, 0], 3, 0, 3, 0), true, 0x83A2_A3B5, false)
         == FifoState([0x9999_AAAA, 0x5555_FFFF, 0x83A2_A3B5, 0x83A2_A3B5], 0, 0, 4, 0)
  {
  }

  /** Three pushes fill slots 0..2; a fourth with the same input fills
      slot 3, wraps the head to 0 and makes the FIFO full. */
  method InsertMultipleIntoFifo() returns (three: FifoState, four: FifoState)
    ensures three == FifoState([0x9999_AAAA, 0x5555_FFFF, 0x83A2_A3B5, 0], 3, 0, 3, 0)
    ensures !Empty(three) && !Full(three)
    ensures four == FifoState([0x9999_AAAA, 0x5555_FFFF, 0x83A2_A3B5, 0x83A2_A3B5], 0, 0, 4, 0)
    ensures !Empty(four) && Full(four)
  {
    InsertMultipleEdge1();
    InsertMultipleEdge2();
    InsertMultipleEdge3();
    InsertMultipleEdge4();
    var f := new Fifo();
    f.Step(true, 0x9999_AAAA, false);
    f.Step(true, 0x5555_FFFF, false);
    f.Step(true, 0x83A2_A3B5, false);
    three := f.State();
    f.Step(true, 0x83A2_A3B5, false);
    four := f.State();
  }

  /** Four pushes of `x` into a reset FIFO. */
  method FillWith(f: Fifo, x: Word)
    requires f.Valid() && f.State() == ResetState
    modifies f, f.memory
    ensures f.Valid() && f.memory == old(f.memory) && f.State() == FifoState([x, x, x, x], 0, 0, 4, 0)
  {
    FilledEnds(x);
    for i := 0 to 4
      invariant f.Valid() && f.memory == old(f.memory) && f.State() == FilledState(x, i)
    {
      FillEdge(x, i);
      f.Step(true, x, false);
    }
  }

  /** `n` edges with the given enables, each of which `IgnoredEdges` shows
      changes nothing; the output register and tail seen after each edge. */
  method IgnoredRun(f: Fifo, n: nat, pushEn: bool, data: Word, popEn: bool) returns (outs: seq<Word>, tails: seq<nat>)
    requires f.Valid()
    requires (!pushEn && !popEn) || (pushEn && !popEn && Full(f.State())) || (!pushEn && popEn && Empty(f.State()))
    modifies f, f.memory
    ensures f.Valid() && f.memory == old(f.memory) && f.State() == old(f.State())
    ensures |outs| == n && forall k :: 0 <= k < n ==> outs[k] == f.out
    ensures |tails| == n && forall k :: 0 <= k < n ==> tails[k] == f.tail
  {
    ghost var s := f.State();
    IgnoredEdges(s, data);
    outs, tails := [], [];
    for i := 0 to n
      invariant f.Valid() && f.memory == old(f.memory) && f.State() == s
      invariant |outs| == i && |tails| == i
      invariant forall k :: 0 <= k < i ==> outs[k] == s.out && tails[k] == s.tail
    {
      f.Step(pushEn, data, popEn);
      outs, tails := outs + [f.out], tails + [f.tail];
    }
  }

  /** Four pushes fill the FIFO; a fifth push, of a different word, is
      ignored entirely. */
  method InsertIntoFullFifo() returns (filled: FifoState, after: FifoState)
    ensures filled == FifoState([0xFFFF_FFFF, 0xFFFF_FFFF, 0xFFFF_FFFF, 0xFFFF_FFFF], 0, 0, 4, 0)
    ensures Full(filled) && after == filled
  {
    var f := new Fifo();
    FillWith(f, 0xFFFF_FFFF);
    filled := f.State();
    IgnoredEdges(filled, 0x1111_1111);
    f.Step(true, 0x1111_1111, false);
    after := f.State();
  }

  /** With pop disabled, a full FIFO keeps its words and the output
      register stays 0. */
  method DoesntReadWhenPopIsDisabled() returns (filled: FifoState, outs: seq<Word>, after: FifoState)
    ensures filled == FifoState([0x8888_8888, 0x8888_8888, 0x8888_8888, 0x8888_8888], 0, 0, 4, 0)
    ensures |outs| == 4 && forall k :: 0 <= k < |outs| ==> outs[k] == 0
    ensures after == filled && Full(after)
  {
    var f := new Fifo();
    FillWith(f, 0x8888_8888);
    filled := f.State();
    var tails;
    outs, tails := IgnoredRun(f, 4, false, 0x8888_8888, false);
    after := f.State();
  }

  lemma PopOneEdges(x: Word)
    ensures FifoNext(ResetState, true, x, false) == FifoState([x, 0, 0, 0], 1, 0, 1, 0)
    ensures FifoNext(FifoState([x, 0, 0, 0], 1, 0, 1, 0), false, x, true) == FifoState([x, 0, 0, 0], 1, 1, 0, x)
  {
  }

  /** One push then one pop: the word appears on the output and the FIFO is
      empty again, with the slot left as it was. */
  method PopOneValueFromFifo() returns (loaded: FifoState, popped: FifoState)
    ensures loaded == FifoState([0xACDC_ACDC, 0, 0, 0], 1, 0, 1, 0) && !Empty(loaded) && !Full(loaded)
    ensures popped == FifoState([0xACDC_ACDC, 0, 0, 0], 1, 1, 0, 0xACDC_ACDC) && Empty(popped) && !Full(popped)
  {
    PopOneEdges(0xACDC_ACDC);
    var f := new Fifo();
    f.Step(true, 0xACDC_ACDC, false);
    loaded := f.State();
    f.Step(false, 0xACDC_ACDC, true);
    popped := f.State();
  }

  /** After the only word is popped, 32 more pops change nothing: the
      output keeps the last word popped and the tail stays put. */
  method PopFromEmptyFifoRetainsPreviousData() returns (popped: FifoState, outs: seq<Word>, tails: seq<nat>,
                                                        after: FifoState)
    ensures popped == FifoState([0x1234_5678, 0, 0, 0], 1, 1, 0, 0x1234_5678) && Empty(popped)
    ensures |outs| == 32 && forall k :: 0 <= k < |outs| ==> outs[k] == 0x1234_5678
    ensures |tails| == 32 && forall k :: 0 <= k < |tails| ==> tails[k] == 1
    ensures after == popped
  {
    PopOneEdges(0x1234_5678);
    var f := new Fifo();
    f.Step(true, 0x1234_5678, false);
    f.Step(false, 0x1234_5678, true);
    popped := f.State();
    outs, tails := IgnoredRun(f, 32, false, 0x1234_5678, true);
    after := f.State();
  }

  /** The words the ramp bench pushes, 0xDEADBEE0 + i for i = 0..3, which
      is also the memory once all four are in. */
  const FullRamp: seq<Word> := [0xDEAD_BEE0, 0xDEAD_BEE1, 0xDEAD_BEE2, 0xDEAD_BEE3]

  /** Slots 0..n-1 holding the ramp, the rest 0. */
  function RampMemory(n: nat): (m: seq<Word>)
    requires n <= Depth
    ensures |m| == Depth && forall j :: 0 <= j < Depth ==> m[j] == if j < n then FullRamp[j] else 0
  {
    seq(Depth, (j: int) => if 0 <= j < n then FullRamp[j] else 0)
  }

  /** The ramp after `n` of its pushes. */
  function RampFilled(n: nat): (s: FifoState)
    requires n <= Depth
    ensures Wf(s)
  {
    FifoState(RampMemory(n), Wrap(n), 0, n, 0)
  }

  /** The full ramp after `n` of its pops. */
  function RampDrained(n: nat): (s: FifoState)
    requires n <= Depth
    ensures Wf(s)
  {
    FifoState(FullRamp, 0, Wrap(n), Depth - n, if n == 0 then 0 else FullRamp[n - 1])
  }

  lemma RampFillEdge(n: nat)
    requires n < Depth
    ensures FifoNext(RampFilled(n), true, FullRamp[n], false) == RampFilled(n + 1)
  {
    assert RampMemory(n)[n := FullRamp[n]] == RampMemory(n + 1);
  }

  lemma RampDrainEdge(n: nat)
    requires n < Depth
    ensures FifoNext(RampDrained(n), false, 0, true) == RampDrained(n + 1)
  {
  }

  lemma RampEnds()
    ensures RampFilled(0) == ResetState && RampFilled(Depth) == RampDrained(0)
  {
    assert RampMemory(0) == [0, 0, 0, 0];
    assert RampMemory(Depth) == FullRamp;
  }

  /** The ramp's four pushes into a reset FIFO, with the state seen after
      each edge. */
  method FillRamp(f: Fifo) returns (seen: seq<FifoState>)
    requires f.Valid() && f.State() == RampFilled(0)
    modifies f, f.memory
    ensures f.Valid() && f.memory == old(f.memory) && f.State() == RampFilled(Depth)
    ensures |seen| == Depth && forall k :: 0 <= k < Depth ==> seen[k] == RampFilled(k + 1)
  {
    seen := [];
    for i := 0 to Depth
      invariant f.Valid() && f.memory == old(f.memory) && f.State() == RampFilled(i)
      invariant |seen| == i && forall k :: 0 <= k < i ==> seen[k] == RampFilled(k + 1)
    {
      RampFillEdge(i);
      f.Step(true, FullRamp[i], false);
      seen := seen + [f.State()];
    }
  }

  /** Four pops from the full ramp, with the state seen after each edge. */
  method DrainRamp(f: Fifo) returns (seen: seq<FifoState>)
    requires f.Valid() && f.State() == RampDrained(0)
    modifies f, f.memory
    ensures f.Valid() && f.memory == old(f.memory) && f.State() == RampDrained(Depth)
    ensures |seen| == Depth && forall k :: 0 <= k < Depth ==> seen[k] == RampDrained(k + 1)
  {
    seen := [];
    for i := 0 to Depth
      invariant f.Valid() && f.memory == old(f.memory) && f.State() == RampDrained(i)
      invariant |seen| == i && forall k :: 0 <= k < i ==> seen[k] == RampDrained(k + 1)
    {
      RampDrainEdge(i);
      f.Step(false, 0, true);
      seen := seen + [f.State()];
    }
  }

  /** During the ramp's fill the count rises and the head moves one slot
      per edge. */
  lemma RampFillObservations(k: nat)
    requires k < Depth
    ensures RampFilled(k + 1).count == k + 1 && RampFilled(k + 1).head == (k + 1) % 4
  {
    WrapIsMod(k + 1);
  }

  /** During the drain the tail moves one slot per edge and the head stays
      at 0. */
  lemma RampDrainPointers(k: nat)
    requires k < Depth
    ensures RampDrained(k + 1).tail == (k + 1) % 4 && RampDrained(k + 1).head == 0
  {
    WrapIsMod(k + 1);
  }

  /** During the drain the words come out in push order and the count
      falls. */
  lemma RampDrainOutputs(k: nat)
    requires k < Depth
    ensures RampDrained(k + 1).out == FullRamp[k] && RampDrained(k + 1).count == 4 - k - 1
  {
  }

  /** Pushing 0xDEADBEE0 + i for i = 0..3 counts up and moves the head one
      slot per edge; popping four times then shows the words in the same
      order, counting down and moving the tail, while the head stays at 0
      and the memory keeps every word. */
  method PopFromFullFifo() returns (filling: seq<FifoState>, draining: seq<FifoState>)
    ensures |filling| == 4 && |draining| == 4
    ensures forall i :: 0 <= i < 4 ==> filling[i].count == i + 1 && filling[i].head == (i + 1) % 4
    ensures filling[3].memory == FullRamp
    ensures filling[3].tail == 0 && Full(filling[3]) && !Empty(filling[3])
    ensures forall i :: 0 <= i < 4 ==> draining[i].out == FullRamp[i] && draining[i].count == 4 - i - 1
    ensures forall i :: 0 <= i < 4 ==> draining[i].tail == (i + 1) % 4 && draining[i].head == 0
    ensures draining[3].memory == filling[3].memory && Empty(draining[3]) && !Full(draining[3])
  {
    var f := new Fifo();
    RampEnds();
    filling := FillRamp(f);
    draining := DrainRamp(f);
    forall i | 0 <= i < 4
      ensures filling[i].count == i + 1 && filling[i].head == (i + 1) % 4
      ensures draining[i].out == FullRamp[i] && draining[i].count == 4 - i - 1
      ensures draining[i].tail == (i + 1) % 4 && draining[i].head == 0
    {
      RampFillObservations(i);
      RampDrainPointers(i);
      RampDrainOutputs(i);
    }
  }

  /** Moving one slot round the ring from slot `x % 4`. */
  lemma NextSlot(x: nat)
    ensures Wrap(x % 4 + 1) == (x + 1) % 4
  {
    WrapIsMod(x % 4 + 1);
  }

  /** `w` incremented `k` times in 32-bit arithmetic: the `k`-th of the
      words `w`, `w + 1`, ... */
  function Counted(w: Word, k: nat): (r: Word)
  {
    if k == 0 then w else Counted(w, k - 1) + 1
  }

  /** One word in flight: the last edge pushed `w` while popping `w - 1`,
      so `w` is the only word held and `w - 1` sits on the output. */
  ghost predicate SteadyAt(s: FifoState, w: Word)
  {
    Wf(s) && s.count == 1 && s.memory[s.tail] == w && s.out == w - 1
  }

  /** Pushing `w + 1` and popping in the same edge keeps one word in flight
      and moves the tail one slot: the pop is taken on the old count and
      reads `w`. */
  lemma SteadyEdge(s: FifoState, w: Word)
    requires SteadyAt(s, w)
    ensures SteadyAt(FifoNext(s, true, w + 1, true), w + 1)
    ensures FifoNext(s, true, w + 1, true).tail == Wrap(s.tail + 1)
  {
  }

  lemma SameTimeEdges()
    ensures FifoNext(ResetState, true, 1, true) == FifoState([1, 0, 0, 0], 1, 0, 1, 0)
    ensures FifoNext(FifoState([1, 0, 0, 0], 1, 0, 1, 0), true, 2, true) == FifoState([1, 2, 0, 0], 2, 1, 1, 1)
    ensures SteadyAt(FifoState([1, 2, 0, 0], 2, 1, 1, 1), 2)
  {
  }

  /** `n` edges pushing `w + 1`, `w + 2`, ... with pop enabled, from a state
      steady at `w`. After each edge the output is one more than after the
      one before, starting at `w`; the tail moves one slot per edge; the
      head stays one slot ahead of it, and one word stays held. */
  method SteadyRun(f: Fifo, w: Word, n: nat) returns (outs: seq<Word>, heads: seq<nat>, tails: seq<nat>)
    requires f.Valid() && SteadyAt(f.State(), w)
    modifies f, f.memory
    ensures f.Valid() && f.memory == old(f.memory) && f.count == 1
    ensures |outs| == n && |heads| == n && |tails| == n
    ensures forall k {:trigger outs[k]} :: 0 <= k < n ==> outs[k] == Counted(w, k)
    ensures forall k {:trigger tails[k]} :: 0 <= k < n ==> tails[k] == (old(f.tail) + k + 1) % 4 && heads[k] == Wrap(tails[k] + 1)
  {
    ghost var t := f.tail;
    var cur := w;
    outs, heads, tails := [], [], [];
    for i := 0 to n
      invariant f.Valid() && f.memory == old(f.memory) && SteadyAt(f.State(), cur) && f.tail == (t + i) % 4
      invariant |outs| == i && |heads| == i && |tails| == i && cur == Counted(w, i)
      invariant forall k {:trigger outs[k]} :: 0 <= k < i ==> outs[k] == Counted(w, k)
      invariant forall k {:trigger tails[k]} :: 0 <= k < i ==> tails[k] == (t + k + 1) % 4
      invariant forall k {:trigger heads[k]} :: 0 <= k < i ==> heads[k] == Wrap(tails[k] + 1)
    {
      NextSlot(t + i);
      var out, head, tail := SteadyStep(f, cur);
      outs, heads, tails := outs + [out], heads + [head], tails + [tail];
      cur := cur + 1;
    }
  }

  /** One edge of `SteadyRun`, pushing `w + 1`; the output, head and tail
      after it. */
  method SteadyStep(f: Fifo, w: Word) returns (out: Word, head: nat, tail: nat)
    requires f.Valid() && SteadyAt(f.State(), w)
    modifies f, f.memory
    ensures f.Valid() && f.memory == old(f.memory) && SteadyAt(f.State(), w + 1)
    ensures out == w && tail == f.tail == Wrap(old(f.tail) + 1) && head == Wrap(tail + 1)
  {
    SteadyEdge(f.State(), w);
    f.Step(true, w + 1, true);
    out, head, tail := f.out, f.head, f.tail;
  }

  /** Push and pop together: on the first edge the FIFO is empty, so only
      the push is taken; from then on every edge takes in `i + 1` and puts
      out `i`, holding one word, with head and tail one slot apart. */
  method PushAndPopAtSameTime() returns (first: FifoState, second: FifoState,
                                          outs: seq<Word>, heads: seq<nat>, tails: seq<nat>)
    ensures first.head == 1 && first.tail == 0 && first.count == 1 && first.out == 0
    ensures !Empty(first) && !Full(first)
    ensures second.head == 2 && second.tail == 1 && second.out == 1 && second.count == 1
    ensures |outs| == 30 && |heads| == 30 && |tails| == 30
    ensures forall k :: 0 <= k < 30 ==> outs[k] == Counted(2, k)
    ensures forall k :: 0 <= k < 30 ==> heads[k] == (k + 3) % 4 && tails[k] == (k + 2) % 4
  {
    SameTimeEdges();
    var f := new Fifo();
    f.Step(true, 1, true);
    first := f.State();
    f.Step(true, 2, true);
    second := f.State();
    outs, heads, tails := SteadyRun(f, 2, 30);
    forall k | 0 <= k < 30 ensures heads[k] == (k + 3) % 4 && tails[k] == (k + 2) % 4 {
      assert tails[k] == (k + 2) % 4;
      NextSlot(k + 2);
    }
  }

  /** The first push of the keep-from-full bench: into the reset FIFO. */
  lemma KeepFromFullEdge1()
    ensures FifoNext(ResetState, true, 1, false) == FifoState([1, 0, 0, 0], 1, 0, 1, 0)
  {
  }

  /** The second push: into slot 1. */
  lemma KeepFromFullEdge2()
    ensures FifoNext(FifoState([1, 0, 0, 0], 1, 0, 1, 0), true, 2, false) == FifoState([1, 2, 0, 0], 2, 0, 2, 0)
  {
  }

  /** The third push: into slot 2. */
  lemma KeepFromFullEdge3()
    ensures FifoNext(FifoState([1, 2, 0, 0], 2, 0, 2, 0), true, 3, false) == FifoState([1, 2, 3, 0], 3, 0, 3, 0)
  {
  }

  /** The fourth push comes with a pop: the oldest word goes to the output and the count stays at 3. */
  lemma KeepFromFullEdge4()
    ensures FifoNext(FifoState([1, 2, 3, 0], 3, 0, 3, 0), true, 4, true) == FifoState([1, 2, 3, 4], 0, 1, 3, 1)
  {
  }

  /** Three pushes, then a fourth together with a pop: the oldest word comes
      out and the count stays at 3, so the FIFO never becomes full. */
  method PopKeepsFifoFromBeingFull() returns (three: FifoState, after: FifoState)
    ensures three.count == 3 && !Empty(three) && !Full(three)
    ensures after.out == 1 && after.count == 3 && !Empty(after) && !Full(after)
  {
    KeepFromFullEdge1();
    KeepFromFullEdge2();
    KeepFromFullEdge3();
    KeepFromFullEdge4();
    var f := new Fifo();
    f.Step(true, 1, false);
    f.Step(true, 2, false);
    f.Step(true, 3, false);
    three := f.State();
    f.Step(true, 4, true);
    after := f.State();
  }
}
