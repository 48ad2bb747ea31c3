/** Dividing the CoBo memory into the circular buffers of its four AsAd boards
    (runcontrol/EccClient.cpp, runcontrol/GetController.cpp). */
module CircularBuffers {
  import opened BitField
  import opened Options
  import opened Words

  datatype Register =
    | MemStartOf(asad: nat) | MemEndOf(asad: nat) | ReadPtrOf(asad: nat)
    | MemStart | MemEnd | InterruptRate | AFullLevel | AEmptyLevel

  datatype Region = Region(start: nat, end: nat)

  /** How a call ended: normally, with a refused register write, with a missing option, or
      dividing by the number of boards when there is none. */
  datatype Outcome = Done | CommandRefused | NotFound | DividedByZero

  // ---------- layouts ----------

  function Active(mask: nat, asad: nat): bool { Bit(mask, asad) }

  function BoardCount(mask: nat): (n: nat)
    ensures n <= 4
  {
    (if Active(mask, 0) then 1 else 0) + (if Active(mask, 1) then 1 else 0)
    + (if Active(mask, 2) then 1 else 0) + (if Active(mask, 3) then 1 else 0)
  }

  /** Three boards get a quarter each. */
  function Parts(mask: nat): nat {
    if BoardCount(mask) == 3 then 4 else BoardCount(mask)
  }

  /** 32-bit difference, then division. */
  function BufferSize(start: Word32, end: Word32, mask: nat): Word32
    requires BoardCount(mask) > 0
  {
    DivisionShrinks((end - start) % TWO_TO_THE_32, Parts(mask));
    (end - start) % TWO_TO_THE_32 / Parts(mask)
  }

  lemma DivisionShrinks(a: nat, n: nat)
    requires 0 < n <= 4
    ensures a / n <= a
  {
  }

  /** Where board k's buffer starts, adding up in 32 bits. */
  function SplitStart(start: Word32, size: Word32, mask: nat, k: nat): Word32 {
    if k == 0 then start
    else (SplitStart(start, size, mask, k - 1) + if Active(mask, k - 1) then size else 0) % TWO_TO_THE_32
  }

  function SplitRegionOf(start: Word32, size: Word32, mask: nat, k: nat): Region {
    Region(SplitStart(start, size, mask, k), SplitStart(start, size, mask, k + 1))
  }

  function EqualSplit(start: Word32, end: Word32, mask: nat): (layout: seq<Region>)
    requires BoardCount(mask) > 0
    ensures |layout| == 4
  {
    var size := BufferSize(start, end, mask);
    seq(4, k requires 0 <= k => SplitRegionOf(start, size, mask, k))
  }

  /** 32 MiB for each board. */
  const INITIAL_LAYOUT :=
    [Region(0x8000000, 0xA000000), Region(0xA000000, 0xC000000),
     Region(0xC000000, 0xE000000), Region(0xE000000, 0x10000000)]

  // ---------- the registers ----------

  predicate BoardDescribed(described: set<Register>, a: nat) {
    MemStartOf(a) in described && MemEndOf(a) in described && ReadPtrOf(a) in described
  }

  predicate BoardsDescribed(described: set<Register>) {
    forall a: nat :: a < 4 ==> BoardDescribed(described, a)
  }

  /** Two writes, the second only if the first is not refused. */
  function Both(described: set<Register>, regs: map<Register, nat>, r: Register, v: nat, q: Register, w: nat)
    : map<Register, nat>
  {
    if r !in described then regs
    else if q !in described then regs[r := v]
    else regs[r := v][q := w]
  }

  /** A write whose refusal is passed over. */
  function Optionally(described: set<Register>, regs: map<Register, nat>, r: Register, v: nat): map<Register, nat> {
    if r in described then regs[r := v] else regs
  }

  predicate CommonDescribed(described: set<Register>) {
    AFullLevel in described && AEmptyLevel in described
  }

  /** Interrupt rate, whose refusal is passed over, and the two levels. */
  function WithCommon(described: set<Register>, regs: map<Register, nat>, rate: nat, full: nat, empty: nat)
    : map<Register, nat>
  {
    Both(described, Optionally(described, regs, InterruptRate, rate), AFullLevel, full, AEmptyLevel, empty)
  }

  /** Start, end and read pointer of one board, as far as its registers are described. */
  function WithBoard(described: set<Register>, regs: map<Register, nat>, a: nat, region: Region): map<Register, nat> {
    var both := Both(described, regs, MemStartOf(a), region.start, MemEndOf(a), region.end);
    if BoardDescribed(described, a) then both[ReadPtrOf(a) := region.start] else both
  }

  predicate FirstDescribed(described: set<Register>, n: nat) {
    forall a: nat :: a < n ==> BoardDescribed(described, a)
  }

  /** The registers after the first n boards were to receive their regions, one after the other
      until a write is refused. */
  function WithBoards(described: set<Register>, regs: map<Register, nat>, layout: seq<Region>, n: nat)
    : map<Register, nat>
    requires n <= |layout|
  {
    if n == 0 then regs
    else
      var before := WithBoards(described, regs, layout, n - 1);
      if FirstDescribed(described, n - 1) then WithBoard(described, before, n - 1, layout[n - 1]) else before
  }

  /** The four boards' registers say exactly this layout, each read pointer at its start. */
  ghost predicate Holds(regs: map<Register, nat>, layout: seq<Region>) {
    && |layout| == 4
    && forall a: nat :: a < 4 ==> BoardHolds(regs, a, layout[a])
  }

  ghost predicate BoardHolds(regs: map<Register, nat>, a: nat, r: Region) {
    && MemStartOf(a) in regs && regs[MemStartOf(a)] == r.start
    && MemEndOf(a) in regs && regs[MemEndOf(a)] == r.end
    && ReadPtrOf(a) in regs && regs[ReadPtrOf(a)] == r.start
  }

  ghost predicate Same(before: map<Register, nat>, after: map<Register, nat>, r: Register) {
    (r in before <==> r in after) && (r in before ==> after[r] == before[r])
  }

  /** The three registers of a board are as they were. */
  ghost predicate BoardKept(before: map<Register, nat>, after: map<Register, nat>, a: nat) {
    Same(before, after, MemStartOf(a)) && Same(before, after, MemEndOf(a)) && Same(before, after, ReadPtrOf(a))
  }

  /** On a full hardware description the first n boards hold their regions, the others what they did. */
  lemma {:induction false} WithBoardsHold(described: set<Register>, regs: map<Register, nat>, layout: seq<Region>,
                                          n: nat)
    requires n <= |layout| && FirstDescribed(described, n)
    ensures forall a: nat :: a < n ==> BoardHolds(WithBoards(described, regs, layout, n), a, layout[a])
    ensures forall a: nat :: a >= n ==> BoardKept(regs, WithBoards(described, regs, layout, n), a)
  {
    if n > 0 {
      assert BoardDescribed(described, n - 1);
      WithBoardsHold(described, regs, layout, n - 1);
      var before, after := WithBoards(described, regs, layout, n - 1), WithBoards(described, regs, layout, n);
      assert after == WithBoard(described, before, n - 1, layout[n - 1]);
      forall a: nat | a < n ensures BoardHolds(after, a, layout[a]) {
        assert a < n - 1 ==> BoardHolds(before, a, layout[a]);
      }
      forall a: nat | a >= n ensures BoardKept(regs, after, a) {
        assert BoardKept(regs, before, a);
      }
    }
  }

  lemma CommonKeepsBoards(described: set<Register>, regs: map<Register, nat>, rate: nat, full: nat, empty: nat, a: nat)
    ensures BoardKept(regs, WithCommon(described, regs, rate, full, empty), a)
  {
  }

  lemma InitialLayoutHolds(described: set<Register>, regs: map<Register, nat>)
    requires BoardsDescribed(described)
    ensures var boards := WithBoards(described, regs, INITIAL_LAYOUT, 4);
            Holds(WithCommon(described, boards, 0x1, 0x0100_0000, 0x0100_0000), INITIAL_LAYOUT)
  {
    WithBoardsHold(described, regs, INITIAL_LAYOUT, 4);
    var boards := WithBoards(described, regs, INITIAL_LAYOUT, 4);
    var after := WithCommon(described, boards, 0x1, 0x0100_0000, 0x0100_0000);
    forall a: nat | a < 4 ensures BoardHolds(after, a, INITIAL_LAYOUT[a]) {
      CommonKeepsBoards(described, boards, 0x1, 0x0100_0000, 0x0100_0000, a);
      assert BoardHolds(boards, a, INITIAL_LAYOUT[a]);
    }
  }

  class CtrlDevice {
    const described: set<Register>
    var regs: map<Register, nat>

    constructor (described: set<Register>)
      ensures this.described == described && regs == map[]
    {
      this.described := described;
      regs := map[];
    }

    /** Registers the hardware description lacks are refused. */
    method WriteRegister(r: Register, value: nat) returns (ok: bool)
      modifies this
      ensures ok <==> r in described
      ensures regs == if ok then old(regs)[r := value] else old(regs)
      ensures old(regs).Keys <= described ==> regs.Keys <= described
    {
      ok := r in described;
      if ok { regs := regs[r := value]; }
    }
  }

  class BufferClient {
    const ctrl: CtrlDevice
    var asadMask: nat

    constructor (ctrl: CtrlDevice, asadMask: nat)
      ensures this.ctrl == ctrl && this.asadMask == asadMask
    {
      this.ctrl := ctrl;
      this.asadMask := asadMask;
    }

    method SetAsAdCircularBuffer(asadIdx: nat, startOfMemory: nat, endOfMemory: nat) returns (ok: bool)
      requires asadIdx < 4
      modifies ctrl
      ensures ok <==> BoardDescribed(ctrl.described, asadIdx)
      ensures ctrl.regs == WithBoard(ctrl.described, old(ctrl.regs), asadIdx, Region(startOfMemory, endOfMemory))
    {
      ok := ctrl.WriteRegister(MemStartOf(asadIdx), startOfMemory);
      if !ok { return; }
      ok := ctrl.WriteRegister(MemEndOf(asadIdx), endOfMemory);
      if !ok { return; }
      ok := ctrl.WriteRegister(ReadPtrOf(asadIdx), startOfMemory);
    }

    /** The initial layout, one event per interrupt, and both levels at 16 MiB. */
    method CircularBufferInit() returns (outcome: Outcome)
      modifies ctrl
      ensures outcome == Done || outcome == CommandRefused
      ensures outcome == Done <==> BoardsDescribed(ctrl.described) && CommonDescribed(ctrl.described)
      ensures var boards := WithBoards(ctrl.described, old(ctrl.regs), INITIAL_LAYOUT, 4);
              ctrl.regs == if BoardsDescribed(ctrl.described)
                           then WithCommon(ctrl.described, boards, 0x1, 0x0100_0000, 0x0100_0000) else boards
      ensures BoardsDescribed(ctrl.described) ==> Holds(ctrl.regs, INITIAL_LAYOUT)
      ensures outcome == Done ==>
              && AFullLevel in ctrl.regs && ctrl.regs[AFullLevel] == 0x0100_0000
              && AEmptyLevel in ctrl.regs && ctrl.regs[AEmptyLevel] == 0x0100_0000
              && (InterruptRate in ctrl.described ==> InterruptRate in ctrl.regs && ctrl.regs[InterruptRate] == 1)
    {
      var memStart0 := 0x8000000;
      var bufferSize := 0x2000000;
      ghost var before := ctrl.regs;
      var asadIdx := 0;
      while asadIdx < 4
        invariant 0 <= asadIdx <= 4 && FirstDescribed(ctrl.described, asadIdx)
        invariant ctrl.regs == WithBoards(ctrl.described, before, INITIAL_LAYOUT, asadIdx)
      {
        var memStart := memStart0 + asadIdx * bufferSize;
        assert INITIAL_LAYOUT[asadIdx] == Region(memStart, memStart + bufferSize);
        var ok := SetAsAdCircularBuffer(asadIdx, memStart, memStart + bufferSize);
        asadIdx := asadIdx + 1;
        if !ok {
          WithBoardsRefused(ctrl.described, before, INITIAL_LAYOUT, asadIdx, 4);
          return CommandRefused;
        }
      }
      InitialLayoutHolds(ctrl.described, before);
      var _ := ctrl.WriteRegister(InterruptRate, 0x1);
      var ok := ctrl.WriteRegister(AFullLevel, 0x01000000);
      if !ok { return CommandRefused; }
      ok := ctrl.WriteRegister(AEmptyLevel, 0x01000000);
      if !ok { return CommandRefused; }
      outcome := Done;
    }

    /** The equal split; where a board's registers are not described, the two registers of a
        single buffer are written instead. */
    method SetCircularBuffers(startOfMemory: Word32, endOfMemory: Word32) returns (outcome: Outcome)
      modifies ctrl
      ensures BoardCount(asadMask) == 0 ==> outcome == DividedByZero && ctrl.regs == old(ctrl.regs)
      ensures BoardCount(asadMask) > 0 ==>
              var layout := EqualSplit(startOfMemory, endOfMemory, asadMask);
              var boards := WithBoards(ctrl.described, old(ctrl.regs), layout, 4);
              if BoardsDescribed(ctrl.described) then outcome == Done && ctrl.regs == boards
              else
                && ctrl.regs == Both(ctrl.described, boards, MemStart, startOfMemory, MemEnd, endOfMemory)
                && outcome == if MemStart in ctrl.described && MemEnd in ctrl.described then Done else CommandRefused
    {
      var asadBufferSize := (endOfMemory - startOfMemory) % TWO_TO_THE_32;
      var numAsAdBoards := 0;
      var asadIdx := 0;
      while asadIdx < 4
        invariant 0 <= asadIdx <= 4 && numAsAdBoards == CountBelow(asadMask, asadIdx)
      {
        if Active(asadMask, asadIdx) { numAsAdBoards := numAsAdBoards + 1; }
        asadIdx := asadIdx + 1;
      }
      CountOfFour(asadMask);
      if numAsAdBoards == 3 { numAsAdBoards := 4; }
      if numAsAdBoards == 0 { return DividedByZero; }
      asadBufferSize := asadBufferSize / numAsAdBoards;
      var ok := WriteSplit(startOfMemory, asadBufferSize, EqualSplit(startOfMemory, endOfMemory, asadMask));
      if !ok {
        ok := ctrl.WriteRegister(MemStart, startOfMemory);
        if !ok { return CommandRefused; }
        ok := ctrl.WriteRegister(MemEnd, endOfMemory);
        if !ok { return CommandRefused; }
      }
      outcome := Done;
    }

    /** The loop over the boards, which the first refused write ends. */
    method WriteSplit(startOfMemory: Word32, asadBufferSize: Word32, ghost layout: seq<Region>) returns (ok: bool)
      requires |layout| == 4
      requires forall k: nat :: k < 4 ==> layout[k] == SplitRegionOf(startOfMemory, asadBufferSize, asadMask, k)
      modifies ctrl
      ensures ok <==> BoardsDescribed(ctrl.described)
      ensures ctrl.regs == WithBoards(ctrl.described, old(ctrl.regs), layout, 4)
    {
      ghost var before := ctrl.regs;
      var asadMemStart := startOfMemory;
      var asadIdx := 0;
      while asadIdx < 4
        invariant 0 <= asadIdx <= 4 && FirstDescribed(ctrl.described, asadIdx)
        invariant asadMemStart == SplitStart(startOfMemory, asadBufferSize, asadMask, asadIdx)
        invariant ctrl.regs == WithBoards(ctrl.described, before, layout, asadIdx)
      {
        var currentBufferSize := if Active(asadMask, asadIdx) then asadBufferSize else 0;
        var next := (asadMemStart + currentBufferSize) % TWO_TO_THE_32;
        assert layout[asadIdx] == Region(asadMemStart, next);
        ok := SetAsAdCircularBuffer(asadIdx, asadMemStart, next);
        asadIdx := asadIdx + 1;
        if !ok {
          WithBoardsRefused(ctrl.described, before, layout, asadIdx, 4);
          return;
        }
        asadMemStart := next;
      }
      ok := true;
    }
  }

  /** Once a write was refused, the boards after it receive nothing. */
  lemma {:induction false} WithBoardsRefused(described: set<Register>, regs: map<Register, nat>, layout: seq<Region>,
                                             n: nat, m: nat)
    requires n <= m <= |layout| && !FirstDescribed(described, n)
    ensures WithBoards(described, regs, layout, m) == WithBoards(described, regs, layout, n)
  {
    if n < m { WithBoardsRefused(described, regs, layout, n, m - 1); }
  }

  function CountBelow(mask: nat, n: nat): nat {
    if n == 0 then 0 else CountBelow(mask, n - 1) + if Active(mask, n - 1) then 1 else 0
  }

  lemma CountOfFour(mask: nat)
    ensures CountBelow(mask, 4) == BoardCount(mask)
  {
    assert CountBelow(mask, 1) == if Active(mask, 0) then 1 else 0;
    assert CountBelow(mask, 2) == CountBelow(mask, 1) + if Active(mask, 1) then 1 else 0;
    assert CountBelow(mask, 3) == CountBelow(mask, 2) + if Active(mask, 2) then 1 else 0;
  }

  // ---------- what an equal split guarantees ----------

  /** Region k, written out. */
  lemma SplitRegion(start: Word32, end: Word32, mask: nat, k: nat)
    requires BoardCount(mask) > 0 && k < 4
    ensures var layout := EqualSplit(start, end, mask);
            var size := BufferSize(start, end, mask);
            && layout[k].start == SplitStart(start, size, mask, k)
            && layout[k].end == (layout[k].start + if Active(mask, k) then size else 0) % TWO_TO_THE_32
            && (k > 0 ==> layout[k].start == layout[k - 1].end)
            && layout[0].start == start
  {
  }

  /** n parts of a total, n at most four, leave less than n over. */
  lemma PartsFit(total: nat, n: nat)
    requires 0 < n <= 4
    ensures Times(total / n, n) <= total < Times(total / n, n) + n
  {
    TimesSmall(total / n);
    if n == 1 {
      assert total / 1 == total;
    } else if n == 2 {
      assert 2 * (total / 2) <= total < 2 * (total / 2) + 2;
    } else if n == 3 {
      assert 3 * (total / 3) <= total < 3 * (total / 3) + 3;
    } else {
      assert 4 * (total / 4) <= total < 4 * (total / 4) + 4;
    }
  }

  /** The size never overruns, and what is left over is known. */
  lemma SizeOfShare(start: Word32, end: Word32, mask: nat)
    requires start <= end && BoardCount(mask) > 0
    ensures var size := BufferSize(start, end, mask);
            && (BoardCount(mask) != 3 ==>
                Times(size, BoardCount(mask)) <= end - start < Times(size, BoardCount(mask)) + BoardCount(mask))
            && (BoardCount(mask) == 3 ==> Times(size, 3) + size <= end - start < Times(size, 3) + size + 4)
  {
    SizeIs(start, end, mask);
    PartsFit(end - start, Parts(mask));
    FourTimes(BufferSize(start, end, mask));
  }

  lemma SizeIs(start: Word32, end: Word32, mask: nat)
    requires start <= end && BoardCount(mask) > 0
    ensures BufferSize(start, end, mask) == (end - start) / Parts(mask)
  {
  }

  lemma FourTimes(size: nat)
    ensures Times(size, 4) == size + Times(size, 3)
  {
  }

  function Times(size: nat, n: nat): nat {
    if n == 0 then 0 else size + Times(size, n - 1)
  }

  lemma TimesSmall(size: nat)
    ensures Times(size, 1) == size && Times(size, 2) == 2 * size && Times(size, 3) == 3 * size
            && Times(size, 4) == 4 * size
  {
  }

  lemma {:induction false} TimesMonotone(size: nat, m: nat, n: nat)
    requires m <= n
    ensures Times(size, m) <= Times(size, n)
  {
    if m < n { TimesMonotone(size, m, n - 1); }
  }

  lemma {:induction false} CountMonotone(mask: nat, k: nat, n: nat)
    requires k <= n
    ensures CountBelow(mask, k) <= CountBelow(mask, n)
  {
    if k < n { CountMonotone(mask, k, n - 1); }
  }

  /** Without wrap-around, board k starts after the shares of the active boards before it. */
  lemma {:induction false} SplitStartIs(start: Word32, size: Word32, mask: nat, k: nat, end: Word32)
    requires start + Times(size, CountBelow(mask, k)) <= end
    ensures SplitStart(start, size, mask, k) == start + Times(size, CountBelow(mask, k))
  {
    if k > 0 {
      CountMonotone(mask, k - 1, k);
      TimesMonotone(size, CountBelow(mask, k - 1), CountBelow(mask, k));
      SplitStartIs(start, size, mask, k - 1, end);
    }
  }

  lemma SharesFit(start: Word32, end: Word32, mask: nat, k: nat)
    requires start <= end && BoardCount(mask) > 0 && k <= 4
    ensures start + Times(BufferSize(start, end, mask), CountBelow(mask, k)) <= end
    ensures SplitStart(start, BufferSize(start, end, mask), mask, k)
         == start + Times(BufferSize(start, end, mask), CountBelow(mask, k))
  {
    var size := BufferSize(start, end, mask);
    SizeOfShare(start, end, mask);
    CountOfFour(mask);
    CountMonotone(mask, k, 4);
    TimesMonotone(size, CountBelow(mask, k), CountBelow(mask, 4));
    SplitStartIs(start, size, mask, k, end);
  }

  /** The first starts where the memory does, and each where the one before it ended. */
  ghost predicate Consecutive(layout: seq<Region>, start: nat)
    requires |layout| == 4
  {
    layout[0].start == start && forall k :: 0 < k < 4 ==> layout[k].start == layout[k - 1].end
  }

  ghost predicate Inside(layout: seq<Region>, start: nat, end: nat) {
    forall r :: r in layout ==> start <= r.start <= r.end <= end
  }

  ghost predicate DisjointRegions(layout: seq<Region>) {
    forall i, j :: 0 <= i < j < |layout| ==> layout[i].end <= layout[j].start
  }

  /** Active boards get the same size, inactive ones nothing. */
  ghost predicate FairShares(layout: seq<Region>, mask: nat, size: nat)
    requires |layout| == 4
  {
    forall k: nat :: k < 4 ==> layout[k].end == layout[k].start + if Active(mask, k) then size else 0
  }

  /** Region k by its place among the active boards. */
  lemma SplitPlaces(start: Word32, end: Word32, mask: nat, k: nat)
    requires start <= end && BoardCount(mask) > 0 && k < 4
    ensures var r := EqualSplit(start, end, mask)[k];
            var size := BufferSize(start, end, mask);
            && start <= r.start <= r.end <= end
            && r.end == r.start + (if Active(mask, k) then size else 0)
            && r.end == start + Times(size, CountBelow(mask, k + 1))
  {
    var size := BufferSize(start, end, mask);
    SharesFit(start, end, mask, k);
    SharesFit(start, end, mask, k + 1);
    NextShare(size, mask, k);
    assert EqualSplit(start, end, mask)[k] == SplitRegionOf(start, size, mask, k);
  }

  lemma NextShare(size: nat, mask: nat, k: nat)
    ensures Times(size, CountBelow(mask, k + 1))
         == Times(size, CountBelow(mask, k)) + if Active(mask, k) then size else 0
  {
  }

  /** Each region starts where the one before it ended. */
  lemma SplitConsecutive(start: Word32, end: Word32, mask: nat)
    requires BoardCount(mask) > 0
    ensures Consecutive(EqualSplit(start, end, mask), start)
  {
  }

  /** Consecutive regions that do not run backwards are disjoint. */
  lemma ConsecutiveDisjoint(layout: seq<Region>, start: nat, end: nat)
    requires |layout| == 4 && Consecutive(layout, start) && Inside(layout, start, end)
    ensures DisjointRegions(layout)
  {
    assert layout[1] in layout && layout[2] in layout;
    assert layout[0].end == layout[1].start && layout[1].end == layout[2].start && layout[2].end == layout[3].start;
  }

  /** An equal split of a proper range is a sound allocation that wastes less than a byte per
      board, or with three boards the fourth quarter and less than a byte per quarter. */
  lemma SplitSound(start: Word32, end: Word32, mask: nat)
    requires start <= end && BoardCount(mask) > 0
    ensures var layout := EqualSplit(start, end, mask);
            var size := BufferSize(start, end, mask);
            && Consecutive(layout, start) && Inside(layout, start, end) && DisjointRegions(layout)
            && FairShares(layout, mask, size)
            && if BoardCount(mask) == 3 then size <= end - layout[3].end < size + 4
               else end - layout[3].end < BoardCount(mask)
  {
    var layout := EqualSplit(start, end, mask);
    forall r | r in layout ensures start <= r.start <= r.end <= end {
      var k :| 0 <= k < 4 && layout[k] == r;
      SplitPlaces(start, end, mask, k);
    }
    SplitConsecutive(start, end, mask);
    ConsecutiveDisjoint(layout, start, end);
    SplitFair(start, end, mask);
    SplitTail(start, end, mask);
  }

  lemma SplitFair(start: Word32, end: Word32, mask: nat)
    requires start <= end && BoardCount(mask) > 0
    ensures FairShares(EqualSplit(start, end, mask), mask, BufferSize(start, end, mask))
  {
    forall k: nat | k < 4
      ensures EqualSplit(start, end, mask)[k].end
           == EqualSplit(start, end, mask)[k].start + if Active(mask, k) then BufferSize(start, end, mask) else 0
    {
      SplitPlaces(start, end, mask, k);
    }
  }

  lemma SplitTail(start: Word32, end: Word32, mask: nat)
    requires start <= end && BoardCount(mask) > 0
    ensures var tail := end - EqualSplit(start, end, mask)[3].end;
            if BoardCount(mask) == 3 then BufferSize(start, end, mask) <= tail < BufferSize(start, end, mask) + 4
            else tail < BoardCount(mask)
  {
    SplitPlaces(start, end, mask, 3);
    CountOfFour(mask);
    SizeOfShare(start, end, mask);
  }

  /** The regions lie inside the given range exactly when it does not end before it starts. */
  lemma SplitInsideExactly(start: Word32, end: Word32, mask: nat)
    requires BoardCount(mask) > 0
    ensures Inside(EqualSplit(start, end, mask), start, end) <==> start <= end
  {
    if start <= end {
      SplitSound(start, end, mask);
    } else {
      assert EqualSplit(start, end, mask)[0] in EqualSplit(start, end, mask);
    }
  }

  /** With four boards the split of the initial range is the initial layout. */
  lemma FourBoardsAreInitial(mask: nat)
    requires BoardCount(mask) == 4
    ensures EqualSplit(0x8000000, 0x10000000, mask) == INITIAL_LAYOUT
  {
    assert BufferSize(0x8000000, 0x10000000, mask) == 0x2000000;
    QuarterRegion(0x8000000, 0x10000000, mask, 0);
    QuarterRegion(0x8000000, 0x10000000, mask, 1);
    QuarterRegion(0x8000000, 0x10000000, mask, 2);
    QuarterRegion(0x8000000, 0x10000000, mask, 3);
  }

  lemma QuarterRegion(start: Word32, end: Word32, mask: nat, k: nat)
    requires start <= end && BoardCount(mask) == 4 && k < 4
    ensures var size := BufferSize(start, end, mask);
            EqualSplit(start, end, mask)[k] == Region(start + k * size, start + (k + 1) * size)
  {
    SplitPlaces(start, end, mask, k);
    TimesSmall(BufferSize(start, end, mask));
    assert CountBelow(mask, 1) == 1;
    assert CountBelow(mask, 2) == 2;
    assert CountBelow(mask, 3) == 3;
    assert CountBelow(mask, k + 1) == k + 1;
  }

  // ---------- choosing the layout from the configuration ----------

  datatype BoardRange = BoardRange(startOfMemory: Option<Word32>, endOfMemory: Option<Word32>)

  datatype BufferConfig = BufferConfig(
    coboActive: bool, interruptRate: Option<Word32>, levelAlmostFullMemory: Option<Word32>,
    levelAlmostEmptyMemory: Option<Word32>, startOfMemory: Option<Word32>, endOfMemory: Option<Word32>,
    boards: seq<BoardRange>)

  /** Parameters of an inactive CoBo are 0. */
  function Parameter(cfg: BufferConfig, p: Option<Word32>): Option<Word32> {
    if cfg.coboActive then p else Some(0)
  }

  predicate BoardGiven(b: BoardRange) { b.startOfMemory.Some? && b.endOfMemory.Some? }

  predicate AllBoardsGiven(cfg: BufferConfig)
    requires |cfg.boards| == 4
  {
    forall a :: 0 <= a < 4 ==> BoardGiven(cfg.boards[a])
  }

  function CustomRegion(b: BoardRange): Region {
    Region(if b.startOfMemory.Some? then b.startOfMemory.value else 0,
           if b.endOfMemory.Some? then b.endOfMemory.value else 0)
  }

  function CustomLayout(cfg: BufferConfig): (layout: seq<Region>)
    requires |cfg.boards| == 4
    ensures |layout| == 4
  {
    [CustomRegion(cfg.boards[0]), CustomRegion(cfg.boards[1]), CustomRegion(cfg.boards[2]), CustomRegion(cfg.boards[3])]
  }

  predicate LevelsGiven(cfg: BufferConfig) {
    Parameter(cfg, cfg.levelAlmostFullMemory).Some? && Parameter(cfg, cfg.levelAlmostEmptyMemory).Some?
  }

  /** Both CoBo-level addresses are there. */
  predicate RangeGiven(cfg: BufferConfig) {
    Parameter(cfg, cfg.startOfMemory).Some? && Parameter(cfg, cfg.endOfMemory).Some?
  }

  /** What the CoBo-level parameters must offer. */
  predicate CanFinish(cfg: BufferConfig, mask: nat)
    requires |cfg.boards| == 4
  {
    LevelsGiven(cfg) && (AllBoardsGiven(cfg) || (RangeGiven(cfg) && BoardCount(mask) > 0))
  }

  /** The equal split of the range the CoBo-level addresses give. */
  function SplitOf(cfg: BufferConfig, mask: nat): (layout: seq<Region>)
    requires RangeGiven(cfg) && BoardCount(mask) > 0
    ensures |layout| == 4
  {
    EqualSplit(Parameter(cfg, cfg.startOfMemory).value, Parameter(cfg, cfg.endOfMemory).value, mask)
  }

  /** The layout a configuration asks for: its own, or the equal split when any board lacks an address. */
  function ChosenLayout(cfg: BufferConfig, mask: nat): (layout: seq<Region>)
    requires |cfg.boards| == 4 && CanFinish(cfg, mask)
    ensures |layout| == 4
  {
    if AllBoardsGiven(cfg) then CustomLayout(cfg) else SplitOf(cfg, mask)
  }

  /** How many boards have both addresses before the first that lacks one. */
  function Leading(boards: seq<BoardRange>): (n: nat)
    ensures n <= |boards| && (forall a :: 0 <= a < n ==> BoardGiven(boards[a]))
    ensures n < |boards| ==> !BoardGiven(boards[n])
  {
    if boards == [] || !BoardGiven(boards[0]) then 0 else 1 + Leading(boards[1..])
  }

  /** What a call leaves in the registers of the four boards: nothing new when a level is
      missing, the chosen layout when it returns, and otherwise the regions of the boards
      before the first that lacks an address. */
  ghost predicate BoardsAfter(before: map<Register, nat>, after: map<Register, nat>, cfg: BufferConfig, mask: nat)
    requires |cfg.boards| == 4
  {
    if CanFinish(cfg, mask) then Holds(after, ChosenLayout(cfg, mask))
    else forall a: nat :: a < 4 ==>
      if LevelsGiven(cfg) && a < Leading(cfg.boards) then BoardHolds(after, a, CustomLayout(cfg)[a])
      else BoardKept(before, after, a)
  }

  /** How a call ends and what it leaves in the registers, for any hardware description. */
  function After(described: set<Register>, regs: map<Register, nat>, cfg: BufferConfig, mask: nat)
    : (Outcome, map<Register, nat>)
    requires |cfg.boards| == 4
  {
    if !LevelsGiven(cfg) then (NotFound, regs)
    else
      var common := CommonWritten(described, regs, cfg);
      if !CommonDescribed(described) then (CommandRefused, common)
      else
        var n := Leading(cfg.boards);
        var own := WithBoards(described, common, CustomLayout(cfg), n);
        if !FirstDescribed(described, n) then (CommandRefused, own)
        else if n == 4 then (Done, own)
        else if !RangeGiven(cfg) then (NotFound, own)
        else if BoardCount(mask) == 0 then (DividedByZero, own)
        else SplitWritten(described, own, cfg, mask)
  }

  /** The first step of a call: a missing interrupt rate is taken as 1. */
  function CommonWritten(described: set<Register>, regs: map<Register, nat>, cfg: BufferConfig): map<Register, nat>
    requires LevelsGiven(cfg)
  {
    var rate := Parameter(cfg, cfg.interruptRate);
    WithCommon(described, regs, if rate.Some? then rate.value else 1,
               Parameter(cfg, cfg.levelAlmostFullMemory).value, Parameter(cfg, cfg.levelAlmostEmptyMemory).value)
  }

  /** The last step: the equal split, and the range of a single buffer where that is refused. */
  function SplitWritten(described: set<Register>, regs: map<Register, nat>, cfg: BufferConfig, mask: nat)
    : (Outcome, map<Register, nat>)
    requires RangeGiven(cfg) && BoardCount(mask) > 0
  {
    var split := WithBoards(described, regs, SplitOf(cfg, mask), 4);
    if BoardsDescribed(described) then (Done, split)
    else
      (if MemStart in described && MemEnd in described then Done else CommandRefused,
       Both(described, split, MemStart, Parameter(cfg, cfg.startOfMemory).value,
            MemEnd, Parameter(cfg, cfg.endOfMemory).value))
  }

  class BufferController {
    const client: BufferClient

    constructor (client: BufferClient)
      ensures this.client == client
    {
      this.client := client;
    }

    method SetCommonParameters(eventsPerInterrupt: Word32, levelAlmostFull: Word32, levelAlmostEmpty: Word32)
      returns (ok: bool)
      modifies client.ctrl
      ensures ok <==> CommonDescribed(client.ctrl.described)
      ensures client.ctrl.regs
           == WithCommon(client.ctrl.described, old(client.ctrl.regs),
                         eventsPerInterrupt, levelAlmostFull, levelAlmostEmpty)
    {
      var _ := client.ctrl.WriteRegister(InterruptRate, eventsPerInterrupt);
      ok := client.ctrl.WriteRegister(AFullLevel, levelAlmostFull);
      if !ok { return; }
      ok := client.ctrl.WriteRegister(AEmptyLevel, levelAlmostEmpty);
    }

    /** The boards' own regions, until one lacks an address or a write is refused. */
    method SetOwnBuffers(cfg: BufferConfig) returns (found: bool, refused: bool)
      requires |cfg.boards| == 4
      modifies client.ctrl
      ensures refused <==> !FirstDescribed(client.ctrl.described, Leading(cfg.boards))
      ensures !refused ==> (found <==> Leading(cfg.boards) == 4)
      ensures client.ctrl.regs
           == WithBoards(client.ctrl.described, old(client.ctrl.regs), CustomLayout(cfg), Leading(cfg.boards))
    {
      found, refused := true, false;
      ghost var before := client.ctrl.regs;
      var asadIdx := 0;
      while asadIdx < 4
        invariant 0 <= asadIdx <= 4 && found && !refused && FirstDescribed(client.ctrl.described, asadIdx)
        invariant forall a :: 0 <= a < asadIdx ==> BoardGiven(cfg.boards[a])
        invariant client.ctrl.regs == WithBoards(client.ctrl.described, before, CustomLayout(cfg), asadIdx)
      {
        var board := cfg.boards[asadIdx];
        if board.startOfMemory.None? || board.endOfMemory.None? {
          found := false;
          return;
        }
        assert CustomLayout(cfg)[asadIdx] == Region(board.startOfMemory.value, board.endOfMemory.value);
        var ok := client.SetAsAdCircularBuffer(asadIdx, board.startOfMemory.value, board.endOfMemory.value);
        asadIdx := asadIdx + 1;
        if !ok {
          WithBoardsRefused(client.ctrl.described, before, CustomLayout(cfg), asadIdx, Leading(cfg.boards));
          refused := true;
          return;
        }
      }
    }

    /** For any hardware description.  `FullDescription` says what this means for the boards when
        all registers are described; a call that throws, or one that returns although some board
        register is not described, may leave a mixture: see `AllOrNothingExactly`. */
    method SetCircularBuffers(cfg: BufferConfig) returns (outcome: Outcome)
      requires |cfg.boards| == 4
      modifies client.ctrl
      ensures (outcome, client.ctrl.regs) == After(client.ctrl.described, old(client.ctrl.regs), cfg, client.asadMask)
    {
      var eventsPerInterrupt := 1;
      var rate := Parameter(cfg, cfg.interruptRate);
      if rate.Some? { eventsPerInterrupt := rate.value; }
      var full := Parameter(cfg, cfg.levelAlmostFullMemory);
      if full.None? { return NotFound; }
      var empty := Parameter(cfg, cfg.levelAlmostEmptyMemory);
      if empty.None? { return NotFound; }
      var ok := SetCommonParameters(eventsPerInterrupt, full.value, empty.value);
      if !ok { return CommandRefused; }

      var found, refused := SetOwnBuffers(cfg);
      if refused { return CommandRefused; }
      outcome := Done;
      if !found {
        var start := Parameter(cfg, cfg.startOfMemory);
        if start.None? { return NotFound; }
        var end := Parameter(cfg, cfg.endOfMemory);
        if end.None? { return NotFound; }
        outcome := client.SetCircularBuffers(start.value, end.value);
      }
    }
  }

  // ---------- what a call does to the boards ----------

  /** What the writes for the first n boards do to the registers of board a alone. */
  lemma {:induction false} EffectOnBoard(described: set<Register>, regs: map<Register, nat>, layout: seq<Region>,
                                         n: nat, a: nat)
    requires n <= |layout|
    ensures var after := WithBoards(described, regs, layout, n);
            if a < n && FirstDescribed(described, a)
            then BoardKept(WithBoard(described, regs, a, layout[a]), after, a) else BoardKept(regs, after, a)
  {
    if n > 0 { EffectOnBoard(described, regs, layout, n - 1, a); }
  }

  /** The writes for a board go as far as its registers are described, and what they would put
      there is there. */
  ghost predicate BoardThere(described: set<Register>, regs: map<Register, nat>, a: nat, r: Region) {
    && (MemStartOf(a) in described ==> MemStartOf(a) in regs && regs[MemStartOf(a)] == r.start)
    && (MemStartOf(a) in described && MemEndOf(a) in described ==> MemEndOf(a) in regs && regs[MemEndOf(a)] == r.end)
    && (BoardDescribed(described, a) ==> ReadPtrOf(a) in regs && regs[ReadPtrOf(a)] == r.start)
  }

  lemma KeptIfThere(described: set<Register>, regs: map<Register, nat>, a: nat, r: Region)
    ensures BoardKept(regs, WithBoard(described, regs, a, r), a) <==> BoardThere(described, regs, a, r)
  {
  }

  /** The regions the last writes are for, and for how many boards. */
  function LastWritten(described: set<Register>, cfg: BufferConfig, mask: nat): (last: (seq<Region>, nat))
    requires |cfg.boards| == 4
    ensures |last.0| == 4 && last.1 <= 4
  {
    var n := Leading(cfg.boards);
    if n < 4 && FirstDescribed(described, n) && RangeGiven(cfg) && BoardCount(mask) > 0 then (SplitOf(cfg, mask), 4)
    else (CustomLayout(cfg), n)
  }

  /** Whether the writes for board a are reached. */
  predicate Reached(described: set<Register>, cfg: BufferConfig, mask: nat, a: nat)
    requires |cfg.boards| == 4
  {
    a < LastWritten(described, cfg, mask).1 && FirstDescribed(described, a)
  }

  /** The call as it bears on board a: only the last region written for it counts. */
  lemma AfterOnBoard(described: set<Register>, regs: map<Register, nat>, cfg: BufferConfig, mask: nat, a: nat)
    requires |cfg.boards| == 4 && a < 4 && LevelsGiven(cfg) && CommonDescribed(described)
    ensures var after := After(described, regs, cfg, mask).1;
            if Reached(described, cfg, mask, a)
            then BoardKept(WithBoard(described, regs, a, LastWritten(described, cfg, mask).0[a]), after, a)
            else BoardKept(regs, after, a)
  {
    var n := Leading(cfg.boards);
    var common := CommonWritten(described, regs, cfg);
    var own := WithBoards(described, common, CustomLayout(cfg), n);
    CommonKeeps(described, regs, cfg, a);
    OwnOnBoard(described, regs, common, CustomLayout(cfg), n, a);
    if n < 4 && FirstDescribed(described, n) && RangeGiven(cfg) && BoardCount(mask) > 0 {
      SplitOnBoard(described, own, cfg, mask, a);
      if FirstDescribed(described, a) {
        Overwritten(described, regs, own, a, CustomLayout(cfg)[a], SplitOf(cfg, mask)[a]);
      }
    }
  }

  lemma CommonKeeps(described: set<Register>, regs: map<Register, nat>, cfg: BufferConfig, a: nat)
    requires LevelsGiven(cfg)
    ensures BoardKept(regs, CommonWritten(described, regs, cfg), a)
  {
  }

  lemma OwnOnBoard(described: set<Register>, regs: map<Register, nat>, common: map<Register, nat>, layout: seq<Region>,
                   n: nat, a: nat)
    requires n <= |layout| && BoardKept(regs, common, a)
    ensures var own := WithBoards(described, common, layout, n);
            if a < n && FirstDescribed(described, a)
            then BoardKept(WithBoard(described, regs, a, layout[a]), own, a) else BoardKept(regs, own, a)
  {
    EffectOnBoard(described, common, layout, n, a);
    if a < n { WithBoardSame(described, regs, common, a, layout[a]); }
  }

  lemma WithBoardSame(described: set<Register>, regs: map<Register, nat>, common: map<Register, nat>, a: nat, r: Region)
    requires BoardKept(regs, common, a)
    ensures BoardKept(WithBoard(described, regs, a, r), WithBoard(described, common, a, r), a)
  {
  }

  lemma SplitOnBoard(described: set<Register>, own: map<Register, nat>, cfg: BufferConfig, mask: nat, a: nat)
    requires RangeGiven(cfg) && BoardCount(mask) > 0 && a < 4
    ensures var after := SplitWritten(described, own, cfg, mask).1;
            if FirstDescribed(described, a)
            then BoardKept(WithBoard(described, own, a, SplitOf(cfg, mask)[a]), after, a) else BoardKept(own, after, a)
  {
    EffectOnBoard(described, own, SplitOf(cfg, mask), 4, a);
  }

  /** A board's second region replaces its first. */
  lemma Overwritten(described: set<Register>, regs: map<Register, nat>, own: map<Register, nat>, a: nat,
                    first: Region, second: Region)
    requires BoardKept(regs, own, a)
             || (BoardDescribed(described, a) && BoardKept(WithBoard(described, regs, a, first), own, a))
    ensures BoardKept(WithBoard(described, regs, a, second), WithBoard(described, own, a, second), a)
  {
  }

  /** On a full hardware description the options alone decide how a call ends.  When it returns,
      all four boards have their own regions or all four the equal split. */
  lemma FullDescription(described: set<Register>, regs: map<Register, nat>, cfg: BufferConfig, mask: nat)
    requires |cfg.boards| == 4 && BoardsDescribed(described) && CommonDescribed(described)
    ensures var (outcome, after) := After(described, regs, cfg, mask);
            && outcome == (if CanFinish(cfg, mask) then Done
                           else if LevelsGiven(cfg) && RangeGiven(cfg) then DividedByZero
                           else NotFound)
            && BoardsAfter(regs, after, cfg, mask)
  {
    var after := After(described, regs, cfg, mask).1;
    var (layout, n) := LastWritten(described, cfg, mask);
    GivenExactly(cfg);
    if LevelsGiven(cfg) {
      assert CanFinish(cfg, mask) ==> n == 4 && layout == ChosenLayout(cfg, mask);
      forall a: nat | a < 4
        ensures if a < n then BoardHolds(after, a, layout[a]) else BoardKept(regs, after, a)
      {
        AfterOnBoard(described, regs, cfg, mask, a);
        assert BoardDescribed(described, a);
      }
    }
  }

  lemma GivenExactly(cfg: BufferConfig)
    requires |cfg.boards| == 4
    ensures AllBoardsGiven(cfg) <==> Leading(cfg.boards) == 4
  {
    if Leading(cfg.boards) < 4 { assert !BoardGiven(cfg.boards[Leading(cfg.boards)]); }
  }

  // ---------- what a call does to the other registers ----------

  predicate OfBoard(r: Register) { r.MemStartOf? || r.MemEndOf? || r.ReadPtrOf? }

  lemma {:induction false} BoardsKeepOthers(described: set<Register>, regs: map<Register, nat>, layout: seq<Region>,
                                            n: nat, r: Register)
    requires n <= |layout| && !OfBoard(r)
    ensures Same(regs, WithBoards(described, regs, layout, n), r)
  {
    if n > 0 { BoardsKeepOthers(described, regs, layout, n - 1, r); }
  }

  /** The register is given this value, or kept if it is not to be written. */
  ghost predicate Becomes(before: map<Register, nat>, after: map<Register, nat>, r: Register, written: bool, v: nat) {
    if written then r in after && after[r] == v else Same(before, after, r)
  }

  /** The levels an active CoBo's configuration lacks end a call before it writes anything. */
  lemma NothingWithoutLevels(described: set<Register>, regs: map<Register, nat>, cfg: BufferConfig, mask: nat)
    requires |cfg.boards| == 4
    requires cfg.coboActive && (cfg.levelAlmostFullMemory.None? || cfg.levelAlmostEmptyMemory.None?)
    ensures After(described, regs, cfg, mask) == (NotFound, regs)
  {
  }

  /** The three registers common to all boards: the configured rate or 1, and the two levels, all 0 for
      an inactive CoBo, whatever becomes of the boards.  A rate that is refused is passed over, a
      refused almost-full level leaves the other level as it was. */
  lemma CommonAfter(described: set<Register>, regs: map<Register, nat>, cfg: BufferConfig, mask: nat)
    requires |cfg.boards| == 4
    requires cfg.coboActive ==> cfg.levelAlmostFullMemory.Some? && cfg.levelAlmostEmptyMemory.Some?
    ensures var after := After(described, regs, cfg, mask).1;
            var rate := if !cfg.coboActive then 0 else if cfg.interruptRate.Some? then cfg.interruptRate.value else 1;
            var full := if cfg.coboActive then cfg.levelAlmostFullMemory.value else 0;
            var empty := if cfg.coboActive then cfg.levelAlmostEmptyMemory.value else 0;
            && Becomes(regs, after, InterruptRate, InterruptRate in described, rate)
            && Becomes(regs, after, AFullLevel, AFullLevel in described, full)
            && Becomes(regs, after, AEmptyLevel, AFullLevel in described && AEmptyLevel in described, empty)
  {
    var common := CommonWritten(described, regs, cfg);
    LaterWritesKeep(described, regs, cfg, mask, InterruptRate);
    LaterWritesKeep(described, regs, cfg, mask, AFullLevel);
    LaterWritesKeep(described, regs, cfg, mask, AEmptyLevel);
  }

  lemma LaterWritesKeep(described: set<Register>, regs: map<Register, nat>, cfg: BufferConfig, mask: nat, r: Register)
    requires |cfg.boards| == 4 && LevelsGiven(cfg) && !OfBoard(r) && r != MemStart && r != MemEnd
    ensures Same(CommonWritten(described, regs, cfg), After(described, regs, cfg, mask).1, r)
  {
    var n := Leading(cfg.boards);
    var common := CommonWritten(described, regs, cfg);
    var own := WithBoards(described, common, CustomLayout(cfg), n);
    BoardsKeepOthers(described, common, CustomLayout(cfg), n, r);
    if RangeGiven(cfg) && BoardCount(mask) > 0 { BoardsKeepOthers(described, own, SplitOf(cfg, mask), 4, r); }
  }

  /** The split is tried and a register of a board is not described. */
  predicate FallsBack(described: set<Register>, cfg: BufferConfig, mask: nat)
    requires |cfg.boards| == 4
  {
    && LevelsGiven(cfg) && CommonDescribed(described) && Leading(cfg.boards) < 4
    && FirstDescribed(described, Leading(cfg.boards)) && RangeGiven(cfg) && BoardCount(mask) > 0
    && !BoardsDescribed(described)
  }

  /** The registers of a single buffer change exactly when the split is refused: they receive the range,
      the end only if the start was not refused too. */
  lemma SingleBufferAfter(described: set<Register>, regs: map<Register, nat>, cfg: BufferConfig, mask: nat)
    requires |cfg.boards| == 4
    ensures var after := After(described, regs, cfg, mask).1;
            var back := FallsBack(described, cfg, mask);
            var start := if cfg.coboActive && cfg.startOfMemory.Some? then cfg.startOfMemory.value else 0;
            var end := if cfg.coboActive && cfg.endOfMemory.Some? then cfg.endOfMemory.value else 0;
            && Becomes(regs, after, MemStart, back && MemStart in described, start)
            && Becomes(regs, after, MemEnd, back && MemStart in described && MemEnd in described, end)
  {
    if LevelsGiven(cfg) {
      BoardWritesKeepRange(described, regs, cfg, mask, MemStart);
      BoardWritesKeepRange(described, regs, cfg, mask, MemEnd);
    }
  }

  lemma BoardWritesKeepRange(described: set<Register>, regs: map<Register, nat>, cfg: BufferConfig, mask: nat,
                             r: Register)
    requires |cfg.boards| == 4 && LevelsGiven(cfg) && (r == MemStart || r == MemEnd)
    ensures var common := CommonWritten(described, regs, cfg);
            var own := WithBoards(described, common, CustomLayout(cfg), Leading(cfg.boards));
            && Same(regs, own, r)
            && (RangeGiven(cfg) && BoardCount(mask) > 0 ==>
                  Same(regs, WithBoards(described, own, SplitOf(cfg, mask), 4), r))
  {
    var n := Leading(cfg.boards);
    var common := CommonWritten(described, regs, cfg);
    var own := WithBoards(described, common, CustomLayout(cfg), n);
    BoardsKeepOthers(described, common, CustomLayout(cfg), n, r);
    if RangeGiven(cfg) && BoardCount(mask) > 0 { BoardsKeepOthers(described, own, SplitOf(cfg, mask), 4, r); }
  }

  /** How a call ends, from the options and the description: it returns exactly when both levels are
      there and described and either all boards have addresses and registers, or those before the
      first without an address have registers and the range, a board, and registers for all boards or
      for a single buffer are there. */
  lemma ReturnsExactly(described: set<Register>, regs: map<Register, nat>, cfg: BufferConfig, mask: nat)
    requires |cfg.boards| == 4
    ensures After(described, regs, cfg, mask).0 == Done
       <==> && LevelsGiven(cfg) && CommonDescribed(described) && FirstDescribed(described, Leading(cfg.boards))
            && (AllBoardsGiven(cfg)
                || (RangeGiven(cfg) && BoardCount(mask) > 0
                    && (BoardsDescribed(described) || (MemStart in described && MemEnd in described))))
  {
    GivenExactly(cfg);
  }

  // ---------- when the setup is all or nothing ----------

  /** All four boards have their own regions, or all four the equal split, or none changed. */
  ghost predicate AllOrNothing(before: map<Register, nat>, after: map<Register, nat>, cfg: BufferConfig, mask: nat)
    requires |cfg.boards| == 4
  {
    || (AllBoardsGiven(cfg) && Holds(after, CustomLayout(cfg)))
    || (RangeGiven(cfg) && BoardCount(mask) > 0 && Holds(after, SplitOf(cfg, mask)))
    || (forall a: nat :: a < 4 ==> BoardKept(before, after, a))
  }

  /** Every value written to a board register was there already. */
  ghost predicate NothingNew(described: set<Register>, before: map<Register, nat>, cfg: BufferConfig, mask: nat)
    requires |cfg.boards| == 4
  {
    forall a: nat :: a < 4 && Reached(described, cfg, mask, a) ==>
      BoardThere(described, before, a, LastWritten(described, cfg, mask).0[a])
  }

  lemma {:induction false} BoardsKeepDomain(described: set<Register>, regs: map<Register, nat>, layout: seq<Region>,
                                            n: nat)
    requires n <= |layout| && regs.Keys <= described
    ensures WithBoards(described, regs, layout, n).Keys <= described
  {
    if n > 0 { BoardsKeepDomain(described, regs, layout, n - 1); }
  }

  /** Only described registers are ever written. */
  lemma AfterKeepsDomain(described: set<Register>, regs: map<Register, nat>, cfg: BufferConfig, mask: nat)
    requires |cfg.boards| == 4 && regs.Keys <= described
    ensures After(described, regs, cfg, mask).1.Keys <= described
  {
    if LevelsGiven(cfg) {
      var n := Leading(cfg.boards);
      var common := CommonWritten(described, regs, cfg);
      var own := WithBoards(described, common, CustomLayout(cfg), n);
      BoardsKeepDomain(described, common, CustomLayout(cfg), n);
      if RangeGiven(cfg) && BoardCount(mask) > 0 { BoardsKeepDomain(described, own, SplitOf(cfg, mask), 4); }
    }
  }

  lemma HoldsOnlyDescribed(described: set<Register>, regs: map<Register, nat>, layout: seq<Region>)
    requires regs.Keys <= described && Holds(regs, layout)
    ensures BoardsDescribed(described)
  {
    forall a: nat | a < 4 ensures BoardDescribed(described, a) {
      assert BoardHolds(regs, a, layout[a]);
      assert MemStartOf(a) in regs.Keys && MemEndOf(a) in regs.Keys && ReadPtrOf(a) in regs.Keys;
    }
  }

  /** No board register changes exactly when the call ends before any write to a board, or every
      value it writes to one was there already. */
  lemma AllKeptExactly(described: set<Register>, before: map<Register, nat>, cfg: BufferConfig, mask: nat)
    requires |cfg.boards| == 4
    ensures (forall a: nat :: a < 4 ==> BoardKept(before, After(described, before, cfg, mask).1, a))
       <==> !LevelsGiven(cfg) || !CommonDescribed(described) || NothingNew(described, before, cfg, mask)
  {
    var after := After(described, before, cfg, mask).1;
    if LevelsGiven(cfg) && CommonDescribed(described) {
      forall a: nat | a < 4
        ensures BoardKept(before, after, a) <==>
                (Reached(described, cfg, mask, a) ==>
                 BoardThere(described, before, a, LastWritten(described, cfg, mask).0[a]))
      {
        AfterOnBoard(described, before, cfg, mask, a);
        KeptIfThere(described, before, a, LastWritten(described, cfg, mask).0[a]);
      }
    } else if LevelsGiven(cfg) {
      forall a: nat ensures BoardKept(before, after, a) { CommonKeeps(described, before, cfg, a); }
    }
  }

  /** For any hardware description, the setup is all or nothing exactly when it stops before any
      write to a board, or the boards are fully described and it can return, or it writes only
      what the boards held anyway.  A register that is not described holds nothing, before as after:
      see `AfterKeepsDomain`. */
  lemma AllOrNothingExactly(described: set<Register>, before: map<Register, nat>, cfg: BufferConfig, mask: nat)
    requires |cfg.boards| == 4 && before.Keys <= described
    ensures AllOrNothing(before, After(described, before, cfg, mask).1, cfg, mask)
       <==> !LevelsGiven(cfg) || !CommonDescribed(described) || (BoardsDescribed(described) && CanFinish(cfg, mask))
            || NothingNew(described, before, cfg, mask)
  {
    var after := After(described, before, cfg, mask).1;
    AllKeptExactly(described, before, cfg, mask);
    AfterKeepsDomain(described, before, cfg, mask);
    if Holds(after, CustomLayout(cfg)) { HoldsOnlyDescribed(described, after, CustomLayout(cfg)); }
    if RangeGiven(cfg) && BoardCount(mask) > 0 && Holds(after, SplitOf(cfg, mask)) {
      HoldsOnlyDescribed(described, after, SplitOf(cfg, mask));
    }
    if CommonDescribed(described) && BoardsDescribed(described) && CanFinish(cfg, mask) {
      FullDescription(described, before, cfg, mask);
    }
  }

  /** A call that returns is all or nothing exactly when every board register is described or it
      writes only what the boards held anyway. */
  lemma ReturningIsAllOrNothing(described: set<Register>, before: map<Register, nat>, cfg: BufferConfig, mask: nat)
    requires |cfg.boards| == 4 && before.Keys <= described && After(described, before, cfg, mask).0 == Done
    ensures AllOrNothing(before, After(described, before, cfg, mask).1, cfg, mask)
       <==> BoardsDescribed(described) || NothingNew(described, before, cfg, mask)
  {
    AllOrNothingExactly(described, before, cfg, mask);
    if BoardsDescribed(described) { FullDescription(described, before, cfg, mask); }
  }

  /** Board 0 has its own region, board 1 and the CoBo have none: the call throws with board 0
      moved and the other boards where they were. */
  lemma MixtureAfterThrow(described: set<Register>, mask: nat)
    requires BoardsDescribed(described) && CommonDescribed(described)
    ensures var given := BoardRange(Some(0x8000000), Some(0x9000000));
            var lacking := BoardRange(None, None);
            var cfg := BufferConfig(true, None, Some(1), Some(1), None, None, [given, lacking, lacking, lacking]);
            var before := WithBoards(described, map[], INITIAL_LAYOUT, 4);
            var (outcome, after) := After(described, before, cfg, mask);
            outcome == NotFound && !AllOrNothing(before, after, cfg, mask)
  {
    var given := BoardRange(Some(0x8000000), Some(0x9000000));
    var lacking := BoardRange(None, None);
    var cfg := BufferConfig(true, None, Some(1), Some(1), None, None, [given, lacking, lacking, lacking]);
    var before := WithBoards(described, map[], INITIAL_LAYOUT, 4);
    WithBoardsHold(described, map[], INITIAL_LAYOUT, 4);
    BoardsKeepDomain(described, map[], INITIAL_LAYOUT, 4);
    assert BoardHolds(before, 0, INITIAL_LAYOUT[0]) && BoardDescribed(described, 0);
    assert !BoardGiven(cfg.boards[1]) && Leading(cfg.boards) == 1;
    assert Reached(described, cfg, mask, 0);
    FullDescription(described, before, cfg, mask);
    AllOrNothingExactly(described, before, cfg, mask);
  }

  /** The boards' start and end are described but not their read pointers: the split is refused
      at board 0, whose start and end have moved, and the call returns with the other boards where
      they were. */
  lemma MixtureAfterReturn(described: set<Register>, before: map<Register, nat>)
    requires CommonDescribed(described) && MemStart in described && MemEnd in described
    requires forall a: nat :: a < 4 ==>
             MemStartOf(a) in described && MemEndOf(a) in described && ReadPtrOf(a) !in described
    requires before.Keys <= described && MemStartOf(0) in before && before[MemStartOf(0)] == 0x8000000
    ensures var lacking := BoardRange(None, None);
            var cfg := BufferConfig(true, None, Some(1), Some(1), Some(0x9000000), Some(0x10000000),
                                    [lacking, lacking, lacking, lacking]);
            var (outcome, after) := After(described, before, cfg, 15);
            && outcome == Done && !AllOrNothing(before, after, cfg, 15)
            && (forall a: nat :: 0 < a < 4 ==> BoardKept(before, after, a))
  {
    var lacking := BoardRange(None, None);
    var cfg := BufferConfig(true, None, Some(1), Some(1), Some(0x9000000), Some(0x10000000),
                            [lacking, lacking, lacking, lacking]);
    assert Active(15, 0) && Active(15, 1) && Active(15, 2) && Active(15, 3);
    assert !BoardGiven(cfg.boards[0]) && Leading(cfg.boards) == 0;
    assert !BoardDescribed(described, 0);
    SplitRegion(0x9000000, 0x10000000, 15, 0);
    assert Reached(described, cfg, 15, 0) && LastWritten(described, cfg, 15).0[0].start == 0x9000000;
    assert !BoardThere(described, before, 0, LastWritten(described, cfg, 15).0[0]);
    AllOrNothingExactly(described, before, cfg, 15);
    forall a: nat | 0 < a < 4 ensures BoardKept(before, After(described, before, cfg, 15).1, a) {
      AfterOnBoard(described, before, cfg, 15, a);
    }
  }
}
