/**
 Era summaries: when an era has no end yet, how far ahead of the tip its epochs can be
 foreseen.
 */
module EraSummaries {
  import opened Base
  import opened Arithmetic

  datatype EraBound = EraBound(time: U64, slot: U64, epoch: U64)

  datatype EraSummary = EraSummary(start: EraBound, end: Option<EraBound>, epochSize: U64, slotLength: U64)

  /** Whole epochs needed to reach a number of slots. */
  function EpochsFor(slots: nat, epochSize: nat): nat
    requires epochSize > 0
  {
    QuotientNonNegative(slots, epochSize);
    slots / epochSize + (if slots % epochSize == 0 then 0 else 1)
  }

  function CalculateEndBound(s: EraSummary, tip: U64, window: U64): EraBound
    requires s.epochSize > 0
  {
    var frontier := Wrapping(Max(s.start.slot, Wrapping(tip + 1)) + window);
    var deltaEpochs := EpochsFor(Wrapping(frontier - s.start.slot), s.epochSize);
    var foreseeable := Wrapping(deltaEpochs * s.epochSize);
    EraBound(Wrapping(s.start.time + s.slotLength * foreseeable),
             Wrapping(s.start.slot + foreseeable),
             Wrapping(s.start.epoch + deltaEpochs))
  }

  // ---------------------------------------------------------------------------------
  // The end without overflow

  /** The first slot past the stability window. */
  function Frontier(s: EraSummary, tip: U64, window: U64): nat {
    Max(s.start.slot, tip + 1) + window
  }

  function Reach(s: EraSummary, tip: U64, window: U64): nat
    requires s.epochSize > 0
  {
    EpochsFor(Frontier(s, tip, window) - s.start.slot, s.epochSize)
  }

  /** The boundary `k` epochs into the era. */
  function Boundary(s: EraSummary, k: nat): nat {
    s.start.slot + k * s.epochSize
  }

  function BoundaryTime(s: EraSummary, k: nat): nat {
    s.start.time + s.slotLength * (k * s.epochSize)
  }

  /** The boundary `k` epochs into the era has slot, epoch and time within the word. */
  predicate Fits(s: EraSummary, k: nat) {
    Boundary(s, k) <= U64_MAX && s.start.epoch + k <= U64_MAX && BoundaryTime(s, k) <= U64_MAX
  }

  lemma BoundariesInOrder(s: EraSummary, j: nat, k: nat)
    requires j <= k
    ensures Boundary(s, j) <= Boundary(s, k)
    ensures j < k ==> Boundary(s, j) + s.epochSize <= Boundary(s, k)
  {
    ProductMonotone(j, k, s.epochSize);
  }

  lemma EpochsForLeast(slots: nat, epochSize: nat)
    requires epochSize > 0
    ensures slots <= EpochsFor(slots, epochSize) * epochSize
    ensures forall k: nat :: slots <= k * epochSize ==> EpochsFor(slots, epochSize) <= k
  {
    var n := EpochsFor(slots, epochSize);
    var q := slots / epochSize;
    QuotientAndRemainder(slots, epochSize);
    assert (q + 1) * epochSize == q * epochSize + epochSize;
    forall k: nat | slots <= k * epochSize ensures n <= k {
      if k < n {
        ProductMonotone(k, q, epochSize);
      }
    }
  }

  /** The computed end is the boundary reached by whole epochs, if and only if that boundary fits the word. */
  lemma EndIsExact(s: EraSummary, tip: U64, window: U64)
    requires s.epochSize > 0
    ensures var (e, n) := (CalculateEndBound(s, tip, window), Reach(s, tip, window));
            Fits(s, n) <==> e.slot == Boundary(s, n) && e.epoch == s.start.epoch + n && e.time == BoundaryTime(s, n)
  {
    var n := Reach(s, tip, window);
    EpochsForLeast(Frontier(s, tip, window) - s.start.slot, s.epochSize);
    if Fits(s, n) {
      assert Frontier(s, tip, window) <= U64_MAX;
      assert tip + 1 <= U64_MAX;
      assert n * s.epochSize <= U64_MAX;
    }
  }

  /** The virtual end is an epoch boundary at or after the frontier, with matching epoch and time, and no earlier boundary is. */
  lemma EndIsLeastBoundary(s: EraSummary, tip: U64, window: U64)
    requires s.epochSize > 0 && Fits(s, Reach(s, tip, window))
    ensures var e := CalculateEndBound(s, tip, window);
            var frontier := (if s.start.slot > tip + 1 then s.start.slot else tip + 1) + window;
            && e.epoch >= s.start.epoch
            && e.slot == s.start.slot + (e.epoch - s.start.epoch) * s.epochSize
            && e.time == s.start.time + s.slotLength * (e.slot - s.start.slot)
            && frontier <= e.slot
            && (forall k: nat :: frontier <= Boundary(s, k) ==> e.epoch - s.start.epoch <= k)
  {
    EndIsExact(s, tip, window);
    EpochsForLeast(Frontier(s, tip, window) - s.start.slot, s.epochSize);
    forall k: nat | Frontier(s, tip, window) <= Boundary(s, k) ensures Reach(s, tip, window) <= k {
      assert Frontier(s, tip, window) - s.start.slot <= k * s.epochSize;
    }
  }

  lemma ReachMonotone(s: EraSummary, tip: U64, tip': U64, window: U64)
    requires s.epochSize > 0 && tip <= tip'
    ensures Reach(s, tip, window) <= Reach(s, tip', window)
  {
    EpochsForLeast(Frontier(s, tip', window) - s.start.slot, s.epochSize);
    EpochsForLeast(Frontier(s, tip, window) - s.start.slot, s.epochSize);
    assert Frontier(s, tip, window) - s.start.slot <= Reach(s, tip', window) * s.epochSize;
  }

  lemma TimesInOrder(s: EraSummary, j: nat, k: nat)
    requires j <= k
    ensures BoundaryTime(s, j) <= BoundaryTime(s, k)
  {
    ProductMonotone(j, k, s.epochSize);
    ProductMonotone(j * s.epochSize, k * s.epochSize, s.slotLength);
  }

  /** As the tip grows, the virtual end never moves back, up to where it leaves the word. */
  lemma EndIsMonotone(s: EraSummary, tip: U64, tip': U64, window: U64)
    requires s.epochSize > 0 && tip <= tip' && Fits(s, Reach(s, tip', window))
    ensures Fits(s, Reach(s, tip, window))
    ensures var (e, e') := (CalculateEndBound(s, tip, window), CalculateEndBound(s, tip', window));
            e.epoch <= e'.epoch && e.slot <= e'.slot && e.time <= e'.time
  {
    var n, n' := Reach(s, tip, window), Reach(s, tip', window);
    ReachMonotone(s, tip, tip', window);
    BoundariesInOrder(s, n, n');
    TimesInOrder(s, n, n');
    EndIsExact(s, tip, window);
    EndIsExact(s, tip', window);
  }

  lemma NoEpochsForNoSlots(epochSize: nat)
    requires epochSize > 0
    ensures EpochsFor(0, epochSize) == 0
  {
    EpochsForLeast(0, epochSize);
    assert 0 <= 0 * epochSize;
  }

  /** A tip at the end of the word wraps: the virtual end is then the start of the era, before the tip. */
  lemma TipWraps(s: EraSummary)
    requires s.epochSize > 0
    ensures CalculateEndBound(s, U64_MAX, 0) == s.start
    ensures !Fits(s, Reach(s, U64_MAX, 0))
  {
    NoEpochsForNoSlots(s.epochSize);
    EpochsForLeast(TWO_64 - s.start.slot, s.epochSize);
  }

  function EndOf(s: EraSummary, tip: U64, window: U64): EraBound
    requires s.epochSize > 0
  {
    if s.end.Some? then s.end.value else CalculateEndBound(s, tip, window)
  }

  predicate ContainsSlot(s: EraSummary, slot: U64, tip: U64, window: U64)
    requires s.epochSize > 0
  {
    EndOf(s, tip, window).slot > slot
  }

  predicate ContainsEpoch(s: EraSummary, epoch: nat, tip: U64, window: U64)
    requires s.epochSize > 0
  {
    EndOf(s, tip, window).epoch > epoch
  }

  function EpochOf(s: EraSummary, slot: U64): nat
    requires s.epochSize > 0 && s.start.slot <= slot
  {
    QuotientAndRemainder(slot - s.start.slot, s.epochSize);
    s.start.epoch + (slot - s.start.slot) / s.epochSize
  }

  /** A known end lies on an epoch boundary of the era, and an end still to be computed fits the word. */
  predicate EndOnBoundary(s: EraSummary, tip: U64, window: U64)
    requires s.epochSize > 0
  {
    if s.end.Some?
    then s.end.value.epoch >= s.start.epoch && s.end.value.slot == Boundary(s, s.end.value.epoch - s.start.epoch)
    else Fits(s, Reach(s, tip, window))
  }

  /** A slot of the era is contained exactly when its epoch is. */
  lemma SlotAndEpochAgree(s: EraSummary, slot: U64, tip: U64, window: U64)
    requires s.epochSize > 0 && s.start.slot <= slot && EndOnBoundary(s, tip, window)
    ensures ContainsSlot(s, slot, tip, window) <==> ContainsEpoch(s, EpochOf(s, slot), tip, window)
  {
    var e := EndOf(s, tip, window);
    if s.end.None? {
      EndIsLeastBoundary(s, tip, window);
    }
    var n, k := e.epoch - s.start.epoch, (slot - s.start.slot) / s.epochSize;
    QuotientAndRemainder(slot - s.start.slot, s.epochSize);
    assert Boundary(s, k) <= slot < Boundary(s, k) + s.epochSize;
    if k < n {
      BoundariesInOrder(s, k, n);
    } else {
      BoundariesInOrder(s, n, k);
    }
  }

  /** Every slot up to the frontier is foreseeable: the window after the tip, with the slot right past it. */
  lemma FrontierIsContained(s: EraSummary, slot: U64, tip: U64, window: U64)
    requires s.epochSize > 0 && s.end.None? && Fits(s, Reach(s, tip, window))
    requires slot <= tip + window || slot < s.start.slot + window
    ensures ContainsSlot(s, slot, tip, window)
  {
    EndIsLeastBoundary(s, tip, window);
  }
}
