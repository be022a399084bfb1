/**
 Slots, epochs and timestamps across the boundary between the Byron and Shelley eras, and
 the window at the end of an epoch whose blocks no longer contribute to the nonce.
 */
module Slots {
  import opened Base
  import opened Arithmetic

  const BYRON_SLOTS_PER_EPOCH: int := 21_600

  /** Where Shelley starts and how long its epochs are. */
  datatype Genesis = Genesis(byronTimestamp: U64, shelleyEpoch: U64, shelleyEpochLen: U64)

  function ShelleyStart(g: Genesis): nat {
    g.shelleyEpoch * BYRON_SLOTS_PER_EPOCH
  }

  predicate ValidGenesis(g: Genesis) {
    g.shelleyEpochLen > 0 && ShelleyStart(g) <= U64_MAX
  }

  function SlotToEpoch(g: Genesis, slot: U64): (U64, U64)
    requires ValidGenesis(g)
  {
    var start := ShelleyStart(g);
    if slot < start then (slot / BYRON_SLOTS_PER_EPOCH, slot % BYRON_SLOTS_PER_EPOCH)
    else
      QuotientWithin(slot - start, g.shelleyEpochLen);
      (g.shelleyEpoch + (slot - start) / g.shelleyEpochLen, (slot - start) % g.shelleyEpochLen)
  }

  function EpochLength(g: Genesis, epoch: nat): nat {
    if epoch >= g.shelleyEpoch then g.shelleyEpochLen else BYRON_SLOTS_PER_EPOCH
  }

  function EpochToFirstSlot(g: Genesis, epoch: nat): nat {
    if epoch >= g.shelleyEpoch
    then ShelleyStart(g) + (epoch - g.shelleyEpoch) * g.shelleyEpochLen
    else epoch * BYRON_SLOTS_PER_EPOCH
  }

  /** Epochs follow each other without gap or overlap, also across the era boundary. */
  lemma EpochsAdjoin(g: Genesis, epoch: nat)
    ensures EpochToFirstSlot(g, epoch + 1) == EpochToFirstSlot(g, epoch) + EpochLength(g, epoch)
  {
    if epoch >= g.shelleyEpoch {
      var k := epoch - g.shelleyEpoch;
      assert (k + 1) * g.shelleyEpochLen == k * g.shelleyEpochLen + g.shelleyEpochLen;
    }
  }

  /** A slot is its epoch's first slot plus its offset, and the offset lies within the epoch. */
  lemma SlotDecomposes(g: Genesis, slot: U64)
    requires ValidGenesis(g)
    ensures var (epoch, offset) := SlotToEpoch(g, slot);
            slot == EpochToFirstSlot(g, epoch) + offset && offset < EpochLength(g, epoch)
  {
    if slot >= ShelleyStart(g) {
      QuotientAndRemainder(slot - ShelleyStart(g), g.shelleyEpochLen);
    }
  }

  lemma {:induction false} EpochsInOrder(g: Genesis, e1: nat, e2: nat)
    requires e1 < e2
    ensures EpochToFirstSlot(g, e1) + EpochLength(g, e1) <= EpochToFirstSlot(g, e2)
    decreases e2
  {
    EpochsAdjoin(g, e2 - 1);
    if e1 < e2 - 1 {
      EpochsInOrder(g, e1, e2 - 1);
    }
  }

  /** Conversely, every epoch and offset within it is what the slot there converts to. */
  lemma EpochAndOffsetRecovered(g: Genesis, epoch: U64, offset: nat)
    requires ValidGenesis(g) && offset < EpochLength(g, epoch)
    requires EpochToFirstSlot(g, epoch) + offset <= U64_MAX
    ensures SlotToEpoch(g, EpochToFirstSlot(g, epoch) + offset) == (epoch, offset)
  {
    var slot := EpochToFirstSlot(g, epoch) + offset;
    SlotDecomposes(g, slot);
    var (e, o) := SlotToEpoch(g, slot);
    if e < epoch {
      EpochsInOrder(g, e, epoch);
    } else if epoch < e {
      EpochsInOrder(g, epoch, e);
    }
  }

  /** Later slots are in later epochs, or in the same epoch at a larger offset. */
  lemma SlotsInOrder(g: Genesis, s1: U64, s2: U64)
    requires ValidGenesis(g) && s1 < s2
    ensures var (e1, o1) := SlotToEpoch(g, s1);
            var (e2, o2) := SlotToEpoch(g, s2);
            e1 < e2 || (e1 == e2 && o1 < o2)
  {
    SlotDecomposes(g, s1);
    SlotDecomposes(g, s2);
    var (e1, _) := SlotToEpoch(g, s1);
    var (e2, _) := SlotToEpoch(g, s2);
    if e2 < e1 {
      EpochsInOrder(g, e2, e1);
    }
  }

  /** Byron slots last twenty seconds, Shelley slots one. */
  function ExactTimestamp(g: Genesis, slot: U64): nat {
    var start := ShelleyStart(g);
    if slot < start then g.byronTimestamp + slot * 20
    else g.byronTimestamp + start * 20 + (slot - start)
  }

  function SlotToTimestamp(g: Genesis, slot: U64): U64 {
    var start := Wrapping(ShelleyStart(g));
    if slot < start then Wrapping(g.byronTimestamp + slot * 20)
    else Wrapping(g.byronTimestamp + start * 20 + (slot - start))
  }

  /** Time starts at the Byron genesis; a Byron slot takes twenty seconds and a Shelley slot one. */
  lemma TimestampStep(g: Genesis, slot: U64)
    requires slot < U64_MAX
    ensures ExactTimestamp(g, 0) == g.byronTimestamp
    ensures ExactTimestamp(g, slot + 1) - ExactTimestamp(g, slot) == if slot < g.shelleyEpoch * 21_600 then 20 else 1
  {
  }

  /** Known mainnet slots. */
  lemma MainnetSlots()
    ensures var g := Genesis(1_506_203_091, 208, 432_000);
            && SlotToEpoch(g, 0) == (0, 0) && SlotToTimestamp(g, 0) == 1_506_203_091
            && SlotToEpoch(g, 21_600) == (1, 0) && SlotToTimestamp(g, 21_600) == 1_506_635_091
            && SlotToEpoch(g, 4_492_799) == (207, 21_599) && SlotToTimestamp(g, 4_492_799) == 1_596_059_071
            && SlotToEpoch(g, 4_492_800) == (208, 0) && SlotToTimestamp(g, 4_492_800) == 1_596_059_091
            && SlotToEpoch(g, 98_272_003) == (425, 35_203) && SlotToTimestamp(g, 98_272_003) == 1_689_838_294
            && EpochToFirstSlot(g, 208) == 4_492_800 && EpochToFirstSlot(g, 209) == 4_924_800
  {
  }

  /** The timestamp is exact if and only if it fits the word. */
  lemma TimestampExact(g: Genesis, slot: U64)
    requires ValidGenesis(g)
    ensures SlotToTimestamp(g, slot) == ExactTimestamp(g, slot) <==> ExactTimestamp(g, slot) <= U64_MAX
  {
  }

  /** As long as the later timestamp fits the word, later slots have later timestamps. */
  lemma TimestampsInOrder(g: Genesis, s1: U64, s2: U64)
    requires ValidGenesis(g) && s1 < s2 && ExactTimestamp(g, s2) <= U64_MAX
    ensures SlotToTimestamp(g, s1) < SlotToTimestamp(g, s2)
    ensures SlotToTimestamp(g, s2) - SlotToTimestamp(g, s1) <= 20 * (s2 - s1)
  {
    assert ExactTimestamp(g, s1) < ExactTimestamp(g, s2);
  }

  // ---------------------------------------------------------------------------------
  // Stability windows

  datatype Era = Conway | EarlierEra

  datatype PraosParams = PraosParams(stabilityWindow: U64, randomnessStabilizationWindow: U64)

  function WindowOf(era: Era, p: PraosParams): U64 {
    if era.Conway? then p.randomnessStabilizationWindow else p.stabilityWindow
  }

  predicate RandomnessStabilityWindow(era: Era, slot: U64, g: Genesis, p: PraosParams)
    requires ValidGenesis(g)
  {
    var (epoch, _) := SlotToEpoch(g, slot);
    Wrapping(slot + WindowOf(era, p)) < Wrapping(EpochToFirstSlot(g, Wrapping(epoch + 1)))
  }

  lemma EpochWithinFirstSlot(g: Genesis, epoch: nat)
    requires ValidGenesis(g)
    ensures epoch <= EpochToFirstSlot(g, epoch)
  {
    if epoch >= g.shelleyEpoch {
      ProductMonotone(1, g.shelleyEpochLen, epoch - g.shelleyEpoch);
    }
  }

  /**
   Before the last epoch of the word, the test holds for exactly the slots of an epoch that
   have more than the window left after them, if and only if slot plus window does not
   overflow; where it does, the test holds for every slot.
   */
  lemma WindowIsPrefix(era: Era, g: Genesis, p: PraosParams, epoch: U64, offset: nat)
    requires ValidGenesis(g) && offset < EpochLength(g, epoch)
    requires EpochToFirstSlot(g, epoch + 1) <= U64_MAX
    ensures EpochToFirstSlot(g, epoch) + offset <= U64_MAX
    ensures var slot := EpochToFirstSlot(g, epoch) + offset;
            var window := if era == Conway then p.randomnessStabilizationWindow else p.stabilityWindow;
            var test := RandomnessStabilityWindow(era, slot, g, p);
            && ((test <==> offset < EpochLength(g, epoch) - window) <==> slot + window <= U64_MAX)
            && (slot + window > U64_MAX ==> test)
  {
    EpochsAdjoin(g, epoch);
    EpochAndOffsetRecovered(g, epoch, offset);
    EpochWithinFirstSlot(g, epoch + 1);
  }

  /** A window of the whole word overflows at slot one, and the test lets the slot pass. */
  lemma WindowWraps()
    ensures var (g, p) := (Genesis(0, 208, 432_000), PraosParams(U64_MAX, U64_MAX));
            && SlotToEpoch(g, 1) == (0, 1)
            && RandomnessStabilityWindow(Conway, 1, g, p)
            && !(1 < EpochLength(g, 0) - WindowOf(Conway, p))
  {
  }

  /** The security parameter over the active slot coefficient, rounded down. */
  function WindowUnit(securityParam: U32, numer: U64, denom: U64): (unit: nat)
    requires numer > 0
  {
    QuotientNonNegative(securityParam * denom, numer);
    securityParam * denom / numer
  }

  /** Dividing and then scaling, in words. */
  function ScaledQuotient(x: nat, d: U64, scale: nat): U64
    requires d > 0
  {
    Wrapping(Wrapping(x) / d * scale)
  }

  function StabilityWindow(securityParam: U32, numer: U64, denom: U64): U64
    requires numer > 0
  {
    ScaledQuotient(securityParam * denom, numer, 3)
  }

  function RandomnessWindow(securityParam: U32, numer: U64, denom: U64): U64
    requires numer > 0
  {
    ScaledQuotient(securityParam * denom, numer, 4)
  }

  lemma QuotientDrops(x: nat, y: nat, d: nat)
    requires d > 0 && y + d <= x
    ensures y / d < x / d
  {
    QuotientAndRemainder(x, d);
    QuotientAndRemainder(y, d);
    if x / d <= y / d {
      ProductMonotone(x / d, y / d, d);
    }
  }

  /** The scaled quotient is exact if and only if neither the dividend nor the result overflows. */
  lemma ScaledQuotientExact(x: nat, d: U64, scale: nat, q: nat)
    requires d > 0 && scale > 0 && q == x / d
    ensures ScaledQuotient(x, d, scale) == q * scale <==> x <= U64_MAX && q * scale <= U64_MAX
  {
    if x > U64_MAX {
      QuotientNonNegative(Wrapping(x), d);
      QuotientDrops(x, Wrapping(x), d);
      ProductMonotone(Wrapping(x) / d, q, scale);
      assert ScaledQuotient(x, d, scale) <= Wrapping(x) / d * scale;
    }
  }

  /** The windows are three and four units if and only if nothing overflows on the way. */
  lemma WindowsExact(securityParam: U32, numer: U64, denom: U64)
    requires numer > 0
    ensures var unit := WindowUnit(securityParam, numer, denom);
            && (StabilityWindow(securityParam, numer, denom) == unit * 3 <==>
                securityParam * denom <= U64_MAX && unit * 3 <= U64_MAX)
            && (RandomnessWindow(securityParam, numer, denom) == unit * 4 <==>
                securityParam * denom <= U64_MAX && unit * 4 <= U64_MAX)
  {
    var unit := WindowUnit(securityParam, numer, denom);
    ScaledQuotientExact(securityParam * denom, numer, 3, unit);
    ScaledQuotientExact(securityParam * denom, numer, 4, unit);
  }

  lemma RoundedDown(x: nat, d: nat, q: nat, w: nat)
    requires d > 0 && q == x / d && w == q * 3
    ensures w * d <= 3 * x < (w + 3) * d
  {
    QuotientAndRemainder(x, d);
    assert w * d == 3 * (q * d);
    assert (w + 3) * d == 3 * (q * d) + 3 * d;
  }

  lemma ScaledInRatio(x: nat, d: U64, q: nat)
    requires d > 0 && q == x / d && x <= U64_MAX && q * 4 <= U64_MAX
    ensures 4 * ScaledQuotient(x, d, 3) == 3 * ScaledQuotient(x, d, 4)
    ensures ScaledQuotient(x, d, 3) * d <= 3 * x < (ScaledQuotient(x, d, 3) + 3) * d
  {
    ScaledQuotientExact(x, d, 3, q);
    ScaledQuotientExact(x, d, 4, q);
    RoundedDown(x, d, q, ScaledQuotient(x, d, 3));
  }

  /** Without overflow the windows stand in the exact ratio three to four, within three of the unrounded value. */
  lemma WindowsInRatio(securityParam: U32, numer: U64, denom: U64)
    requires numer > 0 && securityParam * denom <= U64_MAX && WindowUnit(securityParam, numer, denom) * 4 <= U64_MAX
    ensures 4 * StabilityWindow(securityParam, numer, denom) == 3 * RandomnessWindow(securityParam, numer, denom)
    ensures StabilityWindow(securityParam, numer, denom) * numer <= 3 * (securityParam * denom)
    ensures 3 * (securityParam * denom) < (StabilityWindow(securityParam, numer, denom) + 3) * numer
  {
    ScaledInRatio(securityParam * denom, numer, WindowUnit(securityParam, numer, denom));
  }
}
