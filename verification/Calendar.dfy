/**
 The emission calendar: thirty-four eclipses of fixed length, each emission spread over its slots with
 one extra atom on the first slots. The sum of the rewards has a closed form and closes on the cap.
 */
module Calendar {

  /** The monetary cap, in atomic units. */
  const CAP_ATOMIC: nat := 16_180_339 * 100_000_000
  const ATOMS: nat := 100_000_000
  const BLOCKS_PER_ECLIPSE: nat := 63_115_200
  const ECLIPSES: nat := 34
  const LAST_SLOT: nat := ECLIPSES * BLOCKS_PER_ECLIPSE
  const E0_ATU: nat := 6_180_340
  const TREASURY_NUMERATOR: nat := 618
  const TREASURY_DENOMINATOR: nat := 10_000
  const TREASURY_ECLIPSES: nat := 8
  /** The slots a coinbase output waits before it can be spent. */
  const MATURITY: nat := 10

  /** The archived eclipse emissions, in whole units. */
  const ECLIPSE_EMISSIONS_ATU: seq<nat> := [
    6_180_340, 3_819_660, 2_360_679, 1_458_980, 901_699, 557_280, 344_418, 212_862, 131_556,
    81_306, 50_249, 31_056, 19_193, 11_862, 7_331, 4_531, 2_800, 1_730, 1_069, 661, 408, 252, 156,
    96, 59, 36, 22, 14, 8, 5, 3, 2, 1, 15]

  function EclipseOfSlot(slot: nat): nat
    requires slot > 0
  {
    (slot - 1) / BLOCKS_PER_ECLIPSE
  }

  function EmissionAtomic(eclipse: nat): nat
    requires eclipse < ECLIPSES
  {
    ECLIPSE_EMISSIONS_ATU[eclipse] * ATOMS
  }

  /** The reward of a slot: the genesis mints nothing, and the calendar ends with its table. */
  function RewardOfSlot(slot: nat): nat
    requires slot <= LAST_SLOT
  {
    if slot == 0 then 0 else
      SlotInCalendar(slot);
      var emission := EmissionAtomic(EclipseOfSlot(slot));
      var base := emission / BLOCKS_PER_ECLIPSE;
      var remainder := emission % BLOCKS_PER_ECLIPSE;
      var position := (slot - 1) % BLOCKS_PER_ECLIPSE;
      base + if position < remainder then 1 else 0
  }

  lemma SlotInCalendar(slot: nat)
    requires 0 < slot <= LAST_SLOT
    ensures EclipseOfSlot(slot) < ECLIPSES
  {
  }

  function TreasuryShareOf(reward: nat): nat {
    reward * TREASURY_NUMERATOR / TREASURY_DENOMINATOR
  }

  predicate TreasuryActiveAtSlot(slot: nat) {
    slot >= 1 && EclipseOfSlot(slot) < TREASURY_ECLIPSES
  }

  // ----- the sum of the rewards

  /** The sum of the rewards of slots 1 to n. */
  ghost function Minted(n: nat): nat
    requires n <= LAST_SLOT
  {
    if n == 0 then 0 else Minted(n - 1) + RewardOfSlot(n)
  }

  /** The emissions of the first eclipses, in whole units. */
  ghost function TableSum(eclipse: nat): nat
    requires eclipse <= ECLIPSES
  {
    if eclipse == 0 then 0 else TableSum(eclipse - 1) + ECLIPSE_EMISSIONS_ATU[eclipse - 1]
  }

  /**
   What `position` slots mint of an emission spread over `slots`: the quotient on each, one more on the first ones.
   */
  ghost function Spread(emission: nat, slots: nat, position: nat): nat
    requires slots > 0
  {
    position * (emission / slots) + if position < emission % slots then position else emission % slots
  }

  lemma SpreadStep(emission: nat, slots: nat, position: nat)
    requires slots > 0
    ensures Spread(emission, slots, position + 1) ==
            Spread(emission, slots, position) + emission / slots + if position < emission % slots then 1 else 0
  {
    var base := emission / slots;
    assert (position + 1) * base == position * base + base;
  }

  /** A full eclipse mints its emission exactly. */
  lemma SpreadCloses(emission: nat, slots: nat)
    requires slots > 0
    ensures Spread(emission, slots, slots) == emission
  {
    assert slots * (emission / slots) + emission % slots == emission;
  }

  lemma Scaled(n: int, unit: int)
    requires unit > 0
    ensures n > 0 ==> n * unit >= unit
    ensures n < 0 ==> n * unit <= -unit
  {
  }

  lemma Locate(eclipse: nat, slots: nat, position: nat)
    requires position < slots
    ensures (eclipse * slots + position) / slots == eclipse && (eclipse * slots + position) % slots == position
  {
    var total := eclipse * slots + position;
    var q, r := total / slots, total % slots;
    assert q * slots + r == total;
    assert (q - eclipse) * slots == position - r;
    assert q == eclipse by {
      Scaled(q - eclipse, slots);
    }
  }

  lemma SlotOf(eclipse: nat, position: nat)
    requires eclipse < ECLIPSES && position <= BLOCKS_PER_ECLIPSE
    ensures eclipse * BLOCKS_PER_ECLIPSE + position <= LAST_SLOT
  {
  }

  /** The reward of the slot `position` steps into an eclipse. */
  lemma RewardInside(eclipse: nat, position: nat)
    requires eclipse < ECLIPSES && position < BLOCKS_PER_ECLIPSE
    ensures eclipse * BLOCKS_PER_ECLIPSE + position + 1 <= LAST_SLOT
    ensures RewardOfSlot(eclipse * BLOCKS_PER_ECLIPSE + position + 1) ==
            Spread(EmissionAtomic(eclipse), BLOCKS_PER_ECLIPSE, position + 1) -
            Spread(EmissionAtomic(eclipse), BLOCKS_PER_ECLIPSE, position)
  {
    hide *;
    var slot := eclipse * BLOCKS_PER_ECLIPSE + position + 1;
    SlotOf(eclipse, position + 1);
    Locate(eclipse, BLOCKS_PER_ECLIPSE, position);
    RewardAt(slot, eclipse, position);
    SpreadStep(EmissionAtomic(eclipse), BLOCKS_PER_ECLIPSE, position);
  }

  lemma RewardAt(slot: nat, eclipse: nat, position: nat)
    requires 0 < slot <= LAST_SLOT && eclipse < ECLIPSES
    requires (slot - 1) / BLOCKS_PER_ECLIPSE == eclipse && (slot - 1) % BLOCKS_PER_ECLIPSE == position
    ensures RewardOfSlot(slot) == EmissionAtomic(eclipse) / BLOCKS_PER_ECLIPSE +
                                  if position < EmissionAtomic(eclipse) % BLOCKS_PER_ECLIPSE then 1 else 0
  {
    hide EmissionAtomic;
  }

  /** The emission closes atom for atom: full eclipses, then the spread inside the current one. */
  lemma {:induction false} MintedClosedForm(eclipse: nat, position: nat)
    requires eclipse < ECLIPSES && position <= BLOCKS_PER_ECLIPSE
    ensures eclipse * BLOCKS_PER_ECLIPSE + position <= LAST_SLOT
    ensures Minted(eclipse * BLOCKS_PER_ECLIPSE + position) ==
            TableSum(eclipse) * ATOMS + Spread(EmissionAtomic(eclipse), BLOCKS_PER_ECLIPSE, position)
    decreases eclipse, position
  {
    hide RewardOfSlot, Spread, EmissionAtomic;
    SlotOf(eclipse, position);
    if position > 0 {
      MintedClosedForm(eclipse, position - 1);
      RewardInside(eclipse, position - 1);
    } else if eclipse > 0 {
      MintedClosedForm(eclipse - 1, BLOCKS_PER_ECLIPSE);
      SpreadCloses(EmissionAtomic(eclipse - 1), BLOCKS_PER_ECLIPSE);
      TableStep(eclipse);
      SpreadOpens(EmissionAtomic(eclipse), BLOCKS_PER_ECLIPSE);
    } else {
      SpreadOpens(EmissionAtomic(0), BLOCKS_PER_ECLIPSE);
    }
  }

  lemma SpreadOpens(emission: nat, slots: nat)
    requires slots > 0
    ensures Spread(emission, slots, 0) == 0
  {
  }

  lemma TableStep(eclipse: nat)
    requires 0 < eclipse <= ECLIPSES
    ensures TableSum(eclipse) * ATOMS == TableSum(eclipse - 1) * ATOMS + EmissionAtomic(eclipse - 1)
  {
  }

  /** The table sums to the cap. */
  lemma TableClosesOnCap()
    ensures TableSum(ECLIPSES) * ATOMS == CAP_ATOMIC
  {
    UntilEclipse24();
    assert TableSum(26) == 16_180_269;
    assert TableSum(28) == 16_180_305;
    assert TableSum(30) == 16_180_318;
    assert TableSum(32) == 16_180_323;
  }

  lemma UntilEclipse12()
    ensures TableSum(12) == 16_130_085
  {
    assert TableSum(2) == 10_000_000;
    assert TableSum(4) == 13_819_659;
    assert TableSum(6) == 15_278_638;
    assert TableSum(8) == 15_835_918;
    assert TableSum(10) == 16_048_780;
  }

  lemma UntilEclipse24()
    ensures TableSum(24) == 16_180_174
  {
    UntilEclipse12();
    assert TableSum(14) == 16_161_140;
    assert TableSum(16) == 16_173_002;
    assert TableSum(18) == 16_177_532;
    assert TableSum(20) == 16_179_262;
    assert TableSum(22) == 16_179_922;
  }

  lemma {:induction false} MintedIsMonotone(m: nat, n: nat)
    requires m <= n <= LAST_SLOT
    ensures Minted(m) <= Minted(n)
    decreases n
  {
    hide RewardOfSlot;
    if m < n {
      MintedIsMonotone(m, n - 1);
    }
  }

  /** The last slot of the calendar mints the last atom of the cap, and no slot passes it. */
  lemma MintedNeverExceedsCap(n: nat)
    requires n <= LAST_SLOT
    ensures Minted(n) <= CAP_ATOMIC
    ensures Minted(LAST_SLOT) == CAP_ATOMIC
  {
    hide Minted, RewardOfSlot, Spread, EmissionAtomic, TableSum;
    MintedIsMonotone(n, LAST_SLOT);
    MintedClosedForm(ECLIPSES - 1, BLOCKS_PER_ECLIPSE);
    SpreadCloses(EmissionAtomic(ECLIPSES - 1), BLOCKS_PER_ECLIPSE);
    TableStep(ECLIPSES);
    TableClosesOnCap();
  }

  /** Every slot of the calendar mints something. */
  lemma RewardIsPositive(slot: nat)
    requires 0 < slot <= LAST_SLOT
    ensures RewardOfSlot(slot) > 0
  {
    SlotInCalendar(slot);
    var emission := EmissionAtomic(EclipseOfSlot(slot));
    assert emission >= ATOMS;
    assert emission / BLOCKS_PER_ECLIPSE >= 1;
  }

  lemma EvenStep(eclipse: nat, position: nat)
    requires eclipse < 34 && position < 63_115_200
    ensures 63_115_200 * eclipse + position + 1 <= LAST_SLOT
    ensures var emission := EmissionAtomic(eclipse);
            RewardOfSlot(63_115_200 * eclipse + position + 1) ==
            emission / BLOCKS_PER_ECLIPSE + if position < emission % BLOCKS_PER_ECLIPSE then 1 else 0
  {
    hide RewardOfSlot, EmissionAtomic;
    var slot := 63_115_200 * eclipse + position + 1;
    SlotOf(eclipse, position + 1);
    Locate(eclipse, BLOCKS_PER_ECLIPSE, position);
    assert slot - 1 == eclipse * BLOCKS_PER_ECLIPSE + position;
    RewardAt(slot, eclipse, position);
  }

  /** Inside an eclipse a later slot never mints more, and at most one atom less. */
  lemma RewardsAreEven(eclipse: nat, early: nat, late: nat)
    requires eclipse < 34 && early <= late < 63_115_200
    ensures 63_115_200 * eclipse + late + 1 <= LAST_SLOT
    ensures var first, second := RewardOfSlot(63_115_200 * eclipse + early + 1),
                                 RewardOfSlot(63_115_200 * eclipse + late + 1);
            second <= first <= second + 1
  {
    hide RewardOfSlot, EmissionAtomic;
    EvenStep(eclipse, early);
    EvenStep(eclipse, late);
  }

  /**
   The slots of an eclipse mint its entry of the table, and those of the calendar the cap. With the rewards even
   inside each eclipse, no other spreading does.
   */
  lemma EclipseMintsItsEmission(eclipse: nat)
    requires eclipse < 34
    ensures 63_115_200 * (eclipse + 1) <= LAST_SLOT == 2_145_916_800
    ensures Minted(63_115_200 * (eclipse + 1)) ==
            Minted(63_115_200 * eclipse) + ECLIPSE_EMISSIONS_ATU[eclipse] * 100_000_000
    ensures Minted(2_145_916_800) == 1_618_033_900_000_000
  {
    hide RewardOfSlot, Minted, Spread, TableSum;
    SlotOf(eclipse, BLOCKS_PER_ECLIPSE);
    MintedClosedForm(eclipse, BLOCKS_PER_ECLIPSE);
    MintedClosedForm(eclipse, 0);
    SpreadCloses(EmissionAtomic(eclipse), BLOCKS_PER_ECLIPSE);
    SpreadOpens(EmissionAtomic(eclipse), BLOCKS_PER_ECLIPSE);
    MintedNeverExceedsCap(LAST_SLOT);
  }

  /** What is minted grows by each slot's reward, from nothing at the genesis. */
  lemma MintedExactly(n: nat)
    requires n < 2_145_916_800
    ensures Minted(0) == 0 && RewardOfSlot(0) == 0 && Minted(n + 1) == Minted(n) + RewardOfSlot(n + 1)
  {
    hide EmissionAtomic;
  }
}
