/**
 The Senate tally. The k-th vote of a family weighs about one over the square root of k + 1, so a family
 weighs the square root of its size, and a quorum needs weight in at least four slots.
 */
module Votes {
  import opened Wrappers
  import opened Words
  import opened Roots

  const QUORUM_FAMILIES: nat := 3
  const QUORUM_WEIGHT_MP: nat := 2_000_000
  const QUORUM_FAMILY_CAP_PM: nat := 330
  /** The families with a damper slot of their own; the next slot is shared by the rest. */
  const OWN_SLOTS: nat := 64
  const U32_MAX: nat := 0xFFFF_FFFF
  const MILLION: nat := 1_000_000

  type u32 = n: nat | n <= U32_MAX

  datatype Vote = Vote(voter: nat, kleosAgentMp: u64, family: nat)

  datatype Tally = Tally(totalWeightMp: u64, families: nat, heaviestFamilyWeightMp: u64)

  /** The damper step of the k-th vote of a family, per mille. */
  function DampenPm(k: nat): nat {
    var denom := Isqrt(MILLION * (k + 1));
    MILLION / if denom > 1 then denom else 1
  }

  // ----- square-root damping

  /** The steps of the first n votes, added up. */
  ghost function Steps(n: nat): nat {
    if n == 0 then 0 else Steps(n - 1) + DampenPm(n - 1)
  }

  /** A step of the damper, squared, against the position it stands at. */
  lemma StepIsInverseRoot(k: nat)
    ensures DampenPm(k) <= 1000
    ensures DampenPm(k) * DampenPm(k) * (k + 1) <= 1_002_001
  {
    hide Isqrt, IsRoot;
    var m := k + 1;
    IsqrtIsRoot(MILLION * m);
    var s := Isqrt(MILLION * m);
    RootIsLarge(s, m);
    QuotientOf(MILLION, s);
    var t := MILLION / s;
    Scale(t, 1000, s);
    RootBound(t, s, m);
  }

  lemma RootIsLarge(s: nat, m: nat)
    requires IsRoot(s, MILLION * m) && m > 0
    ensures s >= 1000 && MILLION * m < (s + 1) * (s + 1)
  {
    if s < 1000 {
      SquaresGrow(s + 1, 1000);
    }
  }

  lemma QuotientOf(n: nat, d: nat)
    requires d > 0
    ensures n / d * d <= n
  {
  }

  lemma RootBound(t: nat, s: nat, m: nat)
    requires t * s <= MILLION && t <= 1000 && MILLION * m < (s + 1) * (s + 1)
    ensures t * t * m <= 1_002_001
  {
    assert t * (s + 1) == t * s + t;
    assert t * (s + 1) <= 1_001_000;
    SquaresGrow(t * (s + 1), 1_001_000);
    Regroup(t, s + 1);
    Scale(t * t, MILLION * m, (s + 1) * (s + 1));
    assert t * t * (MILLION * m) == MILLION * (t * t * m);
  }

  lemma Regroup(a: nat, b: nat)
    ensures (a * b) * (a * b) == (a * a) * (b * b)
  {
  }

  lemma Scale(c: nat, a: nat, b: nat)
    requires a <= b
    ensures c * a <= c * b
  {
  }

  /** (d + t) squared stays under the bound when d and t do. */
  lemma SquareStep(d: nat, t: nat, n: nat)
    requires d * d <= 4_410_000 * n
    requires t <= 1000 && t * t * (n + 1) <= 1_002_001
    ensures (d + t) * (d + t) <= 4_410_000 * (n + 1)
  {
    var sq := t * t;
    assert sq <= 1_000_000 by { SquaresGrow(t, 1000); }
    assert sq * (n + 1) == sq * n + sq;
    Scale(sq, d * d, 4_410_000 * n);
    assert sq * (4_410_000 * n) == 4_410_000 * (sq * n);
    Regroup(d, t);
    var twice := 2 * (d * t);
    assert twice * twice == 4 * ((d * d) * sq) by {
      assert twice * twice == 4 * ((d * t) * (d * t));
    }
    assert sq * (d * d) == (d * d) * sq;
    var room: nat := 4_410_000 - sq;
    assert room * room == 4_410_000 * 4_410_000 - 2 * 4_410_000 * sq + sq * sq;
    assert twice * twice <= room * room;
    RootsCompare(twice, room);
    assert (d + t) * (d + t) == d * d + twice + sq;
  }

  /** The damper is square-root bounded, for every n. */
  lemma {:induction false} StepsAreRootBounded(n: nat)
    ensures Steps(n) * Steps(n) <= 4_410_000 * n
  {
    hide DampenPm;
    if n > 0 {
      StepsAreRootBounded(n - 1);
      StepIsInverseRoot(n - 1);
      SquareStep(Steps(n - 1), DampenPm(n - 1), n - 1);
    }
  }

  // ----- the tally

  /** One damper slot: the weight it gathered and the votes it saw. */
  datatype Slot = Slot(weight: u64, seen: u32)

  /** The tally midway: the slots, the families that own the first ones, and the two counters. */
  datatype Desk = Desk(slots: seq<Slot>, keys: seq<nat>, distinct: nat, total: u64)

  function Blank(n: nat): (r: seq<Slot>)
    ensures |r| == n && forall i | 0 <= i < n :: r[i] == Slot(0, 0)
  {
    if n == 0 then [] else Blank(n - 1) + [Slot(0, 0)]
  }

  function OpeningDesk(): Desk {
    Desk(Blank(OWN_SLOTS + 1), [], 0, 0)
  }

  /** The slot a family owns, or the shared one. */
  function SlotOf(keys: seq<nat>, family: nat): (index: nat)
    requires |keys| <= OWN_SLOTS
    ensures if family in keys then index < |keys| && keys[index] == family else index == OWN_SLOTS
  {
    if family !in keys then OWN_SLOTS
    else if keys[0] == family then 0
    else 1 + SlotOf(keys[1..], family)
  }

  /** A family not seen yet is counted, and takes a slot of its own while there is one. */
  function Seated(keys: seq<nat>, distinct: nat, family: nat): (r: (seq<nat>, nat))
    requires |keys| <= OWN_SLOTS
    ensures |r.0| <= OWN_SLOTS
  {
    if family in keys then (keys, distinct)
    else
      (if |keys| < OWN_SLOTS then keys + [family] else keys, if distinct == U32_MAX then U32_MAX else distinct + 1)
  }

  /** The weight of a vote that is the k-th of its slot. */
  function Weight(vote: Vote, k: nat): nat {
    vote.kleosAgentMp * DampenPm(k) / 1000
  }

  /** One vote. Nothing when the slot's counter is full or the product leaves the u64 range: the code panics there. */
  function Cast(desk: Desk, vote: Vote): Option<Desk>
    requires |desk.slots| == OWN_SLOTS + 1 && |desk.keys| <= OWN_SLOTS
  {
    var (keys, distinct) := Seated(desk.keys, desk.distinct, vote.family);
    var index := SlotOf(keys, vote.family);
    var slot := desk.slots[index];
    if slot.seen == U32_MAX || vote.kleosAgentMp * DampenPm(slot.seen) > U64_MAX then None else
      var weight := Weight(vote, slot.seen);
      Some(Desk(desk.slots[index := Slot(SaturatingAdd(slot.weight, weight), slot.seen + 1)],
                keys, distinct, SaturatingAdd(desk.total, weight)))
  }

  function CastAll(desk: Desk, votes: seq<Vote>): Option<Desk>
    requires |desk.slots| == OWN_SLOTS + 1 && |desk.keys| <= OWN_SLOTS
    decreases |votes|
  {
    if votes == [] then Some(desk) else
      var next := Cast(desk, votes[0]);
      if next.None? then None else CastAll(next.value, votes[1..])
  }

  /** The heaviest slot. */
  function Heaviest(slots: seq<Slot>): (h: u64)
    ensures forall i | 0 <= i < |slots| :: slots[i].weight <= h
    ensures h > 0 ==> exists i :: 0 <= i < |slots| && slots[i].weight == h
  {
    if slots == [] then 0 else
      var rest := Heaviest(slots[1..]);
      if slots[0].weight > rest then slots[0].weight else rest
  }

  function TallyOf(votes: seq<Vote>): Option<Tally> {
    var end := CastAll(OpeningDesk(), votes);
    if end.None? then None
    else Some(Tally(end.value.total, end.value.distinct, Heaviest(end.value.slots)))
  }

  /** Tallies the votes. */
  method CountVotes(votes: seq<Vote>) returns (r: Option<Tally>)
    ensures r == TallyOf(votes)
  {
    hide *;
    var weights, seen, keys := new u64[OWN_SLOTS + 1](_ => 0), new u32[OWN_SLOTS + 1](_ => 0),
      new nat[OWN_SLOTS](_ => 0);
    var familiesLen, distinct, total := 0, 0, 0;
    ghost var desk := OpeningDesk();
    Opened(weights[..], seen[..], keys[..familiesLen]);
    TallyUnfolds(votes);
    assert votes[0..] == votes;
    for n := 0 to |votes|
      invariant familiesLen <= OWN_SLOTS
      invariant desk == Desk(Slots(weights[..], seen[..]), keys[..familiesLen], distinct, total)
      invariant |desk.slots| == OWN_SLOTS + 1 && CastAll(desk, votes[n..]) == CastAll(OpeningDesk(), votes)
    {
      assert votes[n..][0] == votes[n] && votes[n..][1..] == votes[n + 1..];
      CastNext(desk, votes[n..]);
      var panicked;
      panicked, familiesLen, distinct, total :=
        CastVote(votes[n], weights, seen, keys, familiesLen, distinct, total, desk);
      if panicked {
        return None;
      }
      desk := Desk(Slots(weights[..], seen[..]), keys[..familiesLen], distinct, total);
    }
    CastNext(desk, votes[|votes|..]);
    var heaviest := FindHeaviest(weights, seen);
    r := Some(Tally(total, distinct, heaviest));
  }

  lemma Opened(weights: seq<u64>, seen: seq<u32>, keys: seq<nat>)
    requires |weights| == |seen| == OWN_SLOTS + 1 && keys == []
    requires forall i | 0 <= i <= OWN_SLOTS :: weights[i] == 0 && seen[i] == 0
    ensures OpeningDesk() == Desk(Slots(weights, seen), keys, 0, 0) && |OpeningDesk().slots| == OWN_SLOTS + 1
  {
    assert Slots(weights, seen) == Blank(OWN_SLOTS + 1);
  }

  lemma TallyUnfolds(votes: seq<Vote>)
    ensures |OpeningDesk().slots| == OWN_SLOTS + 1 && |OpeningDesk().keys| == 0
    ensures var end := CastAll(OpeningDesk(), votes);
            TallyOf(votes) == if end.None? then None
                              else Some(Tally(end.value.total, end.value.distinct, Heaviest(end.value.slots)))
  {
  }

  lemma CastNext(desk: Desk, votes: seq<Vote>)
    requires |desk.slots| == OWN_SLOTS + 1 && |desk.keys| <= OWN_SLOTS
    ensures votes == [] ==> CastAll(desk, votes) == Some(desk)
    ensures votes != [] ==>
              var next := Cast(desk, votes[0]);
              if next.None? then CastAll(desk, votes) == None
              else |next.value.slots| == OWN_SLOTS + 1 && |next.value.keys| <= OWN_SLOTS
                   && CastAll(desk, votes) == CastAll(next.value, votes[1..])
  {
    hide DampenPm;
  }

  /** One vote finds its family's slot, or takes one, or the shared one, and adds its damped weight. */
  method CastVote(
    vote: Vote, weights: array<u64>, seen: array<u32>, keys: array<nat>, familiesLen: nat, distinct: nat, total: u64,
    ghost desk: Desk)
    returns (panicked: bool, familiesLen': nat, distinct': nat, total': u64)
    requires weights.Length == seen.Length == OWN_SLOTS + 1 && keys.Length == OWN_SLOTS && familiesLen <= OWN_SLOTS
    requires desk == Desk(Slots(weights[..], seen[..]), keys[..familiesLen], distinct, total)
    requires |desk.slots| == OWN_SLOTS + 1
    modifies weights, seen, keys
    ensures familiesLen' <= OWN_SLOTS
    ensures panicked <==> Cast(desk, vote).None?
    ensures !panicked ==>
              Cast(desk, vote) == Some(Desk(Slots(weights[..], seen[..]), keys[..familiesLen'], distinct', total'))
  {
    hide *;
    var index;
    index, familiesLen', distinct' := Seat(vote.family, keys, familiesLen, distinct);
    total' := total;
    CastUnfolds(desk, vote);
    if seen[index] == U32_MAX {
      return true, familiesLen', distinct', total';
    }
    var step := DampenPm(seen[index]);
    seen[index] := seen[index] + 1;
    if vote.kleosAgentMp * step > U64_MAX {
      return true, familiesLen', distinct', total';
    }
    var weight := vote.kleosAgentMp * step / 1000;
    weights[index] := SaturatingAdd(weights[index], weight);
    total' := SaturatingAdd(total, weight);
    SlotWritten(old(weights[..]), old(seen[..]), index, weights[index], seen[index]);
    assert weights[..] == old(weights[..])[index := weights[index]];
    assert seen[..] == old(seen[..])[index := seen[index]];
    panicked := false;
  }

  lemma CastUnfolds(desk: Desk, vote: Vote)
    requires |desk.slots| == OWN_SLOTS + 1 && |desk.keys| <= OWN_SLOTS
    ensures var (keys, distinct) := Seated(desk.keys, desk.distinct, vote.family);
            var index := SlotOf(keys, vote.family);
            var slot := desk.slots[index];
            var product := vote.kleosAgentMp * DampenPm(slot.seen);
            Cast(desk, vote) ==
            if slot.seen == U32_MAX || product > U64_MAX then None
            else Some(Desk(desk.slots[index := Slot(SaturatingAdd(slot.weight, product / 1000), slot.seen + 1)],
                           keys, distinct, SaturatingAdd(desk.total, product / 1000)))
  {
    hide DampenPm, SlotOf, Seated;
  }

  /** The slot of a family, after it took one if it is new and one is left. */
  method Seat(family: nat, keys: array<nat>, familiesLen: nat, distinct: nat)
    returns (index: nat, familiesLen': nat, distinct': nat)
    requires keys.Length == OWN_SLOTS && familiesLen <= OWN_SLOTS
    modifies keys
    ensures familiesLen' <= OWN_SLOTS
    ensures (keys[..familiesLen'], distinct') == Seated(old(keys[..familiesLen]), distinct, family)
    ensures index == SlotOf(keys[..familiesLen'], family)
  {
    familiesLen', distinct' := familiesLen, distinct;
    index := FindSlot(keys, familiesLen, family);
    if index == OWN_SLOTS {
      distinct' := if distinct == U32_MAX then U32_MAX else distinct + 1;
      if familiesLen < OWN_SLOTS {
        keys[familiesLen] := family;
        index := familiesLen;
        familiesLen' := familiesLen + 1;
        assert keys[..familiesLen'] == old(keys[..familiesLen]) + [family];
        FirstMatch(keys[..familiesLen'], familiesLen);
      }
    }
  }

  lemma SlotWritten(weights: seq<u64>, seen: seq<u32>, index: nat, weight: u64, count: u32)
    requires |weights| == |seen| && index < |weights|
    ensures Slots(weights[index := weight], seen[index := count]) == Slots(weights, seen)[index := Slot(weight, count)]
    ensures |Slots(weights, seen)| == |weights| && Slots(weights, seen)[index] == Slot(weights[index], seen[index])
  {
  }

  method FindHeaviest(weights: array<u64>, seen: array<u32>) returns (heaviest: u64)
    requires weights.Length == seen.Length
    ensures heaviest == Heaviest(Slots(weights[..], seen[..]))
  {
    heaviest := 0;
    ghost var slots := Slots(weights[..], seen[..]);
    var i := weights.Length;
    while i > 0
      invariant 0 <= i <= weights.Length && heaviest == Heaviest(slots[i..])
    {
      i := i - 1;
      assert slots[i..][1..] == slots[i + 1..] && slots[i..][0] == slots[i];
      heaviest := if weights[i] > heaviest then weights[i] else heaviest;
    }
    assert slots[0..] == slots;
  }

  /** The slots two parallel arrays describe. */
  ghost function Slots(weights: seq<u64>, seen: seq<u32>): (r: seq<Slot>)
    requires |weights| == |seen|
    ensures |r| == |weights|
    ensures forall i | 0 <= i < |r| :: r[i] == Slot(weights[i], seen[i])
  {
    if weights == [] then [] else
      [Slot(weights[0], seen[0])] + Slots(weights[1..], seen[1..])
  }

  method FindSlot(keys: array<nat>, length: nat, family: nat) returns (index: nat)
    requires length <= keys.Length == OWN_SLOTS
    ensures index == SlotOf(keys[..length], family)
  {
    for i := 0 to length
      invariant family !in keys[..i]
    {
      if keys[i] == family {
        FirstMatch(keys[..length], i);
        return i;
      }
    }
    index := OWN_SLOTS;
  }

  lemma {:induction false} FirstMatch(keys: seq<nat>, i: nat)
    requires i < |keys| <= OWN_SLOTS && keys[i] !in keys[..i]
    ensures SlotOf(keys, keys[i]) == i
  {
    if i > 0 {
      assert keys[0] in keys[..i];
      assert forall j | 0 <= j < i - 1 :: keys[1..][j] == keys[..i][j + 1];
      FirstMatch(keys[1..], i - 1);
    }
  }

  // ----- what a slot holds

  /** The votes of one family, in order. */
  ghost function FamilyVotes(votes: seq<Vote>, family: nat): seq<Vote> {
    if votes == [] then [] else
      var front := FamilyVotes(votes[..|votes| - 1], family);
      var last := votes[|votes| - 1];
      if last.family == family then front + [last] else front
  }

  /** The damped weight of a family: its k-th vote carries the k-th step. */
  ghost function Damped(votes: seq<Vote>): nat {
    if votes == [] then 0 else
      var k := |votes| - 1;
      Damped(votes[..k]) + Weight(votes[k], k)
  }

  ghost function SlotTotal(slots: seq<Slot>): nat {
    if slots == [] then 0 else slots[0].weight + SlotTotal(slots[1..])
  }

  /** The number of slots that carry weight. */
  ghost function Carrying(slots: seq<Slot>): nat {
    if slots == [] then 0 else (if slots[0].weight > 0 then 1 else 0) + Carrying(slots[1..])
  }

  /** What a desk shows after the votes `past`: each owner's slot holds exactly its family. */
  ghost predicate Fair(desk: Desk, past: seq<Vote>) {
    && |desk.slots| == OWN_SLOTS + 1 && |desk.keys| <= OWN_SLOTS
    && (forall i, j | 0 <= i < j < |desk.keys| :: desk.keys[i] != desk.keys[j])
    && (forall i | 0 <= i < |desk.keys| :: Owns(desk.slots[i], FamilyVotes(past, desk.keys[i])))
    && (forall i | |desk.keys| <= i < OWN_SLOTS :: desk.slots[i] == Slot(0, 0))
    && (|desk.keys| < OWN_SLOTS ==>
          forall f {:trigger FamilyVotes(past, f)} | f !in desk.keys :: FamilyVotes(past, f) == [])
  }

  ghost predicate Owns(slot: Slot, family: seq<Vote>) {
    slot.seen == |family| && slot.weight == SaturatingAdd(0, Damped(family))
  }

  lemma FamilyGrows(past: seq<Vote>, vote: Vote, family: nat)
    ensures FamilyVotes(past + [vote], family) ==
            if vote.family == family then FamilyVotes(past, family) + [vote] else FamilyVotes(past, family)
  {
    assert (past + [vote])[..|past|] == past;
  }

  lemma OwnsMore(slot: Slot, family: seq<Vote>, vote: Vote)
    requires Owns(slot, family) && slot.seen < U32_MAX
    ensures Owns(Slot(SaturatingAdd(slot.weight, Weight(vote, slot.seen)), slot.seen + 1), family + [vote])
  {
    hide DampenPm;
    assert (family + [vote])[..|family|] == family;
  }

  /** One vote keeps every owner's slot exact. */
  lemma CastIsFair(desk: Desk, past: seq<Vote>, vote: Vote)
    requires Fair(desk, past) && Cast(desk, vote).Some?
    ensures Fair(Cast(desk, vote).value, past + [vote])
  {
    hide DampenPm, SlotOf, FamilyVotes, Owns, Weight;
    var next := Cast(desk, vote).value;
    var index := SlotOf(next.keys, vote.family);
    SeatedOwner(desk.keys, desk.distinct, vote.family);
    var more := past + [vote];
    forall i | 0 <= i < |next.keys| ensures Owns(next.slots[i], FamilyVotes(more, next.keys[i])) {
      FamilyGrows(past, vote, next.keys[i]);
      if next.keys[i] == vote.family {
        assert i == index;
        if i == |desk.keys| {
          EmptySlotOwns(FamilyVotes(past, vote.family));
        }
        OwnsMore(desk.slots[i], FamilyVotes(past, vote.family), vote);
      }
    }
    forall f {:trigger FamilyVotes(more, f)} | f !in next.keys && |next.keys| < OWN_SLOTS
      ensures FamilyVotes(more, f) == []
    {
      FamilyGrows(past, vote, f);
    }
  }

  lemma EmptySlotOwns(family: seq<Vote>)
    requires family == []
    ensures Owns(Slot(0, 0), family)
  {
  }

  lemma SeatedOwner(keys: seq<nat>, distinct: nat, family: nat)
    requires |keys| <= OWN_SLOTS && forall i, j | 0 <= i < j < |keys| :: keys[i] != keys[j]
    ensures var after := Seated(keys, distinct, family).0;
            && |keys| <= |after| <= OWN_SLOTS && (forall i | 0 <= i < |keys| :: after[i] == keys[i])
            && (forall i, j | 0 <= i < j < |after| :: after[i] != after[j])
            && (|after| > |keys| ==> |after| == |keys| + 1 && after[|keys|] == family && family !in keys)
            && (family !in after ==> |keys| == OWN_SLOTS && after == keys)
            && (family in keys ==> after == keys)
  {
  }

  lemma {:induction false} VotesAreFair(desk: Desk, past: seq<Vote>, votes: seq<Vote>)
    requires Fair(desk, past) && CastAll(desk, votes).Some?
    ensures Fair(CastAll(desk, votes).value, past + votes)
    decreases |votes|
  {
    hide Cast, Fair;
    FairShape(desk, past);
    if votes == [] {
      assert past + votes == past;
    } else {
      CastIsFair(desk, past, votes[0]);
      VotesAreFair(Cast(desk, votes[0]).value, past + [votes[0]], votes[1..]);
      assert past + [votes[0]] + votes[1..] == past + votes;
    }
  }

  lemma FairShape(desk: Desk, past: seq<Vote>)
    requires Fair(desk, past)
    ensures |desk.slots| == OWN_SLOTS + 1 && |desk.keys| <= OWN_SLOTS
  {
  }

  lemma OpeningIsFair()
    ensures Fair(OpeningDesk(), [])
  {
  }

  lemma {:induction false} DampedUnderSteps(votes: seq<Vote>, w: nat)
    requires forall v | v in votes :: v.kleosAgentMp <= w
    ensures 1000 * Damped(votes) <= w * Steps(|votes|)
  {
    hide DampenPm;
    if votes != [] {
      var k := |votes| - 1;
      var front := votes[..k];
      assert forall v | v in front :: v in votes;
      DampedUnderSteps(front, w);
      assert votes[k] in votes;
      DampedStep(Damped(front), Steps(k), w, votes[k].kleosAgentMp, DampenPm(k));
    }
  }

  lemma DampedStep(damped: nat, steps: nat, w: nat, m: nat, d: nat)
    requires 1000 * damped <= w * steps && m <= w
    ensures 1000 * (damped + m * d / 1000) <= w * (steps + d)
  {
    Scale(d, m, w);
    assert m * d == d * m && w * d == d * w;
    assert w * (steps + d) == w * steps + w * d;
  }

  /**
   A family with a slot of its own weighs at most 2.1 times the square root of its votes, in units of the
   heaviest of them, whatever its size and whoever votes beside it.
   */
  lemma FamilyWeighsItsRoot(votes: seq<Vote>, i: nat, w: nat)
    requires CastAll(OpeningDesk(), votes).Some? && i < |CastAll(OpeningDesk(), votes).value.keys|
    requires forall v | v in votes && v.family == CastAll(OpeningDesk(), votes).value.keys[i] :: v.kleosAgentMp <= w
    ensures var end := CastAll(OpeningDesk(), votes).value;
            i < |end.slots| && 100 * end.slots[i].weight * end.slots[i].weight <=
                               441 * w * w * |FamilyVotes(votes, end.keys[i])|
  {
    hide CastAll, DampenPm, Blank;
    var end := CastAll(OpeningDesk(), votes).value;
    OpeningIsFair();
    VotesAreFair(OpeningDesk(), [], votes);
    assert [] + votes == votes;
    var family := FamilyVotes(votes, end.keys[i]);
    assert Owns(end.slots[i], family);
    FamilyMembers(votes, end.keys[i]);
    DampedUnderSteps(family, w);
    StepsAreRootBounded(|family|);
    RootOfSize(end.slots[i].weight, Damped(family), w, Steps(|family|), |family|);
  }

  lemma RootOfSize(weight: nat, damped: nat, w: nat, steps: nat, n: nat)
    requires weight <= damped && 1000 * damped <= w * steps && steps * steps <= 4_410_000 * n
    ensures 100 * weight * weight <= 441 * w * w * n
  {
    SquaresGrow(1000 * weight, w * steps);
    Regroup(1000, weight);
    Regroup(w, steps);
    Scale(w * w, steps * steps, 4_410_000 * n);
    assert w * w * (4_410_000 * n) == 10_000 * (441 * w * w * n);
  }

  lemma {:induction false} FamilyMembers(votes: seq<Vote>, family: nat)
    ensures forall v | v in FamilyVotes(votes, family) :: v in votes && v.family == family
  {
    if votes != [] {
      FamilyMembers(votes[..|votes| - 1], family);
      assert forall v | v in votes[..|votes| - 1] :: v in votes;
    }
  }

  // ----- the quorum

  /** Whether the tally is a quorum. Nothing when the product leaves the u64 range: the code panics there. */
  function QuorumOk(tally: Tally): Option<bool> {
    if tally.families < QUORUM_FAMILIES || tally.totalWeightMp < QUORUM_WEIGHT_MP || tally.totalWeightMp == 0 then
      Some(false)
    else if tally.heaviestFamilyWeightMp * 1000 > U64_MAX then None
    else Some(tally.heaviestFamilyWeightMp * 1000 / tally.totalWeightMp % (U32_MAX + 1) <= QUORUM_FAMILY_CAP_PM)
  }

  /** A counter short of its limit has added every weight of every slot. */
  ghost predicate Accounted(desk: Desk) {
    && |desk.slots| == OWN_SLOTS + 1 && |desk.keys| <= OWN_SLOTS
    && (desk.total < U64_MAX ==> SlotTotal(desk.slots) == desk.total)
  }

  lemma {:induction false} SlotUpdate(slots: seq<Slot>, i: nat, slot: Slot)
    requires i < |slots|
    ensures SlotTotal(slots[i := slot]) == SlotTotal(slots) - slots[i].weight + slot.weight
    ensures slots[i].weight <= SlotTotal(slots)
  {
    if i > 0 {
      SlotUpdate(slots[1..], i - 1, slot);
      assert slots[i := slot][1..] == slots[1..][i - 1 := slot];
    } else {
      assert slots[i := slot][1..] == slots[1..];
    }
  }

  lemma {:induction false} VotesAreAccounted(desk: Desk, votes: seq<Vote>)
    requires Accounted(desk) && CastAll(desk, votes).Some?
    ensures Accounted(CastAll(desk, votes).value)
    decreases |votes|
  {
    hide DampenPm, SlotTotal;
    if votes != [] {
      CastUnfolds(desk, votes[0]);
      var next := Cast(desk, votes[0]).value;
      var (keys, distinct) := Seated(desk.keys, desk.distinct, votes[0].family);
      var index := SlotOf(keys, votes[0].family);
      SlotUpdate(desk.slots, index, next.slots[index]);
      VotesAreAccounted(next, votes[1..]);
    }
  }

  lemma {:induction false} CarriedByFew(slots: seq<Slot>, h: nat)
    requires forall i | 0 <= i < |slots| :: slots[i].weight <= h
    ensures SlotTotal(slots) <= Carrying(slots) * h
  {
    if slots != [] {
      CarriedByFew(slots[1..], h);
      assert Carrying(slots[1..]) * h + h == (Carrying(slots[1..]) + 1) * h;
    }
  }

  lemma {:induction false} BlankIsWeightless(n: nat)
    ensures SlotTotal(Blank(n)) == 0
  {
    if n > 0 {
      BlankIsWeightless(n - 1);
      assert Blank(n)[1..] == Blank(n - 1);
    }
  }

  /** A quorum carries weight in at least four slots, short of the u64 range. */
  lemma QuorumIsDiverse(votes: seq<Vote>)
    requires TallyOf(votes).Some? && TallyOf(votes).value.totalWeightMp < U64_MAX
    requires QuorumOk(TallyOf(votes).value) == Some(true)
    ensures Carrying(CastAll(OpeningDesk(), votes).value.slots) >= 4
  {
    hide CastAll, Blank;
    var end, tally := CastAll(OpeningDesk(), votes).value, TallyOf(votes).value;
    BlankIsWeightless(OWN_SLOTS + 1);
    VotesAreAccounted(OpeningDesk(), votes);
    var h, t, slots := tally.heaviestFamilyWeightMp, tally.totalWeightMp, end.slots;
    CarriedByFew(slots, h);
    HeaviestIsCarried(slots);
    assert h <= t;
    ShareFits(h, t);
    TooFew(h, Carrying(slots), t);
  }

  lemma TooFew(h: nat, carrying: nat, t: nat)
    requires 0 < t <= carrying * h && 1000 * h < 331 * t
    ensures carrying >= 4
  {
  }

  lemma HeaviestIsCarried(slots: seq<Slot>)
    ensures Heaviest(slots) <= SlotTotal(slots)
  {
    if Heaviest(slots) > 0 {
      var i :| 0 <= i < |slots| && slots[i].weight == Heaviest(slots);
      SlotUpdate(slots, i, slots[i]);
    }
  }

  lemma ShareFits(h: nat, t: nat)
    requires 0 < t && h <= t
    ensures h * 1000 / t <= 1000 && h * 1000 / t % (U32_MAX + 1) == h * 1000 / t
    ensures h * 1000 < t * (h * 1000 / t + 1)
    ensures h * 1000 / t <= 330 ==> 1000 * h < 331 * t
  {
    var q := h * 1000 / t;
    assert h * 1000 == t * q + h * 1000 % t;
    assert t * (q + 1) == t * q + t;
    if q <= 330 {
      Scale(t, q + 1, 331);
    }
    assert q <= 1000 by {
      QuotientBound(h * 1000, t, q);
    }
  }

  lemma QuotientBound(n: nat, t: nat, q: nat)
    requires t > 0 && q * t <= n <= 1000 * t
    ensures q <= 1000
  {
  }

  // ----- counting families

  ghost function Families(votes: seq<Vote>): set<nat> {
    set v | v in votes :: v.family
  }

  ghost function Owners(keys: seq<nat>): set<nat> {
    set k | k in keys
  }

  /** The first sixty-four distinct families, as they appear in the votes. */
  ghost function FirstFamilies(votes: seq<Vote>): (r: seq<nat>)
    ensures |r| <= OWN_SLOTS
  {
    if votes == [] then [] else
      var before := FirstFamilies(votes[..|votes| - 1]);
      var family := votes[|votes| - 1].family;
      if family in before || |before| == OWN_SLOTS then before else before + [family]
  }

  /** No two votes are of one family, unless it is among `keys`. */
  ghost predicate VoteOnce(votes: seq<Vote>, keys: seq<nat>) {
    forall i, j | 0 <= i < j < |votes| && votes[i].family == votes[j].family :: votes[i].family in keys
  }

  /** No family beyond the first sixty-four votes twice. */
  ghost predicate LateFamiliesVoteOnce(votes: seq<Vote>) {
    VoteOnce(votes, FirstFamilies(votes))
  }

  /** The votes of families that own no slot. */
  ghost function Outside(votes: seq<Vote>, keys: seq<nat>): nat {
    if votes == [] then 0 else
      Outside(votes[..|votes| - 1], keys) + if votes[|votes| - 1].family in keys then 0 else 1
  }

  ghost function OutsideFamilies(votes: seq<Vote>, keys: seq<nat>): set<nat> {
    set v | v in votes && v.family !in keys :: v.family
  }

  function Capped(n: nat): nat {
    if n < U32_MAX then n else U32_MAX
  }

  /** The families counted midway: the owners, and one more for every vote outside. */
  ghost predicate Counts(desk: Desk, past: seq<Vote>) {
    && |desk.slots| == OWN_SLOTS + 1 && |desk.keys| <= OWN_SLOTS
    && (forall i, j | 0 <= i < j < |desk.keys| :: desk.keys[i] != desk.keys[j])
    && (forall k | k in desk.keys :: k in Families(past))
    && (|desk.keys| < OWN_SLOTS ==> forall v | v in past :: v.family in desk.keys)
    && desk.keys == FirstFamilies(past)
    && desk.distinct == Capped(|desk.keys| + Outside(past, desk.keys))
  }

  lemma {:induction false} OutsideBounds(votes: seq<Vote>, keys: seq<nat>)
    requires forall v | v in votes :: v.family in keys
    ensures Outside(votes, keys) == 0
  {
    if votes != [] {
      var front := votes[..|votes| - 1];
      assert forall v | v in front :: v in votes;
      OutsideBounds(front, keys);
      assert votes[|votes| - 1] in votes;
    }
  }

  lemma OutsideAppend(votes: seq<Vote>, vote: Vote, keys: seq<nat>)
    ensures Outside(votes + [vote], keys) == Outside(votes, keys) + if vote.family in keys then 0 else 1
  {
    assert (votes + [vote])[..|votes|] == votes;
  }

  lemma FirstFamiliesAppend(votes: seq<Vote>, vote: Vote)
    ensures var before := FirstFamilies(votes);
            FirstFamilies(votes + [vote]) ==
            if vote.family in before || |before| == OWN_SLOTS then before else before + [vote.family]
  {
    assert (votes + [vote])[..|votes|] == votes;
  }

  lemma CastCounts(desk: Desk, past: seq<Vote>, vote: Vote)
    requires Counts(desk, past) && Cast(desk, vote).Some?
    ensures Counts(Cast(desk, vote).value, past + [vote])
  {
    hide DampenPm, SlotOf, Outside, FirstFamilies;
    CastUnfolds(desk, vote);
    var next := Cast(desk, vote).value;
    SeatedOwner(desk.keys, desk.distinct, vote.family);
    OutsideAppend(past, vote, next.keys);
    FirstFamiliesAppend(past, vote);
    assert vote in past + [vote] && forall v | v in past :: v in past + [vote];
    if next.keys != desk.keys {
      assert next.keys == desk.keys + [vote.family];
      assert forall v | v in past :: v.family in next.keys;
      OutsideBounds(past, desk.keys);
      OutsideBounds(past, next.keys);
    }
  }

  lemma {:induction false} VotesCount(desk: Desk, past: seq<Vote>, votes: seq<Vote>)
    requires Counts(desk, past) && CastAll(desk, votes).Some?
    ensures Counts(CastAll(desk, votes).value, past + votes)
    decreases |votes|
  {
    hide Cast, Outside, FirstFamilies;
    if votes == [] {
      assert past + votes == past;
    } else {
      CastCounts(desk, past, votes[0]);
      VotesCount(Cast(desk, votes[0]).value, past + [votes[0]], votes[1..]);
      assert past + [votes[0]] + votes[1..] == past + votes;
    }
  }

  lemma OutsideFamiliesAppend(votes: seq<Vote>, vote: Vote, keys: seq<nat>)
    ensures OutsideFamilies(votes + [vote], keys) ==
            OutsideFamilies(votes, keys) + if vote.family in keys then {} else {vote.family}
  {
    var all := votes + [vote];
    assert forall v :: v in all <==> v in votes || v == vote;
  }

  lemma VoteOnceAppend(votes: seq<Vote>, vote: Vote, keys: seq<nat>)
    ensures VoteOnce(votes + [vote], keys) <==>
            VoteOnce(votes, keys) && vote.family !in OutsideFamilies(votes, keys)
  {
    var all, n := votes + [vote], |votes|;
    if VoteOnce(all, keys) {
      forall i, j | 0 <= i < j < n && votes[i].family == votes[j].family ensures votes[i].family in keys {
        assert all[i] == votes[i] && all[j] == votes[j];
      }
      forall v | v in votes && v.family == vote.family ensures v.family in keys {
        var i :| 0 <= i < n && votes[i] == v;
        assert all[i].family == all[n].family;
      }
    } else {
      var i, j :| 0 <= i < j <= n && all[i].family == all[j].family && all[i].family !in keys;
      assert votes[i] in votes;
    }
  }

  /** The votes outside are as many as their families exactly when no family outside votes twice. */
  lemma {:induction false} OutsideCountsFamilies(votes: seq<Vote>, keys: seq<nat>)
    ensures |OutsideFamilies(votes, keys)| <= Outside(votes, keys)
    ensures Outside(votes, keys) == |OutsideFamilies(votes, keys)| <==> VoteOnce(votes, keys)
  {
    if votes == [] {
      assert OutsideFamilies(votes, keys) == {};
    } else {
      hide VoteOnce, OutsideFamilies, Outside;
      var n := |votes| - 1;
      assert votes == votes[..n] + [votes[n]];
      OutsideCountsFamilies(votes[..n], keys);
      OutsideAppend(votes[..n], votes[n], keys);
      OutsideFamiliesAppend(votes[..n], votes[n], keys);
      VoteOnceAppend(votes[..n], votes[n], keys);
      NotOutside(votes[..n], votes[n].family, keys);
    }
  }

  lemma NotOutside(votes: seq<Vote>, family: nat, keys: seq<nat>)
    ensures family in keys ==> family !in OutsideFamilies(votes, keys)
  {
  }

  /** The families field: the families with a slot of their own, and one more for every other vote. */
  lemma FamiliesField(votes: seq<Vote>)
    requires TallyOf(votes).Some?
    ensures var keys := FirstFamilies(votes);
            && TallyOf(votes).value.families == Capped(|keys| + Outside(votes, keys))
            && |Families(votes)| == |keys| + |OutsideFamilies(votes, keys)|
  {
    hide CastAll, Outside, Blank, FirstFamilies;
    assert FirstFamilies([]) == [] by { NoFamilies(); }
    OutsideBounds([], []);
    VotesCount(OpeningDesk(), [], votes);
    assert [] + votes == votes;
    FamiliesSplit(votes, FirstFamilies(votes));
  }

  lemma NoFamilies()
    ensures FirstFamilies([]) == []
  {
  }

  /**
   The tally counts the distinct families exactly when no family beyond the first sixty-four votes twice: every
   such vote counts as one more. Only past the range of the counter is it exact, or short, whoever votes.
   */
  lemma FamiliesAreCounted(votes: seq<Vote>)
    requires TallyOf(votes).Some?
    ensures |Families(votes)| < U32_MAX ==>
              (TallyOf(votes).value.families == |Families(votes)| <==> LateFamiliesVoteOnce(votes))
    ensures |Families(votes)| >= U32_MAX ==> TallyOf(votes).value.families == U32_MAX
    ensures |Families(votes)| <= OWN_SLOTS ==> TallyOf(votes).value.families == |Families(votes)|
  {
    hide TallyOf, Outside, FirstFamilies;
    var keys := FirstFamilies(votes);
    FamiliesField(votes);
    OutsideCountsFamilies(votes, keys);
    if |Families(votes)| <= OWN_SLOTS {
      FewFamiliesOwnSlots(votes);
    }
  }

  lemma {:induction false} FewFamiliesOwnSlots(votes: seq<Vote>)
    requires |Families(votes)| <= OWN_SLOTS
    ensures forall v | v in votes :: v.family in FirstFamilies(votes)
  {
    if votes != [] {
      var n := |votes| - 1;
      var front, last := votes[..n], votes[n];
      assert votes == front + [last];
      assert Families(votes) == Families(front) + {last.family};
      SubsetIsSmaller(Families(front), Families(votes));
      FewFamiliesOwnSlots(front);
      FirstAreFamilies(front);
      var before := FirstFamilies(front);
      if last.family !in before {
        assert Owners(before) <= Families(front) && last.family !in Families(front);
        OwnersCount(before);
        SubsetIsSmaller(Owners(before), Families(front));
      }
    }
  }

  lemma SubsetIsSmaller(a: set<nat>, b: set<nat>)
    requires a <= b
    ensures |a| <= |b|
  {
    assert b == a + (b - a);
  }

  lemma {:induction false} FirstAreFamilies(votes: seq<Vote>)
    ensures forall k | k in FirstFamilies(votes) :: k in Families(votes)
    ensures forall i, j | 0 <= i < j < |FirstFamilies(votes)| :: FirstFamilies(votes)[i] != FirstFamilies(votes)[j]
  {
    if votes != [] {
      var n := |votes| - 1;
      FirstAreFamilies(votes[..n]);
      assert votes == votes[..n] + [votes[n]];
      assert Families(votes) == Families(votes[..n]) + {votes[n].family};
    }
  }

  lemma FamiliesSplit(votes: seq<Vote>, keys: seq<nat>)
    requires forall i, j | 0 <= i < j < |keys| :: keys[i] != keys[j]
    requires forall k | k in keys :: k in Families(votes)
    ensures |Families(votes)| == |keys| + |OutsideFamilies(votes, keys)|
  {
    var owners := Owners(keys);
    var others := OutsideFamilies(votes, keys);
    OwnersCount(keys);
    assert Families(votes) == owners + others && owners !! others;
  }

  lemma {:induction false} OwnersCount(keys: seq<nat>)
    requires forall i, j | 0 <= i < j < |keys| :: keys[i] != keys[j]
    ensures |Owners(keys)| == |keys|
  {
    if keys != [] {
      var n := |keys| - 1;
      OwnersCount(keys[..n]);
      assert Owners(keys) == Owners(keys[..n]) + {keys[n]};
      assert keys[n] !in Owners(keys[..n]);
    } else {
      assert Owners(keys) == {};
    }
  }

  // ----- sixty-five families

  /** One vote of each of the first n families. */
  ghost function Parade(n: nat, mp: u64): (votes: seq<Vote>)
    ensures |votes| == n && forall i | 0 <= i < n :: votes[i] == Vote(i, mp, i)
  {
    if n == 0 then [] else Parade(n - 1, mp) + [Vote(n - 1, mp, n - 1)]
  }

  /** Votes that are not too heavy, and not too many, never panic. */
  lemma {:induction false} LightVotesTally(desk: Desk, past: nat, votes: seq<Vote>)
    requires |desk.slots| == OWN_SLOTS + 1 && |desk.keys| <= OWN_SLOTS && past + |votes| <= U32_MAX
    requires forall i | 0 <= i < |desk.slots| :: desk.slots[i].seen <= past
    requires forall v | v in votes :: v.kleosAgentMp * 1000 <= U64_MAX
    ensures CastAll(desk, votes).Some?
    decreases |votes|
  {
    hide DampenPm, SlotOf, Seated;
    if votes != [] {
      CastUnfolds(desk, votes[0]);
      var (keys, distinct) := Seated(desk.keys, desk.distinct, votes[0].family);
      var seen := desk.slots[SlotOf(keys, votes[0].family)].seen;
      StepIsInverseRoot(seen);
      Scale(votes[0].kleosAgentMp, DampenPm(seen), 1000);
      LightVotesTally(Cast(desk, votes[0]).value, past + 1, votes[1..]);
    }
  }

  ghost function FirstIds(n: nat): (ids: seq<nat>)
    ensures |ids| == n && forall i | 0 <= i < n :: ids[i] == i
  {
    if n == 0 then [] else FirstIds(n - 1) + [n - 1]
  }

  lemma {:induction false} ParadeOwns(n: nat, mp: u64)
    requires n <= OWN_SLOTS
    ensures FirstFamilies(Parade(n, mp)) == FirstIds(n)
  {
    if n == 0 {
      NoFamilies();
    } else {
      hide FirstFamilies, FirstIds;
      ParadeOwns(n - 1, mp);
      NewFamilyOwns(Parade(n - 1, mp), Vote(n - 1, mp, n - 1));
    }
  }

  lemma NewFamilyOwns(votes: seq<Vote>, vote: Vote)
    requires vote.family < OWN_SLOTS && FirstFamilies(votes) == FirstIds(vote.family)
    ensures FirstFamilies(votes + [vote]) == FirstIds(vote.family + 1)
  {
    hide FirstFamilies;
    FirstFamiliesAppend(votes, vote);
  }

  lemma ParadeIsInside(mp: u64)
    ensures var own, keys := Parade(OWN_SLOTS, mp), FirstIds(OWN_SLOTS);
            Outside(own, keys) == 0 && OutsideFamilies(own, keys) == {} && OWN_SLOTS !in keys
  {
    var own, keys := Parade(OWN_SLOTS, mp), FirstIds(OWN_SLOTS);
    forall v | v in own ensures v.family in keys {
      var i :| 0 <= i < OWN_SLOTS && own[i] == v;
      assert keys[i] == i;
    }
    OutsideBounds(own, keys);
  }

  /** Sixty-six votes of sixty-five families, the last family twice: the tally counts sixty-six. */
  lemma SixtyFiveFamiliesCountSixtySix(mp: u64)
    requires mp * 1000 <= U64_MAX
    ensures var votes := Parade(65, mp) + [Vote(65, mp, 64)];
            TallyOf(votes).Some? && TallyOf(votes).value.families == 66 && |Families(votes)| == 65
  {
    hide Outside, OutsideFamilies, FirstFamilies, CastAll, Families, FirstIds;
    var own, late, again := Parade(64, mp), Vote(64, mp, 64), Vote(65, mp, 64);
    var votes := Parade(65, mp) + [again];
    LightVotesTally(OpeningDesk(), 0, votes);
    assert Parade(65, mp) == own + [late];
    ParadeOwns(64, mp);
    ParadeIsInside(mp);
    FirstFamiliesAppend(own, late);
    FirstFamiliesAppend(own + [late], again);
    var keys := FirstIds(64);
    OutsideAppend(own, late, keys);
    OutsideAppend(own + [late], again, keys);
    OutsideFamiliesAppend(own, late, keys);
    OutsideFamiliesAppend(own + [late], again, keys);
    FamiliesField(votes);
  }
}
