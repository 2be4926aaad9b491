/**
 The tally, said of the votes alone: which step each vote stands on, what each slot and the whole gather, when the
 count panics, and when its result is a quorum.
 */
module Ballots {
  import opened Wrappers
  import opened Words
  import opened Roots
  import opened Votes

  /**
   The step of a vote is the greatest number whose product with the root of 1_000_000 (k + 1), rounded down, does not
   exceed 1_000_000.
   */
  lemma StepExactly(k: nat, root: nat, t: nat)
    requires root * root <= 1_000_000 * (k + 1) < (root + 1) * (root + 1)
    ensures DampenPm(k) == t <==> t * root <= 1_000_000 < (t + 1) * root
  {
    hide Isqrt;
    var m := k + 1;
    IsqrtIsRoot(MILLION * m);
    var s := Isqrt(MILLION * m);
    RootIsOne(MILLION * m, root, s);
    RootIsLarge(s, m);
    QuotientExactly(1_000_000, s, t);
  }

  lemma RootIsOne(n: nat, r: nat, s: nat)
    requires r * r <= n < (r + 1) * (r + 1) && s * s <= n < (s + 1) * (s + 1)
    ensures r == s
  {
    if r < s {
      SquaresGrow(r + 1, s);
    } else if s < r {
      SquaresGrow(s + 1, r);
    }
  }

  lemma QuotientExactly(n: nat, d: nat, q: nat)
    requires d > 0
    ensures n / d == q <==> q * d <= n < (q + 1) * d
  {
    var p := n / d;
    assert p * d <= n < p * d + d;
    assert (p + 1) * d == p * d + d;
    if q < p {
      Scale(d, q + 1, p);
      assert d * (q + 1) == (q + 1) * d && d * p == p * d;
    } else if p < q {
      Scale(d, p + 1, q);
      assert d * (p + 1) == (p + 1) * d && d * q == q * d;
    }
  }

  // ----- the place of a vote

  /** The votes of families outside a list, in order. */
  ghost function OutsideVotes(votes: seq<Vote>, keys: seq<nat>): seq<Vote> {
    if votes == [] then [] else
      var front := OutsideVotes(votes[..|votes| - 1], keys);
      var last := votes[|votes| - 1];
      if last.family in keys then front else front + [last]
  }

  /**
   How many votes a vote finds in its slot: those of its family when that is among the first sixty-four to appear,
   those of all other families when it is not.
   */
  ghost function PlaceAfter(past: seq<Vote>, vote: Vote): nat {
    var keys := FirstFamilies(past + [vote]);
    if vote.family in keys then |FamilyVotes(past, vote.family)| else |OutsideVotes(past, keys)|
  }

  /** What a vote weighs, given the votes before it. */
  ghost function WeightAfter(past: seq<Vote>, vote: Vote): nat {
    vote.kleosAgentMp * DampenPm(PlaceAfter(past, vote)) / 1000
  }

  /** Whether the count gets past a vote: its counter is not full and the product fits. */
  ghost predicate Counted(past: seq<Vote>, vote: Vote) {
    && PlaceAfter(past, vote) < 0xFFFF_FFFF
    && vote.kleosAgentMp * DampenPm(PlaceAfter(past, vote)) <= 0xFFFF_FFFF_FFFF_FFFF
  }

  /** What the votes weigh together. */
  ghost function Weighed(votes: seq<Vote>): nat {
    if votes == [] then 0 else
      var n := |votes| - 1;
      Weighed(votes[..n]) + WeightAfter(votes[..n], votes[n])
  }

  /** What a desk shows after some votes. */
  ghost predicate IsDesk(desk: Desk, past: seq<Vote>) {
    && Fair(desk, past) && desk.keys == FirstFamilies(past)
    && Owns(desk.slots[64], OutsideVotes(past, desk.keys))
    && (|desk.keys| < 64 ==> OutsideVotes(past, desk.keys) == [])
    && desk.total == SaturatingAdd(0, Weighed(past))
  }

  lemma OutsideGrows(past: seq<Vote>, vote: Vote, keys: seq<nat>)
    ensures OutsideVotes(past + [vote], keys) ==
            if vote.family in keys then OutsideVotes(past, keys) else OutsideVotes(past, keys) + [vote]
  {
    assert (past + [vote])[..|past|] == past;
  }

  lemma WeighedGrows(past: seq<Vote>, vote: Vote)
    ensures Weighed(past + [vote]) == Weighed(past) + WeightAfter(past, vote)
  {
    hide WeightAfter;
    assert (past + [vote])[..|past|] == past;
  }

  /** More owners leave no more votes outside. */
  lemma {:induction false} NoneOutside(votes: seq<Vote>, keys: seq<nat>, more: seq<nat>)
    requires OutsideVotes(votes, keys) == [] && forall k | k in keys :: k in more
    ensures OutsideVotes(votes, more) == []
  {
    if votes != [] {
      NoneOutside(votes[..|votes| - 1], keys, more);
    }
  }

  lemma SeatedExactly(desk: Desk, past: seq<Vote>, vote: Vote)
    requires IsDesk(desk, past)
    ensures |desk.slots| == 65 && |desk.keys| <= 64
    ensures var (keys, distinct) := Seated(desk.keys, desk.distinct, vote.family);
            && keys == FirstFamilies(past + [vote])
            && desk.slots[SlotOf(keys, vote.family)].seen == PlaceAfter(past, vote)
            && OutsideVotes(past, keys) == OutsideVotes(past, desk.keys)
            && (SlotOf(keys, vote.family) == 64 <==> vote.family !in keys)
            && (|keys| < 64 ==> vote.family in keys) && |desk.keys| <= |keys|
  {
    hide SlotOf, OutsideVotes, FamilyVotes, FirstFamilies;
    FirstFamiliesAppend(past, vote);
    var (keys, distinct) := Seated(desk.keys, desk.distinct, vote.family);
    SeatedOwner(desk.keys, desk.distinct, vote.family);
    if keys != desk.keys {
      NoneOutside(past, desk.keys, keys);
    }
    var i := SlotOf(keys, vote.family);
    if vote.family in keys && i < |desk.keys| {
      assert Owns(desk.slots[i], FamilyVotes(past, desk.keys[i]));
    }
  }

  lemma CastExactly(desk: Desk, past: seq<Vote>, vote: Vote)
    requires IsDesk(desk, past)
    ensures |desk.slots| == 65 && |desk.keys| <= 64
    ensures Cast(desk, vote).Some? <==> Counted(past, vote)
    ensures Cast(desk, vote).Some? ==> IsDesk(Cast(desk, vote).value, past + [vote])
  {
    hide DampenPm, SlotOf, OutsideVotes, FamilyVotes, FirstFamilies, PlaceAfter, Fair, Seated, Owns, Weighed;
    FairShape(desk, past);
    SeatedExactly(desk, past, vote);
    CastUnfolds(desk, vote);
    if Cast(desk, vote).Some? {
      CastIsFair(desk, past, vote);
      WeighedGrows(past, vote);
      var (keys, distinct) := Seated(desk.keys, desk.distinct, vote.family);
      OutsideGrows(past, vote, keys);
      if vote.family !in keys {
        OwnsMore(desk.slots[64], OutsideVotes(past, keys), vote);
      }
      SaturatedTwice(Weighed(past), WeightAfter(past, vote));
      var next, more := Cast(desk, vote).value, past + [vote];
      assert next.keys == FirstFamilies(more);
      assert next.total == SaturatingAdd(0, Weighed(more));
      assert |next.keys| < 64 ==> OutsideVotes(more, next.keys) == [];
      assert Owns(next.slots[64], OutsideVotes(more, next.keys));
    }
  }

  lemma SaturatedTwice(a: nat, b: nat)
    ensures SaturatingAdd(SaturatingAdd(0, a), b) == SaturatingAdd(0, a + b)
  {
  }

  lemma OpeningIsDesk()
    ensures IsDesk(OpeningDesk(), [])
  {
    hide Blank;
    OpeningIsFair();
    NoFamilies();
    assert |OpeningDesk().slots| == 65;
  }

  lemma {:induction false} CountExactly(desk: Desk, past: seq<Vote>, votes: seq<Vote>)
    requires IsDesk(desk, past)
    ensures |desk.slots| == 65 && |desk.keys| <= 64
    ensures CastAll(desk, votes).Some? <==> forall n | 0 <= n < |votes| :: Counted(past + votes[..n], votes[n])
    ensures CastAll(desk, votes).Some? ==> IsDesk(CastAll(desk, votes).value, past + votes)
    decreases |votes|
  {
    hide Cast, IsDesk, Counted;
    CastExactly(desk, past, if votes == [] then Vote(0, 0, 0) else votes[0]);
    if votes == [] {
      assert past + votes == past;
    } else {
      assert past + votes[..0] == past;
      var front, rest := past + [votes[0]], votes[1..];
      if Counted(past, votes[0]) {
        CountExactly(Cast(desk, votes[0]).value, front, rest);
        assert front + rest == past + votes;
        forall n | 0 < n < |votes| ensures past + votes[..n] == front + rest[..n - 1] && votes[n] == rest[n - 1] {
        }
        assert forall n | 0 <= n < |rest| :: front + rest[..n] == past + votes[..n + 1] && rest[n] == votes[n + 1];
      }
    }
  }

  /** A number, or the u64 limit when it lies beyond. */
  function Clipped(a: nat): (r: nat)
    ensures r <= a && r <= 0xFFFF_FFFF_FFFF_FFFF && (r == a || r == 0xFFFF_FFFF_FFFF_FFFF)
  {
    SaturatingAdd(0, a)
  }

  /** The damped weight of a slot grows by the next step of each vote. */
  lemma DampedExactly(votes: seq<Vote>, vote: Vote)
    ensures Damped([]) == 0
    ensures Damped(votes + [vote]) == Damped(votes) + vote.kleosAgentMp * DampenPm(|votes|) / 1000
  {
    hide DampenPm;
    assert (votes + [vote])[..|votes|] == votes;
  }

  lemma {:induction false} OutsideCount(votes: seq<Vote>, keys: seq<nat>)
    ensures Outside(votes, keys) == |OutsideVotes(votes, keys)|
  {
    if votes != [] {
      OutsideCount(votes[..|votes| - 1], keys);
    }
  }

  lemma SlotsExactly(desk: Desk, votes: seq<Vote>)
    requires IsDesk(desk, votes)
    ensures var heaviest, keys := Heaviest(desk.slots), FirstFamilies(votes);
            && (forall f | f in keys :: Clipped(Damped(FamilyVotes(votes, f))) <= heaviest)
            && Clipped(Damped(OutsideVotes(votes, keys))) <= heaviest
            && (heaviest == Clipped(Damped(OutsideVotes(votes, keys)))
                || exists f | f in keys :: heaviest == Clipped(Damped(FamilyVotes(votes, f))))
  {
    hide FamilyVotes, OutsideVotes, Damped, FirstFamilies;
    var heaviest, slots, keys := Heaviest(desk.slots), desk.slots, desk.keys;
    forall f | f in keys ensures Clipped(Damped(FamilyVotes(votes, f))) <= heaviest {
      var i :| 0 <= i < |keys| && keys[i] == f;
      assert Owns(slots[i], FamilyVotes(votes, keys[i]));
    }
    assert slots[64].weight <= heaviest;
    if heaviest > 0 {
      var i :| 0 <= i < |slots| && slots[i].weight == heaviest;
      if i < |keys| {
        assert Owns(slots[i], FamilyVotes(votes, keys[i])) && keys[i] in keys;
      }
    }
  }

  /**
   The tally of any votes: it panics exactly at a vote whose slot is full or whose product leaves the u64 range; else
   the total is what the votes weigh together, the heaviest is the heaviest of the sixty-four families and the rest
   taken as one, and the families are the first sixty-four and one more for every vote of the rest.
   */
  lemma TallyExactly(votes: seq<Vote>)
    ensures TallyOf(votes).Some? <==> forall n | 0 <= n < |votes| :: Counted(votes[..n], votes[n])
    ensures TallyOf(votes).Some? ==>
              var tally, keys := TallyOf(votes).value, FirstFamilies(votes);
              var rest, heaviest := OutsideVotes(votes, keys), tally.heaviestFamilyWeightMp;
              && tally.totalWeightMp == Clipped(Weighed(votes))
              && (forall f | f in keys :: Clipped(Damped(FamilyVotes(votes, f))) <= heaviest)
              && Clipped(Damped(rest)) <= heaviest
              && (heaviest == Clipped(Damped(rest))
                  || exists f | f in keys :: heaviest == Clipped(Damped(FamilyVotes(votes, f))))
              && tally.families == (if |keys| + |rest| < 0xFFFF_FFFF then |keys| + |rest| else 0xFFFF_FFFF)
  {
    hide FamilyVotes, OutsideVotes, Damped, Weighed, CastAll, OpeningDesk, FirstFamilies, Counted, Fair, Owns, Heaviest,
      Outside;
    OpeningIsDesk();
    CountExactly(OpeningDesk(), [], votes);
    assert forall n | 0 <= n < |votes| :: [] + votes[..n] == votes[..n];
    assert [] + votes == votes;
    TallyUnfolds(votes);
    if TallyOf(votes).Some? {
      SlotsExactly(CastAll(OpeningDesk(), votes).value, votes);
      FamiliesField(votes);
      OutsideCount(votes, FirstFamilies(votes));
    }
  }

  // ----- the quorum

  /**
   A tally is a quorum exactly when it has three families, two million millipoints and a heaviest family whose share,
   in whole per mille and as a u32, is at most 330; the count panics instead when the product leaves the u64 range.
   */
  lemma QuorumExactly(tally: Tally, share: nat)
    requires share * tally.totalWeightMp <= tally.heaviestFamilyWeightMp * 1000 < (share + 1) * tally.totalWeightMp
    ensures var counts := tally.families >= 3 && tally.totalWeightMp >= 2_000_000;
            var fits := tally.heaviestFamilyWeightMp * 1000 <= 0xFFFF_FFFF_FFFF_FFFF;
            && (QuorumOk(tally).None? <==> counts && !fits)
            && (QuorumOk(tally) == Some(true) <==> counts && fits && share % 0x1_0000_0000 <= 330)
  {
    assert tally.totalWeightMp > 0;
    QuotientExactly(tally.heaviestFamilyWeightMp * 1000, tally.totalWeightMp, share);
  }

  /** No slot outweighs the whole, so for a tally of votes the share is that of a part: under 331 per mille. */
  lemma QuorumOfVotes(votes: seq<Vote>)
    requires TallyOf(votes).Some?
    ensures var tally := TallyOf(votes).value;
            var heaviest, total := tally.heaviestFamilyWeightMp, tally.totalWeightMp;
            && heaviest <= total
            && (QuorumOk(tally) == Some(true) <==>
                && tally.families >= 3 && total >= 2_000_000
                && heaviest * 1000 <= 0xFFFF_FFFF_FFFF_FFFF && 1000 * heaviest < 331 * total)
  {
    hide CastAll, Blank;
    var end, tally := CastAll(OpeningDesk(), votes).value, TallyOf(votes).value;
    BlankIsWeightless(OWN_SLOTS + 1);
    VotesAreAccounted(OpeningDesk(), votes);
    HeaviestIsCarried(end.slots);
    if tally.totalWeightMp > 0 {
      ShareExactly(tally.heaviestFamilyWeightMp, tally.totalWeightMp);
    }
  }

  lemma ShareExactly(h: nat, t: nat)
    requires 0 < t && h <= t
    ensures h * 1000 / t % (U32_MAX + 1) <= 330 <==> 1000 * h < 331 * t
  {
    ShareFits(h, t);
    var q := h * 1000 / t;
    assert q * t <= h * 1000;
    if q > 330 {
      Scale(t, 331, q);
    }
  }
}
