/**
 When a checkpoint is final and when evidence convicts, said of the signatures alone; and that a seat which never
 signed two messages of one era and sequence is convicted by nothing.
 */
module Evidence {
  import opened Wrappers
  import opened Words
  import opened Transactions
  import opened Finality

  /** Whether a signature over a message verifies under the key of a seat. */
  ghost predicate Vouches(ed: Ed25519, roster: Roster, seat: nat, m: Message, signature: Signature) {
    seat < |roster.keys| && ed(signature, EncodeMessage(m), roster.keys[seat])
  }

  lemma {:induction false} SignaturesExactly(ed: Ed25519, roster: Roster, m: Message, signatures: seq<SeatSignature>)
    ensures FirstInvalid(ed, roster, EncodeMessage(m), signatures).None? <==>
            forall i | 0 <= i < |signatures| :: Vouches(ed, roster, signatures[i].seat, m, signatures[i].signature)
  {
    hide EncodeMessage;
    if signatures != [] {
      SignaturesExactly(ed, roster, m, signatures[1..]);
      assert forall i | 0 < i < |signatures| :: signatures[i] == signatures[1..][i - 1];
    }
  }

  /** A refused signature is the first that does not vouch for the message, and its seat is named. */
  lemma {:induction false} FirstInvalidExactly(
    ed: Ed25519, roster: Roster, m: Message, signatures: seq<SeatSignature>, i: nat)
    requires i < |signatures| && !Vouches(ed, roster, signatures[i].seat, m, signatures[i].signature)
    requires forall j | 0 <= j < i :: Vouches(ed, roster, signatures[j].seat, m, signatures[j].signature)
    ensures FirstInvalid(ed, roster, EncodeMessage(m), signatures) ==
            Some(if signatures[i].seat < |roster.keys| then InvalidSignature(signatures[i].seat)
                 else SeatOutOfRange(signatures[i].seat, |roster.keys|))
  {
    hide EncodeMessage;
    if i > 0 {
      assert forall j | 0 < j <= i :: signatures[j] == signatures[1..][j - 1];
      FirstInvalidExactly(ed, roster, m, signatures[1..], i - 1);
    }
  }

  /**
   A checkpoint is final exactly when its message is of the roster's era, every signature collected vouches for it, and
   there are thirty-seven of them; with fewer it verifies and is not final.
   */
  lemma FinalExactly(ed: Ed25519, roster: Roster, c: Collected)
    ensures var holds := roster.era == c.message.era
                         && forall i | 0 <= i < |c.signatures| ::
                              Vouches(ed, roster, c.signatures[i].seat, c.message, c.signatures[i].signature);
            && (Finalized(ed, roster, c).Success? <==> holds)
            && (holds ==> Finalized(ed, roster, c) == Success(|c.signatures| >= 37))
            && (roster.era != c.message.era ==>
                  Finalized(ed, roster, c) == Failure(EraMismatch(roster.era, c.message.era)))
  {
    hide EncodeMessage, Vouches;
    SignaturesExactly(ed, roster, c.message, c.signatures);
  }

  /**
   Evidence convicts exactly when its seat vouched for two different messages of the roster's era and of one sequence.
   */
  lemma EvidenceExactly(ed: Ed25519, roster: Roster, e: Equivocation)
    ensures VerifyEvidence(ed, roster, e).None? <==>
            && e.first != e.second
            && e.first.era == e.second.era == roster.era && e.first.sequence == e.second.sequence
            && Vouches(ed, roster, e.seat, e.first, e.firstSignature)
            && Vouches(ed, roster, e.seat, e.second, e.secondSignature)
  {
    hide EncodeMessage;
  }

  /** What each refusal of evidence says: the first rule broken, every one before it kept. */
  lemma EvidenceRefusals(ed: Ed25519, roster: Roster, e: Equivocation)
    ensures var r := VerifyEvidence(ed, roster, e);
            && (e.seat >= |roster.keys| <==> r == Some(SeatOutOfRange(e.seat, |roster.keys|)))
            && (r.Some? && r.value.EraMismatch? <==>
                e.seat < |roster.keys| && (e.first.era != roster.era || e.second.era != roster.era))
            && (r.Some? && r.value.EraMismatch? ==>
                  r.value.roster == roster.era
                  && r.value.message == if e.first.era != roster.era then e.first.era else e.second.era)
            && (r == Some(DifferentSequence(e.first.sequence, e.second.sequence)) <==>
                e.seat < |roster.keys| && e.first.era == e.second.era == roster.era
                && e.first.sequence != e.second.sequence)
            && (r == Some(IdenticalMessages) <==>
                e.seat < |roster.keys| && e.first == e.second && e.first.era == roster.era)
            && (r.Some? && r.value.InvalidSignature? ==> r == Some(InvalidSignature(e.seat)))
  {
    hide EncodeMessage;
  }

  /** Whether a seat vouched for no two messages of one sequence in the era of the roster. */
  ghost predicate IsHonest(ed: Ed25519, roster: Roster, seat: nat) {
    forall a: Message, b: Message, s, t |
      && a.era == b.era == roster.era && a.sequence == b.sequence
      && Vouches(ed, roster, seat, a, s) && Vouches(ed, roster, seat, b, t) :: a == b
  }

  /** Such a seat is convicted by no evidence, whoever makes it up; a dishonest one is convicted by some. */
  lemma HonestSeatsAreSafe(ed: Ed25519, roster: Roster, seat: nat)
    ensures IsHonest(ed, roster, seat) <==>
            forall e: Equivocation | e.seat == seat :: VerifyEvidence(ed, roster, e).Some?
  {
    hide EncodeMessage, Vouches, VerifyEvidence;
    if IsHonest(ed, roster, seat) {
      forall e: Equivocation | e.seat == seat ensures VerifyEvidence(ed, roster, e).Some? {
        EvidenceExactly(ed, roster, e);
      }
    } else {
      var a: Message, b: Message, s, t :|
        && a.era == b.era == roster.era && a.sequence == b.sequence
        && Vouches(ed, roster, seat, a, s) && Vouches(ed, roster, seat, b, t) && a != b;
      var e := Equivocation(seat, a, s, b, t);
      EvidenceExactly(ed, roster, e);
    }
  }
}
