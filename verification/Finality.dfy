/**
 The finality layer: checkpoints signed by the seats of an era. Two conflicting final checkpoints convict
 at least nineteen seats, each by evidence anyone can verify.
 */
module Finality {
  import opened Wrappers
  import opened Words
  import opened Ranking
  import opened Transactions
  import opened Wire

  const SEATS: nat := 55
  const QUORUM: nat := 37
  const VERSION_1: nat := 1

  datatype RingError =
    | EraIsZero
    | TooManySeats(count: nat)
    | DuplicateKey
    | SeatOutOfRange(seat: nat, seats: nat)
    | SeatSignedTwice(seat: nat)
    | TooMany(count: nat)
    | InvalidSignature(seat: nat)
    | EraMismatch(roster: nat, message: nat)
    | DifferentSequence(first: nat, second: nat)
    | IdenticalMessages

  /** Whether a signature over some bytes verifies under a key; uninterpreted. */
  type Ed25519 = (Signature, seq<u8>, PublicKey) -> bool

  // ----- rosters

  datatype Roster = Roster(era: nat, keys: seq<PublicKey>)

  predicate DistinctKeys(keys: seq<PublicKey>) {
    forall i, j | 0 <= i < j < |keys| :: keys[i] != keys[j]
  }

  function NewRoster(era: nat, keys: seq<PublicKey>): (r: Result<Roster, RingError>)
    ensures r.Success? ==> era > 0 && |r.value.keys| <= SEATS && DistinctKeys(r.value.keys)
    ensures r == Success(Roster(era, keys)) <==>
            era > 0 && |keys| <= 55 && forall i, j | 0 <= i < j < |keys| :: keys[i] != keys[j]
    ensures r.Failure? ==>
              r.error == if era == 0 then EraIsZero else if |keys| > 55 then TooManySeats(|keys|) else DuplicateKey
  {
    if era == 0 then Failure(EraIsZero)
    else if |keys| > SEATS then Failure(TooManySeats(|keys|))
    else if !DistinctKeys(keys) then Failure(DuplicateKey)
    else Success(Roster(era, keys))
  }

  function KeyOf(roster: Roster, seat: nat): Option<PublicKey> {
    if seat < |roster.keys| then Some(roster.keys[seat]) else None
  }

  // ----- messages

  datatype Message = Message(era: u64, sequence: u64, tip: Hash, orderRoot: Hash)

  /** The signing bytes of a message. */
  function EncodeMessage(m: Message): seq<u8> {
    LittleEndianBytes(VERSION_1, 2) +
    (U64Bytes(m.era) + (U64Bytes(m.sequence) + (BigEndianBytes(m.tip, 32) + BigEndianBytes(m.orderRoot, 32))))
  }

  predicate CanonicalMessage(m: Message) {
    m.era > 0 && m.sequence > 0 && m.tip > 0 && Fits(m.tip, 32) && Fits(m.orderRoot, 32)
  }

  function TakeMessage(s: seq<u8>): Parsed<Message> {
    var version :- TakeLittle(s, 2);
    if version.0 != VERSION_1 then Failure(InvalidVersion(version.0))
    else
      var era :- TakeU64(version.1);
      if era.0 == 0 then Failure(EraZero)
      else
        var sequence :- TakeU64(era.1);
        if sequence.0 == 0 then Failure(SequenceZero)
        else
          var tip :- TakeBig(sequence.1, 32);
          if tip.0 == 0 then Failure(ZeroTip)
          else
            var root :- TakeBig(tip.1, 32);
            Success((Message(era.0, sequence.0, tip.0, root.0), root.1))
  }

  lemma Regroup5(a: seq<u8>, b: seq<u8>, c: seq<u8>, d: seq<u8>, e: seq<u8>, rest: seq<u8>)
    ensures (a + (b + (c + (d + e)))) + rest == a + (b + (c + (d + (e + rest))))
  {
  }

  lemma MessageSound(s: seq<u8>)
    requires TakeMessage(s).Success?
    ensures var (m, rest) := TakeMessage(s).value; CanonicalMessage(m) && s == EncodeMessage(m) + rest
  {
    hide TakeLittle, TakeU64, TakeBig, LittleEndianBytes, U64Bytes, BigEndianBytes, Fits;
    LittleSound(s, 2);
    var version := TakeLittle(s, 2).value;
    U64Sound(version.1);
    var era := TakeU64(version.1).value;
    U64Sound(era.1);
    var sequence := TakeU64(era.1).value;
    BigSound(sequence.1, 32);
    var tip := TakeBig(sequence.1, 32).value;
    BigSound(tip.1, 32);
    var root := TakeBig(tip.1, 32).value;
    Regroup5(LittleEndianBytes(VERSION_1, 2), U64Bytes(era.0), U64Bytes(sequence.0), BigEndianBytes(tip.0, 32),
             BigEndianBytes(root.0, 32), root.1);
  }

  lemma MessageComplete(m: Message, rest: seq<u8>)
    requires CanonicalMessage(m)
    ensures TakeMessage(EncodeMessage(m) + rest) == Success((m, rest))
  {
    hide TakeLittle, TakeU64, TakeBig, LittleEndianBytes, U64Bytes, BigEndianBytes, Pow256;
    var version, era, sequence := LittleEndianBytes(VERSION_1, 2), U64Bytes(m.era), U64Bytes(m.sequence);
    var tip, root := BigEndianBytes(m.tip, 32), BigEndianBytes(m.orderRoot, 32);
    Regroup5(version, era, sequence, tip, root, rest);
    U64Fits();
    LittleComplete(VERSION_1, 2, era + (sequence + (tip + (root + rest))));
    U64Complete(m.era, sequence + (tip + (root + rest)));
    U64Complete(m.sequence, tip + (root + rest));
    BigComplete(m.tip, 32, root + rest);
    BigComplete(m.orderRoot, 32, rest);
  }

  // ----- signatures over a message

  datatype SeatSignature = SeatSignature(seat: nat, signature: Signature)

  /** A checkpoint as a value: the message and what was collected over it. */
  datatype Collected = Collected(message: Message, signatures: seq<SeatSignature>)

  ghost predicate DistinctSeats(signatures: seq<SeatSignature>) {
    forall i, j | 0 <= i < j < |signatures| :: signatures[i].seat != signatures[j].seat
  }

  /** The first signature that does not verify, if any. */
  function FirstInvalid(
    ed: Ed25519, roster: Roster, bytes: seq<u8>, signatures: seq<SeatSignature>): Option<RingError>
  {
    if signatures == [] then None
    else
      var first := signatures[0];
      var key := KeyOf(roster, first.seat);
      if key.None? then Some(SeatOutOfRange(first.seat, |roster.keys|))
      else if !ed(first.signature, bytes, key.value) then Some(InvalidSignature(first.seat))
      else FirstInvalid(ed, roster, bytes, signatures[1..])
  }

  function VerifyCollected(ed: Ed25519, roster: Roster, c: Collected): Option<RingError> {
    if roster.era != c.message.era then Some(EraMismatch(roster.era, c.message.era))
    else FirstInvalid(ed, roster, EncodeMessage(c.message), c.signatures)
  }

  /** Whether a checkpoint verifies and reaches the quorum. */
  function Finalized(ed: Ed25519, roster: Roster, c: Collected): Result<bool, RingError> {
    var refusal := VerifyCollected(ed, roster, c);
    if refusal.Some? then Failure(refusal.value) else Success(|c.signatures| >= QUORUM)
  }

  lemma {:induction false} VerifiedSeat(
    ed: Ed25519, roster: Roster, bytes: seq<u8>, signatures: seq<SeatSignature>, i: nat)
    requires FirstInvalid(ed, roster, bytes, signatures).None? && i < |signatures|
    ensures signatures[i].seat < |roster.keys|
    ensures ed(signatures[i].signature, bytes, roster.keys[signatures[i].seat])
  {
    if i > 0 {
      VerifiedSeat(ed, roster, bytes, signatures[1..], i - 1);
    }
  }

  class Checkpoint {
    const message: Message
    var signatures: seq<SeatSignature>

    function Value(): Collected
      reads this
    {
      Collected(message, signatures)
    }

    /** One seat signs once, and no more seats than the Ring has. */
    ghost predicate Valid()
      reads this
    {
      DistinctSeats(signatures) && |signatures| <= SEATS
    }

    constructor (message: Message)
      ensures Valid() && Value() == Collected(message, [])
    {
      this.message, signatures := message, [];
    }

    /** Signs the message for a seat; `sign` is the key pair's signature over bytes. */
    method Sign(seat: nat, sign: seq<u8> -> Signature) returns (refusal: Option<RingError>)
      requires Valid()
      modifies this
      ensures Valid()
      ensures var held := exists i :: 0 <= i < |old(signatures)| && old(signatures)[i].seat == seat;
              if |old(signatures)| >= SEATS then refusal == Some(TooMany(|old(signatures)| + 1))
              else if held then refusal == Some(SeatSignedTwice(seat))
              else refusal.None?
                   && signatures == old(signatures) + [SeatSignature(seat, sign(EncodeMessage(message)))]
      ensures refusal.Some? ==> signatures == old(signatures)
    {
      if |signatures| >= SEATS {
        return Some(TooMany(|signatures| + 1));
      }
      for i := 0 to |signatures|
        invariant forall j | 0 <= j < i :: signatures[j].seat != seat
      {
        if signatures[i].seat == seat {
          return Some(SeatSignedTwice(seat));
        }
      }
      signatures := signatures + [SeatSignature(seat, sign(EncodeMessage(message)))];
      refusal := None;
    }

    /** Verifies every signature against the roster of the message era. */
    method Verify(ed: Ed25519, roster: Roster) returns (refusal: Option<RingError>)
      ensures refusal == VerifyCollected(ed, roster, Value())
    {
      hide EncodeMessage;
      if roster.era != message.era {
        return Some(EraMismatch(roster.era, message.era));
      }
      var bytes := EncodeMessage(message);
      assert signatures[0..] == signatures;
      for i := 0 to |signatures|
        invariant FirstInvalid(ed, roster, bytes, signatures[i..]) == FirstInvalid(ed, roster, bytes, signatures)
      {
        var collected := signatures[i];
        assert signatures[i..][0] == collected && signatures[i..][1..] == signatures[i + 1..];
        var key := KeyOf(roster, collected.seat);
        if key.None? {
          return Some(SeatOutOfRange(collected.seat, |roster.keys|));
        }
        if !ed(collected.signature, bytes, key.value) {
          return Some(InvalidSignature(collected.seat));
        }
      }
      refusal := None;
    }

    /** Verifies, and reports the quorum. */
    method CheckFinal(ed: Ed25519, roster: Roster) returns (r: Result<bool, RingError>)
      ensures r == Finalized(ed, roster, Value())
    {
      var refusal := Verify(ed, roster);
      r := if refusal.Some? then Failure(refusal.value) else Success(|signatures| >= QUORUM);
    }
  }

  // ----- the stripping evidence

  datatype Equivocation = Equivocation(
    seat: nat, first: Message, firstSignature: Signature, second: Message, secondSignature: Signature)

  /** The first rule the evidence breaks, if any. */
  function VerifyEvidence(ed: Ed25519, roster: Roster, e: Equivocation): Option<RingError> {
    var key := KeyOf(roster, e.seat);
    if key.None? then Some(SeatOutOfRange(e.seat, |roster.keys|))
    else if roster.era != e.first.era then Some(EraMismatch(roster.era, e.first.era))
    else if roster.era != e.second.era then Some(EraMismatch(roster.era, e.second.era))
    else if e.first.sequence != e.second.sequence then Some(DifferentSequence(e.first.sequence, e.second.sequence))
    else if e.first == e.second then Some(IdenticalMessages)
    else if !ed(e.firstSignature, EncodeMessage(e.first), key.value) then Some(InvalidSignature(e.seat))
    else if !ed(e.secondSignature, EncodeMessage(e.second), key.value) then Some(InvalidSignature(e.seat))
    else None
  }

  ghost function SeatsOf(signatures: seq<SeatSignature>): set<nat> {
    set s | s in signatures :: s.seat
  }

  /** Whether a seat is convicted by signatures collected in both checkpoints. */
  ghost predicate Convicted(ed: Ed25519, roster: Roster, a: Collected, b: Collected, seat: nat) {
    exists x, y :: x in a.signatures && y in b.signatures && x.seat == seat && y.seat == seat
                   && var evidence := Equivocation(seat, a.message, x.signature, b.message, y.signature);
                      VerifyEvidence(ed, roster, evidence).None?
  }

  lemma {:induction false} SeatsCount(signatures: seq<SeatSignature>)
    requires DistinctSeats(signatures)
    ensures |SeatsOf(signatures)| == |signatures|
  {
    if signatures != [] {
      var n := |signatures| - 1;
      var front := signatures[..n];
      SeatsCount(front);
      assert signatures == front + [signatures[n]];
      assert SeatsOf(signatures) == SeatsOf(front) + {signatures[n].seat};
      assert signatures[n].seat !in SeatsOf(front);
    } else {
      assert SeatsOf(signatures) == {};
    }
  }

  lemma {:induction false} RangeCount(s: set<nat>, n: nat)
    requires forall x | x in s :: x < n
    ensures |s| <= n
  {
    if n == 0 {
      assert s == {};
    } else {
      RangeCount(s - {n - 1}, n - 1);
    }
  }

  lemma Overlap(a: set<nat>, b: set<nat>, n: nat)
    requires forall x | x in a + b :: x < n
    ensures |a * b| >= |a| + |b| - n
  {
    RangeCount(a + b, n);
    assert |a + b| + |a * b| == |a| + |b| by {
      var rest := a - a * b;
      assert a == rest + a * b && a + b == rest + b;
    }
  }

  lemma SharedSeatIsConvicted(ed: Ed25519, roster: Roster, a: Collected, b: Collected, seat: nat)
    requires VerifyCollected(ed, roster, a).None? && VerifyCollected(ed, roster, b).None?
    requires a.message != b.message && a.message.sequence == b.message.sequence
    requires seat in SeatsOf(a.signatures) && seat in SeatsOf(b.signatures)
    ensures Convicted(ed, roster, a, b, seat) && seat < |roster.keys|
  {
    hide EncodeMessage;
    var x :| x in a.signatures && x.seat == seat;
    var y :| y in b.signatures && y.seat == seat;
    var i :| 0 <= i < |a.signatures| && a.signatures[i] == x;
    var j :| 0 <= j < |b.signatures| && b.signatures[j] == y;
    VerifiedSeat(ed, roster, EncodeMessage(a.message), a.signatures, i);
    VerifiedSeat(ed, roster, EncodeMessage(b.message), b.signatures, j);
    assert VerifyEvidence(ed, roster, Equivocation(seat, a.message, x.signature, b.message, y.signature)).None?;
  }

  lemma VerifiedSeatsInRange(ed: Ed25519, roster: Roster, c: Collected)
    requires VerifyCollected(ed, roster, c).None?
    ensures forall x | x in SeatsOf(c.signatures) :: x < |roster.keys|
  {
    forall x | x in SeatsOf(c.signatures) ensures x < |roster.keys| {
      var s :| s in c.signatures && s.seat == x;
      var i :| 0 <= i < |c.signatures| && c.signatures[i] == s;
      VerifiedSeat(ed, roster, EncodeMessage(c.message), c.signatures, i);
    }
  }

  /**
   Accountable finality: two final checkpoints of one sequence over different messages convict at least
   nineteen seats, each by the two signatures it gave.
   */
  lemma ConflictingFinalityConvicts(ed: Ed25519, roster: Roster, a: Collected, b: Collected)
    returns (convicted: set<nat>)
    requires |roster.keys| <= SEATS && DistinctSeats(a.signatures) && DistinctSeats(b.signatures)
    requires Finalized(ed, roster, a) == Success(true) && Finalized(ed, roster, b) == Success(true)
    requires a.message.sequence == b.message.sequence && a.message != b.message
    ensures |convicted| >= 19
    ensures forall seat | seat in convicted :: seat < |roster.keys| && Convicted(ed, roster, a, b, seat)
  {
    hide EncodeMessage, Convicted, SeatsOf, VerifyCollected;
    SeatsCount(a.signatures);
    SeatsCount(b.signatures);
    VerifiedSeatsInRange(ed, roster, a);
    VerifiedSeatsInRange(ed, roster, b);
    Overlap(SeatsOf(a.signatures), SeatsOf(b.signatures), |roster.keys|);
    convicted := SeatsOf(a.signatures) * SeatsOf(b.signatures);
    forall seat | seat in convicted ensures seat < |roster.keys| && Convicted(ed, roster, a, b, seat) {
      SharedSeatIsConvicted(ed, roster, a, b, seat);
    }
  }

  // ----- the checkpoint encoding

  function EncodeSeat(s: SeatSignature): seq<u8> {
    LittleEndianBytes(s.seat, 2) + BigEndianBytes(s.signature, 64)
  }

  predicate CanonicalSeat(s: SeatSignature) {
    Fits(s.seat, 2) && Fits(s.signature, 64)
  }

  function SeatListBytes(signatures: seq<SeatSignature>): seq<u8> {
    Varint(|signatures|) + Many(EncodeSeat, signatures)
  }

  function EncodeCheckpoint(c: Collected): seq<u8> {
    EncodeMessage(c.message) + SeatListBytes(c.signatures)
  }

  predicate AscendingSeats(signatures: seq<SeatSignature>) {
    forall i, j | 0 <= i < j < |signatures| :: signatures[i].seat < signatures[j].seat
  }

  ghost predicate CanonicalCheckpoint(c: Collected) {
    && CanonicalMessage(c.message) && |c.signatures| <= SEATS && AscendingSeats(c.signatures)
    && forall s | s in c.signatures :: CanonicalSeat(s)
  }

  function TakeSeat(s: seq<u8>): Parsed<SeatSignature> {
    var seat :- TakeLittle(s, 2);
    var signature :- TakeBig(seat.1, 64);
    Success((SeatSignature(seat.0, signature.0), signature.1))
  }

  predicate Holds(got: seq<SeatSignature>, seat: nat) {
    exists i :: 0 <= i < |got| && got[i].seat == seat
  }

  /** The signatures, each checked against those before it as it is read. */
  function TakeSeats(s: seq<u8>, n: nat, got: seq<SeatSignature>): Parsed<seq<SeatSignature>>
    decreases n
  {
    if n == 0 then Success((got, s))
    else
      var next :- TakeSeat(s);
      if Holds(got, next.0.seat) then Failure(DuplicateSeat(next.0.seat))
      else if got != [] && got[|got| - 1].seat > next.0.seat then Failure(UnsortedSeats)
      else TakeSeats(next.1, n - 1, got + [next.0])
  }

  function TakeSeatList(s: seq<u8>): Parsed<seq<SeatSignature>> {
    var count :- TakeVarint(s);
    if count.0 > SEATS then Failure(TooManySignatures(count.0)) else TakeSeats(count.1, count.0, [])
  }

  function DecodeCheckpoint(s: seq<u8>): Result<Collected, CodecError> {
    var message :- TakeMessage(s);
    var signatures :- TakeSeatList(message.1);
    if signatures.1 != [] then Failure(Trailing(|signatures.1|))
    else Success(Collected(message.0, signatures.0))
  }

  lemma SeatSound(s: seq<u8>)
    requires TakeSeat(s).Success?
    ensures CanonicalSeat(TakeSeat(s).value.0) && s == EncodeSeat(TakeSeat(s).value.0) + TakeSeat(s).value.1
  {
    hide TakeLittle, TakeBig, LittleEndianBytes, BigEndianBytes, Fits;
    LittleSound(s, 2);
    var seat := TakeLittle(s, 2).value;
    BigSound(seat.1, 64);
    var signature := TakeBig(seat.1, 64).value;
    Regroup(LittleEndianBytes(seat.0, 2), BigEndianBytes(signature.0, 64), signature.1);
  }

  lemma SeatComplete(x: SeatSignature, rest: seq<u8>)
    requires CanonicalSeat(x)
    ensures TakeSeat(EncodeSeat(x) + rest) == Success((x, rest))
  {
    hide TakeLittle, TakeBig, LittleEndianBytes, BigEndianBytes, Fits;
    Regroup(LittleEndianBytes(x.seat, 2), BigEndianBytes(x.signature, 64), rest);
    LittleComplete(x.seat, 2, BigEndianBytes(x.signature, 64) + rest);
    BigComplete(x.signature, 64, rest);
  }

  lemma AscendingAppend(got: seq<SeatSignature>, x: SeatSignature)
    requires AscendingSeats(got)
    ensures AscendingSeats(got + [x]) <==>
            !Holds(got, x.seat) && (got == [] || got[|got| - 1].seat <= x.seat)
  {
    var all := got + [x];
    if AscendingSeats(all) {
      forall i | 0 <= i < |got| ensures got[i].seat != x.seat {
        assert all[i].seat < all[|got|].seat;
      }
      if got != [] {
        assert all[|got| - 1].seat < all[|got|].seat;
      }
    }
  }

  lemma {:induction false} SeatsSound(s: seq<u8>, n: nat, got: seq<SeatSignature>)
    requires AscendingSeats(got) && TakeSeats(s, n, got).Success?
    ensures var (all, rest) := TakeSeats(s, n, got).value;
            && |all| == |got| + n && AscendingSeats(all) && got == all[..|got|]
            && (forall x | x in all[|got|..] :: CanonicalSeat(x))
            && s == Many(EncodeSeat, all[|got|..]) + rest
    decreases n
  {
    hide TakeSeat, EncodeSeat, CanonicalSeat;
    if n == 0 {
      assert got[|got|..] == [] && [] + s == s;
    } else {
      SeatSound(s);
      var next := TakeSeat(s).value;
      AscendingAppend(got, next.0);
      SeatsSound(next.1, n - 1, got + [next.0]);
      var (all, rest) := TakeSeats(s, n, got).value;
      var k := |got|;
      assert all[k] == (got + [next.0])[k];
      assert all[k..] == [next.0] + all[k + 1..] && all[k..][1..] == all[k + 1..];
      Regroup(EncodeSeat(next.0), Many(EncodeSeat, all[k + 1..]), rest);
      assert all[..k] == all[..k + 1][..k];
    }
  }

  lemma {:induction false} SeatsComplete(got: seq<SeatSignature>, more: seq<SeatSignature>, rest: seq<u8>)
    requires AscendingSeats(got + more) && forall x | x in more :: CanonicalSeat(x)
    ensures TakeSeats(Many(EncodeSeat, more) + rest, |more|, got) == Success((got + more, rest))
    decreases |more|
  {
    hide TakeSeat, EncodeSeat, CanonicalSeat;
    if more == [] {
      assert [] + rest == rest && got + more == got;
    } else {
      var x := more[0];
      Regroup(EncodeSeat(x), Many(EncodeSeat, more[1..]), rest);
      SeatComplete(x, Many(EncodeSeat, more[1..]) + rest);
      PrefixAscends(got, more);
      AscendingAppend(got, x);
      assert (got + [x]) + more[1..] == got + more;
      SeatsComplete(got + [x], more[1..], rest);
    }
  }

  lemma PrefixAscends(got: seq<SeatSignature>, more: seq<SeatSignature>)
    requires AscendingSeats(got + more) && more != []
    ensures AscendingSeats(got) && AscendingSeats(got + [more[0]])
  {
    var all := got + more;
    assert forall i | 0 <= i < |got| :: got[i] == all[i];
    assert forall i | 0 <= i <= |got| :: (got + [more[0]])[i] == all[i];
  }

  lemma SeatListSound(s: seq<u8>)
    requires TakeSeatList(s).Success?
    ensures var (signatures, rest) := TakeSeatList(s).value;
            && |signatures| <= SEATS && AscendingSeats(signatures) && (forall x | x in signatures :: CanonicalSeat(x))
            && s == SeatListBytes(signatures) + rest
  {
    hide TakeVarint, Varint, TakeSeats, EncodeSeat, CanonicalSeat, Many;
    VarintSound(s);
    var count := TakeVarint(s).value;
    SeatsSound(count.1, count.0, []);
    var (signatures, rest) := TakeSeats(count.1, count.0, []).value;
    assert signatures[0..] == signatures;
    Regroup(Varint(count.0), Many(EncodeSeat, signatures), rest);
  }

  lemma SeatListComplete(signatures: seq<SeatSignature>, rest: seq<u8>)
    requires |signatures| <= SEATS && AscendingSeats(signatures) && forall x | x in signatures :: CanonicalSeat(x)
    ensures TakeSeatList(SeatListBytes(signatures) + rest) == Success((signatures, rest))
  {
    hide TakeVarint, Varint, TakeSeats, EncodeSeat, CanonicalSeat, Many;
    Regroup(Varint(|signatures|), Many(EncodeSeat, signatures), rest);
    VarintComplete(|signatures|, Many(EncodeSeat, signatures) + rest);
    assert [] + signatures == signatures;
    SeatsComplete([], signatures, rest);
  }

  /** What decodes is canonical and encodes back to its bytes; what is canonical decodes back to itself. */
  lemma CheckpointRoundTrips(s: seq<u8>, c: Collected)
    ensures DecodeCheckpoint(s).Success? ==>
              CanonicalCheckpoint(DecodeCheckpoint(s).value) && EncodeCheckpoint(DecodeCheckpoint(s).value) == s
    ensures CanonicalCheckpoint(c) ==> DecodeCheckpoint(EncodeCheckpoint(c)) == Success(c)
  {
    hide TakeMessage, EncodeMessage, TakeSeatList, SeatListBytes, CanonicalMessage, CanonicalSeat, AscendingSeats;
    if DecodeCheckpoint(s).Success? {
      MessageSound(s);
      var message := TakeMessage(s).value;
      SeatListSound(message.1);
      var signatures := TakeSeatList(message.1).value;
      assert SeatListBytes(signatures.0) + [] == SeatListBytes(signatures.0);
    }
    if CanonicalCheckpoint(c) {
      MessageComplete(c.message, SeatListBytes(c.signatures));
      SeatListComplete(c.signatures, []);
      assert SeatListBytes(c.signatures) + [] == SeatListBytes(c.signatures);
    }
  }

  /** A decoded checkpoint has one signature a seat, as finality needs. */
  lemma DecodedSeatsAreDistinct(s: seq<u8>)
    requires DecodeCheckpoint(s).Success?
    ensures DistinctSeats(DecodeCheckpoint(s).value.signatures) && |DecodeCheckpoint(s).value.signatures| <= SEATS
  {
    hide DecodeCheckpoint;
    CheckpointRoundTrips(s, DecodeCheckpoint(s).value);
  }

  /** Reading stops at the first seat out of order. */
  lemma {:induction false} UnsortedSeatsRefused(got: seq<SeatSignature>, more: seq<SeatSignature>, rest: seq<u8>)
    requires AscendingSeats(got) && DistinctSeats(got + more) && forall x | x in more :: CanonicalSeat(x)
    requires !AscendingSeats(got + more)
    ensures TakeSeats(Many(EncodeSeat, more) + rest, |more|, got) == Failure(UnsortedSeats)
    decreases |more|
  {
    hide TakeSeat, EncodeSeat, CanonicalSeat;
    assert more != [] by {
      assert got + [] == got;
    }
    var x := more[0];
    Regroup(EncodeSeat(x), Many(EncodeSeat, more[1..]), rest);
    SeatComplete(x, Many(EncodeSeat, more[1..]) + rest);
    forall i | 0 <= i < |got| ensures got[i].seat != x.seat {
      assert (got + more)[i] == got[i] && (got + more)[|got|] == x;
    }
    AscendingAppend(got, x);
    assert (got + [x]) + more[1..] == got + more;
    if AscendingSeats(got + [x]) {
      UnsortedSeatsRefused(got + [x], more[1..], rest);
    }
  }

  lemma SeatListRefused(signatures: seq<SeatSignature>, rest: seq<u8>)
    requires |signatures| <= SEATS && DistinctSeats(signatures) && !AscendingSeats(signatures)
    requires forall x | x in signatures :: CanonicalSeat(x)
    ensures TakeSeatList(SeatListBytes(signatures) + rest) == Failure(UnsortedSeats)
  {
    hide TakeVarint, Varint, TakeSeats, EncodeSeat, CanonicalSeat, Many;
    Regroup(Varint(|signatures|), Many(EncodeSeat, signatures), rest);
    VarintComplete(|signatures|, Many(EncodeSeat, signatures) + rest);
    assert [] + signatures == signatures;
    UnsortedSeatsRefused([], signatures, rest);
  }

  /**
   Signing keeps the seats distinct but does not sort them: a collected checkpoint survives its own encoding when
   its seats signed in ascending order, and is refused as unsorted whenever they did not.
   */
  lemma CollectedRoundTripsInOrder(c: Collected)
    requires CanonicalMessage(c.message) && |c.signatures| <= SEATS && DistinctSeats(c.signatures)
    requires forall x | x in c.signatures :: CanonicalSeat(x)
    ensures DecodeCheckpoint(EncodeCheckpoint(c)) ==
            if AscendingSeats(c.signatures) then Success(c) else Failure(UnsortedSeats)
  {
    hide TakeMessage, EncodeMessage, TakeSeatList, SeatListBytes, CanonicalMessage, CanonicalSeat, AscendingSeats;
    MessageComplete(c.message, SeatListBytes(c.signatures));
    assert SeatListBytes(c.signatures) + [] == SeatListBytes(c.signatures);
    if AscendingSeats(c.signatures) {
      SeatListComplete(c.signatures, []);
    } else {
      SeatListRefused(c.signatures, []);
    }
  }

  /** Seat 5 signs, then seat 2: what was collected cannot be read back. */
  method SignTwoSeats(message: Message, sign: seq<u8> -> Signature)
    returns (refusals: seq<Option<RingError>>, ghost c: Collected)
    requires CanonicalMessage(message) && Fits(sign(EncodeMessage(message)), 64)
    ensures refusals == [None, None] && |c.signatures| == 2
    ensures c.signatures[0].seat == 5 && c.signatures[1].seat == 2
    ensures DecodeCheckpoint(EncodeCheckpoint(c)) == Failure(UnsortedSeats)
  {
    hide DecodeCheckpoint, EncodeCheckpoint, EncodeMessage, CanonicalMessage;
    var checkpoint := new Checkpoint(message);
    var first := checkpoint.Sign(5, sign);
    var second := checkpoint.Sign(2, sign);
    refusals, c := [first, second], checkpoint.Value();
    SeatFits(5);
    SeatFits(2);
    assert c.signatures[0].seat > c.signatures[1].seat;
    CollectedRoundTripsInOrder(c);
  }

  lemma SeatFits(seat: nat)
    requires seat < SEATS
    ensures Fits(seat, 2)
  {
    U64Fits();
  }

  // ----- the encoder and the decoder

  method WriteMessage(m: Message) returns (bytes: seq<u8>)
    ensures bytes == EncodeMessage(m)
  {
    hide LittleEndianBytes, BigEndianBytes;
    var w := new Writer();
    w.WriteLittle(VERSION_1, 2);
    w.WriteLittle(m.era, 8);
    w.WriteLittle(m.sequence, 8);
    w.WriteBig(m.tip, 32);
    w.WriteBig(m.orderRoot, 32);
    Chain5(LittleEndianBytes(VERSION_1, 2), U64Bytes(m.era), U64Bytes(m.sequence), BigEndianBytes(m.tip, 32),
           BigEndianBytes(m.orderRoot, 32));
    bytes := w.out;
  }

  lemma Chain5(a: seq<u8>, b: seq<u8>, c: seq<u8>, d: seq<u8>, e: seq<u8>)
    ensures [] + a + b + c + d + e == a + (b + (c + (d + e)))
  {
  }

  method WriteCheckpoint(c: Collected) returns (bytes: seq<u8>)
    requires |c.signatures| <= U64_MAX
    ensures bytes == EncodeCheckpoint(c)
  {
    hide EncodeMessage, Varint, LittleEndianBytes, BigEndianBytes;
    bytes := WriteMessage(c.message);
    var w := new Writer();
    w.WriteVarint(|c.signatures|);
    ghost var start := w.out;
    assert start + [] == start && [] + Varint(|c.signatures|) == Varint(|c.signatures|);
    for i := 0 to |c.signatures|
      invariant w.out == start + Many(EncodeSeat, c.signatures[..i])
    {
      var collected := c.signatures[i];
      ghost var before := w.out;
      w.WriteLittle(collected.seat, 2);
      w.WriteBig(collected.signature, 64);
      Regroup(before, LittleEndianBytes(collected.seat, 2), BigEndianBytes(collected.signature, 64));
      assert c.signatures[..i + 1] == c.signatures[..i] + [collected];
      ManyAppend(EncodeSeat, c.signatures[..i], collected);
      Regroup(start, Many(EncodeSeat, c.signatures[..i]), EncodeSeat(collected));
    }
    assert c.signatures[..|c.signatures|] == c.signatures;
    bytes := bytes + w.out;
  }

  method ReadMessage(r: Reader) returns (m: Result<Message, CodecError>)
    requires r.Valid()
    modifies r
    ensures r.Valid() && Follows(TakeMessage(old(r.Rest())), m, r.Rest())
  {
    hide TakeLittle, TakeU64, TakeBig, Reader.Rest, Reader.Valid;
    var version :- r.ReadLittle(2);
    if version != VERSION_1 {
      return Failure(InvalidVersion(version));
    }
    var era :- r.ReadU64();
    if era == 0 {
      return Failure(EraZero);
    }
    var sequence :- r.ReadU64();
    if sequence == 0 {
      return Failure(SequenceZero);
    }
    var tip :- r.ReadBig(32);
    if tip == 0 {
      return Failure(ZeroTip);
    }
    var orderRoot :- r.ReadBig(32);
    m := Success(Message(era, sequence, tip, orderRoot));
  }

  method ReadSeats(r: Reader, count: nat) returns (read: Result<seq<SeatSignature>, CodecError>)
    requires r.Valid()
    modifies r
    ensures r.Valid() && Follows(TakeSeats(old(r.Rest()), count, []), read, r.Rest())
  {
    hide TakeLittle, TakeBig, Reader.Rest, Reader.Valid, Holds;
    var signatures: seq<SeatSignature> := [];
    for i := 0 to count
      invariant r.Valid()
      invariant TakeSeats(r.Rest(), count - i, signatures) == TakeSeats(old(r.Rest()), count, [])
    {
      var seat :- r.ReadLittle(2);
      var signature :- r.ReadBig(64);
      var duplicate := FindSeat(signatures, seat);
      if duplicate {
        return Failure(DuplicateSeat(seat));
      }
      if signatures != [] && signatures[|signatures| - 1].seat > seat {
        return Failure(UnsortedSeats);
      }
      signatures := signatures + [SeatSignature(seat, signature)];
    }
    read := Success(signatures);
  }

  method FindSeat(signatures: seq<SeatSignature>, seat: nat) returns (found: bool)
    ensures found == Holds(signatures, seat)
  {
    for i := 0 to |signatures|
      invariant forall j | 0 <= j < i :: signatures[j].seat != seat
    {
      if signatures[i].seat == seat {
        return true;
      }
    }
    found := false;
  }

  /** Strictly decodes a checkpoint. */
  method ReadCheckpoint(bytes: seq<u8>) returns (c: Result<Collected, CodecError>)
    ensures c == DecodeCheckpoint(bytes)
  {
    hide TakeMessage, TakeVarint, TakeSeats, Reader.Rest, Reader.Valid;
    var r := new Reader(bytes);
    var message :- ReadMessage(r);
    var count :- r.ReadVarint();
    if count > SEATS {
      return Failure(TooManySignatures(count));
    }
    var signatures :- ReadSeats(r, count);
    var left := r.Finish();
    if left.Some? {
      return Failure(left.value);
    }
    c := Success(Collected(message, signatures));
  }
}
