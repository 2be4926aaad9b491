/**
 What a ring signature says, in terms of the two hashes alone: the hashes a verified signature answers to, why it
 cannot be moved to another message without a collision, and what a signer puts in each place.
 */
module Rings {
  import opened Wrappers
  import opened Words
  import opened Residues
  import opened Mlsag

  /** The order of the group, 2^252 + 27742317777372353535851937790883648493. */
  const L: nat := 7237005577332262213973186563042994240857116359379907606001950938285454250989

  /** The text the challenge hash reads: ANTUMBRA/veil/mlsag, the message, and two points. */
  function Transcript(suite: Suite, message: seq<u8>, left: Point, right: Point): (text: seq<u8>)
    ensures text == [65, 78, 84, 85, 77, 66, 82, 65, 47, 118, 101, 105, 108, 47, 109, 108, 115, 97, 103] +
                    message + suite.compress(left) + suite.compress(right)
  {
    MLSAG_DOMAIN + message + suite.compress(left) + suite.compress(right)
  }

  lemma OrderIsL()
    ensures ORDER == L == 7237005577332262213973186563042994240857116359379907606001950938285454250989
  {
  }

  lemma HashExactly(suite: Suite, message: seq<u8>, left: Point, right: Point)
    ensures RingChallenge(suite, message, left, right) ==
            suite.hashToScalar(Transcript(suite, message, left, right)) % L
  {
  }

  /** a P + b Q, for points of the group. */
  function Combined(a: Scalar, p: Point, b: Scalar, q: Point): (r: Point)
    ensures r == (a * p + b * q) % L
  {
    CombinedIsSum(a, p, b, q);
    PointAdd(Times(a, p), Times(b, q))
  }

  lemma CombinedIsSum(a: Scalar, p: Point, b: Scalar, q: Point)
    ensures PointAdd(Times(a, p), Times(b, q)) == (a * p + b * q) % L
  {
    OrderIsL();
    AddReduced(a * p, (b * q) % ORDER, ORDER);
    AddReduced(b * q, a * p, ORDER);
  }

  /** The challenge one member passes on when it answers `c` with `s`. */
  ghost predicate Passes(
    suite: Suite, message: seq<u8>, key: Point, image: Point, s: Scalar, c: Scalar, next: Scalar)
  {
    var hashed := suite.hashToPoint(suite.compress(key));
    next == suite.hashToScalar(
      Transcript(suite, message, Combined(s, suite.base, c, key), Combined(s, hashed, c, image))) % L
  }

  lemma StepExactly(suite: Suite, message: seq<u8>, key: Point, image: Point, s: Scalar, c: Scalar, next: Scalar)
    ensures Passes(suite, message, key, image, s, c, next) <==> next == Step(suite, message, key, image, s, c)
  {
    hide Times, PointAdd;
    var hashed := HashedKey(suite, key);
    HashExactly(suite, message, Combined(s, suite.base, c, key), Combined(s, hashed, c, image));
  }

  /** Challenges that go once around a ring, each member passing on what it was given. */
  ghost predicate GoesAround(
    suite: Suite, message: seq<u8>, ring: seq<Point>, image: Point, members: seq<Scalar>, i: nat, c: seq<Scalar>)
    requires |members| == |ring|
  {
    && i <= |ring| && |c| == |ring| + 1
    && forall j | i <= j < |ring| :: Passes(suite, message, ring[j], image, members[j], c[j], c[j + 1])
  }

  lemma {:induction false} ChainExactly(
    suite: Suite, message: seq<u8>, ring: seq<Point>, image: Point, members: seq<Scalar>, i: nat, c: seq<Scalar>)
    requires |members| == |ring| && GoesAround(suite, message, ring, image, members, i, c)
    ensures i <= |ring| && Chain(suite, message, ring, image, members, i, c[i]) == c[|ring|]
    decreases |ring| - i
  {
    hide Passes, Step;
    if i < |ring| {
      StepExactly(suite, message, ring[i], image, members[i], c[i], c[i + 1]);
      ChainExactly(suite, message, ring, image, members, i + 1, c);
    }
  }

  lemma {:induction false} SomeChain(
    suite: Suite, message: seq<u8>, ring: seq<Point>, image: Point, members: seq<Scalar>, i: nat, first: Scalar)
    returns (c: seq<Scalar>)
    requires |members| == |ring| && i <= |ring|
    ensures |c| == i + 1 && c[0] == first
    ensures forall j | 0 <= j < i :: Passes(suite, message, ring[j], image, members[j], c[j], c[j + 1])
  {
    hide Passes, Step;
    if i == 0 {
      c := [first];
    } else {
      c := SomeChain(suite, message, ring, image, members, i - 1, first);
      var next := Step(suite, message, ring[i - 1], image, members[i - 1], c[i - 1]);
      StepExactly(suite, message, ring[i - 1], image, members[i - 1], c[i - 1], next);
      c := c + [next];
    }
  }

  /**
   A signature verifies exactly when it has a scalar for every member and the challenges, each the hash of the message
   and of two combinations of the member before it, go around the ring and come back to the first.
   */
  lemma VerifiesExactly(
    suite: Suite, message: seq<u8>, ring: seq<Point>, image: Point, first: Scalar, members: seq<Scalar>)
    ensures Verifies(suite, message, ring, image, first, members) <==>
            && |members| == |ring|
            && exists c: seq<Scalar> ::
                 GoesAround(suite, message, ring, image, members, 0, c) && c[0] == first == c[|ring|]
  {
    hide Passes, Chain;
    if |members| == |ring| {
      var c := SomeChain(suite, message, ring, image, members, |ring|, first);
      ChainExactly(suite, message, ring, image, members, 0, c);
      if d: seq<Scalar> :| GoesAround(suite, message, ring, image, members, 0, d) && d[0] == first == d[|ring|] {
        ChainExactly(suite, message, ring, image, members, 0, d);
      }
    }
  }

  /** The first challenge of a verified signature is the hash of the message and of the last member's two points. */
  lemma FirstIsHashed(
    suite: Suite, message: seq<u8>, ring: seq<Point>, image: Point, first: Scalar, members: seq<Scalar>)
    returns (left: Point, right: Point, c: Scalar)
    requires ring != [] && Verifies(suite, message, ring, image, first, members)
    ensures var n := |ring| - 1;
            var hashed := suite.hashToPoint(suite.compress(ring[n]));
            && |members| == |ring|
            && left == (members[n] * suite.base + c * ring[n]) % L && right == (members[n] * hashed + c * image) % L
            && first == suite.hashToScalar(Transcript(suite, message, left, right)) % L
  {
    hide Verifies;
    VerifiesExactly(suite, message, ring, image, first, members);
    var all: seq<Scalar> :| GoesAround(suite, message, ring, image, members, 0, all)
                            && all[0] == first == all[|ring|];
    var n := |ring| - 1;
    assert Passes(suite, message, ring[n], image, members[n], all[n], all[n + 1]);
    c := all[n];
    left := Combined(members[n], suite.base, c, ring[n]);
    right := Combined(members[n], suite.hashToPoint(suite.compress(ring[n])), c, image);
  }

  /**
   A signature binds its message. Two verified signatures that share their first challenge, over whatever rings, either
   sign one message or exhibit two different strings with one hash; so no signature verifies under another message, nor
   its challenge under another ring's members, without a collision.
   */
  lemma MessagesCollideOnlyInHash(
    suite: Suite, first: Scalar,
    one: seq<u8>, ring: seq<Point>, image: Point, members: seq<Scalar>,
    two: seq<u8>, ring': seq<Point>, image': Point, members': seq<Scalar>) returns (a: seq<u8>, b: seq<u8>)
    requires forall p :: |suite.compress(p)| == 32
    requires ring != [] && Verifies(suite, one, ring, image, first, members)
    requires ring' != [] && Verifies(suite, two, ring', image', first, members')
    requires one != two
    ensures a != b && suite.hashToScalar(a) % L == suite.hashToScalar(b) % L
  {
    hide Verifies;
    var left, right, c := FirstIsHashed(suite, one, ring, image, first, members);
    var left', right', c' := FirstIsHashed(suite, two, ring', image', first, members');
    a, b := Transcript(suite, one, left, right), Transcript(suite, two, left', right');
    MessageInside(suite, one, left, right);
    MessageInside(suite, two, left', right');
  }

  lemma MessageInside(suite: Suite, message: seq<u8>, left: Point, right: Point)
    requires |suite.compress(left)| == 32 && |suite.compress(right)| == 32
    ensures var text := Transcript(suite, message, left, right);
            |text| == |message| + 83 && text[19..|text| - 64] == message
  {
  }

  // ----- what a signer puts in each place

  /** The nonce of a member: the hash of the seed, a tag and the index in four little-endian bytes. */
  function Nonce(suite: Suite, seed: seq<u8>, tag: u8, index: nat): (n: Scalar)
    ensures n == suite.hashToScalar(seed + [tag] + LittleEndianBytes(index % 0x1_0000_0000, 4)) % L
  {
    DeriveNonce(suite, seed, tag, index)
  }

  /**
   A signature as its signer leaves it: the image is the secret times the hashed key; every other member answers with
   its nonce and passes its challenge on; the real one sends out the hash of its own nonce's points, and closes the
   ring with that nonce less the challenge it received times the secret.
   */
  lemma SignedExactly(suite: Suite, who: Signer) returns (c: seq<Scalar>)
    requires who.place < |who.ring|
    ensures var n, place, ring := |who.ring|, who.place, who.ring;
            var hashed := suite.hashToPoint(suite.compress(ring[place]));
            var alpha, image := Nonce(suite, who.seed, 0, place), ImageOf(suite, who);
            && |c| == n && c[0] == ChallengeAt(suite, who, Offset(who, 0))
            && image == (who.secret * hashed) % L
            && c[if place + 1 == n then 0 else place + 1] ==
               suite.hashToScalar(
                 Transcript(suite, who.message, (alpha * suite.base) % L, (alpha * hashed) % L)) % L
            && MemberScalar(suite, who, place) == (alpha - c[place] * who.secret) % L
            && forall j | 0 <= j < n && j != place ::
                 && MemberScalar(suite, who, j) == Nonce(suite, who.seed, 1, j)
                 && Passes(suite, who.message, ring[j], image, Nonce(suite, who.seed, 1, j), c[j],
                           c[if j + 1 == n then 0 else j + 1])
  {
    hide DeriveNonce, Passes, Step, Offset, MemberAfter;
    var n, place, ring := |who.ring|, who.place, who.ring;
    c := Challenges(suite, who, n);
    OrderIsL();
    PlaceOf(who, place);
    var alpha, hashed := Alpha(suite, who), HashedKey(suite, ring[place]);
    HashExactly(suite, who.message, Times(alpha, suite.base), Times(alpha, hashed));
    forall j | 0 <= j < n && j != place
      ensures MemberScalar(suite, who, j) == Nonce(suite, who.seed, 1, j)
      ensures Passes(suite, who.message, ring[j], ImageOf(suite, who), Nonce(suite, who.seed, 1, j), c[j],
                     c[if j + 1 == n then 0 else j + 1])
    {
      PlaceOf(who, j);
      StepExactly(suite, who.message, ring[j], ImageOf(suite, who), Nonce(suite, who.seed, 1, j), c[j],
                  c[if j + 1 == n then 0 else j + 1]);
    }
  }

  ghost function Challenges(suite: Suite, who: Signer, n: nat): (c: seq<Scalar>)
    requires who.place < |who.ring| && n <= |who.ring|
    ensures |c| == n && forall j | 0 <= j < n :: c[j] == ChallengeAt(suite, who, Offset(who, j))
  {
    if n == 0 then [] else Challenges(suite, who, n - 1) + [ChallengeAt(suite, who, Offset(who, n - 1))]
  }
}
