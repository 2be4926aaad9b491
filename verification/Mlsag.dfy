/**
 The MLSAG ring signature over a group of prime order, written additively: a point is its discrete logarithm,
 an integer modulo the order. The hashes are uninterpreted.
 */
module Mlsag {
  import opened Wrappers
  import opened Words
  import opened Wire
  import opened Residues

  /** The order of the group. */
  const ORDER: nat := 0x1000_0000_0000_0000_0000_0000_0000_0000_14de_f9de_a2f7_9cd6_5812_631a_5cf5_d3ed
  const MIN_RING_SIZE: nat := 2
  const MAX_RING_SIZE: nat := 1024
  /** The domain tag of the ring challenge. */
  const MLSAG_DOMAIN: seq<u8> := [65, 78, 84, 85, 77, 66, 82, 65, 47, 118, 101, 105, 108, 47, 109, 108, 115, 97, 103]

  type Point = nat
  type Scalar = nat

  /** The base point, the two hashes and the point encoding. */
  datatype Suite = Suite(
    base: Point, hashToScalar: seq<u8> -> nat, hashToPoint: seq<u8> -> Point,
    compress: Point -> seq<u8>, decompress: seq<u8> -> Option<Point>)

  function PointAdd(a: Point, b: Point): Point {
    (a + b) % ORDER
  }

  function Times(k: Scalar, p: Point): Point {
    (k * p) % ORDER
  }

  /** Double-and-add, least significant bit first. */
  method ScalarMult(k: Scalar, point: Point) returns (result: Point)
    ensures result == Times(k, point)
  {
    result := 0;
    var addend: nat, rest: nat := point % ORDER, k;
    MultiplyReduced(point, k, ORDER);
    while rest > 0
      invariant (result + rest * addend) % ORDER == Times(k, point) && result < ORDER
      decreases rest
    {
      DoubleAndHalve(result, rest, addend, ORDER);
      if rest % 2 == 1 {
        result := PointAdd(result, addend);
      }
      addend := PointAdd(addend, addend);
      rest := rest / 2;
    }
    assert rest * addend == 0;
    RemainderIsUnique(result, ORDER, 0, result);
  }

  // ----- hashes

  function HashToScalar(suite: Suite, data: seq<u8>): Scalar {
    suite.hashToScalar(data) % ORDER
  }

  function HashedKey(suite: Suite, key: Point): Point {
    suite.hashToPoint(suite.compress(key))
  }

  function KeyImage(suite: Suite, secret: Scalar, key: Point): Point {
    Times(secret, HashedKey(suite, key))
  }

  function RingChallenge(suite: Suite, message: seq<u8>, left: Point, right: Point): Scalar {
    HashToScalar(suite, MLSAG_DOMAIN + message + suite.compress(left) + suite.compress(right))
  }

  function DeriveNonce(suite: Suite, seed: seq<u8>, tag: u8, index: nat): Scalar {
    HashToScalar(suite, seed + [tag] + LittleEndianBytes(index % 0x1_0000_0000, 4))
  }

  // ----- verification

  /** The challenge one member of the ring passes on. */
  function Step(suite: Suite, message: seq<u8>, key: Point, image: Point, s: Scalar, c: Scalar): Scalar {
    RingChallenge(suite, message, PointAdd(Times(s, suite.base), Times(c, key)),
                  PointAdd(Times(s, HashedKey(suite, key)), Times(c, image)))
  }

  /** The challenge that leaves the ring when `c` enters at member i. */
  function Chain(
    suite: Suite, message: seq<u8>, ring: seq<Point>, image: Point, members: seq<Scalar>, i: nat, c: Scalar): Scalar
    requires |members| == |ring| && i <= |ring|
    decreases |ring| - i
  {
    if i == |ring| then c
    else Chain(suite, message, ring, image, members, i + 1, Step(suite, message, ring[i], image, members[i], c))
  }

  predicate Verifies(
    suite: Suite, message: seq<u8>, ring: seq<Point>, image: Point, first: Scalar, members: seq<Scalar>)
  {
    |members| == |ring| && Chain(suite, message, ring, image, members, 0, first) == first
  }

  /** Recomputes the whole chain. */
  method RingVerify(
    suite: Suite, message: seq<u8>, ring: seq<Point>, image: Point, firstChallenge: Scalar, members: seq<Scalar>)
    returns (ok: bool)
    ensures ok == Verifies(suite, message, ring, image, firstChallenge, members)
  {
    if |members| != |ring| {
      return false;
    }
    var c := firstChallenge;
    for i := 0 to |ring|
      invariant Chain(suite, message, ring, image, members, i, c) ==
                Chain(suite, message, ring, image, members, 0, firstChallenge)
    {
      var s := members[i];
      var hashed := suite.hashToPoint(suite.compress(ring[i]));
      var sg := ScalarMult(s, suite.base);
      var ck := ScalarMult(c, ring[i]);
      var sh := ScalarMult(s, hashed);
      var ci := ScalarMult(c, image);
      c := RingChallenge(suite, message, PointAdd(sg, ck), PointAdd(sh, ci));
    }
    ok := c == firstChallenge;
  }

  // ----- signing

  /** What a signer knows: the ring, its place in it, its secret and the seed of its nonces. */
  datatype Signer = Signer(message: seq<u8>, ring: seq<Point>, place: nat, secret: Scalar, seed: seq<u8>)

  function Alpha(suite: Suite, who: Signer): Scalar {
    DeriveNonce(suite, who.seed, 0, who.place)
  }

  function ImageOf(suite: Suite, who: Signer): Point
    requires who.place < |who.ring|
  {
    KeyImage(suite, who.secret, who.ring[who.place])
  }

  /** The member k places after the real one. */
  function MemberAfter(who: Signer, k: nat): (j: nat)
    requires who.place < |who.ring|
    ensures j < |who.ring|
  {
    (who.place + k) % |who.ring|
  }

  /** The challenge that enters the member k + 1 places after the real one. */
  function ChallengeAt(suite: Suite, who: Signer, k: nat): Scalar
    requires who.place < |who.ring|
  {
    if k == 0 then
      RingChallenge(suite, who.message, Times(Alpha(suite, who), suite.base),
                    Times(Alpha(suite, who), HashedKey(suite, who.ring[who.place])))
    else
      var j := MemberAfter(who, k);
      Step(suite, who.message, who.ring[j], ImageOf(suite, who), DeriveNonce(suite, who.seed, 1, j),
           ChallengeAt(suite, who, k - 1))
  }

  /** The scalar that closes the ring on the real member. */
  function ClosingScalar(suite: Suite, who: Signer): Scalar
    requires who.place < |who.ring|
  {
    (Alpha(suite, who) - ChallengeAt(suite, who, |who.ring| - 1) * who.secret) % ORDER
  }

  function MemberScalar(suite: Suite, who: Signer, j: nat): Scalar
    requires who.place < |who.ring|
  {
    if j == who.place then ClosingScalar(suite, who) else DeriveNonce(suite, who.seed, 1, j)
  }

  /** How many places after the real member a member stands, the real one last. */
  function Offset(who: Signer, j: nat): nat
    requires j < |who.ring| && who.place < |who.ring|
  {
    if j > who.place then j - who.place - 1 else j + |who.ring| - who.place - 1
  }

  lemma PlaceOf(who: Signer, j: nat)
    requires j < |who.ring| && who.place < |who.ring|
    ensures MemberAfter(who, Offset(who, j) + 1) == j
    ensures j != who.place ==>
              Offset(who, if j + 1 == |who.ring| then 0 else j + 1) == Offset(who, j) + 1
    ensures Offset(who, if who.place + 1 == |who.ring| then 0 else who.place + 1) == 0
    ensures Offset(who, who.place) == |who.ring| - 1
  {
    var n := |who.ring|;
    if j > who.place {
      RemainderIsUnique(j, n, 0, j);
    } else {
      RemainderIsUnique(j + n, n, 1, j);
    }
  }

  /** The real member's scalar cancels the secret: s G + c (secret G) = alpha G, and likewise for any other point. */
  lemma Closes(alpha: Scalar, c: Scalar, secret: Scalar, p: Point)
    ensures var s: Scalar := (alpha - c * secret) % ORDER;
            PointAdd(Times(s, p), Times(c, Times(secret, p))) == Times(alpha, p)
  {
    CancelsModulo(alpha, c, secret, p, ORDER);
  }

  lemma CancelsModulo(alpha: int, c: int, secret: int, p: int, m: int)
    requires m > 0
    ensures ((((alpha - c * secret) % m) * p) % m + (c * ((secret * p) % m)) % m) % m == (alpha * p) % m
  {
    var s := alpha - c * secret;
    MultiplyReduced(s, p, m);
    assert (s % m) * p == p * (s % m) && s * p == p * s;
    MultiplyReduced(secret * p, c, m);
    AddReduced(s * p, (c * (secret * p)) % m, m);
    AddReduced(c * (secret * p), s * p, m);
    Collect(alpha, c, secret, p);
  }

  lemma Collect(alpha: int, c: int, secret: int, p: int)
    ensures (alpha - c * secret) * p + c * (secret * p) == alpha * p
  {
    assert (alpha - c * secret) * p == alpha * p - (c * secret) * p;
    assert (c * secret) * p == c * (secret * p);
  }

  /** Every member of a signed ring passes on the challenge the next one was signed with. */
  lemma RingLinks(suite: Suite, who: Signer, j: nat)
    requires j < |who.ring| && who.place < |who.ring| && who.ring[who.place] == Times(who.secret, suite.base)
    ensures var next := if j + 1 == |who.ring| then 0 else j + 1;
            Step(suite, who.message, who.ring[j], ImageOf(suite, who), MemberScalar(suite, who, j),
                 ChallengeAt(suite, who, Offset(who, j))) == ChallengeAt(suite, who, Offset(who, next))
  {
    hide Times, PointAdd, RingChallenge, DeriveNonce, HashedKey;
    PlaceOf(who, j);
    if j == who.place {
      var c := ChallengeAt(suite, who, |who.ring| - 1);
      Closes(Alpha(suite, who), c, who.secret, suite.base);
      Closes(Alpha(suite, who), c, who.secret, HashedKey(suite, who.ring[j]));
    }
  }

  lemma {:induction false} ChainFollows(suite: Suite, who: Signer, members: seq<Scalar>, i: nat)
    requires who.place < |who.ring| && who.ring[who.place] == Times(who.secret, suite.base)
    requires |members| == |who.ring| && forall j | 0 <= j < |members| :: members[j] == MemberScalar(suite, who, j)
    requires i < |who.ring|
    ensures var c := ChallengeAt(suite, who, Offset(who, i));
            Chain(suite, who.message, who.ring, ImageOf(suite, who), members, i, c) ==
            ChallengeAt(suite, who, Offset(who, 0))
    decreases |who.ring| - i
  {
    hide Step, ChallengeAt, MemberScalar, ImageOf, Times, Offset;
    RingLinks(suite, who, i);
    if i + 1 < |who.ring| {
      ChainFollows(suite, who, members, i + 1);
    }
  }

  /**
   Completeness: for every ring, place, message and seed, the signature of a signer whose secret is behind
   its key verifies.
   */
  lemma SignedRingVerifies(suite: Suite, who: Signer, members: seq<Scalar>)
    requires who.place < |who.ring| && who.ring[who.place] == Times(who.secret, suite.base)
    requires |members| == |who.ring| && forall j | 0 <= j < |members| :: members[j] == MemberScalar(suite, who, j)
    ensures var first := ChallengeAt(suite, who, Offset(who, 0));
            Verifies(suite, who.message, who.ring, ImageOf(suite, who), first, members)
  {
    hide Step, ChallengeAt, MemberScalar, ImageOf, Times, Offset;
    ChainFollows(suite, who, members, 0);
  }

  /** Some multiple of the point is the unit, so every point is a multiple of it. */
  ghost predicate Generates(p: Point) {
    exists u: Scalar :: Times(u, p) == 1
  }

  lemma MultipleIsReduced(k: int, p: int, m: int)
    requires m > 0
    ensures (k * p) % m == ((k % m) * p) % m
  {
    MultiplyReduced(k, p, m);
    assert p * (k % m) == (k % m) * p && p * k == k * p;
  }

  /** A generator cancels: a * p and b * p are one point only when a and b are one residue. */
  lemma Cancels(a: Scalar, b: Scalar, u: Scalar, p: Point)
    requires Times(u, p) == 1 && Times(a, p) == Times(b, p)
    ensures a % ORDER == b % ORDER
  {
    Unwinds(a, u, p, ORDER);
    Unwinds(b, u, p, ORDER);
  }

  lemma Unwinds(a: int, u: int, p: int, m: int)
    requires m > 1 && (u * p) % m == 1
    ensures (u * ((a * p) % m)) % m == a % m
  {
    MultiplyReduced(a * p, u, m);
    assert u * (a * p) == a * (u * p);
    MultiplyReduced(u * p, a, m);
  }

  /** Scalars of one residue have one multiple, and over a generator only those. */
  lemma MultiplesTellResidues(a: Scalar, b: Scalar, p: Point)
    ensures a % ORDER == b % ORDER ==> Times(a, p) == Times(b, p)
    ensures Generates(p) && Times(a, p) == Times(b, p) ==> a % ORDER == b % ORDER
  {
    MultipleIsReduced(a, p, ORDER);
    MultipleIsReduced(b, p, ORDER);
    if Generates(p) && Times(a, p) == Times(b, p) {
      var u: Scalar :| Times(u, p) == 1;
      Cancels(a, b, u, p);
    }
  }

  /**
   Linkability: two signatures of one public key carry one image, whatever the rings, the places and the integers
   the signers hold as secrets, as long as each secret is behind the key.
   */
  lemma ImagesLink(suite: Suite, one: Signer, two: Signer)
    requires one.place < |one.ring| && two.place < |two.ring| && Generates(suite.base)
    requires one.ring[one.place] == Times(one.secret, suite.base)
    requires two.ring[two.place] == Times(two.secret, suite.base)
    requires one.ring[one.place] == two.ring[two.place]
    ensures ImageOf(suite, one) == ImageOf(suite, two)
  {
    hide Times;
    MultiplesTellResidues(one.secret, two.secret, suite.base);
    MultiplesTellResidues(one.secret, two.secret, HashedKey(suite, one.ring[one.place]));
  }

  /** Under one key that hashes to a generator, an image tells its secret: no other residue makes it. */
  lemma ImagesTellSecrets(suite: Suite, one: Signer, two: Signer)
    requires one.place < |one.ring| && two.place < |two.ring|
    requires one.ring[one.place] == two.ring[two.place] && Generates(HashedKey(suite, one.ring[one.place]))
    ensures ImageOf(suite, one) == ImageOf(suite, two) <==> one.secret % ORDER == two.secret % ORDER
  {
    hide Times;
    MultiplesTellResidues(one.secret, two.secret, HashedKey(suite, one.ring[one.place]));
  }

  /** Signs a message for the ring: the image, the first challenge and the member scalars. */
  method RingSign(suite: Suite, message: seq<u8>, ring: seq<Point>, realIndex: nat, secret: Scalar, seed: seq<u8>)
    returns (image: Point, first: Scalar, signature: seq<Scalar>)
    requires realIndex < |ring|
    ensures image == KeyImage(suite, secret, ring[realIndex]) && |signature| == |ring|
    ensures var who := Signer(message, ring, realIndex, secret, seed);
            first == ChallengeAt(suite, who, Offset(who, 0))
            && forall j | 0 <= j < |ring| :: signature[j] == MemberScalar(suite, who, j)
    ensures ring[realIndex] == Times(secret, suite.base) ==> Verifies(suite, message, ring, image, first, signature)
  {
    hide RingChallenge, DeriveNonce, Times, Step, Offset, ClosingScalar, ChallengeAt, MemberAfter, HashedKey, Verifies;
    var n := |ring|;
    ghost var who := Signer(message, ring, realIndex, secret, seed);
    var realHashed := HashedKey(suite, ring[realIndex]);
    image := ScalarMult(secret, realHashed);
    var alpha := DeriveNonce(suite, seed, 0, realIndex);
    var challenges, members := new Scalar[n](_ => 0), new Scalar[n](_ => 0);
    var start := (realIndex + 1) % n;
    var left := ScalarMult(alpha, suite.base);
    var right := ScalarMult(alpha, realHashed);
    FirstPlace(suite, who);
    PlaceAfter(who, 0);
    challenges[start] := RingChallenge(suite, message, left, right);
    OneAtOffset(who, 0);
    var next := start;
    ghost var k := 0;
    while next != realIndex
      invariant 0 <= k < n && next == MemberAfter(who, k + 1) && next < n && (next == realIndex <==> k == n - 1)
      invariant Offset(who, next) == k
      invariant forall j | 0 <= j < n && Offset(who, j) <= k :: challenges[j] == ChallengeAt(suite, who, Offset(who, j))
      invariant forall j | 0 <= j < n && Offset(who, j) < k :: members[j] == DeriveNonce(suite, seed, 1, j)
      decreases n - k
    {
      PlaceAfter(who, k);
      PlaceAfter(who, k + 1);
      NextChallenge(suite, who, k);
      OneAtOffset(who, k);
      OneAtOffset(who, k + 1);
      var s := DeriveNonce(suite, seed, 1, next);
      var c := challenges[next];
      members[next] := s;
      var following := (next + 1) % n;
      challenges[following] := Forward(suite, message, ring[next], image, s, c);
      next := following;
      k := k + 1;
    }
    LastOffsets(who);
    members[realIndex] := (alpha - challenges[realIndex] * secret) % ORDER;
    Closing(suite, who, alpha, challenges[realIndex]);
    first, signature := challenges[0], members[..];
    if ring[realIndex] == Times(secret, suite.base) {
      SignedRingVerifies(suite, who, signature);
    }
  }

  /** What one member passes on, computed. */
  method Forward(suite: Suite, message: seq<u8>, key: Point, image: Point, s: Scalar, c: Scalar) returns (next: Scalar)
    ensures next == Step(suite, message, key, image, s, c)
  {
    var hashed := suite.hashToPoint(suite.compress(key));
    var sg := ScalarMult(s, suite.base);
    var ck := ScalarMult(c, key);
    var sh := ScalarMult(s, hashed);
    var ci := ScalarMult(c, image);
    next := RingChallenge(suite, message, PointAdd(sg, ck), PointAdd(sh, ci));
  }

  lemma FirstPlace(suite: Suite, who: Signer)
    requires who.place < |who.ring|
    ensures MemberAfter(who, 1) == (who.place + 1) % |who.ring|
    ensures Alpha(suite, who) == DeriveNonce(suite, who.seed, 0, who.place)
    ensures ChallengeAt(suite, who, 0) ==
            RingChallenge(suite, who.message, Times(Alpha(suite, who), suite.base),
                          Times(Alpha(suite, who), HashedKey(suite, who.ring[who.place])))
  {
  }

  lemma NextChallenge(suite: Suite, who: Signer, k: nat)
    requires who.place < |who.ring|
    ensures var j := MemberAfter(who, k + 1);
            ChallengeAt(suite, who, k + 1) ==
            Step(suite, who.message, who.ring[j], ImageOf(suite, who), DeriveNonce(suite, who.seed, 1, j),
                 ChallengeAt(suite, who, k))
  {
  }

  /** The member k + 1 places on: its offset, its successor, and when it is the real one. */
  lemma PlaceAfter(who: Signer, k: nat)
    requires who.place < |who.ring| && k < |who.ring|
    ensures var j := MemberAfter(who, k + 1);
            && Offset(who, j) == k && (j == who.place <==> k == |who.ring| - 1)
            && (j + 1) % |who.ring| == MemberAfter(who, k + 2)
  {
    var n, total := |who.ring|, who.place + k + 1;
    if total < n {
      RemainderIsUnique(total, n, 0, total);
    } else {
      RemainderIsUnique(total, n, 1, total - n);
    }
    AddReduced(total, 1, n);
  }

  /** Only one member stands at an offset. */
  lemma OneAtOffset(who: Signer, k: nat)
    requires who.place < |who.ring| && k < |who.ring|
    ensures forall j | 0 <= j < |who.ring| :: Offset(who, j) == k <==> j == MemberAfter(who, k + 1)
  {
    PlaceAfter(who, k);
    forall j | 0 <= j < |who.ring| && Offset(who, j) == k ensures j == MemberAfter(who, k + 1) {
      PlaceOf(who, j);
    }
  }

  lemma LastOffsets(who: Signer)
    requires who.place < |who.ring|
    ensures forall j | 0 <= j < |who.ring| :: Offset(who, j) <= |who.ring| - 1
    ensures forall j | 0 <= j < |who.ring| :: Offset(who, j) < |who.ring| - 1 <==> j != who.place
  {
  }

  lemma Closing(suite: Suite, who: Signer, alpha: Scalar, c: Scalar)
    requires who.place < |who.ring| && alpha == Alpha(suite, who)
             && c == ChallengeAt(suite, who, Offset(who, who.place))
    ensures (alpha - c * who.secret) % ORDER == ClosingScalar(suite, who)
  {
    PlaceOf(who, who.place);
  }
}
