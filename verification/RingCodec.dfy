/** The canonical encoding of ring signatures: image, first challenge, counted member scalars. */
module RingCodec {
  import opened Wrappers
  import opened Words
  import opened Wire
  import opened Mlsag

  datatype Signature = Signature(image: Point, first: Scalar, members: seq<Scalar>)

  function EncodeScalar(s: Scalar): seq<u8> {
    LittleEndianBytes(s, 32)
  }

  /** Scalars on the wire are below the order and never zero. */
  predicate CanonicalScalar(s: Scalar) {
    0 < s < ORDER
  }

  function TakeScalar(s: seq<u8>): Parsed<Scalar> {
    var value :- TakeLittle(s, 32);
    if CanonicalScalar(value.0) then Success(value) else Failure(InvalidAddress)
  }

  function EncodeSignature(suite: Suite, sig: Signature): seq<u8> {
    suite.compress(sig.image) + (EncodeScalar(sig.first) + (Varint(|sig.members|) + Many(EncodeScalar, sig.members)))
  }

  /** A point the encoding carries: 32 bytes that decompress back to it. */
  predicate CanonicalPoint(suite: Suite, point: Point) {
    |suite.compress(point)| == 32 && suite.decompress(suite.compress(point)) == Some(point)
  }

  ghost predicate CanonicalSignature(suite: Suite, sig: Signature) {
    && CanonicalPoint(suite, sig.image) && CanonicalScalar(sig.first)
    && MIN_RING_SIZE <= |sig.members| <= MAX_RING_SIZE && forall s | s in sig.members :: CanonicalScalar(s)
  }

  function TakeMembers(s: seq<u8>): Option<seq<Scalar>> {
    var count := TakeVarint(s);
    if count.Failure? then None
    else
      var (n, rest) := count.value;
      if !(MIN_RING_SIZE <= n <= MAX_RING_SIZE) || |rest| != n * 32 then None
      else
        var members := TakeMany(TakeScalar, rest, n);
        if members.Failure? || members.value.1 != [] then None else Some(members.value.0)
  }

  function DecodeSignature(suite: Suite, s: seq<u8>): Option<Signature> {
    if |s| < 65 then None
    else
      var image := suite.decompress(s[..32]);
      if image.None? || suite.compress(image.value) != s[..32] then None
      else
        var first := LittleEndian(s[32..64]);
        if !CanonicalScalar(first) then None
        else
          var members := TakeMembers(s[64..]);
          if members.None? then None else Some(Signature(image.value, first, members.value))
  }

  lemma OrderFits()
    ensures ORDER <= Pow256(32)
  {
    assert Pow256(4) == 0x1_0000_0000;
    assert Pow256(8) == 0x1_0000_0000_0000_0000;
    assert Pow256(12) == 0x1_0000_0000_0000_0000_0000_0000;
    assert Pow256(16) == 0x1_0000_0000_0000_0000_0000_0000_0000_0000;
    assert Pow256(20) == 0x1_0000_0000_0000_0000_0000_0000_0000_0000_0000_0000;
    assert Pow256(24) == 0x1_0000_0000_0000_0000_0000_0000_0000_0000_0000_0000_0000_0000;
    assert Pow256(28) == 0x1_0000_0000_0000_0000_0000_0000_0000_0000_0000_0000_0000_0000_0000_0000;
  }

  lemma ScalarLawful()
    ensures Lawful(EncodeScalar, CanonicalScalar, TakeScalar)
  {
    hide LittleEndian, LittleEndianBytes, TakeLittle, Pow256;
    OrderFits();
    forall s | TakeScalar(s).Success?
      ensures CanonicalScalar(TakeScalar(s).value.0) && s == EncodeScalar(TakeScalar(s).value.0) + TakeScalar(s).value.1
    {
      LittleSound(s, 32);
    }
    forall x: Scalar, rest: seq<u8> {:trigger EncodeScalar(x) + rest} | CanonicalScalar(x)
      ensures TakeScalar(EncodeScalar(x) + rest) == Success((x, rest))
    {
      LittleComplete(x, 32, rest);
    }
  }

  lemma {:induction false} ManyLength(members: seq<Scalar>)
    ensures |Many(EncodeScalar, members)| == |members| * 32
  {
    hide LittleEndianBytes;
    if members != [] {
      ManyLength(members[1..]);
    }
  }

  lemma MembersSound(s: seq<u8>)
    requires TakeMembers(s).Some?
    ensures var members := TakeMembers(s).value;
            && MIN_RING_SIZE <= |members| <= MAX_RING_SIZE && (forall x | x in members :: CanonicalScalar(x))
            && s == Varint(|members|) + Many(EncodeScalar, members)
  {
    hide TakeVarint, Varint, TakeMany, Many, TakeScalar, EncodeScalar, CanonicalScalar;
    VarintSound(s);
    var (n, rest) := TakeVarint(s).value;
    ScalarLawful();
    ManySound(EncodeScalar, CanonicalScalar, TakeScalar, rest, n);
    assert rest == Many(EncodeScalar, TakeMany(TakeScalar, rest, n).value.0) + [];
  }

  lemma MembersComplete(members: seq<Scalar>)
    requires MIN_RING_SIZE <= |members| <= MAX_RING_SIZE && forall x | x in members :: CanonicalScalar(x)
    ensures TakeMembers(Varint(|members|) + Many(EncodeScalar, members)) == Some(members)
  {
    hide TakeVarint, Varint, TakeMany, Many, TakeScalar, EncodeScalar, CanonicalScalar;
    var rest := Many(EncodeScalar, members);
    VarintComplete(|members|, rest);
    ScalarLawful();
    ManyLength(members);
    assert rest + [] == rest;
    ManyComplete(EncodeScalar, CanonicalScalar, TakeScalar, members, []);
  }

  /** What decodes is canonical and encodes back to its bytes. */
  lemma DecodedSignatureReencodes(suite: Suite, s: seq<u8>)
    requires DecodeSignature(suite, s).Some?
    ensures var sig := DecodeSignature(suite, s).value;
            CanonicalScalar(sig.first) && MIN_RING_SIZE <= |sig.members| <= MAX_RING_SIZE
            && (forall x | x in sig.members :: CanonicalScalar(x)) && EncodeSignature(suite, sig) == s
  {
    hide TakeMembers, Varint, Many, LittleEndian, LittleEndianBytes, CanonicalScalar;
    MembersSound(s[64..]);
    BytesOfLittleEndian(s[32..64]);
    var members := TakeMembers(s[64..]).value;
    assert s == s[..32] + (s[32..64] + s[64..]);
  }

  /** What is canonical decodes back to itself. */
  lemma SignatureRoundTrips(suite: Suite, sig: Signature)
    requires CanonicalSignature(suite, sig)
    ensures DecodeSignature(suite, EncodeSignature(suite, sig)) == Some(sig)
  {
    hide TakeMembers, Varint, Many, LittleEndian, LittleEndianBytes, Pow256;
    var image, first := suite.compress(sig.image), EncodeScalar(sig.first);
    var rest := Varint(|sig.members|) + Many(EncodeScalar, sig.members);
    var s := EncodeSignature(suite, sig);
    assert s[..32] == image && s[32..64] == first && s[64..] == rest;
    OrderFits();
    LittleEndianOfBytes(sig.first, 32);
    MembersComplete(sig.members);
  }

  // ----- signed signatures on the wire

  /** The scalars of the first n members of a signed ring. */
  ghost function MembersOf(suite: Suite, who: Signer, n: nat): (members: seq<Scalar>)
    requires who.place < |who.ring| && n <= |who.ring|
    ensures |members| == n && forall j | 0 <= j < n :: members[j] == MemberScalar(suite, who, j)
  {
    if n == 0 then [] else MembersOf(suite, who, n - 1) + [MemberScalar(suite, who, n - 1)]
  }

  /** What signing puts on the wire. */
  ghost function SignatureOf(suite: Suite, who: Signer): Signature
    requires who.place < |who.ring|
  {
    Signature(ImageOf(suite, who), ChallengeAt(suite, who, Offset(who, 0)), MembersOf(suite, who, |who.ring|))
  }

  lemma SignedScalarsAreReduced(suite: Suite, who: Signer, j: nat, k: nat)
    requires who.place < |who.ring|
    ensures MemberScalar(suite, who, j) < ORDER && ChallengeAt(suite, who, k) < ORDER
  {
  }

  /**
   What a signer of a canonical image sends decodes back to what it sent exactly when the ring is of admissible
   size, no nonce of another member is zero, and neither the first challenge nor the closing scalar came out zero:
   the signer checks none of this.
   */
  lemma SignedRoundTripsUnlessZero(suite: Suite, who: Signer)
    requires who.place < |who.ring| && CanonicalPoint(suite, ImageOf(suite, who))
    ensures var sig := SignatureOf(suite, who);
            DecodeSignature(suite, EncodeSignature(suite, sig)) == Some(sig) <==>
            && MIN_RING_SIZE <= |who.ring| <= MAX_RING_SIZE
            && ChallengeAt(suite, who, Offset(who, 0)) != 0 && ClosingScalar(suite, who) != 0
            && forall j | 0 <= j < |who.ring| && j != who.place :: DeriveNonce(suite, who.seed, 1, j) != 0
  {
    hide DecodeSignature, EncodeSignature, ChallengeAt, Offset, ImageOf, CanonicalPoint, ClosingScalar, DeriveNonce;
    var sig := SignatureOf(suite, who);
    forall j | 0 <= j < |sig.members| ensures sig.members[j] == MemberScalar(suite, who, j) < ORDER {
      SignedScalarsAreReduced(suite, who, j, 0);
    }
    SignedScalarsAreReduced(suite, who, 0, Offset(who, 0));
    assert sig.members[who.place] == ClosingScalar(suite, who);
    assert forall j | 0 <= j < |who.ring| && j != who.place :: sig.members[j] == DeriveNonce(suite, who.seed, 1, j);
    if DecodeSignature(suite, EncodeSignature(suite, sig)) == Some(sig) {
      DecodedSignatureReencodes(suite, EncodeSignature(suite, sig));
      assert forall j | 0 <= j < |sig.members| :: sig.members[j] in sig.members;
    } else if MIN_RING_SIZE <= |sig.members| <= MAX_RING_SIZE && sig.first != 0 && 0 !in sig.members {
      SignatureRoundTrips(suite, sig);
    }
  }

  /** A ring of one: it signs and verifies, whatever the secret, and its encoding never decodes. */
  lemma RingOfOneIsRefused(suite: Suite, message: seq<u8>, secret: Scalar, seed: seq<u8>)
    requires CanonicalPoint(suite, KeyImage(suite, secret, Times(secret, suite.base)))
    ensures var who := Signer(message, [Times(secret, suite.base)], 0, secret, seed);
            var sig := SignatureOf(suite, who);
            && Verifies(suite, message, who.ring, sig.image, sig.first, sig.members)
            && DecodeSignature(suite, EncodeSignature(suite, sig)) == None
  {
    hide Times, KeyImage, ChallengeAt, Offset, MemberScalar, Many, TakeMembers, LittleEndian, LittleEndianBytes;
    var who := Signer(message, [Times(secret, suite.base)], 0, secret, seed);
    var sig := SignatureOf(suite, who);
    SignedRingVerifies(suite, who, sig.members);
    var s := EncodeSignature(suite, sig);
    assert s[64..] == Varint(1) + Many(EncodeScalar, sig.members);
    ManyLength(sig.members);
    if TakeMembers(s[64..]).Some? {
      MembersSound(s[64..]);
      ManyLength(TakeMembers(s[64..]).value);
      assert false;
    }
  }

  // ----- the encoder and the decoder

  method WriteSignature(suite: Suite, sig: Signature) returns (bytes: seq<u8>)
    requires |sig.members| <= U64_MAX
    ensures bytes == EncodeSignature(suite, sig)
  {
    hide Varint, LittleEndianBytes;
    var w := new Writer();
    w.Extend(suite.compress(sig.image));
    w.WriteLittle(sig.first, 32);
    w.WriteVarint(|sig.members|);
    ghost var start := w.out;
    assert start + [] == start;
    for i := 0 to |sig.members|
      invariant w.out == start + Many(EncodeScalar, sig.members[..i])
    {
      w.WriteLittle(sig.members[i], 32);
      assert sig.members[..i + 1] == sig.members[..i] + [sig.members[i]];
      ManyAppend(EncodeScalar, sig.members[..i], sig.members[i]);
      Regroup(start, Many(EncodeScalar, sig.members[..i]), EncodeScalar(sig.members[i]));
    }
    assert sig.members[..|sig.members|] == sig.members;
    bytes := w.out;
    Chain4([], suite.compress(sig.image), EncodeScalar(sig.first), Varint(|sig.members|),
           Many(EncodeScalar, sig.members));
    assert [] + EncodeSignature(suite, sig) == EncodeSignature(suite, sig);
  }

  method ReadSignature(suite: Suite, encoded: seq<u8>) returns (r: Option<Signature>)
    ensures r == DecodeSignature(suite, encoded)
  {
    hide TakeVarint, TakeMany, LittleEndian;
    if |encoded| < 65 {
      return None;
    }
    var image := suite.decompress(encoded[..32]);
    if image.None? || suite.compress(image.value) != encoded[..32] {
      return None;
    }
    var first := LittleEndian(encoded[32..64]);
    if !(0 < first < ORDER) {
      return None;
    }
    var members := ReadMembers(encoded[64..]);
    r := if members.None? then None else Some(Signature(image.value, first, members.value));
  }

  method ReadMembers(bytes: seq<u8>) returns (r: Option<seq<Scalar>>)
    ensures r == TakeMembers(bytes)
  {
    hide TakeVarint, TakeMany, TakeScalar, Continues;
    var counted := ScanVarint(bytes);
    if counted.Failure? {
      return None;
    }
    var (count, used) := counted.value;
    var rest := bytes[used..];
    if !(MIN_RING_SIZE <= count <= MAX_RING_SIZE) || |bytes| != used + count * 32 {
      return None;
    }
    var members: seq<Scalar> := [];
    ghost var whole := TakeMany(TakeScalar, rest, count);
    ContinuesStart(TakeScalar, rest, count);
    assert rest[0..] == rest;
    for i := 0 to count
      invariant Continues(TakeScalar, whole, members, rest[i * 32..], count - i)
    {
      ContinuesStep(TakeScalar, whole, members, rest[i * 32..], count - i);
      var value := LittleEndian(rest[i * 32..(i + 1) * 32]);
      ScalarAt(rest, i);
      if !(0 < value < ORDER) {
        return None;
      }
      members := members + [value];
    }
    ContinuesEnd(TakeScalar, whole, members, rest[count * 32..]);
    r := Some(members);
  }

  lemma ScalarAt(rest: seq<u8>, i: nat)
    requires (i + 1) * 32 <= |rest|
    ensures var value := LittleEndian(rest[i * 32..(i + 1) * 32]);
            TakeScalar(rest[i * 32..]) ==
            if CanonicalScalar(value) then Success((value, rest[(i + 1) * 32..])) else Failure(InvalidAddress)
  {
    var tail := rest[i * 32..];
    assert tail[..32] == rest[i * 32..(i + 1) * 32] && tail[32..] == rest[(i + 1) * 32..];
  }
}
