/**
 The canonical encodings of headers and blocks. A block id is the digest of the header encoding, so these
 round trips are what keeps ids from being malleable.
 */
module BlockCodec {
  import opened Wrappers
  import opened Words
  import opened Ranking
  import opened Blocks
  import opened Wire

  const VERSION_1: nat := 1
  const MAX_PARENTS: nat := 16
  const MAX_TXS: nat := 64

  /** A block on the wire: its id is not carried, it is the digest of the header. */
  datatype WireBlock = WireBlock(header: Header, txIds: seq<Hash>)

  // ----- lists of ids

  function EncodeHash(h: Hash): seq<u8> {
    BigEndianBytes(h, 32)
  }

  predicate CanonicalHash(h: Hash) {
    Fits(h, 32)
  }

  function TakeHash(s: seq<u8>): Parsed<Hash> {
    TakeBig(s, 32)
  }

  lemma HashLawful()
    ensures Lawful(EncodeHash, CanonicalHash, TakeHash)
  {
    hide BigEndian, BigEndianBytes, Fits, TakeBig;
    forall s | TakeHash(s).Success?
      ensures CanonicalHash(TakeHash(s).value.0) && s == EncodeHash(TakeHash(s).value.0) + TakeHash(s).value.1
    {
      BigSound(s, 32);
    }
    forall h: Hash, rest: seq<u8> {:trigger EncodeHash(h) + rest} | CanonicalHash(h)
      ensures TakeHash(EncodeHash(h) + rest) == Success((h, rest))
    {
      BigComplete(h, 32, rest);
    }
  }

  /** A list of ids with its count. */
  function IdBytes(ids: seq<Hash>): seq<u8> {
    Varint(|ids|) + Many(EncodeHash, ids)
  }

  predicate AscendingIds(ids: seq<Hash>) {
    forall i | 0 < i < |ids| :: ids[i - 1] < ids[i]
  }

  ghost predicate CanonicalIds(ids: seq<Hash>, most: nat) {
    |ids| <= most && AscendingIds(ids) && forall h | h in ids :: CanonicalHash(h)
  }

  /** The ids after their count. */
  lemma IdsSound(s: seq<u8>, n: nat)
    requires n <= U64_MAX && TakeMany(TakeHash, s, n).Success?
    ensures var (ids, rest) := TakeMany(TakeHash, s, n).value;
            |ids| == n && (forall h | h in ids :: CanonicalHash(h)) && Varint(n) + s == IdBytes(ids) + rest
  {
    hide Varint, TakeMany, Many, CanonicalHash, EncodeHash, TakeHash;
    HashLawful();
    ManySound(EncodeHash, CanonicalHash, TakeHash, s, n);
    var (ids, rest) := TakeMany(TakeHash, s, n).value;
    Regroup(Varint(n), Many(EncodeHash, ids), rest);
  }

  lemma IdsComplete(ids: seq<Hash>, rest: seq<u8>)
    requires |ids| <= U64_MAX && forall h | h in ids :: CanonicalHash(h)
    ensures IdBytes(ids) + rest == Varint(|ids|) + (Many(EncodeHash, ids) + rest)
    ensures TakeMany(TakeHash, Many(EncodeHash, ids) + rest, |ids|) == Success((ids, rest))
  {
    hide Varint, TakeMany, Many, CanonicalHash, EncodeHash, TakeHash;
    HashLawful();
    ManyComplete(EncodeHash, CanonicalHash, TakeHash, ids, rest);
    Regroup(Varint(|ids|), Many(EncodeHash, ids), rest);
  }

  // ----- headers

  function EncodeHeader(h: Header): seq<u8> {
    LittleEndianBytes(VERSION_1, 2) + (IdBytes(h.parents) + TailBytes(h))
  }

  function TailBytes(h: Header): seq<u8> {
    LittleEndianBytes(h.height, 8) +
    (LittleEndianBytes(h.timestamp, 8) + (LittleEndianBytes(h.nonce, 8) + BigEndianBytes(h.payloadRoot, 32)))
  }

  /** The headers a reader may return. */
  ghost predicate CanonicalHeader(h: Header) {
    && h.parents != [] && CanonicalIds(h.parents, MAX_PARENTS)
    && Fits(h.height, 8) && Fits(h.timestamp, 8) && Fits(h.nonce, 8) && Fits(h.payloadRoot, 32)
  }

  function TakeParents(s: seq<u8>): Parsed<seq<Hash>> {
    var count :- TakeVarint(s);
    if count.0 == 0 then Failure(NoParents)
    else if count.0 > MAX_PARENTS then Failure(TooManyParents(count.0))
    else
      var parents :- TakeMany(TakeHash, count.1, count.0);
      if !AscendingIds(parents.0) then Failure(UnsortedParents) else Success(parents)
  }

  function TakeTail(parents: seq<Hash>, s: seq<u8>): Parsed<Header> {
    var height :- TakeLittle(s, 8);
    var timestamp :- TakeLittle(height.1, 8);
    var nonce :- TakeLittle(timestamp.1, 8);
    var root :- TakeBig(nonce.1, 32);
    Success((Header(parents, height.0, timestamp.0, nonce.0, root.0), root.1))
  }

  function TakeHeader(s: seq<u8>): Parsed<Header> {
    var version :- TakeLittle(s, 2);
    if version.0 != VERSION_1 then Failure(InvalidVersion(version.0))
    else
      var parents :- TakeParents(version.1);
      TakeTail(parents.0, parents.1)
  }

  lemma TailSound(parents: seq<Hash>, s: seq<u8>)
    requires TakeTail(parents, s).Success?
    ensures var (h, rest) := TakeTail(parents, s).value;
            && h.parents == parents && s == TailBytes(h) + rest
            && Fits(h.height, 8) && Fits(h.timestamp, 8) && Fits(h.nonce, 8) && Fits(h.payloadRoot, 32)
  {
    hide TakeLittle, TakeBig, LittleEndianBytes, BigEndianBytes, Fits;
    LittleSound(s, 8);
    var height := TakeLittle(s, 8).value;
    LittleSound(height.1, 8);
    var timestamp := TakeLittle(height.1, 8).value;
    LittleSound(timestamp.1, 8);
    var nonce := TakeLittle(timestamp.1, 8).value;
    BigSound(nonce.1, 32);
    var root := TakeBig(nonce.1, 32).value;
    Regroup4(LittleEndianBytes(height.0, 8), LittleEndianBytes(timestamp.0, 8), LittleEndianBytes(nonce.0, 8),
             BigEndianBytes(root.0, 32), root.1);
  }

  lemma TailComplete(h: Header, rest: seq<u8>)
    requires Fits(h.height, 8) && Fits(h.timestamp, 8) && Fits(h.nonce, 8) && Fits(h.payloadRoot, 32)
    ensures TakeTail(h.parents, TailBytes(h) + rest) == Success((h, rest))
  {
    hide TakeLittle, TakeBig, LittleEndianBytes, BigEndianBytes, Fits;
    var height, timestamp := LittleEndianBytes(h.height, 8), LittleEndianBytes(h.timestamp, 8);
    var nonce, root := LittleEndianBytes(h.nonce, 8), BigEndianBytes(h.payloadRoot, 32);
    Regroup4(height, timestamp, nonce, root, rest);
    LittleComplete(h.height, 8, timestamp + (nonce + (root + rest)));
    LittleComplete(h.timestamp, 8, nonce + (root + rest));
    LittleComplete(h.nonce, 8, root + rest);
    BigComplete(h.payloadRoot, 32, rest);
  }

  lemma ParentsSound(s: seq<u8>)
    requires TakeParents(s).Success?
    ensures var (parents, rest) := TakeParents(s).value;
            parents != [] && CanonicalIds(parents, MAX_PARENTS) && s == IdBytes(parents) + rest
  {
    hide TakeVarint, TakeMany, TakeHash, IdBytes, CanonicalHash, AscendingIds;
    VarintSound(s);
    var count := TakeVarint(s).value;
    IdsSound(count.1, count.0);
  }

  lemma ParentsComplete(parents: seq<Hash>, rest: seq<u8>)
    requires parents != [] && CanonicalIds(parents, MAX_PARENTS)
    ensures TakeParents(IdBytes(parents) + rest) == Success((parents, rest))
  {
    hide TakeVarint, TakeMany, TakeHash, IdBytes, CanonicalHash, AscendingIds;
    IdsComplete(parents, rest);
    VarintComplete(|parents|, Many(EncodeHash, parents) + rest);
  }

  /** What a header read accepts is canonical, and encodes back to what was read. */
  lemma HeaderSound(s: seq<u8>)
    requires TakeHeader(s).Success?
    ensures var (h, rest) := TakeHeader(s).value; CanonicalHeader(h) && s == EncodeHeader(h) + rest
  {
    hide TakeLittle, TakeParents, TakeTail, LittleEndianBytes, IdBytes, TailBytes, CanonicalIds, Fits;
    LittleSound(s, 2);
    var version := TakeLittle(s, 2).value;
    ParentsSound(version.1);
    var parents := TakeParents(version.1).value;
    TailSound(parents.0, parents.1);
    var (h, rest) := TakeTail(parents.0, parents.1).value;
    Regroup(IdBytes(parents.0), TailBytes(h), rest);
    Regroup(LittleEndianBytes(VERSION_1, 2), IdBytes(parents.0) + TailBytes(h), rest);
  }

  lemma HeaderComplete(h: Header, rest: seq<u8>)
    requires CanonicalHeader(h)
    ensures TakeHeader(EncodeHeader(h) + rest) == Success((h, rest))
  {
    hide TakeLittle, TakeParents, TakeTail, LittleEndianBytes, IdBytes, TailBytes, CanonicalIds, Pow256;
    Regroup(LittleEndianBytes(VERSION_1, 2), IdBytes(h.parents) + TailBytes(h), rest);
    Regroup(IdBytes(h.parents), TailBytes(h), rest);
    U64Fits();
    LittleComplete(VERSION_1, 2, IdBytes(h.parents) + (TailBytes(h) + rest));
    ParentsComplete(h.parents, TailBytes(h) + rest);
    TailComplete(h, rest);
  }

  function DecodeHeader(s: seq<u8>): Result<Header, CodecError> {
    var header :- TakeHeader(s);
    if header.1 != [] then Failure(Trailing(|header.1|)) else Success(header.0)
  }

  /** Decoding a header accepts exactly the encodings of canonical headers. */
  lemma HeaderRoundTrips(s: seq<u8>, h: Header)
    ensures DecodeHeader(s).Success? ==>
              CanonicalHeader(DecodeHeader(s).value) && EncodeHeader(DecodeHeader(s).value) == s
    ensures CanonicalHeader(h) ==> DecodeHeader(EncodeHeader(h)) == Success(h)
  {
    hide TakeHeader, EncodeHeader, CanonicalHeader;
    if DecodeHeader(s).Success? {
      HeaderSound(s);
      var h := DecodeHeader(s).value;
      assert EncodeHeader(h) + [] == EncodeHeader(h);
    }
    if CanonicalHeader(h) {
      HeaderComplete(h, []);
      assert EncodeHeader(h) + [] == EncodeHeader(h);
    }
  }

  // ----- blocks

  type Keccak = seq<u8> -> Hash

  /** The commitment of a header to its payload. */
  function PayloadRoot(keccak: Keccak, ids: seq<Hash>): Hash {
    keccak(IdBytes(ids))
  }

  function EncodeBlock(b: WireBlock): seq<u8> {
    EncodeHeader(b.header) + IdBytes(b.txIds)
  }

  ghost predicate CanonicalBlock(keccak: Keccak, b: WireBlock) {
    && CanonicalHeader(b.header) && CanonicalIds(b.txIds, MAX_TXS)
    && b.header.payloadRoot == PayloadRoot(keccak, b.txIds)
  }

  function TakePayload(s: seq<u8>): Parsed<seq<Hash>> {
    var count :- TakeVarint(s);
    if count.0 > MAX_TXS then Failure(TooManyTransactions(count.0))
    else
      var ids :- TakeMany(TakeHash, count.1, count.0);
      if !AscendingIds(ids.0) then Failure(UnsortedTransactions) else Success(ids)
  }

  function DecodeBlock(keccak: Keccak, s: seq<u8>): Result<WireBlock, CodecError> {
    var header :- TakeHeader(s);
    var ids :- TakePayload(header.1);
    var computed := PayloadRoot(keccak, ids.0);
    if ids.1 != [] then Failure(Trailing(|ids.1|))
    else if computed != header.0.payloadRoot then
      Failure(CodecError.PayloadRootMismatch(header.0.payloadRoot, computed))
    else Success(WireBlock(header.0, ids.0))
  }

  lemma PayloadSound(s: seq<u8>)
    requires TakePayload(s).Success?
    ensures var (ids, rest) := TakePayload(s).value; CanonicalIds(ids, MAX_TXS) && s == IdBytes(ids) + rest
  {
    hide TakeVarint, TakeMany, TakeHash, IdBytes, CanonicalHash, AscendingIds;
    VarintSound(s);
    var count := TakeVarint(s).value;
    IdsSound(count.1, count.0);
  }

  lemma PayloadComplete(ids: seq<Hash>, rest: seq<u8>)
    requires CanonicalIds(ids, MAX_TXS)
    ensures TakePayload(IdBytes(ids) + rest) == Success((ids, rest))
  {
    hide TakeVarint, TakeMany, TakeHash, IdBytes, CanonicalHash, AscendingIds;
    IdsComplete(ids, rest);
    VarintComplete(|ids|, Many(EncodeHash, ids) + rest);
  }

  /** What decodes is canonical and encodes back to its bytes; what is canonical decodes back to itself. */
  lemma BlockRoundTrips(keccak: Keccak, s: seq<u8>, b: WireBlock)
    ensures DecodeBlock(keccak, s).Success? ==>
              CanonicalBlock(keccak, DecodeBlock(keccak, s).value) && EncodeBlock(DecodeBlock(keccak, s).value) == s
    ensures CanonicalBlock(keccak, b) ==> DecodeBlock(keccak, EncodeBlock(b)) == Success(b)
  {
    hide TakeHeader, EncodeHeader, CanonicalHeader, TakePayload, IdBytes, CanonicalIds;
    if DecodeBlock(keccak, s).Success? {
      HeaderSound(s);
      var header := TakeHeader(s).value;
      PayloadSound(header.1);
      var ids := TakePayload(header.1).value;
      assert IdBytes(ids.0) + [] == IdBytes(ids.0);
    }
    if CanonicalBlock(keccak, b) {
      HeaderComplete(b.header, IdBytes(b.txIds));
      PayloadComplete(b.txIds, []);
      assert IdBytes(b.txIds) + [] == IdBytes(b.txIds);
    }
  }

  /** No two canonical headers, and no two canonical blocks, share an encoding. */
  lemma EncodingsAreInjective(keccak: Keccak, h: Header, h': Header, b: WireBlock, b': WireBlock)
    ensures CanonicalHeader(h) && CanonicalHeader(h') && EncodeHeader(h) == EncodeHeader(h') ==> h == h'
    ensures CanonicalBlock(keccak, b) && CanonicalBlock(keccak, b') && EncodeBlock(b) == EncodeBlock(b') ==> b == b'
  {
    hide *;
    HeaderRoundTrips([], h);
    HeaderRoundTrips([], h');
    BlockRoundTrips(keccak, [], b);
    BlockRoundTrips(keccak, [], b');
  }

  // ----- the encoders and the decoders

  method WriteIds(w: Writer, ids: seq<Hash>)
    requires |ids| <= U64_MAX
    modifies w
    ensures w.out == old(w.out) + IdBytes(ids)
  {
    hide Varint, BigEndianBytes;
    w.WriteVarint(|ids|);
    ghost var start := w.out;
    assert start + [] == start;
    for i := 0 to |ids|
      invariant w.out == start + Many(EncodeHash, ids[..i])
    {
      w.WriteBig(ids[i], 32);
      assert ids[..i + 1] == ids[..i] + [ids[i]];
      ManyAppend(EncodeHash, ids[..i], ids[i]);
      Regroup(start, Many(EncodeHash, ids[..i]), EncodeHash(ids[i]));
    }
    assert ids[..|ids|] == ids;
    Regroup(old(w.out), Varint(|ids|), Many(EncodeHash, ids));
  }

  method WriteHeader(h: Header) returns (bytes: seq<u8>)
    requires |h.parents| <= U64_MAX
    ensures bytes == EncodeHeader(h)
  {
    hide IdBytes, LittleEndianBytes, BigEndianBytes;
    var w := new Writer();
    w.WriteLittle(VERSION_1, 2);
    assert [] + LittleEndianBytes(VERSION_1, 2) == LittleEndianBytes(VERSION_1, 2);
    WriteIds(w, h.parents);
    ghost var front := w.out;
    w.WriteLittle(h.height, 8);
    w.WriteLittle(h.timestamp, 8);
    w.WriteLittle(h.nonce, 8);
    w.WriteBig(h.payloadRoot, 32);
    Chain4(front, LittleEndianBytes(h.height, 8), LittleEndianBytes(h.timestamp, 8), LittleEndianBytes(h.nonce, 8),
           BigEndianBytes(h.payloadRoot, 32));
    Regroup(LittleEndianBytes(VERSION_1, 2), IdBytes(h.parents), TailBytes(h));
    bytes := w.out;
  }

  method WriteBlock(b: WireBlock) returns (bytes: seq<u8>)
    requires |b.header.parents| <= U64_MAX && |b.txIds| <= U64_MAX
    ensures bytes == EncodeBlock(b)
  {
    hide IdBytes, EncodeHeader;
    bytes := WriteHeader(b.header);
    var w := new Writer();
    WriteIds(w, b.txIds);
    assert [] + IdBytes(b.txIds) == IdBytes(b.txIds);
    bytes := bytes + w.out;
  }

  /** The announced number of ids. */
  method ReadIds(r: Reader, count: nat) returns (ids: Result<seq<Hash>, CodecError>)
    requires r.Valid()
    modifies r
    ensures r.Valid() && Follows(TakeMany(TakeHash, old(r.Rest()), count), ids, r.Rest())
  {
    hide TakeMany, TakeBig, Reader.Rest, Reader.Valid, Continues;
    var got: seq<Hash> := [];
    ghost var whole := TakeMany(TakeHash, r.Rest(), count);
    ContinuesStart(TakeHash, r.Rest(), count);
    for i := 0 to count
      invariant r.Valid() && Continues(TakeHash, whole, got, r.Rest(), count - i)
    {
      ContinuesStep(TakeHash, whole, got, r.Rest(), count - i);
      var id :- r.ReadBig(32);
      got := got + [id];
    }
    ContinuesEnd(TakeHash, whole, got, r.Rest());
    ids := Success(got);
  }

  method CheckAscending(ids: seq<Hash>) returns (sorted: bool)
    ensures sorted == AscendingIds(ids)
  {
    var i := 1;
    while i < |ids|
      invariant forall j | 0 < j < i && j < |ids| :: ids[j - 1] < ids[j]
    {
      if ids[i - 1] >= ids[i] {
        return false;
      }
      i := i + 1;
    }
    sorted := true;
  }

  /** Reads a header from an open reader, leaving it after the header. */
  method ReadHeader(r: Reader) returns (header: Result<Header, CodecError>)
    requires r.Valid()
    modifies r
    ensures r.Valid() && Follows(TakeHeader(old(r.Rest())), header, r.Rest())
  {
    hide TakeLittle, TakeBig, TakeVarint, TakeMany, Reader.Rest, Reader.Valid, AscendingIds;
    var version :- r.ReadLittle(2);
    if version != VERSION_1 {
      return Failure(InvalidVersion(version));
    }
    var count :- r.ReadVarint();
    if count == 0 {
      return Failure(NoParents);
    }
    if count > MAX_PARENTS {
      return Failure(TooManyParents(count));
    }
    var parents :- ReadIds(r, count);
    var sorted := CheckAscending(parents);
    if !sorted {
      return Failure(UnsortedParents);
    }
    header := ReadTail(r, parents);
  }

  method ReadTail(r: Reader, parents: seq<Hash>) returns (header: Result<Header, CodecError>)
    requires r.Valid()
    modifies r
    ensures r.Valid() && Follows(TakeTail(parents, old(r.Rest())), header, r.Rest())
  {
    hide TakeLittle, TakeBig, Reader.Rest, Reader.Valid;
    var height :- r.ReadLittle(8);
    var timestamp :- r.ReadLittle(8);
    var nonce :- r.ReadLittle(8);
    var payloadRoot :- r.ReadBig(32);
    header := Success(Header(parents, height, timestamp, nonce, payloadRoot));
  }

  /** Strictly decodes a header. */
  method ReadWholeHeader(bytes: seq<u8>) returns (header: Result<Header, CodecError>)
    ensures header == DecodeHeader(bytes)
  {
    hide TakeHeader;
    var r := new Reader(bytes);
    var read :- ReadHeader(r);
    var left := r.Finish();
    header := if left.Some? then Failure(left.value) else Success(read);
  }

  /** Strictly decodes a block: the first violation found, or the one block these bytes encode. */
  method ReadBlock(keccak: Keccak, bytes: seq<u8>) returns (block: Result<WireBlock, CodecError>)
    ensures block == DecodeBlock(keccak, bytes)
  {
    hide TakeHeader, TakeVarint, TakeMany, Reader.Rest, Reader.Valid, AscendingIds, PayloadRoot;
    var r := new Reader(bytes);
    var header :- ReadHeader(r);
    var count :- r.ReadVarint();
    if count > MAX_TXS {
      return Failure(TooManyTransactions(count));
    }
    var txIds :- ReadIds(r, count);
    var sorted := CheckAscending(txIds);
    if !sorted {
      return Failure(UnsortedTransactions);
    }
    var left := r.Finish();
    if left.Some? {
      return Failure(left.value);
    }
    var computed := PayloadRoot(keccak, txIds);
    if computed != header.payloadRoot {
      return Failure(CodecError.PayloadRootMismatch(header.payloadRoot, computed));
    }
    block := Success(WireBlock(header, txIds));
  }
}
