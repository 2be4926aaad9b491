/**
 The canonical encoding of version 1 transactions: decoding accepts exactly the encodings of canonical
 transactions, so encodings are injective and transaction ids are not malleable.
 */
module TxCodec {
  import opened Wrappers
  import opened Words
  import opened Ranking
  import opened Transactions
  import opened Wire

  const VERSION_1: nat := 1
  const MAX_INPUTS: nat := 64
  const MAX_OUTPUTS: nat := 32
  const MAX_EXTRA_LEN: nat := 512

  /** What the codec takes from outside: the digest, and which 32-byte strings decode to curve points. */
  datatype Primitives = Primitives(keccak: seq<u8> -> Hash, isKey: PublicKey -> bool)

  // ----- tags

  function Tag(t: TxType): u8 {
    match t
    case Transfer => 0
    case Coinbase => 6
    case Mandate => 1
    case IdentityRegistration => 2
    case KleosAttestation => 3
    case GovernanceVote => 4
    case Checkpoint => 5
  }

  /** A tag names one type, and every type has one. */
  function FromTag(tag: u8): (t: Option<TxType>)
    ensures t.Some? <==> tag <= 6
    ensures t.Some? ==> Tag(t.value) == tag
  {
    if tag == 0 then Some(Transfer)
    else if tag == 1 then Some(Mandate)
    else if tag == 2 then Some(IdentityRegistration)
    else if tag == 3 then Some(KleosAttestation)
    else if tag == 4 then Some(GovernanceVote)
    else if tag == 5 then Some(Checkpoint)
    else if tag == 6 then Some(Coinbase)
    else None
  }

  function Prefix(network: Network): u8 {
    match network
    case Mainnet => 65
    case Testnet => 84
    case Devnet => 68
  }

  function FromPrefix(prefix: u8): (network: Option<Network>)
    ensures network.Some? ==> Prefix(network.value) == prefix
    ensures network.None? ==> prefix != 65 && prefix != 84 && prefix != 68
  {
    if prefix == 65 then Some(Mainnet) else if prefix == 84 then Some(Testnet) else if prefix == 68 then Some(Devnet)
    else None
  }

  // ----- addresses

  function CheckedPart(a: Address): (bytes: seq<u8>)
    ensures |bytes| == 65
  {
    [Prefix(a.network)] + (BigEndianBytes(a.spend, 32) + BigEndianBytes(a.view, 32))
  }

  /** The first four bytes of the digest of the checked part. */
  function Checksum(p: Primitives, a: Address): (bytes: seq<u8>)
    ensures |bytes| == 4
  {
    BigEndianBytes(p.keccak(CheckedPart(a)), 32)[..4]
  }

  function EncodeAddress(p: Primitives, a: Address): (bytes: seq<u8>)
    ensures |bytes| == 69
  {
    CheckedPart(a) + Checksum(p, a)
  }

  predicate CanonicalAddress(p: Primitives, a: Address) {
    Fits(a.spend, 32) && p.isKey(a.spend) && Fits(a.view, 32) && p.isKey(a.view)
  }

  function DecodeAddress(p: Primitives, raw: seq<u8>): Result<Address, CodecError> {
    if |raw| != 69 then Failure(InvalidAddress)
    else
      var network := FromPrefix(raw[0]);
      if network.None? then Failure(InvalidAddress)
      else
        var spend := BigEndian(raw[1..33]);
        var view := BigEndian(raw[33..65]);
        var candidate := Address(network.value, spend, view);
        if !p.isKey(spend) || !p.isKey(view) || Checksum(p, candidate) != raw[65..69] then Failure(InvalidAddress)
        else Success(candidate)
  }

  lemma AddressSound(p: Primitives, raw: seq<u8>)
    requires DecodeAddress(p, raw).Success?
    ensures CanonicalAddress(p, DecodeAddress(p, raw).value) && EncodeAddress(p, DecodeAddress(p, raw).value) == raw
  {
    hide Checksum, BigEndian, BigEndianBytes;
    BytesOfBigEndian(raw[1..33]);
    BytesOfBigEndian(raw[33..65]);
    assert raw == [raw[0]] + (raw[1..33] + raw[33..65]) + raw[65..69];
  }

  lemma AddressComplete(p: Primitives, a: Address)
    requires CanonicalAddress(p, a)
    ensures DecodeAddress(p, EncodeAddress(p, a)) == Success(a)
  {
    hide Checksum, BigEndian, BigEndianBytes;
    var raw := EncodeAddress(p, a);
    assert raw[1..33] == BigEndianBytes(a.spend, 32) && raw[33..65] == BigEndianBytes(a.view, 32);
    assert raw[65..69] == Checksum(p, a);
    BigEndianOfBytes(a.spend, 32);
    BigEndianOfBytes(a.view, 32);
  }

  function TakeAddress(p: Primitives, s: seq<u8>): Parsed<Address> {
    if |s| < 69 then Failure(Eof)
    else
      var a :- DecodeAddress(p, s[..69]);
      Success((a, s[69..]))
  }

  // ----- inputs

  function EncodeIn(i: TxIn): seq<u8> {
    BigEndianBytes(i.output.tx, 32) +
    (LittleEndianBytes(i.output.index, 4) + (BigEndianBytes(i.key, 32) + BigEndianBytes(i.signature, 64)))
  }

  predicate CanonicalIn(p: Primitives, i: TxIn) {
    Fits(i.output.tx, 32) && Fits(i.output.index, 4) && Fits(i.key, 32) && p.isKey(i.key) && Fits(i.signature, 64)
  }

  function TakeIn(p: Primitives, s: seq<u8>): Parsed<TxIn> {
    var tx :- TakeBig(s, 32);
    var index :- TakeLittle(tx.1, 4);
    var key :- TakeBig(index.1, 32);
    if !p.isKey(key.0) then Failure(InvalidAddress)
    else
      var signature :- TakeBig(key.1, 64);
      Success((TxIn(OutputRef(tx.0, index.0), key.0, signature.0), signature.1))
  }

  function InRule(p: Primitives): TxIn -> bool {
    (i: TxIn) => CanonicalIn(p, i)
  }

  function InParser(p: Primitives): seq<u8> -> Parsed<TxIn> {
    (s: seq<u8>) => TakeIn(p, s)
  }

  lemma InSound(p: Primitives, s: seq<u8>)
    requires TakeIn(p, s).Success?
    ensures CanonicalIn(p, TakeIn(p, s).value.0) && s == EncodeIn(TakeIn(p, s).value.0) + TakeIn(p, s).value.1
  {
    hide TakeBig, TakeLittle, Fits, BigEndianBytes, LittleEndianBytes;
    var tx := TakeBig(s, 32).value;
    BigSound(s, 32);
    var index := TakeLittle(tx.1, 4).value;
    LittleSound(tx.1, 4);
    var key := TakeBig(index.1, 32).value;
    BigSound(index.1, 32);
    var signature := TakeBig(key.1, 64).value;
    BigSound(key.1, 64);
    Regroup4(BigEndianBytes(tx.0, 32), LittleEndianBytes(index.0, 4), BigEndianBytes(key.0, 32),
             BigEndianBytes(signature.0, 64), signature.1);
  }

  lemma InComplete(p: Primitives, i: TxIn, rest: seq<u8>)
    requires CanonicalIn(p, i)
    ensures TakeIn(p, EncodeIn(i) + rest) == Success((i, rest))
  {
    hide TakeBig, TakeLittle, Fits, BigEndianBytes, LittleEndianBytes;
    var tx, index := BigEndianBytes(i.output.tx, 32), LittleEndianBytes(i.output.index, 4);
    var key, signature := BigEndianBytes(i.key, 32), BigEndianBytes(i.signature, 64);
    Regroup4(tx, index, key, signature, rest);
    BigComplete(i.output.tx, 32, index + (key + (signature + rest)));
    LittleComplete(i.output.index, 4, key + (signature + rest));
    BigComplete(i.key, 32, signature + rest);
    BigComplete(i.signature, 64, rest);
  }

  lemma InLawful(p: Primitives)
    ensures Lawful(EncodeIn, InRule(p), InParser(p))
  {
    hide EncodeIn, CanonicalIn, TakeIn;
    forall s | InParser(p)(s).Success?
      ensures InRule(p)(InParser(p)(s).value.0) && s == EncodeIn(InParser(p)(s).value.0) + InParser(p)(s).value.1
    {
      InSound(p, s);
    }
    forall i, rest {:trigger EncodeIn(i) + rest} | InRule(p)(i)
      ensures InParser(p)(EncodeIn(i) + rest) == Success((i, rest))
    {
      InComplete(p, i, rest);
    }
  }

  // ----- outputs

  function EncodeOut(p: Primitives, o: TxOut): seq<u8> {
    EncodeAddress(p, o.address) + U64Bytes(o.amount)
  }

  predicate CanonicalOut(p: Primitives, o: TxOut) {
    CanonicalAddress(p, o.address)
  }

  function TakeOut(p: Primitives, s: seq<u8>): Parsed<TxOut> {
    var address :- TakeAddress(p, s);
    var amount :- TakeU64(address.1);
    Success((TxOut(address.0, amount.0), amount.1))
  }

  function OutEncoder(p: Primitives): TxOut -> seq<u8> {
    (o: TxOut) => EncodeOut(p, o)
  }

  function OutRule(p: Primitives): TxOut -> bool {
    (o: TxOut) => CanonicalOut(p, o)
  }

  function OutParser(p: Primitives): seq<u8> -> Parsed<TxOut> {
    (s: seq<u8>) => TakeOut(p, s)
  }

  lemma OutSound(p: Primitives, s: seq<u8>)
    requires TakeOut(p, s).Success?
    ensures CanonicalOut(p, TakeOut(p, s).value.0) && s == EncodeOut(p, TakeOut(p, s).value.0) + TakeOut(p, s).value.1
  {
    hide DecodeAddress, EncodeAddress, CanonicalAddress, TakeU64, U64Bytes;
    AddressSound(p, s[..69]);
    var rest := s[69..];
    U64Sound(rest);
    var amount := TakeU64(rest).value;
    assert s == s[..69] + rest;
    Regroup(s[..69], U64Bytes(amount.0), amount.1);
  }

  lemma OutComplete(p: Primitives, o: TxOut, rest: seq<u8>)
    requires CanonicalOut(p, o)
    ensures TakeOut(p, EncodeOut(p, o) + rest) == Success((o, rest))
  {
    hide DecodeAddress, EncodeAddress, CanonicalAddress, TakeU64, U64Bytes;
    var address, amount := EncodeAddress(p, o.address), U64Bytes(o.amount);
    Regroup(address, amount, rest);
    var s := address + (amount + rest);
    assert s[..69] == address && s[69..] == amount + rest;
    AddressComplete(p, o.address);
    U64Complete(o.amount, rest);
  }

  lemma OutLawful(p: Primitives)
    ensures Lawful(OutEncoder(p), OutRule(p), OutParser(p))
  {
    hide EncodeOut, CanonicalOut, TakeOut;
    forall s | OutParser(p)(s).Success?
      ensures OutRule(p)(OutParser(p)(s).value.0)
              && s == OutEncoder(p)(OutParser(p)(s).value.0) + OutParser(p)(s).value.1
    {
      OutSound(p, s);
    }
    forall o, rest {:trigger OutEncoder(p)(o) + rest} | OutRule(p)(o)
      ensures OutParser(p)(OutEncoder(p)(o) + rest) == Success((o, rest))
    {
      OutComplete(p, o, rest);
    }
  }

  // ----- transactions

  function EncodeTransaction(p: Primitives, t: Transaction): seq<u8>
    requires |t.inputs| <= U64_MAX && |t.outputs| <= U64_MAX && |t.extra| <= U64_MAX
  {
    LittleEndianBytes(VERSION_1, 2) +
    ([Tag(t.txType)] +
     (U64Bytes(t.fee) +
      (Varint(|t.inputs|) +
       (Many(EncodeIn, t.inputs) +
        (Varint(|t.outputs|) + (Many(OutEncoder(p), t.outputs) + Prefixed(t.extra)))))))
  }

  predicate RefBefore(a: OutputRef, b: OutputRef) {
    a.tx < b.tx || (a.tx == b.tx && a.index < b.index)
  }

  predicate AscendingInputs(inputs: seq<TxIn>) {
    forall i | 0 < i < |inputs| :: RefBefore(inputs[i - 1].output, inputs[i].output)
  }

  /** The transactions a decoder may return. */
  predicate CanonicalTransaction(p: Primitives, t: Transaction) {
    && (t.txType.Transfer? || t.txType.Coinbase?)
    && |t.inputs| <= MAX_INPUTS && (forall i | i in t.inputs :: CanonicalIn(p, i)) && AscendingInputs(t.inputs)
    && |t.outputs| <= MAX_OUTPUTS && (forall o | o in t.outputs :: CanonicalOut(p, o))
    && |t.extra| <= MAX_EXTRA_LEN
  }

  /** The version, the type and the fee. */
  function TakeTxHead(s: seq<u8>): Parsed<(TxType, u64)> {
    var version :- TakeLittle(s, 2);
    if version.0 != VERSION_1 then Failure(InvalidVersion(version.0))
    else
      var tag :- TakeByte(version.1);
      var t := FromTag(tag.0);
      if t.None? then Failure(UnknownType(tag.0))
      else if !t.value.Transfer? && !t.value.Coinbase? then Failure(UnsupportedType(tag.0))
      else
        var fee :- TakeU64(tag.1);
        Success(((t.value, fee.0), fee.1))
  }

  function TakeInputs(p: Primitives, s: seq<u8>): Parsed<seq<TxIn>> {
    var count :- TakeVarint(s);
    if count.0 > MAX_INPUTS then Failure(TooManyInputs(count.0))
    else
      var inputs :- TakeMany(InParser(p), count.1, count.0);
      if !AscendingInputs(inputs.0) then Failure(UnsortedInputs) else Success(inputs)
  }

  function TakeOutputs(p: Primitives, s: seq<u8>): Parsed<seq<TxOut>> {
    var count :- TakeVarint(s);
    if count.0 > MAX_OUTPUTS then Failure(TooManyOutputs(count.0)) else TakeMany(OutParser(p), count.1, count.0)
  }

  function DecodeTransaction(p: Primitives, s: seq<u8>): Result<Transaction, CodecError> {
    var head :- TakeTxHead(s);
    var inputs :- TakeInputs(p, head.1);
    var outputs :- TakeOutputs(p, inputs.1);
    var extra :- TakePrefixed(outputs.1);
    if |extra.0| > MAX_EXTRA_LEN then Failure(ExtraTooLarge(|extra.0|))
    else if extra.1 != [] then Failure(Trailing(|extra.1|))
    else Success(Transaction(head.0.0, head.0.1, inputs.0, outputs.0, extra.0))
  }

  function HeadBytes(t: TxType, fee: u64): seq<u8> {
    LittleEndianBytes(VERSION_1, 2) + ([Tag(t)] + U64Bytes(fee))
  }

  function InputBytes(inputs: seq<TxIn>): seq<u8> {
    Varint(|inputs|) + Many(EncodeIn, inputs)
  }

  function OutputBytes(p: Primitives, outputs: seq<TxOut>): seq<u8> {
    Varint(|outputs|) + Many(OutEncoder(p), outputs)
  }

  lemma HeadSound(s: seq<u8>)
    requires TakeTxHead(s).Success?
    ensures var ((t, fee), rest) := TakeTxHead(s).value;
            (t.Transfer? || t.Coinbase?) && s == HeadBytes(t, fee) + rest
  {
    hide TakeLittle, TakeByte, TakeU64, LittleEndianBytes, U64Bytes;
    LittleSound(s, 2);
    var version := TakeLittle(s, 2).value;
    ByteSound(version.1);
    var tag := TakeByte(version.1).value;
    U64Sound(tag.1);
    var fee := TakeU64(tag.1).value;
    Regroup([tag.0], U64Bytes(fee.0), fee.1);
    Regroup(LittleEndianBytes(VERSION_1, 2), [tag.0] + U64Bytes(fee.0), fee.1);
  }

  lemma HeadComplete(t: TxType, fee: u64, rest: seq<u8>)
    requires t.Transfer? || t.Coinbase?
    ensures TakeTxHead(HeadBytes(t, fee) + rest) == Success(((t, fee), rest))
  {
    hide TakeLittle, TakeByte, TakeU64, LittleEndianBytes, U64Bytes, Pow256;
    var version := LittleEndianBytes(VERSION_1, 2);
    Regroup(version, [Tag(t)] + U64Bytes(fee), rest);
    Regroup([Tag(t)], U64Bytes(fee), rest);
    U64Fits();
    LittleComplete(VERSION_1, 2, [Tag(t)] + (U64Bytes(fee) + rest));
    ByteComplete(Tag(t), U64Bytes(fee) + rest);
    U64Complete(fee, rest);
  }

  lemma InputsSound(p: Primitives, s: seq<u8>)
    requires TakeInputs(p, s).Success?
    ensures var (inputs, rest) := TakeInputs(p, s).value;
            && |inputs| <= MAX_INPUTS && AscendingInputs(inputs) && (forall i | i in inputs :: CanonicalIn(p, i))
            && s == InputBytes(inputs) + rest
  {
    hide TakeVarint, Varint, TakeIn, CanonicalIn, EncodeIn, AscendingInputs, TakeMany, Many;
    VarintSound(s);
    var count := TakeVarint(s).value;
    InLawful(p);
    ManySound(EncodeIn, InRule(p), InParser(p), count.1, count.0);
    var (inputs, rest) := TakeMany(InParser(p), count.1, count.0).value;
    Regroup(Varint(count.0), Many(EncodeIn, inputs), rest);
    forall i | i in inputs ensures CanonicalIn(p, i) {
      assert InRule(p)(i);
    }
  }

  lemma InputsComplete(p: Primitives, inputs: seq<TxIn>, rest: seq<u8>)
    requires |inputs| <= MAX_INPUTS && AscendingInputs(inputs) && forall i | i in inputs :: CanonicalIn(p, i)
    ensures TakeInputs(p, InputBytes(inputs) + rest) == Success((inputs, rest))
  {
    hide TakeVarint, Varint, TakeIn, CanonicalIn, EncodeIn, AscendingInputs, TakeMany, Many;
    Regroup(Varint(|inputs|), Many(EncodeIn, inputs), rest);
    VarintComplete(|inputs|, Many(EncodeIn, inputs) + rest);
    InLawful(p);
    ManyComplete(EncodeIn, InRule(p), InParser(p), inputs, rest);
  }

  lemma OutputsSound(p: Primitives, s: seq<u8>)
    requires TakeOutputs(p, s).Success?
    ensures var (outputs, rest) := TakeOutputs(p, s).value;
            && |outputs| <= MAX_OUTPUTS && (forall o | o in outputs :: CanonicalOut(p, o))
            && s == OutputBytes(p, outputs) + rest
  {
    hide TakeVarint, Varint, TakeOut, CanonicalOut, EncodeOut, TakeMany, Many;
    VarintSound(s);
    var count := TakeVarint(s).value;
    OutLawful(p);
    ManySound(OutEncoder(p), OutRule(p), OutParser(p), count.1, count.0);
    var (outputs, rest) := TakeMany(OutParser(p), count.1, count.0).value;
    Regroup(Varint(count.0), Many(OutEncoder(p), outputs), rest);
    forall o | o in outputs ensures CanonicalOut(p, o) {
      assert OutRule(p)(o);
    }
  }

  lemma OutputsComplete(p: Primitives, outputs: seq<TxOut>, rest: seq<u8>)
    requires |outputs| <= MAX_OUTPUTS && forall o | o in outputs :: CanonicalOut(p, o)
    ensures TakeOutputs(p, OutputBytes(p, outputs) + rest) == Success((outputs, rest))
  {
    hide TakeVarint, Varint, TakeOut, CanonicalOut, EncodeOut, TakeMany, Many;
    Regroup(Varint(|outputs|), Many(OutEncoder(p), outputs), rest);
    VarintComplete(|outputs|, Many(OutEncoder(p), outputs) + rest);
    OutLawful(p);
    ManyComplete(OutEncoder(p), OutRule(p), OutParser(p), outputs, rest);
  }

  /** The four parts of an encoding. */
  lemma TransactionParts(p: Primitives, t: Transaction)
    requires |t.inputs| <= U64_MAX && |t.outputs| <= U64_MAX && |t.extra| <= U64_MAX
    ensures EncodeTransaction(p, t) ==
            HeadBytes(t.txType, t.fee) + (InputBytes(t.inputs) + (OutputBytes(p, t.outputs) + (Prefixed(t.extra) + [])))
  {
    hide LittleEndianBytes, U64Bytes, Varint, Many, Prefixed, OutEncoder, Tag;
    var outs := Many(OutEncoder(p), t.outputs);
    Regroup(Varint(|t.outputs|), outs, Prefixed(t.extra));
    Regroup(Varint(|t.inputs|), Many(EncodeIn, t.inputs), Varint(|t.outputs|) + (outs + Prefixed(t.extra)));
    assert Prefixed(t.extra) + [] == Prefixed(t.extra);
    Regroup([Tag(t.txType)], U64Bytes(t.fee), InputBytes(t.inputs) + (OutputBytes(p, t.outputs) + Prefixed(t.extra)));
    Regroup(LittleEndianBytes(VERSION_1, 2), [Tag(t.txType)] + U64Bytes(t.fee),
            InputBytes(t.inputs) + (OutputBytes(p, t.outputs) + Prefixed(t.extra)));
  }

  /** What decodes is canonical, and encodes back to exactly the bytes it came from. */
  lemma DecodedTransactionReencodes(p: Primitives, s: seq<u8>)
    requires DecodeTransaction(p, s).Success?
    ensures var t := DecodeTransaction(p, s).value; CanonicalTransaction(p, t) && EncodeTransaction(p, t) == s
  {
    hide TakeTxHead, TakeInputs, TakeOutputs, TakePrefixed, HeadBytes, InputBytes, OutputBytes, Prefixed,
      EncodeTransaction, CanonicalIn, CanonicalOut, AscendingInputs;
    HeadSound(s);
    var head := TakeTxHead(s).value;
    InputsSound(p, head.1);
    var inputs := TakeInputs(p, head.1).value;
    OutputsSound(p, inputs.1);
    var outputs := TakeOutputs(p, inputs.1).value;
    PrefixedSound(outputs.1);
    TransactionParts(p, DecodeTransaction(p, s).value);
  }

  /** Every canonical transaction decodes back to itself. */
  lemma TransactionRoundTrips(p: Primitives, t: Transaction)
    requires CanonicalTransaction(p, t)
    ensures DecodeTransaction(p, EncodeTransaction(p, t)) == Success(t)
  {
    hide TakeTxHead, TakeInputs, TakeOutputs, TakePrefixed, HeadBytes, InputBytes, OutputBytes, Prefixed,
      EncodeTransaction, CanonicalIn, CanonicalOut, AscendingInputs;
    TransactionParts(p, t);
    var extra := Prefixed(t.extra) + [];
    HeadComplete(t.txType, t.fee, InputBytes(t.inputs) + (OutputBytes(p, t.outputs) + extra));
    InputsComplete(p, t.inputs, OutputBytes(p, t.outputs) + extra);
    OutputsComplete(p, t.outputs, extra);
    PrefixedComplete(t.extra, []);
  }

  /** No two canonical transactions share an encoding. */
  lemma EncodingIsInjective(p: Primitives, t: Transaction, u: Transaction)
    requires CanonicalTransaction(p, t) && CanonicalTransaction(p, u)
    requires EncodeTransaction(p, t) == EncodeTransaction(p, u)
    ensures t == u
  {
    hide DecodeTransaction, EncodeTransaction, CanonicalIn, CanonicalOut, AscendingInputs;
    TransactionRoundTrips(p, t);
    TransactionRoundTrips(p, u);
  }

  function TxId(p: Primitives, t: Transaction): Hash
    requires |t.inputs| <= U64_MAX && |t.outputs| <= U64_MAX && |t.extra| <= U64_MAX
  {
    p.keccak(EncodeTransaction(p, t))
  }

  /** Two canonical transactions share an id only through a collision of the digest. */
  lemma IdsCollideOnlyInDigest(p: Primitives, t: Transaction, u: Transaction)
    requires CanonicalTransaction(p, t) && CanonicalTransaction(p, u) && TxId(p, t) == TxId(p, u) && t != u
    ensures EncodeTransaction(p, t) != EncodeTransaction(p, u)
    ensures p.keccak(EncodeTransaction(p, t)) == p.keccak(EncodeTransaction(p, u))
  {
    hide EncodeTransaction, CanonicalIn, CanonicalOut, AscendingInputs;
    if EncodeTransaction(p, t) == EncodeTransaction(p, u) {
      EncodingIsInjective(p, t, u);
    }
  }

  // ----- signing messages

  function Unsigned(i: TxIn): TxIn {
    i.(signature := 0)
  }

  function UnsignedInputs(inputs: seq<TxIn>): (r: seq<TxIn>)
    ensures |r| == |inputs| && forall i | 0 <= i < |r| :: r[i] == Unsigned(inputs[i])
  {
    if inputs == [] then [] else [Unsigned(inputs[0])] + UnsignedInputs(inputs[1..])
  }

  /** What every input signature covers: the encoding with all signatures zeroed. */
  function SigningMessage(p: Primitives, t: Transaction): seq<u8>
    requires |t.inputs| <= U64_MAX && |t.outputs| <= U64_MAX && |t.extra| <= U64_MAX
  {
    EncodeTransaction(p, t.(inputs := UnsignedInputs(t.inputs)))
  }

  lemma UnsignedIsCanonical(p: Primitives, t: Transaction)
    requires CanonicalTransaction(p, t)
    ensures CanonicalTransaction(p, t.(inputs := UnsignedInputs(t.inputs)))
  {
    hide CanonicalOut, Pow256;
    var inputs := UnsignedInputs(t.inputs);
    forall i | i in inputs ensures CanonicalIn(p, i) {
      var k :| 0 <= k < |inputs| && inputs[k] == i;
      assert t.inputs[k] in t.inputs && CanonicalIn(p, t.inputs[k]);
    }
  }

  /** The signatures cover everything else: equal signing messages differ in signatures alone. */
  lemma SigningMessageBinds(p: Primitives, t: Transaction, u: Transaction)
    requires CanonicalTransaction(p, t) && CanonicalTransaction(p, u)
    ensures SigningMessage(p, t) == SigningMessage(p, u) <==>
            t.(inputs := UnsignedInputs(t.inputs)) == u.(inputs := UnsignedInputs(u.inputs))
  {
    hide CanonicalTransaction, EncodeTransaction;
    UnsignedIsCanonical(p, t);
    UnsignedIsCanonical(p, u);
    CanonicalSizes(p, t);
    CanonicalSizes(p, u);
    if SigningMessage(p, t) == SigningMessage(p, u) {
      EncodingIsInjective(p, t.(inputs := UnsignedInputs(t.inputs)), u.(inputs := UnsignedInputs(u.inputs)));
    }
  }

  lemma CanonicalSizes(p: Primitives, t: Transaction)
    requires CanonicalTransaction(p, t)
    ensures |t.inputs| <= MAX_INPUTS && |t.outputs| <= MAX_OUTPUTS && |t.extra| <= MAX_EXTRA_LEN
  {
  }

  // ----- the encoder and the decoder

  method WriteIn(w: Writer, i: TxIn)
    modifies w
    ensures w.out == old(w.out) + EncodeIn(i)
  {
    hide BigEndianBytes, LittleEndianBytes;
    w.WriteBig(i.output.tx, 32);
    w.WriteLittle(i.output.index, 4);
    w.WriteBig(i.key, 32);
    w.WriteBig(i.signature, 64);
    Chain4(old(w.out), BigEndianBytes(i.output.tx, 32), LittleEndianBytes(i.output.index, 4),
           BigEndianBytes(i.key, 32), BigEndianBytes(i.signature, 64));
  }

  method WriteOut(p: Primitives, w: Writer, o: TxOut)
    modifies w
    ensures w.out == old(w.out) + EncodeOut(p, o)
  {
    hide EncodeAddress, LittleEndianBytes;
    w.Extend(EncodeAddress(p, o.address));
    w.WriteLittle(o.amount, 8);
    Regroup(old(w.out), EncodeAddress(p, o.address), U64Bytes(o.amount));
  }

  method WriteInputs(w: Writer, inputs: seq<TxIn>)
    requires |inputs| <= U64_MAX
    modifies w
    ensures w.out == old(w.out) + InputBytes(inputs)
  {
    hide EncodeIn, Varint;
    w.WriteVarint(|inputs|);
    ghost var start := w.out;
    assert start + [] == start;
    for i := 0 to |inputs|
      invariant w.out == start + Many(EncodeIn, inputs[..i])
    {
      WriteIn(w, inputs[i]);
      assert inputs[..i + 1] == inputs[..i] + [inputs[i]];
      ManyAppend(EncodeIn, inputs[..i], inputs[i]);
      Regroup(start, Many(EncodeIn, inputs[..i]), EncodeIn(inputs[i]));
    }
    assert inputs[..|inputs|] == inputs;
    Regroup(old(w.out), Varint(|inputs|), Many(EncodeIn, inputs));
  }

  method WriteOutputs(p: Primitives, w: Writer, outputs: seq<TxOut>)
    requires |outputs| <= U64_MAX
    modifies w
    ensures w.out == old(w.out) + OutputBytes(p, outputs)
  {
    hide EncodeOut, Varint;
    w.WriteVarint(|outputs|);
    ghost var start := w.out;
    assert start + [] == start;
    for i := 0 to |outputs|
      invariant w.out == start + Many(OutEncoder(p), outputs[..i])
    {
      WriteOut(p, w, outputs[i]);
      assert outputs[..i + 1] == outputs[..i] + [outputs[i]];
      ManyAppend(OutEncoder(p), outputs[..i], outputs[i]);
      Regroup(start, Many(OutEncoder(p), outputs[..i]), EncodeOut(p, outputs[i]));
    }
    assert outputs[..|outputs|] == outputs;
    Regroup(old(w.out), Varint(|outputs|), Many(OutEncoder(p), outputs));
  }

  /** The canonical encoding, field by field. */
  method Encode(p: Primitives, t: Transaction) returns (bytes: seq<u8>)
    requires |t.inputs| <= U64_MAX && |t.outputs| <= U64_MAX && |t.extra| <= U64_MAX
    ensures bytes == EncodeTransaction(p, t)
  {
    hide EncodeTransaction, InputBytes, OutputBytes, Prefixed, LittleEndianBytes, Tag;
    var w := new Writer();
    w.WriteLittle(VERSION_1, 2);
    w.Extend([Tag(t.txType)]);
    w.WriteLittle(t.fee, 8);
    assert [] + LittleEndianBytes(VERSION_1, 2) == LittleEndianBytes(VERSION_1, 2);
    Regroup(LittleEndianBytes(VERSION_1, 2), [Tag(t.txType)], U64Bytes(t.fee));
    assert w.out == HeadBytes(t.txType, t.fee);
    WriteInputs(w, t.inputs);
    WriteOutputs(p, w, t.outputs);
    w.WriteBytes(t.extra);
    TransactionParts(p, t);
    assert Prefixed(t.extra) + [] == Prefixed(t.extra);
    Regroup(HeadBytes(t.txType, t.fee) + InputBytes(t.inputs), OutputBytes(p, t.outputs), Prefixed(t.extra));
    Regroup(HeadBytes(t.txType, t.fee), InputBytes(t.inputs), OutputBytes(p, t.outputs) + Prefixed(t.extra));
    bytes := w.out;
  }

  method ReadHead(r: Reader) returns (head: Result<(TxType, u64), CodecError>)
    requires r.Valid()
    modifies r
    ensures r.Valid() && Follows(TakeTxHead(old(r.Rest())), head, r.Rest())
  {
    hide TakeLittle, TakeByte, TakeU64;
    var version :- r.ReadLittle(2);
    if version != VERSION_1 {
      return Failure(InvalidVersion(version));
    }
    var tag :- r.ReadByte();
    var t := FromTag(tag);
    if t.None? {
      return Failure(UnknownType(tag));
    }
    if !t.value.Transfer? && !t.value.Coinbase? {
      return Failure(UnsupportedType(tag));
    }
    var fee :- r.ReadU64();
    head := Success((t.value, fee));
  }

  method ReadIn(p: Primitives, r: Reader) returns (input: Result<TxIn, CodecError>)
    requires r.Valid()
    modifies r
    ensures r.Valid() && Follows(TakeIn(p, old(r.Rest())), input, r.Rest())
  {
    hide TakeBig, TakeLittle;
    var tx :- r.ReadBig(32);
    var index :- r.ReadLittle(4);
    var key :- r.ReadBig(32);
    if !p.isKey(key) {
      return Failure(InvalidAddress);
    }
    var signature :- r.ReadBig(64);
    input := Success(TxIn(OutputRef(tx, index), key, signature));
  }

  method ReadOut(p: Primitives, r: Reader) returns (output: Result<TxOut, CodecError>)
    requires r.Valid()
    modifies r
    ensures r.Valid() && Follows(TakeOut(p, old(r.Rest())), output, r.Rest())
  {
    hide DecodeAddress, TakeU64;
    var raw :- r.Take(69);
    var address :- DecodeAddress(p, raw);
    var amount :- r.ReadU64();
    output := Success(TxOut(address, amount));
  }

  method ReadInputs(p: Primitives, r: Reader) returns (read: Result<seq<TxIn>, CodecError>)
    requires r.Valid()
    modifies r
    ensures r.Valid() && Follows(TakeInputs(p, old(r.Rest())), read, r.Rest())
  {
    hide TakeVarint, TakeMany, TakeIn, Reader.Rest, Reader.Valid, AscendingInputs, Continues;
    var count :- r.ReadVarint();
    if count > MAX_INPUTS {
      return Failure(TooManyInputs(count));
    }
    var inputs: seq<TxIn> := [];
    ghost var whole := TakeMany(InParser(p), r.Rest(), count);
    ContinuesStart(InParser(p), r.Rest(), count);
    for i := 0 to count
      invariant r.Valid() && Continues(InParser(p), whole, inputs, r.Rest(), count - i)
    {
      ContinuesStep(InParser(p), whole, inputs, r.Rest(), count - i);
      var input :- ReadIn(p, r);
      inputs := inputs + [input];
    }
    ContinuesEnd(InParser(p), whole, inputs, r.Rest());
    var sorted := CheckAscending(inputs);
    if !sorted {
      return Failure(UnsortedInputs);
    }
    read := Success(inputs);
  }

  method CheckAscending(inputs: seq<TxIn>) returns (sorted: bool)
    ensures sorted == AscendingInputs(inputs)
  {
    var i := 1;
    while i < |inputs|
      invariant forall j | 0 < j < i && j < |inputs| :: RefBefore(inputs[j - 1].output, inputs[j].output)
    {
      if !RefBefore(inputs[i - 1].output, inputs[i].output) {
        return false;
      }
      i := i + 1;
    }
    sorted := true;
  }

  method ReadOutputs(p: Primitives, r: Reader) returns (read: Result<seq<TxOut>, CodecError>)
    requires r.Valid()
    modifies r
    ensures r.Valid() && Follows(TakeOutputs(p, old(r.Rest())), read, r.Rest())
  {
    hide TakeVarint, TakeMany, TakeOut, Reader.Rest, Reader.Valid, Continues;
    var count :- r.ReadVarint();
    if count > MAX_OUTPUTS {
      return Failure(TooManyOutputs(count));
    }
    var outputs: seq<TxOut> := [];
    ghost var whole := TakeMany(OutParser(p), r.Rest(), count);
    ContinuesStart(OutParser(p), r.Rest(), count);
    for i := 0 to count
      invariant r.Valid() && Continues(OutParser(p), whole, outputs, r.Rest(), count - i)
    {
      ContinuesStep(OutParser(p), whole, outputs, r.Rest(), count - i);
      var output :- ReadOut(p, r);
      outputs := outputs + [output];
    }
    ContinuesEnd(OutParser(p), whole, outputs, r.Rest());
    read := Success(outputs);
  }

  /** Strictly decodes a transaction: the first violation found, or the one transaction these bytes encode. */
  method Decode(p: Primitives, bytes: seq<u8>) returns (t: Result<Transaction, CodecError>)
    ensures t == DecodeTransaction(p, bytes)
  {
    hide TakeTxHead, TakeInputs, TakeOutputs, TakePrefixed, Reader.Rest, Reader.Valid;
    var r := new Reader(bytes);
    var head :- ReadHead(r);
    var inputs :- ReadInputs(p, r);
    var outputs :- ReadOutputs(p, r);
    var extra :- r.ReadBytes();
    if |extra| > MAX_EXTRA_LEN {
      return Failure(ExtraTooLarge(|extra|));
    }
    var left := r.Finish();
    if left.Some? {
      return Failure(left.value);
    }
    t := Success(Transaction(head.0, head.1, inputs, outputs, extra));
  }
}
