/**
 What the decoders answer to bytes that go wrong: after any canonical beginning, the first thing out of place is named,
 whatever follows it.
 */
module Refusals {
  import opened Wrappers
  import opened Words
  import opened Ranking
  import opened Transactions
  import opened Wire
  import TxCodec
  import BlockCodec
  import Blocks
  import Finality

  // ----- transactions

  lemma VersionRefused(p: TxCodec.Primitives, keccak: BlockCodec.Keccak, s: seq<u8>)
    requires |s| >= 2 && (s[0] != 1 || s[1] != 0)
    ensures var low: nat, high: nat := s[0], s[1];
            var version := low + 256 * high;
            && TxCodec.DecodeTransaction(p, s) == Failure(InvalidVersion(version))
            && BlockCodec.DecodeHeader(s) == Failure(InvalidVersion(version))
            && BlockCodec.DecodeBlock(keccak, s) == Failure(InvalidVersion(version))
            && Finality.DecodeCheckpoint(s) == Failure(InvalidVersion(version))
  {
    hide TxCodec.TakeInputs, TxCodec.TakeOutputs, BlockCodec.TakeParents, BlockCodec.TakeTail, BlockCodec.TakePayload,
      Finality.TakeSeatList, TakeLittle, TakeByte, TakeU64, TakeBig;
    TwoBytes(s);
  }

  lemma TwoBytes(s: seq<u8>)
    requires |s| >= 2
    ensures var low: nat, high: nat := s[0], s[1];
            TakeLittle(s, 2) == Success((low + 256 * high, s[2..]))
  {
    var low: nat, high: nat := s[0], s[1];
    assert s[..2] == [s[0], s[1]] && [s[0], s[1]][1..] == [s[1]];
    assert LittleEndian([s[1]]) == high;
    assert LittleEndian(s[..2]) == low + 256 * LittleEndian([s[1]]);
  }

  /** Tags above six name no type, and those of the types to come are not supported yet. */
  lemma TypeRefused(p: TxCodec.Primitives, tag: u8, rest: seq<u8>)
    requires tag != 0 && tag != 6
    ensures TxCodec.DecodeTransaction(p, [1, 0, tag] + rest) ==
            Failure(if tag > 6 then UnknownType(tag) else UnsupportedType(tag))
  {
    hide TxCodec.TakeInputs, TxCodec.TakeOutputs;
    var s := [1, 0, tag] + rest;
    assert s[..2] == [1, 0] && s[2..] == [tag] + rest;
    assert LittleEndian([1, 0]) == 1;
  }

  /** Too many inputs are named before any is read; inputs out of order once all are. */
  lemma InputsRefused(p: TxCodec.Primitives, t: TxType, fee: u64, n: nat, inputs: seq<TxIn>, rest: seq<u8>)
    requires t.Transfer? || t.Coinbase?
    ensures 64 < n <= U64_MAX ==>
              TxCodec.DecodeTransaction(p, TxCodec.HeadBytes(t, fee) + (Varint(n) + rest)) == Failure(TooManyInputs(n))
    ensures |inputs| <= 64 && (forall i | i in inputs :: TxCodec.CanonicalIn(p, i))
            && !TxCodec.AscendingInputs(inputs) ==>
              TxCodec.DecodeTransaction(p, TxCodec.HeadBytes(t, fee) + (TxCodec.InputBytes(inputs) + rest)) ==
              Failure(UnsortedInputs)
  {
    hide TxCodec.TakeTxHead, TxCodec.HeadBytes, TxCodec.TakeOutputs, TakeVarint, Varint, TakeMany, Many,
      TxCodec.CanonicalIn, TxCodec.TakeIn, TxCodec.EncodeIn, TxCodec.AscendingInputs;
    TxCodec.HeadComplete(t, fee, Varint(n) + rest);
    TxCodec.HeadComplete(t, fee, TxCodec.InputBytes(inputs) + rest);
    if 64 < n <= U64_MAX {
      VarintComplete(n, rest);
    }
    if |inputs| <= 64 && forall i | i in inputs :: TxCodec.CanonicalIn(p, i) {
      Regroup(Varint(|inputs|), Many(TxCodec.EncodeIn, inputs), rest);
      VarintComplete(|inputs|, Many(TxCodec.EncodeIn, inputs) + rest);
      TxCodec.InLawful(p);
      ManyComplete(TxCodec.EncodeIn, TxCodec.InRule(p), TxCodec.InParser(p), inputs, rest);
    }
  }

  /** After canonical inputs: too many outputs, extra bytes too long, and bytes left over. */
  lemma OutputsRefused(p: TxCodec.Primitives, t: Transaction, n: nat, extra: seq<u8>, rest: seq<u8>)
    requires TxCodec.CanonicalTransaction(p, t) && |extra| <= U64_MAX
    ensures |t.inputs| <= U64_MAX && |t.outputs| <= U64_MAX && |t.extra| <= U64_MAX
    ensures var head, inputs := TxCodec.HeadBytes(t.txType, t.fee), TxCodec.InputBytes(t.inputs);
            var outputs := TxCodec.OutputBytes(p, t.outputs);
            && (32 < n <= U64_MAX ==>
                  TxCodec.DecodeTransaction(p, head + (inputs + (Varint(n) + rest))) == Failure(TooManyOutputs(n)))
            && (|extra| > 512 ==>
                  TxCodec.DecodeTransaction(p, head + (inputs + (outputs + (Prefixed(extra) + rest)))) ==
                  Failure(ExtraTooLarge(|extra|)))
            && (rest != [] ==>
                  TxCodec.DecodeTransaction(p, TxCodec.EncodeTransaction(p, t) + rest) == Failure(Trailing(|rest|)))
  {
    hide TxCodec.TakeTxHead, TxCodec.HeadBytes, TxCodec.TakeInputs, TxCodec.InputBytes, TxCodec.OutputBytes,
      TakeVarint, Varint, TakePrefixed, Prefixed, TxCodec.CanonicalIn, TxCodec.CanonicalOut, TxCodec.AscendingInputs,
      TxCodec.EncodeTransaction, TakeMany;
    var inputs, outputs := TxCodec.InputBytes(t.inputs), TxCodec.OutputBytes(p, t.outputs);
    if 32 < n <= U64_MAX {
      TxCodec.HeadComplete(t.txType, t.fee, inputs + (Varint(n) + rest));
      TxCodec.InputsComplete(p, t.inputs, Varint(n) + rest);
      VarintComplete(n, rest);
    }
    AfterOutputs(p, t, Prefixed(extra) + rest);
    PrefixedComplete(extra, rest);
    AfterOutputs(p, t, Prefixed(t.extra) + rest);
    PrefixedComplete(t.extra, rest);
    TxCodec.TransactionParts(p, t);
    FourThenRest(TxCodec.HeadBytes(t.txType, t.fee), inputs, outputs, Prefixed(t.extra), rest);
  }

  lemma FourThenRest(a: seq<u8>, b: seq<u8>, c: seq<u8>, d: seq<u8>, rest: seq<u8>)
    ensures (a + (b + (c + (d + [])))) + rest == a + (b + (c + (d + rest)))
  {
  }

  lemma AfterOutputs(p: TxCodec.Primitives, t: Transaction, rest: seq<u8>)
    requires TxCodec.CanonicalTransaction(p, t)
    ensures var s := TxCodec.HeadBytes(t.txType, t.fee)
                     + (TxCodec.InputBytes(t.inputs) + (TxCodec.OutputBytes(p, t.outputs) + rest));
            var extra := TakePrefixed(rest);
            TxCodec.DecodeTransaction(p, s) ==
            if extra.Failure? then Failure(extra.error)
            else if |extra.value.0| > 512 then Failure(ExtraTooLarge(|extra.value.0|))
            else if extra.value.1 != [] then Failure(Trailing(|extra.value.1|))
            else Success(Transaction(t.txType, t.fee, t.inputs, t.outputs, extra.value.0))
  {
    hide TxCodec.TakeTxHead, TxCodec.HeadBytes, TxCodec.TakeInputs, TxCodec.InputBytes, TxCodec.OutputBytes,
      TxCodec.TakeOutputs, TakePrefixed, TxCodec.CanonicalIn, TxCodec.CanonicalOut, TxCodec.AscendingInputs;
    var outputs := TxCodec.OutputBytes(p, t.outputs);
    TxCodec.HeadComplete(t.txType, t.fee, TxCodec.InputBytes(t.inputs) + (outputs + rest));
    TxCodec.InputsComplete(p, t.inputs, outputs + rest);
    TxCodec.OutputsComplete(p, t.outputs, rest);
  }

  // ----- headers and blocks

  /** No parents, or too many, are named before any is read; parents out of order once all are. */
  lemma ParentsRefused(n: nat, parents: seq<Hash>, rest: seq<u8>)
    ensures BlockCodec.DecodeHeader([1, 0] + (Varint(0) + rest)) == Failure(NoParents)
    ensures 16 < n <= U64_MAX ==>
              BlockCodec.DecodeHeader([1, 0] + (Varint(n) + rest)) == Failure(TooManyParents(n))
    ensures 1 <= |parents| <= 16 && (forall h | h in parents :: BlockCodec.CanonicalHash(h))
            && !BlockCodec.AscendingIds(parents) ==>
              BlockCodec.DecodeHeader([1, 0] + (BlockCodec.IdBytes(parents) + rest)) == Failure(UnsortedParents)
  {
    hide TakeVarint, Varint, TakeMany, Many, BlockCodec.CanonicalHash, BlockCodec.AscendingIds, BlockCodec.TakeHash,
      BlockCodec.TakeTail;
    AfterVersion(Varint(0) + rest);
    AfterVersion(Varint(n) + rest);
    AfterVersion(BlockCodec.IdBytes(parents) + rest);
    VarintComplete(0, rest);
    if 16 < n <= U64_MAX {
      VarintComplete(n, rest);
    }
    if |parents| <= 16 && forall h | h in parents :: BlockCodec.CanonicalHash(h) {
      BlockCodec.IdsComplete(parents, rest);
      VarintComplete(|parents|, Many(BlockCodec.EncodeHash, parents) + rest);
    }
  }

  lemma AfterVersion(rest: seq<u8>)
    ensures TakeLittle([1, 0] + rest, 2) == Success((1, rest))
  {
    var s := [1, 0] + rest;
    assert s[..2] == [1, 0] && s[2..] == rest;
    assert LittleEndian([1, 0]) == 1;
  }

  /**
   After a canonical header: too many ids, ids out of order, bytes left over, and, only then, a header that commits to
   another list. A header read alone refuses whatever follows it.
   */
  lemma PayloadRefused(keccak: BlockCodec.Keccak, h: Blocks.Header, n: nat, ids: seq<Hash>, rest: seq<u8>)
    requires BlockCodec.CanonicalHeader(h)
    ensures var header := BlockCodec.EncodeHeader(h);
            && (rest != [] ==> BlockCodec.DecodeHeader(header + rest) == Failure(Trailing(|rest|)))
            && (64 < n <= U64_MAX ==>
                  BlockCodec.DecodeBlock(keccak, header + (Varint(n) + rest)) == Failure(TooManyTransactions(n)))
            && (|ids| <= 64 && (forall x | x in ids :: BlockCodec.CanonicalHash(x)) ==>
                  var root := keccak(BlockCodec.IdBytes(ids));
                  BlockCodec.DecodeBlock(keccak, header + (BlockCodec.IdBytes(ids) + rest)) ==
                  if exists i :: 0 < i < |ids| && ids[i - 1] >= ids[i] then Failure(UnsortedTransactions)
                  else if rest != [] then Failure(Trailing(|rest|))
                  else if root != h.payloadRoot then Failure(PayloadRootMismatch(h.payloadRoot, root))
                  else Success(BlockCodec.WireBlock(h, ids)))
  {
    hide TakeVarint, Varint, TakeMany, Many, BlockCodec.TakeHash, BlockCodec.TakeHeader, BlockCodec.EncodeHeader,
      BlockCodec.CanonicalHeader, BlockCodec.CanonicalHash;
    BlockCodec.HeaderComplete(h, rest);
    if 64 < n <= U64_MAX {
      BlockCodec.HeaderComplete(h, Varint(n) + rest);
      VarintComplete(n, rest);
    }
    if |ids| <= 64 && forall x | x in ids :: BlockCodec.CanonicalHash(x) {
      BlockCodec.HeaderComplete(h, BlockCodec.IdBytes(ids) + rest);
      BlockCodec.IdsComplete(ids, rest);
      VarintComplete(|ids|, Many(BlockCodec.EncodeHash, ids) + rest);
    }
  }

  // ----- checkpoints

  /** A zero era, sequence or tip is named as soon as it is read. */
  lemma MessageRefused(m: Finality.Message, rest: seq<u8>)
    requires Fits(m.tip, 32) && Fits(m.orderRoot, 32)
    ensures var s := Finality.EncodeMessage(m) + rest;
            && (m.era == 0 ==> Finality.DecodeCheckpoint(s) == Failure(EraZero))
            && (m.era > 0 && m.sequence == 0 ==> Finality.DecodeCheckpoint(s) == Failure(SequenceZero))
            && (m.era > 0 && m.sequence > 0 && m.tip == 0 ==> Finality.DecodeCheckpoint(s) == Failure(ZeroTip))
  {
    hide TakeLittle, TakeU64, TakeBig, LittleEndianBytes, U64Bytes, BigEndianBytes, Pow256, Finality.TakeSeatList;
    var version, era, sequence := LittleEndianBytes(1, 2), U64Bytes(m.era), U64Bytes(m.sequence);
    var tip, root := BigEndianBytes(m.tip, 32), BigEndianBytes(m.orderRoot, 32);
    Finality.Regroup5(version, era, sequence, tip, root, rest);
    U64Fits();
    LittleComplete(1, 2, era + (sequence + (tip + (root + rest))));
    U64Complete(m.era, sequence + (tip + (root + rest)));
    U64Complete(m.sequence, tip + (root + rest));
    BigComplete(m.tip, 32, root + rest);
  }

  /** After a canonical message: too many signatures, named before any is read, and bytes left over. */
  lemma SignaturesRefused(c: Finality.Collected, n: nat, rest: seq<u8>)
    requires Finality.CanonicalCheckpoint(c)
    ensures 55 < n <= U64_MAX ==>
              Finality.DecodeCheckpoint(Finality.EncodeMessage(c.message) + (Varint(n) + rest)) ==
              Failure(TooManySignatures(n))
    ensures rest != [] ==>
              Finality.DecodeCheckpoint(Finality.EncodeCheckpoint(c) + rest) == Failure(Trailing(|rest|))
  {
    hide Finality.TakeMessage, Finality.EncodeMessage, TakeVarint, Varint, Finality.TakeSeats, Finality.SeatListBytes,
      Finality.CanonicalMessage, Finality.CanonicalSeat, Finality.AscendingSeats;
    if 55 < n <= U64_MAX {
      Finality.MessageComplete(c.message, Varint(n) + rest);
      VarintComplete(n, rest);
    }
    Finality.MessageComplete(c.message, Finality.SeatListBytes(c.signatures) + rest);
    Finality.SeatListComplete(c.signatures, rest);
    Regroup(Finality.EncodeMessage(c.message), Finality.SeatListBytes(c.signatures), rest);
  }

  /** A seat that already signed is named, wherever its first signature stands. */
  lemma {:induction false} SeatRefused(
    got: seq<Finality.SeatSignature>, more: seq<Finality.SeatSignature>, x: Finality.SeatSignature, n: nat,
    rest: seq<u8>)
    requires Finality.AscendingSeats(got + more) && Finality.CanonicalSeat(x)
    requires forall y | y in more :: Finality.CanonicalSeat(y)
    requires exists y | y in got + more :: y.seat == x.seat
    ensures var s := Many(Finality.EncodeSeat, more) + (Finality.EncodeSeat(x) + rest);
            Finality.TakeSeats(s, |more| + 1 + n, got) == Failure(DuplicateSeat(x.seat))
    decreases |more|
  {
    hide Finality.TakeSeat, Finality.EncodeSeat, Finality.CanonicalSeat;
    var tail := Finality.EncodeSeat(x) + rest;
    if more == [] {
      assert got + more == got && [] + tail == tail;
      Finality.SeatComplete(x, rest);
    } else {
      var first, others := more[0], more[1..];
      Regroup(Finality.EncodeSeat(first), Many(Finality.EncodeSeat, others), tail);
      Finality.SeatComplete(first, Many(Finality.EncodeSeat, others) + tail);
      Finality.PrefixAscends(got, more);
      Finality.AscendingAppend(got, first);
      assert (got + [first]) + others == got + more;
      SeatRefused(got + [first], others, x, n, rest);
    }
  }
}
