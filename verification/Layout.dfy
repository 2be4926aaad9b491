/**
 The encodings byte by byte: where each field of a transaction, a header, a block, a checkpoint and a ring signature
 stands, in which byte order, and what a varint is.
 */
module Layouts {
  import opened Wrappers
  import opened Words
  import opened Ranking
  import opened Transactions
  import opened Wire
  import TxCodec
  import BlockCodec
  import Blocks
  import Finality
  import Mlsag
  import RingCodec

  // ----- words

  /** The first byte of a little-endian number is the low one, the last of a big-endian number. */
  lemma ByteOrders(low: u8, s: seq<u8>)
    ensures LittleEndian([]) == 0 && BigEndian([]) == 0
    ensures LittleEndian([low] + s) == low + 256 * LittleEndian(s)
    ensures BigEndian(s + [low]) == 256 * BigEndian(s) + low
  {
    assert ([low] + s)[1..] == s && (s + [low])[..|s|] == s;
  }

  /** The number seven-bit groups make, the lowest first. */
  ghost function GroupValue(bytes: seq<u8>): nat {
    if bytes == [] then 0 else bytes[0] % 128 + 128 * GroupValue(bytes[1..])
  }

  /**
   A varint is the shortest list of bytes whose seven-bit groups make its value: every byte but the last is marked as
   followed by another, and the last is zero only when it is alone.
   */
  lemma {:induction false} VarintExactly(v: nat, bytes: seq<u8>)
    ensures Varint(v) == bytes <==>
            && bytes != [] && GroupValue(bytes) == v
            && (forall i | 0 <= i < |bytes| - 1 :: bytes[i] >= 128)
            && bytes[|bytes| - 1] < 128 && (|bytes| > 1 ==> bytes[|bytes| - 1] > 0)
    decreases |bytes|
  {
    if |bytes| == 1 {
      assert GroupValue(bytes[1..]) == 0;
      if v >= 128 {
        assert |Varint(v)| > 1;
      }
    } else if bytes != [] {
      var rest := bytes[1..];
      VarintExactly(v / 128, rest);
      assert forall i | 0 <= i < |rest| :: rest[i] == bytes[i + 1];
      if bytes[0] >= 128 && v >= 128 {
        assert v == 128 * (v / 128) + v % 128;
        assert Varint(v) == bytes <==> Varint(v / 128) == rest && 128 + v % 128 == bytes[0] by {
          assert bytes == [bytes[0]] + rest;
          assert Varint(v)[1..] == Varint(v / 128);
        }
      }
      PositiveGroups(rest);
    }
  }

  /** Groups that end in a byte above zero make a number above zero. */
  lemma {:induction false} PositiveGroups(bytes: seq<u8>)
    requires bytes != []
    ensures 0 < bytes[|bytes| - 1] < 128 ==> GroupValue(bytes) > 0
  {
    if |bytes| > 1 {
      PositiveGroups(bytes[1..]);
    }
  }

  // ----- lists of fixed-size elements

  lemma {:induction false} ManyAt<T>(encode: T -> seq<u8>, items: seq<T>, size: nat, i: nat)
    requires i < |items| && forall x | x in items :: |encode(x)| == size
    ensures 0 <= size * i && size * i + size <= |Many(encode, items)| == size * |items|
    ensures Many(encode, items)[size * i..size * i + size] == encode(items[i])
  {
    var first, rest := encode(items[0]), items[1..];
    ManySize(encode, rest, size);
    Multiples(size, |items|, i);
    if i > 0 {
      ManyAt(encode, rest, size, i - 1);
      Multiples(size, i, 0);
      var all, tail := Many(encode, items), Many(encode, rest);
      assert all[size * i..size * i + size] == tail[size * (i - 1)..size * (i - 1) + size];
    }
  }

  lemma Multiples(size: nat, n: nat, i: nat)
    requires i < n
    ensures size * n == size + size * (n - 1) && 0 <= size * i && size * i + size <= size * n
  {
    assert size * n == size * i + size * (n - i);
    assert size * (n - i) == size + size * (n - i - 1);
  }

  lemma {:induction false} ManySize<T>(encode: T -> seq<u8>, items: seq<T>, size: nat)
    requires forall x | x in items :: |encode(x)| == size
    ensures |Many(encode, items)| == size * |items|
  {
    if items != [] {
      ManySize(encode, items[1..], size);
      Multiples(size, |items|, 0);
    }
  }

  lemma OneByte(n: nat)
    requires n < 128
    ensures Varint(n) == [n]
  {
  }

  // ----- transactions

  /** An address on the wire: a letter for the network, two keys, and four bytes of the digest of all that. */
  ghost predicate IsAddress(p: TxCodec.Primitives, s: seq<u8>, a: Address) {
    && |s| == 69
    && s[0] == (match a.network case Mainnet => 65 case Testnet => 84 case Devnet => 68)
    && BigEndian(s[1..33]) == a.spend && BigEndian(s[33..65]) == a.view
    && s[65..69] == BigEndianBytes(p.keccak(s[..65]), 32)[..4]
  }

  lemma AddressLayout(p: TxCodec.Primitives, a: Address)
    requires Fits(a.spend, 32) && Fits(a.view, 32)
    ensures IsAddress(p, TxCodec.EncodeAddress(p, a), a)
  {
    hide BigEndian, BigEndianBytes, Pow256;
    var s := TxCodec.EncodeAddress(p, a);
    assert s[1..33] == BigEndianBytes(a.spend, 32) && s[33..65] == BigEndianBytes(a.view, 32);
    assert s[..65] == TxCodec.CheckedPart(a);
    BigEndianOfBytes(a.spend, 32);
    BigEndianOfBytes(a.view, 32);
  }

  /** An input on the wire: 132 bytes. */
  ghost predicate IsInput(s: seq<u8>, i: TxIn) {
    && |s| == 132
    && BigEndian(s[0..32]) == i.output.tx && LittleEndian(s[32..36]) == i.output.index
    && BigEndian(s[36..68]) == i.key && BigEndian(s[68..132]) == i.signature
  }

  lemma InputLayout(p: TxCodec.Primitives, i: TxIn)
    requires TxCodec.CanonicalIn(p, i)
    ensures IsInput(TxCodec.EncodeIn(i), i)
  {
    hide BigEndian, BigEndianBytes, LittleEndian, LittleEndianBytes, Pow256;
    var s := TxCodec.EncodeIn(i);
    assert s[0..32] == BigEndianBytes(i.output.tx, 32) && s[32..36] == LittleEndianBytes(i.output.index, 4);
    assert s[36..68] == BigEndianBytes(i.key, 32) && s[68..132] == BigEndianBytes(i.signature, 64);
    BigEndianOfBytes(i.output.tx, 32);
    LittleEndianOfBytes(i.output.index, 4);
    BigEndianOfBytes(i.key, 32);
    BigEndianOfBytes(i.signature, 64);
  }

  /** An output on the wire: an address and an amount, 77 bytes. */
  ghost predicate IsOutput(p: TxCodec.Primitives, s: seq<u8>, o: TxOut) {
    |s| == 77 && IsAddress(p, s[..69], o.address) && LittleEndian(s[69..77]) == o.amount
  }

  lemma OutputLayout(p: TxCodec.Primitives, o: TxOut)
    requires TxCodec.CanonicalOut(p, o)
    ensures IsOutput(p, TxCodec.EncodeOut(p, o), o)
  {
    hide TxCodec.EncodeAddress, IsAddress, LittleEndian, LittleEndianBytes, Pow256;
    AddressLayout(p, o.address);
    var s := TxCodec.EncodeOut(p, o);
    assert s[..69] == TxCodec.EncodeAddress(p, o.address) && s[69..77] == U64Bytes(o.amount);
    U64Fits();
    LittleEndianOfBytes(o.amount, 8);
  }

  /**
   A canonical transaction on the wire: version 1, the tag of its type, its fee, its inputs, its outputs and its extra
   bytes, each list after its count.
   */
  lemma TransactionLayout(p: TxCodec.Primitives, t: Transaction)
    requires TxCodec.CanonicalTransaction(p, t)
    ensures |t.inputs| <= 64 && |t.outputs| <= 32 && |t.extra| <= 512
    ensures var s, n, m := TxCodec.EncodeTransaction(p, t), |t.inputs|, |t.outputs|;
            var at := 13 + 132 * n;
            && |s| == at + 77 * m + |Varint(|t.extra|)| + |t.extra|
            && s[0] == 1 && s[1] == 0 && s[2] == (if t.txType.Coinbase? then 6 else 0)
            && LittleEndian(s[3..11]) == t.fee
            && s[11] == n && (forall i | 0 <= i < n :: IsInput(s[12 + 132 * i..144 + 132 * i], t.inputs[i]))
            && s[at - 1] == m && (forall j | 0 <= j < m :: IsOutput(p, s[at + 77 * j..at + 77 * j + 77], t.outputs[j]))
            && s[at + 77 * m..] == Varint(|t.extra|) + t.extra
  {
    hide TxCodec.EncodeTransaction, TxCodec.CanonicalTransaction, IsInput, IsOutput, Varint, Many, LittleEndian,
      LittleEndianBytes, Pow256, TxCodec.CanonicalIn, TxCodec.CanonicalOut, TxCodec.EncodeIn, TxCodec.EncodeOut;
    var n, m := |t.inputs|, |t.outputs|;
    Sizes(p, t);
    TransactionPieces(p, t);
    var s := TxCodec.EncodeTransaction(p, t);
    var at := 13 + 132 * n;
    var ins, outs := Many(TxCodec.EncodeIn, t.inputs), Many(TxCodec.OutEncoder(p), t.outputs);
    forall i | 0 <= i < n ensures IsInput(s[12 + 132 * i..144 + 132 * i], t.inputs[i]) {
      ManyAt(TxCodec.EncodeIn, t.inputs, 132, i);
      InputLayout(p, t.inputs[i]);
      Inside(s, 12, ins, 132 * i, 132);
    }
    forall j | 0 <= j < m ensures IsOutput(p, s[at + 77 * j..at + 77 * j + 77], t.outputs[j]) {
      ManyAt(TxCodec.OutEncoder(p), t.outputs, 77, j);
      OutputLayout(p, t.outputs[j]);
      Inside(s, at, outs, 77 * j, 77);
    }
  }

  lemma Inside(s: seq<u8>, start: nat, part: seq<u8>, at: nat, size: nat)
    requires start + |part| <= |s| && s[start..start + |part|] == part && at + size <= |part|
    ensures s[start + at..start + at + size] == part[at..at + size]
  {
    var whole, piece := s[start + at..start + at + size], part[at..at + size];
    forall k | 0 <= k < size ensures whole[k] == piece[k] {
      assert s[start..start + |part|][at + k] == s[start + at + k];
    }
  }

  lemma Sizes(p: TxCodec.Primitives, t: Transaction)
    requires TxCodec.CanonicalTransaction(p, t)
    ensures |t.inputs| <= 64 && |t.outputs| <= 32 && |t.extra| <= 512
    ensures forall i | i in t.inputs :: TxCodec.CanonicalIn(p, i) && |TxCodec.EncodeIn(i)| == 132
    ensures forall o | o in t.outputs :: TxCodec.CanonicalOut(p, o) && |TxCodec.OutEncoder(p)(o)| == 77
    ensures t.txType.Transfer? || t.txType.Coinbase?
  {
    hide LittleEndianBytes, BigEndianBytes, TxCodec.CanonicalIn, TxCodec.CanonicalOut, TxCodec.EncodeAddress;
  }

  lemma TransactionPieces(p: TxCodec.Primitives, t: Transaction)
    requires TxCodec.CanonicalTransaction(p, t) && |t.inputs| <= 64 && |t.outputs| <= 32 && |t.extra| <= 512
    requires forall i | i in t.inputs :: |TxCodec.EncodeIn(i)| == 132
    requires forall o | o in t.outputs :: |TxCodec.OutEncoder(p)(o)| == 77
    requires t.txType.Transfer? || t.txType.Coinbase?
    ensures var s, n, m := TxCodec.EncodeTransaction(p, t), |t.inputs|, |t.outputs|;
            var ins, outs, at := Many(TxCodec.EncodeIn, t.inputs), Many(TxCodec.OutEncoder(p), t.outputs), 13 + 132 * n;
            && |ins| == 132 * n && |outs| == 77 * m
            && |s| == at + 77 * m + |Varint(|t.extra|)| + |t.extra|
            && s[0] == 1 && s[1] == 0 && s[2] == (if t.txType.Coinbase? then 6 else 0)
            && LittleEndian(s[3..11]) == t.fee
            && s[11] == n && s[12..at - 1] == ins && s[at - 1] == m && s[at..at + 77 * m] == outs
            && s[at + 77 * m..] == Varint(|t.extra|) + t.extra
  {
    hide TxCodec.CanonicalTransaction, Varint, Many, LittleEndian, Pow256, TxCodec.EncodeIn, TxCodec.OutEncoder;
    ManySize(TxCodec.EncodeIn, t.inputs, 132);
    ManySize(TxCodec.OutEncoder(p), t.outputs, 77);
    OneByte(|t.inputs|);
    OneByte(|t.outputs|);
    U64Fits();
    LittleEndianOfBytes(t.fee, 8);
    var version := LittleEndianBytes(1, 2);
    assert version == [1, 0];
    Joined(version, [TxCodec.Tag(t.txType)], U64Bytes(t.fee), [|t.inputs|], Many(TxCodec.EncodeIn, t.inputs),
           [|t.outputs|], Many(TxCodec.OutEncoder(p), t.outputs), Varint(|t.extra|) + t.extra);
  }

  lemma Joined(
    a: seq<u8>, b: seq<u8>, c: seq<u8>, d: seq<u8>, ins: seq<u8>, e: seq<u8>, outs: seq<u8>, rest: seq<u8>)
    requires |a| == 2 && |b| == 1 && |c| == 8 && |d| == 1 && |e| == 1
    ensures var s := a + (b + (c + (d + (ins + (e + (outs + rest))))));
            var at := 13 + |ins|;
            && |s| == at + |outs| + |rest| && s[0] == a[0] && s[1] == a[1] && s[2] == b[0] && s[3..11] == c
            && s[11] == d[0] && s[12..at - 1] == ins && s[at - 1] == e[0] && s[at..at + |outs|] == outs
            && s[at + |outs|..] == rest
  {
  }

  /** 256 to the 32, and to the 64. */
  const WIDE: nat := 0x1_0000_0000_0000_0000_0000_0000_0000_0000_0000_0000_0000_0000_0000_0000_0000_0000

  lemma WideFits()
    ensures Pow256(32) == 115792089237316195423570985008687907853269984665640564039457584007913129639936 == WIDE
    ensures Pow256(64) == WIDE * WIDE && Pow256(4) == 0x1_0000_0000
  {
    U64Fits();
    PowersMultiply(8, 8);
    PowersMultiply(16, 16);
    PowersMultiply(32, 32);
  }

  lemma {:induction false} PowersMultiply(a: nat, b: nat)
    ensures Pow256(a + b) == Pow256(a) * Pow256(b)
  {
    if a > 0 {
      PowersMultiply(a - 1, b);
      assert Pow256(a) * Pow256(b) == 256 * (Pow256(a - 1) * Pow256(b));
    }
  }

  /**
   The transactions a decoder returns: transfers and coinbases of at most 64 inputs in ascending order of reference,
   32 outputs and 512 extra bytes, whose keys are keys and whose numbers fit their fields.
   */
  lemma CanonicalTransactionsExactly(p: TxCodec.Primitives, t: Transaction)
    ensures TxCodec.CanonicalTransaction(p, t) <==>
            && (t.txType == Transfer || t.txType == Coinbase)
            && |t.inputs| <= 64 && |t.outputs| <= 32 && |t.extra| <= 512
            && (forall n | 0 <= n < |t.inputs| ::
                  var i := t.inputs[n];
                  && i.output.tx < WIDE && i.output.index < 0x1_0000_0000
                  && i.key < WIDE && p.isKey(i.key) && i.signature < WIDE * WIDE)
            && (forall n | 0 < n < |t.inputs| ::
                  var a, b := t.inputs[n - 1].output, t.inputs[n].output;
                  a.tx < b.tx || (a.tx == b.tx && a.index < b.index))
            && (forall n | 0 <= n < |t.outputs| ::
                  var a := t.outputs[n].address;
                  a.spend < WIDE && p.isKey(a.spend) && a.view < WIDE && p.isKey(a.view))
  {
    hide Pow256;
    WideFits();
    assert forall n | 0 <= n < |t.inputs| :: t.inputs[n] in t.inputs;
    assert forall n | 0 <= n < |t.outputs| :: t.outputs[n] in t.outputs;
  }

  /**
   What the inputs sign: the encoding of the transaction with every signature zero and nothing else changed. What names
   a transaction is the digest of its whole encoding.
   */
  lemma SigningMessageExactly(p: TxCodec.Primitives, t: Transaction, unsigned: Transaction)
    requires TxCodec.CanonicalTransaction(p, t)
    requires unsigned == t.(inputs := unsigned.inputs) && |unsigned.inputs| == |t.inputs|
    requires forall n | 0 <= n < |t.inputs| :: unsigned.inputs[n] == TxIn(t.inputs[n].output, t.inputs[n].key, 0)
    ensures TxCodec.SigningMessage(p, t) == TxCodec.EncodeTransaction(p, unsigned)
    ensures TxCodec.TxId(p, t) == p.keccak(TxCodec.EncodeTransaction(p, t))
  {
    hide TxCodec.EncodeTransaction;
    assert TxCodec.UnsignedInputs(t.inputs) == unsigned.inputs;
  }

  // ----- headers and blocks

  /** A list of ids on the wire: its count, and 32 bytes an id. */
  ghost predicate IsIdList(s: seq<u8>, ids: seq<Hash>) {
    && |s| == 1 + 32 * |ids| && s[0] == |ids|
    && forall i | 0 <= i < |ids| :: BigEndian(s[1 + 32 * i..33 + 32 * i]) == ids[i]
  }

  lemma IdListLayout(ids: seq<Hash>)
    requires |ids| < 128 && forall h | h in ids :: Fits(h, 32)
    ensures IsIdList(BlockCodec.IdBytes(ids), ids)
  {
    hide BigEndian, BigEndianBytes, Pow256, Many, Varint;
    OneByte(|ids|);
    ManySize(BlockCodec.EncodeHash, ids, 32);
    var s, list := BlockCodec.IdBytes(ids), Many(BlockCodec.EncodeHash, ids);
    assert s[1..1 + |list|] == list;
    forall i | 0 <= i < |ids| ensures BigEndian(s[1 + 32 * i..33 + 32 * i]) == ids[i] {
      ManyAt(BlockCodec.EncodeHash, ids, 32, i);
      Inside(s, 1, list, 32 * i, 32);
      assert ids[i] in ids;
      BigEndianOfBytes(ids[i], 32);
    }
  }

  /** The headers a reader returns: one to sixteen parents in ascending order, and numbers that fit their fields. */
  lemma CanonicalHeadersExactly(h: Blocks.Header)
    ensures BlockCodec.CanonicalHeader(h) <==>
            && 1 <= |h.parents| <= 16
            && (forall i | 0 <= i < |h.parents| :: h.parents[i] < WIDE)
            && (forall i | 0 < i < |h.parents| :: h.parents[i - 1] < h.parents[i])
            && h.height <= U64_MAX && h.timestamp <= U64_MAX && h.nonce <= U64_MAX && h.payloadRoot < WIDE
  {
    hide Pow256;
    WideFits();
    U64Fits();
    assert forall i | 0 <= i < |h.parents| :: h.parents[i] in h.parents;
  }

  /** A canonical header on the wire: version 1, the parents, height, timestamp, nonce and payload root. */
  lemma HeaderLayout(h: Blocks.Header)
    requires BlockCodec.CanonicalHeader(h)
    ensures |h.parents| <= 16
    ensures var s, at := BlockCodec.EncodeHeader(h), 3 + 32 * |h.parents|;
            && |s| == at + 56 && s[0] == 1 && s[1] == 0 && IsIdList(s[2..at], h.parents)
            && LittleEndian(s[at..at + 8]) == h.height && LittleEndian(s[at + 8..at + 16]) == h.timestamp
            && LittleEndian(s[at + 16..at + 24]) == h.nonce && BigEndian(s[at + 24..at + 56]) == h.payloadRoot
  {
    hide BigEndian, BigEndianBytes, LittleEndian, Pow256, BlockCodec.IdBytes, IsIdList;
    IdListLayout(h.parents);
    IdListSize(h.parents);
    assert LittleEndianBytes(1, 2) == [1, 0];
    LittleEndianOfBytes(h.height, 8);
    LittleEndianOfBytes(h.timestamp, 8);
    LittleEndianOfBytes(h.nonce, 8);
    BigEndianOfBytes(h.payloadRoot, 32);
    FiveJoined(LittleEndianBytes(1, 2), BlockCodec.IdBytes(h.parents), LittleEndianBytes(h.height, 8),
               LittleEndianBytes(h.timestamp, 8), LittleEndianBytes(h.nonce, 8), BigEndianBytes(h.payloadRoot, 32));
  }

  lemma IdListSize(ids: seq<Hash>)
    requires |ids| < 128
    ensures |BlockCodec.IdBytes(ids)| == 1 + 32 * |ids|
  {
    hide BigEndianBytes;
    OneByte(|ids|);
    ManySize(BlockCodec.EncodeHash, ids, 32);
  }

  lemma FiveJoined(a: seq<u8>, ids: seq<u8>, b: seq<u8>, c: seq<u8>, d: seq<u8>, e: seq<u8>)
    requires |a| == 2 && |b| == |c| == |d| == 8 && |e| == 32
    ensures var s, at := a + (ids + (b + (c + (d + e)))), 2 + |ids|;
            && |s| == at + 56 && s[0] == a[0] && s[1] == a[1] && s[2..at] == ids && s[at..at + 8] == b
            && s[at + 8..at + 16] == c && s[at + 16..at + 24] == d && s[at + 24..at + 56] == e
  {
  }

  /**
   A canonical block on the wire: its header, then its list of at most 64 ids in ascending order; the header commits to
   the digest of that list.
   */
  lemma BlockLayout(keccak: BlockCodec.Keccak, b: BlockCodec.WireBlock)
    requires BlockCodec.CanonicalBlock(keccak, b)
    ensures BlockCodec.CanonicalHeader(b.header) && |b.txIds| <= 64
    ensures forall i | 0 < i < |b.txIds| :: b.txIds[i - 1] < b.txIds[i]
    ensures var s, header := BlockCodec.EncodeBlock(b), BlockCodec.EncodeHeader(b.header);
            && header <= s && IsIdList(s[|header|..], b.txIds)
            && b.header.payloadRoot == keccak(s[|header|..])
  {
    hide BlockCodec.CanonicalHeader, BlockCodec.EncodeHeader, BlockCodec.IdBytes, IsIdList;
    IdListLayout(b.txIds);
    var s, header := BlockCodec.EncodeBlock(b), BlockCodec.EncodeHeader(b.header);
    assert s[|header|..] == BlockCodec.IdBytes(b.txIds);
  }

  /** The blocks a reader returns. */
  lemma CanonicalBlocksExactly(keccak: BlockCodec.Keccak, b: BlockCodec.WireBlock)
    ensures BlockCodec.CanonicalBlock(keccak, b) <==>
            && BlockCodec.CanonicalHeader(b.header) && |b.txIds| <= 64
            && (forall i | 0 <= i < |b.txIds| :: b.txIds[i] < WIDE)
            && (forall i | 0 < i < |b.txIds| :: b.txIds[i - 1] < b.txIds[i])
            && b.header.payloadRoot == keccak(BlockCodec.IdBytes(b.txIds))
  {
    hide Pow256, BlockCodec.CanonicalHeader, BlockCodec.IdBytes;
    WideFits();
    assert forall i | 0 <= i < |b.txIds| :: b.txIds[i] in b.txIds;
  }

  // ----- checkpoints

  /** The 82 bytes a seat signs: version 1, era, sequence, tip and root of the order. */
  ghost predicate IsMessage(s: seq<u8>, m: Finality.Message) {
    && |s| == 82 && s[0] == 1 && s[1] == 0
    && LittleEndian(s[2..10]) == m.era && LittleEndian(s[10..18]) == m.sequence
    && BigEndian(s[18..50]) == m.tip && BigEndian(s[50..82]) == m.orderRoot
  }

  lemma MessageLayout(m: Finality.Message)
    requires Fits(m.tip, 32) && Fits(m.orderRoot, 32)
    ensures IsMessage(Finality.EncodeMessage(m), m)
  {
    hide BigEndian, BigEndianBytes, LittleEndian, Pow256;
    var s := Finality.EncodeMessage(m);
    assert LittleEndianBytes(1, 2) == [1, 0];
    assert s[2..10] == U64Bytes(m.era) && s[10..18] == U64Bytes(m.sequence);
    assert s[18..50] == BigEndianBytes(m.tip, 32) && s[50..82] == BigEndianBytes(m.orderRoot, 32);
    U64Fits();
    LittleEndianOfBytes(m.era, 8);
    LittleEndianOfBytes(m.sequence, 8);
    BigEndianOfBytes(m.tip, 32);
    BigEndianOfBytes(m.orderRoot, 32);
  }

  /** A collected signature on the wire: the seat and the signature, 66 bytes. */
  ghost predicate IsSeat(s: seq<u8>, x: Finality.SeatSignature) {
    |s| == 66 && LittleEndian(s[0..2]) == x.seat && BigEndian(s[2..66]) == x.signature
  }

  lemma SeatLayout(x: Finality.SeatSignature)
    requires Finality.CanonicalSeat(x)
    ensures IsSeat(Finality.EncodeSeat(x), x)
  {
    hide BigEndian, BigEndianBytes, LittleEndian, LittleEndianBytes, Pow256;
    var s := Finality.EncodeSeat(x);
    assert s[0..2] == LittleEndianBytes(x.seat, 2) && s[2..66] == BigEndianBytes(x.signature, 64);
    LittleEndianOfBytes(x.seat, 2);
    BigEndianOfBytes(x.signature, 64);
  }

  /** The checkpoints a reader returns: nothing of the message is zero but its root, and at most 55 seats ascend. */
  lemma CanonicalCheckpointsExactly(c: Finality.Collected)
    ensures Finality.CanonicalCheckpoint(c) <==>
            && c.message.era > 0 && c.message.sequence > 0
            && 0 < c.message.tip < WIDE && c.message.orderRoot < WIDE
            && |c.signatures| <= 55
            && (forall i | 0 <= i < |c.signatures| ::
                  c.signatures[i].seat < 0x1_0000 && c.signatures[i].signature < WIDE * WIDE)
            && forall i, j | 0 <= i < j < |c.signatures| :: c.signatures[i].seat < c.signatures[j].seat
  {
    hide Pow256;
    WideFits();
    U64Fits();
    assert forall i | 0 <= i < |c.signatures| :: c.signatures[i] in c.signatures;
  }

  /** A canonical checkpoint on the wire: the message, then the count of the signatures and each of them. */
  lemma CheckpointLayout(c: Finality.Collected)
    requires Finality.CanonicalCheckpoint(c)
    ensures var s, n := Finality.EncodeCheckpoint(c), |c.signatures|;
            && |s| == 83 + 66 * n && IsMessage(s[..82], c.message) && s[82] == n
            && forall i | 0 <= i < n :: IsSeat(s[83 + 66 * i..149 + 66 * i], c.signatures[i])
  {
    hide BigEndian, BigEndianBytes, LittleEndian, LittleEndianBytes, Pow256, Many, Varint, IsMessage, IsSeat,
      Finality.EncodeMessage, Finality.CanonicalSeat;
    MessageLayout(c.message);
    var n := |c.signatures|;
    CheckpointPieces(c);
    var s, list := Finality.EncodeCheckpoint(c), Many(Finality.EncodeSeat, c.signatures);
    forall i | 0 <= i < n ensures IsSeat(s[83 + 66 * i..149 + 66 * i], c.signatures[i]) {
      ManyAt(Finality.EncodeSeat, c.signatures, 66, i);
      assert c.signatures[i] in c.signatures;
      SeatLayout(c.signatures[i]);
      Inside(s, 83, list, 66 * i, 66);
    }
  }

  lemma CheckpointPieces(c: Finality.Collected)
    requires Finality.CanonicalCheckpoint(c)
    ensures var s, n, message := Finality.EncodeCheckpoint(c), |c.signatures|, Finality.EncodeMessage(c.message);
            var list := Many(Finality.EncodeSeat, c.signatures);
            && |message| == 82 && |list| == 66 * n && |s| == 83 + 66 * n
            && s[..82] == message && s[82] == n && s[83..83 + |list|] == list
  {
    hide BigEndian, BigEndianBytes, LittleEndian, LittleEndianBytes, Many, Varint;
    ManySize(Finality.EncodeSeat, c.signatures, 66);
    OneByte(|c.signatures|);
  }

  // ----- ring signatures

  /** The order of the group: scalars on the wire are below it. */
  const L: nat := 7237005577332262213973186563042994240857116359379907606001950938285454250989

  /** The ring signatures a reader returns. */
  lemma CanonicalSignaturesExactly(suite: Mlsag.Suite, sig: RingCodec.Signature)
    ensures RingCodec.CanonicalSignature(suite, sig) <==>
            && |suite.compress(sig.image)| == 32 && suite.decompress(suite.compress(sig.image)) == Some(sig.image)
            && 0 < sig.first < L && 2 <= |sig.members| <= 1024
            && forall i | 0 <= i < |sig.members| :: 0 < sig.members[i] < L
  {
    assert forall i | 0 <= i < |sig.members| :: sig.members[i] in sig.members;
  }

  /** A canonical ring signature on the wire: the image, the first challenge, the count and the scalars. */
  lemma SignatureLayout(suite: Mlsag.Suite, sig: RingCodec.Signature)
    requires RingCodec.CanonicalSignature(suite, sig)
    ensures var s, n, count := RingCodec.EncodeSignature(suite, sig), |sig.members|, Varint(|sig.members|);
            var at := 64 + |count|;
            && |s| == at + 32 * n && s[..32] == suite.compress(sig.image)
            && LittleEndian(s[32..64]) == sig.first && s[64..at] == count
            && forall i | 0 <= i < n :: LittleEndian(s[at + 32 * i..at + 32 * i + 32]) == sig.members[i]
  {
    hide LittleEndian, LittleEndianBytes, Pow256, Many, Varint;
    RingCodec.OrderFits();
    var s, n := RingCodec.EncodeSignature(suite, sig), |sig.members|;
    var at, list := 64 + |Varint(n)|, Many(RingCodec.EncodeScalar, sig.members);
    ManySize(RingCodec.EncodeScalar, sig.members, 32);
    LittleEndianOfBytes(sig.first, 32);
    assert s[32..64] == LittleEndianBytes(sig.first, 32) && s[at..at + |list|] == list;
    forall i | 0 <= i < n ensures LittleEndian(s[at + 32 * i..at + 32 * i + 32]) == sig.members[i] {
      ManyAt(RingCodec.EncodeScalar, sig.members, 32, i);
      assert sig.members[i] in sig.members;
      LittleEndianOfBytes(sig.members[i], 32);
      Inside(s, at, list, 32 * i, 32);
    }
  }
}
