/**
 The canonical binary encoding: byte strings, the parse of each primitive as a function on what is left of
 the input, and the writer and reader that follow those functions. Every primitive comes with two lemmas:
 what parses is exactly what was written, and what was written parses back.
 */
module Wire {
  import opened Wrappers
  import opened Words

  datatype CodecError =
    | Eof
    | InvalidVarint
    | LengthTooBig(announced: nat, remaining: nat)
    | InvalidAddress
    | Trailing(count: nat)
    | InvalidVersion(version: nat)
    | UnknownType(tag: nat)
    | UnsupportedType(tag: nat)
    | TooManyInputs(count: nat)
    | UnsortedInputs
    | TooManyOutputs(count: nat)
    | ExtraTooLarge(length: nat)
    | NoParents
    | TooManyParents(count: nat)
    | UnsortedParents
    | TooManyTransactions(count: nat)
    | UnsortedTransactions
    | PayloadRootMismatch(announced: nat, computed: nat)
    | EraZero
    | SequenceZero
    | ZeroTip
    | TooManySignatures(count: nat)
    | DuplicateSeat(seat: nat)
    | UnsortedSeats

  /** A parsed value and the input left after it. */
  type Parsed<+T> = Result<(T, seq<u8>), CodecError>

  lemma Regroup(a: seq<u8>, b: seq<u8>, c: seq<u8>)
    ensures (a + b) + c == a + (b + c)
  {
  }

  lemma Regroup4(a: seq<u8>, b: seq<u8>, c: seq<u8>, d: seq<u8>, rest: seq<u8>)
    ensures (a + (b + (c + d))) + rest == a + (b + (c + (d + rest)))
  {
  }

  lemma Chain4(start: seq<u8>, a: seq<u8>, b: seq<u8>, c: seq<u8>, d: seq<u8>)
    ensures start + a + b + c + d == start + (a + (b + (c + d)))
  {
  }

  // ----- fixed widths

  function TakeLittle(s: seq<u8>, n: nat): Parsed<nat> {
    if |s| < n then Failure(Eof) else Success((LittleEndian(s[..n]), s[n..]))
  }

  function TakeBig(s: seq<u8>, n: nat): Parsed<nat> {
    if |s| < n then Failure(Eof) else Success((BigEndian(s[..n]), s[n..]))
  }

  function TakeByte(s: seq<u8>): Parsed<u8> {
    if s == [] then Failure(Eof) else Success((s[0], s[1..]))
  }

  lemma ByteSound(s: seq<u8>)
    requires TakeByte(s).Success?
    ensures s == [TakeByte(s).value.0] + TakeByte(s).value.1
  {
  }

  lemma ByteComplete(byte: u8, rest: seq<u8>)
    ensures TakeByte([byte] + rest) == Success((byte, rest))
  {
    assert ([byte] + rest)[1..] == rest;
  }

  function TakeU64(s: seq<u8>): Parsed<u64> {
    if |s| < 8 then Failure(Eof)
    else
      BytesOfLittleEndian(s[..8]);
      U64Fits();
      Success((LittleEndian(s[..8]), s[8..]))
  }

  function U64Bytes(v: u64): seq<u8> {
    LittleEndianBytes(v, 8)
  }

  lemma U64Sound(s: seq<u8>)
    requires TakeU64(s).Success?
    ensures s == U64Bytes(TakeU64(s).value.0) + TakeU64(s).value.1
  {
    BytesOfLittleEndian(s[..8]);
  }

  lemma U64Complete(v: u64, rest: seq<u8>)
    ensures TakeU64(U64Bytes(v) + rest) == Success((v, rest))
  {
    hide LittleEndian, LittleEndianBytes, Pow256;
    U64Fits();
    var s := U64Bytes(v) + rest;
    assert s[..8] == U64Bytes(v) && s[8..] == rest;
    LittleEndianOfBytes(v, 8);
  }

  lemma LittleSound(s: seq<u8>, n: nat)
    requires TakeLittle(s, n).Success?
    ensures var (v, rest) := TakeLittle(s, n).value; Fits(v, n) && s == LittleEndianBytes(v, n) + rest
  {
    BytesOfLittleEndian(s[..n]);
  }

  lemma LittleComplete(v: nat, n: nat, rest: seq<u8>)
    requires Fits(v, n)
    ensures TakeLittle(LittleEndianBytes(v, n) + rest, n) == Success((v, rest))
  {
    var s := LittleEndianBytes(v, n) + rest;
    assert s[..n] == LittleEndianBytes(v, n) && s[n..] == rest;
    LittleEndianOfBytes(v, n);
  }

  lemma BigSound(s: seq<u8>, n: nat)
    requires TakeBig(s, n).Success?
    ensures var (v, rest) := TakeBig(s, n).value; Fits(v, n) && s == BigEndianBytes(v, n) + rest
  {
    BytesOfBigEndian(s[..n]);
  }

  lemma BigComplete(v: nat, n: nat, rest: seq<u8>)
    requires Fits(v, n)
    ensures TakeBig(BigEndianBytes(v, n) + rest, n) == Success((v, rest))
  {
    var s := BigEndianBytes(v, n) + rest;
    assert s[..n] == BigEndianBytes(v, n) && s[n..] == rest;
    BigEndianOfBytes(v, n);
  }

  // ----- varints

  /** Unsigned LEB128, minimal form. */
  function Varint(v: nat): (bytes: seq<u8>)
    ensures |bytes| > 0
  {
    if v < 128 then [v] else [128 + v % 128] + Varint(v / 128)
  }

  /** What the groups from the i-th on may add up to: 64 bits in all. */
  function Room(i: nat): nat
    requires i <= 9
    decreases 9 - i
  {
    if i == 9 then 2 else 128 * Room(i + 1)
  }

  lemma WholeRoom()
    ensures Room(0) == U64_MAX + 1
  {
    assert Room(7) == 32768;
    assert Room(5) == 536870912;
    assert Room(3) == 8796093022208;
  }

  /** The value of the groups from the i-th on. */
  function TakeGroups(s: seq<u8>, i: nat): Parsed<nat>
    requires i <= 9
    decreases 9 - i
  {
    if s == [] then Failure(InvalidVarint)
    else if i == 9 then if s[0] == 1 then Success((1, s[1..])) else Failure(InvalidVarint)
    else if s[0] < 128 then if s[0] == 0 && i > 0 then Failure(InvalidVarint) else Success((s[0], s[1..]))
    else
      var more :- TakeGroups(s[1..], i + 1);
      Success((s[0] - 128 + 128 * more.0, more.1))
  }

  function TakeVarint(s: seq<u8>): Parsed<nat> {
    TakeGroups(s, 0)
  }

  lemma {:induction false} GroupsSound(s: seq<u8>, i: nat)
    requires i <= 9 && TakeGroups(s, i).Success?
    ensures var (v, rest) := TakeGroups(s, i).value;
            v < Room(i) && (i > 0 ==> v > 0) && s == Varint(v) + rest
    decreases 9 - i
  {
    hide Varint, Room;
    if i == 9 {
      OneGroup(1);
      LastRoom();
    } else if s[0] < 128 {
      OneGroup(s[0]);
      RoomStep(i);
    } else {
      GroupsSound(s[1..], i + 1);
      var (v, rest) := TakeGroups(s[1..], i + 1).value;
      GroupThenMore(s[0], v);
      RoomStep(i);
      assert s == [s[0]] + s[1..];
      Regroup([s[0]], Varint(v), rest);
    }
    if TakeGroups(s, i).value.0 < 128 {
      assert s == [s[0]] + s[1..];
    }
  }

  lemma LastRoom()
    ensures Room(9) == 2
  {
  }

  lemma RoomStep(i: nat)
    requires i < 9
    ensures Room(i) == 128 * Room(i + 1) && Room(i) >= 128
  {
    RoomIsPositive(i + 1);
  }

  lemma {:induction false} RoomIsPositive(i: nat)
    requires i <= 9
    ensures Room(i) > 0
    decreases 9 - i
  {
    if i < 9 {
      RoomIsPositive(i + 1);
    }
  }

  lemma OneGroup(v: nat)
    requires v < 128
    ensures Varint(v) == [v]
  {
  }

  lemma GroupThenMore(byte: u8, v: nat)
    requires byte >= 128 && v > 0
    ensures Varint(byte - 128 + 128 * v) == [byte] + Varint(v)
  {
    var all := byte - 128 + 128 * v;
    assert all / 128 == v && all % 128 == byte - 128;
  }

  lemma {:induction false} GroupsComplete(v: nat, i: nat, rest: seq<u8>)
    requires i <= 9 && v < Room(i) && (i > 0 ==> v > 0)
    ensures TakeGroups(Varint(v) + rest, i) == Success((v, rest))
    decreases 9 - i
  {
    if v >= 128 {
      assert i < 9;
      GroupsComplete(v / 128, i + 1, rest);
      var s := Varint(v) + rest;
      Regroup([128 + v % 128], Varint(v / 128), rest);
      assert s[1..] == Varint(v / 128) + rest;
    } else {
      assert Varint(v) + rest == [v] + rest && ([v] + rest)[1..] == rest;
    }
  }

  /** The varint codec: exactly the minimal encodings of u64 values parse, whatever follows them. */
  lemma VarintSound(s: seq<u8>)
    requires TakeVarint(s).Success?
    ensures var (v, rest) := TakeVarint(s).value; v <= U64_MAX && s == Varint(v) + rest
  {
    GroupsSound(s, 0);
    WholeRoom();
  }

  lemma VarintComplete(v: nat, rest: seq<u8>)
    requires v <= U64_MAX
    ensures TakeVarint(Varint(v) + rest) == Success((v, rest))
  {
    WholeRoom();
    GroupsComplete(v, 0, rest);
  }

  // ----- length-prefixed bytes

  function Prefixed(bytes: seq<u8>): seq<u8> {
    Varint(|bytes|) + bytes
  }

  function TakePrefixed(s: seq<u8>): Parsed<seq<u8>> {
    var length :- TakeVarint(s);
    var (n, rest) := length;
    if n > |rest| then Failure(LengthTooBig(n, |rest|)) else Success((rest[..n], rest[n..]))
  }

  lemma PrefixedSound(s: seq<u8>)
    requires TakePrefixed(s).Success?
    ensures var (bytes, rest) := TakePrefixed(s).value; |bytes| <= U64_MAX && s == Prefixed(bytes) + rest
  {
    hide TakeGroups, Varint;
    VarintSound(s);
    var (n, rest) := TakeVarint(s).value;
    assert rest == rest[..n] + rest[n..];
    Regroup(Varint(n), rest[..n], rest[n..]);
  }

  lemma PrefixedComplete(bytes: seq<u8>, rest: seq<u8>)
    requires |bytes| <= U64_MAX
    ensures TakePrefixed(Prefixed(bytes) + rest) == Success((bytes, rest))
  {
    hide TakeGroups, Varint;
    Regroup(Varint(|bytes|), bytes, rest);
    VarintComplete(|bytes|, bytes + rest);
    assert (bytes + rest)[..|bytes|] == bytes && (bytes + rest)[|bytes|..] == rest;
  }

  // ----- repeated elements

  /** The encodings of a list, one after the other. */
  function Many<T>(encode: T -> seq<u8>, items: seq<T>): seq<u8> {
    if items == [] then [] else encode(items[0]) + Many(encode, items[1..])
  }

  function TakeMany<T>(parse: seq<u8> -> Parsed<T>, s: seq<u8>, n: nat): Parsed<seq<T>>
    decreases n
  {
    if n == 0 then Success(([], s))
    else
      var first :- parse(s);
      var others :- TakeMany(parse, first.1, n - 1);
      Success(([first.0] + others.0, others.1))
  }

  /** A parser and an encoder of one element that undo each other on canonical values. */
  ghost predicate Lawful<T(!new)>(encode: T -> seq<u8>, canonical: T -> bool, parse: seq<u8> -> Parsed<T>) {
    && (forall s | parse(s).Success? :: canonical(parse(s).value.0) && s == encode(parse(s).value.0) + parse(s).value.1)
    && (forall x, rest {:trigger encode(x) + rest} | canonical(x) :: parse(encode(x) + rest) == Success((x, rest)))
  }

  lemma {:induction false} ManySound<T(!new)>(
    encode: T -> seq<u8>, canonical: T -> bool, parse: seq<u8> -> Parsed<T>, s: seq<u8>, n: nat)
    requires Lawful(encode, canonical, parse) && TakeMany(parse, s, n).Success?
    ensures var (items, rest) := TakeMany(parse, s, n).value;
            |items| == n && (forall x | x in items :: canonical(x)) && s == Many(encode, items) + rest
    decreases n
  {
    if n == 0 {
      assert [] + s == s;
    } else {
      var (first, left) := parse(s).value;
      ManySound(encode, canonical, parse, left, n - 1);
      var (others, rest) := TakeMany(parse, left, n - 1).value;
      assert ([first] + others)[1..] == others;
      Regroup(encode(first), Many(encode, others), rest);
    }
  }

  lemma {:induction false} ManyComplete<T(!new)>(
    encode: T -> seq<u8>, canonical: T -> bool, parse: seq<u8> -> Parsed<T>, items: seq<T>, rest: seq<u8>)
    requires Lawful(encode, canonical, parse) && forall x | x in items :: canonical(x)
    ensures TakeMany(parse, Many(encode, items) + rest, |items|) == Success((items, rest))
  {
    if items == [] {
      assert [] + rest == rest;
    } else {
      var first := items[0];
      ManyComplete(encode, canonical, parse, items[1..], rest);
      Regroup(encode(first), Many(encode, items[1..]), rest);
      assert canonical(first);
      var tail := Many(encode, items[1..]) + rest;
      assert parse(encode(first) + tail) == Success((first, tail));
      assert [first] + items[1..] == items;
    }
  }

  lemma {:induction false} ManyAppend<T>(encode: T -> seq<u8>, items: seq<T>, x: T)
    ensures Many(encode, items + [x]) == Many(encode, items) + encode(x)
  {
    if items == [] {
      assert [x][1..] == [] && [] + [x] == [x];
      assert encode(x) + [] == encode(x) && [] + encode(x) == encode(x);
    } else {
      assert (items + [x])[1..] == items[1..] + [x];
      ManyAppend(encode, items[1..], x);
      Regroup(encode(items[0]), Many(encode, items[1..]), encode(x));
    }
  }

  /** A loop that has read `got` and has `n` elements to go in `rest`. */
  ghost predicate Continues<T>(
    parse: seq<u8> -> Parsed<T>, whole: Parsed<seq<T>>, got: seq<T>, rest: seq<u8>, n: nat)
  {
    var more := TakeMany(parse, rest, n);
    if more.Success? then whole == Success((got + more.value.0, more.value.1)) else whole == Failure(more.error)
  }

  lemma ContinuesStart<T>(parse: seq<u8> -> Parsed<T>, rest: seq<u8>, n: nat)
    ensures Continues(parse, TakeMany(parse, rest, n), [], rest, n)
  {
    var more := TakeMany(parse, rest, n);
    if more.Success? {
      assert [] + more.value.0 == more.value.0;
    }
  }

  lemma ContinuesStep<T>(parse: seq<u8> -> Parsed<T>, whole: Parsed<seq<T>>, got: seq<T>, rest: seq<u8>, n: nat)
    requires n > 0 && Continues(parse, whole, got, rest, n)
    ensures parse(rest).Failure? ==> whole == Failure(parse(rest).error)
    ensures parse(rest).Success? ==>
              Continues(parse, whole, got + [parse(rest).value.0], parse(rest).value.1, n - 1)
  {
    if parse(rest).Success? {
      var more := TakeMany(parse, parse(rest).value.1, n - 1);
      if more.Success? {
        assert got + ([parse(rest).value.0] + more.value.0) == (got + [parse(rest).value.0]) + more.value.0;
      }
    }
  }

  lemma ContinuesEnd<T>(parse: seq<u8> -> Parsed<T>, whole: Parsed<seq<T>>, got: seq<T>, rest: seq<u8>)
    requires Continues(parse, whole, got, rest, 0)
    ensures whole == Success((got, rest))
  {
    assert got + [] == got;
  }

  // ----- the writer

  class Writer {
    var out: seq<u8>

    constructor ()
      ensures out == []
    {
      out := [];
    }

    method WriteLittle(value: nat, n: nat)
      modifies this
      ensures out == old(out) + LittleEndianBytes(value, n)
    {
      out := out + LittleEndianBytes(value, n);
    }

    method WriteBig(value: nat, n: nat)
      modifies this
      ensures out == old(out) + BigEndianBytes(value, n)
    {
      out := out + BigEndianBytes(value, n);
    }

    method WriteVarint(value: u64)
      modifies this
      ensures out == old(out) + Varint(value)
    {
      var v: nat := value;
      while true
        invariant out + Varint(v) == old(out) + Varint(value)
        decreases v
      {
        var byte := v % 128;
        ghost var group, before := v, out;
        v := v / 128;
        if v == 0 {
          out := out + [byte];
          break;
        }
        out := out + [128 + byte];
        Regroup(before, [128 + byte], Varint(v));
      }
    }

    method WriteBytes(bytes: seq<u8>)
      requires |bytes| <= U64_MAX
      modifies this
      ensures out == old(out) + Prefixed(bytes)
    {
      WriteVarint(|bytes|);
      Regroup(old(out), Varint(|bytes|), bytes);
      out := out + bytes;
    }

    method Extend(bytes: seq<u8>)
      modifies this
      ensures out == old(out) + bytes
    {
      out := out + bytes;
    }
  }

  // ----- the reader

  class Reader {
    const buf: seq<u8>
    var pos: nat

    ghost predicate Valid()
      reads this
    {
      pos <= |buf|
    }

    /** The input left. */
    ghost function Rest(): seq<u8>
      reads this
      requires Valid()
    {
      buf[pos..]
    }

    constructor (bytes: seq<u8>)
      ensures Valid() && Rest() == bytes && buf == bytes
    {
      buf, pos := bytes, 0;
    }

    method Take(n: nat) returns (r: Result<seq<u8>, CodecError>)
      requires Valid()
      modifies this
      ensures Valid()
      ensures n > |old(Rest())| ==> r == Failure(Eof) && pos == old(pos)
      ensures n <= |old(Rest())| ==> r == Success(old(Rest())[..n]) && Rest() == old(Rest())[n..]
    {
      if pos + n > |buf| {
        return Failure(Eof);
      }
      var slice := buf[pos..pos + n];
      assert slice == buf[pos..][..n] && buf[pos + n..] == buf[pos..][n..];
      pos := pos + n;
      r := Success(slice);
    }

    method ReadLittle(n: nat) returns (r: Result<nat, CodecError>)
      requires Valid()
      modifies this
      ensures Valid() && Follows(TakeLittle(old(Rest()), n), r, Rest())
    {
      var slice :- Take(n);
      r := Success(LittleEndian(slice));
    }

    method ReadByte() returns (r: Result<u8, CodecError>)
      requires Valid()
      modifies this
      ensures Valid() && Follows(TakeByte(old(Rest())), r, Rest())
    {
      var slice :- Take(1);
      r := Success(slice[0]);
    }

    method ReadU64() returns (r: Result<u64, CodecError>)
      requires Valid()
      modifies this
      ensures Valid() && Follows(TakeU64(old(Rest())), r, Rest())
    {
      hide LittleEndian, LittleEndianBytes, Pow256;
      var slice :- Take(8);
      BytesOfLittleEndian(slice);
      U64Fits();
      r := Success(LittleEndian(slice));
    }

    method ReadBig(n: nat) returns (r: Result<nat, CodecError>)
      requires Valid()
      modifies this
      ensures Valid() && Follows(TakeBig(old(Rest()), n), r, Rest())
    {
      var slice :- Take(n);
      r := Success(BigEndian(slice));
    }

    method ReadVarint() returns (r: Result<u64, CodecError>)
      requires Valid()
      modifies this
      ensures Valid() && Follows(TakeVarint(old(Rest())), r, Rest())
    {
      var read :- ScanVarint(buf[pos..]);
      pos := pos + read.1;
      r := Success(read.0);
    }

    method ReadBytes() returns (r: Result<seq<u8>, CodecError>)
      requires Valid()
      modifies this
      ensures Valid() && Follows(TakePrefixed(old(Rest())), r, Rest())
    {
      hide TakeGroups;
      var length :- ReadVarint();
      var remaining := |buf| - pos;
      if length > remaining {
        return Failure(LengthTooBig(length, remaining));
      }
      r := Take(length);
    }

    /** Nothing may be left. */
    method Finish() returns (refusal: Option<CodecError>)
      requires Valid()
      ensures refusal == if Rest() == [] then None else Some(Trailing(|Rest()|))
    {
      refusal := if pos == |buf| then None else Some(Trailing(|buf| - pos));
    }
  }

  /** A read did what the parse function says. */
  ghost predicate Follows<T>(parsed: Parsed<T>, r: Result<T, CodecError>, rest: seq<u8>) {
    if parsed.Success? then r == Success(parsed.value.0) && rest == parsed.value.1 else r == Failure(parsed.error)
  }

  function Pow128(n: nat): nat {
    if n == 0 then 1 else 128 * Pow128(n - 1)
  }

  /** What the parse of the groups from the i-th on adds to a value read so far. */
  ghost predicate Adds(s: seq<u8>, i: nat, value: nat, whole: Parsed<nat>)
    requires i <= 9 && i <= |s|
  {
    var tail := TakeGroups(s[i..], i);
    if tail.Success? then whole == Success((value + Pow128(i) * tail.value.0, tail.value.1))
    else whole == Failure(tail.error)
  }

  /** The shifting accumulator over the bytes: the value and how many bytes it took. */
  method ScanVarint(bytes: seq<u8>) returns (r: Result<(u64, nat), CodecError>)
    ensures var whole := TakeVarint(bytes);
            if whole.Success? then r.Success? && r.value.0 == whole.value.0 && r.value.1 <= |bytes|
                                   && bytes[r.value.1..] == whole.value.1
            else r == Failure(whole.error)
  {
    hide TakeGroups, Room;
    var value: nat := 0;
    ghost var whole := TakeVarint(bytes);
    assert bytes[0..] == bytes;
    FirstGroup(bytes, whole);
    var i := 0;
    while i < |bytes|
      invariant 0 <= i <= 9 && i <= |bytes| && Adds(bytes, i, value, whole)
      decreases |bytes| - i
    {
      var byte := bytes[i];
      var payload := byte % 128;
      var terminates := byte < 128;
      if i == 9 {
        LastGroup(bytes, value, whole);
        if payload != 1 || !terminates {
          return Failure(InvalidVarint);
        }
        Bounded(bytes);
        return Success((value + Pow128(9), 10));
      }
      ghost var before := value;
      value := value + Pow128(i) * payload;
      if terminates {
        EndGroup(bytes, i, before, whole);
        if payload == 0 && i > 0 {
          return Failure(InvalidVarint);
        }
        Bounded(bytes);
        return Success((value, i + 1));
      }
      MoreGroups(bytes, i, before, whole);
      i := i + 1;
    }
    NoGroup(bytes, i, value, whole);
    r := Failure(InvalidVarint);
  }

  lemma Bounded(s: seq<u8>)
    ensures TakeVarint(s).Success? ==> TakeVarint(s).value.0 <= U64_MAX
  {
    if TakeVarint(s).Success? {
      VarintSound(s);
    }
  }

  lemma FirstGroup(s: seq<u8>, whole: Parsed<nat>)
    requires whole == TakeVarint(s)
    ensures Adds(s, 0, 0, whole)
  {
    hide TakeGroups;
    assert s[0..] == s;
  }

  lemma NoGroup(s: seq<u8>, i: nat, value: nat, whole: Parsed<nat>)
    requires i <= 9 && i == |s| && Adds(s, i, value, whole)
    ensures whole == Failure(InvalidVarint)
  {
  }

  lemma LastGroup(s: seq<u8>, value: nat, whole: Parsed<nat>)
    requires |s| > 9 && Adds(s, 9, value, whole)
    ensures s[9] == 1 ==> whole == Success((value + Pow128(9), s[10..]))
    ensures s[9] != 1 ==> whole == Failure(InvalidVarint)
  {
    hide Pow128;
    assert s[9..][0] == s[9] && s[9..][1..] == s[10..];
  }

  lemma EndGroup(s: seq<u8>, i: nat, value: nat, whole: Parsed<nat>)
    requires i < 9 && i < |s| && s[i] < 128 && Adds(s, i, value, whole)
    ensures s[i] == 0 && i > 0 ==> whole == Failure(InvalidVarint)
    ensures s[i] != 0 || i == 0 ==> whole == Success((value + Pow128(i) * s[i], s[i + 1..]))
  {
    hide Pow128;
    assert s[i..][0] == s[i] && s[i..][1..] == s[i + 1..];
  }

  lemma MoreGroups(s: seq<u8>, i: nat, value: nat, whole: Parsed<nat>)
    requires i < 9 && i < |s| && s[i] >= 128 && Adds(s, i, value, whole)
    ensures Adds(s, i + 1, value + Pow128(i) * (s[i] - 128), whole)
  {
    assert s[i..][0] == s[i] && s[i..][1..] == s[i + 1..];
    var more := TakeGroups(s[i + 1..], i + 1);
    assert Pow128(i + 1) == 128 * Pow128(i);
    if more.Success? {
      Spread(Pow128(i), s[i] - 128, more.value.0);
    }
  }

  lemma Spread(p: nat, b: nat, more: nat)
    ensures p * (b + 128 * more) == p * b + 128 * p * more
  {
  }
}
