/** The LZ4 block format: what a block sequence means and how it is written as bytes. */
module Lz4Format {
  import opened Basics

  /** A run of earlier output to repeat: how far back it starts, and its length beyond four bytes. */
  datatype Duplicate = Duplicate(offset: nat, extraBytes: nat)

  datatype Block = Block(literals: seq<byte>, dup: Option<Duplicate>)

  datatype Error = ExpectedAnotherByte | OffsetOutOfBounds

  /** A linear small-integer code: bytes are added up until one is below 255. */
  function Lsic(n: nat): seq<byte> {
    if n < 255 then [n] else [255] + Lsic(n - 255)
  }

  /** A length as it fits into half a token. */
  function Nibble(n: nat): nat { Min(n, 15) }

  function LengthExtension(n: nat): seq<byte> {
    if n < 15 then [] else Lsic(n - 15)
  }

  function ExtraBytes(b: Block): nat {
    if b.dup.Some? then b.dup.value.extraBytes else 0
  }

  function DuplicateBytes(b: Block): seq<byte>
    requires b.dup.Some? ==> b.dup.value.offset < 0x1_0000
  {
    if b.dup.None? then []
    else [b.dup.value.offset % 256, b.dup.value.offset / 256] + LengthExtension(b.dup.value.extraBytes)
  }

  /** One block: token, literal length, literals, offset and match length. */
  function BlockBytes(b: Block): seq<byte>
    requires b.dup.Some? ==> b.dup.value.offset < 0x1_0000
  {
    [Nibble(|b.literals|) * 16 + Nibble(ExtraBytes(b))]
      + LengthExtension(|b.literals|) + b.literals + DuplicateBytes(b)
  }

  /** `out` followed by `n` bytes, each a copy of the one `offset` bytes before it. */
  function CopyMatch(out: seq<byte>, offset: nat, n: nat): seq<byte>
    requires 1 <= offset <= |out|
    decreases n
  {
    if n == 0 then out else CopyMatch(out + [out[|out| - offset]], offset, n - 1)
  }

  /** A block can follow output `out`. */
  predicate Fits(out: seq<byte>, b: Block) {
    b.dup.Some? ==> 1 <= b.dup.value.offset <= 0xFFFF && b.dup.value.offset <= |out| + |b.literals|
  }

  /** The output after a block. */
  function ExpandBlock(out: seq<byte>, b: Block): seq<byte>
    requires Fits(out, b)
  {
    if b.dup.None? then out + b.literals
    else CopyMatch(out + b.literals, b.dup.value.offset, b.dup.value.extraBytes + 4)
  }

  /** Blocks with matches, each fitting what came before it. */
  ghost predicate Chain(out: seq<byte>, blocks: seq<Block>)
    decreases |blocks|
  {
    blocks != [] ==> blocks[0].dup.Some? && Fits(out, blocks[0]) && Chain(ExpandBlock(out, blocks[0]), blocks[1..])
  }

  ghost function Expand(out: seq<byte>, blocks: seq<Block>): seq<byte>
    requires Chain(out, blocks)
    decreases |blocks|
  {
    if blocks == [] then out else Expand(ExpandBlock(out, blocks[0]), blocks[1..])
  }

  /** The bytes of a chain of blocks. */
  ghost function Serialize(out: seq<byte>, blocks: seq<Block>): seq<byte>
    requires Chain(out, blocks)
    decreases |blocks|
  {
    if blocks == [] then [] else BlockBytes(blocks[0]) + Serialize(ExpandBlock(out, blocks[0]), blocks[1..])
  }

  lemma {:induction false} ChainExtends(out: seq<byte>, blocks: seq<Block>, b: Block)
    requires Chain(out, blocks) && b.dup.Some? && Fits(Expand(out, blocks), b)
    ensures Chain(out, blocks + [b])
    ensures Expand(out, blocks + [b]) == ExpandBlock(Expand(out, blocks), b)
    ensures Serialize(out, blocks + [b]) == Serialize(out, blocks) + BlockBytes(b)
    decreases |blocks|
  {
    if blocks == [] {
      assert blocks + [b] == [b];
      assert BlockBytes(b) + [] == BlockBytes(b);
    } else {
      var next := ExpandBlock(out, blocks[0]);
      assert (blocks + [b])[0] == blocks[0] && (blocks + [b])[1..] == blocks[1..] + [b];
      ChainExtends(next, blocks[1..], b);
      ConcatAssoc(BlockBytes(blocks[0]), Serialize(next, blocks[1..]), BlockBytes(b));
    }
  }

  /** A run that repeats with the given offset is a match copy of what precedes it. */
  lemma {:induction false} RepeatIsCopy(s: seq<byte>, p: nat, offset: nat, n: nat)
    requires 1 <= offset <= p && p + n <= |s|
    requires forall k :: p <= k < p + n ==> s[k] == s[k - offset]
    ensures CopyMatch(s[..p], offset, n) == s[..p + n]
    decreases n
  {
    if n > 0 {
      assert s[..p] + [s[..p][p - offset]] == s[..p + 1] by { assert s[p] == s[p - offset]; }
      RepeatIsCopy(s, p + 1, offset, n - 1);
    }
  }

  lemma {:induction false} CopyLength(out: seq<byte>, offset: nat, n: nat)
    requires 1 <= offset <= |out|
    ensures |CopyMatch(out, offset, n)| == |out| + n
    decreases n
  {
    if n > 0 {
      CopyLength(out + [out[|out| - offset]], offset, n - 1);
    }
  }

  // ----- Decoding

  /** Reads a linear small-integer code off the front of the input. */
  function ReadLsic(input: seq<byte>): Option<(nat, seq<byte>)> {
    if input == [] then None
    else if input[0] != 255 then Some((input[0], input[1..]))
    else match ReadLsic(input[1..])
      case None => None
      case Some((n, rest)) => Some((255 + n, rest))
  }

  /** Reads the rest of a length whose half-token is `nibble`. */
  function ReadLength(nibble: nat, input: seq<byte>): Option<(nat, seq<byte>)> {
    if nibble != 15 then Some((nibble, input))
    else match ReadLsic(input)
      case None => None
      case Some((n, rest)) => Some((15 + n, rest))
  }

  lemma {:induction false} ReadLsicShrinks(input: seq<byte>)
    ensures ReadLsic(input).Some? ==> |ReadLsic(input).value.1| < |input|
  {
    if input != [] && input[0] == 255 {
      ReadLsicShrinks(input[1..]);
    }
  }

  /** What the front of the input holds: nothing readable, the last literals, or a full block. */
  datatype Parsed =
    | Bad(error: Error)
    | Last(literals: seq<byte>)
    | Full(literals: seq<byte>, offset: nat, extra: nat, rest: seq<byte>)

  function ParseMatch(literals: seq<byte>, nibble: nat, input: seq<byte>): Parsed {
    if |input| < 2 then Bad(ExpectedAnotherByte)
    else
      var low: nat, high: nat := input[0], input[1];
      match ReadLength(nibble, input[2..])
      case None => Bad(ExpectedAnotherByte)
      case Some((extra, rest)) => Full(literals, low + 256 * high, extra, rest)
  }

  function ParseBlock(token: byte, input: seq<byte>): Parsed {
    match ReadLength(token / 16, input)
    case None => Bad(ExpectedAnotherByte)
    case Some((n, rest)) =>
      if |rest| < n then Bad(ExpectedAnotherByte)
      else if |rest| == n then Last(rest)
      else ParseMatch(rest[..n], token % 16, rest[n..])
  }

  lemma ParseShrinks(token: byte, input: seq<byte>)
    ensures ParseBlock(token, input).Full? ==> |ParseBlock(token, input).rest| < |input|
  {
    ReadLsicShrinks(input);
    match ReadLength(token / 16, input) {
      case None =>
      case Some((n, rest)) =>
        if |rest| >= n + 2 { ReadLsicShrinks(rest[n..][2..]); }
    }
  }

  /** The reference decoder: the output after reading all of `input`, given the output so far. */
  function Decode(input: seq<byte>, out: seq<byte>): Result<seq<byte>, Error>
    decreases |input|
  {
    if input == [] then Ok(out)
    else
      ParseShrinks(input[0], input[1..]);
      match ParseBlock(input[0], input[1..])
      case Bad(error) => Err(error)
      case Last(literals) => Ok(out + literals)
      case Full(literals, offset, extra, rest) =>
        if 1 <= offset <= |out| + |literals| then Decode(rest, CopyMatch(out + literals, offset, extra + 4))
        else Err(OffsetOutOfBounds)
  }

  lemma {:induction false} ReadLsicWritten(n: nat, rest: seq<byte>)
    ensures ReadLsic(Lsic(n) + rest) == Some((n, rest))
  {
    if n < 255 {
      assert ([n] + rest)[1..] == rest;
    } else {
      assert (Lsic(n) + rest)[1..] == Lsic(n - 255) + rest;
      ReadLsicWritten(n - 255, rest);
    }
  }

  lemma ReadLengthWritten(n: nat, rest: seq<byte>)
    ensures ReadLength(Nibble(n), LengthExtension(n) + rest) == Some((n, rest))
  {
    if n < 15 {
      assert LengthExtension(n) + rest == rest;
    } else {
      ReadLsicWritten(n - 15, rest);
    }
  }

  lemma ParseMatchWritten(literals: seq<byte>, dup: Duplicate, rest: seq<byte>)
    requires dup.offset <= 0xFFFF
    ensures ParseMatch(literals, Nibble(dup.extraBytes), DuplicateBytes(Block(literals, Some(dup))) + rest)
         == Full(literals, dup.offset, dup.extraBytes, rest)
  {
    var head, extension := [dup.offset % 256, dup.offset / 256], LengthExtension(dup.extraBytes);
    ConcatAssoc(head, extension, rest);
    ConcatPeel(head, extension + rest);
    ReadLengthWritten(dup.extraBytes, rest);
  }

  lemma TokenParts(n: nat, low: nat)
    requires low < 16
    ensures var token := Nibble(n) * 16 + low; token < 256 && token / 16 == Nibble(n) && token % 16 == low
  {}

  lemma ParseLiteralsWritten(nibble: nat, literals: seq<byte>, tail: seq<byte>)
    requires nibble < 16
    ensures ParseBlock(Nibble(|literals|) * 16 + nibble, LengthExtension(|literals|) + (literals + tail))
         == if tail == [] then Last(literals) else ParseMatch(literals, nibble, tail)
  {
    hide ReadLsic, ReadLength, LengthExtension, ParseMatch, Nibble;
    TokenParts(|literals|, nibble);
    ReadLengthWritten(|literals|, literals + tail);
    ConcatPeel(literals, tail);
  }

  /** Decoding a block with a match reads exactly its bytes. */
  lemma DecodeBlock(b: Block, rest: seq<byte>, out: seq<byte>)
    requires b.dup.Some? && Fits(out, b)
    ensures Decode(BlockBytes(b) + rest, out) == Decode(rest, ExpandBlock(out, b))
  {
    hide ReadLsic, ReadLength, LengthExtension, ParseMatch, ParseBlock, Decode;
    var lits, dup, nibble := b.literals, b.dup.value, Nibble(ExtraBytes(b));
    var tail := DuplicateBytes(b) + rest;
    ParseLiteralsWritten(nibble, lits, tail);
    ParseMatchWritten(lits, dup, rest);
    TokenFirst(Nibble(|lits|) * 16 + nibble, LengthExtension(|lits|), lits, DuplicateBytes(b), rest);
    DecodeFull(BlockBytes(b) + rest, out, lits, dup, rest);
  }

  lemma DecodeFull(input: seq<byte>, out: seq<byte>, literals: seq<byte>, dup: Duplicate, rest: seq<byte>)
    requires input != [] && ParseBlock(input[0], input[1..]) == Full(literals, dup.offset, dup.extraBytes, rest)
    requires 1 <= dup.offset <= |out| + |literals|
    ensures Decode(input, out) == Decode(rest, CopyMatch(out + literals, dup.offset, dup.extraBytes + 4))
  {
    hide ParseBlock, CopyMatch;
    ParseShrinks(input[0], input[1..]);
  }

  lemma TokenFirst(token: byte, a: seq<byte>, b: seq<byte>, c: seq<byte>, d: seq<byte>)
    ensures ([token] + a + b + c + d)[0] == token
    ensures ([token] + a + b + c + d)[1..] == a + (b + (c + d))
  {}

  /** Decoding the last block, which has no match, ends the input. */
  lemma DecodeLast(b: Block, out: seq<byte>)
    requires b.dup.None?
    ensures Decode(BlockBytes(b), out) == Ok(out + b.literals)
  {
    var lits := b.literals;
    ParseLiteralsWritten(0, lits, []);
    TokenFirst(Nibble(|lits|) * 16, LengthExtension(|lits|), lits, [], []);
    assert BlockBytes(b) == BlockBytes(b) + [];
  }

  /** Decoding undoes serialization, for every well-formed sequence of blocks. */
  lemma {:induction false} DecodeSerialized(blocks: seq<Block>, last: Block, out: seq<byte>)
    requires Chain(out, blocks) && last.dup.None?
    ensures Decode(Serialize(out, blocks) + BlockBytes(last), out) == Ok(Expand(out, blocks) + last.literals)
    decreases |blocks|
  {
    var end := BlockBytes(last);
    if blocks == [] {
      ConcatPeel([], end);
      DecodeLast(last, out);
    } else {
      var next := ExpandBlock(out, blocks[0]);
      var rest := Serialize(next, blocks[1..]);
      ConcatAssoc(BlockBytes(blocks[0]), rest, end);
      DecodeBlock(blocks[0], rest + end, out);
      DecodeSerialized(blocks[1..], last, next);
    }
  }

  // ----- The bytes of a block

  lemma {:induction false} LsicBytes(n: nat)
    ensures |Lsic(n)| == n / 255 + 1 && Lsic(n)[n / 255] == n % 255
    ensures forall i :: 0 <= i < n / 255 ==> Lsic(n)[i] == 255
  {
    if n >= 255 {
      LsicBytes(n - 255);
      assert n / 255 == (n - 255) / 255 + 1;
      forall i | 0 <= i < n / 255 ensures Lsic(n)[i] == 255 {
        assert i > 0 ==> Lsic(n)[i] == Lsic(n - 255)[i - 1];
      }
    }
  }

  /** How many bytes follow the token for a length. */
  function ExtensionSize(n: nat): nat { if n < 15 then 0 else (n - 15) / 255 + 1 }

  /** These bytes hold the rest of a length: as many 255 as there can be, and what remains. */
  predicate HoldsLength(bytes: seq<byte>, at: nat, n: nat) {
    && at + ExtensionSize(n) <= |bytes|
    && (n >= 15 ==> bytes[at + (n - 15) / 255] == (n - 15) % 255)
    && (n >= 15 ==> forall i :: at <= i < at + (n - 15) / 255 ==> bytes[i] == 255)
  }

  lemma ExtensionBytes(before: seq<byte>, n: nat, after: seq<byte>)
    ensures |LengthExtension(n)| == ExtensionSize(n)
    ensures HoldsLength(before + LengthExtension(n) + after, |before|, n)
  {
    if n >= 15 {
      LsicBytes(n - 15);
      var bytes := before + LengthExtension(n) + after;
      forall i | |before| <= i < |before| + ExtensionSize(n) ensures bytes[i] == Lsic(n - 15)[i - |before|] {
      }
    }
  }

  /**
   The bytes of a block: the lengths in the halves of the token, the rest of the literal length, the literals, the
   offset with its low byte first, and the rest of the match length.
   */
  lemma BlockLayout(b: Block)
    requires b.dup.Some? ==> b.dup.value.offset < 0x1_0000
    ensures var bytes, n := BlockBytes(b), |b.literals|;
      var p := 1 + ExtensionSize(n);
      && |bytes| >= p + n && bytes[0] / 16 == Min(n, 15) && bytes[0] % 16 == Min(ExtraBytes(b), 15)
      && HoldsLength(bytes, 1, n) && bytes[p..p + n] == b.literals
      && (b.dup.None? ==> |bytes| == p + n)
      && (b.dup.Some? ==>
            && |bytes| == p + n + 2 + ExtensionSize(b.dup.value.extraBytes)
            && bytes[p + n] == b.dup.value.offset % 256 && bytes[p + n + 1] == b.dup.value.offset / 256
            && HoldsLength(bytes, p + n + 2, b.dup.value.extraBytes))
  {
    hide LengthExtension, HoldsLength;
    var n := |b.literals|;
    var token, extension := [Nibble(n) * 16 + Nibble(ExtraBytes(b))], LengthExtension(n);
    var bytes := BlockBytes(b);
    assert bytes == token + extension + (b.literals + DuplicateBytes(b));
    ExtensionBytes(token, n, b.literals + DuplicateBytes(b));
    if b.dup.Some? {
      var head := token + extension + b.literals + [b.dup.value.offset % 256, b.dup.value.offset / 256];
      assert bytes == head + LengthExtension(b.dup.value.extraBytes) + [];
      ExtensionBytes(head, b.dup.value.extraBytes, []);
    }
  }

  lemma {:induction false} CopyBytes(out: seq<byte>, offset: nat, n: nat)
    requires 1 <= offset <= |out|
    ensures var r := CopyMatch(out, offset, n);
      |r| == |out| + n && r[..|out|] == out && forall i :: |out| <= i < |r| ==> r[i] == r[i - offset]
    decreases n
  {
    if n > 0 {
      var next := out + [out[|out| - offset]];
      CopyBytes(next, offset, n - 1);
      var r := CopyMatch(out, offset, n);
      assert r[..|next|] == next;
      assert r[..|out|] == next[..|out|] && r[|out|] == next[|out|];
      assert r[|out| - offset] == next[|out| - offset];
    }
  }

  /** What a block stands for: its literals, then four bytes and the extra ones, each like the one an offset before. */
  lemma BlockStandsFor(out: seq<byte>, b: Block)
    requires Fits(out, b)
    ensures var r, p := ExpandBlock(out, b), |out| + |b.literals|;
      && |r| == p + (if b.dup.Some? then 4 + b.dup.value.extraBytes else 0)
      && r[..p] == out + b.literals
      && (b.dup.Some? ==> forall i :: p <= i < |r| ==> r[i] == r[i - b.dup.value.offset])
  {
    if b.dup.Some? {
      CopyBytes(out + b.literals, b.dup.value.offset, b.dup.value.extraBytes + 4);
    }
  }

  // ----- Worst case size

  /** A block with a match takes no more bytes than it stands for, but for long literal runs. */
  lemma BlockSize(b: Block, out: seq<byte>)
    requires b.dup.Some? && Fits(out, b)
    ensures |BlockBytes(b)| <= |ExpandBlock(out, b)| - |out| + |b.literals| / 255
  {
    var dup := b.dup.value;
    CopyLength(out + b.literals, dup.offset, dup.extraBytes + 4);
    if |b.literals| >= 15 { LsicBytes(|b.literals| - 15); }
    if dup.extraBytes >= 15 { LsicBytes(dup.extraBytes - 15); }
  }

  lemma LastBlockSize(b: Block)
    requires b.dup.None?
    ensures |BlockBytes(b)| <= |b.literals| + |b.literals| / 255 + 2
  {
    if |b.literals| >= 15 { LsicBytes(|b.literals| - 15); }
  }

  lemma {:induction false} ChainSize(blocks: seq<Block>, out: seq<byte>)
    requires Chain(out, blocks)
    ensures |out| <= |Expand(out, blocks)|
    ensures |Serialize(out, blocks)| <= |Expand(out, blocks)| - |out| + (|Expand(out, blocks)| - |out|) / 255
    decreases |blocks|
  {
    if blocks != [] {
      var next := ExpandBlock(out, blocks[0]);
      BlockSize(blocks[0], out);
      CopyLength(out + blocks[0].literals, blocks[0].dup.value.offset, blocks[0].dup.value.extraBytes + 4);
      ChainSize(blocks[1..], next);
    }
  }

  /** The compressed size is at most n + n/255 + 2 for n bytes of input. */
  lemma SerializedSize(blocks: seq<Block>, last: Block)
    requires Chain([], blocks) && last.dup.None?
    ensures var n := |Expand([], blocks) + last.literals|;
      |Serialize([], blocks) + BlockBytes(last)| <= n + n / 255 + 2
  {
    ChainSize(blocks, []);
    LastBlockSize(last);
  }
}
