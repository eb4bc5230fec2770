/** The LZ4 block encoder. */
module Lz4Encoder {
  import opened Basics
  import opened Lz4Format

  const DICTIONARY_SIZE: nat := 4096

  /** `n` is the length of the longest common prefix. */
  ghost predicate CommonPrefix(lhs: seq<byte>, rhs: seq<byte>, n: nat) {
    && n <= |lhs| && n <= |rhs| && (forall k :: 0 <= k < n ==> lhs[k] == rhs[k])
    && (n == |lhs| || n == |rhs| || lhs[n] != rhs[n])
  }

  /**
   Where two different four-byte words first differ: the number of trailing zero bytes in their
   exclusive or, read as little-endian words.
   */
  function FirstDifference(a: seq<byte>, b: seq<byte>): (n: nat)
    requires |a| == |b| == 4 && a != b
    ensures CommonPrefix(a, b, n) && n < 4
  {
    if a[0] != b[0] then 0 else if a[1] != b[1] then 1 else if a[2] != b[2] then 2 else 3
  }

  /** Compares word by word, then byte by byte. */
  method CommonPrefixLength(lhs: seq<byte>, rhs: seq<byte>) returns (count: nat)
    ensures CommonPrefix(lhs, rhs, count)
  {
    var length := Min(|lhs|, |rhs|);
    count := 0;
    while length >= 4
      invariant count + length == Min(|lhs|, |rhs|) && length >= 0
      invariant forall k :: 0 <= k < count ==> lhs[k] == rhs[k]
    {
      var a, b := lhs[count..count + 4], rhs[count..count + 4];
      if a != b {
        var n := FirstDifference(a, b);
        assert a[n] == lhs[count + n] && b[n] == rhs[count + n];
        forall k | count <= k < count + n ensures lhs[k] == rhs[k] {
          assert a[k - count] == b[k - count];
        }
        return count + n;
      }
      forall k | count <= k < count + 4 ensures lhs[k] == rhs[k] {
        assert a[k - count] == b[k - count];
      }
      length, count := length - 4, count + 4;
    }
    while length > 0
      invariant count + length == Min(|lhs|, |rhs|) && length >= 0
      invariant forall k :: 0 <= k < count ==> lhs[k] == rhs[k]
    {
      if lhs[count] != rhs[count] {
        return;
      }
      length, count := length - 1, count + 1;
    }
  }

  /** The bytes at `at` repeat for `n` bytes with the given offset. */
  ghost predicate Repeats(input: seq<byte>, at: nat, offset: nat, n: nat) {
    1 <= offset <= at && at + n <= |input| && forall k :: at <= k < at + n ==> input[k] == input[k - offset]
  }

  /** A literal run and the match after it reproduce the input up to the end of the match. */
  lemma BlockReproduces(input: seq<byte>, start: nat, literals: nat, dup: Duplicate)
    requires start + literals <= |input| && 1 <= dup.offset <= 0xFFFF
    requires Repeats(input, start + literals, dup.offset, dup.extraBytes + 4)
    ensures var b := Block(input[start..start + literals], Some(dup));
      Fits(input[..start], b) && ExpandBlock(input[..start], b) == input[..start + literals + dup.extraBytes + 4]
  {
    RepeatIsCopy(input, start + literals, dup.offset, dup.extraBytes + 4);
    assert input[..start] + input[start..start + literals] == input[..start + literals];
  }

  // ----- What the dictionary knows, and what is made of it

  /** The latest position before `cur` that was entered into a slot; more than four bytes follow each. */
  function Entered(input: seq<byte>, insertSlot: nat -> nat, cur: nat, slot: nat): (r: Option<nat>)
    ensures r.Some? ==> r.value < cur && r.value + 4 < |input|
  {
    if cur == 0 then None
    else if cur + 3 < |input| && insertSlot(cur - 1) % DICTIONARY_SIZE == slot then Some(cur - 1)
    else Entered(input, insertSlot, cur - 1, slot)
  }

  /** The dictionary suggests position `c` at `p`, and the four bytes there are those at `p` and in reach. */
  predicate Matches(input: seq<byte>, insertSlot: nat -> nat, lookupSlot: nat -> nat, p: nat, c: nat) {
    && p + 4 < |input| && Entered(input, insertSlot, p, lookupSlot(p) % DICTIONARY_SIZE) == Some(c)
    && p - c <= 0xFFFF && input[c..c + 4] == input[p..p + 4]
  }

  ghost predicate NoMatch(input: seq<byte>, insertSlot: nat -> nat, lookupSlot: nat -> nat, p: nat) {
    forall c: nat :: !Matches(input, insertSlot, lookupSlot, p, c)
  }

  /** The match at `p` is what the dictionary suggests, and it goes on as long as it can. */
  ghost predicate Longest(input: seq<byte>, insertSlot: nat -> nat, lookupSlot: nat -> nat, p: nat, dup: Duplicate) {
    var end := p + dup.extraBytes + 4;
    && 1 <= dup.offset <= p && Matches(input, insertSlot, lookupSlot, p, p - dup.offset)
    && end <= |input| && (end == |input| || input[end] != input[end - dup.offset])
  }

  /** The block at `at` has only bytes without a match for literals, and then the longest match. */
  ghost predicate Greedy(input: seq<byte>, insertSlot: nat -> nat, lookupSlot: nat -> nat, at: nat, b: Block) {
    && (forall p :: at <= p < at + |b.literals| ==> NoMatch(input, insertSlot, lookupSlot, p))
    && (b.dup.Some? ==> Longest(input, insertSlot, lookupSlot, at + |b.literals|, b.dup.value))
  }

  function Length(b: Block): nat { |b.literals| + if b.dup.Some? then 4 + b.dup.value.extraBytes else 0 }

  ghost predicate AllGreedy(input: seq<byte>, insertSlot: nat -> nat, lookupSlot: nat -> nat, at: nat,
      blocks: seq<Block>)
    decreases |blocks|
  {
    blocks != [] ==>
      && Greedy(input, insertSlot, lookupSlot, at, blocks[0])
      && AllGreedy(input, insertSlot, lookupSlot, at + Length(blocks[0]), blocks[1..])
  }

  lemma {:induction false} GreedyExtends(input: seq<byte>, insertSlot: nat -> nat, lookupSlot: nat -> nat,
      out: seq<byte>, blocks: seq<Block>, b: Block)
    requires Chain(out, blocks) && AllGreedy(input, insertSlot, lookupSlot, |out|, blocks)
    requires Greedy(input, insertSlot, lookupSlot, |Expand(out, blocks)|, b)
    ensures AllGreedy(input, insertSlot, lookupSlot, |out|, blocks + [b])
    decreases |blocks|
  {
    hide Greedy;
    if blocks == [] {
      assert blocks + [b] == [b] && [b][1..] == [];
    } else {
      var first := blocks[0];
      CopyLength(out + first.literals, first.dup.value.offset, first.dup.value.extraBytes + 4);
      assert (blocks + [b])[0] == first && (blocks + [b])[1..] == blocks[1..] + [b];
      GreedyExtends(input, insertSlot, lookupSlot, ExpandBlock(out, first), blocks[1..], b);
    }
  }

  /**
   A run of one byte becomes one literal and one match, if the dictionary finds at the second position what was
   entered at the first, as it does when slots depend on the bytes only.
   */
  lemma RunBlocks(input: seq<byte>, insertSlot: nat -> nat, lookupSlot: nat -> nat, blocks: seq<Block>, last: Block)
    requires |input| > 5 && forall i :: 0 <= i < |input| ==> input[i] == input[0]
    requires insertSlot(0) % DICTIONARY_SIZE == lookupSlot(1) % DICTIONARY_SIZE
    requires Chain([], blocks) && last.dup.None? && Expand([], blocks) + last.literals == input
    requires AllGreedy(input, insertSlot, lookupSlot, 0, blocks + [last])
    ensures blocks == [Block([input[0]], Some(Duplicate(1, |input| - 5)))] && last.literals == []
  {
    hide Greedy, ExpandBlock;
    var all := blocks + [last];
    var first := all[0];
    RunStart(input, insertSlot, lookupSlot, first);
    assert blocks != [];
    assert [] + first.literals == first.literals;
    BlockStandsFor([], first);
    var next := ExpandBlock([], first);
    assert |next| == |input|;
    ExpandGrows(next, blocks[1..]);
    assert blocks[1..] == [] && Expand([], blocks) == next;
    assert next == input && next[..1] == first.literals;
    assert first.literals == [input[0]];
    assert blocks == [first];
  }

  /** The first block of a run: the second position matches the first. */
  lemma RunStart(input: seq<byte>, insertSlot: nat -> nat, lookupSlot: nat -> nat, b: Block)
    requires |input| > 5 && forall i :: 0 <= i < |input| ==> input[i] == input[0]
    requires insertSlot(0) % DICTIONARY_SIZE == lookupSlot(1) % DICTIONARY_SIZE
    requires Greedy(input, insertSlot, lookupSlot, 0, b)
    ensures |b.literals| <= 1 && (b.dup.Some? ==> |b.literals| == 1 && b.dup.value == Duplicate(1, |input| - 5))
  {
    assert Entered(input, insertSlot, 1, lookupSlot(1) % DICTIONARY_SIZE) == Some(0);
    assert input[0..4] == input[1..5];
    assert Matches(input, insertSlot, lookupSlot, 1, 0);
    assert !NoMatch(input, insertSlot, lookupSlot, 1);
  }

  lemma {:induction false} ExpandGrows(out: seq<byte>, blocks: seq<Block>)
    requires Chain(out, blocks)
    ensures |Expand(out, blocks)| >= |out| + 4 * |blocks|
    decreases |blocks|
  {
    if blocks != [] {
      var b := blocks[0];
      CopyLength(out + b.literals, b.dup.value.offset, b.dup.value.extraBytes + 4);
      ExpandGrows(ExpandBlock(out, b), blocks[1..]);
    }
  }

  /**
   The encoder. Which dictionary slot a position goes to, and which one is looked up for it, is left
   to arbitrary functions: the hash only decides which earlier positions are tried.
   */
  class Encoder {
    const input: seq<byte>
    const insertSlot: nat -> nat
    const lookupSlot: nat -> nat
    const dict: array<Option<nat>>
    var output: seq<byte>
    var cur: nat

    /** Every slot holds the latest position entered into it. */
    ghost predicate Valid()
      reads this, dict
    {
      && dict.Length == DICTIONARY_SIZE
      && forall i :: 0 <= i < dict.Length ==> dict[i] == Entered(input, insertSlot, cur, i)
    }

    constructor (input: seq<byte>, output: seq<byte>, insertSlot: nat -> nat, lookupSlot: nat -> nat)
      ensures Valid() && fresh(dict) && this.input == input && this.output == output && cur == 0
      ensures this.insertSlot == insertSlot && this.lookupSlot == lookupSlot
    {
      this.input, this.output, cur := input, output, 0;
      this.insertSlot, this.lookupSlot := insertSlot, lookupSlot;
      dict := new Option<nat>[DICTIONARY_SIZE](_ => None);
    }

    predicate RemainingBatch()
      reads this
    {
      cur + 4 < |input|
    }

    /** Enters the position of the cursor into the dictionary and passes it. */
    method EnterCursor()
      requires Valid() && RemainingBatch()
      modifies this`cur, dict
      ensures Valid() && cur == old(cur) + 1
    {
      var slot := insertSlot(cur) % DICTIONARY_SIZE;
      dict[slot] := Some(cur);
      cur := cur + 1;
    }

    /** Moves the cursor, entering every position passed into the dictionary; false beyond the end. */
    method GoForward(steps: nat) returns (more: bool)
      requires Valid()
      modifies this`cur, dict
      ensures Valid() && cur == old(cur) + steps
      ensures more <==> cur <= |input|
    {
      if cur + steps + 7 <= |input| {
        for i := 0 to steps
          invariant Valid() && cur == old(cur) + i
        {
          EnterCursor();
        }
        return true;
      }
      for i := 0 to steps
        invariant Valid() && cur == old(cur) + i
      {
        if RemainingBatch() {
          EnterCursor();
        } else {
          cur := cur + 1;
        }
      }
      return cur <= |input|;
    }

    /** A match at the cursor, as long as possible, if the candidate of its slot really is one in reach. */
    method FindDuplicate() returns (r: Option<Duplicate>)
      requires Valid()
      ensures r.Some? ==> 1 <= r.value.offset <= 0xFFFF && Repeats(input, cur, r.value.offset, r.value.extraBytes + 4)
      ensures r.Some? ==> Longest(input, insertSlot, lookupSlot, cur, r.value)
      ensures r.None? ==> NoMatch(input, insertSlot, lookupSlot, cur)
    {
      hide Entered;
      if !RemainingBatch() {
        return None;
      }
      var slot := dict[lookupSlot(cur) % DICTIONARY_SIZE];
      if slot.None? {
        return None;
      }
      var candidate := slot.value;
      if input[candidate..candidate + 4] == input[cur..cur + 4] && cur - candidate <= 0xFFFF {
        var lhs, rhs := input[cur + 4..], input[candidate + 4..];
        var ext := CommonPrefixLength(lhs, rhs);
        var offset := cur - candidate;
        forall k | cur <= k < cur + ext + 4 ensures input[k] == input[k - offset] {
          if k < cur + 4 {
            assert input[candidate..candidate + 4][k - cur] == input[cur..cur + 4][k - cur];
          } else {
            assert lhs[k - cur - 4] == rhs[k - cur - 4];
          }
        }
        return Some(Duplicate(offset, ext));
      }
      return None;
    }

    /** The length of the next literal run and the match that ends it, if any. */
    method PopBlock() returns (literals: nat, dup: Option<Duplicate>)
      requires Valid() && cur <= |input|
      modifies this`cur, dict
      ensures Valid() && old(cur) + literals <= |input|
      ensures dup.Some? ==> 1 <= dup.value.offset <= 0xFFFF
      ensures dup.Some? ==> Repeats(input, old(cur) + literals, dup.value.offset, dup.value.extraBytes + 4)
      ensures dup.Some? ==> cur == old(cur) + literals + dup.value.extraBytes + 4
      ensures dup.None? ==> old(cur) + literals == |input|
      ensures Greedy(input, insertSlot, lookupSlot, old(cur), Block(input[old(cur)..old(cur) + literals], dup))
    {
      hide Entered, NoMatch, Longest;
      literals := 0;
      while true
        invariant Valid() && cur == old(cur) + literals <= |input|
        invariant forall p :: old(cur) <= p < cur ==> NoMatch(input, insertSlot, lookupSlot, p)
        decreases |input| - cur
      {
        dup := FindDuplicate();
        if dup.Some? {
          var _ := GoForward(dup.value.extraBytes + 4);
          return;
        }
        var more := GoForward(1);
        if !more {
          return;
        }
        literals := literals + 1;
      }
    }

    /** Writes a linear small-integer code. */
    method WriteInteger(n: nat)
      modifies this`output
      ensures output == old(output) + Lsic(n)
    {
      var left := n;
      while left >= 255
        invariant output + Lsic(left) == old(output) + Lsic(n)
        decreases left
      {
        ConcatAssoc(output, [255], Lsic(left - 255));
        left, output := left - 255, output + [255];
      }
      output := output + [left];
    }

    /** Writes what a length has beyond its half-token. */
    method WriteExtension(n: nat)
      modifies this`output
      ensures output == old(output) + LengthExtension(n)
    {
      if n >= 15 {
        WriteInteger(n - 15);
      }
    }

    /** Writes one block; `b` is what the bytes stand for. */
    method WriteBlock(start: nat, literals: nat, dup: Option<Duplicate>, ghost b: Block)
      requires start + literals <= |input| && b == Block(input[start..start + literals], dup)
      requires dup.Some? ==> dup.value.offset < 0x1_0000
      modifies this`output
      ensures output == old(output) + BlockBytes(b)
    {
      var extra := if dup.Some? then dup.value.extraBytes else 0;
      var high := if literals < 15 then literals * 16 else 0xF0;
      var low := if extra < 15 then extra else 15;
      ghost var before, token, extension := output, [high + low], LengthExtension(literals);
      output := output + [high + low];
      WriteExtension(literals);
      ConcatAssoc(before, token, extension);
      output := output + input[start..start + literals];
      ConcatAssoc(before, token + extension, b.literals);
      if dup.Some? {
        ghost var written, offset := output, [dup.value.offset % 256, dup.value.offset / 256];
        output := output + [dup.value.offset % 256, dup.value.offset / 256];
        WriteExtension(extra);
        ConcatAssoc(written, offset, LengthExtension(extra));
      }
      ConcatAssoc(before, token + extension + b.literals, DuplicateBytes(b));
    }

    /** The blocks stand for the input up to the cursor, and `written` is their bytes. */
    ghost predicate Encoded(blocks: seq<Block>, written: seq<byte>)
      reads this, dict
    {
      && Valid() && cur <= |input|
      && Chain([], blocks) && Expand([], blocks) == input[..cur] && written == Serialize([], blocks)
      && AllGreedy(input, insertSlot, lookupSlot, 0, blocks)
    }

    /** Encodes one block after the given ones; the last block ends the input. */
    method EncodeBlock(ghost blocks: seq<Block>, ghost written: seq<byte>) returns (more: bool, ghost b: Block)
      requires Encoded(blocks, written)
      modifies this, dict
      ensures b.dup.Some? ==> b.dup.value.offset <= 0xFFFF
      ensures output == old(output) + BlockBytes(b)
      ensures more ==> cur > old(cur) && Encoded(blocks + [b], written + BlockBytes(b))
      ensures !more ==> b.dup.None? && Expand([], blocks) + b.literals == input
      ensures AllGreedy(input, insertSlot, lookupSlot, 0, blocks + [b])
    {
      hide BlockBytes, Serialize, Greedy, AllGreedy, Entered;
      var start := cur;
      var literals, dup := PopBlock();
      b := Block(input[start..start + literals], dup);
      WriteBlock(start, literals, dup, b);
      GreedyExtends(input, insertSlot, lookupSlot, [], blocks, b);
      more := dup.Some?;
      if more {
        BlockReproduces(input, start, literals, dup.value);
        ChainExtends([], blocks, b);
      } else {
        assert input[..start] + input[start..] == input;
      }
    }

    /** Encodes the whole input, block by block; the blocks written are returned for the proof. */
    method Complete() returns (ghost blocks: seq<Block>, ghost last: Block)
      requires Valid() && cur == 0
      modifies this, dict
      ensures Chain([], blocks) && last.dup.None?
      ensures Expand([], blocks) + last.literals == input
      ensures output == old(output) + (Serialize([], blocks) + BlockBytes(last))
      ensures AllGreedy(input, insertSlot, lookupSlot, 0, blocks + [last])
    {
      blocks := [];
      ghost var written: seq<byte> := [];
      while true
        invariant Encoded(blocks, written) && output == old(output) + written
        decreases |input| - cur
      {
        var more;
        more, last := EncodeBlock(blocks, written);
        ConcatAssoc(old(output), written, BlockBytes(last));
        if !more {
          return;
        }
        blocks, written := blocks + [last], written + BlockBytes(last);
      }
    }
  }

  /** Compresses `input` onto the end of `output`. */
  method CompressInto(input: seq<byte>, output: seq<byte>, insertSlot: nat -> nat, lookupSlot: nat -> nat)
    returns (r: seq<byte>, ghost blocks: seq<Block>, ghost last: Block)
    ensures Chain([], blocks) && last.dup.None? && Expand([], blocks) + last.literals == input
    ensures r == output + (Serialize([], blocks) + BlockBytes(last))
    ensures AllGreedy(input, insertSlot, lookupSlot, 0, blocks + [last])
  {
    var encoder := new Encoder(input, output, insertSlot, lookupSlot);
    blocks, last := encoder.Complete();
    r := encoder.output;
  }

  /** A run of one byte, where the dictionary finds at the second position what was entered at the first. */
  ghost predicate IsRun(input: seq<byte>, insertSlot: nat -> nat, lookupSlot: nat -> nat) {
    && |input| > 5 && (forall i :: 0 <= i < |input| ==> input[i] == input[0])
    && insertSlot(0) % DICTIONARY_SIZE == lookupSlot(1) % DICTIONARY_SIZE
  }

  /**
   Whatever the dictionary suggests, the result decodes to the input and is at most n + n/255 + 2 bytes long; for
   a run of one byte it is at most n/255 + 6.
   */
  method Compress(input: seq<byte>, insertSlot: nat -> nat, lookupSlot: nat -> nat) returns (r: seq<byte>)
    ensures Decode(r, []) == Ok(input)
    ensures 1 <= |r| <= |input| + |input| / 255 + 2
    ensures IsRun(input, insertSlot, lookupSlot) ==> |r| <= |input| / 255 + 6
  {
    ghost var blocks, last;
    r, blocks, last := CompressInto(input, [], insertSlot, lookupSlot);
    DecodeSerialized(blocks, last, []);
    SerializedSize(blocks, last);
    assert r == Serialize([], blocks) + BlockBytes(last);
    if IsRun(input, insertSlot, lookupSlot) {
      RunBlocks(input, insertSlot, lookupSlot, blocks, last);
      RunSize(input[0], |input| - 5, last);
    }
  }

  lemma RunSize(x: byte, extra: nat, last: Block)
    requires last == Block([], None)
    ensures var b := Block([x], Some(Duplicate(1, extra)));
      Chain([], [b]) && |Serialize([], [b]) + BlockBytes(last)| <= (extra + 5) / 255 + 6
  {
    var b := Block([x], Some(Duplicate(1, extra)));
    BlockLayout(b);
    BlockLayout(last);
    assert [b][1..] == [];
    assert Serialize([], [b]) == BlockBytes(b) + Serialize(ExpandBlock([], b), []);
  }
}
