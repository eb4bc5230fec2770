/** The LZ4 block decoder, proved against the reference decoder on every input. */
module Lz4Decoder {
  import opened Basics
  import opened Lz4Format
  import Lz4Encoder

  class Decoder {
    var input: seq<byte>
    var output: seq<byte>
    var token: byte

    constructor (input: seq<byte>, output: seq<byte>)
      ensures this.input == input && this.output == output
    {
      this.input, this.output, token := input, output, 0;
    }

    /** Takes `n` bytes off the front of the input, or nothing if there are fewer. */
    method Take(n: nat) returns (r: Result<seq<byte>, Error>)
      modifies this`input
      ensures |old(input)| < n ==> r == Err(ExpectedAnotherByte) && input == old(input)
      ensures |old(input)| >= n ==> r == Ok(old(input)[..n]) && input == old(input)[n..]
    {
      if |input| < n {
        return Err(ExpectedAnotherByte);
      }
      r := Ok(input[..n]);
      input := input[n..];
    }

    /** Appends a match: byte by byte when it overlaps the end of the output, in one piece otherwise. */
    method Duplicate(start: nat, matchLength: nat)
      requires start < |output|
      modifies this`output
      ensures output == CopyMatch(old(output), |old(output)| - start, matchLength)
    {
      ghost var before, offset := output, |output| - start;
      if start + matchLength > |output| {
        for i := start to start + matchLength
          invariant |output| == i + offset && before <= output
          invariant forall k :: |before| <= k < |output| ==> output[k] == output[k - offset]
        {
          output := output + [output[i]];
        }
      } else {
        output := output + output[start..start + matchLength];
      }
      assert output[..|before|] == before && output[..|output|] == output;
      RepeatIsCopy(output, |before|, offset, matchLength);
    }

    /** Reads a linear small-integer code. */
    method ReadInteger() returns (r: Result<nat, Error>)
      modifies this`input
      ensures ReadLsic(old(input)).None? ==> r == Err(ExpectedAnotherByte)
      ensures ReadLsic(old(input)).Some? ==>
        r == Ok(ReadLsic(old(input)).value.0) && input == ReadLsic(old(input)).value.1
    {
      var n := 0;
      while true
        invariant ReadLsic(input).None? ==> ReadLsic(old(input)).None?
        invariant ReadLsic(input).Some? ==>
          ReadLsic(old(input)) == Some((n + ReadLsic(input).value.0, ReadLsic(input).value.1))
        decreases |input|
      {
        var extra := Take(1);
        if extra.Err? {
          return Err(extra.error);
        }
        n := n + extra.value[0];
        if extra.value[0] != 0xFF {
          return Ok(n);
        }
      }
    }

    /** A length: half a token, and more bytes when it is 15. */
    method ReadLengthFrom(nibble: nat) returns (r: Result<nat, Error>)
      modifies this`input
      ensures ReadLength(nibble, old(input)).None? ==> r == Err(ExpectedAnotherByte)
      ensures ReadLength(nibble, old(input)).Some? ==>
        r == Ok(ReadLength(nibble, old(input)).value.0) && input == ReadLength(nibble, old(input)).value.1
    {
      if nibble != 15 {
        return Ok(nibble);
      }
      r := ReadInteger();
      if r.Ok? {
        r := Ok(15 + r.value);
      }
    }

    /** Reads the literals of a block onto the output. */
    method ReadLiteralSection() returns (r: Result<(), Error>)
      modifies this`input, this`output
      ensures match ReadLength(token / 16, old(input))
        case None => r == Err(ExpectedAnotherByte)
        case Some((n, rest)) =>
          if |rest| < n then r == Err(ExpectedAnotherByte)
          else r == Ok(()) && input == rest[n..] && output == old(output) + rest[..n]
    {
      var literal := ReadLengthFrom(token / 16);
      if literal.Err? {
        return Err(literal.error);
      }
      var taken := Take(literal.value);
      if taken.Err? {
        return Err(taken.error);
      }
      output := output + taken.value;
      return Ok(());
    }

    /** Reads the match of a block and copies it onto the output. */
    method ReadDuplicateSection() returns (r: Result<(), Error>)
      modifies this`input, this`output
      ensures match ParseMatch([], token % 16, old(input))
        case Bad(error) => r == Err(error)
        case Full(_, offset, extra, rest) =>
          if 1 <= offset <= |old(output)| then
            r == Ok(()) && input == rest && output == CopyMatch(old(output), offset, extra + 4)
          else r == Err(OffsetOutOfBounds)
        case Last(_) => false
    {
      var bytes := Take(2);
      if bytes.Err? {
        return Err(bytes.error);
      }
      var low: nat, high: nat := bytes.value[0], bytes.value[1];
      var offset := low + 256 * high;
      var extra := ReadLengthFrom(token % 16);
      if extra.Err? {
        return Err(extra.error);
      }
      // A wrapping subtraction in the source: an offset beyond the output gives a start beyond it.
      var start := if offset <= |output| then |output| - offset else |output|;
      if start < |output| {
        Duplicate(start, extra.value + 4);
        return Ok(());
      }
      return Err(OffsetOutOfBounds);
    }

    /** Reads one block. */
    method ReadBlock() returns (r: Result<(), Error>)
      requires input != []
      modifies this
      ensures r.Err? ==> Decode(old(input), old(output)) == Err(r.error)
      ensures r.Ok? ==> |input| < |old(input)| && Decode(input, output) == Decode(old(input), old(output))
    {
      hide ReadLength, CopyMatch;
      ghost var parsed := ParseBlock(input[0], input[1..]);
      ParseShrinks(input[0], input[1..]);
      var first := Take(1);
      token := first.value[0];
      r := ReadLiteralSection();
      if r.Err? {
        assert parsed == Bad(r.error);
        return;
      }
      if input == [] {
        ghost var rest := ReadLength(token / 16, old(input)[1..]).value.1;
        assert rest[..|rest|] == rest;
        assert parsed == Last(rest);
        return;
      }
      ghost var literals := output[|old(output)|..];
      assert parsed == ParseMatch(literals, token % 16, input);
      r := ReadDuplicateSection();
    }

    /** Reads all the blocks; the same output, or the same error, as the reference decoder. */
    method Complete() returns (r: Result<(), Error>)
      modifies this
      ensures Decode(old(input), old(output)) == if r.Ok? then Ok(output) else Err(r.error)
    {
      while input != []
        invariant Decode(input, output) == Decode(old(input), old(output))
        decreases |input|
      {
        r := ReadBlock();
        if r.Err? {
          return;
        }
      }
      return Ok(());
    }
  }

  /** Decompresses `input` onto the end of `output`. */
  method DecompressInto(input: seq<byte>, output: seq<byte>) returns (r: Result<seq<byte>, Error>)
    ensures r == Decode(input, output)
  {
    var decoder := new Decoder(input, output);
    var done := decoder.Complete();
    r := if done.Ok? then Ok(decoder.output) else Err(done.error);
  }

  method Decompress(input: seq<byte>) returns (r: Result<seq<byte>, Error>)
    ensures r == Decode(input, [])
  {
    r := DecompressInto(input, []);
  }

  /** Every byte string survives compression and decompression, whatever slots the dictionary uses. */
  method RoundTrip(input: seq<byte>, insertSlot: nat -> nat, lookupSlot: nat -> nat)
    returns (r: Result<seq<byte>, Error>)
    ensures r == Ok(input)
  {
    var compressed := Lz4Encoder.Compress(input, insertSlot, lookupSlot);
    r := Decompress(compressed);
  }
}
