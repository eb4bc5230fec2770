/** The sequential reader of chunked streams, which handles compressed chunks only. */
module FrameReader {
  import opened Basics
  import opened Frames
  import Lz4Decoder
  import Lz4Format

  /** Why reading stops; raw chunks stop the program. */
  datatype Stop = EndOfFile | InvalidData | RawChunk

  /** The file begins with a frame that is there in full and of a known kind. */
  predicate BeginsWithFrame(file: seq<byte>) {
    |file| >= 5 && (file[0] == 1 || file[0] == 2) && Word(file[1], file[2], file[3], file[4]) <= |file| - 5
  }

  /** The chunk at the beginning of a file. */
  lemma FirstChunk(file: seq<byte>)
    ensures BeginsWithFrame(file) ==>
      var n := Word(file[1], file[2], file[3], file[4]);
      ReadChunks(file) == [Chunk(file[0] == 1, file[5..5 + n])] + ReadChunks(file[5 + n..])
    ensures !BeginsWithFrame(file) ==> ReadChunks(file) == []
  {}

  class Lz4Reader {
    var input: seq<byte>
    var buffer: seq<byte>
    var position: nat

    /** The whole file, the chunks read from it, and the bytes given out. */
    ghost const file: seq<byte>
    ghost var consumed: seq<Chunk>
    ghost var given: seq<byte>

    ghost predicate Valid()
      reads this
    {
      && position <= |buffer| && ReadChunks(file) == consumed + ReadChunks(input)
      && (forall i :: 0 <= i < |consumed| ==> consumed[i].compressed)
      && Unpacked(consumed) == Some(given + buffer[position..])
    }

    constructor (file: seq<byte>)
      ensures Valid() && given == [] && consumed == [] && this.file == file
    {
      this.file := file;
      input, buffer, position, consumed, given := file, [], 0, [], [];
      new;
      assert consumed + ReadChunks(input) == ReadChunks(file);
      assert Unpacked([]) == Some([]) && given + buffer[position..] == [];
    }

    /** Gives out buffered bytes. */
    method ReadCached(n: nat) returns (bytes: seq<byte>)
      requires Valid()
      modifies this`position, this`given
      ensures Valid() && given == old(given) + bytes && |bytes| == Min(n, |buffer| - old(position))
    {
      hide ReadChunks, Unpacked;
      var len := Min(n, |buffer| - position);
      bytes := buffer[position..position + len];
      assert buffer[position..] == bytes + buffer[position + len..];
      ConcatAssoc(given, bytes, buffer[position + len..]);
      given := given + bytes;
      position := position + len;
    }

    /** Reads the next chunk into the empty buffer. */
    method FillCache() returns (stop: Option<Stop>)
      requires Valid() && buffer == [] && position == 0
      modifies this`input, this`buffer, this`consumed
      ensures stop.None? ==>
        Valid() && old(ReadChunks(input)) != [] && consumed == old(consumed) + [old(ReadChunks(input))[0]]
      ensures stop == Some(EndOfFile) ==> old(ReadChunks(input)) == []
      ensures stop == Some(InvalidData) ==> old(ReadChunks(input)) == [] || Decoded(old(ReadChunks(input))[0]).None?
      ensures stop == Some(RawChunk) <==> old(|input| >= 5 && input[0] == 2)
      ensures stop == Some(RawChunk) ==> old(ReadChunks(input)) == [] || !old(ReadChunks(input))[0].compressed
    {
      hide ReadChunks, Word, Unpacked, Lz4Format.Decode;
      FirstChunk(input);
      if |input| < 1 {
        return Some(EndOfFile);
      }
      var kind := input[0];
      if kind != 1 && kind != 2 {
        return Some(InvalidData);
      }
      if |input| < 5 {
        return Some(EndOfFile);
      }
      if kind == 2 {
        return Some(RawChunk);
      }
      var length := Word(input[1], input[2], input[3], input[4]);
      if |input| - 5 < length {
        return Some(EndOfFile);
      }
      var payload := input[5..5 + length];
      ghost var c, rest := Chunk(true, payload), ReadChunks(input[5 + length..]);
      var decoded := Lz4Decoder.DecompressInto(payload, buffer);
      if decoded.Err? {
        return Some(InvalidData);
      }
      UnpackedExtends(consumed, c);
      ConcatAssoc(consumed, [c], rest);
      assert given + buffer[position..] == given && decoded.value[0..] == decoded.value;
      input, buffer, consumed := input[5 + length..], decoded.value, consumed + [c];
      stop := None;
    }

    /** The bytes given out are the beginning of what the file unpacks to. */
    method Read(n: nat) returns (r: Result<seq<byte>, Stop>)
      requires Valid()
      modifies this
      ensures r.Ok? ==> Valid() && given == old(given) + r.value && |r.value| <= n
      ensures r.Ok? && r.value == [] && n > 0 ==> consumed != [] && Decoded(consumed[|consumed| - 1]) == Some([])
      ensures r == Err(EndOfFile) ==> Unpacked(ReadChunks(file)) == Some(old(given))
      ensures r == Err(InvalidData) ==>
        Unpacked(ReadChunks(file)) == Some(old(given)) || Unpacked(ReadChunks(file)).None?
      ensures r == Err(RawChunk) ==>
        && Unpacked(old(consumed)) == Some(old(given)) && old(consumed) <= ReadChunks(file)
        && (old(consumed) == ReadChunks(file) || !ReadChunks(file)[|old(consumed)|].compressed)
    {
      if position < |buffer| {
        var bytes := ReadCached(n);
        return Ok(bytes);
      }
      assert buffer[position..] == [];
      position, buffer := 0, [];
      assert given + buffer[position..] == given + [] == given;
      ghost var before, left := consumed, ReadChunks(input);
      var stop := FillCache();
      if stop.Some? {
        assert ReadChunks(file) == before + left;
        if left == [] {
          assert before + left == before;
        } else if stop == Some(InvalidData) {
          UnpackedStops(before, left);
        }
        return Err(stop.value);
      }
      var bytes := ReadCached(n);
      return Ok(bytes);
    }
  }

  lemma {:induction false} UnpackedStops(before: seq<Chunk>, left: seq<Chunk>)
    requires left != [] && Decoded(left[0]).None?
    ensures Unpacked(before + left).None?
    decreases |left|
  {
    var all := before + left;
    if |left| == 1 {
      assert all[|all| - 1] == left[0];
    } else {
      UnpackedStops(before, left[..|left| - 1]);
      assert all[..|all| - 1] == before + left[..|left| - 1];
    }
  }
}
