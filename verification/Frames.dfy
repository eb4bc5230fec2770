/** The chunked stream: length-prefixed frames, each holding one compressed or raw chunk. */
module Frames {
  import opened Basics
  import Lz4Format
  import Lz4Encoder

  const CHUNK_SIZE: nat := 512 * 1024
  /** One frame of a file: compressed (kind 1) or raw (kind 2). */
  datatype Chunk = Chunk(compressed: bool, payload: seq<byte>)

  /** The low 32 bits of a length, least significant byte first. */
  function LittleEndian32(n: nat): seq<byte> {
    [n % 256, n / 256 % 256, n / 0x1_0000 % 256, n / 0x100_0000 % 256]
  }

  function Word(b0: byte, b1: byte, b2: byte, b3: byte): nat {
    var n0: nat, n1: nat, n2: nat, n3: nat := b0, b1, b2, b3;
    n0 + 256 * n1 + 0x1_0000 * n2 + 0x100_0000 * n3
  }

  lemma WordOfLittleEndian(n: nat)
    requires n < TWO_32
    ensures var s := LittleEndian32(n); Word(s[0], s[1], s[2], s[3]) == n
  {
    var q := n / 256;
    assert n / 0x1_0000 == q / 256 && n / 0x100_0000 == q / 256 / 256;
  }

  function FrameBytes(c: Chunk): seq<byte> {
    [if c.compressed then 1 else 2] + LittleEndian32(|c.payload|) + c.payload
  }

  /** The bytes of a frame: its kind, the length with the low byte first and the payload. */
  lemma FrameLayout(c: Chunk)
    requires |c.payload| < TWO_32
    ensures var f := FrameBytes(c);
      && |f| == 5 + |c.payload| && f[0] == (if c.compressed then 1 else 2) && f[5..] == c.payload
      && (f[1] as nat) + 256 * (f[2] as nat) + 0x1_0000 * (f[3] as nat) + 0x100_0000 * (f[4] as nat) == |c.payload|
  {
    var f, head := FrameBytes(c), LittleEndian32(|c.payload|);
    WordOfLittleEndian(|c.payload|);
    assert f[1] == head[0] && f[2] == head[1] && f[3] == head[2] && f[4] == head[3];
  }

  function FileBytes(chunks: seq<Chunk>): seq<byte> {
    if chunks == [] then [] else FrameBytes(chunks[0]) + FileBytes(chunks[1..])
  }

  /** What a reader finds in a file: chunks up to the end, to a truncated frame, or to an unknown kind. */
  function ReadChunks(file: seq<byte>): seq<Chunk>
    decreases |file|
  {
    if |file| < 5 || (file[0] != 1 && file[0] != 2) then []
    else
      var length := Word(file[1], file[2], file[3], file[4]);
      if |file| - 5 < length then []
      else [Chunk(file[0] == 1, file[5..5 + length])] + ReadChunks(file[5 + length..])
  }

  lemma ReadFrame(c: Chunk, rest: seq<byte>)
    requires |c.payload| < TWO_32
    ensures ReadChunks(FrameBytes(c) + rest) == [c] + ReadChunks(rest)
  {
    var head := [if c.compressed then 1 else 2] + LittleEndian32(|c.payload|);
    var file := FrameBytes(c) + rest;
    WordOfLittleEndian(|c.payload|);
    ConcatAssoc(head, c.payload, rest);
    assert file[1] == head[1] && file[2] == head[2] && file[3] == head[3] && file[4] == head[4];
    assert file[5..5 + |c.payload|] == c.payload && file[5 + |c.payload|..] == rest;
  }

  /** The lengths of all chunks fit their 32-bit fields. */
  ghost predicate AllShort(chunks: seq<Chunk>) {
    forall i :: 0 <= i < |chunks| ==> |chunks[i].payload| < TWO_32
  }

  lemma {:induction false} ReadShort(chunks: seq<Chunk>)
    requires AllShort(chunks)
    ensures ReadChunks(FileBytes(chunks)) == chunks
  {
    if chunks != [] {
      ReadShort(chunks[1..]);
      ReadFrame(chunks[0], FileBytes(chunks[1..]));
      assert [chunks[0]] + chunks[1..] == chunks;
    }
  }

  /** Whatever the file, the chunks found in it are short. */
  lemma {:induction false} ReadsShort(file: seq<byte>)
    ensures AllShort(ReadChunks(file))
    decreases |file|
  {
    if |file| >= 5 && (file[0] == 1 || file[0] == 2) {
      var length := Word(file[1], file[2], file[3], file[4]);
      if length <= |file| - 5 {
        ReadsShort(file[5 + length..]);
      }
    }
  }

  /** Reading a file gives back the chunks written to it exactly if their lengths fit. */
  lemma ReadFile(chunks: seq<Chunk>)
    ensures ReadChunks(FileBytes(chunks)) == chunks <==> AllShort(chunks)
  {
    if AllShort(chunks) {
      ReadShort(chunks);
    } else {
      ReadsShort(FileBytes(chunks));
    }
  }

  lemma {:induction false} FileExtends(chunks: seq<Chunk>, c: Chunk)
    ensures FileBytes(chunks + [c]) == FileBytes(chunks) + FrameBytes(c)
  {
    if chunks == [] {
      assert chunks + [c] == [c];
    } else {
      FileExtends(chunks[1..], c);
      assert (chunks + [c])[0] == chunks[0] && (chunks + [c])[1..] == chunks[1..] + [c];
      ConcatAssoc(FrameBytes(chunks[0]), FileBytes(chunks[1..]), FrameBytes(c));
    }
  }

  /** What a chunk stands for; `None` when it does not decode. */
  function Decoded(c: Chunk): Option<seq<byte>> {
    if !c.compressed then Some(c.payload)
    else match Lz4Format.Decode(c.payload, [])
      case Ok(bytes) => Some(bytes)
      case Err(_) => None
  }

  /** What a sequence of chunks stands for; `None` when one of them does not decode. */
  function Unpacked(chunks: seq<Chunk>): Option<seq<byte>> {
    if chunks == [] then Some([])
    else
      var before, last := Unpacked(chunks[..|chunks| - 1]), Decoded(chunks[|chunks| - 1]);
      if before.Some? && last.Some? then Some(before.value + last.value) else None
  }

  lemma UnpackedExtends(chunks: seq<Chunk>, c: Chunk)
    requires Unpacked(chunks).Some? && Decoded(c).Some?
    ensures Unpacked(chunks + [c]) == Some(Unpacked(chunks).value + Decoded(c).value)
  {
    assert (chunks + [c])[..|chunks|] == chunks;
  }

  /** Frames were added, all of one kind; a compressed one stands for one to `CHUNK_SIZE` bytes. */
  ghost predicate Grown(before: seq<Chunk>, after: seq<Chunk>, compressed: bool) {
    before <= after && forall i :: |before| <= i < |after| ==> IsOf(after[i], compressed)
  }

  ghost predicate IsOf(c: Chunk, compressed: bool) {
    c.compressed == compressed && Decoded(c).Some? && (compressed ==> 0 < |Decoded(c).value| <= CHUNK_SIZE)
  }

  lemma GrownTwice(a: seq<Chunk>, b: seq<Chunk>, c: seq<Chunk>, compressed: bool)
    requires Grown(a, b, compressed) && Grown(b, c, compressed)
    ensures Grown(a, c, compressed)
  {
    forall i | |a| <= i < |c| ensures IsOf(c[i], compressed) {
      assert i < |b| ==> c[i] == b[i];
    }
  }

  lemma SlicesJoin(before: seq<byte>, data: seq<byte>, at: nat, end: nat)
    requires at <= end <= |data|
    ensures before + data[..at] + data[at..end] == before + data[..end]
  {}

  /** The writing end of the stream, over a file kept as the bytes written to it. */
  class Lz4Writer {
    const insertSlot: nat -> nat
    const lookupSlot: nat -> nat
    var file: seq<byte>
    var buffer: seq<byte>
    var isCompressed: bool
    ghost var chunks: seq<Chunk>

    /** The file is a sequence of frames that all decode. */
    ghost predicate Framed()
      reads this
    {
      file == FileBytes(chunks) && Unpacked(chunks).Some?
    }

    ghost predicate Valid()
      reads this
    {
      Framed() && |buffer| < CHUNK_SIZE
    }

    /** What the chunks of the file stand for; a reader gets it if their lengths fit. */
    ghost function InFile(): seq<byte>
      reads this
      requires Framed()
    {
      Unpacked(chunks).value
    }

    /** All the bytes written so far: those in the file and those still buffered. */
    ghost function Written(): seq<byte>
      reads this
      requires Framed()
    {
      InFile() + buffer
    }

    constructor (insertSlot: nat -> nat, lookupSlot: nat -> nat)
      ensures Valid() && Written() == [] && isCompressed
    {
      this.insertSlot, this.lookupSlot := insertSlot, lookupSlot;
      file, buffer, isCompressed, chunks := [], [], true, [];
    }

    /** Appends one frame. */
    method AppendFrame(c: Chunk)
      requires Framed() && Decoded(c).Some?
      modifies this`file, this`chunks
      ensures Framed() && InFile() == old(InFile()) + Decoded(c).value
      ensures AllShort(chunks) <==> old(AllShort(chunks)) && |c.payload| < TWO_32
      ensures chunks == old(chunks) + [c]
    {
      FileExtends(chunks, c);
      UnpackedExtends(chunks, c);
      ShortExtends(chunks, c);
      file, chunks := file + FrameBytes(c), chunks + [c];
    }

    method WriteCompressedChunk(data: seq<byte>)
      requires Framed() && 0 < |data| <= CHUNK_SIZE
      modifies this`file, this`chunks
      ensures Framed() && InFile() == old(InFile()) + data
      ensures AllShort(chunks) <==> old(AllShort(chunks))
      ensures Grown(old(chunks), chunks, true) && |chunks| == |old(chunks)| + 1
    {
      var payload := Lz4Encoder.Compress(data, insertSlot, lookupSlot);
      AppendFrame(Chunk(true, payload));
    }

    /** One compressed frame for every `CHUNK_SIZE` bytes. */
    method WriteCompressed(data: seq<byte>)
      requires Framed()
      modifies this`file, this`chunks
      ensures Framed() && InFile() == old(InFile()) + data
      ensures AllShort(chunks) <==> old(AllShort(chunks))
      ensures Grown(old(chunks), chunks, true)
    {
      hide Grown;
      GrownNot(chunks, true);
      var at := 0;
      ghost var before := InFile();
      while at < |data|
        invariant 0 <= at <= |data| && Framed() && InFile() == before + data[..at]
        invariant AllShort(chunks) <==> old(AllShort(chunks))
        invariant Grown(old(chunks), chunks, true)
      {
        var end := Min(at + CHUNK_SIZE, |data|);
        ghost var were := chunks;
        WriteCompressedChunk(data[at..end]);
        GrownTwice(old(chunks), were, chunks, true);
        SlicesJoin(before, data, at, end);
        at := end;
      }
      assert data[..at] == data;
    }

    /** One raw frame, whose length field has 32 bits. */
    method WriteUncompressed(data: seq<byte>)
      requires Framed()
      modifies this`file, this`chunks
      ensures Framed() && InFile() == old(InFile()) + data
      ensures AllShort(chunks) <==> old(AllShort(chunks)) && |data| < TWO_32
      ensures Grown(old(chunks), chunks, false) && chunks == old(chunks) + [Chunk(false, data)]
    {
      AppendFrame(Chunk(false, data));
    }

    /** Moves the buffer into the file. */
    method Flush()
      requires Framed()
      modifies this`file, this`chunks, this`buffer
      ensures Valid() && buffer == [] && InFile() == Written() == old(Written())
      ensures AllShort(chunks) <==> old(AllShort(chunks)) && (isCompressed || |old(buffer)| < TWO_32)
      ensures Grown(old(chunks), chunks, isCompressed) && (old(buffer) == [] ==> chunks == old(chunks))
    {
      hide Grown;
      GrownNot(chunks, isCompressed);
      if buffer == [] {
        return;
      }
      if isCompressed {
        WriteCompressed(buffer);
      } else {
        WriteUncompressed(buffer);
      }
      buffer := [];
    }

    /**
     Takes all of `slice`, buffering it unless it is a chunk's worth or more, or makes the buffer one. Lengths fit
     as long as no raw slice is of 2^32 bytes or more.
     */
    method Write(slice: seq<byte>) returns (n: nat)
      requires Valid()
      modifies this`file, this`chunks, this`buffer
      ensures Valid() && n == |slice| && Written() == old(Written()) + slice
      ensures AllShort(chunks) <==> old(AllShort(chunks)) && (isCompressed || |slice| < TWO_32)
      ensures Grown(old(chunks), chunks, isCompressed)
      ensures if |old(buffer)| + |slice| < CHUNK_SIZE then chunks == old(chunks) && buffer == old(buffer) + slice
        else buffer == []
    {
      hide Grown;
      GrownNot(chunks, isCompressed);
      n := |slice|;
      if |slice| >= CHUNK_SIZE {
        Flush();
        ghost var were := chunks;
        if isCompressed {
          WriteCompressed(slice);
        } else {
          WriteUncompressed(slice);
        }
        GrownTwice(old(chunks), were, chunks, isCompressed);
        return;
      }
      ConcatAssoc(InFile(), buffer, slice);
      buffer := buffer + slice;
      if |buffer| >= CHUNK_SIZE {
        Flush();
      }
    }

    /** From here on frames are raw. */
    method DisableCompression()
      requires Valid()
      modifies this
      ensures Valid() && !isCompressed && Written() == old(Written()) == InFile()
      ensures AllShort(chunks) <==> old(AllShort(chunks))
      ensures Grown(old(chunks), chunks, old(isCompressed))
    {
      Flush();
      isCompressed := false;
    }

    /**
     Flushes and hands over the file. The frames read back exactly if all lengths fit, and then they give
     every byte written, in order.
     */
    method IntoInner() returns (f: seq<byte>)
      requires Valid()
      modifies this
      ensures Framed() && InFile() == old(Written()) && Grown(old(chunks), chunks, old(isCompressed))
      ensures ReadChunks(f) == chunks <==> old(AllShort(chunks))
      ensures old(AllShort(chunks)) ==> Unpacked(ReadChunks(f)) == Some(old(Written()))
    {
      Flush();
      ReadFile(chunks);
      f := file;
    }
  }

  lemma GrownNot(chunks: seq<Chunk>, compressed: bool)
    ensures Grown(chunks, chunks, compressed)
  {}

  lemma ShortExtends(chunks: seq<Chunk>, c: Chunk)
    ensures AllShort(chunks + [c]) <==> AllShort(chunks) && |c.payload| < TWO_32
  {
    var more := chunks + [c];
    assert more[|chunks|] == c;
    assert forall i :: 0 <= i < |chunks| ==> more[i] == chunks[i];
  }
}
