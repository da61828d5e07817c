/**
 Removal of textual metadata chunks from a PNG file, at byte level.

 A PNG file is a signature and then chunks: a big-endian 32-bit body length, a four-byte type,
 the body, and a CRC over type and body (sections 5.2 and 5.3 of ISO/IEC 15948). The CRC is a
 parameter: everything below holds of any function from bytes to 32-bit values.
 */
module PngStrip {
  import opened Text

  type Byte = x: int | 0 <= x < 256
  type Word = x: int | 0 <= x < 0x1_0000_0000
  type Bytes = seq<Byte>
  type Checksum = Bytes -> Word

  const SIGNATURE: Bytes := [0x89, 0x50, 0x4E, 0x47, 0x0D, 0x0A, 0x1A, 0x0A]
  const TEXT: Bytes := [0x74, 0x45, 0x58, 0x74]
  const ZTXT: Bytes := [0x7A, 0x54, 0x58, 0x74]
  const ITXT: Bytes := [0x69, 0x54, 0x58, 0x74]
  const TIME: Bytes := [0x74, 0x49, 0x4D, 0x45]
  const IEND: Bytes := [0x49, 0x45, 0x4E, 0x44]

  datatype Chunk = Chunk(ctype: Bytes, body: Bytes)

  predicate ToStrip(ctype: Bytes) { ctype == TEXT || ctype == ZTXT || ctype == ITXT || ctype == TIME }

  // ---------------------------------------------------------------------------
  // Big-endian words
  // ---------------------------------------------------------------------------

  function FromBytes4(b: Bytes): Word
    requires |b| == 4
  {
    var b0: int, b1: int, b2: int, b3: int := b[0], b[1], b[2], b[3];
    ((b0 * 256 + b1) * 256 + b2) * 256 + b3
  }

  function ToBytes4(n: Word): (b: Bytes)
    ensures |b| == 4
  {
    var n1: int := n / 256;
    var n2 := n1 / 256;
    [n2 / 256, n2 % 256, n1 % 256, n % 256]
  }

  lemma WordRoundTrip(n: Word)
    ensures FromBytes4(ToBytes4(n)) == n
  {
  }

  lemma BytesRoundTrip(b: Bytes)
    requires |b| == 4
    ensures ToBytes4(FromBytes4(b)) == b
  {
    var b0: int, b1: int, b2: int, b3: int := b[0], b[1], b[2], b[3];
    var n: int := FromBytes4(b);
    assert n / 256 == (b0 * 256 + b1) * 256 + b2;
    assert n / 256 / 256 == b0 * 256 + b1;
  }

  // ---------------------------------------------------------------------------
  // Reading and writing chunks
  // ---------------------------------------------------------------------------

  /** One step of the chunk reader: a chunk and the offset behind it, or a truncation. */
  datatype Read = Read(chunk: Chunk, next: nat) | Truncated

  function ReadChunk(data: Bytes, offset: nat): (r: Read)
    requires offset < |data|
    ensures r.Read? ==> offset + 12 <= r.next == offset + 12 + |r.chunk.body| <= |data|
    ensures r.Read? ==> |r.chunk.ctype| == 4 && |r.chunk.body| < 0x1_0000_0000
  {
    if offset + 8 > |data| then Truncated
    else
      var length := FromBytes4(data[offset..offset + 4]);
      var bodyEnd := offset + 8 + length;
      if bodyEnd + 4 > |data| then Truncated
      else Read(Chunk(data[offset + 4..offset + 8], data[offset + 8..bodyEnd]), bodyEnd + 4)
  }

  /** All chunks up to and including IEND, or up to the end of the file. */
  datatype Parsed = Parsed(chunks: seq<Chunk>, end: nat) | Failed

  function Parse(data: Bytes, offset: nat): (r: Parsed)
    requires offset <= |data|
    ensures r.Parsed? ==> offset <= r.end <= |data|
    decreases |data| - offset
  {
    if offset == |data| then Parsed([], offset)
    else match ReadChunk(data, offset)
      case Truncated => Failed
      case Read(chunk, next) =>
        if chunk.ctype == IEND then Parsed([chunk], next)
        else match Parse(data, next)
          case Failed => Failed
          case Parsed(rest, end) => Parsed([chunk] + rest, end)
  }

  predicate IsPng(data: Bytes) { |SIGNATURE| <= |data| && data[..|SIGNATURE|] == SIGNATURE }

  function ParseFile(data: Bytes): Parsed {
    if IsPng(data) then Parse(data, |SIGNATURE|) else Failed
  }

  predicate Sized(c: Chunk) { |c.ctype| == 4 && |c.body| < 0x1_0000_0000 }

  function Emit(c: Chunk, crc: Checksum): (b: Bytes)
    requires Sized(c)
    ensures |b| == 12 + |c.body|
  {
    ToBytes4(|c.body|) + (c.ctype + (c.body + ToBytes4(crc(c.ctype + c.body))))
  }

  predicate AllSized(cs: seq<Chunk>) { forall c | c in cs :: Sized(c) }

  function EmitAll(cs: seq<Chunk>, crc: Checksum): Bytes
    requires AllSized(cs)
  {
    if cs == [] then [] else Emit(cs[0], crc) + EmitAll(cs[1..], crc)
  }

  function Kept(cs: seq<Chunk>): (r: seq<Chunk>)
    ensures forall c | c in r :: c in cs && !ToStrip(c.ctype)
  {
    if cs == [] then []
    else if ToStrip(cs[0].ctype) then Kept(cs[1..])
    else [cs[0]] + Kept(cs[1..])
  }

  function Dropped(cs: seq<Chunk>): (r: seq<Chunk>)
    ensures forall c | c in r :: c in cs && ToStrip(c.ctype)
  {
    if cs == [] then []
    else if ToStrip(cs[0].ctype) then [cs[0]] + Dropped(cs[1..])
    else Dropped(cs[1..])
  }

  /** A file's chunks can only have IEND in last place. */
  predicate EndsAtIend(cs: seq<Chunk>) {
    forall k | 0 <= k < |cs| - 1 :: cs[k].ctype != IEND
  }

  lemma {:induction false} ParseShape(data: Bytes, offset: nat)
    requires offset <= |data| && Parse(data, offset).Parsed?
    ensures AllSized(Parse(data, offset).chunks) && EndsAtIend(Parse(data, offset).chunks)
    decreases |data| - offset
  {
    if offset < |data| {
      var r := ReadChunk(data, offset);
      if r.chunk.ctype != IEND {
        ParseShape(data, r.next);
      }
    }
  }

  // ---------------------------------------------------------------------------
  // The stripper
  // ---------------------------------------------------------------------------

  datatype Outcome = Stripped(kept: nat, stripped: nat) | NotPng | Malformed

  function StripOutcome(data: Bytes): Outcome {
    if !IsPng(data) then NotPng
    else match ParseFile(data)
      case Failed => Malformed
      case Parsed(cs, _) => Stripped(|Kept(cs)|, |Dropped(cs)|)
  }

  /** The file's bytes after a strip. */
  function StripBytes(data: Bytes, crc: Checksum): Bytes {
    match ParseFile(data)
    case Failed => data
    case Parsed(cs, _) =>
      if Dropped(cs) == [] then data
      else
        ParseShape(data, |SIGNATURE|);
        SIGNATURE + EmitAll(Kept(cs), crc)
  }

  lemma {:induction false} KeptAppend(cs: seq<Chunk>, c: Chunk)
    ensures Kept(cs + [c]) == Kept(cs) + if ToStrip(c.ctype) then [] else [c]
    ensures Dropped(cs + [c]) == Dropped(cs) + if ToStrip(c.ctype) then [c] else []
    decreases |cs|
  {
    hide ToStrip, Kept, Dropped;
    if cs == [] {
      assert cs + [c] == [c] + [];
      KeptCons(c, []);
    } else {
      var rest := cs[1..] + [c];
      assert cs + [c] == [cs[0]] + rest;
      KeptCons(cs[0], rest);
      KeptCons(cs[0], cs[1..]);
      assert cs == [cs[0]] + cs[1..];
      KeptAppend(cs[1..], c);
    }
  }

  lemma KeptCons(c: Chunk, rest: seq<Chunk>)
    ensures Kept([]) == [] && Dropped([]) == []
    ensures Kept([c] + rest) == (if ToStrip(c.ctype) then [] else [c]) + Kept(rest)
    ensures Dropped([c] + rest) == (if ToStrip(c.ctype) then [c] else []) + Dropped(rest)
  {
    hide ToStrip;
    assert ([c] + rest)[1..] == rest;
  }

  lemma {:induction false} EmitAllAppend(cs: seq<Chunk>, c: Chunk, crc: Checksum)
    requires AllSized(cs) && Sized(c)
    ensures EmitAll(cs + [c], crc) == EmitAll(cs, crc) + Emit(c, crc)
    decreases |cs|
  {
    if cs == [] {
      assert cs + [c] == [c];
    } else {
      assert (cs + [c])[1..] == cs[1..] + [c];
      EmitAllAppend(cs[1..], c, crc);
    }
  }

  /** Chunks already read, put before what is still to be read. */
  function Prepend(seen: seq<Chunk>, p: Parsed): Parsed {
    match p case Failed => Failed case Parsed(cs, end) => Parsed(seen + cs, end)
  }

  lemma PrependStep(data: Bytes, offset: nat, seen: seq<Chunk>)
    requires offset < |data|
    ensures var r := ReadChunk(data, offset);
      Prepend(seen, Parse(data, offset)) ==
        if r.Truncated? then Failed
        else if r.chunk.ctype == IEND then Parsed(seen + [r.chunk], r.next)
        else Prepend(seen + [r.chunk], Parse(data, r.next))
  {
    var r := ReadChunk(data, offset);
    if r.Read? && r.chunk.ctype != IEND {
      var p := Parse(data, r.next);
      if p.Parsed? {
        assert seen + ([r.chunk] + p.chunks) == (seen + [r.chunk]) + p.chunks;
      }
    }
  }

  method AppendChunk(before: Bytes, c: Chunk, crc: Checksum) returns (out: Bytes)
    requires Sized(c)
    ensures out == before + Emit(c, crc)
  {
    out := before + ToBytes4(|c.body|);
    out := out + c.ctype;
    out := out + c.body;
    out := out + ToBytes4(crc(c.ctype + c.body));
  }

  /** The writer's loop variables after the chunks `seen`. */
  ghost predicate Written(seen: seq<Chunk>, out: Bytes, kept: nat, stripped: nat, crc: Checksum) {
    && AllSized(seen) && AllSized(Kept(seen))
    && out == SIGNATURE + EmitAll(Kept(seen), crc)
    && kept == |Kept(seen)| && stripped == |Dropped(seen)|
  }

  lemma WriteChunk(seen: seq<Chunk>, out: Bytes, kept: nat, stripped: nat, crc: Checksum, c: Chunk)
    requires Written(seen, out, kept, stripped, crc) && Sized(c)
    ensures ToStrip(c.ctype) ==> Written(seen + [c], out, kept, stripped + 1, crc)
    ensures !ToStrip(c.ctype) ==> Written(seen + [c], out + Emit(c, crc), kept + 1, stripped, crc)
  {
    hide Kept, Dropped, EmitAll, Emit, ToStrip;
    KeptAppend(seen, c);
    if ToStrip(c.ctype) {
      assert Kept(seen + [c]) == Kept(seen);
    } else {
      EmitAllAppend(Kept(seen), c, crc);
      Regroup(SIGNATURE, EmitAll(Kept(seen), crc), Emit(c, crc));
    }
  }

  class PngFile {
    var bytes: Bytes

    constructor (bytes: Bytes)
      ensures this.bytes == bytes
    {
      this.bytes := bytes;
    }

    /** Strips the file in place; a file that is no PNG, or a truncated one, is left as it was. */
    method StripFile(crc: Checksum) returns (r: Outcome)
      modifies this
      ensures r == StripOutcome(old(bytes))
      ensures bytes == StripBytes(old(bytes), crc)
    {
      hide Parse, ReadChunk, ToStrip, Emit, EmitAll, Kept, Dropped;
      var data := bytes;
      if !IsPng(data) {
        return NotPng;
      }
      var out := SIGNATURE;
      var kept, stripped := 0, 0;
      var offset := |SIGNATURE|;
      ghost var seen: seq<Chunk> := [];
      var done := false;
      NothingWritten(crc);
      while offset < |data| && !done
        invariant offset <= |data| && bytes == data
        invariant Written(seen, out, kept, stripped, crc)
        invariant ParseFile(data) == if done then Parsed(seen, offset) else Prepend(seen, Parse(data, offset))
        decreases |data| - offset, !done
      {
        PrependStep(data, offset, seen);
        var read := ReadChunk(data, offset);
        if read.Truncated? {
          return Malformed;
        }
        var chunk := read.chunk;
        WriteChunk(seen, out, kept, stripped, crc, chunk);
        if ToStrip(chunk.ctype) {
          stripped := stripped + 1;
        } else {
          out := AppendChunk(out, chunk, crc);
          kept := kept + 1;
        }
        seen := seen + [chunk];
        offset := read.next;
        done := chunk.ctype == IEND;
      }
      ParseAtEnd(data);
      assert seen + [] == seen;
      if stripped > 0 {
        bytes := out;
      }
      return Stripped(kept, stripped);
    }
  }

  lemma NothingWritten(crc: Checksum)
    ensures Written([], SIGNATURE, 0, 0, crc)
  {
  }

  lemma ParseAtEnd(data: Bytes)
    ensures Parse(data, |data|) == Parsed([], |data|)
  {
  }

  // ---------------------------------------------------------------------------
  // Round trip
  // ---------------------------------------------------------------------------

  /** The reader inverts the writer on one chunk, wherever it stands. */
  lemma ReadEmitted(data: Bytes, offset: nat, c: Chunk, crc: Checksum)
    requires Sized(c) && At(data, offset, Emit(c, crc))
    ensures offset < |data| && ReadChunk(data, offset) == Read(c, offset + |Emit(c, crc)|)
  {
    hide ToBytes4, FromBytes4;
    var tail := ToBytes4(crc(c.ctype + c.body));
    AtSplit(data, offset, ToBytes4(|c.body|), c.ctype + (c.body + tail));
    AtSplit(data, offset + 4, c.ctype, c.body + tail);
    AtSplit(data, offset + 8, c.body, tail);
    AtSlice(data, offset, ToBytes4(|c.body|));
    AtSlice(data, offset + 4, c.ctype);
    AtSlice(data, offset + 8, c.body);
    WordRoundTrip(|c.body|);
  }

  lemma {:induction false} ParseEmitted(data: Bytes, offset: nat, cs: seq<Chunk>, crc: Checksum)
    requires AllSized(cs) && EndsAtIend(cs)
    requires At(data, offset, EmitAll(cs, crc)) && offset + |EmitAll(cs, crc)| == |data|
    ensures Parse(data, offset) == Parsed(cs, |data|)
    decreases |cs|
  {
    hide ReadChunk, Emit;
    if cs != [] {
      AtSplit(data, offset, Emit(cs[0], crc), EmitAll(cs[1..], crc));
      ReadEmitted(data, offset, cs[0], crc);
      assert forall k | 0 <= k < |cs| - 2 :: cs[1..][k] == cs[k + 1];
      ParseEmitted(data, offset + |Emit(cs[0], crc)|, cs[1..], crc);
      if |cs| == 1 {
        assert cs == [cs[0]];
      } else {
        assert cs[0].ctype != IEND;
        assert cs == [cs[0]] + cs[1..];
      }
    }
  }

  lemma {:induction false} KeptEndsAtIend(cs: seq<Chunk>)
    requires EndsAtIend(cs)
    ensures EndsAtIend(Kept(cs))
    decreases |cs|
  {
    if cs != [] {
      assert forall k | 0 <= k < |cs| - 2 :: cs[1..][k] == cs[k + 1];
      KeptEndsAtIend(cs[1..]);
      if |cs| == 1 {
        assert Kept(cs[1..]) == [];
      } else {
        assert cs[0].ctype != IEND;
      }
    }
  }

  lemma {:induction false} KeptTwice(cs: seq<Chunk>)
    ensures Kept(Kept(cs)) == Kept(cs) && Dropped(Kept(cs)) == []
    decreases |cs|
  {
    if cs != [] {
      KeptTwice(cs[1..]);
      if !ToStrip(cs[0].ctype) {
        assert Kept(cs)[1..] == Kept(cs[1..]);
      }
    }
  }

  lemma {:induction false} NothingDropped(cs: seq<Chunk>)
    ensures |Kept(cs)| + |Dropped(cs)| == |cs|
    ensures Dropped(cs) == [] <==> Kept(cs) == cs
    decreases |cs|
  {
    if cs != [] {
      NothingDropped(cs[1..]);
      assert cs == [cs[0]] + cs[1..];
    }
  }

  /** Re-parsing the stripped file yields the input's chunks, in order, less the textual ones. */
  lemma StripRoundTrip(data: Bytes, crc: Checksum)
    requires ParseFile(data).Parsed?
    ensures var out := ParseFile(StripBytes(data, crc));
      out.Parsed? && out.chunks == Kept(ParseFile(data).chunks)
  {
    var cs := ParseFile(data).chunks;
    NothingDropped(cs);
    if Dropped(cs) != [] {
      ParseShape(data, |SIGNATURE|);
      KeptEndsAtIend(cs);
      var body := EmitAll(Kept(cs), crc);
      var out := SIGNATURE + body;
      assert out[..|SIGNATURE|] == SIGNATURE;
      assert out == SIGNATURE + body + [];
      AtAppend(SIGNATURE, body, []);
      ParseEmitted(out, |SIGNATURE|, Kept(cs), crc);
    }
  }

  /** A second strip reports nothing stripped and changes nothing, whatever the first one met. */
  lemma StripTwice(data: Bytes, crc: Checksum)
    ensures var once := StripBytes(data, crc);
      && StripBytes(once, crc) == once
      && (StripOutcome(data).Stripped? ==> StripOutcome(once) == Stripped(StripOutcome(data).kept, 0))
      && (!StripOutcome(data).Stripped? ==> once == data)
  {
    if ParseFile(data).Parsed? {
      StripRoundTrip(data, crc);
      KeptTwice(ParseFile(data).chunks);
    }
  }

  // ---------------------------------------------------------------------------
  // Conservation
  // ---------------------------------------------------------------------------

  /** The bytes a list of chunks takes in a file. */
  function Footprint(cs: seq<Chunk>): nat {
    if cs == [] then 0 else 12 + |cs[0].body| + Footprint(cs[1..])
  }

  lemma {:induction false} ParseFootprint(data: Bytes, offset: nat)
    requires offset <= |data| && Parse(data, offset).Parsed?
    ensures Parse(data, offset).end == offset + Footprint(Parse(data, offset).chunks)
    decreases |data| - offset
  {
    if offset < |data| {
      var r := ReadChunk(data, offset);
      if r.chunk.ctype != IEND {
        ParseFootprint(data, r.next);
      }
    }
  }

  lemma {:induction false} EmitAllLength(cs: seq<Chunk>, crc: Checksum)
    requires AllSized(cs)
    ensures |EmitAll(cs, crc)| == Footprint(cs)
    decreases |cs|
  {
    if cs != [] {
      EmitAllLength(cs[1..], crc);
    }
  }

  lemma {:induction false} FootprintSplits(cs: seq<Chunk>)
    ensures Footprint(cs) == Footprint(Kept(cs)) + Footprint(Dropped(cs))
    decreases |cs|
  {
    if cs != [] {
      FootprintSplits(cs[1..]);
      if ToStrip(cs[0].ctype) {
        assert Dropped(cs)[1..] == Dropped(cs[1..]);
      } else {
        assert Kept(cs)[1..] == Kept(cs[1..]);
      }
    }
  }

  /**
   Every chunk is kept or stripped; a rewritten file is shorter by exactly the stripped chunks
   and by whatever followed the IEND chunk.
   */
  lemma StripConserves(data: Bytes, crc: Checksum)
    requires ParseFile(data).Parsed?
    ensures var Parsed(cs, end) := ParseFile(data);
      && |Kept(cs)| + |Dropped(cs)| == |cs|
      && (Dropped(cs) == [] ==> StripBytes(data, crc) == data)
      && (Dropped(cs) != [] ==> |StripBytes(data, crc)| == |data| - Footprint(Dropped(cs)) - (|data| - end))
  {
    var cs := ParseFile(data).chunks;
    NothingDropped(cs);
    ParseShape(data, |SIGNATURE|);
    ParseFootprint(data, |SIGNATURE|);
    FootprintSplits(cs);
    EmitAllLength(Kept(cs), crc);
  }

  // ---------------------------------------------------------------------------
  // Kept chunks, byte for byte
  // ---------------------------------------------------------------------------

  /** The chunk that is read at `offset` stores the checksum of its own type and body. */
  predicate SoundAt(data: Bytes, offset: nat, crc: Checksum)
    requires offset < |data| && ReadChunk(data, offset).Read?
  {
    var r := ReadChunk(data, offset);
    data[r.next - 4..r.next] == ToBytes4(crc(r.chunk.ctype + r.chunk.body))
  }

  /** Rewriting a chunk gives back its own bytes exactly when its stored checksum is right. */
  lemma EmitIsCopy(data: Bytes, offset: nat, crc: Checksum)
    requires offset < |data| && ReadChunk(data, offset).Read?
    ensures var r := ReadChunk(data, offset);
      Emit(r.chunk, crc) == data[offset..r.next] <==> SoundAt(data, offset, crc)
  {
    var r := ReadChunk(data, offset);
    var sum := ToBytes4(crc(r.chunk.ctype + r.chunk.body));
    var head := data[offset..offset + 4];
    BytesRoundTrip(head);
    var emitted := Emit(r.chunk, crc);
    var copy := data[offset..r.next];
    assert copy == head + (r.chunk.ctype + (r.chunk.body + data[r.next - 4..r.next]));
    var n := 8 + |r.chunk.body|;
    assert emitted[n..] == sum && copy[n..] == data[r.next - 4..r.next];
  }

  /** The bytes of the chunks that are kept, cut out of the file where they stand. */
  function KeptSlices(data: Bytes, offset: nat): Bytes
    requires offset <= |data|
    decreases |data| - offset
  {
    if offset == |data| then []
    else match ReadChunk(data, offset)
      case Truncated => []
      case Read(chunk, next) =>
        (if ToStrip(chunk.ctype) then [] else data[offset..next])
        + (if chunk.ctype == IEND then [] else KeptSlices(data, next))
  }

  /** Every chunk that is kept stores a right checksum. */
  predicate KeptSound(data: Bytes, offset: nat, crc: Checksum)
    requires offset <= |data|
    decreases |data| - offset
  {
    if offset == |data| then true
    else match ReadChunk(data, offset)
      case Truncated => true
      case Read(chunk, next) =>
        && (ToStrip(chunk.ctype) || SoundAt(data, offset, crc))
        && (chunk.ctype == IEND || KeptSound(data, next, crc))
  }

  lemma {:induction false} KeptSlicesEmitted(data: Bytes, offset: nat, crc: Checksum)
    requires offset <= |data| && Parse(data, offset).Parsed?
    ensures AllSized(Kept(Parse(data, offset).chunks))
    ensures |EmitAll(Kept(Parse(data, offset).chunks), crc)| == |KeptSlices(data, offset)|
    ensures EmitAll(Kept(Parse(data, offset).chunks), crc) == KeptSlices(data, offset) <==> KeptSound(data, offset, crc)
    decreases |data| - offset
  {
    hide ReadChunk, Emit, EmitAll, ToStrip, SoundAt, AllSized, EndsAtIend, Kept;
    ParseShape(data, offset);
    if offset == |data| {
      NoChunks(crc);
    } else {
      var r := ReadChunk(data, offset);
      ReadIsSized(data, offset);
      EmitIsCopy(data, offset, crc);
      if r.chunk.ctype == IEND {
        LastChunk(r.chunk, crc);
        assert data[offset..r.next] + [] == data[offset..r.next];
      } else {
        hide Parse, KeptSlices, KeptSound;
        ParseStep(data, offset, crc);
        KeptSlicesEmitted(data, r.next, crc);
        ParseShape(data, r.next);
        var rest := Parse(data, r.next).chunks;
        ConsChunk(r.chunk, rest, crc);
        if !ToStrip(r.chunk.ctype) {
          SplitEqual(Emit(r.chunk, crc), EmitAll(Kept(rest), crc), data[offset..r.next], KeptSlices(data, r.next));
        } else {
          SplitEqual([], EmitAll(Kept(rest), crc), [], KeptSlices(data, r.next));
        }
      }
    }
  }

  lemma NoChunks(crc: Checksum)
    ensures AllSized(Kept([])) && EmitAll(Kept([]), crc) == []
  {
  }

  lemma ReadIsSized(data: Bytes, offset: nat)
    requires offset < |data| && ReadChunk(data, offset).Read?
    ensures var r := ReadChunk(data, offset);
      Sized(r.chunk) && offset < r.next <= |data| && r.next - offset == 12 + |r.chunk.body|
  {
  }

  /** A chunk that is not the last, in what is parsed, kept and checked. */
  lemma ParseStep(data: Bytes, offset: nat, crc: Checksum)
    requires offset < |data| && ReadChunk(data, offset).Read? && ReadChunk(data, offset).chunk.ctype != IEND
    requires Parse(data, offset).Parsed?
    ensures var r := ReadChunk(data, offset);
      && Parse(data, r.next).Parsed?
      && Parse(data, offset).chunks == [r.chunk] + Parse(data, r.next).chunks
      && KeptSlices(data, offset)
           == (if ToStrip(r.chunk.ctype) then [] else data[offset..r.next]) + KeptSlices(data, r.next)
      && (KeptSound(data, offset, crc) <==>
            (ToStrip(r.chunk.ctype) || SoundAt(data, offset, crc)) && KeptSound(data, r.next, crc))
  {
    hide ReadChunk, ToStrip, SoundAt;
  }

  lemma SplitEqual(a: Bytes, x: Bytes, b: Bytes, y: Bytes)
    requires |a| == |b|
    ensures a + x == b + y <==> a == b && x == y
  {
    assert a == (a + x)[..|a|] && b == (b + y)[..|b|];
    assert x == (a + x)[|a|..] && y == (b + y)[|b|..];
  }

  lemma LastChunk(c: Chunk, crc: Checksum)
    requires Sized(c)
    ensures AllSized([c]) && AllSized(Kept([c]))
    ensures EmitAll(Kept([c]), crc) == if ToStrip(c.ctype) then [] else Emit(c, crc)
  {
    assert [c][1..] == [];
  }

  lemma ConsChunk(c: Chunk, rest: seq<Chunk>, crc: Checksum)
    requires Sized(c) && AllSized(rest)
    ensures AllSized(Kept([c] + rest)) && AllSized(Kept(rest))
    ensures EmitAll(Kept([c] + rest), crc)
         == (if ToStrip(c.ctype) then [] else Emit(c, crc)) + EmitAll(Kept(rest), crc)
  {
    assert ([c] + rest)[1..] == rest;
    if !ToStrip(c.ctype) {
      assert Kept([c] + rest)[1..] == Kept(rest);
    }
  }

  /** A rewritten file holds its kept chunks byte for byte exactly when each stored a right checksum. */
  lemma StripCopies(data: Bytes, crc: Checksum)
    requires ParseFile(data).Parsed? && Dropped(ParseFile(data).chunks) != []
    ensures StripBytes(data, crc) == SIGNATURE + KeptSlices(data, |SIGNATURE|)
       <==> KeptSound(data, |SIGNATURE|, crc)
  {
    KeptSlicesEmitted(data, |SIGNATURE|, crc);
    SplitEqual(SIGNATURE, EmitAll(Kept(ParseFile(data).chunks), crc), SIGNATURE, KeptSlices(data, |SIGNATURE|));
  }

  // ---------------------------------------------------------------------------
  // The format
  // ---------------------------------------------------------------------------

  /** Four bytes hold a number with the most significant one first. */
  predicate Encodes(b: Bytes, n: int) {
    |b| == 4 &&
    var b0: int, b1: int, b2: int, b3: int := b[0], b[1], b[2], b[3];
    n == b0 * 0x100_0000 + b1 * 0x1_0000 + b2 * 0x100 + b3
  }

  function Code(c: char): Byte { if c < 128 as char then c as int else 0 }

  function Ascii(s: string): Bytes { seq(|s|, k requires 0 <= k < |s| => Code(s[k])) }

  predicate IsTextual(c: Chunk) {
    c.ctype in [Ascii("tEXt"), Ascii("zTXt"), Ascii("iTXt"), Ascii("tIME")]
  }

  predicate IsLast(c: Chunk) { c.ctype == Ascii("IEND") }

  /** A chunk as it stands in a file, whatever checksum is stored with it. */
  predicate IsStored(p: Bytes, c: Chunk) {
    && |c.ctype| == 4 && |p| == 12 + |c.body|
    && Encodes(p[..4], |c.body|) && p[4..8] == c.ctype && p[8..|p| - 4] == c.body
  }

  predicate StoresChecksum(p: Bytes, c: Chunk, crc: Checksum) {
    |p| >= 4 && Encodes(p[|p| - 4..], crc(c.ctype + c.body))
  }

  function Concat(pieces: seq<Bytes>): Bytes { if pieces == [] then [] else pieces[0] + Concat(pieces[1..]) }

  /** The chunks of a file in order, with the bytes of each, and what stands behind the IEND chunk. */
  predicate IsLaidOut(cs: seq<Chunk>, pieces: seq<Bytes>, tail: Bytes) {
    && |pieces| == |cs| && (forall k | 0 <= k < |cs| :: IsStored(pieces[k], cs[k]))
    && (forall k | 0 <= k < |cs| - 1 :: !IsLast(cs[k]))
    && (cs == [] || !IsLast(cs[|cs| - 1]) ==> tail == [])
  }

  predicate IsPngFile(data: Bytes, cs: seq<Chunk>, pieces: seq<Bytes>, tail: Bytes) {
    IsLaidOut(cs, pieces, tail) && data == [137, 80, 78, 71, 13, 10, 26, 10] + (Concat(pieces) + tail)
  }

  lemma Names()
    ensures SIGNATURE == [137, 80, 78, 71, 13, 10, 26, 10]
    ensures forall c: Chunk :: IsLast(c) <==> c.ctype == IEND
    ensures forall c: Chunk :: IsTextual(c) <==> ToStrip(c.ctype)
  {
    assert Ascii("IEND") == IEND && Ascii("tEXt") == TEXT && Ascii("zTXt") == ZTXT;
    assert Ascii("iTXt") == ITXT && Ascii("tIME") == TIME;
  }

  lemma WordEncodes(n: Word)
    ensures Encodes(ToBytes4(n), n)
  {
  }

  lemma FromEncodes(b: Bytes, n: int)
    requires |b| == 4
    ensures Encodes(b, n) <==> n == FromBytes4(b)
  {
  }

  lemma Cut(data: Bytes, i: nat, j: nat, a: nat, b: nat)
    requires i <= j <= |data| && a <= b <= j - i
    ensures data[i..j][a..b] == data[i + a..i + b]
  {
    forall k | 0 <= k < b - a ensures data[i..j][a..b][k] == data[i + a..i + b][k] {
      assert data[i..j][a + k] == data[i + a + k];
    }
  }

  /** A stored chunk is read, wherever it stands, and what is read is stored. */
  lemma StoredIsRead(data: Bytes, offset: nat, p: Bytes, c: Chunk)
    requires offset + |p| <= |data| && data[offset..offset + |p|] == p && |p| >= 12
    ensures IsStored(p, c) <==> ReadChunk(data, offset) == Read(c, offset + |p|)
  {
    hide FromBytes4;
    Cut(data, offset, offset + |p|, 0, 4);
    Cut(data, offset, offset + |p|, 4, 8);
    Cut(data, offset, offset + |p|, 8, |p| - 4);
    FromEncodes(p[..4], |c.body|);
    FromEncodes(p[..4], |p| - 12);
  }

  lemma EmitIsStored(c: Chunk, crc: Checksum)
    requires Sized(c)
    ensures IsStored(Emit(c, crc), c) && StoresChecksum(Emit(c, crc), c, crc)
  {
    hide ToBytes4;
    var sum := ToBytes4(crc(c.ctype + c.body));
    var p := Emit(c, crc);
    assert p == ToBytes4(|c.body|) + (c.ctype + (c.body + sum));
    assert p[..4] == ToBytes4(|c.body|) && p[|p| - 4..] == sum;
    WordEncodes(|c.body|);
    WordEncodes(crc(c.ctype + c.body));
  }

  lemma LaidOutCons(cs: seq<Chunk>, pieces: seq<Bytes>, tail: Bytes)
    requires cs != [] && |pieces| == |cs|
    ensures IsLaidOut(cs, pieces, tail) <==>
      IsStored(pieces[0], cs[0]) && if IsLast(cs[0]) then |cs| == 1 else IsLaidOut(cs[1..], pieces[1..], tail)
    ensures Concat(pieces) + tail == pieces[0] + (Concat(pieces[1..]) + tail)
  {
    hide IsStored, IsLast;
    if IsStored(pieces[0], cs[0]) && !IsLast(cs[0]) && IsLaidOut(cs[1..], pieces[1..], tail) {
      forall k | 0 <= k < |cs| ensures IsStored(pieces[k], cs[k]) {
        if k > 0 {
          assert IsStored(pieces[1..][k - 1], cs[1..][k - 1]);
        }
      }
      forall k | 0 <= k < |cs| - 1 ensures !IsLast(cs[k]) {
        if k > 0 {
          assert !IsLast(cs[1..][k - 1]);
        }
      }
    }
    assert cs[0] == cs[0];
  }

  /** A laid out file is parsed into its chunks. */
  lemma {:induction false} LaidOutParses(data: Bytes, offset: nat, cs: seq<Chunk>, pieces: seq<Bytes>, tail: Bytes)
    requires IsLaidOut(cs, pieces, tail) && offset <= |data| && data[offset..] == Concat(pieces) + tail
    ensures Parse(data, offset) == Parsed(cs, |data| - |tail|)
    decreases |cs|
  {
    hide ReadChunk, IsStored, IsLast;
    Names();
    if cs != [] {
      LaidOutCons(cs, pieces, tail);
      DropSum(data, offset, pieces[0], Concat(pieces[1..]) + tail);
      var next := offset + |pieces[0]|;
      assert data[offset..next] == data[offset..][..|pieces[0]|] == pieces[0];
      StoredLength(pieces[0], cs[0]);
      StoredIsRead(data, offset, pieces[0], cs[0]);
      assert cs == [cs[0]] + cs[1..];
      if !IsLast(cs[0]) {
        LaidOutParses(data, next, cs[1..], pieces[1..], tail);
      } else {
        assert pieces[1..] == [];
      }
    }
  }

  lemma StoredLength(p: Bytes, c: Chunk)
    requires IsStored(p, c)
    ensures |p| >= 12
  {
  }

  /** And what is parsed is laid out. */
  lemma {:induction false} ParsedIsLaidOut(data: Bytes, offset: nat) returns (pieces: seq<Bytes>, tail: Bytes)
    requires offset <= |data| && Parse(data, offset).Parsed?
    ensures IsLaidOut(Parse(data, offset).chunks, pieces, tail) && data[offset..] == Concat(pieces) + tail
    decreases |data| - offset
  {
    hide ReadChunk, IsStored, IsLast;
    Names();
    var cs := Parse(data, offset).chunks;
    if offset == |data| {
      pieces, tail := [], [];
    } else {
      var r := ReadChunk(data, offset);
      ReadIsSized(data, offset);
      var p := data[offset..r.next];
      StoredIsRead(data, offset, p, r.chunk);
      if r.chunk.ctype == IEND {
        pieces, tail := [p], data[r.next..];
        assert pieces[1..] == [] && Concat([]) == [];
      } else {
        var rest: seq<Bytes>;
        rest, tail := ParsedIsLaidOut(data, r.next);
        pieces := [p] + rest;
        assert pieces[1..] == rest && cs[1..] == Parse(data, r.next).chunks;
      }
      LaidOutCons(cs, pieces, tail);
      assert data[offset..] == p + data[r.next..];
    }
  }

  /** The chunks that are not textual, in order. */
  function Others(cs: seq<Chunk>): seq<Chunk> {
    if cs == [] then [] else (if IsTextual(cs[0]) then [] else [cs[0]]) + Others(cs[1..])
  }

  lemma {:induction false} OthersAreKept(cs: seq<Chunk>)
    ensures Others(cs) == Kept(cs)
    decreases |cs|
  {
    hide IsTextual, ToStrip;
    Names();
    if cs != [] {
      OthersAreKept(cs[1..]);
    }
  }

  /** A file is read exactly when it is a signature and stored chunks, and nothing behind them but IEND's tail. */
  lemma ReadsExactly(data: Bytes)
    ensures StripOutcome(data).NotPng? <==> !([137, 80, 78, 71, 13, 10, 26, 10] <= data)
    ensures StripOutcome(data).Stripped? <==>
      exists cs: seq<Chunk>, pieces: seq<Bytes>, tail: Bytes :: IsPngFile(data, cs, pieces, tail)
  {
    hide Parse, IsLaidOut;
    Names();
    if StripOutcome(data).Stripped? {
      var pieces, tail := ParsedIsLaidOut(data, |SIGNATURE|);
      assert data == SIGNATURE + data[|SIGNATURE|..];
      assert IsPngFile(data, ParseFile(data).chunks, pieces, tail);
    }
    forall cs: seq<Chunk>, pieces: seq<Bytes>, tail: Bytes | IsPngFile(data, cs, pieces, tail)
      ensures StripOutcome(data).Stripped?
    {
      FileParses(data, cs, pieces, tail);
    }
  }

  lemma FileParses(data: Bytes, cs: seq<Chunk>, pieces: seq<Bytes>, tail: Bytes)
    requires IsPngFile(data, cs, pieces, tail)
    ensures IsPng(data) && ParseFile(data) == Parsed(cs, |data| - |tail|)
  {
    hide Parse, IsLaidOut;
    Names();
    assert data[..|SIGNATURE|] == SIGNATURE && data[|SIGNATURE|..] == Concat(pieces) + tail;
    LaidOutParses(data, |SIGNATURE|, cs, pieces, tail);
  }

  lemma {:induction false} EmittedPieces(cs: seq<Chunk>, crc: Checksum) returns (pieces: seq<Bytes>)
    requires AllSized(cs)
    ensures |pieces| == |cs| && Concat(pieces) == EmitAll(cs, crc)
    ensures forall k | 0 <= k < |cs| :: IsStored(pieces[k], cs[k]) && StoresChecksum(pieces[k], cs[k], crc)
    decreases |cs|
  {
    hide IsStored, StoresChecksum, Emit;
    if cs == [] {
      pieces := [];
    } else {
      var rest := EmittedPieces(cs[1..], crc);
      pieces := [Emit(cs[0], crc)] + rest;
      EmitIsStored(cs[0], crc);
      assert pieces[1..] == rest;
      forall k | 0 <= k < |cs| ensures IsStored(pieces[k], cs[k]) && StoresChecksum(pieces[k], cs[k], crc) {
        if k > 0 {
          assert cs[1..][k - 1] == cs[k];
        }
      }
    }
  }

  /**
   What a strip reports and leaves of every PNG file, in the format's own terms: the chunks that are not
   textual, in order, each stored with its length and the right checksum; or the file as it was.
   */
  lemma StripExactly(data: Bytes, cs: seq<Chunk>, pieces: seq<Bytes>, tail: Bytes, crc: Checksum)
    requires IsPngFile(data, cs, pieces, tail)
    ensures StripOutcome(data).Stripped? && StripOutcome(data).kept == |Others(cs)|
    ensures StripOutcome(data).kept + StripOutcome(data).stripped == |cs|
    ensures Others(cs) == cs ==> StripBytes(data, crc) == data
    ensures Others(cs) != cs ==> exists pieces': seq<Bytes> ::
      && IsPngFile(StripBytes(data, crc), Others(cs), pieces', [])
      && forall k | 0 <= k < |pieces'| :: StoresChecksum(pieces'[k], Others(cs)[k], crc)
  {
    hide Parse, IsStored, StoresChecksum, Concat, IsLast;
    Names();
    FileParses(data, cs, pieces, tail);
    OthersAreKept(cs);
    NothingDropped(cs);
    if Others(cs) != cs {
      ParseShape(data, |SIGNATURE|);
      KeptEndsAtIend(cs);
      var pieces' := EmittedPieces(Kept(cs), crc);
      assert Concat(pieces') + [] == Concat(pieces');
      assert IsLaidOut(Others(cs), pieces', []);
    }
  }
}
