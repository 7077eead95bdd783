/**
 Bitrot protection of erasure shards (cmd/bitrot.go, cmd/bitrot-streaming.go).

 A protected shard file is a sequence of frames, each the checksum of a chunk followed by the
 chunk.  The writer, the reader, the size formula and the verifier compute frame boundaries
 independently; `Encode` is the reference they are all compared with.
 */
module BitrotFraming {
  import opened Prelude

  // ---------- checksums ----------

  /** Any checksum function whose digests have one fixed, positive size. */
  datatype Hash = Hash(extra: nat, digest: Bytes -> Bytes) {
    const size: nat := 1 + extra

    /** The checksum of `p`: `digest` cut or padded to the fixed size. */
    function Sum(p: Bytes): (d: Bytes)
      ensures |d| == size
    {
      var d := digest(p);
      if |d| == size then d else seq(size, i => 0)
    }
  }

  datatype Algorithm = SHA256 | BLAKE2b512 | HighwayHash256 | HighwayHash256S

  // ---------- size arithmetic ----------

  /** Integer division that truncates toward zero. */
  function Quo(n: int, d: int): int
    requires d > 0
  {
    if n >= 0 then n / d else -((-n) / d)
  }

  /** Rounded-up quotient; 0 when the denominator is 0. */
  function CeilFrac(numerator: int, denominator: int): (ceil: int)
    ensures numerator >= 0 && denominator > 0 ==>
              0 <= ceil && (ceil - 1) * denominator < numerator <= ceil * denominator
  {
    if denominator == 0 then 0
    else
      var n := if denominator < 0 then -numerator else numerator;
      var d := if denominator < 0 then -denominator else denominator;
      var q := Quo(n, d);
      if n > 0 && n % d != 0 then CeilStep(n, d); q + 1 else q
  }

  /** It is the ceiling of the quotient for operands of every sign, and 0 for a zero denominator. */
  lemma CeilFracExactly(n: int, d: int)
    ensures d == 0 ==> CeilFrac(n, d) == 0
    ensures d > 0 ==> (CeilFrac(n, d) - 1) * d < n <= CeilFrac(n, d) * d
    ensures d < 0 ==> CeilFrac(n, d) * d <= n < (CeilFrac(n, d) - 1) * d
  {
    if d < 0 {
      CeilOf(-n, -d);
      Negated(CeilFrac(n, d), -d);
    } else if d > 0 {
      CeilOf(n, d);
    }
  }

  lemma CeilOf(n: int, d: int)
    requires d > 0
    ensures (CeilFrac(n, d) - 1) * d < n <= CeilFrac(n, d) * d
  {
    if n > 0 && n % d != 0 { CeilStep(n, d); }
  }

  lemma Negated(q: int, d: int)
    ensures q * -d == -(q * d) && (q - 1) * -d == -((q - 1) * d)
  {
  }

  lemma CeilStep(n: int, d: int)
    requires n > 0 && d > 0 && n % d != 0
    ensures (n / d) * d < n <= (n / d + 1) * d
  {
    assert n == d * (n / d) + n % d;
  }

  lemma CeilFracDropsOneChunk(n: int, d: int)
    requires 0 < d <= n
    ensures CeilFrac(n, d) == 1 + CeilFrac(n - d, d)
  {
    DivModDrop(n, d);
  }

  /** Size on disk of a shard of `size` bytes (bitrotShardFileSize). */
  function ShardFileSize(h: Hash, size: int, shardSize: nat, algo: Algorithm): int {
    if algo != HighwayHash256S then size
    else CeilFrac(size, shardSize) * h.size + size
  }

  /** Only the streaming algorithm adds checksums to a file. */
  lemma OtherAlgorithmsAddNothing(h: Hash, size: int, shardSize: nat, algo: Algorithm)
    requires algo != HighwayHash256S
    ensures ShardFileSize(h, size, shardSize, algo) == size
  {
  }

  /** Where the frame of the chunk at the aligned `offset` starts. */
  function StreamOffset(h: Hash, offset: nat, shardSize: nat): nat
    requires shardSize > 0
  {
    assert (offset / shardSize) * h.size >= 0;
    (offset / shardSize) * h.size + offset
  }

  /** The same size, counted frame by frame. */
  ghost function FrameBytes(h: Hash, n: nat, shardSize: nat): nat
    requires shardSize > 0
  {
    if n == 0 then 0
    else var k := Min(shardSize, n); h.size + k + FrameBytes(h, n - k, shardSize)
  }

  lemma {:induction false} FrameBytesIsShardFileSize(h: Hash, n: nat, shardSize: nat)
    requires shardSize > 0
    ensures FrameBytes(h, n, shardSize) == ShardFileSize(h, n, shardSize, HighwayHash256S)
    decreases n
  {
    if n == 0 {
    } else if n <= shardSize {
      OneChunk(n, shardSize);
    } else {
      FrameBytesIsShardFileSize(h, n - shardSize, shardSize);
      FileSizeDrop(h, n, shardSize);
    }
  }

  // ---------- the reference format ----------

  /** The frames of `data`: each chunk of `shardSize` bytes, and the shorter last one, behind its checksum. */
  ghost function Encode(h: Hash, data: Bytes, shardSize: nat): Bytes
    requires shardSize > 0
    decreases |data|
  {
    if data == [] then []
    else
      var n := Min(shardSize, |data|);
      h.Sum(data[..n]) + data[..n] + Encode(h, data[n..], shardSize)
  }

  /** The writer's sizes agree with the frames: the formula counts every encoded byte. */
  lemma {:induction false} EncodedLength(h: Hash, data: Bytes, shardSize: nat)
    requires shardSize > 0
    ensures |Encode(h, data, shardSize)| == ShardFileSize(h, |data|, shardSize, HighwayHash256S)
    decreases |data|
  {
    if data == [] {
    } else if |data| <= shardSize {
      assert data[|data|..] == [];
      OneChunk(|data|, shardSize);
    } else {
      var rest := data[shardSize..];
      EncodedLength(h, rest, shardSize);
      FileSizeDrop(h, |data|, shardSize);
    }
  }

  lemma FileSizeDrop(h: Hash, size: int, shardSize: nat)
    requires 0 < shardSize <= size
    ensures ShardFileSize(h, size, shardSize, HighwayHash256S)
         == h.size + shardSize + ShardFileSize(h, size - shardSize, shardSize, HighwayHash256S)
  {
    CeilFracDropsOneChunk(size, shardSize);
    var c := CeilFrac(size - shardSize, shardSize);
    assert (1 + c) * h.size == h.size + c * h.size;
  }

  lemma OneChunk(n: int, d: int)
    requires 0 < n <= d
    ensures CeilFrac(n, d) == 1
  {
    if n == d {
      DivModUnique(n, d, 1, 0);
    } else {
      DivModUnique(n, d, 0, n);
    }
  }

  /** One frame in front: a full chunk, or the last chunk. */
  lemma EncodeChunk(h: Hash, chunk: Bytes, more: Bytes, shardSize: nat)
    requires 0 < |chunk| <= shardSize && (|chunk| == shardSize || more == [])
    ensures Encode(h, chunk + more, shardSize) == h.Sum(chunk) + chunk + Encode(h, more, shardSize)
  {
    assert (chunk + more)[..|chunk|] == chunk && (chunk + more)[|chunk|..] == more;
  }

  /** Frames of a concatenation whose first part fills whole chunks. */
  lemma {:induction false} EncodeConcat(h: Hash, a: Bytes, b: Bytes, shardSize: nat)
    requires shardSize > 0 && Whole(|a|, shardSize)
    ensures Encode(h, a + b, shardSize) == Encode(h, a, shardSize) + Encode(h, b, shardSize)
    decreases |a|
  {
    if a == [] {
      assert a + b == b;
    } else {
      var chunk, more := a[..shardSize], a[shardSize..];
      var frame := h.Sum(chunk) + chunk;
      calc {
        Encode(h, a + b, shardSize);
        { assert a + b == chunk + (more + b); }
        Encode(h, chunk + (more + b), shardSize);
        { EncodeChunk(h, chunk, more + b, shardSize); }
        frame + Encode(h, more + b, shardSize);
        { EncodeConcat(h, more, b, shardSize); }
        frame + (Encode(h, more, shardSize) + Encode(h, b, shardSize));
        { ConcatAssoc(frame, Encode(h, more, shardSize), Encode(h, b, shardSize)); }
        (frame + Encode(h, more, shardSize)) + Encode(h, b, shardSize);
        { EncodeChunk(h, chunk, more, shardSize); assert a == chunk + more; }
        Encode(h, a, shardSize) + Encode(h, b, shardSize);
      }
    }
  }

  /** Where the frame of the chunk at `offset` starts: the reader's and the writer's arithmetic agree. */
  lemma FrameBoundary(h: Hash, data: Bytes, offset: nat, shardSize: nat)
    requires shardSize > 0 && offset <= |data|
    requires offset % shardSize == 0
    ensures var start := StreamOffset(h, offset, shardSize);
            && start == ShardFileSize(h, offset, shardSize, HighwayHash256S)
            && 0 <= start <= |Encode(h, data, shardSize)|
            && Encode(h, data, shardSize)[..start] == Encode(h, data[..offset], shardSize)
            && Encode(h, data, shardSize)[start..] == Encode(h, data[offset..], shardSize)
  {
    assert data == data[..offset] + data[offset..];
    WholeIsMultiple(offset, shardSize);
    EncodeConcat(h, data[..offset], data[offset..], shardSize);
    EncodedLength(h, data[..offset], shardSize);
  }

  // ---------- the writer ----------

  /** How the sink answers one Write of the bitrot writer. */
  datatype SinkAnswer =
    | Accepts
    | RefusesHash
    | FailsInBody(n: nat)
    | ShortBody(n: nat)

  datatype WriteError = SinkError | ErrShortWrite

  /** Bytes that reach the sink when `p` is written and the sink answers `a`. */
  ghost function Emitted(h: Hash, p: Bytes, a: SinkAnswer): Bytes {
    if p == [] then []
    else match a
      case Accepts => h.Sum(p) + p
      case RefusesHash => []
      case FailsInBody(n) => h.Sum(p) + p[..Min(n, |p|)]
      case ShortBody(n) => h.Sum(p) + p[..Min(n, |p|)]
  }

  class StreamingWriter {
    const h: Hash
    const shardSize: nat
    const announced: int
    var out: Bytes
    var failed: bool

    /** newStreamingBitrotWriter: CreateFile is told the size of the file to come. */
    constructor (h: Hash, shardSize: nat, length: int)
      ensures this.h == h && this.shardSize == shardSize && out == [] && !failed
      ensures announced == AnnouncedSize(h, shardSize, length)
    {
      this.h, this.shardSize, out, failed := h, shardSize, [], false;
      announced := AnnouncedSize(h, shardSize, length);
    }

    method Write(p: Bytes, answer: SinkAnswer) returns (n: nat, err: Option<WriteError>)
      modifies this
      ensures out == old(out) + Emitted(h, p, answer)
      ensures err == None ==> n == |p| && failed == old(failed) && (p == [] || out == old(out) + h.Sum(p) + p)
      ensures err.Some? ==> failed
      ensures answer == Accepts ==> err == None
    {
      if |p| == 0 {
        return 0, None;
      }
      var hashBytes := h.Sum(p);
      if answer == RefusesHash {
        failed := true;
        return 0, Some(SinkError);
      }
      out := out + hashBytes;
      match answer {
        case Accepts =>
          out := out + p;
          return |p|, None;
        case FailsInBody(k) =>
          n := Min(k, |p|);
          out := out + p[..n];
          failed := true;
          return n, Some(SinkError);
        case ShortBody(k) =>
          n := Min(k, |p|);
          out := out + p[..n];
          if n != |p| {
            failed := true;
            return n, Some(ErrShortWrite);
          }
          return n, None;
      }
    }

    /** A run of writes that the sink accepts. */
    method WriteAll(chunks: seq<Bytes>)
      modifies this
      ensures out == old(out) + WriteRun(h, chunks) && failed == old(failed)
    {
      var i := 0;
      while i < |chunks|
        invariant 0 <= i <= |chunks| && failed == old(failed)
        invariant out + WriteRun(h, chunks[i..]) == old(out) + WriteRun(h, chunks)
      {
        assert chunks[i..][0] == chunks[i] && chunks[i..][1..] == chunks[i + 1..];
        ConcatAssoc(out, Emitted(h, chunks[i], Accepts), WriteRun(h, chunks[i + 1..]));
        var n, err := Write(chunks[i], Accepts);
        i := i + 1;
      }
      assert chunks[i..] == [];
    }
  }

  /** The size announced to CreateFile; -1 when the length is unknown. */
  function AnnouncedSize(h: Hash, shardSize: nat, length: int): int {
    if length == -1 then -1 else CeilFrac(length, shardSize) * h.size + length
  }

  /** An unknown length is announced as such. */
  lemma UnknownSize(h: Hash, shardSize: nat)
    ensures AnnouncedSize(h, shardSize, -1) == -1
  {
  }

  ghost function Concat(chunks: seq<Bytes>): Bytes {
    if chunks == [] then [] else chunks[0] + Concat(chunks[1..])
  }

  /** The sink after a run of accepted writes. */
  ghost function WriteRun(h: Hash, chunks: seq<Bytes>): Bytes {
    if chunks == [] then [] else Emitted(h, chunks[0], Accepts) + WriteRun(h, chunks[1..])
  }

  /** The erasure encoder's discipline: full chunks, then one that may be shorter. */
  ghost predicate ShardSized(chunks: seq<Bytes>, shardSize: nat) {
    && (forall i :: 0 <= i < |chunks| - 1 ==> |chunks[i]| == shardSize)
    && (chunks != [] ==> |chunks[|chunks| - 1]| <= shardSize)
  }

  /** Writing shard-sized chunks emits exactly the frames of the data: as many bytes as were announced, and as the size formula says. */
  lemma {:induction false} WriterEmitsFrames(h: Hash, chunks: seq<Bytes>, shardSize: nat)
    requires shardSize > 0 && ShardSized(chunks, shardSize)
    ensures WriteRun(h, chunks) == Encode(h, Concat(chunks), shardSize)
    ensures |WriteRun(h, chunks)| == AnnouncedSize(h, shardSize, |Concat(chunks)|)
    ensures |WriteRun(h, chunks)| == ShardFileSize(h, |Concat(chunks)|, shardSize, HighwayHash256S)
    decreases |chunks|
  {
    EncodedLength(h, Concat(chunks), shardSize);
    if chunks == [] {
    } else if |chunks| == 1 {
      assert Concat(chunks) == chunks[0];
      assert chunks[0][|chunks[0]|..] == [];
    } else {
      var rest := chunks[1..];
      assert forall i :: 0 <= i < |rest| - 1 ==> rest[i] == chunks[i + 1];
      WriterEmitsFrames(h, rest, shardSize);
      assert |chunks[0]| == shardSize;
      var all := chunks[0] + Concat(rest);
      assert all[..shardSize] == chunks[0] && all[shardSize..] == Concat(rest);
    }
  }

  // ---------- the random-access reader ----------

  datatype Disk = Disk(online: bool, file: Bytes)

  datatype ReadError = ErrUnexpected | ErrDisk | ErrFileCorrupt | ErrUnexpectedEOF

  /** ReadFileStream: refuses a range past the end of the file, limits the stream to `length` bytes. */
  function ReadFileStream(disk: Disk, offset: nat, length: int): Result<Bytes, ReadError> {
    if !disk.online then Err(ErrDisk)
    else if |disk.file| < offset + length then Err(ErrFileCorrupt)
    else if length <= 0 then Ok([])
    else Ok(disk.file[offset..offset + length])
  }

  /** A section of `length` bytes at `offset`, cut off at the end of the data. */
  function SectionReader(data: Bytes, offset: nat, length: int): Bytes {
    if length <= 0 || offset >= |data| then []
    else data[offset..Min(|data|, offset + length)]
  }

  datatype ReaderConfig = ReaderConfig(h: Hash, shardSize: nat, data: Bytes, disk: Disk, tillOffset: int)

  datatype ReaderState = ReaderState(rc: Option<Bytes>, currOffset: nat)

  function NewReader(h: Hash, shardSize: nat, data: Bytes, disk: Disk, tillOffset: int): ReaderConfig {
    ReaderConfig(h, shardSize, data, disk, CeilFrac(tillOffset, shardSize) * h.size + tillOffset)
  }

  /** First use of the reader: the stream it will consume. */
  function Open(c: ReaderConfig, offset: nat): Result<Bytes, ReadError>
    requires c.shardSize > 0
  {
    var streamOffset := StreamOffset(c.h, offset, c.shardSize);
    if |c.data| == 0 && c.tillOffset != streamOffset
    then ReadFileStream(c.disk, streamOffset, c.tillOffset - streamOffset)
    else Ok(SectionReader(c.data, streamOffset, c.tillOffset - streamOffset))
  }

  /** Consumes one frame whose chunk has `n` bytes. */
  function TakeFrame(h: Hash, stream: Bytes, n: nat): (Bytes, Result<Bytes, ReadError>) {
    if |stream| < h.size then ([], Err(ErrUnexpectedEOF))
    else
      var rest := stream[h.size..];
      if |rest| < n then ([], Err(ErrUnexpectedEOF))
      else if h.Sum(rest[..n]) != stream[..h.size] then (rest[n..], Err(ErrFileCorrupt))
      else (rest[n..], Ok(rest[..n]))
  }

  /** What one ReadAt of `n` bytes at `offset` does to the reader and returns. */
  function ReadStep(c: ReaderConfig, s: ReaderState, n: nat, offset: nat): (ReaderState, Result<Bytes, ReadError>)
    requires c.shardSize > 0
  {
    if offset % c.shardSize != 0 then (s, Err(ErrUnexpected))
    else
      var stream0 := if s.rc.None? then Open(c, offset) else Ok(s.rc.value);
      var curr := if s.rc.None? then offset else s.currOffset;
      if stream0.Err? then (ReaderState(None, curr), Err(stream0.error))
      else if offset != curr then (ReaderState(Some(stream0.value), curr), Err(ErrUnexpected))
      else
        var (rest, r) := TakeFrame(c.h, stream0.value, n);
        (ReaderState(Some(rest), if r.Ok? then curr + n else curr), r)
  }

  class StreamingReader {
    const config: ReaderConfig
    var rc: Option<Bytes>
    var currOffset: nat

    ghost predicate Valid() { config.shardSize > 0 }

    ghost function State(): ReaderState
      reads this
    {
      ReaderState(rc, currOffset)
    }

    constructor (h: Hash, shardSize: nat, data: Bytes, disk: Disk, tillOffset: int)
      requires shardSize > 0
      ensures Valid() && config == NewReader(h, shardSize, data, disk, tillOffset)
      ensures State() == ReaderState(None, 0)
    {
      config := NewReader(h, shardSize, data, disk, tillOffset);
      rc, currOffset := None, 0;
    }

    method ReadAt(n: nat, offset: nat) returns (r: Result<Bytes, ReadError>)
      requires Valid()
      modifies this
      ensures (State(), r) == ReadStep(config, old(State()), n, offset)
    {
      if offset % config.shardSize != 0 {
        return Err(ErrUnexpected);
      }
      if rc == None {
        currOffset := offset;
        var stream0 := Open(config, offset);
        if stream0.Err? {
          return Err(stream0.error);
        }
        rc := Some(stream0.value);
      }
      if offset != currOffset {
        return Err(ErrUnexpected);
      }
      var stream := rc.value;
      if |stream| < config.h.size {
        rc := Some([]);
        return Err(ErrUnexpectedEOF);
      }
      var hashBytes := stream[..config.h.size];
      stream := stream[config.h.size..];
      if |stream| < n {
        rc := Some([]);
        return Err(ErrUnexpectedEOF);
      }
      var buf := stream[..n];
      rc := Some(stream[n..]);
      if config.h.Sum(buf) != hashBytes {
        return Err(ErrFileCorrupt);
      }
      currOffset := currOffset + n;
      return Ok(buf);
    }
  }

  /** In-order reads of one shard at a time from `offset` up to `till`. */
  ghost function ReadAll(c: ReaderConfig, s: ReaderState, offset: nat, till: nat): Result<Bytes, ReadError>
    requires c.shardSize > 0
    decreases till - offset
  {
    if offset >= till then Ok([])
    else
      var n := Min(c.shardSize, till - offset);
      var (s', r) := ReadStep(c, s, n, offset);
      if r.Err? then r
      else
        var rest := ReadAll(c, s', offset + n, till);
        if rest.Err? then rest else Ok(r.value + rest.value)
  }

  /** The reader is fed `stored` either inline or from a disk that is online. */
  ghost predicate Feeds(c: ReaderConfig, stored: Bytes) {
    c.data == stored || (c.data == [] && c.disk == Disk(true, stored))
  }

  ghost function Prepend(head: Bytes, r: Result<Bytes, ReadError>): Result<Bytes, ReadError> {
    if r.Err? then r else Ok(head + r.value)
  }

  /** Taking frames for `n` payload bytes off an open stream, regardless of offsets. */
  ghost function Drain(h: Hash, shardSize: nat, stream: Bytes, n: nat): Result<Bytes, ReadError>
    requires shardSize > 0
    decreases n
  {
    if n == 0 then Ok([])
    else
      var k := Min(shardSize, n);
      var (rest, r) := TakeFrame(h, stream, k);
      if r.Err? then r else Prepend(r.value, Drain(h, shardSize, rest, n - k))
  }

  /** In-order reads at aligned offsets only take frames off the stream. */
  lemma {:induction false} ReadAllDrains(c: ReaderConfig, stream: Bytes, offset: nat, till: nat)
    requires c.shardSize > 0 && offset % c.shardSize == 0 && offset <= till
    ensures ReadAll(c, ReaderState(Some(stream), offset), offset, till)
         == Drain(c.h, c.shardSize, stream, till - offset)
    decreases till - offset
  {
    if offset < till {
      var k := Min(c.shardSize, till - offset);
      var (rest, r) := TakeFrame(c.h, stream, k);
      if r.Ok? && offset + k < till {
        assert ReadAll(c, ReaderState(Some(rest), offset + k), offset + k, till)
            == Drain(c.h, c.shardSize, rest, till - (offset + k)) by {
          AlignedNext(offset, c.shardSize);
          ReadAllDrains(c, rest, offset + k, till);
        }
      }
    }
  }

  lemma FirstFrame(h: Hash, data: Bytes, shardSize: nat, tail: Bytes)
    requires shardSize > 0 && data != []
    ensures var n := Min(shardSize, |data|);
            TakeFrame(h, Encode(h, data, shardSize) + tail, n)
            == (Encode(h, data[n..], shardSize) + tail, Ok(data[..n]))
  {
    var n := Min(shardSize, |data|);
    var stream := Encode(h, data, shardSize) + tail;
    var next := Encode(h, data[n..], shardSize) + tail;
    assert stream[..h.size] == h.Sum(data[..n]);
    assert stream[h.size..] == data[..n] + next;
  }

  lemma PrependSplit(data: Bytes, n: nat, r: Result<Bytes, ReadError>)
    requires n <= |data|
    ensures Prepend(data[..n], Prepend(data[n..], r)) == Prepend(data, r)
  {
    assert r.Ok? ==> data[..n] + (data[n..] + r.value) == data + r.value;
  }

  lemma DrainStep(h: Hash, shardSize: nat, stream: Bytes, rest: Bytes, chunk: Bytes, n: nat, total: nat)
    requires shardSize > 0 && total > 0 && n == Min(shardSize, total)
    requires TakeFrame(h, stream, n) == (rest, Ok(chunk))
    ensures Drain(h, shardSize, stream, total) == Prepend(chunk, Drain(h, shardSize, rest, total - n))
  {
  }

  /** The frames of `data` yield `data`, then the reader goes on with what follows them. */
  lemma DrainFrames(h: Hash, shardSize: nat, data: Bytes, stream: Bytes, tail: Bytes, more: nat, total: nat)
    requires shardSize > 0 && stream == Encode(h, data, shardSize) + tail
    requires total == |data| + more && (more == 0 || Whole(|data|, shardSize))
    ensures Drain(h, shardSize, stream, total) == Prepend(data, Drain(h, shardSize, tail, more))
  {
    if more == 0 {
      DrainAll(h, shardSize, data, stream, tail);
      assert data + [] == data;
    } else {
      DrainWhole(h, shardSize, data, stream, tail, total, Drain(h, shardSize, tail, more), more);
    }
  }

  lemma {:induction false} DrainAll(h: Hash, shardSize: nat, data: Bytes, stream: Bytes, tail: Bytes)
    requires shardSize > 0 && stream == Encode(h, data, shardSize) + tail
    ensures Drain(h, shardSize, stream, |data|) == Ok(data)
    decreases |data|
  {
    if data != [] {
      var n := Min(shardSize, |data|);
      var rest := Encode(h, data[n..], shardSize) + tail;
      DrainAll(h, shardSize, data[n..], rest, tail);
      assert data + [] == data && data[n..] + [] == data[n..];
      DrainOneMore(h, shardSize, data, stream, tail, n, |data|, rest, Ok([]));
    }
  }

  lemma {:induction false} DrainWhole(
    h: Hash, shardSize: nat, data: Bytes, stream: Bytes, tail: Bytes, total: nat, r: Result<Bytes, ReadError>, more: nat)
    requires shardSize > 0 && stream == Encode(h, data, shardSize) + tail && Whole(|data|, shardSize)
    requires total == |data| + more && r == Drain(h, shardSize, tail, more)
    ensures Drain(h, shardSize, stream, total) == Prepend(data, r)
    decreases |data|, 1
  {
    if data == [] {
      assert stream == tail;
      assert r.Ok? ==> [] + r.value == r.value;
    } else {
      DrainWholeNext(h, shardSize, data, stream, tail, total, r, more);
    }
  }

  lemma {:induction false} DrainWholeNext(
    h: Hash, shardSize: nat, data: Bytes, stream: Bytes, tail: Bytes, total: nat, r: Result<Bytes, ReadError>, more: nat)
    requires shardSize > 0 && stream == Encode(h, data, shardSize) + tail && Whole(|data|, shardSize) && data != []
    requires total == |data| + more && r == Drain(h, shardSize, tail, more)
    ensures Drain(h, shardSize, stream, total) == Prepend(data, r)
    decreases |data|, 0
  {
    var next := data[shardSize..];
    var rest := Encode(h, next, shardSize) + tail;
    DrainWhole(h, shardSize, next, rest, tail, total - shardSize, r, more);
    DrainOneMore(h, shardSize, data, stream, tail, shardSize, total, rest, r);
  }

  /** One frame in front of a stream that yields the rest of the data. */
  lemma {:induction false} DrainOneMore(
    h: Hash, shardSize: nat, data: Bytes, stream: Bytes, tail: Bytes, n: nat, total: nat, rest: Bytes,
    r: Result<Bytes, ReadError>)
    requires shardSize > 0 && data != [] && stream == Encode(h, data, shardSize) + tail
    requires n == Min(shardSize, |data|) == Min(shardSize, total) && rest == Encode(h, data[n..], shardSize) + tail
    requires Drain(h, shardSize, rest, total - n) == Prepend(data[n..], r)
    ensures Drain(h, shardSize, stream, total) == Prepend(data, r)
  {
    assert TakeFrame(h, stream, n) == (rest, Ok(data[..n])) by { FirstFrame(h, data, shardSize, tail); }
    DrainStep(h, shardSize, stream, rest, data[..n], n, total);
    PrependSplit(data, n, r);
  }

  lemma AlignedNext(offset: nat, shardSize: nat)
    requires shardSize > 0 && offset % shardSize == 0
    ensures (offset + shardSize) % shardSize == 0
  {
    DivModDrop(offset + shardSize, shardSize);
  }

  /** Cutting the frames of `data` at both ends leaves the frames of the slice. */
  lemma FramesOfSlice(h: Hash, data: Bytes, shardSize: nat, start: nat, till: nat)
    requires shardSize > 0 && start % shardSize == 0 && start <= till <= |data|
    requires till % shardSize == 0 || till == |data|
    ensures var file := Encode(h, data, shardSize);
            var from := StreamOffset(h, start, shardSize);
            var to := ShardFileSize(h, till, shardSize, HighwayHash256S);
            && 0 <= from <= to <= |file|
            && file[from..to] == Encode(h, data[start..till], shardSize)
  {
    var file := Encode(h, data, shardSize);
    var to := ShardFileSize(h, till, shardSize, HighwayHash256S);
    var cut := data[..till];
    assert 0 <= to <= |file| && file[..to] == Encode(h, cut, shardSize) by {
      EncodedLength(h, cut, shardSize);
      if till == |data| {
        assert cut == data;
      } else {
        FrameBoundary(h, data, till, shardSize);
      }
    }
    FrameBoundary(h, cut, start, shardSize);
    assert cut[start..] == data[start..till];
  }

  /** What a fresh reader consumes after seeking: the frames of the requested slice. */
  lemma OpensAtFrames(c: ReaderConfig, h: Hash, data: Bytes, shardSize: nat, start: nat, till: nat)
    requires shardSize > 0 && start % shardSize == 0 && start < till <= |data|
    requires till % shardSize == 0 || till == |data|
    requires c == NewReader(h, shardSize, c.data, c.disk, till) && Feeds(c, Encode(h, data, shardSize))
    ensures Open(c, start) == Ok(Encode(h, data[start..till], shardSize))
  {
    FramesOfSlice(h, data, shardSize, start, till);
    assert |Encode(h, data[start..till], shardSize)| > 0;
    OpenSeeks(c, Encode(h, data, shardSize), start, StreamOffset(h, start, shardSize));
  }

  lemma OpenSeeks(c: ReaderConfig, file: Bytes, offset: nat, from: nat)
    requires c.shardSize > 0 && from == StreamOffset(c.h, offset, c.shardSize)
    requires from < c.tillOffset <= |file| && Feeds(c, file)
    ensures Open(c, offset) == Ok(file[from..c.tillOffset])
  {
  }

  /**
   Round trip: reading back any shard-aligned slice of what the writer emitted returns exactly that
   slice, from inline data and from disk alike, when the end is shard-aligned or the end of the data.
   */
  lemma {:induction false} ReadsBackSlice(
    c: ReaderConfig, h: Hash, data: Bytes, shardSize: nat, start: nat, till: nat)
    requires shardSize > 0 && start % shardSize == 0 && start <= till <= |data|
    requires till % shardSize == 0 || till == |data|
    requires c == NewReader(h, shardSize, c.data, c.disk, till) && Feeds(c, Encode(h, data, shardSize))
    ensures ReadAll(c, ReaderState(None, 0), start, till) == Ok(data[start..till])
  {
    if start < till {
      OpensAtFrames(c, h, data, shardSize, start, till);
      SliceReads(c, start, till, data[start..till]);
    } else {
      assert data[start..till] == [];
    }
  }

  lemma SliceReads(c: ReaderConfig, start: nat, till: nat, slice: Bytes)
    requires c.shardSize > 0 && start % c.shardSize == 0 && till == start + |slice| && slice != []
    requires Open(c, start) == Ok(Encode(c.h, slice, c.shardSize))
    ensures ReadAll(c, ReaderState(None, 0), start, till) == Ok(slice)
  {
    var stream := Encode(c.h, slice, c.shardSize);
    FreshReadDrains(c, start, till, stream);
    assert stream + [] == stream && slice + [] == slice;
    DrainFrames(c.h, c.shardSize, slice, stream, [], 0, till - start);
  }

  /** The first read opens the stream; from then on frames are taken off it. */
  lemma FreshReadDrains(c: ReaderConfig, start: nat, till: nat, stream: Bytes)
    requires c.shardSize > 0 && start % c.shardSize == 0 && start < till
    requires Open(c, start) == Ok(stream)
    ensures ReadAll(c, ReaderState(None, 0), start, till) == Drain(c.h, c.shardSize, stream, till - start)
  {
    var n := Min(c.shardSize, till - start);
    assert ReadStep(c, ReaderState(None, 0), n, start) == ReadStep(c, ReaderState(Some(stream), start), n, start);
    ReadAllDrains(c, stream, start, till);
  }

  /**
   The exact condition for any other end offset, `k` bytes into the chunk at `last`: those bytes are
   compared with the checksum of the whole stored chunk, so the read succeeds only if the two
   checksums collide.
   */
  lemma {:induction false} UnalignedEnd(
    c: ReaderConfig, h: Hash, data: Bytes, shardSize: nat, start: nat, last: nat, k: nat)
    requires 0 < k < shardSize && last + k < |data|
    requires start % shardSize == 0 && last % shardSize == 0 && start <= last
    requires c == NewReader(h, shardSize, c.data, c.disk, last + k) && Feeds(c, Encode(h, data, shardSize))
    ensures ReadAll(c, ReaderState(None, 0), start, last + k).Ok? <==>
            h.Sum(data[last..last + k]) == h.Sum(data[last..Min(last + shardSize, |data|)])
  {
    var till := Min(last + shardSize, |data|);
    var stream := OpensCut(c, h, data, shardSize, start, last, k, till);
    WholeDifference(start, last, shardSize);
    var r, ok := CutReads(c, data, start, last, k, till, stream);
  }

  /** Frames of the data from `start` to `last`, then a frame cut short, whatever reader opened them. */
  lemma {:induction false} CutReads(
    c: ReaderConfig, data: Bytes, start: nat, last: nat, k: nat, till: nat, stream: Bytes)
    returns (r: Result<Bytes, ReadError>, ok: bool)
    requires 0 < k < c.shardSize && last + k <= till <= |data|
    requires start % c.shardSize == 0 && start <= last && Whole(last - start, c.shardSize)
    requires stream == Encode(c.h, data[start..last], c.shardSize) + (c.h.Sum(data[last..till]) + data[last..last + k])
    requires Open(c, start) == Ok(stream)
    ensures ReadAll(c, ReaderState(None, 0), start, last + k) == r && r.Ok? == ok
    ensures ok == (c.h.Sum(data[last..last + k]) == c.h.Sum(data[last..till]))
  {
    r := ReadAll(c, ReaderState(None, 0), start, last + k);
    var length := ReadLength(c, start, last + k, stream, r);
    ok := length >= 0;
    CutLength(c.h, c.shardSize, data, start, last, k, till, stream, length);
  }

  /** How many bytes the frames yield; -1 for an error. */
  ghost function DrainLength(h: Hash, shardSize: nat, stream: Bytes, n: nat): int
    requires shardSize > 0
  {
    if Drain(h, shardSize, stream, n).Ok? then |Drain(h, shardSize, stream, n).value| else -1
  }

  lemma ReadLength(c: ReaderConfig, start: nat, till: nat, stream: Bytes, r: Result<Bytes, ReadError>)
    returns (length: int)
    requires c.shardSize > 0 && start % c.shardSize == 0 && start < till
    requires Open(c, start) == Ok(stream) && r == ReadAll(c, ReaderState(None, 0), start, till)
    ensures length == DrainLength(c.h, c.shardSize, stream, till - start)
    ensures length >= 0 <==> r.Ok?
  {
    FreshReadDrains(c, start, till, stream);
    length := DrainLength(c.h, c.shardSize, stream, till - start);
  }

  /** Draining frames of the data from `start` to `last`, then a frame cut short. */
  lemma {:induction false} CutLength(
    h: Hash, shardSize: nat, data: Bytes, start: nat, last: nat, k: nat, till: nat, stream: Bytes, length: int)
    requires 0 < k < shardSize && start <= last && Whole(last - start, shardSize) && last + k <= till <= |data|
    requires stream == Encode(h, data[start..last], shardSize) + (h.Sum(data[last..till]) + data[last..last + k])
    requires length == DrainLength(h, shardSize, stream, last + k - start)
    ensures length >= 0 <==> h.Sum(data[last..last + k]) == h.Sum(data[last..till])
  {
    assert data[last..till][..k] == data[last..last + k];
    CutStream(h, shardSize, data[start..last], data[last..till], k, stream, last + k - start);
  }

  /** Frames of `slice`, then part of a chunk behind the checksum of all of it. */
  lemma CutStream(h: Hash, shardSize: nat, slice: Bytes, chunk: Bytes, k: nat, stream: Bytes, total: nat)
    requires 0 < k < shardSize && k <= |chunk| && Whole(|slice|, shardSize) && total == |slice| + k
    requires stream == Encode(h, slice, shardSize) + (h.Sum(chunk) + chunk[..k])
    ensures Drain(h, shardSize, stream, total).Ok? <==> h.Sum(chunk[..k]) == h.Sum(chunk)
  {
    DrainFrames(h, shardSize, slice, stream, h.Sum(chunk) + chunk[..k], k, total);
    DrainCut(h, shardSize, chunk, k);
  }

  /** Reading part of a chunk behind the checksum of all of it. */
  lemma DrainCut(h: Hash, shardSize: nat, chunk: Bytes, k: nat)
    requires 0 < k < shardSize && k <= |chunk|
    ensures Drain(h, shardSize, h.Sum(chunk) + chunk[..k], k).Ok? <==> h.Sum(chunk[..k]) == h.Sum(chunk)
  {
    var tail := h.Sum(chunk) + chunk[..k];
    assert tail[..h.size] == h.Sum(chunk) && tail[h.size..] == chunk[..k];
    assert chunk[..k][..k] == chunk[..k];
  }

  lemma WholeDifference(start: nat, last: nat, shardSize: nat)
    requires shardSize > 0 && start % shardSize == 0 && last % shardSize == 0 && start <= last
    ensures Whole(last - start, shardSize)
  {
    var p, q := start / shardSize, last / shardSize;
    assert shardSize * (q - p) == shardSize * q - shardSize * p == last - start;
    DivModUnique(last - start, shardSize, q - p, 0);
    WholeIsMultiple(last - start, shardSize);
  }

  /** What a reader with an end offset inside a chunk consumes: whole frames, then a frame cut short. */
  lemma {:induction false} OpensCut(
    c: ReaderConfig, h: Hash, data: Bytes, shardSize: nat, start: nat, last: nat, k: nat, till: nat)
    returns (stream: Bytes)
    requires 0 < k < shardSize && last + k < |data| && till == Min(last + shardSize, |data|)
    requires start % shardSize == 0 && last % shardSize == 0 && start <= last
    requires c == NewReader(h, shardSize, c.data, c.disk, last + k) && Feeds(c, Encode(h, data, shardSize))
    ensures stream == Encode(h, data[start..last], shardSize) + (h.Sum(data[last..till]) + data[last..last + k])
    ensures Open(c, start) == Ok(stream)
  {
    var file := Encode(h, data, shardSize);
    var from, to := CutBounds(h, data, shardSize, start, last, k, till, file);
    OpenSeeks(c, file, start, from);
    stream := file[from..to];
  }

  lemma {:induction false} CutBounds(
    h: Hash, data: Bytes, shardSize: nat, start: nat, last: nat, k: nat, till: nat, file: Bytes)
    returns (from: nat, to: nat)
    requires 0 < k < shardSize && last + k < |data| && till == Min(last + shardSize, |data|)
    requires start % shardSize == 0 && last % shardSize == 0 && start <= last
    requires file == Encode(h, data, shardSize)
    ensures from == StreamOffset(h, start, shardSize)
    ensures to == ShardFileSize(h, last + k, shardSize, HighwayHash256S)
    ensures from < to <= |file|
    ensures file[from..to] == Encode(h, data[start..last], shardSize) + (h.Sum(data[last..till]) + data[last..last + k])
  {
    var mid;
    from, mid := SliceBounds(h, data, shardSize, start, last, file);
    PartialSize(h, last, k, shardSize);
    CutFile(h, data, shardSize, last, k, till, file, from, mid);
    to := mid + h.size + k;
  }

  /** Where the frames of the data from `start` to `last` are in the file. */
  lemma {:induction false} SliceBounds(h: Hash, data: Bytes, shardSize: nat, start: nat, last: nat, file: Bytes)
    returns (from: nat, mid: nat)
    requires shardSize > 0 && start % shardSize == 0 && last % shardSize == 0 && start <= last <= |data|
    requires file == Encode(h, data, shardSize)
    ensures from == StreamOffset(h, start, shardSize) && mid == StreamOffset(h, last, shardSize)
    ensures from <= mid <= |file| && file[from..mid] == Encode(h, data[start..last], shardSize)
    ensures file[mid..] == Encode(h, data[last..], shardSize)
  {
    from, mid := StreamOffset(h, start, shardSize), StreamOffset(h, last, shardSize);
    FramesOfSlice(h, data, shardSize, start, last);
    FrameBoundary(h, data, last, shardSize);
  }

  lemma CutFile(h: Hash, data: Bytes, shardSize: nat, last: nat, k: nat, till: nat, file: Bytes, from: nat, mid: nat)
    requires 0 < k < shardSize && last + k < |data| && till == Min(last + shardSize, |data|)
    requires from <= mid <= |file| && file[mid..] == Encode(h, data[last..], shardSize)
    ensures var to := mid + h.size + k;
            to <= |file| && file[from..to] == file[from..mid] + (h.Sum(data[last..till]) + data[last..last + k])
  {
    CutFrame(h, data[last..], shardSize, k, file, mid);
    assert data[last..][..Min(shardSize, |data| - last)] == data[last..till];
    assert data[last..till][..k] == data[last..last + k];
  }

  lemma CutFrame(h: Hash, data: Bytes, shardSize: nat, k: nat, file: Bytes, mid: nat)
    requires shardSize > 0 && 0 < k < |data| && k < shardSize
    requires mid <= |file| && file[mid..] == Encode(h, data, shardSize)
    ensures var chunk := data[..Min(shardSize, |data|)];
            mid + h.size + k <= |file| && file[mid..mid + h.size + k] == h.Sum(chunk) + chunk[..k]
  {
    assert file[mid..mid + h.size + k] == file[mid..][..h.size + k];
  }

  /** Size of a file cut inside a chunk: the frames before it, one checksum, the part of the chunk. */
  lemma PartialSize(h: Hash, last: nat, k: nat, shardSize: nat)
    requires 0 < k < shardSize && last % shardSize == 0
    ensures ShardFileSize(h, last + k, shardSize, HighwayHash256S) == StreamOffset(h, last, shardSize) + h.size + k
  {
    var q := last / shardSize;
    assert last == shardSize * q;
    DivModUnique(last + k, shardSize, q, k);
    assert (q + 1) * h.size == q * h.size + h.size;
  }

  // ---------- the verifier ----------

  /** A stream: its bytes, then end of file or a read error. */
  datatype Source = Source(bytes: Bytes, broken: bool)

  /** Whether `bytes` starts with frames for `n` payload bytes, every stored checksum matching its chunk. */
  ghost predicate Frames(h: Hash, bytes: Bytes, n: nat, shardSize: nat)
    requires shardSize > 0
    decreases n
  {
    n == 0 ||
    (h.size <= |bytes| &&
     var k, rest := Min(shardSize, n), bytes[h.size..];
     k <= |rest| && h.Sum(rest[..k]) == bytes[..h.size] && Frames(h, rest[k..], n - k, shardSize))
  }

  /** The chunks of well-formed frames, put together. */
  ghost function Payload(h: Hash, bytes: Bytes, n: nat, shardSize: nat): Bytes
    requires shardSize > 0 && Frames(h, bytes, n, shardSize)
    decreases n
  {
    if n == 0 then []
    else
      var k, rest := Min(shardSize, n), bytes[h.size..];
      rest[..k] + Payload(h, rest[k..], n - k, shardSize)
  }

  /** Well-formed frames are exactly the encodings: the payload encodes to a prefix of the stream. */
  lemma {:induction false} FramesAreEncodings(h: Hash, bytes: Bytes, n: nat, shardSize: nat)
    requires shardSize > 0 && Frames(h, bytes, n, shardSize)
    ensures |Payload(h, bytes, n, shardSize)| == n
    ensures Encode(h, Payload(h, bytes, n, shardSize), shardSize) <= bytes
    decreases n
  {
    if n > 0 {
      var k := Min(shardSize, n);
      var chunk, rest := bytes[h.size..][..k], bytes[h.size..][k..];
      FramesAreEncodings(h, rest, n - k, shardSize);
      var more := Payload(h, rest, n - k, shardSize);
      EncodeChunk(h, chunk, more, shardSize);
      assert bytes == h.Sum(chunk) + chunk + rest;
    }
  }

  lemma {:induction false} EncodingsAreFrames(h: Hash, data: Bytes, tail: Bytes, shardSize: nat)
    requires shardSize > 0
    ensures Frames(h, Encode(h, data, shardSize) + tail, |data|, shardSize)
    ensures Payload(h, Encode(h, data, shardSize) + tail, |data|, shardSize) == data
    decreases |data|
  {
    if data != [] {
      var n := Min(shardSize, |data|);
      var chunk, more := data[..n], data[n..];
      assert data == chunk + more;
      var rest := Encode(h, more, shardSize) + tail;
      EncodeChunk(h, chunk, more, shardSize);
      ConcatAssoc(h.Sum(chunk) + chunk, Encode(h, more, shardSize), tail);
      SplitFrame(h, chunk, rest);
      EncodingsAreFrames(h, more, tail, shardSize);
    }
  }

  lemma SplitFrame(h: Hash, chunk: Bytes, rest: Bytes)
    ensures var s := h.Sum(chunk) + chunk + rest;
            && s[..h.size] == h.Sum(chunk)
            && s[h.size..] == chunk + rest
            && s[h.size..][..|chunk|] == chunk
            && s[h.size..][|chunk|..] == rest
  {
  }

  /** bitrotVerify: accepts exactly the intact files of the expected size. */
  method BitrotVerify(r: Source, wantSize: int, partSize: nat, algo: Algorithm, h: Hash, want: Bytes, shardSize: nat)
    returns (ok: bool)
    requires shardSize > 0
    ensures algo != HighwayHash256S ==> (ok <==> !r.broken && |r.bytes| == wantSize && h.Sum(r.bytes) == want)
    ensures algo == HighwayHash256S ==>
              (ok <==> wantSize == ShardFileSize(h, partSize, shardSize, algo) && Frames(h, r.bytes, partSize, shardSize))
  {
    if algo != HighwayHash256S {
      return !r.broken && |r.bytes| == wantSize && h.Sum(r.bytes) == want;
    }
    if wantSize != ShardFileSize(h, partSize, shardSize, algo) {
      return false;
    }
    assert wantSize == FrameBytes(h, partSize, shardSize) by { FrameBytesIsShardFileSize(h, partSize, shardSize); }
    ok := VerifyFrames(r, wantSize, partSize, h, shardSize);
  }

  /** The frame that comes next: what is to do after it, and whether the frames behind it are intact. */
  lemma NextFrame(h: Hash, bytes: Bytes, left: nat, limit: nat, n: nat, shardSize: nat, intact: bool)
    returns (todo: nat, next: bool)
    requires shardSize == limit > 0 && left == FrameBytes(h, n, shardSize) && 0 < left && h.size <= |bytes|
    requires intact == Frames(h, bytes, n, shardSize)
    ensures h.size < left
    ensures var k, data := Min(limit, left - h.size), bytes[h.size..];
            && left - h.size - k == FrameBytes(h, todo, shardSize)
            && (k < limit ==> left == h.size + k)
            && intact == (k <= |data| && h.Sum(data[..k]) == bytes[..h.size] && next)
            && (k <= |data| ==> next == Frames(h, data[k..], todo, shardSize))
  {
    var k := Min(shardSize, n);
    todo := n - k;
    next := k <= |bytes[h.size..]| && Frames(h, bytes[h.size..][k..], todo, shardSize);
  }

  /** The loop of the streaming mode, on as many bytes as frames for `n` payload bytes have. */
  method VerifyFrames(r: Source, size: nat, n: nat, h: Hash, shardSize: nat) returns (ok: bool)
    requires shardSize > 0 && size == FrameBytes(h, n, shardSize)
    ensures ok == Frames(h, r.bytes, n, shardSize)
  {
    var left: nat, limit: nat, rest := size, shardSize, r.bytes;
    ghost var intact := Frames(h, r.bytes, n, shardSize);
    ghost var todo: nat, short, next := n, false, intact;
    while left > 0
      invariant short || limit == shardSize || left == 0
      invariant short ==> left > 0 && rest == [] && !intact
      invariant !short ==> left == FrameBytes(h, todo, shardSize) && intact == next == Frames(h, rest, todo, shardSize)
      decreases left
    {
      if |rest| < h.size {
        return false;
      }
      todo, next := NextFrame(h, rest, left, limit, todo, shardSize, intact);
      short := |rest| < h.size + Min(limit, left - h.size);
      ok, left, limit, rest := VerifyRound(rest, left, limit, r.broken, h);
      if !ok {
        return false;
      }
    }
    return true;
  }

  /** One round: reads a checksum and a chunk, and compares. */
  method VerifyRound(bytes: Bytes, size: nat, shardLimit: nat, broken: bool, h: Hash)
    returns (ok: bool, left: nat, limit: nat, rest: Bytes)
    requires h.size <= |bytes| && h.size <= size
    ensures limit == Min(shardLimit, size - h.size)
    ensures var data := bytes[h.size..];
            var read := Min(limit, |data|);
            && ok == (!(|data| < limit && broken) && h.Sum(data[..read]) == bytes[..h.size])
            && (ok ==> left == size - h.size - read && rest == data[read..])
  {
    var hashBuf := bytes[..h.size];
    rest, left, limit := bytes[h.size..], size - h.size, shardLimit;
    if left < limit {
      limit := left;
    }
    if |rest| < limit && broken {
      return false, left, limit, rest;
    }
    var read := Min(limit, |rest|);
    left := left - read;
    ok := h.Sum(rest[..read]) == hashBuf;
    rest := rest[read..];
  }

  /** The reader and the verifier agree on every stream, intact or not: reads succeed exactly on well-formed frames. */
  lemma {:induction false} ReaderAgreesWithVerifier(h: Hash, stream: Bytes, n: nat, shardSize: nat)
    requires shardSize > 0
    ensures Drain(h, shardSize, stream, n).Ok? <==> Frames(h, stream, n, shardSize)
    ensures Frames(h, stream, n, shardSize) ==>
              Drain(h, shardSize, stream, n) == Ok(Payload(h, stream, n, shardSize))
    decreases n
  {
    if n > 0 && h.size <= |stream| {
      var k, rest := Min(shardSize, n), stream[h.size..];
      if k <= |rest| && h.Sum(rest[..k]) == stream[..h.size] {
        ReaderAgreesWithVerifier(h, rest[k..], n - k, shardSize);
      }
    }
  }

  /** A file the verifier accepts is an encoding, and every aligned slice of it can be read back. */
  lemma AcceptedFileReadsBack(c: ReaderConfig, h: Hash, file: Bytes, partSize: nat, shardSize: nat, start: nat, till: nat)
    requires shardSize > 0 && start % shardSize == 0 && start <= till <= partSize
    requires till % shardSize == 0 || till == partSize
    requires |file| == ShardFileSize(h, partSize, shardSize, HighwayHash256S) && Frames(h, file, partSize, shardSize)
    requires c == NewReader(h, shardSize, c.data, c.disk, till) && Feeds(c, file)
    ensures |Payload(h, file, partSize, shardSize)| == partSize
    ensures ReadAll(c, ReaderState(None, 0), start, till) == Ok(Payload(h, file, partSize, shardSize)[start..till])
  {
    var data := Payload(h, file, partSize, shardSize);
    FramesAreEncodings(h, file, partSize, shardSize);
    EncodedLength(h, data, shardSize);
    assert Encode(h, data, shardSize) == file;
    ReadsBackSlice(c, h, data, shardSize, start, till);
  }

  /** The verifier accepts everything the writer emits. */
  lemma WriterOutputIsAccepted(h: Hash, chunks: seq<Bytes>, shardSize: nat)
    requires shardSize > 0 && ShardSized(chunks, shardSize)
    ensures Frames(h, WriteRun(h, chunks), |Concat(chunks)|, shardSize)
    ensures Payload(h, WriteRun(h, chunks), |Concat(chunks)|, shardSize) == Concat(chunks)
  {
    WriterEmitsFrames(h, chunks, shardSize);
    EncodingsAreFrames(h, Concat(chunks), [], shardSize);
    assert WriteRun(h, chunks) + [] == WriteRun(h, chunks);
  }

  // ---------- which error a failed read gives ----------

  /** The first read of a reader, from its offset: the errors that come before any checksum is compared, and when they come. */
  lemma OpenErrors(c: ReaderConfig, n: nat, offset: nat)
    requires c.shardSize > 0
    ensures var r := ReadStep(c, ReaderState(None, 0), n, offset).1;
            var from := StreamOffset(c.h, offset, c.shardSize);
            && (offset % c.shardSize != 0 ==> r == Err(ErrUnexpected))
            && (offset % c.shardSize == 0 && c.data == [] && c.tillOffset != from ==>
                  && (!c.disk.online <==> r == Err(ErrDisk))
                  && (c.disk.online && |c.disk.file| < c.tillOffset ==> r == Err(ErrFileCorrupt)))
  {
  }

  /** A read out of order is refused without touching the stream. */
  lemma OutOfOrder(c: ReaderConfig, stream: Bytes, curr: nat, n: nat, offset: nat)
    requires c.shardSize > 0 && offset != curr
    ensures ReadStep(c, ReaderState(Some(stream), curr), n, offset) == (ReaderState(Some(stream), curr), Err(ErrUnexpected))
  {
  }

  /**
   Damage is told from a short stream: reading `n` payload bytes in order off a stream that is long
   enough fails with ErrFileCorrupt, exactly if some frame is not intact, and never for a lack of bytes.
   */
  lemma {:induction false} LongEnoughIsCorrupt(h: Hash, stream: Bytes, n: nat, shardSize: nat)
    requires shardSize > 0 && |stream| >= FrameBytes(h, n, shardSize)
    ensures Drain(h, shardSize, stream, n) == Err(ErrFileCorrupt) <==> !Frames(h, stream, n, shardSize)
    ensures Drain(h, shardSize, stream, n).Err? ==> Drain(h, shardSize, stream, n).error == ErrFileCorrupt
    decreases n
  {
    if n > 0 {
      var chunk, rest, ok := OneFrame(h, stream, n, shardSize);
      LongEnoughIsCorrupt(h, rest, n - |chunk|, shardSize);
    }
  }

  /** The first frame of a stream that is long enough. */
  lemma OneFrame(h: Hash, stream: Bytes, n: nat, shardSize: nat) returns (chunk: Bytes, rest: Bytes, ok: bool)
    requires shardSize > 0 && n > 0 && |stream| >= FrameBytes(h, n, shardSize)
    ensures 0 < |chunk| <= n && |rest| >= FrameBytes(h, n - |chunk|, shardSize)
    ensures Frames(h, stream, n, shardSize) == (ok && Frames(h, rest, n - |chunk|, shardSize))
    ensures Drain(h, shardSize, stream, n)
         == if ok then Prepend(chunk, Drain(h, shardSize, rest, n - |chunk|)) else Err(ErrFileCorrupt)
  {
    var k := Min(shardSize, n);
    chunk, rest := stream[h.size..][..k], stream[h.size..][k..];
    ok := h.Sum(chunk) == stream[..h.size];
    assert TakeFrame(h, stream, k) == (rest, if ok then Ok(chunk) else Err(ErrFileCorrupt));
  }

  /** And intact frames that end too early give ErrUnexpectedEOF. */
  lemma {:induction false} CutShortIsEOF(h: Hash, data: Bytes, stream: Bytes, shardSize: nat)
    requires shardSize > 0 && stream < Encode(h, data, shardSize)
    ensures Drain(h, shardSize, stream, |data|) == Err(ErrUnexpectedEOF)
    decreases |data|
  {
    var k := Min(shardSize, |data|);
    var all := Encode(h, data, shardSize);
    assert all == h.Sum(data[..k]) + data[..k] + Encode(h, data[k..], shardSize);
    if |stream| >= h.size + k {
      assert stream[..h.size] == all[..h.size] == h.Sum(data[..k]);
      assert stream[h.size..][..k] == all[h.size..][..k] == data[..k];
      assert stream[h.size..][k..] < Encode(h, data[k..], shardSize) by {
        assert all[h.size..][k..] == Encode(h, data[k..], shardSize);
      }
      CutShortIsEOF(h, data[k..], stream[h.size..][k..], shardSize);
    }
  }
}
