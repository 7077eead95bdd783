/**
 Whole-file bitrot protection (cmd/bitrot-whole.go): one checksum for the file, verified when the
 reader loads it on first use; later reads are served from the loaded buffer.
 */
module BitrotWhole {
  import opened Prelude
  import BitrotFraming

  type Hash = BitrotFraming.Hash

  class WholeWriter {
    const h: Hash
    var file: Bytes
    var hashed: Bytes

    constructor (h: Hash)
      ensures this.h == h && file == [] && hashed == []
    {
      this.h, file, hashed := h, [], [];
    }

    /** Appends `p` and hashes it; a disk that refuses the append leaves both unchanged. */
    method Write(p: Bytes, diskOk: bool) returns (n: nat, ok: bool)
      requires file == hashed
      modifies this
      ensures file == hashed
      ensures ok == diskOk && n == if ok then |p| else 0
      ensures file == if ok then old(file) + p else old(file)
    {
      if !diskOk {
        return 0, false;
      }
      file := file + p;
      hashed := hashed + p;
      return |p|, true;
    }
  }

  datatype WholeError = ErrFileCorrupt | ErrLessData

  datatype WholeConfig = WholeConfig(h: Hash, file: Bytes, want: Bytes, tillOffset: nat)

  /** What ReadFile leaves in the freshly allocated, zeroed buffer, checksum or no checksum. */
  function Filled(c: WholeConfig, offset: nat): (b: Bytes)
    requires offset <= c.tillOffset
    ensures |b| == c.tillOffset - offset
  {
    var read := if |c.file| <= offset then [] else c.file[offset..Min(|c.file|, c.tillOffset)];
    read + seq(c.tillOffset - offset - |read|, i => 0)
  }

  /** ReadFile with a verifier succeeds when the buffer, unless it is empty, could be filled and the whole file matches. */
  predicate Loads(c: WholeConfig, offset: nat) {
    (offset == c.tillOffset || c.tillOffset <= |c.file|) && c.h.Sum(c.file) == c.want
  }

  /** One ReadAt; after a failed load the buffer stays in place. */
  function ReadStep(c: WholeConfig, buf: Option<Bytes>, n: nat, offset: nat): (Option<Bytes>, Result<Bytes, WholeError>)
    requires offset <= c.tillOffset
  {
    var b := if buf.None? then Filled(c, offset) else buf.value;
    if buf.None? && !Loads(c, offset) then (Some(b), Err(ErrFileCorrupt))
    else if |b| < n then (Some(b), Err(ErrLessData))
    else (Some(b[n..]), Ok(b[..n]))
  }

  class WholeReader {
    const config: WholeConfig
    var buf: Option<Bytes>

    constructor (config: WholeConfig)
      ensures this.config == config && buf == None
    {
      this.config, buf := config, None;
    }

    method ReadAt(n: nat, offset: nat) returns (r: Result<Bytes, WholeError>)
      requires offset <= config.tillOffset
      modifies this
      ensures (buf, r) == ReadStep(config, old(buf), n, offset)
    {
      if buf.None? {
        buf := Some(Filled(config, offset));
        if !Loads(config, offset) {
          return Err(ErrFileCorrupt);
        }
      }
      var b := buf.value;
      if |b| < n {
        return Err(ErrLessData);
      }
      buf := Some(b[n..]);
      return Ok(b[..n]);
    }
  }

  ghost function Total(lens: seq<nat>): nat {
    if lens == [] then 0 else lens[0] + Total(lens[1..])
  }

  /** In-order reads of the given lengths, stopping at the first error. */
  ghost function ReadRun(c: WholeConfig, buf: Option<Bytes>, offset: nat, lens: seq<nat>): Result<Bytes, WholeError>
    requires offset + Total(lens) <= c.tillOffset
    decreases |lens|
  {
    if lens == [] then Ok([])
    else
      var (buf', r) := ReadStep(c, buf, lens[0], offset);
      if r.Err? then r
      else
        var rest := ReadRun(c, buf', offset + lens[0], lens[1..]);
        if rest.Err? then rest else Ok(r.value + rest.value)
  }

  lemma {:induction false} BufferedReads(c: WholeConfig, buf: Bytes, offset: nat, lens: seq<nat>)
    requires offset + Total(lens) <= c.tillOffset && Total(lens) <= |buf|
    ensures ReadRun(c, Some(buf), offset, lens) == Ok(buf[..Total(lens)])
    decreases |lens|
  {
    if lens != [] {
      var n := lens[0];
      BufferedReads(c, buf[n..], offset + n, lens[1..]);
      assert buf[..n] + buf[n..][..Total(lens[1..])] == buf[..n + Total(lens[1..])];
    }
  }

  /**
   In-order reads of any lengths return exactly the requested slice of the file if and only if the
   file matches its checksum and is long enough; a reader that starts at its end needs no length.
   */
  lemma ReadsBack(c: WholeConfig, start: nat, lens: seq<nat>)
    requires lens != [] && start + Total(lens) <= c.tillOffset
    ensures ReadRun(c, None, start, lens).Ok?
       <==> c.h.Sum(c.file) == c.want && (start == c.tillOffset || c.tillOffset <= |c.file|)
    ensures ReadRun(c, None, start, lens).Ok? ==>
              ReadRun(c, None, start, lens) == Ok(if start == c.tillOffset then [] else c.file[start..start + Total(lens)])
  {
    if Loads(c, start) {
      var b := Filled(c, start);
      BufferedReads(c, b, start, lens);
      assert start < c.tillOffset ==> b[..Total(lens)] == c.file[start..start + Total(lens)];
      assert ReadStep(c, None, lens[0], start) == ReadStep(c, Some(b), lens[0], start);
    }
  }

  /**
   A reader must not be used after an error.  Whenever the first read fails to load, for a checksum or
   for a file that is too short, the next read of `m` bytes succeeds exactly if `m` bytes were asked of
   the disk, and hands out the unverified bytes of the file, with zeros where the file has ended.
   */
  lemma ReadAfterFailedLoad(c: WholeConfig, n: nat, offset: nat, m: nat, later: nat)
    requires offset <= c.tillOffset && later <= c.tillOffset && !Loads(c, offset)
    ensures var (buf, first) := ReadStep(c, None, n, offset);
            var second := ReadStep(c, buf, m, later).1;
            && first == Err(ErrFileCorrupt)
            && (second.Ok? <==> m <= c.tillOffset - offset)
            && (second.Ok? ==>
                  && |second.value| == m
                  && forall i :: 0 <= i < m ==>
                       second.value[i] == if offset + i < |c.file| then c.file[offset + i] else 0)
  {
  }

  /** Once loaded, a read is served from the buffer alone, whatever the offset; one that asks for more than is left fails as such and takes nothing. */
  lemma LoadedReads(c: WholeConfig, buf: Bytes, n: nat, offset: nat)
    requires offset <= c.tillOffset
    ensures var (buf', r) := ReadStep(c, Some(buf), n, offset);
            if |buf| < n then r == Err(ErrLessData) && buf' == Some(buf)
            else r.Ok? && |r.value| == n && buf'.Some? && r.value + buf'.value == buf
  {
  }
}
