/**
 * `DoTrack` (bin2iso.c:347-425): one track's output bytes. The track's stored
 * sectors are read one after the other from its start offset, and the user
 * data of each, the bytes `[predata, predata + datasize)`, is appended to the
 * output. A final sector that the file only partly holds is padded with
 * zeros, as `BufferedFRead` does when it meets the end of the file.
 */
module Demux {
  import opened Common
  import opened SectorModes
  import opened CueParser

  /** The stored layout a track entry records. */
  function TrackLayout(t: Track): Layout {
    Layout(t.sectorSize, t.predata, t.postdata)
  }

  /** The byte a read finds at offset `i`: the file's, or zero past its end. */
  function ByteAt(file: seq<Byte>, i: nat): Byte {
    if i < |file| then file[i] else 0
  }

  /**
   * The user data of the stored sector at `pos`: the `datasize` bytes after
   * its `predata` ones, zero where the sector runs past the end of the file.
   */
  function Payload(file: seq<Byte>, pos: nat, l: Layout): (r: seq<Byte>)
    requires l.predata + l.postdata <= l.sectorSize
    ensures |r| == PayloadSize(l)
  {
    seq<Byte>(PayloadSize(l), j requires 0 <= j < PayloadSize(l) => ByteAt(file, pos + l.predata + j))
  }

  /**
   * The payloads of at most `n` sectors read from `pos` on; reading stops at
   * the end of the file.
   */
  function Extracted(file: seq<Byte>, pos: nat, l: Layout, n: nat): seq<Byte>
    requires l.predata + l.postdata <= l.sectorSize
    decreases n
  {
    if n == 0 || pos >= |file| then []
    else Payload(file, pos, l) + Extracted(file, pos + l.sectorSize, l, n - 1)
  }

  /** How many sectors a read of at most `n` from `pos` yields: every one that starts inside the file. */
  function SectorsRead(size: nat, pos: nat, ss: nat, n: nat): (c: nat)
    requires ss > 0
    ensures c <= n
  {
    if pos >= size then 0
    else
      var avail := (size - pos + ss - 1) / ss;
      if n < avail then n else avail
  }

  /** Size of the input buffer (`INBUF_SIZE`); each refill reads a whole number of sectors. */
  const InBufSize: nat := 4 * 1024 * 1024

  /** The modes the writer's `switch` lists (bin2iso.c:358-372); MODE2/2448 is not among them. */
  predicate WriterKnows(m: Mode) {
    m != Mode2_2448
  }

  /**
   * `DoTrack` as written: a mode its `switch` does not list stops the program
   * before anything is written.
   */
  function TrackOutputAsWritten(t: Track, file: seq<Byte>): (r: Result<seq<Byte>>)
    requires t.predata + t.postdata <= t.sectorSize
    ensures r == Err(UnexpectedMode) <==> t.mode == Mode2_2448
    ensures t.mode != Mode2_2448 ==> r == TrackOutput(t, file)
  {
    if !WriterKnows(t.mode) then Err(UnexpectedMode) else TrackOutput(t, file)
  }

  /**
   * The bytes `DoTrack` writes for a track of any mode, without the WAV
   * header: the payloads of up to `totalSectors` sectors (as `uint32_t`) from
   * `startOfs`. The seek comes first, so a negative start fails even for an
   * empty track; a zero sector size is a division by zero in the first read;
   * a sector larger than the input buffer makes every read come back empty.
   */
  function TrackOutput(t: Track, file: seq<Byte>): (r: Result<seq<Byte>>)
    requires t.predata + t.postdata <= t.sectorSize
    ensures r.Err? <==> t.startOfs < 0 || (U32(t.totalSectors) > 0 && t.sectorSize == 0)
    ensures r.Ok? && (U32(t.totalSectors) == 0 || t.sectorSize > InBufSize) ==> r.value == []
  {
    if t.startOfs < 0 then Err(SeekFailed)
    else if U32(t.totalSectors) == 0 then Ok([])
    else if t.sectorSize == 0 then Err(ZeroSectorSize(t.num))
    else if t.sectorSize > InBufSize then Ok([])
    else Ok(Extracted(file, t.startOfs, TrackLayout(t), U32(t.totalSectors)))
  }

  /** A track the writer accepts yields one payload per sector its file holds, up to the count. */
  lemma TrackOutputSize(t: Track, file: seq<Byte>)
    requires t.predata + t.postdata <= t.sectorSize
    requires t.startOfs >= 0 && 0 < t.sectorSize <= InBufSize
    ensures TrackOutput(t, file).Ok?
    ensures |TrackOutput(t, file).value|
      == SectorsRead(|file|, t.startOfs, t.sectorSize, U32(t.totalSectors)) * PayloadSize(TrackLayout(t))
  {
    if U32(t.totalSectors) > 0 {
      ExtractedLength(file, t.startOfs, TrackLayout(t), U32(t.totalSectors));
    }
  }

  /**
   * A TRACK command with the mode text "MODE2/2448" under an openable FILE is
   * accepted and creates a MODE2/2448 track, which the writer as written
   * refuses.
   */
  lemma Mode2Form2448Unwritable()
    ensures var st := Initial.(activeFile := "cd.bin");
      var r := Effect(st, TrackCmd(1, "01", "MODE2/2448"), {"cd.bin"});
      && r.Ok? && |r.value.tracks| == 1
      && r.value.tracks[0].mode == Mode2_2448
      && TrackOutputAsWritten(r.value.tracks[0], []) == Err(UnexpectedMode)
  {
    ModeOfName(Mode2_2448, "");
    assert "MODE2/2448" == ModeName(Mode2_2448) + "";
  }

  /** `DoTrack`: the seek, the checks of the read loop, then the copy loop. */
  method DoTrack(t: Track, file: seq<Byte>) returns (r: Result<seq<Byte>>)
    requires t.predata + t.postdata <= t.sectorSize
    ensures r == TrackOutput(t, file)
  {
    if t.startOfs < 0 {
      return Err(SeekFailed);
    }
    var remaining := U32(t.totalSectors);
    if remaining == 0 {
      return Ok([]);
    }
    if t.sectorSize == 0 {
      return Err(ZeroSectorSize(t.num));
    }
    if t.sectorSize > InBufSize {
      return Ok([]);
    }
    var out := CopySectors(file, t.startOfs, TrackLayout(t), remaining);
    return Ok(out);
  }

  /**
   * The copy loop `while (remainingsectors-- != 0 && BufferedFRead(...))`:
   * one payload per sector read, until `n` sectors or the end of the file.
   */
  method CopySectors(file: seq<Byte>, start: nat, l: Layout, n: nat) returns (out: seq<Byte>)
    requires l.predata + l.postdata <= l.sectorSize
    ensures out == Extracted(file, start, l, n)
  {
    var pos: nat, remaining: nat := start, n;
    out := [];
    while remaining != 0 && pos < |file|
      invariant Extracted(file, start, l, n) == out + Extracted(file, pos, l, remaining)
      decreases remaining
    {
      var block := Payload(file, pos, l);
      ghost var tail := Extracted(file, pos + l.sectorSize, l, remaining - 1);
      assert Extracted(file, pos, l, remaining) == block + tail;
      assert out + (block + tail) == (out + block) + tail;
      out := out + block;
      pos := pos + l.sectorSize;
      remaining := remaining - 1;
    }
    assert Extracted(file, pos, l, remaining) == [];
    assert out + [] == out;
  }

  /** A track yields one payload for every sector it reads. */
  lemma {:induction false} ExtractedLength(file: seq<Byte>, pos: nat, l: Layout, n: nat)
    requires l.predata + l.postdata <= l.sectorSize && l.sectorSize > 0
    ensures |Extracted(file, pos, l, n)| == SectorsRead(|file|, pos, l.sectorSize, n) * PayloadSize(l)
    decreases n
  {
    if n > 0 && pos < |file| {
      ExtractedLength(file, pos + l.sectorSize, l, n - 1);
      ReadOneMore(|file|, pos, l.sectorSize, n);
      MulSucc(SectorsRead(|file|, pos + l.sectorSize, l.sectorSize, n - 1), PayloadSize(l));
    }
  }

  lemma ReadOneMore(size: nat, pos: nat, ss: nat, n: nat)
    requires ss > 0 && n > 0 && pos < size
    ensures SectorsRead(size, pos, ss, n) == 1 + SectorsRead(size, pos + ss, ss, n - 1)
  {
    var x := size - pos - 1;
    DivPlusOne(x, ss);
    if pos + ss < size {
      assert size - (pos + ss) + ss - 1 == x;
    } else {
      DivUnique(x, ss, 0, x);
    }
  }

  lemma DivPlusOne(x: nat, d: nat)
    requires d > 0
    ensures (x + d) / d == x / d + 1
  {
    var q, r := x / d, x % d;
    MulSucc(q, d);
    DivUnique(x + d, d, q + 1, r);
  }

  /**
   * Each sector that the file holds completely contributes exactly its user
   * data: output block `k` (of `datasize` bytes) is the file's bytes
   * `[predata, predata + datasize)` of stored sector `k`.
   */
  lemma PayloadAt(file: seq<Byte>, pos: nat, l: Layout, n: nat, k: nat)
    requires l.predata + l.postdata <= l.sectorSize && l.sectorSize > 0
    requires k < n && pos + k * l.sectorSize + l.sectorSize <= |file|
    ensures var p := PayloadSize(l);
      var out := Extracted(file, pos, l, n);
      var from := pos + k * l.sectorSize + l.predata;
      0 <= k * p && k * p + p <= |out| && out[k * p..k * p + p] == file[from..from + p]
  {
    TimesIsProduct(k, PayloadSize(l));
    TimesIsProduct(k, l.sectorSize);
    BlockAt(file, pos, l, n, k);
  }

  lemma {:induction false} BlockAt(file: seq<Byte>, pos: nat, l: Layout, n: nat, k: nat)
    requires l.predata + l.postdata <= l.sectorSize && l.sectorSize > 0
    requires k < n && pos + Times(k, l.sectorSize) + l.sectorSize <= |file|
    ensures var p := PayloadSize(l);
      var out := Extracted(file, pos, l, n);
      var from := pos + Times(k, l.sectorSize) + l.predata;
      Times(k, p) + p <= |out| && out[Times(k, p)..Times(k, p) + p] == file[from..from + p]
  {
    var p := PayloadSize(l);
    var out := Extracted(file, pos, l, n);
    var at, from := Times(k, p), pos + Times(k, l.sectorSize) + l.predata;
    if p > 0 {
      PayloadByte(file, pos, l, n, k, 0);
    } else {
      TimesIsProduct(k, p);
    }
    var block, source := out[at..at + p], file[from..from + p];
    forall j | 0 <= j < p
      ensures block[j] == source[j]
    {
      PayloadByte(file, pos, l, n, k, j);
      assert block[j] == out[at + j] && source[j] == file[from + j] == ByteAt(file, from + j);
    }
    assert block == source;
  }

  /** Byte `j` of output block `k` is what a read finds at byte `predata + j` of stored sector `k`. */
  lemma {:induction false} PayloadByte(file: seq<Byte>, pos: nat, l: Layout, n: nat, k: nat, j: nat)
    requires l.predata + l.postdata <= l.sectorSize && l.sectorSize > 0
    requires k < n && pos + Times(k, l.sectorSize) < |file| && j < PayloadSize(l)
    ensures Times(k, PayloadSize(l)) + PayloadSize(l) <= |Extracted(file, pos, l, n)|
    ensures Extracted(file, pos, l, n)[Times(k, PayloadSize(l)) + j]
      == ByteAt(file, pos + Times(k, l.sectorSize) + l.predata + j)
    decreases k
  {
    ExtractedStep(file, pos, l, n);
    if k > 0 {
      PayloadByte(file, pos + l.sectorSize, l, n - 1, k - 1, j);
    }
  }

  lemma ExtractedStep(file: seq<Byte>, pos: nat, l: Layout, n: nat)
    requires l.predata + l.postdata <= l.sectorSize && n > 0 && pos < |file|
    ensures Extracted(file, pos, l, n) == Payload(file, pos, l) + Extracted(file, pos + l.sectorSize, l, n - 1)
  {
  }
}
