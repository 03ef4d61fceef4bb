/**
 * The format sniffer of `CueFromBin`: `CheckIsoHeader` (bin2iso.c:960-973)
 * and `AnalyseTrack` (bin2iso.c:975-1143). The first 50000 bytes from the
 * current position tell what kind of track starts there:
 *
 *  - a raw CD-ROM sector begins with the 12-byte sync field of ECMA-130
 *    clause 14 (00, ten FF, 00), followed by a 3-byte address and the mode
 *    byte; the stored sector size is found by looking for the next sync
 *    field, and an ISO 9660 Primary Volume Descriptor (ECMA-119 section 8.4)
 *    in sector 16 gives the track's length;
 *  - otherwise a descriptor at 0x8000 means 2048-byte user data, one at
 *    0x9208 means MODE2/2336, a UDF "BEA01" descriptor (ECMA-167 Part 2,
 *    section 9.2) at 0x8000 means 2048-byte user data filling the file, and
 *    anything else is taken to be audio.
 *
 * The file is a byte sequence and the position a number; the result says
 * where the program leaves the file position.
 */
module Sniffer {
  import opened Common

  /** The sync field that starts every raw CD-ROM sector. */
  const SyncPattern: seq<Byte> := [0x00, 0xFF, 0xFF, 0xFF, 0xFF, 0xFF, 0xFF, 0xFF, 0xFF, 0xFF, 0xFF, 0x00]

  /** Volume descriptor type 1, standard identifier "CD001", version 1, and a zero byte. */
  const IsoSignature: seq<Byte> := [0x01, 0x43, 0x44, 0x30, 0x30, 0x31, 0x01, 0x00]

  /** Type 0, standard identifier "BEA01", version 1, and a zero byte. */
  const UdfSignature: seq<Byte> := [0x00, 0x42, 0x45, 0x41, 0x30, 0x31, 0x01, 0x00]

  /** How much of the track is read to classify it. */
  const PrefixSize: nat := 50000

  /** The first and one past the last stored sector size tried, in steps of 4. */
  const FirstSize: nat := 2064
  const SizeBound: nat := 2560

  /** The most sectors the end of a sniffed data track is moved by to align the rest to 2352. */
  const MaxAlign: nat := 147

  /** `memcmp(s + at, pat, |pat|) == 0`, with the bytes past the end of `s` never matching. */
  predicate Matches(s: seq<Byte>, at: nat, pat: seq<Byte>) {
    at + |pat| <= |s| && forall k :: 0 <= k < |pat| ==> s[at + k] == pat[k]
  }

  /** The big-endian 24-bit sector address that follows a sync field at `at`. */
  function AddressAt(s: seq<Byte>, at: nat): nat
    requires at + 15 <= |s|
  {
    (s[at + 12] as int) * 65536 + (s[at + 13] as int) * 256 + s[at + 14] as int
  }

  /** A little-endian `uint32_t` at `at`. */
  function LE32(s: seq<Byte>, at: nat): (v: nat)
    requires at + 4 <= |s|
    ensures v < Pow32
  {
    s[at] as int + 256 * (s[at + 1] as int) + 65536 * (s[at + 2] as int) + 16777216 * (s[at + 3] as int)
  }

  /** A little-endian `uint16_t` at `at`. */
  function LE16(s: seq<Byte>, at: nat): nat
    requires at + 2 <= |s|
  {
    s[at] as int + 256 * (s[at + 1] as int)
  }

  // ---------------------------------------------------------------------------
  // CheckIsoHeader

  /** The two fields of a Primary Volume Descriptor the program reads. */
  datatype Descriptor = Descriptor(blocks: nat, blockSize: nat)

  /** Bytes of a descriptor up to and including its logical block size. */
  const DescriptorPrefix: nat := 132

  /**
   * The descriptor at `at`, when its first eight bytes are the ISO 9660
   * signature: the volume space size is the little-endian half at offset 80
   * (ECMA-119 section 8.4.8), the logical block size the one at offset 128
   * (section 8.4.12).
   */
  function DescriptorAt(s: seq<Byte>, at: nat): (r: Option<Descriptor>)
    requires at + DescriptorPrefix <= |s|
    ensures r.Some? <==> Matches(s, at, IsoSignature)
    ensures r.Some? ==> r.value.blocks < Pow32 && r.value.blockSize < 65536
  {
    if Matches(s, at, IsoSignature) then Some(Descriptor(LE32(s, at + 80), LE16(s, at + 128))) else None
  }

  /**
   * `CheckIsoHeader(s + at, &count)`: the count a descriptor declares, or
   * `count` unchanged when there is none; and whether the "unexpected block
   * size" warning was printed.
   */
  function CheckIsoHeader(s: seq<Byte>, at: nat, count: nat): (nat, bool)
    requires at + DescriptorPrefix <= |s|
  {
    match DescriptorAt(s, at)
    case None => (count, false)
    case Some(d) => (d.blocks, d.blockSize != 2048)
  }

  // ---------------------------------------------------------------------------
  // The sector size search (bin2iso.c:993-1010)

  predicate Candidate(ss: int) {
    FirstSize <= ss < SizeBound && ss % 4 == 0
  }

  /**
   * A sector size is accepted when a sync field follows the first sector at
   * that distance, its address is greater than the first one's, and its mode
   * byte is the same.
   */
  predicate Accepts(buf: seq<Byte>, ss: nat)
    requires ss + 16 <= |buf|
  {
    Matches(buf, ss, SyncPattern) && AddressAt(buf, ss) > AddressAt(buf, 0) && buf[15] == buf[ss + 15]
  }

  /** The first accepted size among `ss`, `ss + 4`, ... below 2560. */
  function SizeSearch(buf: seq<Byte>, ss: nat): (r: Option<nat>)
    requires |buf| == PrefixSize
    ensures r.Some? ==> FirstSize <= r.value || ss < FirstSize
    ensures r.Some? ==> ss <= r.value < SizeBound
    decreases SizeBound - ss
  {
    if ss >= SizeBound then None
    else if Accepts(buf, ss) then Some(ss)
    else SizeSearch(buf, ss + 4)
  }

  /** The search finds the smallest accepted candidate from `ss` on, or tells that there is none. */
  lemma {:induction false} SizeSearchFirst(buf: seq<Byte>, ss: nat)
    requires |buf| == PrefixSize && ss >= FirstSize && ss % 4 == 0
    ensures var r := SizeSearch(buf, ss);
      && (r.Some? ==> Candidate(r.value) && ss <= r.value && Accepts(buf, r.value))
      && (r.Some? ==> forall c :: Candidate(c) && ss <= c < r.value ==> !Accepts(buf, c))
      && (r.None? ==> forall c :: Candidate(c) && ss <= c ==> !Accepts(buf, c))
    decreases SizeBound - ss
  {
    if ss < SizeBound && !Accepts(buf, ss) {
      SizeSearchFirst(buf, ss + 4);
      assert SizeSearch(buf, ss) == SizeSearch(buf, ss + 4);
      forall c | Candidate(c) && ss <= c
        ensures c == ss || ss + 4 <= c
      {
        CandidateStep(ss, c);
      }
    }
  }

  /** Two candidates apart are at least 4 apart. */
  lemma CandidateStep(ss: nat, c: int)
    requires ss % 4 == 0 && c % 4 == 0 && ss <= c
    ensures c == ss || ss + 4 <= c
  {
  }

  lemma SearchStep(buf: seq<Byte>, ss: nat)
    requires |buf| == PrefixSize && ss < SizeBound
    ensures SizeSearch(buf, ss) == if Accepts(buf, ss) then Some(ss) else SizeSearch(buf, ss + 4)
  {
  }

  /** The `for` loop over the candidate sizes. */
  method FindSectorSize(buf: seq<Byte>) returns (found: Option<nat>)
    requires |buf| == PrefixSize
    ensures found == SizeSearch(buf, FirstSize)
  {
    var ss := FirstSize;
    while ss < SizeBound
      invariant FirstSize <= ss < SizeBound + 4
      invariant SizeSearch(buf, FirstSize) == SizeSearch(buf, ss)
      decreases SizeBound - ss
    {
      SearchStep(buf, ss);
      if Accepts(buf, ss) {
        return Some(ss);
      }
      ss := ss + 4;
    }
    return None;
  }

  // ---------------------------------------------------------------------------
  // Sectors after the declared end that still carry a sync field (bin2iso.c:1028-1044)

  /** How many sectors of size `ss` from `pos` on start with a sync field, up to the first that does not. */
  function SyncRun(file: seq<Byte>, pos: nat, ss: nat): nat
    requires ss > 0
    decreases |file| - pos
  {
    if Matches(file, pos, SyncPattern) then 1 + SyncRun(file, pos + ss, ss) else 0
  }

  /** The run is exactly the sync-bearing sectors before the first one without. */
  lemma {:induction false} SyncRunSpec(file: seq<Byte>, pos: nat, ss: nat)
    requires ss > 0
    ensures var n := SyncRun(file, pos, ss);
      && (forall j :: 0 <= j < n ==> Matches(file, pos + Times(j, ss), SyncPattern))
      && !Matches(file, pos + Times(n, ss), SyncPattern)
    decreases |file| - pos
  {
    if Matches(file, pos, SyncPattern) {
      SyncRunSpec(file, pos + ss, ss);
      var n := SyncRun(file, pos, ss);
      forall j | 0 < j < n
        ensures Matches(file, pos + Times(j, ss), SyncPattern)
      {
        assert pos + Times(j, ss) == (pos + ss) + Times(j - 1, ss);
      }
      assert pos + Times(n, ss) == (pos + ss) + Times(n - 1, ss);
    }
  }

  /** The `while (true)` loop: seek, read 12 bytes, stop at the end of the file or a sector without sync. */
  method CountSyncSectors(file: seq<Byte>, start: nat, ss: nat) returns (n: nat, bytes: nat)
    requires ss > 0
    ensures n == SyncRun(file, start, ss) && bytes == Times(n, ss)
  {
    n, bytes := 0, 0;
    while Matches(file, start + bytes, SyncPattern)
      invariant bytes == Times(n, ss)
      invariant SyncRun(file, start, ss) == n + SyncRun(file, start + bytes, ss)
      decreases |file| - (start + bytes)
    {
      bytes := bytes + ss;
      n := n + 1;
    }
  }

  // ---------------------------------------------------------------------------
  // Aligning the end of a data track (bin2iso.c:1111-1130)

  /**
   * The alignment loop: while fewer than 148 steps were taken and the
   * remaining byte count (a `uint32_t`) is neither zero nor a multiple of
   * 2352, take one more sector off it.
   */
  function AlignCount(rem: nat, ss: nat, count: nat): (c: nat)
    requires count <= MaxAlign + 1
    ensures count <= c <= MaxAlign + 1
    decreases MaxAlign + 1 - count
  {
    if count <= MaxAlign && rem > 0 && rem % SizeRaw != 0 then AlignCount(U32(rem - ss), ss, count + 1)
    else count
  }

  /** The alignment loop as the program runs it. */
  method Align(remaining: nat, ss: nat) returns (count: nat)
    ensures count == AlignCount(remaining, ss, 0)
  {
    var rem: nat := remaining;
    count := 0;
    while count <= MaxAlign && rem > 0 && rem % SizeRaw != 0
      invariant count <= MaxAlign + 1
      invariant AlignCount(remaining, ss, 0) == AlignCount(rem, ss, count)
      decreases MaxAlign + 1 - count
    {
      rem := U32(rem - ss);
      count := count + 1;
    }
  }

  /**
   * When some `k0` of at most 147 subtractions leaves a multiple of 2352
   * without going below zero, the loop stops after at most `k0` of them, on
   * a multiple of 2352.
   */
  lemma {:induction false} AlignStops(rem0: nat, ss: nat, count: nat, k0: nat)
    requires count <= k0 <= MaxAlign && rem0 < Pow32
    requires Times(k0, ss) <= rem0 && (rem0 - Times(k0, ss)) % SizeRaw == 0
    ensures Times(count, ss) <= rem0
    ensures var c := AlignCount(rem0 - Times(count, ss), ss, count);
      c <= k0 && Times(c, ss) <= rem0 && (rem0 - Times(c, ss)) % SizeRaw == 0
    decreases k0 - count
  {
    TimesMonotone(count, k0, ss);
    var rem := rem0 - Times(count, ss);
    if rem > 0 && rem % SizeRaw != 0 {
      assert count < k0;
      TimesMonotone(count + 1, k0, ss);
      assert Times(count + 1, ss) == Times(count, ss) + ss;
      assert U32(rem - ss) == rem0 - Times(count + 1, ss);
      AlignStops(rem0, ss, count + 1, k0);
    }
  }

  /** `r - k*s` is a multiple of 147 for `k = (r * inv) % 147` when `inv` inverts `s` modulo 147. */
  lemma AlignWitness(r: nat, s: nat, inv: nat, t: nat)
    requires s * inv == 1 + 147 * t
    ensures var k := (r * inv) % 147; (r - k * s) % 147 == 0
  {
    var k := (r * inv) % 147;
    var q := (r * inv) / 147;
    assert r * inv == 147 * q + k;
    calc {
      r - k * s;
      r - (r * inv - 147 * q) * s;
      { MulDiff(r * inv, 147 * q, s); }
      r - (r * inv) * s + (147 * q) * s;
      { MulAssoc(r, inv, s); MulAssoc(147, q, s); }
      r - r * (s * inv) + 147 * (q * s);
      r - r * (1 + 147 * t) + 147 * (q * s);
      { MulAddDist(r, 1, 147 * t); MulAssoc(r, 147, t); }
      147 * (q * s - r * t);
    }
    MultipleMod(q * s - r * t, 147);
  }

  lemma MulAddDist(a: int, b: int, c: int)
    ensures a * (b + c) == a * b + a * c
  {
  }

  lemma MulAssoc(a: int, b: int, c: int)
    ensures (a * b) * c == a * (b * c) && a * (b * c) == (b * a) * c && a * (b * c) == a * (c * b)
  {
  }

  lemma MultipleMod(m: int, d: nat)
    requires d > 0
    ensures (d * m) % d == 0
  {
    DivUnique(d * m, d, m, 0);
  }

  /**
   * The claim of bin2iso.c:1115: a 2048- or 2336-byte track end whose
   * remaining byte count is a multiple of 16 is 2352-aligned after at most
   * 147 sectors. As 2352/16 = 147 is coprime with 2048/16 = 128 and with
   * 2336/16 = 146, one of the first 147 subtractions lands on a multiple of
   * 2352; at most 146 are ever needed, given bytes enough for them.
   */
  lemma AlignWithin147(rem: nat, ss: nat)
    requires ss == 2048 || ss == 2336
    requires rem < Pow32 && rem % 16 == 0 && rem >= 146 * ss
    ensures var c := AlignCount(rem, ss, 0);
      c <= 146 && Times(c, ss) <= rem && (rem - Times(c, ss)) % SizeRaw == 0
  {
    var k := AlignTarget(rem, ss);
    AlignStops(rem, ss, 0, k);
    assert rem - Times(0, ss) == rem;
  }

  /** Some count of at most 146 sectors leaves a multiple of 2352 bytes. */
  lemma AlignTarget(rem: nat, ss: nat) returns (k: nat)
    requires ss == 2048 || ss == 2336
    requires rem < Pow32 && rem % 16 == 0 && rem >= 146 * ss
    ensures k <= 146 && Times(k, ss) <= rem && (rem - Times(k, ss)) % SizeRaw == 0
  {
    var r, s := rem / 16, ss / 16;
    var inv, t := if ss == 2048 then 116 else 146, if ss == 2048 then 101 else 145;
    AlignWitness(r, s, inv, t);
    k := (r * inv) % 147;
    var m := (r - k * s) / 147;
    assert r - k * s == 147 * m;
    TimesIsProduct(k, ss);
    assert k * ss == 16 * (k * s) by {
      MulAssoc(k, 16, s);
    }
    assert rem - Times(k, ss) == SizeRaw * m;
    MultipleMod(m, SizeRaw);
    assert Times(k, ss) <= rem by {
      MulMonotone(k, 146, ss);
    }
  }

  lemma MulMonotone(a: nat, b: nat, c: nat)
    requires a <= b
    ensures a * c <= b * c
  {
    MulDiff(b, a, c);
    assert (b - a) * c >= 0;
  }

  // ---------------------------------------------------------------------------
  // AnalyseTrack

  /** The warnings `AnalyseTrack` prints and goes on after. */
  datatype SniffWarning =
    | BlockSize     // a descriptor's logical block size is not 2048
    | NoSectorSize  // a sync field, but no sector size was accepted
    | Indivisible   // the rest of the file is a multiple of neither 2352 nor the sector size
    | OddSectorSize // the rest of the file uses a sector size below 2352
    | Unaligned     // the track end could not be aligned within 147 sectors

  /**
   * What `AnalyseTrack` tells its caller: the mode text (`modetxt`), the
   * sector count it returns, the sector size it settled on, the subchannel
   * bytes (`*subchanbytes`, given as 0), the track's byte length
   * (`isotrackbytes`) and where it leaves the file position.
   */
  datatype Analysis = Analysis(
    modeText: string,
    sectors: nat,
    sectorSize: nat,
    subchanBytes: nat,
    trackBytes: nat,
    endPos: nat,
    warnings: seq<SniffWarning>)

  function BlockWarning(w: bool): seq<SniffWarning> {
    if w then [BlockSize] else []
  }

  /** Where the descriptor of sector 16 starts: past the sync and header, and the subheader in mode 2. */
  function DescriptorOffset(ss: nat, mode: Byte): nat {
    ss * 16 + (if mode == 1 then 16 else 24)
  }

  /**
   * How the rest of the file after a sync-bearing data track is read
   * (bin2iso.c:1046-1063): a rest divisible by neither 2352 nor the sector
   * size is only warned about; a sector size below 2352 is warned about; a
   * larger one means the audio sectors carry its excess as subchannel bytes.
   */
  function Settle(text: string, sectors: nat, ss: nat, bytes: nat, endPos: nat, rest: nat,
                  ws: seq<SniffWarning>): (a: Analysis)
    requires ss > 0
  {
    if rest % SizeRaw != 0 && rest % ss != 0 then Analysis(text, sectors, ss, 0, bytes, endPos, ws + [Indivisible])
    else if ss < SizeRaw then Analysis(text, sectors, ss, 0, bytes, endPos, ws + [OddSectorSize])
    else Analysis(text, sectors, ss, ss - SizeRaw, bytes, endPos, ws)
  }

  /** The mode text `"MODE%d/%d"` of the mode byte and the sector size. */
  function SyncModeText(mode: Byte, ss: nat): string {
    "MODE" + Decimal(mode) + "/" + Decimal(ss)
  }

  /**
   * The sync branch once a size `ss` is accepted (bin2iso.c:1012-1063): the
   * track runs for the descriptor's block count (a `uint32_t` byte count)
   * and then for every further sector that carries a sync field.
   */
  function SyncTail(buf: seq<Byte>, file: seq<Byte>, readpos: nat, ss: nat): Analysis
    requires |buf| == PrefixSize && 0 < ss < SizeBound
  {
    var (declared, warn) := CheckIsoHeader(buf, DescriptorOffset(ss, buf[15]), 0);
    SyncEnd(SyncModeText(buf[15], ss), file, readpos, ss, declared, U32(declared * ss), BlockWarning(warn))
  }

  /** The sync-field run after a declared track of `start` bytes, then the subchannel decision. */
  function SyncEnd(text: string, file: seq<Byte>, readpos: nat, ss: nat, declared: nat, start: nat,
                   ws: seq<SniffWarning>): Analysis
    requires ss > 0
  {
    var run := SyncRun(file, readpos + start, ss);
    var bytes := start + Times(run, ss);
    Settle(text, U32(declared + run), ss, bytes, readpos + bytes, U32(|file| - readpos - bytes), ws)
  }

  /**
   * The branch for a track that starts with a sync field (bin2iso.c:993-1066).
   * When no size is accepted, the track is left as audio of no sectors.
   */
  function SyncBranch(buf: seq<Byte>, file: seq<Byte>, readpos: nat): Analysis
    requires |buf| == PrefixSize
  {
    match SizeSearch(buf, FirstSize)
    case None => Analysis("AUDIO", 0, SizeBound, 0, 0, readpos, [NoSectorSize])
    case Some(ss) => SyncTail(buf, file, readpos, ss)
  }

  /** What the descriptors of a track without sync field suggest. */
  datatype Guess = Guess(modeText: string, sectorSize: nat, declared: nat, warnings: seq<SniffWarning>)

  /**
   * bin2iso.c:1068-1106: an ISO 9660 descriptor at 0x8000 with a non-zero
   * block count means MODE1/2048; else one at 0x9208 means MODE2/2336; else
   * a UDF descriptor at 0x8000 means MODE1/2048 with the whole file's 2048-byte
   * blocks; else audio with no declared sectors.
   */
  function PlainGuess(buf: seq<Byte>, fileSize: nat): Guess
    requires |buf| == PrefixSize
  {
    var (c1, w1) := CheckIsoHeader(buf, 0x8000, 0);
    if c1 != 0 then Guess("MODE1/2048", 2048, c1, BlockWarning(w1))
    else
      var (c2, w2) := CheckIsoHeader(buf, 0x9208, 0);
      var ws := BlockWarning(w1) + BlockWarning(w2);
      if c2 != 0 then Guess("MODE2/2336", 2336, c2, ws)
      else if Matches(buf, 0x8000, UdfSignature) then Guess("MODE1/2048", 2048, U32(fileSize / 2048), ws)
      else Guess("AUDIO", SizeRaw, 0, ws)
  }

  /**
   * bin2iso.c:1108-1131: a declared track is extended by the sectors the
   * alignment loop counts when it stops within 147 of them, and is left as
   * declared with a warning otherwise.
   */
  function PlainEnd(g: Guess, fileSize: nat, readpos: nat): Analysis {
    if g.declared == 0 then Analysis(g.modeText, 0, g.sectorSize, 0, 0, readpos, g.warnings)
    else AlignEnd(g, U32(g.declared * g.sectorSize), fileSize, readpos)
  }

  /** The alignment step after a declared track of `bytes` bytes. */
  function AlignEnd(g: Guess, bytes: nat, fileSize: nat, readpos: nat): Analysis {
    var count := AlignCount(U32(fileSize - readpos - bytes), g.sectorSize, 0);
    if count <= MaxAlign then
      var aligned := U32(bytes + Times(count, g.sectorSize));
      Analysis(g.modeText, U32(g.declared + count), g.sectorSize, 0, aligned, readpos + aligned, g.warnings)
    else Analysis(g.modeText, g.declared, g.sectorSize, 0, bytes, readpos + bytes, g.warnings + [Unaligned])
  }

  /** The branch for a track without a sync field (bin2iso.c:1068-1131). */
  function PlainBranch(buf: seq<Byte>, file: seq<Byte>, readpos: nat): Analysis
    requires |buf| == PrefixSize
  {
    PlainEnd(PlainGuess(buf, |file|), |file|, readpos)
  }

  /**
   * `AnalyseTrack` at byte `readpos` of the file: fewer than 50000 bytes
   * there stop the program; otherwise the branch the first 12 bytes choose.
   */
  function Analyse(file: seq<Byte>, readpos: nat): Result<Analysis> {
    if readpos + PrefixSize > |file| then Err(ShortImage)
    else
      var buf := file[readpos..readpos + PrefixSize];
      if Matches(buf, 0, SyncPattern) then Ok(SyncBranch(buf, file, readpos))
      else Ok(PlainBranch(buf, file, readpos))
  }

  /** The sync branch, with its search loop and its sync-field loop. */
  method SyncTrack(buf: seq<Byte>, file: seq<Byte>, readpos: nat) returns (a: Analysis)
    requires |buf| == PrefixSize
    ensures a == SyncBranch(buf, file, readpos)
  {
    var found := FindSectorSize(buf);
    if found.None? {
      return Analysis("AUDIO", 0, SizeBound, 0, 0, readpos, [NoSectorSize]);
    }
    a := TrackAfterSync(buf, file, readpos, found.value);
  }

  /** The sync branch once a size is accepted: the descriptor, then the sync-field loop. */
  method TrackAfterSync(buf: seq<Byte>, file: seq<Byte>, readpos: nat, ss: nat) returns (a: Analysis)
    requires |buf| == PrefixSize && 0 < ss < SizeBound
    ensures a == SyncTail(buf, file, readpos, ss)
  {
    var (declared, warn) := CheckIsoHeader(buf, DescriptorOffset(ss, buf[15]), 0);
    a := SyncRunTrack(SyncModeText(buf[15], ss), file, readpos, ss, declared, U32(declared * ss), BlockWarning(warn));
  }

  /** The sync-field loop after the declared track, then the subchannel decision. */
  method SyncRunTrack(text: string, file: seq<Byte>, readpos: nat, ss: nat, declared: nat, start: nat,
                      ws: seq<SniffWarning>) returns (a: Analysis)
    requires ss > 0
    ensures a == SyncEnd(text, file, readpos, ss, declared, start, ws)
  {
    var run, runBytes := CountSyncSectors(file, readpos + start, ss);
    var bytes := start + runBytes;
    a := Settle(text, U32(declared + run), ss, bytes, readpos + bytes, U32(|file| - readpos - bytes), ws);
  }

  /** The branch without a sync field: the guess, then the alignment loop. */
  method PlainTrack(buf: seq<Byte>, file: seq<Byte>, readpos: nat) returns (a: Analysis)
    requires |buf| == PrefixSize
    ensures a == PlainBranch(buf, file, readpos)
  {
    var g := PlainGuess(buf, |file|);
    a := AlignTrack(g, |file|, readpos);
  }

  /** The declared track of a guess, grown by the alignment loop. */
  method AlignTrack(g: Guess, fileSize: nat, readpos: nat) returns (a: Analysis)
    ensures a == PlainEnd(g, fileSize, readpos)
  {
    if g.declared == 0 {
      return Analysis(g.modeText, 0, g.sectorSize, 0, 0, readpos, g.warnings);
    }
    a := AlignFrom(g, U32(g.declared * g.sectorSize), fileSize, readpos);
  }

  /** The alignment loop after a declared track of `bytes` bytes. */
  method AlignFrom(g: Guess, bytes: nat, fileSize: nat, readpos: nat) returns (a: Analysis)
    ensures a == AlignEnd(g, bytes, fileSize, readpos)
  {
    var count := Align(U32(fileSize - readpos - bytes), g.sectorSize);
    if count <= MaxAlign {
      var aligned := U32(bytes + Times(count, g.sectorSize));
      return Analysis(g.modeText, U32(g.declared + count), g.sectorSize, 0, aligned, readpos + aligned, g.warnings);
    }
    return Analysis(g.modeText, g.declared, g.sectorSize, 0, bytes, readpos + bytes, g.warnings + [Unaligned]);
  }

  /** `AnalyseTrack`: the 50000-byte read, then one of the two branches. */
  method AnalyseTrack(file: seq<Byte>, readpos: nat) returns (r: Result<Analysis>)
    ensures r == Analyse(file, readpos)
  {
    if readpos + PrefixSize > |file| {
      return Err(ShortImage);
    }
    var buf := file[readpos..readpos + PrefixSize];
    var a;
    if Matches(buf, 0, SyncPattern) {
      a := SyncTrack(buf, file, readpos);
    } else {
      a := PlainTrack(buf, file, readpos);
    }
    return Ok(a);
  }

  // ---------------------------------------------------------------------------
  // What the sniffer guarantees

  /** The 50000 bytes `AnalyseTrack` reads at `readpos`. */
  function Prefix(file: seq<Byte>, readpos: nat): (buf: seq<Byte>)
    requires readpos + PrefixSize <= |file|
    ensures |buf| == PrefixSize
  {
    file[readpos..readpos + PrefixSize]
  }

  /** `Analyse` once the 50000 bytes are read: the branch the first 12 bytes choose. */
  lemma AnalyseBranch(file: seq<Byte>, readpos: nat)
    requires readpos + PrefixSize <= |file|
    ensures var buf := Prefix(file, readpos);
      Analyse(file, readpos) == Ok(if Matches(buf, 0, SyncPattern) then SyncBranch(buf, file, readpos)
                                   else PlainBranch(buf, file, readpos))
  {
  }

  /** What `Settle` decides about the subchannel bytes, and what it keeps. */
  lemma SettleSpec(text: string, sectors: nat, ss: nat, bytes: nat, endPos: nat, rest: nat, ws: seq<SniffWarning>)
    requires ss > 0 && NoSectorSize !in ws
    ensures var a := Settle(text, sectors, ss, bytes, endPos, rest, ws);
      && a.modeText == text && a.sectors == sectors && a.sectorSize == ss
      && a.trackBytes == bytes && a.endPos == endPos && NoSectorSize !in a.warnings
      && (a.subchanBytes != 0 <==> ss > SizeRaw && (rest % SizeRaw == 0 || rest % ss == 0))
      && (a.subchanBytes != 0 ==> a.subchanBytes == ss - SizeRaw)
  {
  }

  /** A track with a sync field once the size `ss` is accepted. */
  lemma SyncTailSpec(buf: seq<Byte>, file: seq<Byte>, readpos: nat, ss: nat)
    requires |buf| == PrefixSize && 0 < ss < SizeBound
    ensures var a := SyncTail(buf, file, readpos, ss);
      && NoSectorSize !in a.warnings && a.sectorSize == ss
      && a.modeText == SyncModeText(buf[15], ss)
      && (a.subchanBytes != 0 <==>
            && ss > SizeRaw
            && (U32(|file| - readpos - a.trackBytes) % SizeRaw == 0
                || U32(|file| - readpos - a.trackBytes) % ss == 0))
      && (a.subchanBytes != 0 ==> a.subchanBytes == ss - SizeRaw)
  {
    var (declared, warn) := CheckIsoHeader(buf, DescriptorOffset(ss, buf[15]), 0);
    SyncEndSpec(SyncModeText(buf[15], ss), file, readpos, ss, declared, U32(declared * ss), BlockWarning(warn));
  }

  lemma SyncEndSpec(text: string, file: seq<Byte>, readpos: nat, ss: nat, declared: nat, start: nat,
                    ws: seq<SniffWarning>)
    requires ss > 0 && NoSectorSize !in ws
    ensures var a := SyncEnd(text, file, readpos, ss, declared, start, ws);
      && NoSectorSize !in a.warnings && a.sectorSize == ss && a.modeText == text
      && (a.subchanBytes != 0 <==>
            && ss > SizeRaw
            && (U32(|file| - readpos - a.trackBytes) % SizeRaw == 0
                || U32(|file| - readpos - a.trackBytes) % ss == 0))
      && (a.subchanBytes != 0 ==> a.subchanBytes == ss - SizeRaw)
  {
    var run := SyncRun(file, readpos + start, ss);
    var bytes := start + Times(run, ss);
    SettleSpec(text, U32(declared + run), ss, bytes, readpos + bytes, U32(|file| - readpos - bytes), ws);
  }

  /**
   * A track starting with a sync field: when some candidate size is
   * accepted, the sniffer settles on the smallest one, names the mode
   * "MODE<mode byte>/<size>" and goes on as `SyncTail` with that size (whose
   * subchannel rule `SyncTailSpec` states); when none is accepted the track
   * is audio of no sectors and the position does not move.
   */
  lemma SniffSync(buf: seq<Byte>, file: seq<Byte>, readpos: nat)
    requires |buf| == PrefixSize
    ensures var a := SyncBranch(buf, file, readpos);
      && ((forall c :: Candidate(c) ==> !Accepts(buf, c)) <==> NoSectorSize in a.warnings)
      && (NoSectorSize in a.warnings ==> a.modeText == "AUDIO" && a.sectors == 0 && a.endPos == readpos)
      && (NoSectorSize !in a.warnings ==>
            && Candidate(a.sectorSize) && Accepts(buf, a.sectorSize)
            && (forall c :: Candidate(c) && c < a.sectorSize ==> !Accepts(buf, c))
            && a.modeText == SyncModeText(buf[15], a.sectorSize)
            && a == SyncTail(buf, file, readpos, a.sectorSize))
  {
    SizeSearchFirst(buf, FirstSize);
    match SizeSearch(buf, FirstSize)
    case None =>
    case Some(ss) =>
      SyncTailSpec(buf, file, readpos, ss);
  }

  /** The choices of `PlainGuess`, in their order. */
  lemma PlainGuessSpec(buf: seq<Byte>, fileSize: nat)
    requires |buf| == PrefixSize
    ensures var g := PlainGuess(buf, fileSize);
      var iso1, iso2 := DescriptorAt(buf, 0x8000), DescriptorAt(buf, 0x9208);
      var at1, at2 := iso1.Some? && iso1.value.blocks != 0, iso2.Some? && iso2.value.blocks != 0;
      && (at1 ==> g.modeText == "MODE1/2048" && g.sectorSize == 2048 && g.declared == iso1.value.blocks)
      && (!at1 && at2 ==> g.modeText == "MODE2/2336" && g.sectorSize == 2336 && g.declared == iso2.value.blocks)
      && (!at1 && !at2 && Matches(buf, 0x8000, UdfSignature) ==>
            g.modeText == "MODE1/2048" && g.sectorSize == 2048 && g.declared == U32(fileSize / 2048))
      && (!at1 && !at2 && !Matches(buf, 0x8000, UdfSignature) ==> g.modeText == "AUDIO" && g.declared == 0)
      && (g.declared != 0 ==> g.sectorSize == 2048 || g.sectorSize == 2336)
  {
  }

  /** `PlainEnd` keeps the guessed mode and sector size and never finds subchannel bytes. */
  lemma PlainEndKeeps(g: Guess, fileSize: nat, readpos: nat)
    ensures var a := PlainEnd(g, fileSize, readpos);
      && a.modeText == g.modeText && a.sectorSize == g.sectorSize && a.subchanBytes == 0
      && (g.declared == 0 ==> a.sectors == 0 && a.endPos == readpos)
  {
  }

  /**
   * A track without a sync field: an ISO 9660 descriptor with a non-zero
   * block count at 0x8000 makes it MODE1/2048; else one at 0x9208 makes it
   * MODE2/2336; else a UDF descriptor at 0x8000 makes it MODE1/2048 covering
   * the file; else it is audio of no sectors and the position does not move.
   * No subchannel bytes are ever found here.
   */
  lemma SniffPlain(file: seq<Byte>, readpos: nat)
    requires readpos + PrefixSize <= |file| && !Matches(Prefix(file, readpos), 0, SyncPattern)
    ensures Analyse(file, readpos).Ok?
    ensures var buf, a := Prefix(file, readpos), Analyse(file, readpos).value;
      var iso1, iso2 := DescriptorAt(buf, 0x8000), DescriptorAt(buf, 0x9208);
      var at1, at2 := iso1.Some? && iso1.value.blocks != 0, iso2.Some? && iso2.value.blocks != 0;
      && a.subchanBytes == 0
      && (at1 ==> a.modeText == "MODE1/2048" && a.sectorSize == 2048)
      && (!at1 && at2 ==> a.modeText == "MODE2/2336" && a.sectorSize == 2336)
      && (!at1 && !at2 && Matches(buf, 0x8000, UdfSignature) ==> a.modeText == "MODE1/2048" && a.sectorSize == 2048)
      && (!at1 && !at2 && !Matches(buf, 0x8000, UdfSignature) ==>
            a.modeText == "AUDIO" && a.sectors == 0 && a.endPos == readpos)
  {
    var buf := Prefix(file, readpos);
    AnalyseBranch(file, readpos);
    PlainGuessSpec(buf, |file|);
    PlainEndKeeps(PlainGuess(buf, |file|), |file|, readpos);
  }

  /**
   * The alignment of a track without a sync field: it adds at most 147
   * sectors, and their bytes, to the declared count, or leaves the count as
   * declared with a warning.
   */
  lemma PlainEndBound(g: Guess, fileSize: nat, readpos: nat)
    requires g.declared != 0
    ensures var a := PlainEnd(g, fileSize, readpos);
      || (a.warnings == g.warnings + [Unaligned] && a.sectors == g.declared
          && a.trackBytes == U32(g.declared * g.sectorSize))
      || (&& a.warnings == g.warnings
          && exists k :: 0 <= k <= MaxAlign && a.sectors == U32(g.declared + k)
                         && a.trackBytes == U32(U32(g.declared * g.sectorSize) + Times(k, g.sectorSize)))
  {
    var bytes := U32(g.declared * g.sectorSize);
    assert PlainEnd(g, fileSize, readpos) == AlignEnd(g, bytes, fileSize, readpos);
    AlignEndBound(g, bytes, fileSize, readpos);
  }

  lemma AlignEndBound(g: Guess, bytes: nat, fileSize: nat, readpos: nat)
    ensures var a := AlignEnd(g, bytes, fileSize, readpos);
      || (a.warnings == g.warnings + [Unaligned] && a.sectors == g.declared && a.trackBytes == bytes)
      || (&& a.warnings == g.warnings
          && exists k :: 0 <= k <= MaxAlign && a.sectors == U32(g.declared + k)
                         && a.trackBytes == U32(bytes + Times(k, g.sectorSize)))
  {
    var k := AlignCount(U32(fileSize - readpos - bytes), g.sectorSize, 0);
    if k <= MaxAlign {
      var a := AlignEnd(g, bytes, fileSize, readpos);
      assert a.sectors == U32(g.declared + k) && a.trackBytes == U32(bytes + Times(k, g.sectorSize));
    }
  }

  /**
   * A declared ISO track that fits in the file and leaves a multiple of 16
   * bytes, at least 146 sectors' worth, is always aligned: at most 146
   * sectors are added, and the rest of the file after the track is whole
   * 2352-byte sectors.
   */
  lemma PlainEndAligned(g: Guess, fileSize: nat, readpos: nat)
    requires fileSize < Pow32 && (g.sectorSize == 2048 || g.sectorSize == 2336) && g.declared != 0
    requires g.declared * g.sectorSize + 146 * g.sectorSize + readpos <= fileSize
    requires (fileSize - readpos - g.declared * g.sectorSize) % 16 == 0
    ensures var a := PlainEnd(g, fileSize, readpos);
      && a.warnings == g.warnings
      && g.declared <= a.sectors <= g.declared + 146
      && a.trackBytes == a.sectors * a.sectorSize
      && a.endPos <= fileSize && (fileSize - a.endPos) % SizeRaw == 0
  {
    var ss := g.sectorSize;
    var bytes := g.declared * ss;
    assert U32(bytes) == bytes;
    var rest := fileSize - readpos - bytes;
    assert U32(rest) == rest;
    AlignWithin147(rest, ss);
    var k := AlignCount(rest, ss, 0);
    TimesIsProduct(k, ss);
    assert bytes + Times(k, ss) == (g.declared + k) * ss by {
      MulAddDist(ss, g.declared, k);
    }
    assert U32(bytes + Times(k, ss)) == bytes + Times(k, ss);
    assert U32(g.declared + k) == g.declared + k;
  }

  /**
   * Wherever the sniffer ends, it leaves the position at the track's end,
   * `readpos + isotrackbytes`, and that byte count is the sector count times
   * the sector size in `uint32_t` arithmetic.
   */
  lemma SniffEnd(file: seq<Byte>, readpos: nat)
    requires Analyse(file, readpos).Ok?
    ensures var a := Analyse(file, readpos).value;
      a.endPos == readpos + a.trackBytes && U32(a.trackBytes) == U32(a.sectors * a.sectorSize)
  {
    var buf := Prefix(file, readpos);
    AnalyseBranch(file, readpos);
    if Matches(buf, 0, SyncPattern) {
      SyncBranchEnd(buf, file, readpos);
    } else {
      PlainEndExtent(PlainGuess(buf, |file|), |file|, readpos);
    }
  }

  lemma SyncBranchEnd(buf: seq<Byte>, file: seq<Byte>, readpos: nat)
    requires |buf| == PrefixSize
    ensures var a := SyncBranch(buf, file, readpos);
      a.endPos == readpos + a.trackBytes && U32(a.trackBytes) == U32(a.sectors * a.sectorSize)
  {
    match SizeSearch(buf, FirstSize)
    case None =>
    case Some(ss) =>
      var (declared, warn) := CheckIsoHeader(buf, DescriptorOffset(ss, buf[15]), 0);
      SyncEndExtent(SyncModeText(buf[15], ss), file, readpos, ss, declared, U32(declared * ss), BlockWarning(warn));
  }

  lemma SyncEndExtent(text: string, file: seq<Byte>, readpos: nat, ss: nat, declared: nat, start: nat,
                      ws: seq<SniffWarning>)
    requires ss > 0 && start == U32(declared * ss)
    ensures var a := SyncEnd(text, file, readpos, ss, declared, start, ws);
      a.endPos == readpos + a.trackBytes && U32(a.trackBytes) == U32(a.sectors * a.sectorSize)
  {
    var a := SyncEnd(text, file, readpos, ss, declared, start, ws);
    var run := SyncRun(file, readpos + start, ss);
    var bytes := start + Times(run, ss);
    assert a.trackBytes == bytes && a.sectors == U32(declared + run) && a.sectorSize == ss
      && a.endPos == readpos + bytes;
    WrappedExtent(declared, run, ss);
    U32Mul(declared + run, ss);
  }

  lemma PlainEndExtent(g: Guess, fileSize: nat, readpos: nat)
    ensures var a := PlainEnd(g, fileSize, readpos);
      a.endPos == readpos + a.trackBytes && U32(a.trackBytes) == U32(a.sectors * a.sectorSize)
  {
    if g.declared != 0 {
      var bytes := U32(g.declared * g.sectorSize);
      AlignEndExtent(g, bytes, fileSize, readpos);
    }
  }

  lemma AlignEndExtent(g: Guess, bytes: nat, fileSize: nat, readpos: nat)
    requires bytes == U32(g.declared * g.sectorSize)
    ensures var a := AlignEnd(g, bytes, fileSize, readpos);
      a.endPos == readpos + a.trackBytes && U32(a.trackBytes) == U32(a.sectors * a.sectorSize)
  {
    var a := AlignEnd(g, bytes, fileSize, readpos);
    var k := AlignCount(U32(fileSize - readpos - bytes), g.sectorSize, 0);
    if k <= MaxAlign {
      assert a.trackBytes == U32(bytes + Times(k, g.sectorSize));
      assert a.sectors == U32(g.declared + k);
      WrappedExtent(g.declared, k, g.sectorSize);
      U32Add(bytes + Times(k, g.sectorSize), 0);
      U32Mul(g.declared + k, g.sectorSize);
    } else {
      assert a.trackBytes == bytes && a.sectors == g.declared;
      U32Add(g.declared * g.sectorSize, 0);
    }
  }

  /** `uint32_t` byte and sector counts that grow together stay in step. */
  lemma WrappedExtent(declared: nat, more: nat, ss: nat)
    ensures U32(U32(declared * ss) + Times(more, ss)) == U32(U32(declared + more) * ss)
  {
    U32Add(declared * ss, Times(more, ss));
    TimesIsProduct(more, ss);
    MulAddDist(ss, declared, more);
    assert declared * ss + more * ss == (declared + more) * ss;
    U32Mul(declared + more, ss);
  }
}
