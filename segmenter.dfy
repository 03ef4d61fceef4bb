/**
 * `CueFromBin` (bin2iso.c:1145-1288): writing a CUE sheet for a raw image
 * that has none. The first track is sniffed as `AnalyseTrack` does; every
 * sector after it is taken as audio, measured by the mean square of its
 * 16-bit samples, and a run of quiet sectors followed by a loud one becomes
 * a track split. The new track's INDEX 00 is the earliest of the run's
 * quietest sectors and its INDEX 01 the latest.
 */
module Segmenter {
  import opened Common
  import opened Msf
  import opened Sniffer
  import Demux

  /** `uint16_t`, the type of both split options. */
  type U16 = x: nat | x < 0x1_0000

  /** Sectors whose mean square is above the limit still need this many loud samples (`minSampleHits`). */
  const MinSampleHits: nat := 120

  /** The options' defaults (bin2iso.c:1353-1354). */
  const DefaultRmsLimit: U16 := 80
  const DefaultGapLength: U16 := 48

  /** `sizeof(tWavHead)`, skipped at the start of a `.wav` image. */
  const WavHeaderSize: nat := 44

  /** The number of 16-bit samples measured per sector. */
  const SampleCount: nat := SizeRaw / 2

  // ---------------------------------------------------------------------------
  // Measuring one sector (bin2iso.c:1222-1236)

  /** Sample `j` of the sector at `pos`: two bytes little-endian, as an `int16_t`. */
  function Sample(file: seq<Byte>, pos: nat, j: nat): (v: int)
    ensures -0x8000 <= v < 0x8000
    ensures v == 0 <==> Demux.ByteAt(file, pos + 2 * j) == 0 && Demux.ByteAt(file, pos + 2 * j + 1) == 0
  {
    var u := Demux.ByteAt(file, pos + 2 * j) + 0x100 * Demux.ByteAt(file, pos + 2 * j + 1);
    if u >= 0x8000 then u - 0x1_0000 else u
  }

  /** `value * value`, written with `Times` to keep multiplication out of the solver's way. */
  function Square(v: int): (r: nat)
    ensures r == 0 <==> v == 0
  {
    var m := if v < 0 then -v else v;
    Times(m, m)
  }

  /** The sum of the squares of the first `n` samples of the sector at `pos`. */
  function SumSquares(file: seq<Byte>, pos: nat, n: nat): nat {
    if n == 0 then 0 else SumSquares(file, pos, n - 1) + Square(Sample(file, pos, n - 1))
  }

  /** How many of the first `n` samples have a square above `limitSq`. */
  function Hits(file: seq<Byte>, pos: nat, n: nat, limitSq: nat): nat {
    if n == 0 then 0 else Hits(file, pos, n - 1, limitSq) + if Square(Sample(file, pos, n - 1)) > limitSq then 1 else 0
  }

  /** How many of the first `n` samples are not zero. */
  function NonZero(file: seq<Byte>, pos: nat, n: nat): nat {
    if n == 0 then 0 else NonZero(file, pos, n - 1) + if Sample(file, pos, n - 1) != 0 then 1 else 0
  }

  /** What is measured of a sector: the mean square (`RMS`) and the loud samples (`samplehits`). */
  datatype Level = Level(rms: nat, hits: nat)

  /** The measure of the sector at `pos`, over its 1176 samples. */
  function LevelAt(file: seq<Byte>, pos: nat, limitSq: nat): Level {
    Level(SumSquares(file, pos, SampleCount) / SizeRaw, Hits(file, pos, SampleCount, limitSq))
  }

  /** A sector is sound, not gap, when its mean square and enough single samples are above the limit. */
  predicate Loud(l: Level, limitSq: nat) {
    l.rms > limitSq && l.hits > MinSampleHits
  }

  /** The measuring loop over the 1176 samples of the sector at `pos`. */
  method Measure(file: seq<Byte>, pos: nat, limitSq: nat) returns (rms: nat, hits: nat)
    ensures Level(rms, hits) == LevelAt(file, pos, limitSq)
  {
    var sum := 0;
    hits := 0;
    var i := 0;
    while i < SizeRaw
      invariant i <= SizeRaw && i % 2 == 0
      invariant sum == SumSquares(file, pos, i / 2) && hits == Hits(file, pos, i / 2, limitSq)
    {
      var lo, hi := Demux.ByteAt(file, pos + i), Demux.ByteAt(file, pos + i + 1);
      var value := lo as int + 0x100 * (hi as int);
      if value >= 0x8000 {
        value := value - 0x1_0000;
      }
      assert value == Sample(file, pos, i / 2);
      var squared := Square(value);
      sum := sum + squared;
      if squared > limitSq {
        hits := hits + 1;
      }
      i := i + 2;
    }
    rms := sum / SizeRaw;
  }

  /** Only a non-zero sample can be loud: loud samples are among the non-zero ones. */
  lemma {:induction false} HitsAreNonZero(file: seq<Byte>, pos: nat, n: nat, limitSq: nat)
    ensures Hits(file, pos, n, limitSq) <= NonZero(file, pos, n)
  {
    if n > 0 {
      HitsAreNonZero(file, pos, n - 1, limitSq);
    }
  }

  /**
   * A click between two songs is no sound: a sector with at most 120
   * non-zero samples is never loud, whatever its mean square; in
   * particular a sector of zero bytes, or one past the end of the image, is
   * quiet.
   */
  lemma ClickIsQuiet(file: seq<Byte>, pos: nat, limitSq: nat)
    requires NonZero(file, pos, SampleCount) <= MinSampleHits
    ensures !Loud(LevelAt(file, pos, limitSq), limitSq)
  {
    HitsAreNonZero(file, pos, SampleCount, limitSq);
  }

  /** The measures of the sectors of `ss` bytes from `pos` on; a last partial sector is padded with zeros. */
  function Levels(file: seq<Byte>, pos: nat, ss: nat, limitSq: nat): (ls: seq<Level>)
    requires ss > 0
    decreases |file| - pos
  {
    if pos >= |file| then [] else [LevelAt(file, pos, limitSq)] + Levels(file, pos + ss, ss, limitSq)
  }

  // ---------------------------------------------------------------------------
  // Finding the gaps (bin2iso.c:1238-1284)

  /** A track split: the new track's number, its INDEX 00 and its INDEX 01 sector. */
  datatype Split = Split(track: nat, idx0: nat, idx1: nat)

  /**
   * The segmenter's variables: the quiet sectors in a row (`gapsectors`),
   * the lowest mean square among them and its first and last sector, the
   * sector number, the last track number, and the splits emitted so far.
   */
  datatype Seg = Seg(gap: nat, lowest: nat, s0: nat, s1: nat, sector: nat, track: nat, splits: seq<Split>)

  /** One sector: a loud one ends the quiet run, a quiet one extends it. */
  function Step(st: Seg, l: Level, limitSq: nat, gapLength: nat): Seg {
    if Loud(l, limitSq) then EndRun(st, gapLength) else Extend(st, l.rms)
  }

  /** A loud sector: a quiet run behind it of at least `gapLength` sectors becomes a split. */
  function EndRun(st: Seg, gapLength: nat): Seg {
    if st.gap == 0 then st.(sector := U32(st.sector + 1))
    else if st.gap >= gapLength then
      st.(gap := 0, sector := U32(st.sector + 1), track := st.track + 1,
          splits := st.splits + [Split(st.track + 1, st.s0, st.s1)])
    else st.(gap := 0, sector := U32(st.sector + 1))
  }

  /** A quiet sector of mean square `rms`: it starts or lengthens the run and may be its new quietest. */
  function Extend(st: Seg, rms: nat): Seg {
    if st.gap == 0 then
      st.(gap := 1, lowest := rms, s0 := st.sector, s1 := st.sector, sector := U32(st.sector + 1))
    else if rms < st.lowest then
      st.(gap := st.gap + 1, lowest := rms, s0 := st.sector, s1 := st.sector, sector := U32(st.sector + 1))
    else if rms == st.lowest then
      st.(gap := st.gap + 1, s1 := st.sector, sector := U32(st.sector + 1))
    else st.(gap := st.gap + 1, sector := U32(st.sector + 1))
  }

  /** The loop over all sectors. */
  function Run(st: Seg, ls: seq<Level>, limitSq: nat, gapLength: nat): Seg
    decreases |ls|
  {
    if ls == [] then st else Run(Step(st, ls[0], limitSq, gapLength), ls[1..], limitSq, gapLength)
  }

  /**
   * The state before the first audio sector, numbered `base` as the
   * `uint32_t` counter holds it, after `track` tracks.
   */
  function Start(base: nat, track: nat): Seg {
    Seg(0, 0, 0, 0, U32(base), track, [])
  }

  // ---------------------------------------------------------------------------
  // What the segmenter means

  /** The end of the quiet run from `a`: the first loud sector at or after it, or the end. */
  function QuietEnd(ls: seq<Level>, a: nat, limitSq: nat): (b: nat)
    requires a <= |ls|
    ensures a <= b <= |ls|
    ensures forall k :: a <= k < b ==> !Loud(ls[k], limitSq)
    ensures b < |ls| ==> Loud(ls[b], limitSq)
    decreases |ls| - a
  {
    if a == |ls| || Loud(ls[a], limitSq) then a else QuietEnd(ls, a + 1, limitSq)
  }

  function Min(x: nat, y: nat): nat {
    if x <= y then x else y
  }

  /** The lowest mean square among sectors `a` to `b - 1`. */
  function MinRms(ls: seq<Level>, a: nat, b: nat): nat
    requires a < b <= |ls|
    decreases b
  {
    if b == a + 1 then ls[a].rms else Min(MinRms(ls, a, b - 1), ls[b - 1].rms)
  }

  /** The earliest sector of `a` to `b - 1` with the lowest mean square. */
  function FirstMin(ls: seq<Level>, a: nat, b: nat): nat
    requires a < b <= |ls|
    decreases b
  {
    if b == a + 1 then a
    else if ls[b - 1].rms < MinRms(ls, a, b - 1) then b - 1
    else FirstMin(ls, a, b - 1)
  }

  /** The latest sector of `a` to `b - 1` with the lowest mean square. */
  function LastMin(ls: seq<Level>, a: nat, b: nat): nat
    requires a < b <= |ls|
    decreases b
  {
    if b == a + 1 then a
    else if ls[b - 1].rms <= MinRms(ls, a, b - 1) then b - 1
    else LastMin(ls, a, b - 1)
  }

  /**
   * The quietest sectors of a run: `FirstMin` and `LastMin` both have the
   * lowest mean square, no sector of the run is lower, none before
   * `FirstMin` and none after `LastMin` is as low, so INDEX 00 never comes
   * after INDEX 01.
   */
  lemma {:induction false} MinSpec(ls: seq<Level>, a: nat, b: nat)
    requires a < b <= |ls|
    ensures var m, f, l := MinRms(ls, a, b), FirstMin(ls, a, b), LastMin(ls, a, b);
      && a <= f <= l < b
      && ls[f].rms == m && ls[l].rms == m
      && (forall k :: a <= k < b ==> m <= ls[k].rms)
      && (forall k :: a <= k < f ==> m < ls[k].rms)
      && (forall k :: l < k < b ==> m < ls[k].rms)
    decreases b
  {
    if b > a + 1 {
      MinSpec(ls, a, b - 1);
    }
  }

  /**
   * The splits of the sectors from `a` on, where a quiet run starts, after
   * `track` tracks, sector `k` being numbered `base + k`: a quiet run of at
   * least `max(gapLength, 1)` sectors that a loud sector ends gives the next
   * track, starting at the run's quietest sectors; a shorter run, or one
   * that reaches the end of the image, gives nothing.
   */
  function Splits(ls: seq<Level>, a: nat, track: nat, base: nat, limitSq: nat, gapLength: nat): seq<Split>
    requires a <= |ls|
    decreases |ls| - a
  {
    var b := QuietEnd(ls, a, limitSq);
    if b == |ls| then []
    else if b > a && b - a >= gapLength then
      [Split(track + 1, base + FirstMin(ls, a, b), base + LastMin(ls, a, b))]
        + Splits(ls, b + 1, track + 1, base, limitSq, gapLength)
    else Splits(ls, b + 1, track, base, limitSq, gapLength)
  }

  /** A split as the `uint32_t` sector counter numbers it: both indices reduced modulo 2^32. */
  function Wrap(x: Split): Split {
    Split(x.track, U32(x.idx0), U32(x.idx1))
  }

  /** The splits with their indices as the counter numbers them. */
  function Wrapped(s: seq<Split>): (r: seq<Split>)
    ensures |r| == |s|
    ensures forall k :: 0 <= k < |s| ==> r[k] == Wrap(s[k])
  {
    seq(|s|, k requires 0 <= k < |s| => Wrap(s[k]))
  }

  lemma WrappedCons(x: Split, s: seq<Split>)
    ensures Wrapped([x] + s) == [Wrap(x)] + Wrapped(s)
  {
    var l, r := Wrapped([x] + s), [Wrap(x)] + Wrapped(s);
    forall k | 0 <= k < |l|
      ensures l[k] == r[k]
    {
      if k > 0 {
        assert ([x] + s)[k] == s[k - 1];
      }
    }
  }

  /** Indices that fit a `uint32_t` are left as they are. */
  lemma WrappedSmall(s: seq<Split>)
    requires forall k :: 0 <= k < |s| ==> s[k].idx0 < Pow32 && s[k].idx1 < Pow32
    ensures Wrapped(s) == s
  {
  }

  /** What the loop keeps about a state at sector `i` of `ls`: the quiet run behind it and its quietest sectors. */
  predicate InRun(st: Seg, ls: seq<Level>, i: nat, base: nat, limitSq: nat)
    requires i <= |ls|
  {
    RunFacts(st, ls, i, base, limitSq)
  }

  predicate RunFacts(st: Seg, ls: seq<Level>, i: nat, base: nat, limitSq: nat)
    requires i <= |ls|
  {
    && st.gap <= i && st.sector == U32(base + i)
    && (forall k :: i - st.gap <= k < i ==> !Loud(ls[k], limitSq))
    && (st.gap > 0 ==>
          && st.lowest == MinRms(ls, i - st.gap, i)
          && st.s0 == U32(base + FirstMin(ls, i - st.gap, i))
          && st.s1 == U32(base + LastMin(ls, i - st.gap, i)))
  }

  /** The end of a quiet run does not depend on where inside it one starts looking. */
  lemma {:induction false} QuietEndSkip(ls: seq<Level>, a: nat, i: nat, limitSq: nat)
    requires a <= i <= |ls| && forall k :: a <= k < i ==> !Loud(ls[k], limitSq)
    ensures QuietEnd(ls, a, limitSq) == QuietEnd(ls, i, limitSq)
    decreases i - a
  {
    if a < i {
      QuietEndSkip(ls, a + 1, i, limitSq);
    }
  }

  /** A quiet sector extends the run the state is in, keeping `InRun`. */
  lemma QuietStep(st: Seg, ls: seq<Level>, i: nat, base: nat, limitSq: nat, gapLength: nat)
    requires i < |ls| && InRun(st, ls, i, base, limitSq) && !Loud(ls[i], limitSq)
    ensures var n := Step(st, ls[i], limitSq, gapLength);
      InRun(n, ls, i + 1, base, limitSq) && n.gap == st.gap + 1 && n.track == st.track && n.splits == st.splits
  {
    U32Add(base + i, 1);
  }

  /**
   * A loud sector ends the run the state is in: the split the reference
   * gives for that run, if any, is emitted, and a new run starts after it.
   */
  lemma LoudStep(st: Seg, ls: seq<Level>, i: nat, base: nat, limitSq: nat, gapLength: nat)
    requires i < |ls| && InRun(st, ls, i, base, limitSq) && Loud(ls[i], limitSq)
    ensures var n := Step(st, ls[i], limitSq, gapLength);
      && InRun(n, ls, i + 1, base, limitSq) && n.gap == 0
      && n.splits + Wrapped(Splits(ls, i + 1, n.track, base, limitSq, gapLength))
         == st.splits + Wrapped(Splits(ls, i - st.gap, st.track, base, limitSq, gapLength))
  {
    var a := i - st.gap;
    QuietEndSkip(ls, a, i, limitSq);
    assert QuietEnd(ls, a, limitSq) == i;
    U32Add(base + i, 1);
    if st.gap > 0 && st.gap >= gapLength {
      WrappedCons(Split(st.track + 1, base + FirstMin(ls, a, i), base + LastMin(ls, a, i)),
                  Splits(ls, i + 1, st.track + 1, base, limitSq, gapLength));
    }
  }

  /** From a state in a run at sector `i`, the loop emits exactly the splits the reference gives. */
  lemma {:induction false} RunSplits(st: Seg, ls: seq<Level>, i: nat, base: nat, limitSq: nat, gapLength: nat)
    requires i <= |ls| && InRun(st, ls, i, base, limitSq)
    ensures Run(st, ls[i..], limitSq, gapLength).splits
      == st.splits + Wrapped(Splits(ls, i - st.gap, st.track, base, limitSq, gapLength))
    decreases |ls| - i
  {
    if i == |ls| {
      RunAtEnd(st, ls, base, limitSq, gapLength);
    } else {
      var n := Step(st, ls[i], limitSq, gapLength);
      RunUnfold(st, ls, i, limitSq, gapLength);
      StepKeeps(st, ls, i, base, limitSq, gapLength);
      RunSplits(n, ls, i + 1, base, limitSq, gapLength);
    }
  }

  /** Either kind of sector keeps `InRun` and the splits still to come. */
  lemma StepKeeps(st: Seg, ls: seq<Level>, i: nat, base: nat, limitSq: nat, gapLength: nat)
    requires i < |ls| && InRun(st, ls, i, base, limitSq)
    ensures var n := Step(st, ls[i], limitSq, gapLength);
      && InRun(n, ls, i + 1, base, limitSq)
      && n.splits + Wrapped(Splits(ls, i + 1 - n.gap, n.track, base, limitSq, gapLength))
         == st.splits + Wrapped(Splits(ls, i - st.gap, st.track, base, limitSq, gapLength))
  {
    if Loud(ls[i], limitSq) {
      LoudStep(st, ls, i, base, limitSq, gapLength);
    } else {
      QuietStep(st, ls, i, base, limitSq, gapLength);
    }
  }

  /** At the end of the image the loop stops, and a run that reaches it gives no split. */
  lemma RunAtEnd(st: Seg, ls: seq<Level>, base: nat, limitSq: nat, gapLength: nat)
    requires InRun(st, ls, |ls|, base, limitSq)
    ensures Run(st, ls[|ls|..], limitSq, gapLength) == st
    ensures Splits(ls, |ls| - st.gap, st.track, base, limitSq, gapLength) == []
  {
    QuietEndSkip(ls, |ls| - st.gap, |ls|, limitSq);
    assert ls[|ls|..] == [];
  }

  /** One iteration of the loop. */
  lemma RunUnfold(st: Seg, ls: seq<Level>, i: nat, limitSq: nat, gapLength: nat)
    requires i < |ls|
    ensures Run(st, ls[i..], limitSq, gapLength) == Run(Step(st, ls[i], limitSq, gapLength), ls[i + 1..], limitSq, gapLength)
  {
    assert ls[i..][0] == ls[i] && ls[i..][1..] == ls[i + 1..];
  }

  /**
   * The whole loop emits the reference splits, their sectors numbered by
   * the `uint32_t` counter; while the numbering of the image's sectors
   * stays below 2^32 they are exactly the reference splits.
   */
  lemma SegmentsMeaning(ls: seq<Level>, base: nat, track: nat, limitSq: nat, gapLength: nat)
    ensures Run(Start(base, track), ls, limitSq, gapLength).splits == Wrapped(Splits(ls, 0, track, base, limitSq, gapLength))
    ensures base + |ls| <= Pow32 ==>
      Run(Start(base, track), ls, limitSq, gapLength).splits == Splits(ls, 0, track, base, limitSq, gapLength)
  {
    assert ls[0..] == ls;
    RunSplits(Start(base, track), ls, 0, base, limitSq, gapLength);
    assert Start(base, track).splits + Wrapped(Splits(ls, 0, track, base, limitSq, gapLength))
      == Wrapped(Splits(ls, 0, track, base, limitSq, gapLength));
    if base + |ls| <= Pow32 {
      SplitsOrdered(ls, 0, track, base, limitSq, gapLength);
      WrappedSmall(Splits(ls, 0, track, base, limitSq, gapLength));
    }
  }

  /**
   * The splits number the tracks on from `track`, one by one; each has its
   * INDEX 00 at or before its INDEX 01, both within the sectors from `a`
   * on, and each split comes strictly after the one before it.
   */
  lemma {:induction false} SplitsOrdered(ls: seq<Level>, a: nat, track: nat, base: nat, limitSq: nat, gapLength: nat)
    requires a <= |ls|
    ensures forall j :: 0 <= j < |Splits(ls, a, track, base, limitSq, gapLength)| ==>
      Splits(ls, a, track, base, limitSq, gapLength)[j].track == track + j + 1
    ensures forall j :: 0 <= j < |Splits(ls, a, track, base, limitSq, gapLength)| ==>
      base + a <= Splits(ls, a, track, base, limitSq, gapLength)[j].idx0
      <= Splits(ls, a, track, base, limitSq, gapLength)[j].idx1 < base + |ls|
    ensures forall j :: 0 < j < |Splits(ls, a, track, base, limitSq, gapLength)| ==>
      Splits(ls, a, track, base, limitSq, gapLength)[j - 1].idx1
      < Splits(ls, a, track, base, limitSq, gapLength)[j].idx0
    decreases |ls| - a
  {
    var b := QuietEnd(ls, a, limitSq);
    if b < |ls| {
      if b > a && b - a >= gapLength {
        MinSpec(ls, a, b);
        SplitsOrdered(ls, b + 1, track + 1, base, limitSq, gapLength);
        var rest := Splits(ls, b + 1, track + 1, base, limitSq, gapLength);
        var s := Splits(ls, a, track, base, limitSq, gapLength);
        assert s == [Split(track + 1, base + FirstMin(ls, a, b), base + LastMin(ls, a, b))] + rest;
        forall j | 0 < j < |s|
          ensures s[j] == rest[j - 1]
        {
        }
      } else {
        SplitsOrdered(ls, b + 1, track, base, limitSq, gapLength);
      }
    }
  }

  /** A quiet stretch up to the end of the image gives no split. */
  lemma TrailingQuiet(ls: seq<Level>, a: nat, track: nat, base: nat, limitSq: nat, gapLength: nat)
    requires a <= |ls| && forall k :: a <= k < |ls| ==> !Loud(ls[k], limitSq)
    ensures Splits(ls, a, track, base, limitSq, gapLength) == []
  {
    QuietEndSkip(ls, a, |ls|, limitSq);
  }

  /**
   * The counter wraps: numbered on from 2^32 - 1, a quiet sector between
   * two loud ones is the image's sector 2^32 but the counter's sector 0,
   * and its split's indices are written as 00:00:00.
   */
  lemma CounterWraps()
    ensures var ls := [Level(1, 121), Level(0, 0), Level(1, 121)];
      && Splits(ls, 0, 1, Pow32 - 1, 0, 1) == [Split(2, Pow32, Pow32)]
      && Run(Start(Pow32 - 1, 1), ls, 0, 1).splits == [Split(2, 0, 0)]
      && Render(IndexLine(true, 0)) == "    INDEX 00 00:00:00"
  {
    var ls := [Level(1, 121), Level(0, 0), Level(1, 121)];
    assert QuietEnd(ls, 0, 0) == 0;
    assert QuietEnd(ls, 1, 0) == 2 by {
      assert QuietEnd(ls, 2, 0) == 2;
    }
    assert QuietEnd(ls, 3, 0) == 3;
    SegmentsMeaning(ls, Pow32 - 1, 1, 0, 1);
  }

  // ---------------------------------------------------------------------------
  // The sheet (bin2iso.c:1160-1196, 1245-1258)

  /** Whether the image name ends in ".wav" or ".WAV": its 44-byte header is skipped. */
  predicate IsWavName(name: string) {
    |name| >= 4 && (name[|name| - 4..] == ".wav" || name[|name| - 4..] == ".WAV")
  }

  /**
   * A line of the sheet, as the record `fprintf` formats: a FILE line, a
   * TRACK line with its mode text, or an INDEX 00/01 line with its sector.
   */
  datatype Line =
    | FileLine(name: string)
    | TrackLine(number: nat, mode: string)
    | IndexLine(pregap: bool, sector: nat)

  /** The text `fprintf` writes for a line. */
  function Render(l: Line): string {
    match l
    case FileLine(name) => "FILE \"" + name + "\" BINARY"
    case TrackLine(n, mode) => "  TRACK " + Decimal2(n) + " " + mode
    case IndexLine(pregap, n) => (if pregap then "    INDEX 00 " else "    INDEX 01 ") + TimeIndex(n)
  }

  /**
   * The written file as `fgets` reads it back: one string per line, each
   * with the '\n' that ends its format.
   */
  function Text(ls: seq<Line>): (t: seq<string>)
    ensures |t| == |ls|
    ensures forall i :: 0 <= i < |ls| ==> t[i] == Render(ls[i]) + "\n"
  {
    seq(|ls|, i requires 0 <= i < |ls| => Render(ls[i]) + "\n")
  }

  /** The mode of every split track: "AUDIO", or "AUDIO/<sector size>" when sectors carry subchannel bytes. */
  function AudioModeText(subchanBytes: nat): string {
    if subchanBytes == 0 then "AUDIO" else "AUDIO/" + Decimal(SizeRaw + subchanBytes)
  }

  /** The three lines of a split. */
  function SplitText(x: Split, mode: string): seq<Line> {
    [TrackLine(x.track, mode), IndexLine(true, x.idx0), IndexLine(false, x.idx1)]
  }

  function SplitLines(splits: seq<Split>, mode: string): seq<Line>
    decreases |splits|
  {
    if splits == [] then []
    else SplitLines(splits[..|splits| - 1], mode) + SplitText(splits[|splits| - 1], mode)
  }

  /** Where the image's audio starts being read: after a WAV header, if any. */
  function ReadStart(name: string): nat {
    if IsWavName(name) then WavHeaderSize else 0
  }

  /** The FILE line, and the first track's two lines when the sniffer found a data track. */
  function Head(name: string, a: Analysis): seq<Line> {
    [FileLine(name)] + if a.sectors != 0 then [TrackLine(1, a.modeText), IndexLine(false, 0)] else []
  }

  /** What the loop over the sectors after the first track ends with. */
  function Segments(file: seq<Byte>, a: Analysis, rmsLimit: U16, gapLength: U16): Seg {
    var limitSq := LimitSquared(rmsLimit);
    Run(Start(a.sectors, if a.sectors != 0 then 1 else 0),
        Levels(file, a.endPos, SizeRaw + a.subchanBytes, limitSq), limitSq, gapLength)
  }

  /** `limitsquared`: the square of the RMS limit, which fits a `uint32_t`. */
  function LimitSquared(rmsLimit: U16): nat {
    Square(rmsLimit)
  }

  /**
   * The lines of the sheet written for the image `file` named `name`: a
   * first track too short to sniff stops the program.
   */
  function CueText(name: string, file: seq<Byte>, rmsLimit: U16, gapLength: U16): Result<seq<Line>> {
    match Analyse(file, ReadStart(name))
    case Err(e) => Err(e)
    case Ok(a) => Ok(Sheet(name, file, a, rmsLimit, gapLength))
  }

  /** The sheet of an image whose first track the sniffer analysed as `a`. */
  function Sheet(name: string, file: seq<Byte>, a: Analysis, rmsLimit: U16, gapLength: U16): seq<Line> {
    Head(name, a) + SplitLines(Segments(file, a, rmsLimit, gapLength).splits, AudioModeText(a.subchanBytes))
  }

  /** `CueFromBin`, the sheet's lines instead of the file it writes. */
  method CueFromBin(name: string, file: seq<Byte>, rmsLimit: U16, gapLength: U16) returns (r: Result<seq<Line>>)
    ensures r == CueText(name, file, rmsLimit, gapLength)
  {
    var readpos := if IsWavName(name) then WavHeaderSize else 0;
    var lines := [FileLine(name)];
    var analysed := AnalyseTrack(file, readpos);
    if analysed.Err? {
      return Err(analysed.error);
    }
    var a := analysed.value;
    var track := 0;
    if a.sectors != 0 {
      lines := lines + [TrackLine(1, a.modeText), IndexLine(false, 0)];
      track := track + 1;
    }
    var modetxt := "AUDIO";
    var sectorsize := SizeRaw + a.subchanBytes;
    if a.subchanBytes != 0 {
      modetxt := "AUDIO/" + Decimal(sectorsize);
    }
    var limitsquared := LimitSquared(rmsLimit);
    var more := SplitAudio(file, a.endPos, sectorsize, limitsquared, gapLength, a.sectors, track, modetxt);
    assert readpos == ReadStart(name);
    assert modetxt == AudioModeText(a.subchanBytes);
    assert lines == Head(name, a);
    assert Analyse(file, ReadStart(name)) == Ok(a);
    assert track == (if a.sectors != 0 then 1 else 0) && sectorsize == SizeRaw + a.subchanBytes;
    SheetOk(name, file, rmsLimit, gapLength, a, lines, modetxt, more);
    return Ok(lines + more);
  }

  /** The lines `CueFromBin` collects are the sheet of its analysis. */
  lemma SheetOk(name: string, file: seq<Byte>, rmsLimit: U16, gapLength: U16, a: Analysis,
                head: seq<Line>, modetxt: string, more: seq<Line>)
    requires head == Head(name, a) && modetxt == AudioModeText(a.subchanBytes)
    requires more == SplitLines(Run(Start(a.sectors, if a.sectors != 0 then 1 else 0),
                                    Levels(file, a.endPos, SizeRaw + a.subchanBytes, LimitSquared(rmsLimit)),
                                    LimitSquared(rmsLimit), gapLength).splits, modetxt)
    ensures Sheet(name, file, a, rmsLimit, gapLength) == head + more
  {
    var limitSq := LimitSquared(rmsLimit);
    var levels := Levels(file, a.endPos, SizeRaw + a.subchanBytes, limitSq);
    assert Segments(file, a, rmsLimit, gapLength) == Run(Start(a.sectors, if a.sectors != 0 then 1 else 0), levels, limitSq, gapLength);
  }

  /**
   * The loop over the sectors of `sectorsize` bytes from `start`, numbered
   * from `sector`, after `track` tracks: the lines of the splits it finds.
   */
  method SplitAudio(file: seq<Byte>, start: nat, sectorsize: nat, limitSq: nat, gapLength: nat,
                    sector0: nat, track0: nat, modetxt: string) returns (lines: seq<Line>)
    requires sectorsize > 0
    ensures lines == SplitLines(Run(Start(sector0, track0), Levels(file, start, sectorsize, limitSq),
                                    limitSq, gapLength).splits, modetxt)
  {
    var gapsectors: nat, lowest: nat, s0: nat, s1: nat := 0, 0, 0, 0;
    var sector, track := U32(sector0), track0;
    lines := [];
    ghost var splits: seq<Split> := [];
    var pos := start;
    ghost var final := Run(Start(sector0, track0), Levels(file, start, sectorsize, limitSq), limitSq, gapLength);
    while pos < |file|
      invariant Run(Seg(gapsectors, lowest, s0, s1, sector, track, splits), Levels(file, pos, sectorsize, limitSq),
                    limitSq, gapLength) == final
      invariant lines == SplitLines(splits, modetxt)
      decreases |file| - pos
    {
      var emitted;
      gapsectors, lowest, s0, s1, sector, track, emitted, splits :=
        Sector(file, pos, sectorsize, limitSq, gapLength, modetxt, gapsectors, lowest, s0, s1, sector, track, splits);
      lines := lines + emitted;
      pos := pos + sectorsize;
    }
  }

  /** One iteration of the sector loop: measure the sector at `pos`, then account for it. */
  method Sector(file: seq<Byte>, pos: nat, ss: nat, limitSq: nat, gapLength: nat, modetxt: string,
                gapsectors: nat, lowest: nat, s0: nat, s1: nat, sector: nat, track: nat, ghost splits: seq<Split>)
    returns (gap': nat, lowest': nat, s0': nat, s1': nat, sector': nat, track': nat, emitted: seq<Line>,
             ghost splits': seq<Split>)
    requires ss > 0 && pos < |file|
    ensures var before := Seg(gapsectors, lowest, s0, s1, sector, track, splits);
      var after := Seg(gap', lowest', s0', s1', sector', track', splits');
      && Run(before, Levels(file, pos, ss, limitSq), limitSq, gapLength)
         == Run(after, Levels(file, pos + ss, ss, limitSq), limitSq, gapLength)
      && SplitLines(splits', modetxt) == SplitLines(splits, modetxt) + emitted
  {
    ghost var before := Seg(gapsectors, lowest, s0, s1, sector, track, splits);
    var rms, hits := Measure(file, pos, limitSq);
    gap', lowest', s0', s1', sector', track', emitted :=
      Account(gapsectors, lowest, s0, s1, sector, track, rms, hits, limitSq, gapLength, modetxt);
    ghost var after := Step(before, Level(rms, hits), limitSq, gapLength);
    LoopStep(file, pos, ss, limitSq, gapLength, before, Level(rms, hits), modetxt);
    splits' := after.splits;
  }

  /**
   * One sector of the loop: the rest of the run goes on from the state after
   * it, and the lines grow by those of the split the sector ends, if any.
   */
  lemma LoopStep(file: seq<Byte>, pos: nat, ss: nat, limitSq: nat, gapLength: nat, before: Seg, l: Level, mode: string)
    requires ss > 0 && pos < |file| && l == LevelAt(file, pos, limitSq)
    ensures var m := Step(before.(splits := []), l, limitSq, gapLength);
      var after := Step(before, l, limitSq, gapLength);
      && Run(before, Levels(file, pos, ss, limitSq), limitSq, gapLength)
         == Run(after, Levels(file, pos + ss, ss, limitSq), limitSq, gapLength)
      && after == m.(splits := before.splits + m.splits)
      && SplitLines(after.splits, mode) == SplitLines(before.splits, mode) + SplitLines(m.splits, mode)
  {
    var rest := Levels(file, pos + ss, ss, limitSq);
    assert Levels(file, pos, ss, limitSq) == [l] + rest;
    assert ([l] + rest)[0] == l && ([l] + rest)[1..] == rest;
    StepSplits(before, l, limitSq, gapLength, mode);
  }

  /**
   * The body of the sector loop after measuring: the segmenter's variables
   * after the sector, and the lines of the split it ends, if any.
   */
  method Account(gapsectors: nat, lowest: nat, s0: nat, s1: nat, sector: nat, track: nat,
                 rms: nat, hits: nat, limitSq: nat, gapLength: nat, modetxt: string)
    returns (gap': nat, lowest': nat, s0': nat, s1': nat, sector': nat, track': nat, emitted: seq<Line>)
    ensures var st := Seg(gapsectors, lowest, s0, s1, sector, track, []);
      var n := Step(st, Level(rms, hits), limitSq, gapLength);
      && Seg(gap', lowest', s0', s1', sector', track', n.splits) == n
      && emitted == SplitLines(n.splits, modetxt)
  {
    gap', lowest', s0', s1', sector', track' := gapsectors, lowest, s0, s1, sector, track;
    emitted := [];
    if rms > limitSq && hits > MinSampleHits {
      if gap' != 0 {
        if gap' >= gapLength {
          track' := track' + 1;
          emitted := [TrackLine(track', modetxt), IndexLine(true, s0'), IndexLine(false, s1')];
          assert SplitLines([Split(track', s0', s1')], modetxt) == emitted by {
            assert [Split(track', s0', s1')][..0] == [];
          }
        }
        gap' := 0;
      }
    } else {
      if gap' != 0 {
        if rms <= lowest' {
          if rms != lowest' {
            lowest' := rms;
            s0' := sector';
          }
          s1' := sector';
        }
      } else {
        lowest' := rms;
        s0' := sector';
        s1' := sector';
      }
      gap' := gap' + 1;
    }
    sector' := U32(sector' + 1);
  }

  /** A step adds at most one split, and the lines of the splits grow by that split's lines. */
  lemma StepSplits(st: Seg, l: Level, limitSq: nat, gapLength: nat, mode: string)
    ensures var n := Step(st, l, limitSq, gapLength);
      var m := Step(st.(splits := []), l, limitSq, gapLength);
      && n == m.(splits := st.splits + m.splits)
      && SplitLines(n.splits, mode) == SplitLines(st.splits, mode) + SplitLines(m.splits, mode)
  {
    var m := Step(st.(splits := []), l, limitSq, gapLength);
    if m.splits == [] {
      assert st.splits + [] == st.splits;
    } else {
      var x := m.splits[0];
      assert m.splits == [x];
      SplitLinesAppend(st.splits, x, mode);
      assert SplitLines([x], mode) == SplitText(x, mode) by {
        assert [x][..0] == [];
      }
    }
  }

  lemma SplitLinesAppend(splits: seq<Split>, x: Split, mode: string)
    ensures SplitLines(splits + [x], mode) == SplitLines(splits, mode) + SplitText(x, mode)
  {
    assert (splits + [x])[..|splits|] == splits;
  }
}
