/**
 * The track geometry of `IsoFromCue` (bin2iso.c:771-860): where each track's
 * bytes start in its source file (`startOfs`) and how many sectors it has
 * (`totalSectors`), computed from the INDEX positions in one forward pass
 * over the track table with a running byte cursor (`trackofs`), and what is
 * done with each pregap (the sectors between INDEX 00 and INDEX 01).
 */
module Geometry {
  import opened Common
  import opened Pregap

  /**
   * The pregap options: `noGaps` discards every pregap, `autoGaps` keeps only
   * those that hold sound, `allPostGaps` turns a kept pregap into a postgap
   * of the previous audio track.
   */
  datatype GapPolicy = GapPolicy(noGaps: bool, autoGaps: bool, allPostGaps: bool)

  /** The options' defaults (bin2iso.c:1352-1354). */
  const DefaultPolicy: GapPolicy := GapPolicy(false, false, true)

  /** The warnings the pass prints and goes on after. */
  datatype Warning =
    | Unaligned(num: int)  // the last track's bytes are not a whole number of sectors
    | EmptyTrack(num: int) // a track of no sectors

  // ---------------------------------------------------------------------------
  // Clamping (bin2iso.c:771-781)

  /** An unset (negative) index becomes 0. */
  function ClampTrack(t: Track): (r: Track)
    ensures r.idx0 >= 0 && r.idx1 >= 0
    ensures r.(idx0 := t.idx0, idx1 := t.idx1) == t
    ensures t.idx0 >= 0 ==> r.idx0 == t.idx0
    ensures t.idx1 >= 0 ==> r.idx1 == t.idx1
  {
    t.(idx0 := if t.idx0 < 0 then 0 else t.idx0, idx1 := if t.idx1 < 0 then 0 else t.idx1)
  }

  predicate Ordered(t: Track) {
    0 <= t.idx0 <= t.idx1
  }

  /** The clamping loop from track `i` on: each track clamped, stopping at the first with idx0 > idx1. */
  function ClampFrom(ts: seq<Track>, i: nat): Result<seq<Track>>
    requires i <= |ts|
    decreases |ts| - i
  {
    if i == |ts| then Ok(ts)
    else
      var c := ClampTrack(ts[i]);
      if c.idx0 > c.idx1 then Err(IndexOrder(c.num)) else ClampFrom(ts[i := c], i + 1)
  }

  /**
   * Clamping succeeds exactly when every clamped track is ordered, and then
   * clamps every track from `i` on; otherwise it reports the first track
   * that is not ordered.
   */
  lemma {:induction false} ClampFromSpec(ts: seq<Track>, i: nat)
    requires i <= |ts|
    ensures ClampFrom(ts, i).Ok? <==> forall k :: i <= k < |ts| ==> Ordered(ClampTrack(ts[k]))
    ensures ClampFrom(ts, i).Ok? ==>
      var r := ClampFrom(ts, i).value;
      |r| == |ts| && r[..i] == ts[..i] && forall k :: i <= k < |ts| ==> r[k] == ClampTrack(ts[k])
    ensures ClampFrom(ts, i).Err? ==>
      exists j :: i <= j < |ts| && !Ordered(ClampTrack(ts[j]))
        && ClampFrom(ts, i).error == IndexOrder(ts[j].num)
        && forall k :: i <= k < j ==> Ordered(ClampTrack(ts[k]))
    decreases |ts| - i
  {
    if i < |ts| {
      var c := ClampTrack(ts[i]);
      if c.idx0 <= c.idx1 {
        var ts' := ts[i := c];
        ClampFromSpec(ts', i + 1);
        assert ts'[..i] == ts[..i];
        assert forall k :: i < k < |ts| ==> ts'[k] == ts[k];
        if ClampFrom(ts', i + 1).Ok? {
          var r := ClampFrom(ts', i + 1).value;
          assert r[..i] == r[..i + 1][..i];
        }
      }
    }
  }

  // ---------------------------------------------------------------------------
  // The forward pass (bin2iso.c:794-860)

  /** The pass's state between two tracks: the table, `trackofs` and the warnings so far. */
  datatype Cursor = Cursor(tracks: seq<Track>, trackofs: nat, warnings: seq<Warning>)

  /** Every track's source file is known, with its bytes. */
  predicate FilesKnown(ts: seq<Track>, files: map<string, seq<Byte>>) {
    forall k :: 0 <= k < |ts| ==> ts[k].srcFile in files
  }

  /** What the pass never changes in a track: everything but idx1, startOfs and totalSectors. */
  function Fixed(t: Track): Track {
    t.(idx1 := 0, startOfs := 0, totalSectors := 0)
  }

  predicate SameShape(a: seq<Track>, b: seq<Track>) {
    |a| == |b| && forall k :: 0 <= k < |a| ==> Fixed(a[k]) == Fixed(b[k])
  }

  /** Whether track `i` is the last of its file: the last track, or followed by another file's. */
  predicate EndsFile(ts: seq<Track>, i: nat)
    requires i < |ts|
  {
    i + 1 == |ts| || ts[i].srcFile != ts[i + 1].srcFile
  }

  /** Whether a pregap of `p` sectors read from `pos` is kept under the policy. */
  function KeepGap(file: seq<Byte>, pos: nat, ss: nat, p: nat, policy: GapPolicy): Result<bool> {
    if policy.noGaps then Ok(false)
    else if !policy.autoGaps then Ok(true)
    else PregapVerdict(file, pos, ss, p)
  }

  /** `totalSectors += pregapframes` on an `int32_t` field. */
  function Lengthen(t: Track, p: nat): Track {
    t.(totalSectors := I32(t.totalSectors + p))
  }

  /**
   * The pregap part of one iteration: the track starts at the cursor; a
   * discarded pregap, or one kept as a postgap, is skipped by moving the
   * cursor and the start past it (`pregapframes * sectorSize` in `uint32_t`),
   * and a kept postgap lengthens the previous track when that is an audio
   * track of the same file; a pregap kept in place moves INDEX 01 back to
   * INDEX 00.
   */
  function GapStep(c: Cursor, i: nat, files: map<string, seq<Byte>>, policy: GapPolicy): (r: Result<Cursor>)
    requires i < |c.tracks| && FilesKnown(c.tracks, files)
    ensures r.Ok? ==> SameShape(c.tracks, r.value.tracks) && r.value.warnings == c.warnings
    ensures r.Ok? ==> r.value.tracks[i].startOfs == r.value.trackofs >= c.trackofs
    ensures r.Ok? ==> forall k :: 0 <= k < |c.tracks| && k != i && k != i - 1 ==> r.value.tracks[k] == c.tracks[k]
  {
    var t := c.tracks[i].(startOfs := c.trackofs);
    var p := U32(t.idx1 - t.idx0);
    if p == 0 then Ok(c.(tracks := c.tracks[i := t]))
    else
      match KeepGap(files[t.srcFile], c.trackofs, t.sectorSize, p, policy)
      case Err(e) => Err(e)
      case Ok(keep) =>
        if keep && !policy.allPostGaps then Ok(c.(tracks := c.tracks[i := t.(idx1 := t.idx0)]))
        else
          var ofs := c.trackofs + U32(p * t.sectorSize);
          var ts := if keep && i != 0 && c.trackofs != 0 && c.tracks[i - 1].mode.IsAudio()
            then c.tracks[i - 1 := Lengthen(c.tracks[i - 1], p)] else c.tracks;
          Ok(c.(tracks := ts[i := t.(startOfs := ofs)], trackofs := ofs))
  }

  /** Sets a track's sector count, moves the cursor and warns about an empty track. */
  function Finish(c: Cursor, i: nat, total: int, ofs: nat): Cursor
    requires i < |c.tracks|
  {
    var t := c.tracks[i];
    Cursor(c.tracks[i := t.(totalSectors := total)], ofs,
           c.warnings + if total == 0 then [EmptyTrack(t.num)] else [])
  }

  /**
   * The length part of one iteration: the last track of a file runs to the
   * end of the file and resets the cursor; any other track runs to the next
   * track's INDEX 00, and the cursor moves past its sectors.
   */
  function LengthStep(c: Cursor, i: nat, files: map<string, seq<Byte>>): (r: Result<Cursor>)
    requires i < |c.tracks| && FilesKnown(c.tracks, files)
    ensures r.Ok? ==> SameShape(c.tracks, r.value.tracks)
    ensures r.Ok? ==> r.value.tracks == c.tracks[i := c.tracks[i].(totalSectors := r.value.tracks[i].totalSectors)]
  {
    var t := c.tracks[i];
    if EndsFile(c.tracks, i) then
      var bytes := |files[t.srcFile]| - c.trackofs;
      if bytes < 0 then Err(PastFileEnd(t.num))
      else if t.sectorSize == 0 then Err(ZeroSectorSize(t.num))
      else
        var w := if bytes % t.sectorSize != 0 then [Unaligned(t.num)] else [];
        Ok(Finish(c.(warnings := c.warnings + w), i, I32(bytes / t.sectorSize), 0))
    else
      var next := c.tracks[i + 1];
      if t.idx1 > next.idx0 then Err(PastNextIndex0(t.num))
      else
        var total := I32(next.idx0 - t.idx1);
        Ok(Finish(c, i, total, c.trackofs + U32(total * t.sectorSize)))
  }

  /** One iteration of the pass over track `i`. */
  function TrackStep(c: Cursor, i: nat, files: map<string, seq<Byte>>, policy: GapPolicy): (r: Result<Cursor>)
    requires i < |c.tracks| && FilesKnown(c.tracks, files)
    ensures r.Ok? ==> SameShape(c.tracks, r.value.tracks) && FilesKnown(r.value.tracks, files)
  {
    match GapStep(c, i, files, policy)
    case Err(e) => Err(e)
    case Ok(g) => LengthStep(g, i, files)
  }

  /** The pass from track `i` on, stopping at the first error. */
  function PassFrom(c: Cursor, i: nat, files: map<string, seq<Byte>>, policy: GapPolicy): Result<Cursor>
    requires i <= |c.tracks| && FilesKnown(c.tracks, files)
    decreases |c.tracks| - i
  {
    if i == |c.tracks| then Ok(c)
    else
      match TrackStep(c, i, files, policy)
      case Err(e) => Err(e)
      case Ok(next) => PassFrom(next, i + 1, files, policy)
  }

  /** The geometry of a parsed table: clamping, then the pass from a zero cursor. */
  function Plan(ts: seq<Track>, files: map<string, seq<Byte>>, policy: GapPolicy): Result<Cursor>
    requires FilesKnown(ts, files)
  {
    match ClampFrom(ts, 0)
    case Err(e) => Err(e)
    case Ok(cs) =>
      ClampFromSpec(ts, 0);
      PassFrom(Cursor(cs, 0, []), 0, files, policy)
  }

  // ---------------------------------------------------------------------------
  // The rules of one iteration

  /**
   * The pregap rules for a clamped track with `p = idx1 - idx0` pregap
   * sectors: no pregap leaves everything but the start; a discarded pregap
   * (`noGaps`, or `autoGaps` and a silent gap) is skipped; a kept pregap
   * without `allPostGaps` stays in the track, which then starts at INDEX 00;
   * a kept pregap with `allPostGaps` is skipped and lengthens the previous
   * track only when that is an audio track and the cursor is not at the
   * start of a file.
   */
  lemma GapPolicyCases(c: Cursor, i: nat, files: map<string, seq<Byte>>, policy: GapPolicy)
    requires i < |c.tracks| && FilesKnown(c.tracks, files)
    requires Ordered(c.tracks[i]) && c.tracks[i].idx1 < Pow32
    ensures var t := c.tracks[i];
      var p := t.idx1 - t.idx0;
      var r := GapStep(c, i, files, policy);
      var verdict := PregapVerdict(files[t.srcFile], c.trackofs, t.sectorSize, p);
      var skip := c.trackofs + U32(p * t.sectorSize);
      && (p == 0 ==> r == Ok(c.(tracks := c.tracks[i := t.(startOfs := c.trackofs)])))
      && (p > 0 && (policy.noGaps || (policy.autoGaps && verdict == Ok(false))) ==>
            r == Ok(c.(tracks := c.tracks[i := t.(startOfs := skip)], trackofs := skip)))
      && (p > 0 && !policy.noGaps && policy.autoGaps && verdict.Err? ==> r == Err(verdict.error))
      && (p > 0 && !policy.noGaps && (!policy.autoGaps || verdict == Ok(true)) && !policy.allPostGaps ==>
            r == Ok(c.(tracks := c.tracks[i := t.(startOfs := c.trackofs, idx1 := t.idx0)])))
      && (p > 0 && !policy.noGaps && (!policy.autoGaps || verdict == Ok(true)) && policy.allPostGaps ==>
            && r.Ok? && r.value.trackofs == skip && r.value.tracks[i] == t.(startOfs := skip)
            && (i > 0 && c.trackofs != 0 && c.tracks[i - 1].mode.IsAudio() ==>
                  r.value.tracks[i - 1] == Lengthen(c.tracks[i - 1], p))
            && (i > 0 && (c.trackofs == 0 || !c.tracks[i - 1].mode.IsAudio()) ==>
                  r.value.tracks[i - 1] == c.tracks[i - 1]))
  {
  }

  /**
   * The length rules: the last track of a file gets the sectors between the
   * cursor and the end of the file (an error when the cursor is past the
   * end, a warning for a partial sector) and resets the cursor; another
   * track gets the sectors up to the next track's INDEX 00 (an error when
   * its INDEX 01 is past it), and the cursor moves to where the next track
   * starts, the end of this one.
   */
  lemma LengthCases(c: Cursor, i: nat, files: map<string, seq<Byte>>)
    requires i < |c.tracks| && FilesKnown(c.tracks, files)
    requires c.tracks[i].startOfs == c.trackofs
    ensures var t := c.tracks[i];
      var r := LengthStep(c, i, files);
      var size := |files[t.srcFile]|;
      && (EndsFile(c.tracks, i) ==>
            && (r.Ok? <==> c.trackofs <= size && t.sectorSize > 0)
            && (c.trackofs > size ==> r == Err(PastFileEnd(t.num)))
            && (r.Ok? ==>
                  && r.value.trackofs == 0
                  && r.value.tracks[i].totalSectors == I32((size - c.trackofs) / t.sectorSize)
                  && (Unaligned(t.num) in r.value.warnings[|c.warnings|..]
                      <==> (size - c.trackofs) % t.sectorSize != 0)))
      && (!EndsFile(c.tracks, i) ==>
            && (r.Ok? <==> t.idx1 <= c.tracks[i + 1].idx0)
            && (r.Err? ==> r.error == PastNextIndex0(t.num))
            && (r.Ok? && c.tracks[i + 1].idx0 - t.idx1 < 0x8000_0000 ==>
                  && r.value.tracks[i].totalSectors == c.tracks[i + 1].idx0 - t.idx1
                  && r.value.trackofs == t.startOfs + U32(r.value.tracks[i].totalSectors * t.sectorSize)))
      && (r.Ok? ==> (EmptyTrack(t.num) in r.value.warnings[|c.warnings|..] <==> r.value.tracks[i].totalSectors == 0))
  {
    var t := c.tracks[i];
    var r := LengthStep(c, i, files);
    if r.Ok? {
      var w := r.value.warnings[|c.warnings|..];
      if EndsFile(c.tracks, i) {
        var bytes := |files[t.srcFile]| - c.trackofs;
        var u: seq<Warning> := if bytes % t.sectorSize != 0 then [Unaligned(t.num)] else [];
        var e: seq<Warning> := if r.value.tracks[i].totalSectors == 0 then [EmptyTrack(t.num)] else [];
        assert r.value.warnings == c.warnings + u + e;
        assert w == u + e;
      } else {
        var e: seq<Warning> := if r.value.tracks[i].totalSectors == 0 then [EmptyTrack(t.num)] else [];
        assert w == e;
      }
    }
  }

  // ---------------------------------------------------------------------------
  // What the pass guarantees

  /** A track whose sectors, as counted, all lie inside its source file. */
  predicate WithinFile(t: Track, files: map<string, seq<Byte>>)
    requires t.srcFile in files
  {
    t.sectorSize > 0
    && (t.totalSectors >= 0 ==> t.startOfs + Times(t.totalSectors, t.sectorSize) <= |files[t.srcFile]|)
  }

  /**
   * A table resolved up to track `n`: every track ordered; the first `n` have
   * a start inside the file system's offsets, and those that end their file
   * lie inside it.
   */
  predicate Resolved(ts: seq<Track>, files: map<string, seq<Byte>>, n: nat)
    requires n <= |ts| && FilesKnown(ts, files)
  {
    && (forall k :: 0 <= k < |ts| ==> Ordered(ts[k]))
    && (forall k :: 0 <= k < n ==> ts[k].startOfs >= 0)
    && (forall k :: 0 <= k < n && EndsFile(ts, k) ==> WithinFile(ts[k], files))
  }

  lemma EndsFileShape(a: seq<Track>, b: seq<Track>, k: nat)
    requires SameShape(a, b) && k < |a|
    ensures EndsFile(a, k) == EndsFile(b, k)
  {
    assert Fixed(a[k]).srcFile == a[k].srcFile && Fixed(b[k]).srcFile == b[k].srcFile;
    if k + 1 < |a| {
      assert Fixed(a[k + 1]).srcFile == a[k + 1].srcFile && Fixed(b[k + 1]).srcFile == b[k + 1].srcFile;
    }
  }

  /** An `int32_t` conversion that lands on a non-negative value never grows a non-negative number. */
  lemma I32NotAbove(x: int)
    requires x >= 0 && I32(x) >= 0
    ensures I32(x) <= x
  {
  }

  /** Whole sectors fit in the bytes they were counted from. */
  lemma WholeSectorsFit(bytes: nat, ss: nat, total: nat)
    requires ss > 0 && total <= bytes / ss
    ensures Times(total, ss) <= bytes
  {
    var q := bytes / ss;
    assert q * ss + bytes % ss == bytes;
    TimesIsProduct(q, ss);
    TimesMonotone(total, q, ss);
  }

  /**
   * One iteration keeps the table resolved, one track further; after the
   * last track of a file the cursor is 0, so the postgap rule never
   * lengthens a track that ends its file.
   */
  lemma StepResolved(c: Cursor, i: nat, files: map<string, seq<Byte>>, policy: GapPolicy)
    requires i < |c.tracks| && FilesKnown(c.tracks, files) && Resolved(c.tracks, files, i)
    requires i > 0 && EndsFile(c.tracks, i - 1) ==> c.trackofs == 0
    requires TrackStep(c, i, files, policy).Ok?
    ensures var n := TrackStep(c, i, files, policy).value;
      && FilesKnown(n.tracks, files) && Resolved(n.tracks, files, i + 1)
      && (EndsFile(n.tracks, i) ==> n.trackofs == 0)
  {
    var g := GapStep(c, i, files, policy).value;
    var n := TrackStep(c, i, files, policy).value;
    assert n == LengthStep(g, i, files).value;
    forall k | 0 <= k < |c.tracks|
      ensures EndsFile(g.tracks, k) == EndsFile(c.tracks, k) && EndsFile(n.tracks, k) == EndsFile(c.tracks, k)
    {
      EndsFileShape(c.tracks, g.tracks, k);
      EndsFileShape(g.tracks, n.tracks, k);
    }
    GapKeepsOrder(c, i, files, policy);
    assert forall k :: 0 <= k < |c.tracks| && k != i ==> n.tracks[k] == g.tracks[k];
    if i > 0 && EndsFile(c.tracks, i - 1) {
      assert g.tracks[i - 1] == c.tracks[i - 1];
    }
    if EndsFile(c.tracks, i) {
      LengthWithin(g, i, files);
    }
  }

  /** The last track of a file, once counted, lies inside the file, and the cursor is back at 0. */
  lemma LengthWithin(g: Cursor, i: nat, files: map<string, seq<Byte>>)
    requires i < |g.tracks| && FilesKnown(g.tracks, files) && EndsFile(g.tracks, i)
    requires g.tracks[i].startOfs == g.trackofs && LengthStep(g, i, files).Ok?
    ensures var n := LengthStep(g, i, files).value;
      n.trackofs == 0 && n.tracks[i].srcFile in files && WithinFile(n.tracks[i], files)
  {
    var t := g.tracks[i];
    var n := LengthStep(g, i, files).value;
    var bytes := |files[t.srcFile]| - g.trackofs;
    var total := I32(bytes / t.sectorSize);
    assert n.tracks[i] == t.(totalSectors := total);
    if total >= 0 {
      I32NotAbove(bytes / t.sectorSize);
      WholeSectorsFit(bytes, t.sectorSize, total);
    }
  }

  /** The pregap part keeps every track ordered: it only ever moves INDEX 01 back to INDEX 00. */
  lemma GapKeepsOrder(c: Cursor, i: nat, files: map<string, seq<Byte>>, policy: GapPolicy)
    requires i < |c.tracks| && FilesKnown(c.tracks, files)
    requires forall k :: 0 <= k < |c.tracks| ==> Ordered(c.tracks[k])
    requires GapStep(c, i, files, policy).Ok?
    ensures forall k :: 0 <= k < |c.tracks| ==> Ordered(GapStep(c, i, files, policy).value.tracks[k])
  {
  }

  /** The pass from track `i` on keeps the table's shape and leaves it resolved to its end. */
  lemma {:induction false} PassResolved(c: Cursor, i: nat, files: map<string, seq<Byte>>, policy: GapPolicy)
    requires i <= |c.tracks| && FilesKnown(c.tracks, files) && Resolved(c.tracks, files, i)
    requires i > 0 && EndsFile(c.tracks, i - 1) ==> c.trackofs == 0
    ensures PassFrom(c, i, files, policy).Ok? ==>
      var r := PassFrom(c, i, files, policy).value.tracks;
      SameShape(c.tracks, r) && FilesKnown(r, files) && Resolved(r, files, |r|)
    decreases |c.tracks| - i
  {
    if i < |c.tracks| && TrackStep(c, i, files, policy).Ok? {
      var n := TrackStep(c, i, files, policy).value;
      StepResolved(c, i, files, policy);
      PassResolved(n, i + 1, files, policy);
    }
  }

  /**
   * The geometry of a whole table: when it succeeds, every track keeps its
   * mode, number, clamped INDEX 00, layout and files; every track is ordered
   * and starts at a non-negative offset; and every track that ends its file
   * has its counted sectors inside the file.
   */
  lemma PlanResolved(ts: seq<Track>, files: map<string, seq<Byte>>, policy: GapPolicy)
    requires FilesKnown(ts, files)
    ensures Plan(ts, files, policy).Ok? ==>
      var r := Plan(ts, files, policy).value.tracks;
      && |r| == |ts| && FilesKnown(r, files) && Resolved(r, files, |r|)
      && forall k :: 0 <= k < |ts| ==> Fixed(r[k]) == Fixed(ClampTrack(ts[k]))
  {
    ClampFromSpec(ts, 0);
    if ClampFrom(ts, 0).Ok? {
      var cs := ClampFrom(ts, 0).value;
      PassResolved(Cursor(cs, 0, []), 0, files, policy);
    }
  }

  // ---------------------------------------------------------------------------
  // Every track inside its file

  /** A track starts inside its file and, when its count is not negative, ends inside it. */
  predicate InsideFile(t: Track, files: map<string, seq<Byte>>)
    requires t.srcFile in files
  {
    t.startOfs <= |files[t.srcFile]|
    && (t.totalSectors >= 0 ==> t.startOfs + Times(t.totalSectors, t.sectorSize) <= |files[t.srcFile]|)
  }

  /** Bounds under which no `uint32_t` product and no `int32_t` count of the pass wraps. */
  const MaxSectors: nat := 0x10_0000
  const MaxSectorSize: nat := 0x1000

  predicate NoWrap(ts: seq<Track>) {
    forall k :: 0 <= k < |ts| ==> ts[k].idx1 < MaxSectors && ts[k].sectorSize <= MaxSectorSize
  }

  /**
   * Wherever the postgap rule may lengthen a track, that audio track's
   * sectors are no larger than those of the track after it in the same file.
   */
  predicate PostgapSizes(ts: seq<Track>) {
    forall k :: 0 <= k < |ts| - 1 && ts[k].mode.IsAudio() && ts[k].srcFile == ts[k + 1].srcFile ==>
      ts[k].sectorSize <= ts[k + 1].sectorSize
  }

  /** Where a track's counted sectors end. */
  function EndOfs(t: Track): int
    requires t.totalSectors >= 0
  {
    t.startOfs + Times(t.totalSectors, t.sectorSize)
  }

  /** A track that does not end its file ends where the next one starts, or before. */
  predicate Joins(ts: seq<Track>, k: nat)
    requires k < |ts|
  {
    !EndsFile(ts, k) ==> ts[k].totalSectors >= 0 && EndOfs(ts[k]) <= ts[k + 1].startOfs
  }

  /**
   * The first `n` tracks are linked up: the last track of a file starts
   * inside it, and every other one joins the track after it (for the last
   * of the `n`, once that track is placed).
   */
  predicate Linked(ts: seq<Track>, files: map<string, seq<Byte>>, n: nat)
    requires n <= |ts| && FilesKnown(ts, files)
  {
    && (forall k :: 0 <= k < n && EndsFile(ts, k) ==> ts[k].startOfs <= |files[ts[k].srcFile]|)
    && (forall k :: 0 <= k < n && !EndsFile(ts, k) ==> ts[k].totalSectors >= 0)
    && (forall k :: 0 <= k < n - 1 ==> Joins(ts, k))
  }

  /**
   * The pass's state after `n` tracks with cursor `ofs`: linked, the cursor
   * back at 0 after the last track of a file, and otherwise the track just
   * counted ends at the cursor or before, with no more sectors than the next
   * INDEX 00.
   */
  predicate Chained(ts: seq<Track>, files: map<string, seq<Byte>>, n: nat, ofs: nat)
    requires n <= |ts| && FilesKnown(ts, files)
  {
    && Linked(ts, files, n)
    && (0 < n && EndsFile(ts, n - 1) ==> ofs == 0)
    && (0 < n && !EndsFile(ts, n - 1) ==>
          0 <= ts[n - 1].totalSectors <= ts[n].idx0 && EndOfs(ts[n - 1]) <= ofs)
  }

  lemma {:induction false} TimesSum(a: nat, b: nat, d: nat)
    ensures Times(a + b, d) == Times(a, d) + Times(b, d)
    decreases b
  {
    if b > 0 {
      TimesSum(a, b - 1, d);
    }
  }

  lemma {:induction false} TimesWider(k: nat, a: nat, b: nat)
    requires a <= b
    ensures Times(k, a) <= Times(k, b)
  {
    if k > 0 {
      TimesWider(k - 1, a, b);
    }
  }

  /** Within the bounds of NoWrap a product fits in `uint32_t`. */
  lemma SmallProduct(k: nat, d: nat)
    requires k < MaxSectors && d <= MaxSectorSize
    ensures k * d == Times(k, d) < Pow32 && U32(k * d) == Times(k, d)
  {
    TimesIsProduct(k, d);
    TimesWider(k, d, MaxSectorSize);
    TimesIsProduct(k, MaxSectorSize);
  }

  /** Lengthening an audio track by `p` sectors no larger than the gap's keeps it before the gap's end. */
  lemma PostgapEnd(t: Track, p: nat, gapSize: nat, ofs: int)
    requires t.totalSectors >= 0 && EndOfs(t) <= ofs && t.sectorSize <= gapSize
    ensures t.startOfs + Times(t.totalSectors + p, t.sectorSize) <= ofs + Times(p, gapSize)
  {
    TimesSum(t.totalSectors, p, t.sectorSize);
    TimesWider(p, t.sectorSize, gapSize);
  }

  /** The sectors of a table of the same shape satisfy the same size conditions. */
  lemma ShapeKeepsSizes(a: seq<Track>, b: seq<Track>)
    requires SameShape(a, b) && PostgapSizes(a)
    ensures PostgapSizes(b)
  {
    forall k | 0 <= k < |b|
      ensures b[k].mode == a[k].mode && b[k].srcFile == a[k].srcFile && b[k].sectorSize == a[k].sectorSize
    {
      assert Fixed(a[k]) == Fixed(b[k]);
    }
  }

  /**
   * What the pregap step does to the track before: nothing, or, when the
   * cursor is not 0 and that track is audio, the postgap of `p` sectors,
   * with the cursor moved past the gap.
   */
  lemma GapPrevious(c: Cursor, i: nat, files: map<string, seq<Byte>>, policy: GapPolicy)
    requires 0 < i < |c.tracks| && FilesKnown(c.tracks, files) && GapStep(c, i, files, policy).Ok?
    ensures var g := GapStep(c, i, files, policy).value;
      var t := c.tracks[i];
      var p := U32(t.idx1 - t.idx0);
      || g.tracks[i - 1] == c.tracks[i - 1]
      || (&& c.trackofs != 0 && c.tracks[i - 1].mode.IsAudio()
          && g.tracks[i - 1] == Lengthen(c.tracks[i - 1], p)
          && g.trackofs == c.trackofs + U32(p * t.sectorSize))
  {
  }

  /**
   * A postgap within the bounds of NoWrap: the track before, which then
   * shares the gap's file, gains exactly the gap's sectors, and the cursor
   * moves by exactly the gap's bytes.
   */
  lemma GapPostgap(c: Cursor, i: nat, files: map<string, seq<Byte>>, policy: GapPolicy)
    requires 0 < i < |c.tracks| && FilesKnown(c.tracks, files) && GapStep(c, i, files, policy).Ok?
    requires Ordered(c.tracks[i]) && c.tracks[i].idx1 < MaxSectors && c.tracks[i].sectorSize <= MaxSectorSize
    requires EndsFile(c.tracks, i - 1) ==> c.trackofs == 0
    requires !EndsFile(c.tracks, i - 1) ==> 0 <= c.tracks[i - 1].totalSectors <= c.tracks[i].idx0
    ensures var g := GapStep(c, i, files, policy).value;
      var prev := c.tracks[i - 1];
      var t := c.tracks[i];
      || g.tracks[i - 1] == prev
      || (&& !EndsFile(c.tracks, i - 1) && prev.mode.IsAudio()
          && g.tracks[i - 1] == prev.(totalSectors := prev.totalSectors + (t.idx1 - t.idx0))
          && g.trackofs == c.trackofs + Times(t.idx1 - t.idx0, t.sectorSize))
  {
    var t := c.tracks[i];
    var p := t.idx1 - t.idx0;
    GapPrevious(c, i, files, policy);
    SmallProduct(p, t.sectorSize);
  }

  /** The pregap step only ever moves an INDEX 01 back. */
  lemma GapIndices(c: Cursor, i: nat, files: map<string, seq<Byte>>, policy: GapPolicy)
    requires i < |c.tracks| && FilesKnown(c.tracks, files) && GapStep(c, i, files, policy).Ok?
    requires forall k :: 0 <= k < |c.tracks| ==> Ordered(c.tracks[k])
    ensures var g := GapStep(c, i, files, policy).value;
      forall k :: 0 <= k < |c.tracks| ==> g.tracks[k].idx1 <= c.tracks[k].idx1
  {
  }

  /** Tables of the same shape have the same files and the same file ends. */
  lemma ShapeKeepsFiles(a: seq<Track>, b: seq<Track>)
    requires SameShape(a, b)
    ensures forall k :: 0 <= k < |a| ==> b[k].srcFile == a[k].srcFile
    ensures forall k :: 0 <= k < |a| ==> EndsFile(b, k) == EndsFile(a, k)
  {
    forall k | 0 <= k < |a|
      ensures b[k].srcFile == a[k].srcFile && EndsFile(b, k) == EndsFile(a, k)
    {
      EndsFileShape(a, b, k);
      assert Fixed(b[k]) == Fixed(a[k]);
    }
  }

  /** The pregap step keeps the first `i` tracks linked, the track before possibly lengthened. */
  lemma GapLinked(c: Cursor, g: Cursor, i: nat, files: map<string, seq<Byte>>)
    requires 0 < i < |c.tracks| && FilesKnown(c.tracks, files) && SameShape(c.tracks, g.tracks)
    requires Linked(c.tracks, files, i)
    requires forall k :: 0 <= k < |c.tracks| && k != i && k != i - 1 ==> g.tracks[k] == c.tracks[k]
    requires g.tracks[i - 1].startOfs == c.tracks[i - 1].startOfs
    requires EndsFile(c.tracks, i - 1) ==> g.tracks[i - 1] == c.tracks[i - 1]
    requires !EndsFile(c.tracks, i - 1) ==> g.tracks[i - 1].totalSectors >= 0
    ensures FilesKnown(g.tracks, files) && Linked(g.tracks, files, i)
  {
    ShapeKeepsFiles(c.tracks, g.tracks);
    assert FilesKnown(g.tracks, files);
    forall k | 0 <= k < i && EndsFile(g.tracks, k)
      ensures g.tracks[k].startOfs <= |files[g.tracks[k].srcFile]|
    {
      assert EndsFile(c.tracks, k) && g.tracks[k] == c.tracks[k];
    }
    forall k | 0 <= k < i && !EndsFile(g.tracks, k)
      ensures g.tracks[k].totalSectors >= 0
    {
      assert !EndsFile(c.tracks, k);
    }
    forall k | 0 <= k < i - 1
      ensures Joins(g.tracks, k)
    {
      assert Joins(c.tracks, k) && g.tracks[k] == c.tracks[k];
      assert g.tracks[k + 1].startOfs == c.tracks[k + 1].startOfs;
    }
  }

  /**
   * The pregap step keeps the first `i` tracks linked and joins track `i - 1`
   * to track `i`: a postgap adds no more bytes to the track before than the
   * cursor skips.
   */
  lemma GapChain(c: Cursor, i: nat, files: map<string, seq<Byte>>, policy: GapPolicy)
    requires i < |c.tracks| && FilesKnown(c.tracks, files) && GapStep(c, i, files, policy).Ok?
    requires forall k :: 0 <= k < |c.tracks| ==> Ordered(c.tracks[k])
    requires Chained(c.tracks, files, i, c.trackofs) && NoWrap(c.tracks) && PostgapSizes(c.tracks)
    ensures var g := GapStep(c, i, files, policy).value;
      && FilesKnown(g.tracks, files) && Linked(g.tracks, files, i) && (0 < i ==> Joins(g.tracks, i - 1))
      && NoWrap(g.tracks) && PostgapSizes(g.tracks)
  {
    var g := GapStep(c, i, files, policy).value;
    GapIndices(c, i, files, policy);
    if 0 < i {
      GapPostgap(c, i, files, policy);
    }
    GapChainFacts(c, g, i, files);
  }

  /** GapChain, from the facts the pregap step establishes. */
  lemma GapChainFacts(c: Cursor, g: Cursor, i: nat, files: map<string, seq<Byte>>)
    requires i < |c.tracks| && FilesKnown(c.tracks, files) && SameShape(c.tracks, g.tracks)
    requires Chained(c.tracks, files, i, c.trackofs) && NoWrap(c.tracks) && PostgapSizes(c.tracks)
    requires forall k :: 0 <= k < |c.tracks| && k != i && k != i - 1 ==> g.tracks[k] == c.tracks[k]
    requires forall k :: 0 <= k < |c.tracks| ==> g.tracks[k].idx1 <= c.tracks[k].idx1
    requires g.tracks[i].startOfs == g.trackofs >= c.trackofs && Ordered(c.tracks[i])
    requires 0 < i ==>
      var prev := c.tracks[i - 1];
      var t := c.tracks[i];
      || g.tracks[i - 1] == prev
      || (&& !EndsFile(c.tracks, i - 1) && prev.mode.IsAudio()
          && g.tracks[i - 1] == prev.(totalSectors := prev.totalSectors + (t.idx1 - t.idx0))
          && g.trackofs == c.trackofs + Times(t.idx1 - t.idx0, t.sectorSize))
    ensures && FilesKnown(g.tracks, files) && Linked(g.tracks, files, i) && (0 < i ==> Joins(g.tracks, i - 1))
            && NoWrap(g.tracks) && PostgapSizes(g.tracks)
  {
    ShapeKeepsSizes(c.tracks, g.tracks);
    ShapeKeepsFiles(c.tracks, g.tracks);
    if 0 < i {
      var prev := c.tracks[i - 1];
      var t := c.tracks[i];
      if g.tracks[i - 1] != prev {
        PostgapEnd(prev, t.idx1 - t.idx0, t.sectorSize, c.trackofs);
      }
      assert Joins(g.tracks, i - 1);
      GapLinked(c, g, i, files);
    }
  }

  /**
   * The length step places track `i`: the last track of a file starts inside
   * it, and any other track ends exactly at the new cursor.
   */
  lemma LengthChain(g: Cursor, i: nat, files: map<string, seq<Byte>>)
    requires i < |g.tracks| && FilesKnown(g.tracks, files) && LengthStep(g, i, files).Ok?
    requires forall k :: 0 <= k < |g.tracks| ==> Ordered(g.tracks[k])
    requires Linked(g.tracks, files, i) && (0 < i ==> Joins(g.tracks, i - 1)) && NoWrap(g.tracks)
    requires g.tracks[i].startOfs == g.trackofs
    ensures var n := LengthStep(g, i, files).value;
      FilesKnown(n.tracks, files) && Chained(n.tracks, files, i + 1, n.trackofs) && NoWrap(n.tracks)
  {
    var n := LengthStep(g, i, files).value;
    var t := g.tracks[i];
    LengthCases(g, i, files);
    forall k | 0 <= k < |g.tracks|
      ensures EndsFile(n.tracks, k) == EndsFile(g.tracks, k)
    {
      EndsFileShape(g.tracks, n.tracks, k);
    }
    if !EndsFile(g.tracks, i) {
      var total := n.tracks[i].totalSectors;
      assert total == g.tracks[i + 1].idx0 - t.idx1;
      SmallProduct(total, t.sectorSize);
      assert EndOfs(n.tracks[i]) == n.trackofs;
    }
    forall k | 0 <= k < i
      ensures Joins(n.tracks, k)
    {
      assert Joins(g.tracks, k);
    }
  }

  /** One iteration keeps the pass chained, one track further. */
  lemma StepChained(c: Cursor, i: nat, files: map<string, seq<Byte>>, policy: GapPolicy)
    requires i < |c.tracks| && FilesKnown(c.tracks, files) && TrackStep(c, i, files, policy).Ok?
    requires Resolved(c.tracks, files, i) && Chained(c.tracks, files, i, c.trackofs)
    requires NoWrap(c.tracks) && PostgapSizes(c.tracks)
    ensures var n := TrackStep(c, i, files, policy).value;
      && FilesKnown(n.tracks, files) && Resolved(n.tracks, files, i + 1)
      && Chained(n.tracks, files, i + 1, n.trackofs) && NoWrap(n.tracks) && PostgapSizes(n.tracks)
  {
    var g := GapStep(c, i, files, policy).value;
    var n := TrackStep(c, i, files, policy).value;
    assert n == LengthStep(g, i, files).value;
    StepResolved(c, i, files, policy);
    GapKeepsOrder(c, i, files, policy);
    GapChain(c, i, files, policy);
    LengthChain(g, i, files);
    ShapeKeepsSizes(g.tracks, n.tracks);
  }

  /** The pass from track `i` on keeps the table chained to its end. */
  lemma {:induction false} PassChained(c: Cursor, i: nat, files: map<string, seq<Byte>>, policy: GapPolicy)
    requires i <= |c.tracks| && FilesKnown(c.tracks, files)
    requires Resolved(c.tracks, files, i) && Chained(c.tracks, files, i, c.trackofs)
    requires NoWrap(c.tracks) && PostgapSizes(c.tracks)
    ensures PassFrom(c, i, files, policy).Ok? ==>
      var r := PassFrom(c, i, files, policy).value;
      FilesKnown(r.tracks, files) && Resolved(r.tracks, files, |r.tracks|) && Linked(r.tracks, files, |r.tracks|)
    decreases |c.tracks| - i
  {
    if i < |c.tracks| && TrackStep(c, i, files, policy).Ok? {
      var n := TrackStep(c, i, files, policy).value;
      StepChained(c, i, files, policy);
      PassChained(n, i + 1, files, policy);
    }
  }

  /** In a resolved and linked table, every track from `k` on lies inside its file. */
  lemma {:induction false} InsideFrom(ts: seq<Track>, files: map<string, seq<Byte>>, k: nat)
    requires k < |ts| && FilesKnown(ts, files)
    requires Resolved(ts, files, |ts|) && Linked(ts, files, |ts|)
    ensures InsideFile(ts[k], files)
    decreases |ts| - k
  {
    if !EndsFile(ts, k) {
      InsideFrom(ts, files, k + 1);
      assert Joins(ts, k);
    }
  }

  /**
   * The bound the pass is meant to keep: when no product wraps and a
   * postgap never counts in a smaller sector size than the gap's, every
   * track of a successful plan starts and ends inside its source file.
   */
  lemma PlanInside(ts: seq<Track>, files: map<string, seq<Byte>>, policy: GapPolicy)
    requires FilesKnown(ts, files) && NoWrap(ts) && PostgapSizes(ts)
    ensures Plan(ts, files, policy).Ok? ==>
      var r := Plan(ts, files, policy).value.tracks;
      FilesKnown(r, files) && forall k :: 0 <= k < |r| ==> InsideFile(r[k], files)
  {
    ClampFromSpec(ts, 0);
    if ClampFrom(ts, 0).Ok? {
      var cs := ClampFrom(ts, 0).value;
      assert forall k :: 0 <= k < |cs| ==>
        cs[k].mode == ts[k].mode && cs[k].srcFile == ts[k].srcFile && cs[k].sectorSize == ts[k].sectorSize;
      var start := Cursor(cs, 0, []);
      PassChained(start, 0, files, policy);
      if PassFrom(start, 0, files, policy).Ok? {
        var r := PassFrom(start, 0, files, policy).value.tracks;
        forall k | 0 <= k < |r|
          ensures InsideFile(r[k], files)
        {
          InsideFrom(r, files, k);
        }
      }
    }
  }

  /**
   * The program as written: a postgap counts the previous track's extra
   * sectors in that track's own size, while the cursor skips them in the
   * gap's size. An AUDIO/2448 track followed in a 29184-byte file by an
   * AUDIO track with a 2-sector pregap ends 192 bytes past the file.
   */
  lemma PostgapOverrun(file: seq<Byte>)
    requires |file| == 29184
    ensures var files := map["cd.bin" := file];
      var t1 := Track(AudioSub, 1, 0, 0, 0, 0, 2448, 0, 96, "cd.bin", "cd-01.wav");
      var t2 := Track(Audio, 2, 10, 12, 0, 0, 2352, 0, 0, "cd.bin", "cd-02.wav");
      && NoWrap([t1, t2]) && !PostgapSizes([t1, t2])
      && Plan([t1, t2], files, DefaultPolicy)
         == Ok(Cursor([t1.(totalSectors := 12), t2.(startOfs := 29184)], 0, [EmptyTrack(2)]))
      && !InsideFile(t1.(totalSectors := 12), files)
  {
    var files := map["cd.bin" := file];
    var t1 := Track(AudioSub, 1, 0, 0, 0, 0, 2448, 0, 96, "cd.bin", "cd-01.wav");
    var t2 := Track(Audio, 2, 10, 12, 0, 0, 2352, 0, 0, "cd.bin", "cd-02.wav");
    var ts := [t1, t2];
    assert ClampTrack(t1) == t1 && ClampTrack(t2) == t2;
    assert ts[0 := t1] == ts && ts[1 := t2] == ts;
    assert ClampFrom(ts, 2) == Ok(ts);
    assert ClampFrom(ts, 1) == Ok(ts);
    assert ClampFrom(ts, 0) == Ok(ts);
    OverrunFirst(file, t1, t2);
    OverrunSecond(file, t1, t2);
    var c2 := Cursor([t1.(totalSectors := 12), t2.(startOfs := 29184)], 0, [EmptyTrack(2)]);
    assert PassFrom(c2, 2, files, DefaultPolicy) == Ok(c2);
    TimesIsProduct(12, 2448);
  }

  /** The first track of PostgapOverrun: no pregap, and 10 sectors up to the next INDEX 00. */
  lemma OverrunFirst(file: seq<Byte>, t1: Track, t2: Track)
    requires t1 == Track(AudioSub, 1, 0, 0, 0, 0, 2448, 0, 96, "cd.bin", "cd-01.wav")
    requires t2 == Track(Audio, 2, 10, 12, 0, 0, 2352, 0, 0, "cd.bin", "cd-02.wav")
    ensures TrackStep(Cursor([t1, t2], 0, []), 0, map["cd.bin" := file], DefaultPolicy)
      == Ok(Cursor([t1.(totalSectors := 10), t2], 24480, []))
  {
    var files := map["cd.bin" := file];
    var ts := [t1, t2];
    var c0 := Cursor(ts, 0, []);
    assert ts[0 := t1] == ts;
    assert GapStep(c0, 0, files, DefaultPolicy) == Ok(c0);
    SmallProduct(10, 2448);
    var c1 := Cursor([t1.(totalSectors := 10), t2], 24480, []);
    assert !EndsFile(ts, 0) && I32(10 - 0) == 10;
    assert Finish(c0, 0, 10, 0 + U32(10 * 2448)) == c1;
    assert LengthStep(c0, 0, files) == Ok(c1);
  }

  /** The second track of PostgapOverrun: its kept 2-sector pregap becomes the first track's postgap. */
  lemma OverrunSecond(file: seq<Byte>, t1: Track, t2: Track)
    requires |file| == 29184
    requires t1 == Track(AudioSub, 1, 0, 0, 0, 0, 2448, 0, 96, "cd.bin", "cd-01.wav")
    requires t2 == Track(Audio, 2, 10, 12, 0, 0, 2352, 0, 0, "cd.bin", "cd-02.wav")
    ensures TrackStep(Cursor([t1.(totalSectors := 10), t2], 24480, []), 1, map["cd.bin" := file], DefaultPolicy)
      == Ok(Cursor([t1.(totalSectors := 12), t2.(startOfs := 29184)], 0, [EmptyTrack(2)]))
  {
    var files := map["cd.bin" := file];
    var c1 := Cursor([t1.(totalSectors := 10), t2], 24480, []);
    SmallProduct(2, 2352);
    assert KeepGap(file, 24480, 2352, 2, DefaultPolicy) == Ok(true);
    var g := Cursor([t1.(totalSectors := 12), t2.(startOfs := 29184)], 29184, []);
    assert files[t2.srcFile] == file && U32(12 - 10) == 2;
    assert Lengthen(c1.tracks[0], 2) == t1.(totalSectors := 12);
    assert c1.tracks[0 := t1.(totalSectors := 12)][1 := t2.(startOfs := 24480).(startOfs := 29184)] == g.tracks;
    assert GapStep(c1, 1, files, DefaultPolicy) == Ok(g);
    var c2 := Cursor(g.tracks, 0, [EmptyTrack(2)]);
    assert EndsFile(g.tracks, 1) && I32((29184 - 29184) / 2352) == 0;
    assert Finish(g.(warnings := g.warnings + []), 1, 0, 0) == c2;
    assert LengthStep(g, 1, files) == Ok(c2);
  }

  /**
   * The postgap the previous track should gain: the whole sectors of its
   * own size that the `p` skipped sectors of the gap's size hold; `p` itself
   * when the two sizes agree.
   */
  function PostgapSectors(p: nat, gapSize: nat, prevSize: nat): (r: nat)
    requires prevSize > 0
    ensures Times(r, prevSize) <= Times(p, gapSize) < Times(r + 1, prevSize)
    ensures gapSize == prevSize ==> r == p
  {
    var bytes := Times(p, gapSize);
    var r := bytes / prevSize;
    TimesIsProduct(r, prevSize);
    TimesIsProduct(r + 1, prevSize);
    if gapSize == prevSize then
      TimesIsProduct(p, gapSize);
      DivUnique(bytes, prevSize, p, 0);
      r
    else
      r
  }

  /**
   * With the corrected count, a postgap never carries the previous track
   * past the gap it came from, whatever the two sector sizes.
   */
  lemma PostgapFits(prev: Track, p: nat, gapSize: nat, ofs: int)
    requires prev.sectorSize > 0 && prev.totalSectors >= 0 && EndOfs(prev) <= ofs
    ensures var n := prev.totalSectors + PostgapSectors(p, gapSize, prev.sectorSize);
      prev.startOfs + Times(n, prev.sectorSize) <= ofs + Times(p, gapSize)
  {
    TimesSum(prev.totalSectors, PostgapSectors(p, gapSize, prev.sectorSize), prev.sectorSize);
  }

  // ---------------------------------------------------------------------------
  // The program's loops over the track table

  /**
   * `IsoFromCue` after `ParseCue` (bin2iso.c:775-860): the clamping loop,
   * then the forward pass, both updating the entries of `tracks[]` in place.
   * It fails exactly when the plan does, with the same error; otherwise the
   * table is left as the plan resolves it, and the warnings are the plan's.
   */
  method IsoFromCue(tracks: array<Track>, files: map<string, seq<Byte>>, policy: GapPolicy)
    returns (r: Result<seq<Warning>>)
    requires FilesKnown(tracks[..], files)
    modifies tracks
    ensures var plan := Plan(old(tracks[..]), files, policy);
      && (r.Err? <==> plan.Err?)
      && (r.Err? ==> r.error == plan.error)
      && (r.Ok? ==> tracks[..] == plan.value.tracks && r.value == plan.value.warnings)
  {
    ghost var original := tracks[..];
    var clamped := ClampIndices(tracks);
    if clamped.Err? {
      return Err(clamped.error);
    }
    ClampFromSpec(original, 0);
    assert Plan(original, files, policy) == PassFrom(Cursor(tracks[..], 0, []), 0, files, policy);
    r := ForwardPass(tracks, files, policy);
  }

  /** The clamping loop (bin2iso.c:771-781), in place. */
  method ClampIndices(tracks: array<Track>) returns (r: Result<()>)
    modifies tracks
    ensures var c := ClampFrom(old(tracks[..]), 0);
      && (r.Err? <==> c.Err?)
      && (r.Err? ==> r.error == c.error)
      && (r.Ok? ==> tracks[..] == c.value)
  {
    ghost var original := tracks[..];
    var i := 0;
    while i < tracks.Length
      invariant 0 <= i <= tracks.Length
      invariant ClampFrom(original, 0) == ClampFrom(tracks[..], i)
    {
      ghost var before := tracks[..];
      var t := tracks[i];
      if t.idx0 < 0 {
        t := t.(idx0 := 0);
      }
      if t.idx1 < 0 {
        t := t.(idx1 := 0);
      }
      assert t == ClampTrack(before[i]);
      tracks[i] := t;
      if t.idx0 > t.idx1 {
        assert ClampFrom(before, i) == Err(IndexOrder(t.num));
        return Err(IndexOrder(t.num));
      }
      assert tracks[..] == before[i := t];
      i := i + 1;
    }
    assert ClampFrom(original, 0) == Ok(tracks[..]);
    return Ok(());
  }

  /** The forward pass (bin2iso.c:794-860) from a zero cursor, in place. */
  method ForwardPass(tracks: array<Track>, files: map<string, seq<Byte>>, policy: GapPolicy)
    returns (r: Result<seq<Warning>>)
    requires FilesKnown(tracks[..], files)
    modifies tracks
    ensures var pass := PassFrom(Cursor(old(tracks[..]), 0, []), 0, files, policy);
      && (r.Err? <==> pass.Err?)
      && (r.Err? ==> r.error == pass.error)
      && (r.Ok? ==> tracks[..] == pass.value.tracks && r.value == pass.value.warnings)
  {
    ghost var start := tracks[..];
    var trackofs: nat := 0;
    var warnings: seq<Warning> := [];
    var i := 0;
    while i < tracks.Length
      invariant 0 <= i <= tracks.Length
      invariant FilesKnown(tracks[..], files)
      invariant PassFrom(Cursor(start, 0, []), 0, files, policy)
        == PassFrom(Cursor(tracks[..], trackofs, warnings), i, files, policy)
    {
      ghost var c := Cursor(tracks[..], trackofs, warnings);
      var gap := GapPass(tracks, i, trackofs, warnings, files, policy);
      if gap.Err? {
        return Err(gap.error);
      }
      var len := LengthPass(tracks, i, gap.value, warnings, files);
      if len.Err? {
        return Err(len.error);
      }
      assert TrackStep(c, i, files, policy) == Ok(Cursor(tracks[..], len.value.0, len.value.1));
      trackofs, warnings := len.value.0, len.value.1;
      i := i + 1;
    }
    return Ok(warnings);
  }

  /**
   * The pregap part of one iteration of the pass (bin2iso.c:796-829), with
   * `CheckGaps` consulted under `autoGaps`.
   */
  method GapPass(tracks: array<Track>, i: nat, trackofs: nat, ghost warnings: seq<Warning>,
                 files: map<string, seq<Byte>>, policy: GapPolicy) returns (r: Result<nat>)
    requires i < tracks.Length && FilesKnown(tracks[..], files)
    modifies tracks
    ensures var g := GapStep(Cursor(old(tracks[..]), trackofs, warnings), i, files, policy);
      && (r.Err? <==> g.Err?)
      && (r.Err? ==> r.error == g.error)
      && (r.Ok? ==> tracks[..] == g.value.tracks && r.value == g.value.trackofs)
  {
    ghost var c := Cursor(tracks[..], trackofs, warnings);
    var t := tracks[i].(startOfs := trackofs);
    tracks[i] := t;
    var p := U32(t.idx1 - t.idx0);
    if p == 0 {
      return Ok(trackofs);
    }
    var keep := !policy.noGaps;
    if keep && policy.autoGaps {
      var verdict := CheckGaps(files[t.srcFile], trackofs, t.sectorSize, p);
      if verdict.Err? {
        return Err(verdict.error);
      }
      keep := verdict.value;
    }
    assert KeepGap(files[t.srcFile], trackofs, t.sectorSize, p, policy) == Ok(keep);
    if keep && !policy.allPostGaps {
      tracks[i] := t.(idx1 := t.idx0);
      return Ok(trackofs);
    }
    if keep && i != 0 && trackofs != 0 && tracks[i - 1].mode.IsAudio() {
      tracks[i - 1] := Lengthen(tracks[i - 1], p);
    }
    var ofs := trackofs + U32(p * t.sectorSize);
    tracks[i] := t.(startOfs := ofs);
    return Ok(ofs);
  }

  /**
   * The length part of one iteration of the pass (bin2iso.c:831-859): the new
   * cursor and the warnings so far.
   */
  method LengthPass(tracks: array<Track>, i: nat, trackofs: nat, warnings: seq<Warning>,
                    files: map<string, seq<Byte>>) returns (r: Result<(nat, seq<Warning>)>)
    requires i < tracks.Length && FilesKnown(tracks[..], files)
    modifies tracks
    ensures var l := LengthStep(Cursor(old(tracks[..]), trackofs, warnings), i, files);
      && (r.Err? <==> l.Err?)
      && (r.Err? ==> r.error == l.error)
      && (r.Ok? ==> tracks[..] == l.value.tracks && r.value == (l.value.trackofs, l.value.warnings))
  {
    var t := tracks[i];
    var ws := warnings;
    var ofs: nat;
    if i + 1 == tracks.Length || t.srcFile != tracks[i + 1].srcFile {
      var trackbytes := |files[t.srcFile]| - trackofs;
      if trackbytes < 0 {
        return Err(PastFileEnd(t.num));
      }
      if t.sectorSize == 0 {
        return Err(ZeroSectorSize(t.num));
      }
      if trackbytes % t.sectorSize != 0 {
        ws := ws + [Unaligned(t.num)];
      }
      tracks[i] := t.(totalSectors := I32(trackbytes / t.sectorSize));
      ofs := 0;
    } else {
      if t.idx1 > tracks[i + 1].idx0 {
        return Err(PastNextIndex0(t.num));
      }
      var total := I32(tracks[i + 1].idx0 - t.idx1);
      tracks[i] := t.(totalSectors := total);
      ofs := trackofs + U32(total * t.sectorSize);
    }
    ghost var l := LengthStep(Cursor(old(tracks[..]), trackofs, warnings), i, files);
    if tracks[i].totalSectors == 0 {
      ws := ws + [EmptyTrack(t.num)];
    }
    assert l.Ok? && l.value.trackofs == ofs && l.value.tracks == tracks[..];
    assert l.value.warnings == ws;
    return Ok((ofs, ws));
  }
}
