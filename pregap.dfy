/**
 * `CheckGaps` (bin2iso.c:727-765): whether the pregap of an audio track holds
 * sound. The pregap's sectors are read one after the other from the track's
 * start; in each, the first 2352 bytes are taken as 588 32-bit words and the
 * non-zero ones are counted. The gap is kept when more than 294 words, over
 * the whole gap, are non-zero.
 */
module Pregap {
  import opened Common

  /** Words of a sector that are looked at (`SIZERAW >> 2`). */
  const SectorWords: nat := SizeRaw / 4

  /** More non-zero words than this keep the gap (`SIZERAW >> 3`). */
  const KeepThreshold: nat := SizeRaw / 8

  /**
   * Byte `k` of the buffer a sector of `ss` bytes at `pos` was read into.
   * The words run over 2352 bytes whatever the sector size; bytes past the
   * sector are taken as zero.
   */
  function BufByte(file: seq<Byte>, pos: nat, ss: nat, k: nat): Byte {
    if k < ss && pos + k < |file| then file[pos + k] else 0
  }

  /** Whether word `w` of the buffer has a non-zero byte. */
  predicate WordNonZero(file: seq<Byte>, pos: nat, ss: nat, w: nat) {
    BufByte(file, pos, ss, 4 * w) != 0 || BufByte(file, pos, ss, 4 * w + 1) != 0
    || BufByte(file, pos, ss, 4 * w + 2) != 0 || BufByte(file, pos, ss, 4 * w + 3) != 0
  }

  /** The non-zero words among the first `w` of the sector at `pos`. */
  function NonZeroWords(file: seq<Byte>, pos: nat, ss: nat, w: nat): (c: nat)
    ensures c <= w
  {
    if w == 0 then 0
    else NonZeroWords(file, pos, ss, w - 1) + (if WordNonZero(file, pos, ss, w - 1) then 1 else 0)
  }

  /**
   * The non-zero words of `n` sectors from `pos`, or the failed read: a read
   * fails when the sector size is zero or fewer than `ss` bytes are left.
   */
  function PregapCount(file: seq<Byte>, pos: nat, ss: nat, n: nat): Result<nat>
    decreases n
  {
    if n == 0 then Ok(0)
    else if ss == 0 || pos + ss > |file| then Err(ReadFailed)
    else
      match PregapCount(file, pos + ss, ss, n - 1)
      case Err(e) => Err(e)
      case Ok(c) => Ok(NonZeroWords(file, pos, ss, SectorWords) + c)
  }

  /** The verdict: keep the gap when the `uint32_t` count exceeds 294. */
  function PregapVerdict(file: seq<Byte>, pos: nat, ss: nat, n: nat): Result<bool> {
    match PregapCount(file, pos, ss, n)
    case Err(e) => Err(e)
    case Ok(c) => Ok(U32(c) > KeepThreshold)
  }

  /** `count` added to a count, an error passed on. */
  function Plus(count: nat, r: Result<nat>): Result<nat> {
    match r
    case Err(e) => Err(e)
    case Ok(c) => Ok(count + c)
  }

  /**
   * `CheckGaps`: the sector loop with its read check and the word loop. The
   * program counts in a `uint32_t`; counting in `nat` and reducing once at
   * the end gives the same value.
   */
  method CheckGaps(file: seq<Byte>, start: nat, ss: nat, n: nat) returns (r: Result<bool>)
    ensures r == PregapVerdict(file, start, ss, n)
  {
    var count: nat := 0;
    var pos: nat, remaining: nat := start, n;
    while remaining != 0
      invariant PregapCount(file, start, ss, n) == Plus(count, PregapCount(file, pos, ss, remaining))
      decreases remaining
    {
      if ss == 0 || pos + ss > |file| {
        return Err(ReadFailed);
      }
      var words: nat := 0;
      var w := 0;
      while w < SectorWords
        invariant w <= SectorWords && words == NonZeroWords(file, pos, ss, w)
      {
        if WordNonZero(file, pos, ss, w) {
          words := words + 1;
        }
        w := w + 1;
      }
      count := count + words;
      pos := pos + ss;
      remaining := remaining - 1;
    }
    return Ok(U32(count) > KeepThreshold);
  }

  /** The gap check fails exactly when some sector of the gap cannot be read whole. */
  lemma {:induction false} PregapReadFails(file: seq<Byte>, pos: nat, ss: nat, n: nat)
    ensures PregapCount(file, pos, ss, n).Err? <==> n > 0 && (ss == 0 || pos + Times(n, ss) > |file|)
    decreases n
  {
    if n > 0 && ss > 0 && pos + ss <= |file| {
      PregapReadFails(file, pos + ss, ss, n - 1);
      TimesShift(n, ss);
    }
  }

  lemma TimesShift(n: nat, d: nat)
    requires n > 0
    ensures Times(n, d) == d + Times(n - 1, d)
  {
  }

  /** At most 588 words per sector are counted. */
  lemma {:induction false} PregapCountBound(file: seq<Byte>, pos: nat, ss: nat, n: nat)
    requires PregapCount(file, pos, ss, n).Ok?
    ensures PregapCount(file, pos, ss, n).value <= Times(n, SectorWords)
    decreases n
  {
    if n > 0 {
      PregapCountBound(file, pos + ss, ss, n - 1);
    }
  }

  /** Every word of a sector whose bytes are all zero is zero. */
  lemma {:induction false} SilentSectorWords(file: seq<Byte>, pos: nat, ss: nat, w: nat)
    requires pos + ss <= |file|
    requires forall k :: pos <= k < pos + ss ==> file[k] == 0
    ensures NonZeroWords(file, pos, ss, w) == 0
  {
    if w > 0 {
      SilentSectorWords(file, pos, ss, w - 1);
    }
  }

  /** A gap that reads back as nothing but zero bytes is discarded. */
  lemma {:induction false} SilentPregapDiscarded(file: seq<Byte>, pos: nat, ss: nat, n: nat)
    requires ss > 0 && pos + Times(n, ss) <= |file|
    requires forall k :: pos <= k < pos + Times(n, ss) ==> file[k] == 0
    ensures PregapCount(file, pos, ss, n) == Ok(0)
    ensures PregapVerdict(file, pos, ss, n) == Ok(false)
    decreases n
  {
    if n > 0 {
      TimesShift(n, ss);
      SilentSectorWords(file, pos, ss, SectorWords);
      SilentPregapDiscarded(file, pos + ss, ss, n - 1);
    }
  }

  /** A raw sector whose first 2352 bytes are all non-zero has all its 588 words non-zero. */
  lemma {:induction false} LoudSectorWords(file: seq<Byte>, pos: nat, ss: nat, w: nat)
    requires SizeRaw <= ss && pos + ss <= |file| && w <= SectorWords
    requires forall k :: pos <= k < pos + SizeRaw ==> file[k] != 0
    ensures NonZeroWords(file, pos, ss, w) == w
  {
    if w > 0 {
      LoudSectorWords(file, pos, ss, w - 1);
      assert file[pos + 4 * (w - 1)] != 0;
    }
  }

  /** A readable gap whose first raw sector has no zero byte is kept. */
  lemma LoudPregapKept(file: seq<Byte>, pos: nat, ss: nat, n: nat)
    requires n > 0 && SizeRaw <= ss && pos + Times(n, ss) <= |file|
    requires Times(n, SectorWords) < Pow32
    requires forall k :: pos <= k < pos + SizeRaw ==> file[k] != 0
    ensures PregapVerdict(file, pos, ss, n) == Ok(true)
  {
    PregapReadFails(file, pos, ss, n);
    PregapCountBound(file, pos, ss, n);
    TimesShift(n, ss);
    LoudSectorWords(file, pos, ss, SectorWords);
  }
}
