/**
 * Shared vocabulary of the bin2iso model: bytes, results, the fatal error
 * conditions (each `exit(1)` of the program), the track modes and the
 * track record, and decimal text as the program reads and prints it.
 */
module Common {

  /** An unsigned 8-bit value (`uint8_t`). */
  type Byte = b: int | 0 <= b < 256

  /** Width of C's `uint32_t`; values are wrapped with `% Pow32` where the program wraps. */
  const Pow32: int := 0x1_0000_0000

  /** Conversion of an integer to `uint32_t`: reduction modulo 2^32. */
  function U32(x: int): (r: nat)
    ensures r < Pow32
    ensures 0 <= x < Pow32 ==> r == x
  {
    x % Pow32
  }

  /** Conversion of an integer to `int32_t`: reduction into [-2^31, 2^31). */
  function I32(x: int): (r: int)
    ensures -0x8000_0000 <= r < 0x8000_0000
    ensures -0x8000_0000 <= x < 0x8000_0000 ==> r == x
  {
    (x + 0x8000_0000) % Pow32 - 0x8000_0000
  }

  /** `k` copies of `d` added up: `k * d` without multiplication, for cheap proofs. */
  function Times(k: nat, d: nat): nat {
    if k == 0 then 0 else Times(k - 1, d) + d
  }

  lemma {:induction false} TimesIsProduct(k: nat, d: nat)
    ensures Times(k, d) == k * d
  {
    if k > 0 {
      TimesIsProduct(k - 1, d);
      MulSucc(k - 1, d);
    }
  }

  /** More copies add up to more. */
  lemma {:induction false} TimesMonotone(a: nat, b: nat, d: nat)
    requires a <= b
    ensures Times(a, d) <= Times(b, d)
    decreases b
  {
    if a < b {
      TimesMonotone(a, b - 1, d);
    }
  }

  lemma MulSucc(a: int, b: int)
    ensures (a + 1) * b == a * b + b
  {
  }

  lemma MulNonneg(a: nat, b: nat)
    ensures a * b >= 0
  {
  }

  lemma MulAtLeast(a: int, b: nat)
    requires a >= 1
    ensures a * b >= b
  {
    MulSucc(a - 1, b);
    MulNonneg(a - 1, b);
  }

  /** Euclidean division has one quotient and remainder. */
  lemma DivUnique(a: int, d: nat, q: int, r: int)
    requires d > 0 && 0 <= r < d && a == q * d + r
    ensures a / d == q && a % d == r
  {
    var q', r' := a / d, a % d;
    assert a == q' * d + r';
    MulDiff(q', q, d);
    if q' > q {
      MulAtLeast(q' - q, d);
    } else if q' < q {
      MulAtLeast(q - q', d);
      MulDiff(q, q', d);
    }
  }

  lemma MulDiff(a: int, b: int, d: int)
    ensures (a - b) * d == a * d - b * d
  {
  }

  /** Subtracting whole multiples of `d` leaves the remainder modulo `d` alone. */
  lemma ModShift(x: int, q: int, d: nat)
    requires d > 0
    ensures (x - q * d) % d == x % d
  {
    var p := x / d;
    assert x == p * d + x % d;
    MulDiff(p, q, d);
    DivUnique(x - q * d, d, p - q, x % d);
  }

  /** `uint32_t` addition: reducing an operand first gives the same sum. */
  lemma U32Add(a: int, b: int)
    ensures U32(U32(a) + b) == U32(a + b)
  {
    ModShift(a + b, a / Pow32, Pow32);
    assert U32(a) + b == (a + b) - (a / Pow32) * Pow32;
  }

  /** `uint32_t` multiplication: reducing an operand first gives the same product. */
  lemma U32Mul(a: int, b: int)
    ensures U32(U32(a) * b) == U32(a * b)
  {
    var q := a / Pow32;
    assert a == q * Pow32 + U32(a);
    MulDiff(a, q * Pow32, b);
    assert U32(a) * b == a * b - (q * Pow32) * b;
    assert (q * Pow32) * b == (q * b) * Pow32;
    ModShift(a * b, q * b, Pow32);
  }

  /** The raw size of a physical CD sector (`SIZERAW`). */
  const SizeRaw: nat := 2352

  /** Capacity of the global track table (`MAXIMUM_TRACK_NUMBERS`). */
  const MaxTracks: nat := 100

  datatype Option<+T> = None | Some(value: T)

  /** Every way the conversion stops with `exit(1)`. */
  datatype Error =
    | UnpairedQuote            // FILE name opened a quote that is never closed
    | EmptyFileName            // FILE name is empty after stripping
    | TooManyTracks            // TRACK once the table holds 100 tracks
    | TrackBeforeFile          // TRACK with no FILE seen yet
    | CannotOpen(file: string) // the TRACK's source file cannot be opened
    | UnknownMode              // TRACK with a mode text not in the table
    | IndexWithoutTrack        // INDEX with no active TRACK
    | BadIndexNumber           // INDEX number 2 or more
    | PregapOnDataTrack        // INDEX 0 on a non-audio track
    | NoTracks                 // the sheet declared no TRACK at all
    | IndexOrder(num: int)     // index 0 after index 1 on a track
    | PastFileEnd(num: int)    // a track starts past the end of its file
    | PastNextIndex0(num: int) // index 1 after the next track's index 0
    | ZeroSectorSize(num: int) // division by a zero sector size (a crash in C)
    | ReadFailed               // a sector read came back short
    | SeekFailed               // a seek to a negative offset
    | ShortImage               // fewer than 50000 bytes to analyse
    | UnexpectedMode           // the writer does not know the track's mode

  datatype Result<+T> = Ok(value: T) | Err(error: Error)

  /** The internal track modes (`MODE_AUDIO` ... `MODE2_2448`). */
  datatype Mode =
    | Audio | AudioSub
    | Mode1_2352 | Mode1_2048 | Mode1_2448
    | Mode2_2352 | Mode2_2336 | Mode2_2448
  {
    /** The audio family: written as `.wav`, may carry an INDEX 0 pregap. */
    predicate IsAudio() {
      this == Audio || this == AudioSub
    }
  }

  /**
   * One entry of the global `tracks[]` table (`tTrack`). The open file handle
   * is represented by the source file name; index fields use -1 for "unset".
   */
  datatype Track = Track(
    mode: Mode,
    num: int,
    idx0: int,          // sector index where the pregap starts
    idx1: int,          // sector index where the data starts
    startOfs: int,      // byte offset of the first extracted byte
    totalSectors: int,  // number of sectors extracted
    sectorSize: nat,
    predata: nat,       // metadata bytes before the user data of each sector
    postdata: nat,      // metadata bytes after the user data of each sector
    srcFile: string,
    name: string)

  // ---------------------------------------------------------------------------
  // Decimal text

  predicate IsDigit(c: char) {
    '0' <= c <= '9'
  }

  predicate AllDigits(s: string) {
    forall k :: 0 <= k < |s| ==> IsDigit(s[k])
  }

  function DigitValue(c: char): nat
    requires IsDigit(c)
  {
    (c as int) - ('0' as int)
  }

  function DigitChar(d: nat): (c: char)
    requires d < 10
    ensures IsDigit(c) && DigitValue(c) == d
  {
    (('0' as int) + d) as char
  }

  /** The value of a digit string, read most significant digit first. */
  function DecimalValue(s: string): nat
    requires AllDigits(s)
  {
    if s == [] then 0 else 10 * DecimalValue(s[..|s| - 1]) + DigitValue(s[|s| - 1])
  }

  /** `%d` of a non-negative number: the shortest decimal text. */
  function Decimal(n: nat): (s: string)
    ensures |s| > 0 && AllDigits(s)
    ensures n < 10 ==> |s| == 1
    ensures n >= 10 ==> |s| >= 2
  {
    if n < 10 then [DigitChar(n)] else Decimal(n / 10) + [DigitChar(n % 10)]
  }

  lemma {:induction false} DecimalRoundTrip(n: nat)
    ensures DecimalValue(Decimal(n)) == n
  {
    if n >= 10 {
      DecimalRoundTrip(n / 10);
      var s := Decimal(n);
      assert s[..|s| - 1] == Decimal(n / 10);
    }
  }

  /** `%02d`: at least two digits, zero-padded. */
  function Decimal2(n: nat): (s: string)
    ensures |s| >= 2 && AllDigits(s)
    ensures n < 100 ==> |s| == 2
  {
    if n < 10 then ['0', DigitChar(n)] else Decimal(n)
  }

  lemma Decimal2RoundTrip(n: nat)
    ensures DecimalValue(Decimal2(n)) == n
  {
    if n < 10 {
      var s := Decimal2(n);
      assert s[..1] == ['0'] && s[..0] == [];
      assert DecimalValue(s[..1]) == 0;
    } else {
      DecimalRoundTrip(n);
    }
  }

  /** The first position at or after `i` whose character is not in `cs`. */
  function SkipOver(s: string, i: nat, cs: set<char>): (j: nat)
    requires i <= |s|
    ensures i <= j <= |s|
    ensures forall k :: i <= k < j ==> s[k] in cs
    ensures j < |s| ==> s[j] !in cs
    decreases |s| - i
  {
    if i < |s| && s[i] in cs then SkipOver(s, i + 1, cs) else i
  }

  /** The first position at or after `i` holding `c`, or `|s|` when there is none. */
  function FirstOf(s: string, i: nat, c: char): (j: nat)
    requires i <= |s|
    ensures i <= j <= |s|
    ensures forall k :: i <= k < j ==> s[k] != c
    ensures j < |s| ==> s[j] == c
    decreases |s| - i
  {
    if i == |s| || s[i] == c then i else FirstOf(s, i + 1, c)
  }

  /** Whether `p` is a prefix of `s` (`strncmp(s, p, |p|) == 0`). */
  predicate StartsWith(s: string, p: string) {
    |p| <= |s| && s[..|p|] == p
  }
}
