/**
 * CD time positions mm:ss:ff (75 frames to the second) and sector indices:
 * the packed-digit reading of an INDEX line (bin2iso.c:641-643), its
 * conversion `SectorIndex` (bin2iso.c:211-221) and the printing `TimeIndex`
 * (bin2iso.c:223-231).
 */
module Msf {
  import opened Common

  /** The value of a byte holding two decimal digits, one per nibble. */
  function NibbleDecimal(b: Byte): nat {
    (b / 16) * 10 + b % 16
  }

  /**
   * `SectorIndex(m, s, f)`: minutes, seconds and frames, each given as a
   * digit-per-nibble byte, to a sector index. Never exceeds `uint32_t`.
   */
  function SectorIndex(m: Byte, s: Byte, f: Byte): (r: nat)
    ensures r < Pow32
  {
    var temp := ((m / 16) * 10 + m % 16) * 60;
    var temp2 := (temp + ((s / 16) * 10 + s % 16)) * 75;
    temp2 + ((f / 16) * 10 + f % 16)
  }

  /** With a frame field below 75, the index splits back into its seconds and frames. */
  lemma SectorIndexSplit(m: Byte, s: Byte, f: Byte)
    requires NibbleDecimal(f) < 75
    ensures SectorIndex(m, s, f) / 75 == NibbleDecimal(m) * 60 + NibbleDecimal(s)
    ensures SectorIndex(m, s, f) % 75 == NibbleDecimal(f)
  {
    var r := SectorIndex(m, s, f);
    assert r == (NibbleDecimal(m) * 60 + NibbleDecimal(s)) * 75 + NibbleDecimal(f);
  }

  /** The byte a character stands for: its low eight bits. */
  function ByteOf(c: char): Byte {
    (c as int) % 256
  }

  /** Bitwise OR of two non-negative numbers. */
  function BitOr(p: nat, q: nat): nat
    decreases p + q
  {
    if p == 0 then q
    else if q == 0 then p
    else 2 * BitOr(p / 2, q / 2) + (if p % 2 == 1 || q % 2 == 1 then 1 else 0)
  }

  /**
   * One field of an INDEX time, as bin2iso.c:641-643 packs it: the two
   * characters minus '0', the first shifted four bits left, OR-ed together
   * and truncated to a byte. Only the low nibble of the first difference
   * survives the shift; its OR with the high nibble of the second is done on
   * nibbles.
   */
  function PackField(hi: char, lo: char): Byte {
    var a := (ByteOf(hi) - 0x30) % 16;
    var y := (ByteOf(lo) - 0x30) % 256;
    (BitOr(a, y / 16) * 16 + y % 16) % 256
  }

  /** Two decimal digits pack to a byte whose nibbles are those digits. */
  lemma PackDigits(hi: char, lo: char)
    requires IsDigit(hi) && IsDigit(lo)
    ensures NibbleDecimal(PackField(hi, lo)) == 10 * DigitValue(hi) + DigitValue(lo)
  {
    var h, l := DigitValue(hi), DigitValue(lo);
    assert ByteOf(hi) - 0x30 == h && ByteOf(lo) - 0x30 == l;
    PackNibbles(h, l);
    NibblesOf(h, l);
  }

  lemma PackNibbles(h: nat, l: nat)
    requires h < 10 && l < 10
    ensures (BitOr(h % 16, (l % 256) / 16) * 16 + (l % 256) % 16) % 256 == h * 16 + l
  {
    assert h % 16 == h && l % 256 == l && l / 16 == 0 && l % 16 == l;
    assert BitOr(h, 0) == h;
  }

  lemma NibblesOf(h: nat, l: nat)
    requires h < 10 && l < 10
    ensures NibbleDecimal(h * 16 + l) == 10 * h + l
  {
    var p := h * 16 + l;
    assert p / 16 == h && p % 16 == l;
  }

  /** The character at position `i`, or NUL past the end of the line. */
  function CharAt(s: string, i: nat): char {
    if i < |s| then s[i] else '\0'
  }

  /**
   * The sector index of the time text starting at `s[i]`, read at the fixed
   * columns 0-1, 3-4 and 6-7 whatever the separators are.
   */
  function ReadTime(s: string, i: nat): nat {
    SectorIndex(
      PackField(CharAt(s, i), CharAt(s, i + 1)),
      PackField(CharAt(s, i + 3), CharAt(s, i + 4)),
      PackField(CharAt(s, i + 6), CharAt(s, i + 7)))
  }

  /** Text of the shape "mm:ss:ff" with decimal digits. */
  predicate IsTimeText(t: string) {
    |t| == 8 && t[2] == ':' && t[5] == ':'
    && IsDigit(t[0]) && IsDigit(t[1]) && IsDigit(t[3])
    && IsDigit(t[4]) && IsDigit(t[6]) && IsDigit(t[7])
  }

  /** The value of the two digits at `t[i]`, `t[i+1]`. */
  function Pair(t: string, i: nat): nat
    requires i + 1 < |t| && IsDigit(t[i]) && IsDigit(t[i + 1])
  {
    10 * DigitValue(t[i]) + DigitValue(t[i + 1])
  }

  /** A well-formed time text reads as `(mm*60 + ss)*75 + ff`. */
  lemma ReadTimeDigits(t: string)
    requires IsTimeText(t)
    ensures ReadTime(t, 0) == (Pair(t, 0) * 60 + Pair(t, 3)) * 75 + Pair(t, 6)
  {
    PackDigits(t[0], t[1]);
    PackDigits(t[3], t[4]);
    PackDigits(t[6], t[7]);
  }

  /** Tens then units of a number, each printed with `%d`. */
  function TwoDigits(x: nat): (t: string)
    ensures x < 100 ==> t == [DigitChar(x / 10), DigitChar(x % 10)]
  {
    Decimal(x / 10) + Decimal(x % 10)
  }

  /**
   * `TimeIndex`: a sector index printed as "%d%d:%d%d:%d%d" of the tens and
   * units of minutes, seconds and frames, where minutes are truncated to a
   * byte.
   */
  function TimeIndex(n: nat): (t: string)
    ensures n < 450000 ==> IsTimeText(t)
  {
    var f := n % 75;
    var s := (n / 75) % 60;
    var m := (n / (75 * 60)) % 256;
    TwoDigits(m) + ":" + TwoDigits(s) + ":" + TwoDigits(f)
  }

  /** The eight characters of "mm:ss:ff" for fields below 100, 60 and 75. */
  function TimeText(m: nat, s: nat, f: nat): (t: string)
    requires m < 100 && s < 60 && f < 75
    ensures IsTimeText(t) && Pair(t, 0) == m && Pair(t, 3) == s && Pair(t, 6) == f
  {
    [DigitChar(m / 10), DigitChar(m % 10), ':', DigitChar(s / 10), DigitChar(s % 10),
     ':', DigitChar(f / 10), DigitChar(f % 10)]
  }

  lemma TimeIndexText(n: nat)
    requires n < 450000
    ensures TimeIndex(n) == TimeText(n / 4500, (n / 75) % 60, n % 75)
  {
    assert (n / 4500) % 256 == n / 4500;
  }

  /** Below 450000 the minutes have two digits, and the printed time reads back. */
  lemma TimeIndexRoundTrip(n: nat)
    requires n < 450000
    ensures ReadTime(TimeIndex(n), 0) == n
  {
    TimeIndexText(n);
    ReadTimeDigits(TimeIndex(n));
    MsfSplit(n);
  }

  lemma MsfSplit(n: nat)
    ensures n == ((n / 4500) * 60 + (n / 75) % 60) * 75 + n % 75
  {
    var q := n / 75;
    assert n == q * 75 + n % 75;
    assert q == (q / 60) * 60 + q % 60;
    assert q / 60 == n / 4500;
  }

  /** A well-formed time within range prints back exactly as it was read. */
  lemma ReadTimeRoundTrip(t: string)
    requires IsTimeText(t) && Pair(t, 3) < 60 && Pair(t, 6) < 75
    ensures TimeIndex(ReadTime(t, 0)) == t
  {
    ReadTimeDigits(t);
    var mm, ss, ff := Pair(t, 0), Pair(t, 3), Pair(t, 6);
    MsfJoin(mm, ss, ff);
    TimeIndexText((mm * 60 + ss) * 75 + ff);
    TimeTextOfPairs(t);
  }

  lemma MsfJoin(m: nat, s: nat, f: nat)
    requires m < 100 && s < 60 && f < 75
    ensures var n := (m * 60 + s) * 75 + f;
      n < 450000 && n / 4500 == m && (n / 75) % 60 == s && n % 75 == f
  {
    var n := (m * 60 + s) * 75 + f;
    assert n % 75 == f && n / 75 == m * 60 + s;
  }

  lemma TimeTextOfPairs(t: string)
    requires IsTimeText(t) && Pair(t, 3) < 60 && Pair(t, 6) < 75
    ensures TimeText(Pair(t, 0), Pair(t, 3), Pair(t, 6)) == t
  {
    DigitPair(t[0], t[1]);
    DigitPair(t[3], t[4]);
    DigitPair(t[6], t[7]);
  }

  lemma DigitPair(a: char, b: char)
    requires IsDigit(a) && IsDigit(b)
    ensures DigitChar((10 * DigitValue(a) + DigitValue(b)) / 10) == a
    ensures DigitChar((10 * DigitValue(a) + DigitValue(b)) % 10) == b
  {
  }
}
