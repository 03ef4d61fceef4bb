/**
 * The sector mode table of `ParseCueLine` (bin2iso.c:546-593): which mode a
 * TRACK's mode text names, and for each mode the stored sector size and the
 * metadata bytes before and after the user data in every stored sector.
 */
module SectorModes {
  import opened Common

  /** How one stored sector of a mode is laid out. */
  datatype Layout = Layout(sectorSize: nat, predata: nat, postdata: nat)

  /** Bytes of user data each stored sector yields (`datasize` in `DoTrack`). */
  function PayloadSize(l: Layout): int {
    l.sectorSize - l.predata - l.postdata
  }

  /** The mode text the program writes for a mode (AUDIO/ is followed by a size). */
  function ModeName(m: Mode): string {
    match m
    case AudioSub => "AUDIO/"
    case Audio => "AUDIO"
    case Mode1_2352 => "MODE1/2352"
    case Mode1_2048 => "MODE1/2048"
    case Mode1_2448 => "MODE1/2448"
    case Mode2_2352 => "MODE2/2352"
    case Mode2_2336 => "MODE2/2336"
    case Mode2_2448 => "MODE2/2448"
  }

  /**
   * The prefix tests of bin2iso.c:546-554, in their order: the first mode
   * name that the text starts with wins, so "AUDIO/" is tried before "AUDIO".
   */
  function ModeOf(text: string): (r: Option<Mode>)
    ensures r.Some? ==> StartsWith(text, ModeName(r.value))
    ensures r == Some(Audio) ==> !StartsWith(text, "AUDIO/")
    ensures r.None? ==> forall m: Mode :: !StartsWith(text, ModeName(m))
  {
    if StartsWith(text, "AUDIO/") then Some(AudioSub)
    else if StartsWith(text, "AUDIO") then Some(Audio)
    else if StartsWith(text, "MODE1/2352") then Some(Mode1_2352)
    else if StartsWith(text, "MODE1/2048") then Some(Mode1_2048)
    else if StartsWith(text, "MODE1/2448") then Some(Mode1_2448)
    else if StartsWith(text, "MODE2/2352") then Some(Mode2_2352)
    else if StartsWith(text, "MODE2/2336") then Some(Mode2_2336)
    else if StartsWith(text, "MODE2/2448") then Some(Mode2_2448)
    else None
  }

  /** Every mode is recognised from the text the program writes for it. */
  lemma ModeOfName(m: Mode, rest: string)
    requires m == Audio ==> !StartsWith(rest, "/")
    ensures ModeOf(ModeName(m) + rest) == Some(m)
  {
    var t := ModeName(m) + rest;
    assert t[..|ModeName(m)|] == ModeName(m);
    if m == Audio {
      if |rest| > 0 {
        assert rest[..1] == [rest[0]];
        assert t[..6][5] == t[5] == rest[0] != '/';
      }
    } else if m != AudioSub {
      assert t[0] == 'M';
      assert t[4] == ModeName(m)[4] && t[6] == ModeName(m)[6];
      assert t[7] == ModeName(m)[7] && t[8] == ModeName(m)[8] && t[9] == ModeName(m)[9];
    }
  }

  /** The characters C's `isspace` accepts. */
  const WhiteSpace: set<char> := {' ', '\t', '\n', 11 as char, 12 as char, '\r'}

  /** The longest prefix of `s` made of decimal digits. */
  function LeadingDigits(s: string): (r: string)
    ensures AllDigits(r) && StartsWith(s, r)
    ensures |r| < |s| ==> !IsDigit(s[|r|])
  {
    if s != [] && IsDigit(s[0]) then [s[0]] + LeadingDigits(s[1..]) else []
  }

  const LongMax: int := 0x7FFF_FFFF_FFFF_FFFF
  const LongMin: int := -0x8000_0000_0000_0000

  /**
   * C's `strtol(text, NULL, 10)` on a 64-bit `long`: leading white space, an
   * optional sign, the longest run of digits (0 when there is none), and
   * clamping to the range of `long`.
   */
  function Strtol(text: string): (v: int)
    ensures LongMin <= v <= LongMax
  {
    var i := SkipOver(text, 0, WhiteSpace);
    var neg := i < |text| && text[i] == '-';
    var j := if i < |text| && (text[i] == '-' || text[i] == '+') then i + 1 else i;
    var mag: int := DecimalValue(LeadingDigits(text[j..]));
    var v := if neg then -mag else mag;
    if v > LongMax then LongMax else if v < LongMin then LongMin else v
  }

  /**
   * The mode table (bin2iso.c:533-537 defaults and 573-593). `declared` is the
   * number after "AUDIO/", already converted to `uint32_t`; it is ignored for
   * every other mode.
   */
  function LayoutOf(m: Mode, declared: nat): (l: Layout)
    ensures l.predata + l.postdata <= l.sectorSize
    ensures !m.IsAudio() ==> PayloadSize(l) == 2048
    ensures m == Audio ==> l == Layout(SizeRaw, 0, 0)
    ensures m == AudioSub ==> l.sectorSize == declared && l.predata == 0
    ensures m == AudioSub && declared > SizeRaw ==> l.postdata == declared - SizeRaw && PayloadSize(l) == SizeRaw
    ensures m == AudioSub && declared <= SizeRaw ==> PayloadSize(l) == declared
  {
    match m
    case AudioSub => Layout(declared, 0, if declared > SizeRaw then declared - SizeRaw else 0)
    case Audio => Layout(SizeRaw, 0, 0)
    case Mode1_2048 => Layout(2048, 0, 0)
    case Mode1_2352 => Layout(SizeRaw, 16, 288)
    case Mode2_2336 => Layout(2336, 8, 280)
    case Mode2_2352 => Layout(SizeRaw, 24, 280)
    case Mode1_2448 => Layout(2448, 16, 384)
    case Mode2_2448 => Layout(2448, 24, 376)
  }

  /**
   * The layout a TRACK line's mode text selects: the mode from the prefix
   * tests and, for AUDIO/, the `strtol` value after the slash as `uint32_t`.
   */
  function LayoutOfText(text: string): (r: Option<(Mode, Layout)>)
    ensures r.Some? ==> r.value.1.predata + r.value.1.postdata <= r.value.1.sectorSize
    ensures r.None? <==> ModeOf(text).None?
    ensures r.Some? ==> r.value.0 == ModeOf(text).value
  {
    match ModeOf(text)
    case None => None
    case Some(m) =>
      var declared := if m == AudioSub then U32(Strtol(text[6..])) else 0;
      Some((m, LayoutOf(m, declared)))
  }

  /** "AUDIO/<n>" with a plain decimal n below 2^32 declares exactly n. */
  lemma AudioSubDeclared(n: nat)
    requires n < Pow32
    ensures LayoutOfText("AUDIO/" + Decimal(n)) == Some((AudioSub, LayoutOf(AudioSub, n)))
  {
    var t := "AUDIO/" + Decimal(n);
    ModeOfName(AudioSub, Decimal(n));
    DecimalRoundTrip(n);
    AudioSubSize(Decimal(n));
    assert LayoutOfText(t) == Some((AudioSub, LayoutOf(AudioSub, U32(Strtol(t[6..])))));
  }

  lemma AudioSubSize(d: string)
    requires |d| > 0 && AllDigits(d) && DecimalValue(d) < Pow32
    ensures Strtol(("AUDIO/" + d)[6..]) == DecimalValue(d)
  {
    assert ("AUDIO/" + d)[6..] == d;
    StrtolOfDigits(d);
  }

  lemma StrtolOfDigits(d: string)
    requires |d| > 0 && AllDigits(d) && DecimalValue(d) <= LongMax
    ensures Strtol(d) == DecimalValue(d)
  {
    assert d[0] !in WhiteSpace && d[0] != '-' && d[0] != '+';
    assert SkipOver(d, 0, WhiteSpace) == 0;
    assert d[0..] == d;
    LeadingDigitsAll(d);
  }

  lemma LeadingDigitsAll(s: string)
    requires AllDigits(s)
    ensures LeadingDigits(s) == s
  {
    LeadingDigitsUnique(s, s);
  }

  /** A digit prefix that is not followed by another digit is the longest one. */
  lemma {:induction false} LeadingDigitsUnique(s: string, d: string)
    requires AllDigits(d) && StartsWith(s, d)
    requires |d| < |s| ==> !IsDigit(s[|d|])
    ensures LeadingDigits(s) == d
  {
    if d != [] {
      assert s[1..][..|d| - 1] == d[1..];
      LeadingDigitsUnique(s[1..], d[1..]);
    }
  }
}
