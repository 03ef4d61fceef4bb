/**
 * Reading back a generated sheet. `CueFromBin` writes a FILE line, the
 * sniffed first track and one TRACK / INDEX 00 / INDEX 01 group per split
 * (bin2iso.c:1175-1189, 1249-1257); `ParseCue` reads such a file line by
 * line with `fgets` (bin2iso.c:705-716). This module proves that the parser
 * gives back the tracks, indices and audio sector size the segmenter found.
 */
module SheetReading {
  import opened Common
  import opened SectorModes
  import opened Msf
  import opened CueParser
  import Sniffer
  import Segmenter

  /** Text with no NUL: C sees all of it. */
  predicate NoNul(s: string) {
    forall k :: 0 <= k < |s| ==> s[k] != '\0'
  }

  /**
   * A name the FILE line carries unchanged: no separator, control character,
   * quote or NUL.
   */
  predicate PlainName(name: string) {
    name != [] && NoNul(name)
    && forall k :: 0 <= k < |name| ==>
      !IsSeparator(name[k]) && !IsControl(name[k]) && name[k] != '"'
  }

  lemma DigitsNoNul(d: string)
    requires AllDigits(d)
    ensures NoNul(d)
  {
    assert forall k :: 0 <= k < |d| ==> IsDigit(d[k]);
  }

  lemma NoNulAppend(a: string, b: string)
    requires NoNul(a) && NoNul(b)
    ensures NoNul(a + b)
  {
    assert forall k :: |a| <= k < |a + b| ==> (a + b)[k] == b[k - |a|];
  }

  lemma CStringWhole(s: string)
    requires NoNul(s)
    ensures CString(s) == s
  {
    assert s[..|s|] == s;
  }

  /** `SkipOver` stops at the first character outside the set. */
  lemma SkipTo(s: string, i: nat, j: nat, cs: set<char>)
    requires i <= j < |s| && s[j] !in cs
    requires forall k :: i <= k < j ==> s[k] in cs
    ensures SkipOver(s, i, cs) == j
  {
  }

  /** The time text at `s[i]` is read like the same eight characters alone. */
  lemma ReadTimeAt(s: string, i: nat, t: string)
    requires |t| == 8 && i + 8 <= |s| && s[i..i + 8] == t
    ensures ReadTime(s, i) == ReadTime(t, 0)
  {
    assert forall k :: 0 <= k < 8 ==> CharAt(s, i + k) == CharAt(t, k);
  }

  // ---------------------------------------------------------------------------
  // One line at a time

  /** The FILE line gives back the image name. */
  lemma LexFileLine(name: string)
    requires PlainName(name)
    ensures Lex(Segmenter.Render(Segmenter.FileLine(name)) + "\n") == FileCmd(Ok(name))
  {
    var s := Segmenter.Render(Segmenter.FileLine(name)) + "\n";
    assert s == "FILE " + "\"" + name + "\"" + " BINARY\n";
    CStringWhole(s);
    SkipTo(s, 0, 0, LineSpace);
    assert s[0..][..5] == "FILE ";
    SkipTo(s, 5, 5, Blank);
    QuotedFileName("FILE ", name, " BINARY\n");
  }

  /**
   * A TRACK line gives back its number and its mode text, which keeps the
   * line end.
   */
  lemma LexTrackLine(n: nat, mode: string)
    requires mode != [] && mode[0] != ' ' && NoNul(mode)
    ensures Lex(Segmenter.Render(Segmenter.TrackLine(n, mode)) + "\n") ==
      TrackCmd(n, Decimal2(n), mode + "\n")
  {
    var d := Decimal2(n);
    var s := Segmenter.Render(Segmenter.TrackLine(n, mode)) + "\n";
    TrackLineShape(s, d, mode);
    CStringWhole(s);
    TrackLineFields(s, d);
    Decimal2RoundTrip(n);
    LexTrackAt(s, 2, 8, (DecimalValue(d), d, s[9 + |d|..]));
  }

  lemma TrackLineShape(s: string, d: string, mode: string)
    requires s == "  TRACK " + d + " " + mode + "\n"
    requires d != [] && NoNul(d) && NoNul(mode) && mode != [] && mode[0] != ' '
    ensures |s| > 9 + |d| && NoNul(s)
    ensures s[0] == ' ' && s[1] == ' ' && s[2] == 'T' && s[2..8] == "TRACK "
    ensures s[8..8 + |d|] == d && s[8 + |d|] == ' ' && s[9 + |d|] != ' '
    ensures s[9 + |d|..] == mode + "\n"
  {
  }

  /** Where the fields of "  TRACK <digits> <mode...>" are found. */
  lemma TrackLineFields(s: string, d: string)
    requires d != [] && AllDigits(d) && |s| > 9 + |d|
    requires s[0] == ' ' && s[1] == ' ' && s[2] == 'T' && s[2..8] == "TRACK "
    requires s[8..8 + |d|] == d && s[8 + |d|] == ' ' && s[9 + |d|] != ' '
    ensures SkipOver(s, 0, LineSpace) == 2 && StartsWith(s[2..], "TRACK ")
    ensures SkipOver(s, 8, Blank) == 8
    ensures TrackFields(s, 8) == (DecimalValue(d), d, s[9 + |d|..])
  {
    SkipTo(s, 0, 2, LineSpace);
    PrefixAt(s, 2, "TRACK ");
    assert s[8] == d[0] && IsDigit(d[0]);
    SkipTo(s, 8, 8, Blank);
    TrackFieldsAt(s, d);
  }

  /** A TRACK command whose fields start at `s[j]`. */
  lemma LexTrackAt(s: string, i: nat, j: nat, f: (nat, string, string))
    requires CString(s) == s && i < |s| && s[i] == 'T'
    requires SkipOver(s, 0, LineSpace) == i && StartsWith(s[i..], "TRACK ")
    requires i + 6 <= j <= |s| && SkipOver(s, i + 6, Blank) == j && TrackFields(s, j) == f
    ensures Lex(s) == TrackCmd(f.0, f.1, f.2)
  {
    LexAt(s, i);
    LexTrack(s, i);
  }

  lemma PrefixAt(s: string, i: nat, p: string)
    requires i + |p| <= |s| && s[i..i + |p|] == p
    ensures StartsWith(s[i..], p)
  {
    assert s[i..][..|p|] == s[i..i + |p|];
  }

  /** A line C sees whole is lexed from its first non-space character. */
  lemma LexAt(s: string, i: nat)
    requires CString(s) == s && i <= |s| && SkipOver(s, 0, LineSpace) == i
    ensures Lex(s) == LexCommand(s, i)
  {
  }

  lemma LexTrack(s: string, i: nat)
    requires i < |s| && s[i] == 'T' && StartsWith(s[i..], "TRACK ")
    ensures i + 6 <= |s|
    ensures var f := TrackFields(s, SkipOver(s, i + 6, Blank)); LexCommand(s, i) == TrackCmd(f.0, f.1, f.2)
  {
    NotPrefix(s[i..], "FILE ");
  }

  lemma LexIndex(s: string, i: nat)
    requires i < |s| && s[i] == 'I' && StartsWith(s[i..], "INDEX ")
    ensures i + 6 <= |s|
    ensures var f := IndexFields(s, SkipOver(s, i + 6, Blank)); LexCommand(s, i) == IndexCmd(f.0, ReadTime(s, f.1))
  {
    NotPrefix(s[i..], "FILE ");
    NotPrefix(s[i..], "TRACK ");
  }

  /** A text does not start with a word whose first letter differs from its own. */
  lemma NotPrefix(s: string, p: string)
    requires s != [] && p != [] && s[0] != p[0]
    ensures !StartsWith(s, p)
  {
    if |p| <= |s| {
      assert s[..|p|][0] == s[0];
    }
  }

  lemma TrackFieldsAt(s: string, d: string)
    requires |s| > 9 + |d|
    requires s[8..8 + |d|] == d && s[8 + |d|] == ' ' && s[9 + |d|] != ' '
    requires AllDigits(d)
    ensures TrackFields(s, 8) == (DecimalValue(d), d, s[9 + |d|..])
  {
    assert s[8..][..|d|] == d;
    LeadingDigitsUnique(s[8..], d);
    SkipTo(s, 9 + |d|, 9 + |d|, Blank);
  }

  /** An INDEX line gives back its number and, below 100 minutes, its sector. */
  lemma LexIndexLine(pregap: bool, n: nat)
    requires n < 450000
    ensures Lex(Segmenter.Render(Segmenter.IndexLine(pregap, n)) + "\n") ==
      IndexCmd(if pregap then 0 else 1, n)
  {
    var t := TimeIndex(n);
    var number := if pregap then "00" else "01";
    var s := Segmenter.Render(Segmenter.IndexLine(pregap, n)) + "\n";
    IndexLineShape(s, number, t);
    CStringWhole(s);
    IndexLineFields(s, number, t);
    IndexNumber(number);
    LexIndexAt(s, 4, 10, (DecimalValue(number), 13));
    TimeIndexRoundTrip(n);
  }

  lemma IndexNumber(number: string)
    requires number == "00" || number == "01"
    ensures AllDigits(number) && DecimalValue(number) == if number == "00" then 0 else 1
  {
    assert number[..1] == ['0'] && ['0'][..0] == [];
  }

  lemma IndexLineShape(s: string, number: string, t: string)
    requires s == "    INDEX " + number + " " + t + "\n"
    requires |number| == 2 && AllDigits(number) && IsTimeText(t)
    ensures |s| == 22 && NoNul(s)
    ensures s[..10] == "    INDEX " && s[4..10] == "INDEX " && s[10..12] == number && s[12] == ' ' && s[13..21] == t
  {
  }

  lemma IndexLineFields(s: string, number: string, t: string)
    requires |s| == 22
    requires s[..10] == "    INDEX " && s[4..10] == "INDEX " && s[10..12] == number && s[12] == ' ' && s[13..21] == t
    requires |number| == 2 && AllDigits(number) && IsTimeText(t)
    ensures s[4] == 'I' && SkipOver(s, 0, LineSpace) == 4 && StartsWith(s[4..], "INDEX ")
    ensures SkipOver(s, 10, Blank) == 10
    ensures IndexFields(s, 10) == (DecimalValue(number), 13)
    ensures ReadTime(s, 13) == ReadTime(t, 0)
  {
    assert s[0] == ' ' && s[3] == ' ' && s[4] == 'I';
    SkipTo(s, 0, 4, LineSpace);
    PrefixAt(s, 4, "INDEX ");
    assert s[10] == number[0];
    SkipTo(s, 10, 10, Blank);
    IndexFieldsAt(s, number, t);
    ReadTimeAt(s, 13, t);
  }

  /** An INDEX command whose fields start at `s[j]`. */
  lemma LexIndexAt(s: string, i: nat, j: nat, f: (nat, nat))
    requires CString(s) == s && i < |s| && s[i] == 'I'
    requires SkipOver(s, 0, LineSpace) == i && StartsWith(s[i..], "INDEX ")
    requires i + 6 <= j <= |s| && SkipOver(s, i + 6, Blank) == j && IndexFields(s, j) == f
    ensures Lex(s) == IndexCmd(f.0, ReadTime(s, f.1))
  {
    LexAt(s, i);
    LexIndex(s, i);
  }

  lemma IndexFieldsAt(s: string, number: string, t: string)
    requires |s| == 22 && s[10..12] == number && s[12] == ' ' && s[13..21] == t
    requires |number| == 2 && AllDigits(number) && IsTimeText(t)
    ensures IndexFields(s, 10) == (DecimalValue(number), 13)
  {
    assert s[10..][..2] == number;
    LeadingDigitsUnique(s[10..], number);
    assert s[13] == t[0];
    SkipTo(s, 12, 13, Blank);
  }

  // ---------------------------------------------------------------------------
  // Mode texts

  lemma StartsWithLine(t: string, p: string)
    requires forall k :: 0 <= k < |p| ==> p[k] != '\n'
    ensures StartsWith(t + "\n", p) == StartsWith(t, p)
  {
    if |p| <= |t| {
      assert (t + "\n")[..|p|] == t[..|p|];
    } else if |p| == |t| + 1 {
      assert (t + "\n")[..|p|][|t|] == '\n' != p[|t|];
    }
  }

  /** The line end `fgets` keeps does not change which mode a text names. */
  lemma ModeOfLine(t: string)
    ensures ModeOf(t + "\n") == ModeOf(t)
  {
    StartsWithLine(t, "AUDIO/");
    StartsWithLine(t, "AUDIO");
    StartsWithLine(t, "MODE1/2352");
    StartsWithLine(t, "MODE1/2048");
    StartsWithLine(t, "MODE1/2448");
    StartsWithLine(t, "MODE2/2352");
    StartsWithLine(t, "MODE2/2336");
    StartsWithLine(t, "MODE2/2448");
  }

  /** `strtol` reads a decimal number up to the line end. */
  lemma StrtolLine(d: string)
    requires |d| > 0 && AllDigits(d) && DecimalValue(d) <= LongMax
    ensures Strtol(d + "\n") == DecimalValue(d)
  {
    var s := d + "\n";
    assert s[0] == d[0] && IsDigit(d[0]);
    SkipTo(s, 0, 0, WhiteSpace);
    assert s[0..] == s && s[..|d|] == d;
    LeadingDigitsUnique(s, d);
  }

  /**
   * The mode and layout of the split tracks: plain audio, or audio whose
   * sectors carry `subchanBytes` more bytes than 2352.
   */
  function SplitLayout(subchanBytes: nat): (Mode, Layout) {
    if subchanBytes == 0 then (Audio, LayoutOf(Audio, 0))
    else (AudioSub, LayoutOf(AudioSub, SizeRaw + subchanBytes))
  }

  /** The split tracks' mode text, read back with its line end, declares the sector size measured. */
  lemma AudioModeLine(sub: nat)
    requires SizeRaw + sub < Pow32
    ensures LayoutOfText(Segmenter.AudioModeText(sub) + "\n") == Some(SplitLayout(sub))
    ensures SplitLayout(sub).1.sectorSize == SizeRaw + sub
  {
    if sub == 0 {
      PlainAudioLine(Segmenter.AudioModeText(sub));
    } else {
      SubchannelAudioLine(Segmenter.AudioModeText(sub), SizeRaw + sub);
    }
  }

  /** The split tracks' mode text is one the TRACK line carries whole. */
  lemma AudioModeShape(sub: nat)
    ensures var t := Segmenter.AudioModeText(sub); t != [] && t[0] == 'A' && NoNul(t)
  {
    if sub != 0 {
      var d := Decimal(SizeRaw + sub);
      DigitsNoNul(d);
      NoNulAppend("AUDIO/", d);
    }
  }

  lemma PlainAudioLine(t: string)
    requires t == "AUDIO"
    ensures LayoutOfText(t + "\n") == Some((Audio, LayoutOf(Audio, 0)))
  {
    assert t + "\n" == ModeName(Audio) + "\n";
    NotPrefix("\n", "/");
    ModeOfName(Audio, "\n");
  }

  lemma SubchannelAudioLine(t: string, n: nat)
    requires n < Pow32 && t == "AUDIO/" + Decimal(n)
    ensures LayoutOfText(t + "\n") == Some((AudioSub, LayoutOf(AudioSub, n)))
  {
    var d := Decimal(n);
    var line := t + "\n";
    assert line == ModeName(AudioSub) + (d + "\n");
    ModeOfName(AudioSub, d + "\n");
    assert line[6..] == d + "\n";
    DecimalRoundTrip(n);
    StrtolLine(d);
    DeclaredLayout(line, n);
  }

  lemma DeclaredLayout(t: string, n: nat)
    requires ModeOf(t) == Some(AudioSub) && |t| >= 6 && Strtol(t[6..]) == n && n < Pow32
    ensures LayoutOfText(t) == Some((AudioSub, LayoutOf(AudioSub, n)))
  {
    assert U32(n) == n;
  }

  // ---------------------------------------------------------------------------
  // Lines into tracks

  /**
   * The table entry that a TRACK line with this number and the mode and
   * layout its text selects leaves once its INDEX lines have set both indices.
   */
  function ReadTrack(file: string, num: nat, idx0: nat, idx1: nat, ml: (Mode, Layout)): Track {
    Track(ml.0, num, idx0, idx1, 0, 0, ml.1.sectorSize, ml.1.predata, ml.1.postdata,
          file, OutputName(file, Decimal2(num), ml.0))
  }

  /** The entries of the split tracks, in order. */
  function SplitTracks(file: string, splits: seq<Segmenter.Split>, ml: (Mode, Layout)): seq<Track>
    decreases |splits|
  {
    if splits == [] then []
    else
      var x := splits[|splits| - 1];
      SplitTracks(file, splits[..|splits| - 1], ml) + [ReadTrack(file, x.track, x.idx0, x.idx1, ml)]
  }

  /** One entry per split. */
  lemma {:induction false} SplitTracksLength(file: string, splits: seq<Segmenter.Split>, ml: (Mode, Layout))
    ensures |SplitTracks(file, splits, ml)| == |splits|
    decreases |splits|
  {
    if splits != [] {
      SplitTracksLength(file, splits[..|splits| - 1], ml);
    }
  }

  /** Split track `k` is the entry read from the lines of split `k`. */
  lemma {:induction false} SplitTracksAt(file: string, splits: seq<Segmenter.Split>, ml: (Mode, Layout), k: nat)
    requires k < |splits|
    ensures |SplitTracks(file, splits, ml)| == |splits|
    ensures SplitTracks(file, splits, ml)[k] == ReadTrack(file, splits[k].track, splits[k].idx0, splits[k].idx1, ml)
    decreases |splits|
  {
    var init, x := splits[..|splits| - 1], splits[|splits| - 1];
    var t, last := SplitTracks(file, init, ml), ReadTrack(file, x.track, x.idx0, x.idx1, ml);
    assert SplitTracks(file, splits, ml) == t + [last];
    SplitTracksLength(file, init, ml);
    if k < |init| {
      SplitTracksAt(file, init, ml, k);
      assert init[k] == splits[k];
      assert (t + [last])[k] == t[k];
    } else {
      assert (t + [last])[k] == last;
    }
  }

  /** Reading the lines of `a + b` is reading `a` and then, unless it failed, `b`. */
  lemma {:induction false} ParseLinesAppend(st: ParserState, a: seq<string>, b: seq<string>, openable: set<string>)
    requires WellFormed(st)
    ensures ParseLines(st, a + b, openable) ==
      match ParseLines(st, a, openable)
      case Err(e) => Err(e)
      case Ok(mid) => ParseLines(mid, b, openable)
    decreases |a|
  {
    if a == [] {
      assert a + b == b;
    } else {
      assert (a + b)[0] == a[0] && (a + b)[1..] == a[1..] + b;
      match Step(st, a[0], openable)
      case Err(e) =>
      case Ok(next) => ParseLinesAppend(next, a[1..], b, openable);
    }
  }

  lemma TextAppend(a: seq<Segmenter.Line>, b: seq<Segmenter.Line>)
    ensures Segmenter.Text(a + b) == Segmenter.Text(a) + Segmenter.Text(b)
  {
  }

  /** Three lines read one after the other. */
  lemma ParseThree(st: ParserState, lines: seq<string>, openable: set<string>, st1: ParserState, st2: ParserState, st3: ParserState)
    requires |lines| == 3 && WellFormed(st) && WellFormed(st1) && WellFormed(st2)
    requires Step(st, lines[0], openable) == Ok(st1)
    requires Step(st1, lines[1], openable) == Ok(st2)
    requires Step(st2, lines[2], openable) == Ok(st3)
    ensures ParseLines(st, lines, openable) == Ok(st3)
  {
    assert lines[2..][0] == lines[2] && lines[2..][1..] == [];
    assert ParseLines(st2, lines[2..], openable) == Ok(st3);
    assert lines[1..][0] == lines[1] && lines[1..][1..] == lines[2..];
    assert ParseLines(st1, lines[1..], openable) == Ok(st3);
  }

  /** A TRACK line with a known mode appends a fresh entry for the active file. */
  lemma StepTrack(st: ParserState, line: string, num: nat, numText: string, modeText: string, openable: set<string>)
    requires WellFormed(st) && st.activeFile != [] && st.activeFile in openable && |st.tracks| < MaxTracks
    requires Lex(line) == TrackCmd(num, numText, modeText) && ModeOf(modeText).Some?
    ensures NewTrack(st.activeFile, num, numText, modeText).Some?
    ensures Step(st, line, openable) ==
      Ok(st.(tracks := st.tracks + [NewTrack(st.activeFile, num, numText, modeText).value], hasTrack := true))
  {
  }

  /** An INDEX line sets an index of the last entry, which is audio when the index is 0. */
  lemma StepIndex(st: ParserState, t: Track, line: string, n: nat, sector: nat, openable: set<string>)
    requires st.hasTrack && |st.tracks| > 0 && st.tracks[|st.tracks| - 1] == t
    requires Lex(line) == IndexCmd(n, sector) && n < 2 && (n == 0 ==> t.mode.IsAudio())
    ensures Step(st, line, openable) ==
      Ok(st.(tracks := st.tracks[..|st.tracks| - 1] + [SetIndex(t, n, sector)]))
  {
  }

  /** The three lines of a split, as the lexer reads them. */
  lemma LexSplit(x: Segmenter.Split, mode: string)
    requires mode != [] && mode[0] != ' ' && NoNul(mode)
    requires x.idx0 < 450000 && x.idx1 < 450000
    ensures var lines := Segmenter.Text(Segmenter.SplitText(x, mode));
      && |lines| == 3
      && Lex(lines[0]) == TrackCmd(x.track, Decimal2(x.track), mode + "\n")
      && Lex(lines[1]) == IndexCmd(0, x.idx0)
      && Lex(lines[2]) == IndexCmd(1, x.idx1)
  {
    LexTrackLine(x.track, mode);
    LexIndexLine(true, x.idx0);
    LexIndexLine(false, x.idx1);
  }

  /** A split's TRACK, INDEX 00 and INDEX 01 lines add its track with both indices. */
  lemma ParseSplit(st: ParserState, x: Segmenter.Split, mode: string, openable: set<string>)
    requires WellFormed(st) && st.activeFile != [] && st.activeFile in openable && |st.tracks| < MaxTracks
    requires mode != [] && mode[0] != ' ' && NoNul(mode)
    requires LayoutOfText(mode + "\n").Some? && LayoutOfText(mode + "\n").value.0.IsAudio()
    requires x.idx0 < 450000 && x.idx1 < 450000
    ensures ParseLines(st, Segmenter.Text(Segmenter.SplitText(x, mode)), openable) ==
      Ok(st.(tracks := st.tracks + [ReadTrack(st.activeFile, x.track, x.idx0, x.idx1, LayoutOfText(mode + "\n").value)],
             hasTrack := true))
  {
    LexSplit(x, mode);
    ParseGroup(st, Segmenter.Text(Segmenter.SplitText(x, mode)), x, Decimal2(x.track), mode + "\n", openable);
  }

  /** Lines lexed as a TRACK and its INDEX 00 and INDEX 01 add one entry with both indices. */
  lemma ParseGroup(st: ParserState, lines: seq<string>, x: Segmenter.Split, numText: string, modeText: string,
                   openable: set<string>)
    requires WellFormed(st) && st.activeFile != [] && st.activeFile in openable && |st.tracks| < MaxTracks
    requires LayoutOfText(modeText).Some? && LayoutOfText(modeText).value.0.IsAudio()
    requires numText == Decimal2(x.track)
    requires |lines| == 3
    requires Lex(lines[0]) == TrackCmd(x.track, numText, modeText)
    requires Lex(lines[1]) == IndexCmd(0, x.idx0)
    requires Lex(lines[2]) == IndexCmd(1, x.idx1)
    ensures ParseLines(st, lines, openable) ==
      Ok(st.(tracks := st.tracks + [ReadTrack(st.activeFile, x.track, x.idx0, x.idx1, LayoutOfText(modeText).value)],
             hasTrack := true))
  {
    StepTrack(st, lines[0], x.track, numText, modeText, openable);
    var t := NewTrack(st.activeFile, x.track, numText, modeText).value;
    var st1 := st.(tracks := st.tracks + [t], hasTrack := true);
    var t2 := SetIndex(t, 0, x.idx0);
    var st2 := st.(tracks := st.tracks + [t2], hasTrack := true);
    var t3 := SetIndex(t2, 1, x.idx1);
    var st3 := st.(tracks := st.tracks + [t3], hasTrack := true);
    assert st1.tracks[..|st1.tracks| - 1] == st.tracks && st1.tracks[|st1.tracks| - 1] == t;
    StepIndex(st1, t, lines[1], 0, x.idx0, openable);
    assert st2.tracks[..|st2.tracks| - 1] == st.tracks && st2.tracks[|st2.tracks| - 1] == t2;
    StepIndex(st2, t2, lines[2], 1, x.idx1, openable);
    IndexOrderIrrelevant(t, x.idx0, x.idx1);
    ParseThree(st, lines, openable, st1, st2, st3);
  }

  /** The lines of all the splits add their tracks, in order. */
  lemma {:induction false} ParseSplits(st: ParserState, splits: seq<Segmenter.Split>, mode: string, ml: (Mode, Layout),
                                       openable: set<string>)
    requires WellFormed(st) && st.activeFile != [] && st.activeFile in openable
    requires |st.tracks| + |splits| <= MaxTracks
    requires mode != [] && mode[0] != ' ' && NoNul(mode)
    requires LayoutOfText(mode + "\n") == Some(ml) && ml.0.IsAudio()
    requires forall k :: 0 <= k < |splits| ==> splits[k].idx0 < 450000 && splits[k].idx1 < 450000
    ensures ParseLines(st, Segmenter.Text(Segmenter.SplitLines(splits, mode)), openable) ==
      Ok(st.(tracks := st.tracks + SplitTracks(st.activeFile, splits, ml), hasTrack := st.hasTrack || splits != []))
    decreases |splits|
  {
    if splits == [] {
      assert Segmenter.Text([]) == [];
      assert st.tracks + [] == st.tracks;
    } else {
      var init := splits[..|splits| - 1];
      var x := splits[|splits| - 1];
      ParseSplits(st, init, mode, ml, openable);
      SplitTracksLength(st.activeFile, init, ml);
      var mid := st.(tracks := st.tracks + SplitTracks(st.activeFile, init, ml), hasTrack := st.hasTrack || init != []);
      TextAppend(Segmenter.SplitLines(init, mode), Segmenter.SplitText(x, mode));
      ParseLinesAppend(st, Segmenter.Text(Segmenter.SplitLines(init, mode)),
                       Segmenter.Text(Segmenter.SplitText(x, mode)), openable);
      ParseSplit(mid, x, mode, openable);
      SplitTracksLast(st.activeFile, splits, ml);
      AppendAssoc(st.tracks, SplitTracks(st.activeFile, init, ml), ReadTrack(st.activeFile, x.track, x.idx0, x.idx1, ml));
    }
  }

  lemma SplitTracksLast(file: string, splits: seq<Segmenter.Split>, ml: (Mode, Layout))
    requires splits != []
    ensures var x := splits[|splits| - 1];
      SplitTracks(file, splits, ml) ==
        SplitTracks(file, splits[..|splits| - 1], ml) + [ReadTrack(file, x.track, x.idx0, x.idx1, ml)]
  {
  }

  lemma AppendAssoc(a: seq<Track>, b: seq<Track>, c: Track)
    ensures a + b + [c] == a + (b + [c])
  {
  }

  // ---------------------------------------------------------------------------
  // The whole sheet

  /** A text that names a mode starts with a letter. */
  lemma ModeTextStart(t: string)
    requires ModeOf(t).Some?
    ensures t != [] && t[0] != ' '
  {
    var m := ModeOf(t).value;
    assert |ModeName(m)| > 0 && (ModeName(m)[0] == 'A' || ModeName(m)[0] == 'M');
    assert t[..|ModeName(m)|][0] == t[0];
  }

  /** The entry of the first track, when the sniffer found one. */
  function HeadTracks(name: string, a: Sniffer.Analysis): seq<Track>
    requires a.sectors != 0 ==> ModeOf(a.modeText).Some?
  {
    if a.sectors == 0 then []
    else
      ModeOfLine(a.modeText);
      [ReadTrack(name, 1, 0, 0, LayoutOfText(a.modeText + "\n").value)]
  }

  /** The head lines of an image without a sniffed first track: the FILE line alone. */
  lemma LexHeadAlone(name: string, a: Sniffer.Analysis)
    requires PlainName(name) && a.sectors == 0
    ensures var lines := Segmenter.Text(Segmenter.Head(name, a));
      |lines| == 1 && Lex(lines[0]) == FileCmd(Ok(name))
  {
    var lines := Segmenter.Text(Segmenter.Head(name, a));
    assert lines[0] == Segmenter.Render(Segmenter.FileLine(name)) + "\n";
    LexFileLine(name);
  }

  /** The head lines of an image with a sniffed first track, as the lexer reads them. */
  lemma LexHeadTrack(name: string, a: Sniffer.Analysis)
    requires PlainName(name) && a.sectors != 0
    requires ModeOf(a.modeText).Some? && NoNul(a.modeText)
    ensures var lines := Segmenter.Text(Segmenter.Head(name, a));
      && |lines| == 3
      && Lex(lines[0]) == FileCmd(Ok(name))
      && Lex(lines[1]) == TrackCmd(1, Decimal2(1), a.modeText + "\n")
      && Lex(lines[2]) == IndexCmd(1, 0)
  {
    var lines := Segmenter.Text(Segmenter.Head(name, a));
    assert lines[0] == Segmenter.Render(Segmenter.FileLine(name)) + "\n";
    assert lines[1] == Segmenter.Render(Segmenter.TrackLine(1, a.modeText)) + "\n";
    assert lines[2] == Segmenter.Render(Segmenter.IndexLine(false, 0)) + "\n";
    LexFileLine(name);
    ModeTextStart(a.modeText);
    LexTrackLine(1, a.modeText);
    LexIndexLine(false, 0);
  }

  /** The FILE line and the first track's lines leave the first track's entry, with both indices 0. */
  lemma ParseHead(name: string, a: Sniffer.Analysis)
    requires PlainName(name)
    requires a.sectors != 0 ==> ModeOf(a.modeText).Some? && NoNul(a.modeText)
    ensures ParseLines(Initial, Segmenter.Text(Segmenter.Head(name, a)), {name}) ==
      Ok(ParserState(HeadTracks(name, a), name, a.sectors != 0, 0))
  {
    var lines := Segmenter.Text(Segmenter.Head(name, a));
    var st1 := ParserState([], name, false, 0);
    if a.sectors == 0 {
      LexHeadAlone(name, a);
      assert Step(Initial, lines[0], {name}) == Ok(st1);
      assert lines[1..] == [];
    } else {
      LexHeadTrack(name, a);
      ModeOfLine(a.modeText);
      ParseFirstTrack(lines, name, a.modeText + "\n");
    }
  }

  /** Lines lexed as FILE, TRACK 01 and INDEX 01 at sector 0 leave one entry with both indices 0. */
  lemma ParseFirstTrack(lines: seq<string>, name: string, modeText: string)
    requires name != [] && ModeOf(modeText).Some?
    requires |lines| == 3
    requires Lex(lines[0]) == FileCmd(Ok(name))
    requires Lex(lines[1]) == TrackCmd(1, Decimal2(1), modeText)
    requires Lex(lines[2]) == IndexCmd(1, 0)
    ensures ParseLines(Initial, lines, {name}) ==
      Ok(ParserState([ReadTrack(name, 1, 0, 0, LayoutOfText(modeText).value)], name, true, 0))
  {
    var st1 := ParserState([], name, false, 0);
    StepTrack(st1, lines[1], 1, Decimal2(1), modeText, {name});
    var t := NewTrack(name, 1, Decimal2(1), modeText).value;
    var st2 := st1.(tracks := [t], hasTrack := true);
    StepIndex(st2, t, lines[2], 1, 0, {name});
    var st3 := st1.(tracks := [SetIndex(t, 1, 0)], hasTrack := true);
    assert st2.tracks[..0] + [SetIndex(t, 1, 0)] == st3.tracks;
    ParseThree(Initial, lines, {name}, st1, st2, st3);
  }

  /**
   * The sheet of an image, read back by the parser with only the image
   * openable: the first track, if the sniffer found one, starting at sector
   * 0, then one audio track per split with the split's number, its INDEX 00
   * and INDEX 01 sectors and the sector size measured. It holds when the
   * name needs no quoting, the sniffed mode is one the parser knows, every
   * index fits the time format's 100 minutes and there are at most 100
   * tracks; with no track at all the parser stops with its "no tracks" error.
   */
  lemma SheetReadsBack(name: string, file: seq<Byte>, a: Sniffer.Analysis, rmsLimit: Segmenter.U16, gapLength: Segmenter.U16)
    requires PlainName(name)
    requires a.sectors != 0 ==> ModeOf(a.modeText).Some? && NoNul(a.modeText)
    requires SizeRaw + a.subchanBytes < Pow32
    requires var splits := Segmenter.Segments(file, a, rmsLimit, gapLength).splits;
      && (if a.sectors != 0 then 1 else 0) + |splits| <= MaxTracks
      && forall k :: 0 <= k < |splits| ==> splits[k].idx0 < 450000 && splits[k].idx1 < 450000
    ensures var tracks := HeadTracks(name, a) +
      SplitTracks(name, Segmenter.Segments(file, a, rmsLimit, gapLength).splits, SplitLayout(a.subchanBytes));
      ParseSheet(Segmenter.Text(Segmenter.Sheet(name, file, a, rmsLimit, gapLength)), {name}) ==
        if tracks == [] then Err(NoTracks) else Ok(tracks)
  {
    var splits := Segmenter.Segments(file, a, rmsLimit, gapLength).splits;
    assert Segmenter.Sheet(name, file, a, rmsLimit, gapLength) ==
      Segmenter.Head(name, a) + Segmenter.SplitLines(splits, Segmenter.AudioModeText(a.subchanBytes));
    LinesReadBack(name, a, splits);
  }

  /** `SheetReadsBack` for any split list. */
  lemma {:induction false} LinesReadBack(name: string, a: Sniffer.Analysis, splits: seq<Segmenter.Split>)
    requires PlainName(name)
    requires a.sectors != 0 ==> ModeOf(a.modeText).Some? && NoNul(a.modeText)
    requires SizeRaw + a.subchanBytes < Pow32
    requires (if a.sectors != 0 then 1 else 0) + |splits| <= MaxTracks
    requires forall k :: 0 <= k < |splits| ==> splits[k].idx0 < 450000 && splits[k].idx1 < 450000
    ensures var tracks := HeadTracks(name, a) + SplitTracks(name, splits, SplitLayout(a.subchanBytes));
      var lines := Segmenter.Head(name, a) + Segmenter.SplitLines(splits, Segmenter.AudioModeText(a.subchanBytes));
      ParseSheet(Segmenter.Text(lines), {name}) == if tracks == [] then Err(NoTracks) else Ok(tracks)
  {
    var mode := Segmenter.AudioModeText(a.subchanBytes);
    var ml := SplitLayout(a.subchanBytes);
    var head := Segmenter.Head(name, a);
    var rest := Segmenter.SplitLines(splits, mode);
    TextAppend(head, rest);
    ParseHead(name, a);
    ParseLinesAppend(Initial, Segmenter.Text(head), Segmenter.Text(rest), {name});
    AudioModeShape(a.subchanBytes);
    AudioModeLine(a.subchanBytes);
    var hs := ParserState(HeadTracks(name, a), name, a.sectors != 0, 0);
    ParseSplits(hs, splits, mode, ml, {name});
  }
}
