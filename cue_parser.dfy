/**
 * The CUE sheet reader: `ParseCueLine` (bin2iso.c:434-682) applied to every
 * line of the sheet by `ParseCue` (bin2iso.c:684-724).
 *
 * A line is handled in two steps: `Lex` reads what the line says (the
 * command and its fields, as the character scans of `ParseCueLine` find
 * them) into a `Directive`, and `Effect` applies a directive to the parse
 * state, with the program's fatal errors. The program keeps that state in
 * globals (`tracks[]`, `nTracks`) and in two variables of `ParseCue` (the
 * active FILE name and the active track, `currenttrack`); `CueSheet` holds it as
 * fields.
 */
module CueParser {
  import opened Common
  import opened SectorModes
  import opened Msf

  /** The state carried from one line to the next. */
  datatype ParserState = ParserState(
    tracks: seq<Track>,   // tracks[0 .. nTracks-1]
    activeFile: string,   // the last FILE name, "" before any FILE
    hasTrack: bool,       // whether `currenttrack` is set (it is the last track)
    unrecognised: nat)    // lines reported as "Unrecognised line in CUE"

  const Initial: ParserState := ParserState([], "", false, 0)

  /** The shape every state a call can start from has: an active track exists. */
  predicate WellFormed(st: ParserState) {
    st.hasTrack ==> |st.tracks| > 0
  }

  // ---------------------------------------------------------------------------
  // Characters

  /** What C sees of a line: the characters before the first NUL. */
  function CString(line: string): (s: string)
    ensures StartsWith(line, s)
    ensures forall k :: 0 <= k < |s| ==> s[k] != '\0'
    ensures |s| < |line| ==> line[|s|] == '\0'
  {
    line[..FirstOf(line, 0, '\0')]
  }

  /** Skipped before a command: spaces and line ends, but not tabs. */
  const LineSpace: set<char> := {' ', '\n', '\r'}

  /** Skipped between the fields of a command. */
  const Blank: set<char> := {' '}

  /** The commands that are accepted and have no effect. */
  const IgnoredCommands: seq<string> :=
    ["PREGAP ", "POSTGAP ", "CDTEXTFILE ", "SONGWRITER ", "PERFORMER ",
     "CATALOG ", "FLAGS ", "TITLE ", "ISRC ", "REM "]

  predicate IsIgnored(rest: string) {
    exists k :: 0 <= k < |IgnoredCommands| && StartsWith(rest, IgnoredCommands[k])
  }

  // ---------------------------------------------------------------------------
  // FILE

  predicate IsControl(c: char) {
    1 <= c as int <= 31
  }

  predicate IsSeparator(c: char) {
    c == '/' || c == '\\'
  }

  /** The part of `t` after its last path separator (all of `t` when it has none). */
  function AfterLastSeparator(t: string): (r: string)
    ensures |r| <= |t|
    ensures forall k :: 0 <= k < |r| ==> !IsSeparator(r[k])
  {
    if t == [] then []
    else if IsSeparator(t[|t| - 1]) then []
    else AfterLastSeparator(t[..|t| - 1]) + [t[|t| - 1]]
  }

  /** `t` without its control characters and quotes. */
  function Visible(t: string): (r: string)
    ensures |r| <= |t|
    ensures forall k :: 0 <= k < |r| ==> !IsControl(r[k]) && r[k] != '"'
    ensures (forall k :: 0 <= k < |t| ==> !IsSeparator(t[k])) ==>
      forall k :: 0 <= k < |r| ==> !IsSeparator(r[k])
  {
    if t == [] then []
    else
      var c := t[|t| - 1];
      Visible(t[..|t| - 1]) + (if IsControl(c) || c == '"' then [] else [c])
  }

  /**
   * Where the name field starting at `s[i]` ends, and whether it is quoted: a
   * quote before the first space opens a quoted name, which runs to the next
   * quote; otherwise the name runs to the first space.
   */
  function NameField(s: string, i: nat): (r: (nat, bool))
    requires i <= |s|
    ensures i <= r.0 <= |s|
    ensures r.0 < |s| ==> s[r.0] == (if r.1 then '"' else ' ')
  {
    var sp := FirstOf(s, i, ' ');
    var q := FirstOf(s, i, '"');
    if q < sp then (FirstOf(s, q + 1, '"'), true) else (sp, false)
  }

  /**
   * The name a FILE command sets: the visible characters of the field after
   * its last path separator. An unclosed quote and an empty name are errors.
   */
  function FileName(s: string, i: nat): (r: Result<string>)
    requires i <= |s|
    ensures r.Ok? ==> r.value != []
    ensures r.Ok? ==> forall k :: 0 <= k < |r.value| ==>
      !IsSeparator(r.value[k]) && !IsControl(r.value[k]) && r.value[k] != '"'
    ensures r.Err? ==> r.error == UnpairedQuote || r.error == EmptyFileName
    ensures r == Err(UnpairedQuote) <==> NameField(s, i).1 && NameField(s, i).0 == |s|
  {
    var (stop, quoted) := NameField(s, i);
    if quoted && stop == |s| then Err(UnpairedQuote)
    else
      var name := Visible(AfterLastSeparator(s[i..stop]));
      if name == [] then Err(EmptyFileName) else Ok(name)
  }

  /**
   * A name with no quote, separator or control character, between quotes at
   * the start of the field, reads back, whatever precedes or follows it.
   */
  lemma QuotedFileName(p: string, name: string, rest: string)
    requires name != []
    requires forall k :: 0 <= k < |name| ==>
      !IsSeparator(name[k]) && !IsControl(name[k]) && name[k] != '"'
    ensures FileName(p + "\"" + name + "\"" + rest, |p|) == Ok(name)
  {
    var s := p + "\"" + name + "\"" + rest;
    var i := |p|;
    assert s[i] == '"';
    assert s[i + 1..i + 1 + |name|] == name;
    assert s[i + 1 + |name|] == '"';
    QuotedAt(s, i, name);
  }

  lemma QuotedAt(s: string, i: nat, name: string)
    requires i + |name| + 2 <= |s| && name != []
    requires s[i] == '"' && s[i + 1..i + 1 + |name|] == name && s[i + 1 + |name|] == '"'
    requires forall k :: 0 <= k < |name| ==>
      !IsSeparator(name[k]) && !IsControl(name[k]) && name[k] != '"'
    ensures FileName(s, i) == Ok(name)
  {
    var close := i + |name| + 1;
    QuotedField(s, i, name);
    assert s[i..close] == ['"'] + name;
    QuotedName(name);
    ClosedName(s, i, close, name);
  }

  /** A closed field whose visible part is `name` names `name`. */
  lemma ClosedName(s: string, i: nat, close: nat, name: string)
    requires i <= close < |s| && NameField(s, i) == (close, true)
    requires name != [] && Visible(AfterLastSeparator(s[i..close])) == name
    ensures FileName(s, i) == Ok(name)
  {
  }

  lemma QuotedField(s: string, i: nat, name: string)
    requires i + |name| + 2 <= |s|
    requires s[i] == '"' && s[i + 1..i + 1 + |name|] == name && s[i + 1 + |name|] == '"'
    requires forall k :: 0 <= k < |name| ==> name[k] != '"'
    ensures NameField(s, i) == (i + |name| + 1, true)
  {
    var close := i + |name| + 1;
    assert forall k :: i + 1 <= k < close ==> s[k] == name[k - i - 1];
    assert FirstOf(s, i, '"') == i;
    FirstOfAt(s, i + 1, '"', close);
  }

  lemma QuotedName(name: string)
    requires forall k :: 0 <= k < |name| ==>
      !IsSeparator(name[k]) && !IsControl(name[k]) && name[k] != '"'
    ensures Visible(AfterLastSeparator(['"'] + name)) == name
  {
    QuotedNoSeparator(name);
    VisibleQuote();
    VisibleAppend(['"'], name);
  }

  lemma QuotedNoSeparator(name: string)
    requires forall k :: 0 <= k < |name| ==> !IsSeparator(name[k])
    ensures AfterLastSeparator(['"'] + name) == ['"'] + name
  {
    var t := ['"'] + name;
    assert forall k :: 0 < k < |t| ==> t[k] == name[k - 1];
    NoSeparator(t);
  }

  lemma VisibleQuote()
    ensures Visible(['"']) == []
  {
    assert ['"'][..0] == [];
  }

  /** The first occurrence is the position where `c` stands with no `c` before it. */
  lemma FirstOfAt(s: string, i: nat, c: char, j: nat)
    requires i <= j < |s| && s[j] == c
    requires forall k :: i <= k < j ==> s[k] != c
    ensures FirstOf(s, i, c) == j
  {
  }

  lemma {:induction false} NoSeparator(t: string)
    requires forall k :: 0 <= k < |t| ==> !IsSeparator(t[k])
    ensures AfterLastSeparator(t) == t
  {
    if t != [] {
      NoSeparator(t[..|t| - 1]);
      assert t[..|t| - 1] + [t[|t| - 1]] == t;
    }
  }

  lemma {:induction false} VisibleAppend(a: string, b: string)
    requires forall k :: 0 <= k < |b| ==> !IsControl(b[k]) && b[k] != '"'
    ensures Visible(a + b) == Visible(a) + b
  {
    if b != [] {
      var c := b[|b| - 1];
      var b' := b[..|b| - 1];
      assert (a + b)[..|a + b| - 1] == a + b';
      assert (a + b)[|a + b| - 1] == c;
      assert !IsControl(c) && c != '"';
      assert Visible(a + b) == Visible(a + b') + [c];
      VisibleAppend(a, b');
      assert b' + [c] == b;
    } else {
      assert a + b == a;
    }
  }

  /** The name after absorbing one more field character. */
  function Absorb(name: string, c: char): string {
    if IsSeparator(c) then []
    else if IsControl(c) || c == '"' then name
    else name + [c]
  }

  /** The name the scan has collected from the field characters `s[i..j]`. */
  function Collected(s: string, i: nat, j: nat): string
    requires i <= j <= |s|
    decreases j - i
  {
    if j == i then [] else Absorb(Collected(s, i, j - 1), s[j - 1])
  }

  /** The collected name is the visible part after the last separator. */
  lemma {:induction false} CollectedIsVisible(s: string, i: nat, j: nat)
    requires i <= j <= |s|
    ensures Collected(s, i, j) == Visible(AfterLastSeparator(s[i..j]))
    decreases j - i
  {
    if j > i {
      var t, c := s[i..j - 1], s[j - 1];
      calc {
        Collected(s, i, j);
        { CollectedStep(s, i, j); }
        Absorb(Collected(s, i, j - 1), c);
        { CollectedIsVisible(s, i, j - 1); }
        Absorb(Visible(AfterLastSeparator(t)), c);
        { VisibleAbsorb(t, c); }
        Visible(AfterLastSeparator(t + [c]));
        { CollectedStep(s, i, j); }
        Visible(AfterLastSeparator(s[i..j]));
      }
    } else {
      assert s[i..j] == [];
    }
  }

  lemma CollectedStep(s: string, i: nat, j: nat)
    requires i < j <= |s|
    ensures Collected(s, i, j) == Absorb(Collected(s, i, j - 1), s[j - 1])
    ensures s[i..j] == s[i..j - 1] + [s[j - 1]]
  {
  }

  lemma VisibleAbsorb(t: string, c: char)
    ensures Visible(AfterLastSeparator(t + [c])) == Absorb(Visible(AfterLastSeparator(t)), c)
  {
    assert (t + [c])[..|t|] == t;
    if !IsSeparator(c) {
      var a := AfterLastSeparator(t);
      assert AfterLastSeparator(t + [c]) == a + [c];
      assert (a + [c])[..|a|] == a;
    }
  }

  /** Inside the field the scan goes on, and the terminator follows the first quote. */
  lemma NameFieldContinue(s: string, i: nat, j: nat)
    requires i <= j < |s|
    requires j <= NameField(s, i).0
    requires FirstOf(s, i, '"') < j ==> FirstOf(s, i, '"') < FirstOf(s, i, ' ')
    requires s[j] != (if FirstOf(s, i, '"') < j then '"' else ' ')
    ensures j < NameField(s, i).0
    ensures FirstOf(s, i, '"') < j + 1 ==> FirstOf(s, i, '"') < FirstOf(s, i, ' ')
  {
    var q := FirstOf(s, i, '"');
    var sp := FirstOf(s, i, ' ');
    if q == j {
      assert s[j] == '"';
      assert j < sp;
    }
  }

  /** Where the scan stops is the end of the field, and its terminator tells whether it was quoted. */
  lemma NameFieldEnd(s: string, i: nat, j: nat)
    requires i <= |s| && i <= j <= NameField(s, i).0
    requires FirstOf(s, i, '"') < j ==> FirstOf(s, i, '"') < FirstOf(s, i, ' ')
    requires j == |s| || s[j] == (if FirstOf(s, i, '"') < j then '"' else ' ')
    ensures j == NameField(s, i).0
    ensures FirstOf(s, i, '"') < j <==> NameField(s, i).1
  {
  }

  /**
   * The scan of bin2iso.c:457-496: control characters are dropped, a path
   * separator discards what was collected, a quote switches the terminator
   * from a space to a quote.
   */
  method ScanFileName(s: string, i: nat) returns (r: Result<string>)
    requires i <= |s|
    ensures r == FileName(s, i)
  {
    ghost var q, sp, stop := FirstOf(s, i, '"'), FirstOf(s, i, ' '), NameField(s, i).0;
    var name: string := [];
    var terminator := ' ';
    var j := i;
    while j < |s| && s[j] != terminator
      invariant i <= j <= stop
      invariant q < j ==> q < sp
      invariant terminator == (if q < j then '"' else ' ')
      invariant name == Collected(s, i, j)
    {
      var c := s[j];
      NameFieldContinue(s, i, j);
      if IsControl(c) {
      } else if IsSeparator(c) {
        name := [];
      } else if c == '"' {
        terminator := '"';
      } else {
        name := name + [c];
      }
      j := j + 1;
    }
    NameFieldEnd(s, i, j);
    CollectedIsVisible(s, i, j);
    if terminator == '"' && CharAt(s, j) != '"' {
      return Err(UnpairedQuote);
    }
    if name == [] {
      return Err(EmptyFileName);
    }
    return Ok(name);
  }

  // ---------------------------------------------------------------------------
  // TRACK and INDEX fields

  /** The file name up to its last '.', or all of it when it has none (`strrchr`). */
  function Stem(f: string): (r: string)
    ensures |r| <= |f| && r == f[..|r|]
    ensures |r| < |f| ==> f[|r|] == '.' && forall k :: |r| < k < |f| ==> f[k] != '.'
    ensures |r| == |f| ==> forall k :: 0 <= k < |f| ==> f[k] != '.'
  {
    if f == [] then []
    else if f[|f| - 1] == '.' then f[..|f| - 1]
    else
      var p := Stem(f[..|f| - 1]);
      if |p| == |f| - 1 then f else p
  }

  /** "<source file without extension>-<track number text>.wav" or ".iso". */
  function OutputName(file: string, numText: string, mode: Mode): string {
    Stem(file) + "-" + numText + (if mode.IsAudio() then ".wav" else ".iso")
  }

  predicate EndsWith(s: string, p: string) {
    |p| <= |s| && s[|s| - |p|..] == p
  }

  /** The name of a new track keeps the file's stem and ends in the extension its mode calls for. */
  lemma OutputNameShape(file: string, numText: string, mode: Mode)
    ensures StartsWith(OutputName(file, numText, mode), Stem(file) + "-" + numText)
    ensures mode.IsAudio() ==> EndsWith(OutputName(file, numText, mode), ".wav")
    ensures !mode.IsAudio() ==> EndsWith(OutputName(file, numText, mode), ".iso")
  {
    var x := Stem(file) + "-" + numText;
    var y := if mode.IsAudio() then ".wav" else ".iso";
    assert (x + y)[..|x|] == x;
    assert (x + y)[|x + y| - |y|..] == y;
  }

  /**
   * The fields of a TRACK command whose number starts at `s[i]`: the digits
   * and their value, and the mode text, which starts after the one character
   * following the digits (overwritten by the program) and any spaces.
   */
  function TrackFields(s: string, i: nat): (r: (nat, string, string))
    requires i <= |s|
    ensures AllDigits(r.1) && r.0 == DecimalValue(r.1)
  {
    var digits := LeadingDigits(s[i..]);
    var k := i + |digits|;
    var m := SkipOver(s, if k < |s| then k + 1 else k, Blank);
    (DecimalValue(digits), digits, s[m..])
  }

  /**
   * The fields of an INDEX command whose number starts at `s[i]`: the number,
   * and where its time starts, after the spaces that follow the number.
   */
  function IndexFields(s: string, i: nat): (r: (nat, nat))
    requires i <= |s|
    ensures i <= r.1 <= |s|
  {
    var digits := LeadingDigits(s[i..]);
    (DecimalValue(digits), SkipOver(s, i + |digits|, Blank))
  }

  // ---------------------------------------------------------------------------
  // Lines

  /** What one line says. */
  datatype Directive =
    | NoCommand                                            // blank line
    | FileCmd(name: Result<string>)                         // FILE, with its name or the name's error
    | TrackCmd(num: nat, numText: string, modeText: string) // TRACK
    | IndexCmd(index: nat, sector: nat)                     // INDEX
    | IgnoredCmd                                            // a command without effect
    | UnknownCmd                                            // anything else

  /** A line's directive, by the prefix tests of bin2iso.c in their order. */
  function Lex(line: string): (d: Directive)
    ensures d.FileCmd? && d.name.Ok? ==> d.name.value != []
    ensures d.IndexCmd? ==> d.sector < Pow32
    ensures d.TrackCmd? ==> AllDigits(d.numText) && d.num == DecimalValue(d.numText)
  {
    var s := CString(line);
    LexCommand(s, SkipOver(s, 0, LineSpace))
  }

  /** The directive of the command that starts at `s[i]`, after the leading space. */
  function LexCommand(s: string, i: nat): (d: Directive)
    requires i <= |s|
    ensures d.FileCmd? && d.name.Ok? ==> d.name.value != []
    ensures d.IndexCmd? ==> d.sector < Pow32
    ensures d.TrackCmd? ==> AllDigits(d.numText) && d.num == DecimalValue(d.numText)
  {
    if i == |s| then NoCommand
    else if StartsWith(s[i..], "FILE ") then FileCmd(FileName(s, SkipOver(s, i + 5, Blank)))
    else if StartsWith(s[i..], "TRACK ") then
      var f := TrackFields(s, SkipOver(s, i + 6, Blank));
      TrackCmd(f.0, f.1, f.2)
    else if StartsWith(s[i..], "INDEX ") then
      var f := IndexFields(s, SkipOver(s, i + 6, Blank));
      IndexCmd(f.0, ReadTime(s, f.1))
    else if IsIgnored(s[i..]) then IgnoredCmd
    else UnknownCmd
  }

  /**
   * The table entry a TRACK command creates from the active file, the number
   * and its text, and the mode text; None when the mode is unknown.
   */
  function NewTrack(file: string, num: nat, numText: string, modeText: string): (r: Option<Track>)
    ensures r.None? <==> ModeOf(modeText).None?
    ensures r.Some? ==> r.value.mode == ModeOf(modeText).value
    ensures r.Some? ==> r.value.idx0 == -1 && r.value.idx1 == -1
    ensures r.Some? ==> r.value.num == num && r.value.srcFile == file
    ensures r.Some? ==> r.value.name == OutputName(file, numText, r.value.mode)
    ensures r.Some? ==> r.value.predata + r.value.postdata <= r.value.sectorSize
  {
    match LayoutOfText(modeText)
    case None => None
    case Some((mode, l)) =>
      Some(Track(mode, num, -1, -1, 0, 0, l.sectorSize, l.predata, l.postdata,
                 file, OutputName(file, numText, mode)))
  }

  /**
   * INDEX 0 sets the pregap start and INDEX 1 the data start; whichever comes
   * first also fills the other one while it is unset (-1).
   */
  function SetIndex(t: Track, n: nat, sector: nat): (r: Track)
    requires n < 2
    ensures r.(idx0 := t.idx0, idx1 := t.idx1) == t
    ensures n == 0 ==> r.idx0 == sector && (t.idx1 != -1 ==> r.idx1 == t.idx1)
    ensures n == 1 ==> r.idx1 == sector && (t.idx0 != -1 ==> r.idx0 == t.idx0)
    ensures t.idx0 == -1 && t.idx1 == -1 ==> r.idx0 == sector && r.idx1 == sector
  {
    if n == 0 then t.(idx0 := sector, idx1 := if t.idx1 == -1 then sector else t.idx1)
    else t.(idx1 := sector, idx0 := if t.idx0 == -1 then sector else t.idx0)
  }

  /** For a fresh track, INDEX 00 and INDEX 01 give the same pair in either order. */
  lemma IndexOrderIrrelevant(t: Track, a: nat, b: nat)
    requires t.idx0 == -1 && t.idx1 == -1
    ensures SetIndex(SetIndex(t, 0, a), 1, b) == SetIndex(SetIndex(t, 1, b), 0, a)
    ensures SetIndex(SetIndex(t, 0, a), 1, b).idx0 == a
    ensures SetIndex(SetIndex(t, 0, a), 1, b).idx1 == b
  {
  }

  /**
   * What a directive does to the state, checked in the program's order:
   * FILE sets the active file and clears the active track; TRACK needs room,
   * an active and openable file and a known mode, and appends a track that
   * becomes active; INDEX needs an active track and a number below 2, and
   * index 0 only on audio; unknown lines are counted.
   */
  function Effect(st: ParserState, d: Directive, openable: set<string>): (r: Result<ParserState>)
    requires WellFormed(st)
    ensures r.Ok? ==> WellFormed(r.value)
    ensures d.NoCommand? || d.IgnoredCmd? ==> r == Ok(st)
    ensures d.UnknownCmd? ==> r == Ok(st.(unrecognised := st.unrecognised + 1))
    ensures d.FileCmd? ==> (r.Ok? <==> d.name.Ok?)
    ensures d.FileCmd? && r.Ok? ==> r.value == st.(activeFile := d.name.value, hasTrack := false)
    ensures d.TrackCmd? && |st.tracks| >= MaxTracks ==> r == Err(TooManyTracks)
    ensures d.TrackCmd? && |st.tracks| < MaxTracks && st.activeFile == [] ==> r == Err(TrackBeforeFile)
    ensures d.TrackCmd? && |st.tracks| < MaxTracks && st.activeFile != [] && st.activeFile !in openable ==>
      r == Err(CannotOpen(st.activeFile))
    ensures d.TrackCmd? && |st.tracks| < MaxTracks && st.activeFile != [] && st.activeFile in openable ==>
      (r.Ok? <==> NewTrack(st.activeFile, d.num, d.numText, d.modeText).Some?)
      && (r.Err? ==> r == Err(UnknownMode))
    ensures d.TrackCmd? && r.Ok? ==>
      && st.activeFile in openable
      && |r.value.tracks| == |st.tracks| + 1
      && r.value.tracks[..|st.tracks|] == st.tracks
      && r.value == st.(tracks := r.value.tracks, hasTrack := true)
      && NewTrack(st.activeFile, d.num, d.numText, d.modeText) == Some(r.value.tracks[|st.tracks|])
    ensures d.IndexCmd? && !st.hasTrack ==> r == Err(IndexWithoutTrack)
    ensures d.IndexCmd? && st.hasTrack && d.index >= 2 ==> r == Err(BadIndexNumber)
    ensures d.IndexCmd? && st.hasTrack && d.index == 0 && !st.tracks[|st.tracks| - 1].mode.IsAudio() ==>
      r == Err(PregapOnDataTrack)
    ensures d.IndexCmd? && st.hasTrack && (d.index == 1 || (d.index == 0 && st.tracks[|st.tracks| - 1].mode.IsAudio())) ==>
      r.Ok?
    ensures d.IndexCmd? && r.Ok? ==>
      && d.index < 2
      && |r.value.tracks| == |st.tracks|
      && r.value.tracks[..|st.tracks| - 1] == st.tracks[..|st.tracks| - 1]
      && r.value.tracks[|st.tracks| - 1] == SetIndex(st.tracks[|st.tracks| - 1], d.index, d.sector)
      && r.value == st.(tracks := r.value.tracks)
  {
    match d
    case NoCommand => Ok(st)
    case FileCmd(name) =>
      (match name
       case Err(e) => Err(e)
       case Ok(file) => Ok(st.(activeFile := file, hasTrack := false)))
    case TrackCmd(num, numText, modeText) =>
      if |st.tracks| >= MaxTracks then Err(TooManyTracks)
      else if st.activeFile == [] then Err(TrackBeforeFile)
      else if st.activeFile !in openable then Err(CannotOpen(st.activeFile))
      else
        (match NewTrack(st.activeFile, num, numText, modeText)
         case None => Err(UnknownMode)
         case Some(t) => Ok(st.(tracks := st.tracks + [t], hasTrack := true)))
    case IndexCmd(n, sector) =>
      if !st.hasTrack then Err(IndexWithoutTrack)
      else if n >= 2 then Err(BadIndexNumber)
      else
        var last := st.tracks[|st.tracks| - 1];
        if n == 0 && !last.mode.IsAudio() then Err(PregapOnDataTrack)
        else Ok(st.(tracks := st.tracks[..|st.tracks| - 1] + [SetIndex(last, n, sector)]))
    case IgnoredCmd => Ok(st)
    case UnknownCmd => Ok(st.(unrecognised := st.unrecognised + 1))
  }

  /** One call of `ParseCueLine`: the state after the line, or the error that stops the program. */
  function Step(st: ParserState, line: string, openable: set<string>): Result<ParserState>
    requires WellFormed(st)
  {
    Effect(st, Lex(line), openable)
  }

  /** The lines of a sheet, one `Step` after the other, stopping at the first error. */
  function ParseLines(st: ParserState, lines: seq<string>, openable: set<string>): (r: Result<ParserState>)
    requires WellFormed(st)
    ensures r.Ok? ==> WellFormed(r.value)
    decreases |lines|
  {
    if lines == [] then Ok(st)
    else
      match Step(st, lines[0], openable)
      case Err(e) => Err(e)
      case Ok(next) => ParseLines(next, lines[1..], openable)
  }

  lemma ParseLinesCons(st: ParserState, lines: seq<string>, openable: set<string>)
    requires WellFormed(st) && lines != []
    ensures Step(st, lines[0], openable).Err? ==>
      ParseLines(st, lines, openable) == Err(Step(st, lines[0], openable).error)
    ensures Step(st, lines[0], openable).Ok? ==>
      ParseLines(st, lines, openable) == ParseLines(Step(st, lines[0], openable).value, lines[1..], openable)
  {
  }

  /** `ParseCue`: the track table of a whole sheet, which must declare a TRACK. */
  function ParseSheet(lines: seq<string>, openable: set<string>): (r: Result<seq<Track>>)
    ensures r.Ok? ==> |r.value| > 0
  {
    match ParseLines(Initial, lines, openable)
    case Err(e) => Err(e)
    case Ok(st) => if st.tracks == [] then Err(NoTracks) else Ok(st.tracks)
  }

  // ---------------------------------------------------------------------------
  // What every parsed track satisfies

  /**
   * A table entry as the parser leaves it: both indices set or neither, each a
   * `uint32_t` sector index, a layout that fits the sector, a named source file
   * and an output name whose extension follows the mode.
   */
  predicate TrackOk(t: Track) {
    (t.idx0 == -1 <==> t.idx1 == -1)
    && -1 <= t.idx0 < Pow32 && -1 <= t.idx1 < Pow32
    && t.predata + t.postdata <= t.sectorSize
    && t.srcFile != []
    && (t.mode.IsAudio() ==> EndsWith(t.name, ".wav"))
    && (!t.mode.IsAudio() ==> EndsWith(t.name, ".iso"))
  }

  predicate ValidState(st: ParserState) {
    WellFormed(st)
    && |st.tracks| <= MaxTracks
    && (st.hasTrack ==> st.tracks[|st.tracks| - 1].srcFile == st.activeFile)
    && (|st.tracks| > 0 ==> st.activeFile != [])
    && forall k :: 0 <= k < |st.tracks| ==> TrackOk(st.tracks[k])
  }

  /** What `Lex` guarantees of a directive, and all that validity needs of it. */
  predicate DirectiveOk(d: Directive) {
    (d.FileCmd? && d.name.Ok? ==> d.name.value != [])
    && (d.IndexCmd? ==> d.sector < Pow32)
  }

  /** A TRACK that succeeds appends a valid track and keeps the older ones. */
  lemma TrackValid(st: ParserState, d: Directive, openable: set<string>)
    requires ValidState(st) && d.TrackCmd?
    requires Effect(st, d, openable).Ok?
    ensures ValidState(Effect(st, d, openable).value)
  {
    var r := Effect(st, d, openable).value;
    var t := NewTrack(st.activeFile, d.num, d.numText, d.modeText).value;
    assert r == st.(tracks := st.tracks + [t], hasTrack := true);
    OutputNameShape(st.activeFile, d.numText, t.mode);
    assert TrackOk(t);
    AppendValid(st, t, r);
  }

  lemma AppendValid(st: ParserState, t: Track, r: ParserState)
    requires ValidState(st) && TrackOk(t) && |st.tracks| < MaxTracks
    requires st.activeFile != [] && t.srcFile == st.activeFile
    requires r == st.(tracks := st.tracks + [t], hasTrack := true)
    ensures ValidState(r)
  {
    assert forall k :: 0 <= k < |st.tracks| ==> r.tracks[k] == st.tracks[k];
  }

  /** An INDEX that succeeds sets a `uint32_t` index pair on the last track only. */
  lemma IndexValid(st: ParserState, d: Directive, openable: set<string>)
    requires ValidState(st) && d.IndexCmd? && d.sector < Pow32
    requires Effect(st, d, openable).Ok?
    ensures ValidState(Effect(st, d, openable).value)
  {
    var r := Effect(st, d, openable).value;
    var last := st.tracks[|st.tracks| - 1];
    assert r.tracks == st.tracks[..|st.tracks| - 1] + [SetIndex(last, d.index, d.sector)];
    assert forall k :: 0 <= k < |st.tracks| - 1 ==> r.tracks[k] == st.tracks[k];
  }

  /** Every directive that `Lex` can produce keeps the table valid. */
  lemma EffectValid(st: ParserState, d: Directive, openable: set<string>)
    requires ValidState(st) && DirectiveOk(d)
    ensures Effect(st, d, openable).Ok? ==> ValidState(Effect(st, d, openable).value)
  {
    if Effect(st, d, openable).Ok? {
      if d.TrackCmd? {
        TrackValid(st, d, openable);
      } else if d.IndexCmd? {
        IndexValid(st, d, openable);
      }
    }
  }

  /** Every line keeps the table valid. */
  lemma StepValid(st: ParserState, line: string, openable: set<string>)
    requires ValidState(st)
    ensures Step(st, line, openable).Ok? ==> ValidState(Step(st, line, openable).value)
  {
    EffectValid(st, Lex(line), openable);
  }

  lemma {:induction false} ParseLinesValid(st: ParserState, lines: seq<string>, openable: set<string>)
    requires ValidState(st)
    ensures ParseLines(st, lines, openable).Ok? ==> ValidState(ParseLines(st, lines, openable).value)
    decreases |lines|
  {
    if lines != [] {
      StepValid(st, lines[0], openable);
      var r := Step(st, lines[0], openable);
      if r.Ok? {
        ParseLinesValid(r.value, lines[1..], openable);
      }
    }
  }

  /** A sheet that parses yields between 1 and 100 tracks, every one of them valid. */
  lemma ParsedSheetValid(lines: seq<string>, openable: set<string>)
    ensures ParseSheet(lines, openable).Ok? ==>
      var ts := ParseSheet(lines, openable).value;
      0 < |ts| <= MaxTracks && forall k :: 0 <= k < |ts| ==> TrackOk(ts[k])
  {
    ParseLinesValid(Initial, lines, openable);
  }

  // ---------------------------------------------------------------------------
  // The imperative reader

  /** `strlen`-style cut at the first NUL. */
  method CutAtNul(line: string) returns (s: string)
    ensures s == CString(line)
  {
    var n := 0;
    while n < |line| && line[n] != '\0'
      invariant 0 <= n <= |line|
      invariant FirstOf(line, n, '\0') == FirstOf(line, 0, '\0')
    {
      n := n + 1;
    }
    s := line[..n];
  }

  /** `while (strchr(cs, *readp)) readp++;` */
  method Skip(s: string, i: nat, cs: set<char>) returns (j: nat)
    requires i <= |s|
    ensures j == SkipOver(s, i, cs)
  {
    j := i;
    while j < |s| && s[j] in cs
      invariant i <= j <= |s|
      invariant SkipOver(s, j, cs) == SkipOver(s, i, cs)
    {
      j := j + 1;
    }
  }

  /** The digit loop: `n = n * 10 + (*readp++ - '0')` while a digit is seen. */
  method ReadNumber(s: string, i: nat) returns (value: nat, j: nat)
    requires i <= |s|
    ensures j == i + |LeadingDigits(s[i..])| && s[i..j] == LeadingDigits(s[i..])
    ensures value == DecimalValue(LeadingDigits(s[i..]))
  {
    value, j := 0, i;
    while j < |s| && IsDigit(s[j])
      invariant i <= j <= |s|
      invariant AllDigits(s[i..j])
      invariant value == DecimalValue(s[i..j])
    {
      DigitsSnoc(s, i, j);
      value := value * 10 + DigitValue(s[j]);
      j := j + 1;
    }
    assert s[i..][..j - i] == s[i..j];
    LeadingDigitsUnique(s[i..], s[i..j]);
  }

  lemma DigitsSnoc(s: string, i: nat, j: nat)
    requires i <= j < |s| && AllDigits(s[i..j]) && IsDigit(s[j])
    ensures AllDigits(s[i..j + 1])
    ensures DecimalValue(s[i..j + 1]) == 10 * DecimalValue(s[i..j]) + DigitValue(s[j])
  {
    var t := s[i..j + 1];
    assert t[..j - i] == s[i..j] && t[j - i] == s[j];
    assert forall k :: 0 <= k < |t| ==> IsDigit(t[k]) by {
      forall k | 0 <= k < |t| ensures IsDigit(t[k]) {
        if k < j - i { assert t[k] == s[i..j][k]; }
      }
    }
  }

  /** The fields of a TRACK command, scanned as `ParseCueLine` scans them. */
  method ScanTrackFields(s: string, j: nat) returns (f: (nat, string, string))
    requires j <= |s|
    ensures f == TrackFields(s, j)
  {
    var num, k := ReadNumber(s, j);
    ghost var digits := LeadingDigits(s[j..]);
    assert k == j + |digits| && s[j..k] == digits;
    var m := Skip(s, if k < |s| then k + 1 else k, Blank);
    f := (num, s[j..k], s[m..]);
  }

  /** The fields of an INDEX command, scanned as `ParseCueLine` scans them. */
  method ScanIndexFields(s: string, j: nat) returns (f: (nat, nat))
    requires j <= |s|
    ensures f == IndexFields(s, j)
  {
    var n, k := ReadNumber(s, j);
    var p := Skip(s, k, Blank);
    f := (n, p);
  }

  /** The scanning half of `ParseCueLine`: what the line says. */
  method LexLine(line: string) returns (d: Directive)
    ensures d == Lex(line)
  {
    var s := CutAtNul(line);
    var i := Skip(s, 0, LineSpace);
    if i == |s| {
      d := NoCommand;
    } else if StartsWith(s[i..], "FILE ") {
      var j := Skip(s, i + 5, Blank);
      var name := ScanFileName(s, j);
      d := FileCmd(name);
    } else if StartsWith(s[i..], "TRACK ") {
      var j := Skip(s, i + 6, Blank);
      var f := ScanTrackFields(s, j);
      d := TrackCmd(f.0, f.1, f.2);
    } else if StartsWith(s[i..], "INDEX ") {
      var j := Skip(s, i + 6, Blank);
      var f := ScanIndexFields(s, j);
      d := IndexCmd(f.0, ReadTime(s, f.1));
    } else if IsIgnored(s[i..]) {
      d := IgnoredCmd;
    } else {
      d := UnknownCmd;
    }
    assert d == LexCommand(s, i);
  }

  /** The reader's state: the globals `tracks[]`/`nTracks` and `ParseCue`'s locals. */
  class CueSheet {
    var tracks: seq<Track>
    var activeFile: string
    var hasTrack: bool
    var unrecognised: nat

    function State(): ParserState
      reads this
    {
      ParserState(tracks, activeFile, hasTrack, unrecognised)
    }

    constructor ()
      ensures State() == Initial
    {
      tracks, activeFile, hasTrack, unrecognised := [], "", false, 0;
    }

    /** `ParseCueLine`: reads one line into the state, or returns the fatal error. */
    method ParseLine(line: string, openable: set<string>) returns (failure: Option<Error>)
      requires WellFormed(State())
      modifies this
      ensures failure.None? ==> Step(old(State()), line, openable) == Ok(State())
      ensures failure.Some? ==> Step(old(State()), line, openable) == Err(failure.value)
    {
      var d := LexLine(line);
      failure := Apply(d, openable);
    }

    /** The acting half of `ParseCueLine`: the checks and updates of each command. */
    method Apply(d: Directive, openable: set<string>) returns (failure: Option<Error>)
      requires WellFormed(State())
      modifies this
      ensures failure.None? ==> Effect(old(State()), d, openable) == Ok(State())
      ensures failure.Some? ==> Effect(old(State()), d, openable) == Err(failure.value)
    {
      match d
      case NoCommand =>
        return None;
      case FileCmd(name) =>
        if name.Err? {
          return Some(name.error);
        }
        activeFile := name.value;
        hasTrack := false;
        return None;
      case TrackCmd(num, numText, modeText) =>
        if |tracks| >= MaxTracks {
          return Some(TooManyTracks);
        }
        if activeFile == [] {
          return Some(TrackBeforeFile);
        }
        if activeFile !in openable {
          return Some(CannotOpen(activeFile));
        }
        var t := NewTrack(activeFile, num, numText, modeText);
        if t.None? {
          return Some(UnknownMode);
        }
        tracks := tracks + [t.value];
        hasTrack := true;
        return None;
      case IndexCmd(n, sector) =>
        if !hasTrack {
          return Some(IndexWithoutTrack);
        }
        if n >= 2 {
          return Some(BadIndexNumber);
        }
        var last := tracks[|tracks| - 1];
        if n == 0 && !last.mode.IsAudio() {
          return Some(PregapOnDataTrack);
        }
        tracks := tracks[..|tracks| - 1] + [SetIndex(last, n, sector)];
        return None;
      case IgnoredCmd =>
        return None;
      case UnknownCmd =>
        unrecognised := unrecognised + 1;
        return None;
    }
  }

  /** `ParseCue`: every line in turn, then the check that some TRACK was declared. */
  method ParseCue(lines: seq<string>, openable: set<string>) returns (r: Result<seq<Track>>)
    ensures r == ParseSheet(lines, openable)
  {
    var sheet := new CueSheet();
    var n := 0;
    while n < |lines|
      invariant 0 <= n <= |lines|
      invariant WellFormed(sheet.State())
      invariant ParseLines(Initial, lines, openable) == ParseLines(sheet.State(), lines[n..], openable)
    {
      ParseLinesCons(sheet.State(), lines[n..], openable);
      assert lines[n..][0] == lines[n] && lines[n..][1..] == lines[n + 1..];
      var failure := sheet.ParseLine(lines[n], openable);
      if failure.Some? {
        return Err(failure.value);
      }
      n := n + 1;
    }
    assert lines[n..] == [];
    if sheet.tracks == [] {
      return Err(NoTracks);
    }
    return Ok(sheet.tracks);
  }
}
