# bin2iso conversion engine in Dafny

A model of the conversion engine in `bin2iso.c` (bin2iso V2.0), with proofs of what it promises. It has two directions.

- **Image plus CUE sheet to tracks.** The CUE sheet is parsed line by line (`ParseCueLine`) into track records. `IsoFromCue` then clamps every track's INDEX 00/01, walks the tracks with a running byte cursor and computes each track's start offset and sector count. Pregaps are discarded, kept, or turned into postgaps of the previous audio track, as `-n`, `-a` and `-p` select; `CheckGaps` decides whether a pregap holds enough non-zero data. `DoTrack` then copies the user data of every stored sector into the track's output.
- **Image without a sheet to a CUE sheet.** `AnalyseTrack` sniffs the first track. It looks for the 12-byte CD-ROM sync field (ECMA-130 clause 14) and a chain of sector sizes, or for an ISO 9660 Primary Volume Descriptor (ECMA-119 section 8.4) or a UDF "BEA01" descriptor (ECMA-167 part 2 section 9.2), and aligns the track end. `CueFromBin` then measures the mean square of every later audio sector and splits tracks at quiet runs.

The two directions meet in `SheetReading`: the sheet `CueFromBin` writes, read back line by line as `fgets` delivers it (each line keeping its `\n`), parses into exactly the tracks the segmenter found. That is the first sniffed track at sector 0, then one audio track per split, with the split's number, its INDEX 00 and INDEX 01 sectors and the measured sector size.

Modules, one per part of the source:

| file | module | source |
|---|---|---|
| common.dfy | `Common` | shared types: byte, `uint32_t` wrap, error kinds, modes, the track record (bin2iso.c:98-112), decimal text |
| sector_modes.dfy | `SectorModes` | the mode strings and sector layouts (bin2iso.c:546-593) |
| msf.dfy | `Msf` | `SectorIndex`, `TimeIndex` and the packed INDEX fields (bin2iso.c:211-231, 641-643) |
| cue_parser.dfy | `CueParser` | `ParseCueLine` and `ParseCue` (bin2iso.c:434-725) |
| demux.dfy | `Demux` | `DoTrack`'s sector loop (bin2iso.c:331-432) |
| pregap.dfy | `Pregap` | `CheckGaps` (bin2iso.c:728-765) |
| geometry.dfy | `Geometry` | `IsoFromCue`'s clamp and forward pass (bin2iso.c:767-860) |
| sniffer.dfy | `Sniffer` | `CheckIsoHeader` and `AnalyseTrack` (bin2iso.c:960-1143) |
| segmenter.dfy | `Segmenter` | `CueFromBin` (bin2iso.c:1145-1291) |
| round_trip.dfy | `SheetReading` | the sheet `CueFromBin` writes (bin2iso.c:1175-1257), read back by `ParseCue` (bin2iso.c:705-722) |

Modelling conventions:

- Every `exit(1)` is an `Err` carrying an `Error` that names the cause.
- Every `printf` warning that matters to a caller is a recorded warning value.
- Files are byte sequences. Which names can be opened is a set parameter. Every other file system call is replaced by those inputs.
- The options are parameters: the `GapPolicy` record and the two split settings, whose defaults are the constants of bin2iso.c:1352-1354.
- The C integer types are modelled where they change a result:
  - `uint32_t` products and sums wrap: `U32` is `x % 2^32`, `I32` the two's-complement reading of an `int32_t`;
  - `int16_t` samples are sign-extended;
  - a `uint16_t` split option is a `nat` below 2^16.
- The imperative parts of the source are methods with loops: the character scans of the parser, the `CueSheet` class over the parser state, the two passes of `IsoFromCue` over an `array<Track>`, the pregap count, the copy loop, the sector-size search, the sync scan, the alignment loop and the segmenter loop. Each is proved equal to a function that states the same computation as a recursion; the properties are then lemmas about those functions.

Where the code and the help text or comments disagree, the model follows the code:

- `CheckGaps` keeps a pregap when more than 294 words are non-zero (`SIZERAW >> 3`, bin2iso.c:757); the help text at bin2iso.c:1309 says 588.
- Pregaps become postgaps by default (`allPostGaps = true`, bin2iso.c:1352).
- The CUE parser holds at most 100 tracks (bin2iso.c:511).

## Model

| member | source | states |
|---|---|---|
| Common.U32 | bin2iso.c:1048 | a `uint32_t` result is below 2^32 and equals the exact value when that fits |
| Common.I32 | bin2iso.c:844 | an `int32_t` result lies in the signed 32-bit range and equals the exact value when that fits |
| Common.Decimal | bin2iso.c:1195 | the `%d` text of a number is a non-empty digit string, one digit below 10 and at least two from 10 on |
| Common.DecimalRoundTrip | bin2iso.c:535-536 | reading back the digits `%d` prints gives the number |
| Common.Decimal2 | bin2iso.c:1248 | the `%02d` text is at least two digits, exactly two below 100 |
| Common.Decimal2RoundTrip | bin2iso.c:535-536 | reading back the digits `%02d` prints gives the number |
| Common.SkipOver | bin2iso.c:442 | the scan skips exactly the characters of the set and stops at the first other one or the end |
| Common.FirstOf | bin2iso.c:458 | the position of the first occurrence of a character from `i` on, or the end when there is none |
| SectorModes.ModeOf | bin2iso.c:546-558 | a recognised mode text starts with that mode's name, "AUDIO" is chosen only when the text does not start with "AUDIO/", and an unrecognised text starts with no mode name |
| SectorModes.ModeOfName | bin2iso.c:546-558 | every mode name, followed by anything ("AUDIO" by anything but "/"), is recognised as that mode, so the prefix order never shadows a mode |
| SectorModes.LeadingDigits | bin2iso.c:563 | `strtol` reads the longest run of leading digits |
| SectorModes.Strtol | bin2iso.c:563 | the value `strtol` returns is within the range of `long` |
| SectorModes.StrtolOfDigits | bin2iso.c:563 | `strtol` of a digit string in range is that string's decimal value |
| SectorModes.LeadingDigitsUnique | bin2iso.c:563 | a digit prefix that is followed by a non-digit is the leading-digit run |
| SectorModes.LayoutOf | bin2iso.c:560-593 | every layout fits its sector. Every data mode carries 2048 bytes of user data. AUDIO is 2352/0/0. For AUDIO/n the sector size is n with no predata; it carries n bytes when n ≤ 2352, and otherwise 2352 bytes, with n − 2352 bytes of postdata |
| SectorModes.LayoutOfText | bin2iso.c:546-593 | a text has a layout exactly when its mode is recognised, the layout is that mode's, and it fits its sector |
| SectorModes.AudioSubDeclared | bin2iso.c:563-565 | "AUDIO/" followed by the decimal text of a 32-bit n gives the AUDIO/n layout |
| SectorModes.AudioSubSize | bin2iso.c:563 | the sector size read from after "AUDIO/" is the decimal value of the digits |
| Msf.SectorIndex | bin2iso.c:211-221 | the computed sector index fits a `uint32_t` |
| Msf.SectorIndexSplit | bin2iso.c:211-221 | the index divided by 75 is minutes × 60 + seconds, and its remainder is the frames, each field read as two BCD nibbles |
| Msf.PackDigits | bin2iso.c:641-643 | packing two ASCII digits as `((hi - '0') << 4) \| (lo - '0')` and reading the nibbles back gives the two-digit value |
| Msf.NibblesOf | bin2iso.c:215-217 | the two nibbles of `h*16 + l` read as decimal give `10h + l` |
| Msf.ReadTimeDigits | bin2iso.c:641-643 | the sector of an `mm:ss:ff` text read at the fixed columns is `(mm*60 + ss)*75 + ff` |
| Msf.TwoDigits | bin2iso.c:230 | a field below 100 prints as its tens digit then its units digit |
| Msf.TimeIndex | bin2iso.c:223-231 | below 450000 sectors the printed time is a well-formed `mm:ss:ff` text |
| Msf.TimeText | bin2iso.c:230 | the text of minutes below 100, seconds below 60 and frames below 75 has those three fields |
| Msf.TimeIndexText | bin2iso.c:227-229 | the printed fields are `n / 4500`, `(n / 75) % 60` and `n % 75` |
| Msf.TimeIndexRoundTrip | bin2iso.c:223-231 | reading back the time printed for any sector below 450000 gives that sector |
| Msf.ReadTimeRoundTrip | bin2iso.c:641-643 | printing the sector read from a time text with seconds below 60 and frames below 75 gives that text back |
| Msf.MsfSplit | bin2iso.c:227-229 | every sector index is recovered from its minutes, seconds and frames |
| Msf.MsfJoin | bin2iso.c:215-217 | a sector built from in-range fields is below 450000 and splits back into those fields |
| Pregap.NonZeroWords | bin2iso.c:748-754 | the count of non-zero words never exceeds the number of words examined |
| Pregap.CheckGaps | bin2iso.c:728-765 | the nested counting loop returns the verdict: keep when more than 294 words are non-zero, an error when a read fails |
| Pregap.PregapReadFails | bin2iso.c:741-747 | the count fails exactly when there are pregap sectors and either the sector size is 0 or the file ends before the last one |
| Pregap.PregapCountBound | bin2iso.c:739-755 | the count is at most 588 words per pregap sector |
| Pregap.SilentSectorWords | bin2iso.c:748-754 | a sector of zero bytes has no non-zero word |
| Pregap.SilentPregapDiscarded | bin2iso.c:757-764 | a pregap of zero bytes counts 0 and is discarded |
| Pregap.LoudSectorWords | bin2iso.c:748-754 | a sector whose 2352 bytes are all non-zero has every word non-zero |
| Pregap.LoudPregapKept | bin2iso.c:757-761 | a pregap whose first sector is all non-zero is kept |
| Demux.Payload | bin2iso.c:378 | a sector's user data is `sectorSize − predata − postdata` bytes long |
| Demux.SectorsRead | bin2iso.c:422 | the loop reads no more sectors than the track's count |
| Demux.TrackOutputAsWritten | bin2iso.c:350-376 | `DoTrack` as written stops with "Unexpected mode" exactly for MODE2/2448 and otherwise writes the corrected output |
| Demux.TrackOutput | bin2iso.c:416-425 | writing fails exactly when the start offset is negative, or when there are sectors and the sector size is 0. The output is empty for a zero count or a sector larger than the input buffer |
| Demux.TrackOutputSize | bin2iso.c:422-425 | the output holds one payload for every sector read, up to the track's count |
| Demux.Mode2Form2448Unwritable | bin2iso.c:553 | a MODE2/2448 TRACK is accepted by the parser, and the writer as written refuses the track it creates |
| Demux.DoTrack | bin2iso.c:331-432 | the method's seek, checks and copy loop produce the track output |
| Demux.CopySectors | bin2iso.c:422-425 | the copy loop appends the payload of every sector read |
| Demux.ExtractedLength | bin2iso.c:422-425 | the copied length is the number of sectors read times the payload size |
| Demux.ReadOneMore | bin2iso.c:422 | a read at a position inside the file yields that sector and then the reads after it |
| Demux.PayloadAt | bin2iso.c:424 | output block k is exactly input bytes `[start + k·sectorSize + predata, … + payload)` |
| Demux.BlockAt | bin2iso.c:424 | the same block equation with the offsets counted by repeated addition, as the loop advances |
| Demux.PayloadByte | bin2iso.c:424 | byte j of output block k is input byte `start + k·sectorSize + predata + j`, or zero past the end of the file |
| Demux.ExtractedStep | bin2iso.c:422-425 | reading n sectors is one sector's payload followed by reading n − 1 from the next sector |
| CueParser.CString | bin2iso.c:707 | a line as C sees it is its prefix before the first NUL |
| CueParser.AfterLastSeparator | bin2iso.c:466-472 | what survives path stripping has no '/' or '\\' |
| CueParser.Visible | bin2iso.c:460-481 | the collected characters hold no control character and no quote, and no separator when the input had none |
| CueParser.NameField | bin2iso.c:456-484 | the name field ends at the end of the line or at its terminator: '"' once a quote was seen, otherwise ' ' |
| CueParser.FileName | bin2iso.c:450-498 | an accepted file name is non-empty and has no separator, control character or quote. The only errors are an unpaired quote and an empty name, and an unpaired quote is reported exactly when a quote was opened and the line ended first |
| CueParser.QuotedFileName | bin2iso.c:474-476 | a quoted plain name is read back exactly, whatever precedes its opening quote and whatever follows its closing quote |
| CueParser.NoSeparator | bin2iso.c:466-472 | a name without separators survives path stripping whole |
| CueParser.VisibleAppend | bin2iso.c:478-479 | appending printable non-quote characters appends them to the collected name |
| CueParser.CollectedIsVisible | bin2iso.c:458-484 | the character-by-character copy that restarts at every separator collects the visible characters after the last separator |
| CueParser.VisibleAbsorb | bin2iso.c:460-481 | one more character read extends the collected name as the `switch` does |
| CueParser.NameFieldContinue | bin2iso.c:458 | the copy loop continues while the character is not the current terminator |
| CueParser.NameFieldEnd | bin2iso.c:458 | the copy loop stops at the end of the field, and the terminator is '"' exactly when a quote was seen |
| CueParser.ScanFileName | bin2iso.c:450-498 | the scanning loop returns the file name or its error |
| CueParser.Stem | bin2iso.c:597-599 | the stem is the name cut at its last '.', or the whole name when it has none |
| CueParser.OutputNameShape | bin2iso.c:595-606 | the output name is the stem, "-", the TRACK number as written, then ".wav" for audio modes and ".iso" otherwise |
| CueParser.TrackFields | bin2iso.c:533-538 | the TRACK number is the decimal value of the digits read |
| CueParser.IndexFields | bin2iso.c:626-639 | the INDEX fields are read without running past the line |
| CueParser.Lex | bin2iso.c:442-679 | a FILE command's name, when accepted, is non-empty, an INDEX sector fits a `uint32_t`, and a TRACK number is its digits' value |
| CueParser.LexCommand | bin2iso.c:450-679 | the same facts for the command after the leading spaces |
| CueParser.NewTrack | bin2iso.c:517-606 | a TRACK entry exists exactly when its mode is recognised. It has that mode, no indices (−1), the number and source file, the output name, and a layout that fits |
| CueParser.SetIndex | bin2iso.c:645-659 | INDEX 00 sets idx0 and fills idx1 only if unset; INDEX 01 does the reverse; nothing else changes |
| CueParser.IndexOrderIrrelevant | bin2iso.c:645-659 | on a fresh track, INDEX 00 then 01 and INDEX 01 then 00 give the same track |
| CueParser.Effect | bin2iso.c:434-682 | each command's effect: blank and ignored lines change nothing; unknown ones are counted. FILE fails only on a bad name and clears the active track. TRACK fails, in this order, at 100 tracks, before any FILE, on a file that cannot be opened, and on an unknown mode. Otherwise it appends exactly the entry `NewTrack` builds, which becomes active. INDEX fails with no active track, with a number of 2 or more, and with index 0 on a data track. Otherwise it succeeds, and the last track becomes `SetIndex` of it while the others stay unchanged |
| CueParser.ParseSheet | bin2iso.c:684-725 | a parsed sheet has at least one track |
| CueParser.TrackValid | bin2iso.c:511-606 | a TRACK command keeps every track well-formed |
| CueParser.IndexValid | bin2iso.c:620-659 | an INDEX command keeps every track well-formed |
| CueParser.EffectValid | bin2iso.c:434-682 | every accepted command keeps the parser state valid |
| CueParser.StepValid | bin2iso.c:715 | every accepted line keeps the parser state valid |
| CueParser.ParseLinesValid | bin2iso.c:705-716 | the line loop keeps the parser state valid |
| CueParser.ParsedSheetValid | bin2iso.c:705-722 | a parsed sheet has 1 to 100 tracks. Each has both indices unset or both set below 2^32, a layout that fits, a source file, and a ".wav" name for audio and ".iso" otherwise |
| CueParser.CutAtNul | bin2iso.c:707 | the method's loop cuts the line at its first NUL |
| CueParser.Skip | bin2iso.c:442 | the method's loop skips the given characters |
| CueParser.ReadNumber | bin2iso.c:535-536 | the digit loop reads exactly the leading digits and accumulates their decimal value |
| CueParser.ScanTrackFields | bin2iso.c:533-538 | the method reads the TRACK fields |
| CueParser.ScanIndexFields | bin2iso.c:626-643 | the method reads the INDEX fields |
| CueParser.LexLine | bin2iso.c:442-679 | the method's scans classify the line as the command it holds |
| CueParser.CueSheet.constructor | bin2iso.c:694-696 | the parser starts with no file, no track and no tracks |
| CueParser.CueSheet.ParseLine | bin2iso.c:715 | one call updates the object's fields to the state after the line, or reports the error that stops the program |
| CueParser.CueSheet.Apply | bin2iso.c:450-679 | the object's fields change as the command's effect says |
| CueParser.ParseCue | bin2iso.c:684-725 | the loop over the lines produces the parsed sheet, or the first error, or "no tracks" |
| Geometry.ClampTrack | bin2iso.c:774-775 | a negative index becomes 0, a non-negative one is kept, and nothing else changes |
| Geometry.ClampFromSpec | bin2iso.c:772-781 | clamping succeeds exactly when every clamped track has INDEX 00 ≤ INDEX 01, and then clamps each track. Otherwise it fails on the first track that does not, with that track's number |
| Geometry.GapStep | bin2iso.c:798-828 | the pregap step changes only this track and the one before it, and starts this track at the new cursor, which never moves back |
| Geometry.LengthStep | bin2iso.c:830-859 | the length step changes only this track's sector count |
| Geometry.TrackStep | bin2iso.c:796-860 | one iteration keeps the track list's shape and file names |
| Geometry.GapPolicyCases | bin2iso.c:800-828 | the five pregap cases. No pregap: start at the cursor. Discard (`-n`, or `-a` with an empty gap): skip the gap's bytes. A failed `CheckGaps` read stops the program. Keep (`-p`): INDEX 01 moves back to INDEX 00. Postgap: skip the gap and lengthen the previous track exactly when it is audio and the cursor is not 0 |
| Geometry.LengthCases | bin2iso.c:830-859 | the last track of a file fails when the cursor is past the file end. It otherwise gets the whole sectors left, warns exactly on a partial sector, and resets the cursor. Any other track fails when INDEX 01 is past the next INDEX 00; it otherwise gets the sectors up to it, and the cursor moves by its bytes. The empty-track warning is given exactly for 0 sectors |
| Geometry.StepResolved | bin2iso.c:796-860 | one iteration resolves one more track and resets the cursor at the end of a file |
| Geometry.LengthWithin | bin2iso.c:830-846 | the last track of a file lies inside the file |
| Geometry.WholeSectorsFit | bin2iso.c:844 | the whole sectors counted fit in the bytes left |
| Geometry.GapKeepsOrder | bin2iso.c:800-828 | the pregap step keeps INDEX 00 ≤ INDEX 01 on every track |
| Geometry.PassResolved | bin2iso.c:796-860 | after the pass every track is ordered and starts at a non-negative offset, and the last track of each file ends inside it. Earlier tracks are covered by PassChained and PlanInside |
| Geometry.PlanResolved | bin2iso.c:772-860 | a successful plan keeps the tracks, their files and their fixed fields. Every track is ordered and starts at a non-negative offset, and the last track of each file lies inside it, for any input. The bound for every track is PlanInside |
| Geometry.GapPrevious | bin2iso.c:808-813 | the pregap step either leaves the track before alone or, when the cursor is not 0 and that track is audio, lengthens it by the gap and moves the cursor past the gap |
| Geometry.GapPostgap | bin2iso.c:808-815 | within the no-wrap bounds a postgap adds exactly the gap's sectors to the track before, which shares the gap's file, and moves the cursor by exactly the gap's bytes |
| Geometry.GapIndices | bin2iso.c:800-828 | the pregap step never moves an INDEX 01 forward |
| Geometry.GapLinked | bin2iso.c:800-828 | the pregap step keeps the tracks before it linked |
| Geometry.GapChain | bin2iso.c:800-828 | the pregap step keeps the tracks before it linked and joins the track before to this one, when a postgap's sectors are no larger than the gap's |
| Geometry.GapChainFacts | bin2iso.c:800-828 | the same, from the facts the pregap step establishes |
| Geometry.LengthChain | bin2iso.c:830-859 | the length step places this track: the last track of a file starts inside it, and any other track ends exactly at the new cursor |
| Geometry.StepChained | bin2iso.c:796-860 | one iteration keeps the pass chained, one track further |
| Geometry.PassChained | bin2iso.c:796-860 | the pass keeps the table chained to its end |
| Geometry.InsideFrom | bin2iso.c:796-860 | in a chained table every track ends at or before the next track's start, so it ends inside its file |
| Geometry.PlanInside | bin2iso.c:772-860 | when no product or count wraps and a postgap is never counted in a smaller sector size than the gap's, every track of a successful plan starts and ends inside its source file |
| Geometry.PostgapOverrun | bin2iso.c:808-815 | as written: in a 29184-byte file, AUDIO/2448 then AUDIO with a 2-sector pregap plans without error, and track 1 gets 12 sectors that end at byte 29376, past the end of the file |
| Geometry.OverrunFirst | bin2iso.c:830-859 | the first track of that input gets 10 sectors, and the cursor moves to byte 24480 |
| Geometry.OverrunSecond | bin2iso.c:808-846 | the second track's pregap becomes a 2-sector postgap of the first track, and the second track is empty at the end of the file |
| Geometry.PostgapSectors | bin2iso.c:811-813 | corrected: the postgap counts the whole sectors of the previous track's size that the skipped bytes hold, which is the gap's count when the sizes agree |
| Geometry.PostgapFits | bin2iso.c:811-813 | with the corrected count a postgap never carries the previous track past the start of the track after it |
| Geometry.IsoFromCue | bin2iso.c:767-860 | the two passes over the track array fail exactly when the plan fails, with its error, and otherwise leave the planned tracks and warnings |
| Geometry.ClampIndices | bin2iso.c:772-781 | the clamp loop clamps the array in place or stops at the first out-of-order track |
| Geometry.ForwardPass | bin2iso.c:795-860 | the forward pass with its running cursor produces the planned tracks and warnings or the planned error |
| Geometry.GapPass | bin2iso.c:798-828 | the pregap part of one iteration updates the array and the cursor as the pregap step says |
| Geometry.LengthPass | bin2iso.c:830-859 | the length part of one iteration updates the array, the cursor and the warnings as the length step says |
| Sniffer.LE32 | bin2iso.c:971 | a little-endian 32-bit field is below 2^32 |
| Sniffer.DescriptorAt | bin2iso.c:962-972 | a descriptor is found exactly when the 8 bytes are type 1, "CD001", version 1; its block count fits 32 bits and its block size 16 |
| Sniffer.SizeSearch | bin2iso.c:1001-1011 | a size found lies in the searched range |
| Sniffer.SizeSearchFirst | bin2iso.c:1001-1011 | the size found is the smallest candidate accepted by the sync, address and mode tests; none is found exactly when no candidate passes |
| Sniffer.FindSectorSize | bin2iso.c:1000-1011 | the search loop returns the first accepted size from 2064 on |
| Sniffer.SyncRunSpec | bin2iso.c:1028-1044 | the scan counts the sectors that start with the sync pattern and stops at the first that does not |
| Sniffer.CountSyncSectors | bin2iso.c:1028-1044 | the scanning loop returns that count and its bytes |
| Sniffer.AlignCount | bin2iso.c:1121-1125 | the alignment loop runs at most 148 times |
| Sniffer.Align | bin2iso.c:1120-1125 | the method's loop computes that count |
| Sniffer.AlignStops | bin2iso.c:1121-1130 | if some k ≤ 147 subtractions make the remainder 2352-aligned, the loop stops no later, also aligned |
| Sniffer.AlignWitness | bin2iso.c:1115 | with an inverse of s modulo 147, subtracting `(r·inv) % 147` copies of s makes r a multiple of 147 |
| Sniffer.AlignTarget | bin2iso.c:1115 | for 2048- and 2336-byte sectors and a remainder that is a multiple of 16, some count of at most 146 sectors leaves a multiple of 2352 bytes |
| Sniffer.AlignWithin147 | bin2iso.c:1115-1130 | for 2048- and 2336-byte sectors and a remainder that is a multiple of 16, at most 146 subtractions align it to 2352 |
| Sniffer.SyncTrack | bin2iso.c:993-1075 | the sync branch as a method: size search, header and sync scan |
| Sniffer.TrackAfterSync | bin2iso.c:1013-1067 | the method computes the analysis of a sync track of a found size |
| Sniffer.SyncRunTrack | bin2iso.c:1026-1064 | the scan-and-settle method computes the track end |
| Sniffer.PlainTrack | bin2iso.c:1076-1134 | the no-sync branch as a method |
| Sniffer.AlignTrack | bin2iso.c:1113-1133 | the method aligns the track end |
| Sniffer.AlignFrom | bin2iso.c:1118-1133 | the method aligns from the declared bytes |
| Sniffer.AnalyseTrack | bin2iso.c:975-1143 | the method fails when the 50000-byte read fails and otherwise analyses the track |
| Sniffer.Prefix | bin2iso.c:984-990 | the buffer holds 50000 bytes |
| Sniffer.AnalyseBranch | bin2iso.c:993 | the sync pattern at byte 0 selects the branch |
| Sniffer.SettleSpec | bin2iso.c:1046-1064 | subchannel bytes are recorded exactly when the sector is over 2352 and the rest of the file divides evenly, and they are the excess |
| Sniffer.SyncTailSpec | bin2iso.c:1013-1064 | a found size gives the mode text `MODE<b15>/<size>` and the subchannel rule on the remaining bytes |
| Sniffer.SyncEndSpec | bin2iso.c:1026-1064 | the same for the scan-and-settle step |
| Sniffer.SniffSync | bin2iso.c:993-1075 | no size is found exactly when no candidate passes, and the track is then an empty AUDIO track at the same position. Otherwise the size is the smallest passing one, the mode text is `MODE<b15>/<size>`, and the rest is the sync tail of that size, whose subchannel rule `SyncTailSpec` states |
| Sniffer.PlainGuessSpec | bin2iso.c:1079-1108 | the descriptor at 0x8000 gives MODE1/2048 with its block count; otherwise one at 0x9208 gives MODE2/2336; otherwise "BEA01" gives MODE1/2048 with filesize/2048; otherwise AUDIO with none |
| Sniffer.PlainEndKeeps | bin2iso.c:1110-1133 | alignment keeps the mode and sector size, records no subchannel bytes, and does nothing for 0 sectors |
| Sniffer.SniffPlain | bin2iso.c:1076-1134 | the no-sync analysis follows the descriptor rules above |
| Sniffer.PlainEndBound | bin2iso.c:1113-1133 | alignment either warns and keeps the declared sectors, or adds k ≤ 147 sectors and their bytes |
| Sniffer.AlignEndBound | bin2iso.c:1118-1133 | the same with the declared byte count given |
| Sniffer.PlainEndAligned | bin2iso.c:1115-1130 | for 2048/2336 sectors, a remainder that is a multiple of 16 and room for 146 more sectors, alignment succeeds without warning, adds at most 146 sectors, and leaves a 2352-aligned rest of the file |
| Sniffer.SniffEnd | bin2iso.c:1136-1142 | the position after the analysis is always the start plus the track's bytes, which are its sectors times the sector size as `uint32_t` |
| Sniffer.SyncBranchEnd | bin2iso.c:1020-1044 | the same for the sync branch |
| Sniffer.SyncEndExtent | bin2iso.c:1026-1044 | the same for the scan step |
| Sniffer.PlainEndExtent | bin2iso.c:1118-1130 | the same for the no-sync branch |
| Sniffer.AlignEndExtent | bin2iso.c:1118-1130 | the same from the declared bytes |
| Sniffer.WrappedExtent | bin2iso.c:1128-1129 | adding k sectors' bytes to the wrapped product is the wrapped product of the new count |
| Segmenter.Sample | bin2iso.c:1228 | a sample is a signed 16-bit value, zero exactly when both bytes are |
| Segmenter.Square | bin2iso.c:1229 | a square is zero exactly for a zero sample |
| Segmenter.Measure | bin2iso.c:1223-1234 | the sample loop computes the sector's mean square and loud-sample count |
| Segmenter.HitsAreNonZero | bin2iso.c:1231-1232 | the loud samples are among the non-zero ones |
| Segmenter.ClickIsQuiet | bin2iso.c:1236 | a sector with at most 120 non-zero samples is never loud |
| Segmenter.QuietEnd | bin2iso.c:1262-1285 | the quiet run from a sector ends at the first loud one or the end |
| Segmenter.MinSpec | bin2iso.c:1267-1275 | the run's recorded sectors are the first and the last of its quietest ones |
| Segmenter.QuietEndSkip | bin2iso.c:1264-1284 | the end of a quiet run is the same seen from any sector inside it |
| Segmenter.QuietStep | bin2iso.c:1262-1285 | a quiet sector lengthens the gap and emits nothing |
| Segmenter.LoudStep | bin2iso.c:1236-1261 | a loud sector ends the gap and emits the split it closes, if any |
| Segmenter.RunSplits | bin2iso.c:1220-1288 | the loop's splits are the reference splits of the level sequence, with their sectors as the `uint32_t` counter numbers them |
| Segmenter.WrappedSmall | bin2iso.c:1183 | sector numbers that fit a `uint32_t` are not changed by the counter's wrap |
| Segmenter.StepKeeps | bin2iso.c:1236-1285 | each sector keeps the loop invariant and the splits still to come |
| Segmenter.RunAtEnd | bin2iso.c:1220 | at the end of the file no split is pending |
| Segmenter.RunUnfold | bin2iso.c:1220-1288 | the loop is one sector's step followed by the rest |
| Segmenter.SegmentsMeaning | bin2iso.c:1220-1288 | the state machine emits a split for every loud sector ending a quiet run of at least the gap length, with the earliest and latest quietest sectors numbered modulo 2^32 by the `uint32_t` counter (bin2iso.c:1183, 1287); while the numbering stays below 2^32 these are exactly the reference splits |
| Segmenter.SplitsOrdered | bin2iso.c:1245-1258 | track numbers rise by one per split, every split has INDEX 00 ≤ INDEX 01 inside the run, and the splits are in order |
| Segmenter.TrailingQuiet | bin2iso.c:1220-1288 | a quiet run at the end of the file emits nothing |
| Segmenter.CounterWraps | bin2iso.c:1183-1287 | numbered on from 2^32 - 1, a split at the image's sector 2^32 is written at sector 0, as INDEX 00 00:00:00 |
| Segmenter.Text | bin2iso.c:1175-1257 | the written file, as `fgets` returns it, is one string per line: the rendered line followed by the `\n` of its format |
| Segmenter.CueFromBin | bin2iso.c:1145-1291 | the method writes the sheet the model describes: the FILE line, the first track if sniffed, and the splits with their sectors counted by the `uint32_t` counter from the sniffed count, or stops when the sniff fails |
| Segmenter.SheetOk | bin2iso.c:1183-1195 | the sheet is the head lines followed by the split lines |
| Segmenter.SplitAudio | bin2iso.c:1220-1288 | the sector loop emits the lines of the splits the state machine finds |
| Segmenter.Sector | bin2iso.c:1222-1287 | one iteration measures, accounts and emits, and the rest of the run is unchanged |
| Segmenter.LoopStep | bin2iso.c:1220-1288 | one iteration of the loop is one step of the state machine |
| Segmenter.Account | bin2iso.c:1236-1287 | the accounting of one sector is one state-machine step, with the sector counter wrapping at 2^32, and its output lines are that step's splits |
| Segmenter.StepSplits | bin2iso.c:1245-1258 | a step's splits are appended to those before |
| Segmenter.SplitLinesAppend | bin2iso.c:1247-1257 | one more split appends its TRACK, INDEX 00 and INDEX 01 lines |
| SheetReading.LexFileLine | bin2iso.c:1175 | the FILE line written for a name with no quote, separator, control character or NUL is read as a FILE command naming exactly that name |
| SheetReading.LexTrackLine | bin2iso.c:1249 | a written TRACK line is read back with its number, its `%02d` digits, and its mode text followed by the kept line end |
| SheetReading.LexIndexLine | bin2iso.c:1253-1257 | a written INDEX 00 or INDEX 01 line of a sector below 450000 is read back as that index number and that sector |
| SheetReading.ModeOfLine | bin2iso.c:546-558 | the line end `fgets` keeps does not change which mode a text names |
| SheetReading.StrtolLine | bin2iso.c:563 | `strtol` of digits followed by the line end is the digits' value |
| SheetReading.AudioModeShape | bin2iso.c:1192-1195 | the split tracks' mode text is non-empty, starts with 'A' and holds no NUL |
| SheetReading.AudioModeLine | bin2iso.c:1192-1195 | the split tracks' mode text, read back with its line end, selects plain AUDIO without subchannel bytes and AUDIO/n otherwise, and its sector size is 2352 plus the subchannel bytes |
| SheetReading.ModeTextStart | bin2iso.c:546-558 | a text that names a mode starts with a letter, so the TRACK field scan does not skip into it |
| SheetReading.SplitTracksLength | bin2iso.c:1245-1258 | there is one expected entry per split |
| SheetReading.SplitTracksAt | bin2iso.c:1245-1258 | expected entry k carries split k's track number and its INDEX 00 and INDEX 01 sectors |
| SheetReading.ParseLinesAppend | bin2iso.c:705-716 | reading the lines of `a + b` is reading `a`, then `b` from the state `a` leaves, unless `a` fails |
| SheetReading.TextAppend | bin2iso.c:1175-1257 | the text of two line lists written one after the other is the two texts joined |
| SheetReading.StepTrack | bin2iso.c:517-606 | a TRACK line with a known mode, read with an openable active file and fewer than 100 tracks, appends a fresh entry and makes it the active track |
| SheetReading.StepIndex | bin2iso.c:620-659 | an INDEX 00 or 01 line sets that index of the last entry and changes nothing else |
| SheetReading.LexSplit | bin2iso.c:1247-1257 | the three lines of a split are read as its TRACK, its INDEX 00 and its INDEX 01 |
| SheetReading.ParseSplit | bin2iso.c:1247-1257 | reading one split's lines appends one entry with the split's number, both its indices and the mode's layout |
| SheetReading.ParseSplits | bin2iso.c:1245-1258 | reading the lines of all splits appends their entries in order and leaves the file and the unrecognised count unchanged |
| SheetReading.LexHeadAlone | bin2iso.c:1175 | without a sniffed first track the head is the FILE line alone |
| SheetReading.LexHeadTrack | bin2iso.c:1175-1189 | with a sniffed first track the head lines are read as FILE, TRACK 01 with the sniffed mode, and INDEX 01 at sector 0 |
| SheetReading.ParseFirstTrack | bin2iso.c:1186-1189 | FILE, TRACK 01 and INDEX 01 00:00:00 leave one entry numbered 1 with both indices 0 and the mode's layout |
| SheetReading.ParseHead | bin2iso.c:1175-1189 | the head lines set the image as the active file and give the first track's entry exactly when the sniffer found sectors |
| SheetReading.SheetReadsBack | bin2iso.c:1175-1257 | the sheet written for an image, parsed with only that image openable, gives the sniffed first track and one audio track per split found, in order, with the measured sector size, or "no tracks" when there are none. This holds for a plain name, a known sniffed mode, indices below 450000 and at most 100 tracks |
| SheetReading.LinesReadBack | bin2iso.c:705-722 | the same for any list of splits |

## Left out

- File system access is replaced by inputs: `OpenCaseless`'s case-insensitive search, `GetFileSize`, `fopen`/`fgets`, the cue directory extraction, and output-file creation, renaming and closing (bin2iso.c:124-201, 380-386, 684-703, 892-902). Which names can be opened is a set; files are byte sequences.
- Buffered I/O (`BufferedFRead`, `BufferedFWrite`, `FlushBuffers`) is modelled only through what it delivers: whole sectors, zero-padded at the end of the file.
- The WAV header written before audio tracks is not modelled (bin2iso.c:388-414).
- The overburn block (bin2iso.c:864-875) is not modelled. It tests an entry that line 782 has just set to 0, so it never runs.
- The `BONK` block (bin2iso.c:909-954) is compiled out and is not modelled.
- The track listing printed after the pass, and every other `printf` text, is not modelled.
- The command line (`ParseArgs`, `PrintHelp`, `main`) is not modelled. Its defaults are constants, and the `-t` track filter in front of `DoTrack` is not modelled.
- CueParser.IndexFields: a fixed-column INDEX time read past the end of a short line reads NUL here. The C code reads whatever bytes follow in the 256-byte line buffer, which the model does not hold.
- CueParser.CString: lines are taken as given. `fgets`' 255-character cut and the line splitting of the file are not modelled.
- Geometry.GapStep: the pass reads the pregap from the file map through `CheckGaps`' verdict. The seek before it is assumed to succeed, as the cursor is never negative.
- Sniffer.AnalyseTrack: the seeks and the `feof` test of the sync scan are not modelled. Reading past the end of the file ends the scan, as `feof` does.
- Segmenter.Step: `gapsectors` (a `uint32_t`) and `track` (an `int32_t`) are not wrapped. Each grows by at most one per sector read, so they overflow only on an image of 2^31 sectors or more (over 5 TB). The sector counter does wrap.
- Segmenter.CueFromBin: the ".cdi" name check only prints a warning and is not modelled. The `.wav` check skips the 44-byte header.
- SheetReading.SheetReadsBack: the read-back is proved only for image names that need no quoting (no quote, separator, control character or NUL), for a sniffed mode text the parser recognises, for split indices below 450000 sectors (100 minutes, where `TimeIndex` prints two-digit minutes into its 9-byte buffer) and for at most 100 tracks, the parser's limit. Outside those limits the parser may fail or read other values.
- `bin2iso.js` and `bin2iso-node.js`, the JavaScript ports in the same repository, are not modelled; this model follows `bin2iso.c` only.
- CueParser.TrackFields: the TRACK number is read as an unbounded number. The C code accumulates it in an `int32_t` (bin2iso.c:535-536), which overflows past 2147483647.
- CueParser.IndexFields: the INDEX number is read as an unbounded number, so a number of 2 or more is always `BadIndexNumber`. The C code accumulates it in an `int32_t` (bin2iso.c:629-631), so for example `INDEX 2147483648` overflows, which is undefined behaviour in C. In practice it wraps negative, passes the `i >= 2` test and is applied as INDEX 01 (bin2iso.c:633, 655-658).
- CueParser.TrackFields: the NUL that bin2iso.c:537 writes after the digits is not modelled. On a line that ends right after the number, C steps past the end of the line, while the model stops at the end of the sequence.
- Msf.ByteOf: each `char` of a line stands for one byte (`ByteOf(c)` is `c % 256`), as in the packing of the INDEX time digits. Character encodings are not modelled.
- Pregap.CheckGaps: `CheckGaps` reads 2352 bytes out of a buffer of `sectorSize` bytes (bin2iso.c:738, 748-754). When the sector is shorter than that, C reads past the buffer, while the model reads those bytes as zero.
- Sniffer.SyncEnd: `isotrackbytes` is a `uint32_t` (bin2iso.c:1041), but the sync branch adds it up without wrapping (`start + Times(run, ss)`, also in SyncEndSpec). An image of 4 GiB or more in the sync branch is therefore not modelled.
- Geometry.PlanInside: the bound for every track is proved only within the no-wrap bounds: INDEX 01 below 2^20 sectors and sectors of at most 4096 bytes. It also assumes that a postgap is never counted in a smaller sector size than the gap's. PostgapOverrun shows the bound failing without that assumption. PlanResolved holds for any input, but only for the last track of each file.
- Geometry.PlanResolved: bounds only the last track of each file. For earlier tracks the program as written can break the bound (see "## Findings"), so the bound for every track is PlanInside, under its assumptions.
- Geometry.GapStep: keeps the postgap count as written (`pregapframes`). The corrected count PostgapSectors and its property PostgapFits are stated beside the pass, but the pass does not use them, so the plan stays the program's.

## Findings

| source | as written | input that shows it | evidently intended | confidence | as-written member | corrected member |
|---|---|---|---|---|---|---|
| bin2iso.c:350-376 | `DoTrack`'s mode `switch` has no case for MODE2_2448, so it prints "Unexpected mode!" and exits | a sheet with `FILE "cd.bin" BINARY` and `TRACK 01 MODE2/2448`, which the parser accepts (bin2iso.c:553, 588-592) | the track is written like the other 2448-byte mode, its 2048 user-data bytes at offset 24 | not executed; high | Demux.TrackOutputAsWritten | Demux.TrackOutput |
| bin2iso.c:811-813 | a kept postgap adds the gap's `pregapframes` to the previous audio track's `totalSectors`, counted in that track's sector size, while `trackofs` skips them in the current track's size | a 29184-byte file with `TRACK 01 AUDIO/2448` (`INDEX 01 00:00:00`) then `TRACK 02 AUDIO` (`INDEX 00 00:00:10`, `INDEX 01 00:00:12`), default options: track 1 gets 12 sectors of 2448 bytes, ending at byte 29376 | the previous track gains the sectors of its own size that the skipped bytes hold, so it never runs past the next track's start | not executed; medium | Geometry.PostgapOverrun | Geometry.PostgapSectors |
