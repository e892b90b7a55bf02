# Prass subtitle tools in Dafny

Prass is a command-line tool for post-processing Advanced SubStation
(ASS) subtitle scripts. This project models its two core files.

subs.py holds the script object and its text forms:
- reading an ASS script line by line through its section state machine;
- reading an SRT file block by block;
- the lines written back out;
- the `Style:` and `Dialogue:` line formats and the `H:MM:SS.CC` timestamps;
- the in-place script operations: appending styles, sorting events,
  cleanup, shift;
- the timing post-processor `tpp`. It runs lead-in, lead-out, joining of
  small gaps and overlaps, and keyframe snapping.

tools.py holds the frame/time mapping of a video:
- variable-rate timecode tables with an optional default frame rate;
- the constant-rate variant;
- v1 and v2 timecode files, including the expansion of v1 rate overrides
  into a v2 table;
- keyframe lists read from XviD two-pass statistics logs.

Times are exact `real` seconds. The script is a class `Script.AssScript`
whose methods change its fields in place, with loops where the source has
loops. Each method is proved equal to a specification function. The
properties the tools promise are then proved about those functions as
lemmas.

The events are records held in a sequence. `tpp` works on an index view
into that sequence: the selected events sorted by start. So each stage
sees the times that earlier iterations have already moved, exactly as the
loops over shared event objects do.

Python's `float()` and `int()` on strings are a parameter of the model
(`Common.NumberReaders`). The round-trip lemmas use a plain decimal
reader defined in `Decimal`. The exceptions the source raises or lets
escape become `Err` values of `Common.Result`.

Modules:
- `Common`: outcomes and errors.
- `PyStr`: the Python string methods used.
- `Decimal`: integer text.
- `Sorting`: stable sort.
- `Timecodes` and `TimecodeParse`: tools.py's frame/time mapping and its
  files.
- `Keyframes`.
- `AssTime`.
- `AssLines`: the style and event lines.
- `StyleDict`: the ordered style dictionary.
- `Tpp`: specification functions of the post-processor.
- `Script`: the class.
- `ScriptText`: ASS text.
- `SrtText`: SRT text.

Where the written description of the program and the code differ, the
model follows the code. One example: a v1 timecode file's table ends with
the last override. It does not continue at the default rate, whatever the
description suggests. The default rate is kept only as the duration for
frames past the table.

## Model

| member | source | states |
|---|---|---|
| Timecodes.FromTable | tools.py:22-25 | the table is kept; a default frame duration exists exactly for a non-zero fps and is its reciprocal |
| Timecodes.FromFps | tools.py:96-99 | `cfr(fps)` fails with a division by zero exactly for fps 0, otherwise its frame duration times fps is 1 |
| Timecodes.GetFrameTime | tools.py:27-36 | fails (endless recursion) exactly for an empty table without a default duration; negative numbers index from the end as in Python |
| Timecodes.FrameTimeCases | tools.py:27-36 | for n >= 0: `times[n]` in the table, last time + d*(n-len+1) past a non-empty table, n*d for an empty one, the last time without a default |
| Timecodes.BisectLeft | tools.py:41 | on any table the result is within it, the element just before it is below x and the one at it is at least x (the full partition needs a sorted table, next row) |
| Timecodes.BisectLeftSorted | tools.py:41 | on a sorted table bisect_left is the least index whose time is at least the timestamp |
| Timecodes.GetFrameNumber | tools.py:38-41 | get_frame_number as written: past the table with a default duration it truncates (t - sum(times))/d, otherwise it is bisect_left; its cases are in the next row |
| Timecodes.FrameNumberCases | tools.py:38-41 | past the table with a default, get_frame_number is the truncation of (t - sum(times))/d; otherwise the first frame starting at or after t |
| Timecodes.VfrRoundTrip | tools.py:38-41 | in a strictly increasing table, get_frame_number(times[n]) == n |
| Timecodes.GetFrameSize | tools.py:43-56 | fails exactly when get_frame_time does (an empty table without default) |
| Timecodes.FrameSizeCases | tools.py:43-56 | the frame size is times[i+1]-times[i] inside the table, and at its end d with a default duration and 0 without |
| Timecodes.CfrRoundTrip | tools.py:96-110 | constant rate: get_frame_number(get_frame_time(n)) == n, get_frame_time(0) == 0, get_frame_size is always d |
| Timecodes.FrameTimeMonotone | tools.py:27-36 | a non-decreasing table with a positive duration gives non-decreasing frame times for m <= n |
| Timecodes.Trunc | tools.py:40 | int() on a float truncates toward zero |
| Timecodes.FrameNumberFromSumMisses | tools.py:40 | with times [0, 1] and 1 s frames, frame 3 starts at 3 s but get_frame_number(3.0) gives 2 |
| Timecodes.GetFrameNumberCorrected | tools.py:38-41 | the corrected count: past a non-empty table, len(times) - 1 plus the whole frames after the last entry; proved an inverse of get_frame_time in the next row |
| Timecodes.FrameNumberCorrectedRoundTrip | tools.py:38-41 | counting past the table from the last entry inverts get_frame_time for every frame n >= 0 |
| TimecodeParse.Repeat | tools.py:65 | `[x] * n` has max(n, 0) copies of x |
| TimecodeParse.SliceBound | tools.py:67 | a slice bound resolves into 0..len and is unchanged when already in range |
| TimecodeParse.V1ToV2 | tools.py:59-72 | _convert_v1_to_v2 as a value: [] without overrides, a zero-division error when some frame's rate is 0, otherwise the running sums of 1/fps from 0; its properties are in the rows below |
| TimecodeParse.ConvertV1ToV2 | tools.py:59-72 | the overwrite-then-accumulate loops compute V1ToV2: [] for no overrides, otherwise the running sums, or a division error on a zero rate |
| TimecodeParse.ApplyOverridesAt | tools.py:65-67 | after the slice assignments every frame has the rate of the last override covering it, else the default |
| TimecodeParse.CumulativeSteps | tools.py:69-71 | the v2 table starts at 0 and grows by 1/fps of each frame |
| TimecodeParse.V1ToV2Table | tools.py:59-72 | for well-formed overrides: fails exactly when some frame's rate is 0; otherwise length last_end+2, v2[0] = 0, v2[i+1]-v2[i] = 1/fps_i |
| TimecodeParse.V1ToV2Increasing | tools.py:59-72 | with all rates positive the table exists and is strictly increasing |
| TimecodeParse.HeaderKey | tools.py:79 | the first line lower-cased and left-stripped as a Python 2 byte string: only ASCII capitals change and only ASCII white space is dropped |
| TimecodeParse.HeaderKeyKeepsControl | tools.py:79-88 | a first line starting with a control character U+001C-U+001F names neither format, because byte-string lstrip keeps it |
| TimecodeParse.ReadV2Times | tools.py:81 | succeeds exactly when every line reads as a float, and then holds each value divided by 1000 |
| TimecodeParse.ReadOverrides | tools.py:61 | succeeds exactly when every line reads as an override, keeping them in order |
| TimecodeParse.Parse | tools.py:75-88 | empty text gives the empty list; an unknown first line is an unsupported-format error; every table read is variable-rate; a v2 header gives one time per later line and no default (the v1 branch is the ParseV1 row) |
| TimecodeParse.ParseV1 | tools.py:83-86 | after a v1 header, no second line is an IndexError and an unreadable rate a ValueError; then the overrides' error, then the conversion's; otherwise the converted table with the default rate |
| TimecodeParse.V1HeaderOnly | tools.py:83-84 | a file made of the v1 header line alone fails with IndexError |
| TimecodeParse.ParseV2 | tools.py:80-82 | after a v2 header whose later lines all read as floats, the table is those values in seconds with no default |
| TimecodeParse.V2RoundTrip | tools.py:75-82 | a v2 file of whole milliseconds parses to those times in seconds with no default rate |
| Keyframes.KeyframesOfLines | tools.py:6 | every result lies in -3 .. line count - 4 |
| Keyframes.KeyframesOfLinesSpec | tools.py:5-6 | exactly the indices i-3 of non-empty lines starting with 'i' are listed, strictly ascending |
| Keyframes.ParseKeyframes | tools.py:9-18 | fails exactly without the XviD header; the result contains 0; it is [0] + frames when 0 was missing and frames otherwise |
| AssTime.Round | subs.py:15 | round() gives the integer nearest the value, halves away from zero |
| AssTime.SplitCentiseconds | subs.py:15-20 | minutes < 60, seconds < 60, centiseconds < 100, and h*360000 + m*6000 + s*100 + c == cs |
| AssTime.ReadAll | subs.py:10 | map(float) succeeds exactly when every part reads, keeping the values in order |
| AssTime.ParseAssTime | subs.py:9-11 | succeeds exactly for three colon-separated numbers, and gives h*3600 + m*60 + s; any failure is a ValueError |
| AssTime.FormatTime | subs.py:13-20 | format_time: rounds to whole centiseconds and writes H:MM:SS.CC; read back by the next rows |
| AssTime.FormatTimeRoundTrip | subs.py:9-20 | a time on the centisecond grid survives format_time then parse_ass_time |
| AssTime.FormatCentisecondsRoundTrip | subs.py:9-20 | the text of a whole number of centiseconds parses back to that many hundredths |
| Decimal.IntToDecimalRoundTrip | subs.py:16-20 | the decimal text of an integer reads back as that integer |
| AssLines.StyleFromString | subs.py:28-31 | fails only with an IndexError (a missing ':' or ','); name and definition come out stripped |
| AssLines.StyleRoundTrip | subs.py:28-31 | a style written as `Style: name,definition` reads back as itself |
| AssLines.NewEvent | subs.py:49-61 | an event built from start, end and text has the constructor's defaults: Dialogue, layer 0, style Default, no actor or effect |
| AssLines.EventFromText | subs.py:63-81 | fails only with IndexError or ValueError; the kind is the colon-free text the line starts with before its first ':'; the text fields come out stripped |
| AssLines.EventText | subs.py:83-90 | the event line: the kind, ": ", then the ten fields joined by commas with both times through format_time; read back by the next row |
| AssLines.EventRoundTrip | subs.py:63-90 | an event on the centisecond grid whose fields carry no commas or outer spaces reads back from its own line |
| AssLines.IsComment | subs.py:92-94 | the kind, lower-cased as unicode, is "comment" |
| AssLines.CollidesWith | subs.py:96-99 | the two-branch test as written; what it means is in the next two rows |
| AssLines.CollidesIsOverlap | subs.py:96-99 | for events that last, colliding is half-open interval overlap and is symmetric |
| AssLines.CollidesAsymmetricAtZeroLength | subs.py:96-99 | a zero-length event at the start of another collides with it, but not the other way round |
| StyleDict.Lookup | subs.py:117 | finds the entry stored under a name, or None exactly when no entry has it |
| StyleDict.Put | subs.py:117 | OrderedDict assignment: the entry of the same name is replaced where it stands, otherwise the style is appended; see PutSpec |
| StyleDict.PutSpec | subs.py:117 | storing keeps names unique; the name then maps to the new style and every other name to what it did |
| StyleDict.PutAll | subs.py:199-200 | each style of the list stored in turn; see PutAllSpec |
| StyleDict.PutAllSpec | subs.py:196-200 | storing a list keeps names unique and maps each name to the last style of the list with it, others unchanged |
| StyleDict.KeepMembers | subs.py:288-292 | a style survives the deletions exactly when it is used or its name was not deleted |
| StyleDict.DeleteMembers | subs.py:292 | `del styles[name]` keeps exactly the styles of other names |
| StyleDict.DeleteKept | subs.py:289-292 | deleting an unused name from the survivors equals deleting it with the rest |
| Sorting.SortBy | subs.py:203 | list.sort(key, reverse) as insertion of each element after those with equal keys; sorted, a permutation and stable by the next rows |
| Sorting.SortBySorted | subs.py:202-203 | the sort result is ordered by the key, ascending or with reverse descending |
| Sorting.SortByPermutation | subs.py:202-203 | the sort result is a permutation of the events |
| Sorting.SortByStable | subs.py:202-203 | events with equal keys keep their relative order |
| Sorting.KeyLessStrictTotal | subs.py:202-203 | the key order (numbers before strings, strings by code point) is a strict total order |
| Tpp.Selected | subs.py:219-222 | not a comment, and, when styles are listed, the unicode-lower-cased style is one of the lower-cased listed styles |
| Tpp.SelectedFoldsCyrillic | subs.py:221-222 | the filter "ПОДПИСИ" selects a dialogue line of style "Подписи": the comparison folds case beyond ASCII |
| Tpp.SelectedIndices | subs.py:219-222 | exactly the non-comment events of a listed style (compared after unicode lower()), in script order |
| Tpp.ViewIndices | subs.py:219-224 | the start-sorted view holds exactly the selected events, once each |
| Tpp.FirstBroken | subs.py:225-227 | None exactly when every selected event starts no later than it ends, else one that does not |
| Tpp.LeadInBounds | subs.py:230-240 | each new start is at least old start - lead_in, and exactly that, unclamped, when no earlier-ending event reaches past it |
| Tpp.LeadInScanBounds | subs.py:234-240 | the backward walk only raises the candidate |
| Tpp.LeadInKeeps | subs.py:232-240 | a start set at its turn is not changed by later turns |
| Tpp.LeadOutBounds | subs.py:242-251 | each new end is at most old end + lead_out, and is that or the start of the event or of one after it |
| Tpp.LeadOutScanBounds | subs.py:246-251 | the forward walk only lowers the candidate |
| Tpp.LeadOutKeeps | subs.py:244-251 | an end set at its turn is not changed by later turns |
| Tpp.AdjacentPair | subs.py:253-263 | a pair within the overlap/gap limits meets at previous.end + distance*bias; any other pair keeps its times |
| Tpp.AdjacentKeeps | subs.py:258-263 | later pairs never move the times a finished pair set |
| Tpp.ClosestKeytimeDistance | subs.py:207-217 | fails with an IndexError exactly for no keytimes; t plus the result is a keytime |
| Tpp.ClosestIsNearest | subs.py:207-217 | on sorted keytimes the distance is to a nearest keytime, and on a tie to the earlier one |
| Tpp.Keytimes | subs.py:271 | the keyframe list turned into times: a TypeError without a list, [] for an empty one, an AttributeError without timecodes, otherwise the frame times of the next row |
| Tpp.FrameTimes | subs.py:271 | the frame times of all keyframes in order, failing exactly when get_frame_time fails |
| Tpp.KeytimesSorted | subs.py:271 | ascending frames on forward-running timecodes give sorted keytimes |
| Tpp.SnapEvent | subs.py:273-279 | snapping changes at most start and end; its errors are IndexError, AttributeError or RecursionError |
| Tpp.SnapRules | subs.py:273-279 | a start moves exactly inside its strict one-sided window and then lands on a keytime; an end moves by the distance probed one frame later and lands one frame size before a keytime |
| Tpp.SnapperTimesOnly | subs.py:272-279 | the step the loop applies to each event changes at most its start and end, and fails only with IndexError, AttributeError or RecursionError |
| Tpp.SnapFailStays | subs.py:272-279 | once a snap fails, later iterations never run |
| Tpp.StagesFrame | subs.py:228-279 | the stages change only the times of the view's events, and fail only with IndexError, AttributeError, RecursionError or TypeError |
| Tpp.TppSpec | subs.py:205-279 | the whole of tpp as a value: a broken selected event reports a negative duration, otherwise the stages run over the start-sorted view; its properties are the rows around it and Script.AssScript.Tpp |
| Tpp.TppRejectsBroken | subs.py:219-227 | tpp reports a negative duration exactly when a selected event ends before it starts, and then leaves every event unchanged |
| Tpp.TppOnlySelectedTimes | subs.py:205-279 | tpp changes only start and end, and only of selected events |
| Tpp.TppZeroIsIdentity | subs.py:228-279 | with every time parameter zero and no keyframe tolerance, tpp on valid events changes nothing |
| Script.AssScript.constructor | subs.py:103-107 | the script holds the given info lines, styles and events |
| Script.AssScript.ToAssText | subs.py:172-190 | the text written is the non-empty parts under their headers, joined with the line separator |
| Script.AssScript.AppendStyles | subs.py:196-200 | the styles become those of the (optionally emptied) dictionary after storing each new style in turn |
| Script.AssScript.SortEvents | subs.py:202-203 | the events become their stable sort by the key |
| Script.AssScript.LeadInLoop | subs.py:232-240 | the nested loops leave the events the lead-in fold computes |
| Script.AssScript.LeadOutLoop | subs.py:244-251 | the nested loops leave the events the lead-out fold computes |
| Script.AssScript.AdjacentLoop | subs.py:258-263 | the pair loop leaves the events the joining fold computes |
| Script.AssScript.SnapLoop | subs.py:272-279 | the snapping loop, given the snapping of one event, leaves the events and outcome of the snapping fold, stopping at the first error |
| Script.AssScript.LeadInIfAsked | subs.py:230-240 | when a lead-in is set, the lead-in loop runs over the view sorted by end time; otherwise nothing changes |
| Script.AssScript.Retime | subs.py:228-263 | runs each of lead-in (over the end-sorted view), lead-out and joining when its parameter is set |
| Script.AssScript.Tpp | subs.py:205-279 | the events and outcome are those of the tpp specification; script info and styles are untouched |
| Script.AssScript.ClearActors | subs.py:294-296 | every event loses its actor and nothing else changes |
| Script.AssScript.ClearEffects | subs.py:298-300 | every event loses its effect and nothing else changes |
| Script.AssScript.DropUnusedStyles | subs.py:288-292 | the styles become those whose names some event uses, in their old order |
| Script.AssScript.Cleanup | subs.py:281-300 | events filtered as asked, then actors and effects cleared as asked; styles kept or reduced to the used ones |
| Script.AssScript.Shift | subs.py:302-307 | each chosen time becomes max(t + shift, 0), in every event, and nothing else changes |
| Script.CleanupFilters | subs.py:282-286 | the filters keep exactly the events that are neither a dropped comment nor a dropped empty line |
| Script.FiltersCommute | subs.py:282-286 | dropping comments and dropping empty lines commute |
| Script.WithoutCommentsKeepsClean | subs.py:283 | dropping comments from a list without comments changes nothing |
| Script.WithTextKeepsClean | subs.py:285-286 | dropping empty lines from a list without them changes nothing |
| Script.UsedStyles | subs.py:289 | exactly the style names some event carries |
| Script.DropUnused | subs.py:289-292 | the loop over a snapshot of the names, deleting each one no event uses, leaves exactly the styles that are used, in their old order |
| Script.DropUpToKeeps | subs.py:289-292 | after the loop has looked at some names, the styles left are those that are used or whose names were not looked at yet |
| Script.KeepUsedOnly | subs.py:288-292 | with every name considered, the survivors are exactly the used styles |
| Script.ShiftTimeBounds | subs.py:305-307 | a shifted time is never negative, and is t + shift unless that is negative |
| Script.ShiftTimeUndo | subs.py:305-307 | shifting back restores a time exactly when the first shift did not clamp |
| Script.ShiftTimeCompose | subs.py:305-307 | two shifts in the same direction are one shift by their sum |
| Script.ShiftTimeMonotone | subs.py:305-307 | shifting keeps the order of two times |
| Script.ShiftEvent | subs.py:304-307 | one event shifted changes only the chosen times |
| Script.ShiftKeepsDuration | subs.py:302-307 | shifting both ends keeps an event's end no earlier than its start |
| ScriptText.AddLine | subs.py:113-141 | a content line outside a section, or one its parser rejects, is an invalid-script error; the section is unchanged |
| ScriptText.ReadLine | subs.py:122-141 | one turn of the reading loop can fail only with an invalid-script error |
| ScriptText.ReadLineUnique | subs.py:117 | reading a line keeps the style names unique |
| ScriptText.ParseAss | subs.py:110-142 | reading fails only with an invalid-script error, and a result's style names are unique |
| ScriptText.ReadAssLines | subs.py:110-142 | the reading loop with its section state computes ParseAss |
| ScriptText.FormatLinesRead | subs.py:133-134 | the two Format lines that are written are skipped when read |
| ScriptText.HeaderRead | subs.py:126-132 | a section header only switches the section |
| ScriptText.RunStyles | subs.py:182 | written style lines read back as the same styles, appended in order |
| ScriptText.RunEvents | subs.py:188 | written event lines read back as the same events, appended in order |
| ScriptText.AssRoundTrip | subs.py:172-189 | the lines to_ass_stream writes for a writable script read back as the same script |
| SrtText.SrtTime | subs.py:155 | a time with a decimal comma fails only with a ValueError |
| SrtText.SrtTimes | subs.py:161-164 | reading a time line fails only with an IndexError (no arrow) or a ValueError |
| SrtText.SrtEvent | subs.py:160-166 | a block fails only with IndexError or ValueError; an event read is a Default-style Dialogue with no line feed in its text |
| SrtText.ParseSrt | subs.py:153-170 | a read SRT file has the fixed script info line and the one Default style |
| SrtText.ReadSrtText | subs.py:153-170 | the block loop computes ParseSrt |
| SrtText.ReadBlocksSpec | subs.py:157-166 | for any block reader, reading succeeds exactly when every non-empty block reads, and gives their events in block order |
| SrtText.ReadBlocksFirstError | subs.py:157-166 | for any block reader, a failure is the error of the first non-empty block that fails, after all earlier ones read |
| SrtText.SrtTimeComma | subs.py:155 | a time written with a decimal comma reads as the same time with a point |
| SrtText.SrtTimeRoundTrip | subs.py:155 | a written SRT time of whole centiseconds reads back as that many hundredths |
| SrtText.SrtBlockRoundTrip | subs.py:160-166 | a block of a number, a `a --> b` line and a body reads as the event of those times with line feeds turned into `\N` |

## Left out

- File I/O: `from_ass_file`, `to_ass_file`, the final `write`, `open` in `parse_keyframes` and `Timecodes.from_file`. The model takes and returns text.
- Splitting an ASS file into lines, and the utf-8-sig byte-order mark. The ASS reader takes the file's lines.
- `float()` and `int()` on strings, and Python's binary floating point. They are the `NumberReaders` parameter, and times are exact reals.
- `os.linesep`: `Script.AssScript.ToAssText` takes the separator as a parameter.
- Aliasing of event objects: events are values in a sequence, and one object listed twice in a script is not modelled. `tpp` works through an index view, so each stage still sees the updates of earlier iterations.
- The constructor's integer margin defaults (subs.py:49-50) are the text "0", because the model keeps margins as text, as `from_text` leaves them.
- ScriptText.AssRoundTrip: stated on the lines written, not on the text after joining and re-splitting, and only for writable scripts. That excludes info lines that are blank or look like headers, styles with commas in their names, and times off the centisecond grid.
- AssTime.FormatTimeRoundTrip: format_time's float `round` is modelled exactly on reals, so times that are not whole centiseconds round without binary floating-point error.
- SelectedIndices (module Tpp): styles are compared after `PyStr.LowerChar`, which writes out Unicode's simple lower-case mapping for ASCII, Latin-1, Latin Extended-A, Latin Extended Additional, Greek U+0386-U+03AB, Cyrillic U+0400-U+04FF, Armenian, the Kelvin, Angstrom and Ohm signs and fullwidth Latin. Capitals of other blocks (Latin Extended-B, Greek Extended, Georgian, Cherokee, Deseret and the rest) stay as they are. So a style that differs from a listed one only in such a capital is not selected, where Python's unicode lower() would select it.
- LowerChar: the same gap touches `Tpp.Selected`, `AssLines.IsComment` and the section-header tests of `ScriptText.ReadLine`, which lower-case unicode text the same way.
- prass.py (the command line), common.py (Python 2/3 shims; PrassError becomes an error value), setup.py and the tests.
- `Tpp.SnapRules` describes the snapping of one event. The loop's combined effect is stated by `Script.AssScript.SnapLoop` and `Tpp.StagesFrame`.

## Findings

| source | as written | input that shows it | evidently intended | confidence | as-written member | corrected member |
|---|---|---|---|---|---|---|
| tools.py:40 | past the table, get_frame_number counts frames from `sum(self.times)` | times [0.0, 1.0], default duration 1 s: get_frame_time(3) is 3.0, get_frame_number(3.0) is 2 | count from the last table entry, so get_frame_number inverts get_frame_time | not executed | Timecodes.FrameNumberFromSumMisses | Timecodes.FrameNumberCorrectedRoundTrip |
