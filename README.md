# MKV Compressor, modelled in Dafny

This project models the logic of MKV Compressor. MKV Compressor is a Python desktop and
command-line tool that re-encodes videos to Matroska files by driving FFmpeg. The model
covers the parts of the program that compute or keep state:

- **Settings and probing** (`CompressorSettings`): the compression settings record,
  its dictionary round trip, the preset table, and how `get_video_info` reads a probe
  result.
- **Progress parsing** (`ProgressParsing`): the `time=` search in FFmpeg's diagnostic
  lines, the percentage mapping with two-pass rescaling and clamping, the
  summary/warning classifier, and the `CompressionProgress` object.
- **Progress monitoring** (`ProgressMonitor`): the buffer that collects stderr chunks
  and is cut into lines at the first `\n`, or else at the first `\r`.
- **Encoding** (`Encoder`):
  - the two pass command lines;
  - the scale and rate options of the single-pass graph;
  - the order of outcomes in single-pass and two-pass encoding;
  - deleting the pass log files;
  - the guards of `compress_video`.
- **Helpers** (`Helpers`):
  - file-name sanitising;
  - duration and size formatting;
  - output-size estimation;
  - the video-extension test;
  - the unique-name counter search;
  - the file watcher.
- **Configuration** (`Config`): the in-memory store of `ConfigManager`. This covers
  dotted keys, the defaults merge, capped history, move-to-front recent directories
  and custom presets.
- **Command line** (`Cli`):
  - resolution parsing;
  - settings overrides on a preset;
  - the sorted, duplicate-free list of found files;
  - output naming;
  - the skip rule and exit status.
- **Main window** (`Gui`): the `input_files` list and its add, remove and clear
  operations, plus the batch progress formula and the cancel logic of the worker.
- **Logging** (`Logging`): the path sanitiser and the message builders.

Three support modules model the Python built-ins the program relies on:

- `Text` models `str(int)`, `int(str)`, `split`, `strip` and `lower`.
- `Paths` models POSIX `os.path` and `pathlib` names, suffixes and joins.
- `Values` models the JSON-like values of dictionaries and the configuration.

`Wrappers` holds `Option` and `Result`.

What the environment supplies becomes a parameter:

- The output of an FFmpeg run is a sequence of stderr chunks with an exit code (`PassRun`).
- The probe result is a record (`Probe`).
- Existing files are a set of path strings.
- A directory listing is a sequence of names.
- A `stat` call is a `StatResult`.
- The cancel flag is the index of the first check that sees it set.

What a progress callback receives is recorded as a sequence `sent` on the progress
object, so "the callback gets 100 only on success" becomes a statement about that
sequence.

## Model

| member | source | states |
|---|---|---|
| Text.ParseIntToString | src/mkv_compressor/cli.py:251 | `int()` reads back every integer rendered by `str()`, negative ones included |
| Text.NatToStringValue | src/mkv_compressor/core/compressor.py:433 | the decimal rendering of a natural number has that number as its digit value |
| Text.NatToStringInjective | src/mkv_compressor/utils/helpers.py:338 | distinct counters render as distinct digit strings |
| Text.Pad2Value | src/mkv_compressor/utils/helpers.py:72 | a `:02d` field reads back as the number it renders, for any size |
| Text.Split | src/mkv_compressor/cli.py:251 | `split` yields at least one part and no part contains the separator |
| Text.JoinSplit | src/mkv_compressor/utils/config.py:115 | joining the parts of a split with the separator gives back the text |
| Text.SplitTwo | src/mkv_compressor/cli.py:251 | text made of two separator-free parts around one separator splits into exactly those parts |
| Text.StripLeftDropped | src/mkv_compressor/utils/helpers.py:312 | stripping the front cuts off only characters that are to be removed |
| Text.StripRightDropped | src/mkv_compressor/utils/helpers.py:312 | stripping the back cuts off only characters that are to be removed |
| Text.StripWith | src/mkv_compressor/utils/helpers.py:312 | the result of `strip(chars)` has no removable character at either end |
| Text.StripWithTrimmed | src/mkv_compressor/utils/helpers.py:312 | `strip(chars)` gives a slice of the text with only removable characters cut from either end |
| Text.Strip | src/mkv_compressor/core/compressor.py:522 | a stripped line neither starts nor ends with white space |
| Text.StripTrimmed | src/mkv_compressor/core/compressor.py:522 | the stripped line is a slice of the line with only white space cut from either end |
| Text.Lower | src/mkv_compressor/utils/helpers.py:293 | lower-casing keeps the length, turns each capital into the small letter at the same place in the alphabet, keeps every other character, and leaves no capital |
| Text.LowerIdempotent | src/mkv_compressor/utils/helpers.py:293 | lower-casing twice is lower-casing once |
| Paths.Parse | src/mkv_compressor/utils/helpers.py:331 | a parsed path has only non-empty components other than `.` and without `/` |
| Paths.Basename | src/mkv_compressor/core/compressor.py:222 | `os.path.basename` never contains a slash |
| Paths.Dirname | src/mkv_compressor/core/compressor.py:267 | `os.path.dirname` is empty exactly when the path has no slash |
| Paths.StemSuffix | src/mkv_compressor/utils/helpers.py:338 | a file name is its stem followed by its suffix |
| Paths.SuffixOfExtension | src/mkv_compressor/utils/helpers.py:293 | a name made of a non-empty stem and a dotted extension has that extension as its suffix |
| Paths.RenderChild | src/mkv_compressor/utils/helpers.py:339 | `parent / name` renders as the parent's prefix followed by the name |
| CompressorSettings.Default | src/mkv_compressor/core/compressor.py:21-45 | the default settings: libx264, CRF 23, medium, AAC at 128k, single pass, Matroska, no scaling or limits |
| CompressorSettings.ToDict | src/mkv_compressor/core/compressor.py:47-62 | `to_dict` has exactly the twelve field names as keys, holding the field values |
| CompressorSettings.FromDict | src/mkv_compressor/core/compressor.py:64-67 | `from_dict` fails with the unknown keys exactly when the dictionary has a key that is not a field; a value of the wrong kind, which the typed record cannot hold, is refused naming a present key |
| CompressorSettings.FromDictToDict | src/mkv_compressor/core/compressor.py:47-67 | `from_dict(to_dict(s))` gives back `s` |
| CompressorSettings.OptIntRoundTrip | src/mkv_compressor/core/compressor.py:55-56 | an optional integer field stored in the dictionary reads back unchanged |
| CompressorSettings.OptStrRoundTrip | src/mkv_compressor/core/compressor.py:57-60 | an optional string field stored in the dictionary reads back unchanged |
| CompressorSettings.FromDictEmpty | src/mkv_compressor/core/compressor.py:64-67 | an empty dictionary gives the default settings |
| CompressorSettings.FromDictPartial | src/mkv_compressor/core/compressor.py:64-67 | a dictionary with some fields gives the defaults with exactly those fields replaced |
| CompressorSettings.Presets | src/mkv_compressor/core/compressor.py:653-671 | the five preset names; "Balanced" is the default; every preset is single-pass libx264 Matroska with CRF between 18 and 28 |
| CompressorSettings.FirstOfType | src/mkv_compressor/core/compressor.py:178-196 | the generator search returns the first stream of the type, or none when every stream has another type, or fails on a stream without a type reached before any match |
| CompressorSettings.FirstOfTypeAt | src/mkv_compressor/core/compressor.py:178-186 | the stream at the first index of the type is the one found |
| CompressorSettings.GetVideoInfo | src/mkv_compressor/core/compressor.py:165-234 | on success the file name is the input's basename and duration and size come from the format record |
| CompressorSettings.GetVideoInfoVideo | src/mkv_compressor/core/compressor.py:202-219 | on success the picture fields come from the first video stream ("unknown" codec and 25/1 frame rate by default) and the bit rate defaults to 0 |
| CompressorSettings.GetVideoInfoAudio | src/mkv_compressor/core/compressor.py:187-216 | the audio codec is "none" without an audio stream, else the first audio stream's codec name or "unknown" |
| CompressorSettings.NoVideoFails | src/mkv_compressor/core/compressor.py:198-199 | typed streams none of which is video make the probe fail with "no video stream" |
| CompressorSettings.DefaultFrameRate | src/mkv_compressor/core/compressor.py:210-212 | the default rate "25/1" reads as 25 frames per second |
| CompressorSettings.FrameRateOfParts | src/mkv_compressor/core/compressor.py:210-212 | a rate "num/den" with a non-zero denominator reads as num/den |
| CompressorSettings.Resolution | src/mkv_compressor/core/compressor.py:89-92 | the resolution text splits at `x` into the rendered width and height |
| ProgressParsing.TakeDigits | src/mkv_compressor/core/compressor.py:548 | `\d+` takes the longest digit prefix and what follows it does not start with a digit |
| ProgressParsing.MatchTime | src/mkv_compressor/core/compressor.py:548 | a match at a position starts with `time=` and gives a non-negative number of seconds |
| ProgressParsing.SearchTimeSound | src/mkv_compressor/core/compressor.py:548 | `re.search` finds a match at some position when it succeeds, and no position matches when it fails |
| ProgressParsing.SearchTimeFirst | src/mkv_compressor/core/compressor.py:548 | the search returns the match at the leftmost matching position |
| ProgressParsing.TimeTextRoundTrip | src/mkv_compressor/core/compressor.py:548-553 | `time=H:M:S.C` followed by a non-digit reads as 3600·H + 60·M + S.C seconds |
| ProgressParsing.TimeFieldRoundTrip | src/mkv_compressor/core/compressor.py:548-553 | FFmpeg's `time=hh:mm:ss.cc` field reads back as the clock time it shows |
| ProgressParsing.PaddedRoundTrip | src/mkv_compressor/core/compressor.py:548-553 | zero-padded fields read as the numbers they pad |
| ProgressParsing.NotAvailableTime | src/mkv_compressor/core/compressor.py:545-549 | `time=N/A` contains `time=` but the pattern does not match |
| ProgressParsing.Clamp99 | src/mkv_compressor/core/compressor.py:573-575 | the clamp lies in [0, 99] and keeps values already in range |
| ProgressParsing.ParseOutput | src/mkv_compressor/core/compressor.py:537-595 | an emitted value lies in [0, 99] |
| ProgressParsing.ParseOutputCases | src/mkv_compressor/core/compressor.py:541-595 | a value is emitted iff the line is non-empty, a callback is set, the duration is positive and `time=` matches; the value is the clamped, rescaled share; summary and warning lines are classified only without `time=`, summary first |
| ProgressParsing.EmittedValue | src/mkv_compressor/core/compressor.py:555-576 | the emitted value is clamp(b) in one pass, clamp(b/2) in pass 1 and clamp(50 + b/2) in pass 2, with b = t/d·100 |
| ProgressParsing.PassPercentMonotone | src/mkv_compressor/core/compressor.py:557-575 | a later time in the same pass never maps to a smaller percentage |
| ProgressParsing.PassHalves | src/mkv_compressor/core/compressor.py:560-575 | within the duration, pass 1 stays at or below 50 and pass 2 at or above 50 |
| ProgressParsing.SummaryBeforeWarning | src/mkv_compressor/core/compressor.py:590-595 | a summary line that also mentions an error is classified as a summary |
| ProgressParsing.CompressionProgress.constructor | src/mkv_compressor/core/compressor.py:98-104 | a new tracker has the duration, zero time, speed and ETA, single pass, no callback |
| ProgressParsing.CompressionProgress.SetCallback | src/mkv_compressor/core/compressor.py:122-124 | setting the callback changes nothing else |
| ProgressParsing.CompressionProgress.Notify | src/mkv_compressor/core/compressor.py:119-120 | a value reaches the callback exactly when one is set |
| ProgressParsing.CompressionProgress.Update | src/mkv_compressor/core/compressor.py:106-120 | `update` stores time and speed, recomputes the ETA only for positive duration, speed and share, and sends the share min(t/d, 1) when the duration is positive and a callback is set |
| ProgressParsing.CompressionProgress.Percentage | src/mkv_compressor/core/compressor.py:126-131 | `percentage` is at most 100, is 0 for a non-positive duration, and is 100 once the time reaches the duration |
| ProgressMonitor.Cut | src/mkv_compressor/core/compressor.py:515-519 | one cut splits the buffer into line, delimiter and rest, with line + delimiter + rest = buffer |
| ProgressMonitor.CutDelimiter | src/mkv_compressor/core/compressor.py:516-519 | the cut is at the first `\n` if there is one, otherwise at the first `\r` |
| ProgressMonitor.Drain | src/mkv_compressor/core/compressor.py:515-526 | the split loop leaves a buffer with neither `\n` nor `\r` |
| ProgressMonitor.DrainConcat | src/mkv_compressor/core/compressor.py:515-519 | the cut lines with their delimiters, then the rest, are exactly the buffer: no byte is lost |
| ProgressMonitor.FeedConcat | src/mkv_compressor/core/compressor.py:502-519 | across all chunks, the cut lines and the final buffer are exactly the bytes read |
| ProgressMonitor.DrainLines | src/mkv_compressor/core/compressor.py:515-519 | two break-free texts joined by `\n` split into the first as a line and the second as the rest |
| ProgressMonitor.SentFor | src/mkv_compressor/core/compressor.py:521-524 | every value sent for a sequence of lines lies in [0, 99] |
| ProgressMonitor.SentForAppend | src/mkv_compressor/core/compressor.py:521-524 | the values sent for two runs of lines are those of the first followed by those of the second |
| ProgressMonitor.ParseFfmpegOutput | src/mkv_compressor/core/compressor.py:537-595 | parsing a line sends exactly the value the classifier emits, if any, and changes nothing else |
| ProgressMonitor.DrainBuffer | src/mkv_compressor/core/compressor.py:515-526 | the inner loop leaves the break-free rest and sends the values of the stripped non-blank lines it cut, in order |
| ProgressMonitor.ReadChunks | src/mkv_compressor/core/compressor.py:494-526 | reading the chunks leaves the unterminated rest and sends the values of every complete stripped non-blank line, in order |
| ProgressMonitor.MonitorProgress | src/mkv_compressor/core/compressor.py:469-535 | the monitor sends the values of the complete lines, then of the leftover buffer parsed unstripped when it is not empty |
| ProgressMonitor.MonitorFinish | src/mkv_compressor/core/compressor.py:484-492 | parsing the leftover buffer at exit completes the values of the monitored lines |
| ProgressMonitor.MonitorSentInRange | src/mkv_compressor/core/compressor.py:469-535 | every value sent while a pass is monitored lies in [0, 99] |
| Encoder.BuildPass1Command | src/mkv_compressor/core/compressor.py:419-440 | the pass-1 command has 15 words, starts with the FFmpeg path, reads the input and writes to `-` |
| Encoder.BuildPass2Command | src/mkv_compressor/core/compressor.py:442-467 | the pass-2 command has 19 words, starts with the FFmpeg path, reads the input and ends with the output path |
| Encoder.Pass1Reads | src/mkv_compressor/core/compressor.py:423-439 | the pass-1 command reads back as program, input, codec, preset, CRF, `-pass 1`, `-f null` and `-`, with no audio options |
| Encoder.Pass2Reads | src/mkv_compressor/core/compressor.py:446-466 | the pass-2 command reads back as program, input, its options and the output; `-c:a`, `-b:a` and `-f` carry the audio codec, audio bit rate and container |
| Encoder.CrfReadsBack | src/mkv_compressor/core/compressor.py:432-456 | both commands carry `str(crf)`, which reads back as the CRF |
| Encoder.PassCommandsIgnoreScaling | src/mkv_compressor/core/compressor.py:419-467 | the pass commands depend only on codec, preset, CRF, audio and container, not on size, scale filter or rate limits |
| Encoder.ChooseScale | src/mkv_compressor/core/compressor.py:290-298 | scaling to width × height iff both are set, else by the filter iff it is set, else none |
| Encoder.OutputArgs | src/mkv_compressor/core/compressor.py:284-309 | the output options are codec, CRF, preset and audio, plus maxrate = bufsize = the maximum bit rate when one is set |
| Encoder.PassSent | src/mkv_compressor/core/compressor.py:344 | every value sent while monitoring a run lies in [0, 99] |
| Encoder.SinglePassHundred | src/mkv_compressor/core/compressor.py:349-359 | single pass: 100 is sent iff a callback is set and the run exits with 0, and then it is the last value |
| Encoder.TwoPassHundred | src/mkv_compressor/core/compressor.py:405-413 | two pass: 100 is sent iff a callback is set and both passes exit with 0 |
| Encoder.FailedFirstPass | src/mkv_compressor/core/compressor.py:384-389 | after a failed first pass only the pass-1 command runs, nothing is cleaned up and the result is failure |
| Encoder.Without | src/mkv_compressor/core/compressor.py:601-603 | the names left are those listed and not deleted |
| Encoder.WithoutTwice | src/mkv_compressor/core/compressor.py:601-603 | deleting one set of names and then another is deleting their union |
| Encoder.WorkDir.Remove | src/mkv_compressor/core/compressor.py:603 | `os.remove` takes exactly that name out of the directory |
| Encoder.Prepare | src/mkv_compressor/core/compressor.py:258-270 | a missing input fails first; an existing output without overwrite fails next; otherwise the result succeeds iff the probe does |
| Encoder.PrepareAsWritten | src/mkv_compressor/core/compressor.py:258-270 | the guards as written agree with the corrected ones whenever the output has a directory part |
| Encoder.BareOutputNameFails | src/mkv_compressor/core/compressor.py:267 | for a bare output name the guards as written fail where the corrected ones succeed |
| Encoder.GuardsBeforeProbe | src/mkv_compressor/core/compressor.py:258-264 | when a guard fails, the probe result does not matter and the call fails |
| Encoder.VideoCompressor.constructor | src/mkv_compressor/core/compressor.py:137-144 | the FFmpeg path is the given one, or "ffmpeg" when none or an empty one is given |
| Encoder.VideoCompressor.SinglePassEncode | src/mkv_compressor/core/compressor.py:335-363 | single pass succeeds iff the run exits with 0 and sends the monitored values, then 100 on success with a callback |
| Encoder.VideoCompressor.TwoPassEncode | src/mkv_compressor/core/compressor.py:365-417 | two pass succeeds iff both passes exit with 0; it runs pass 2 only after pass 1 succeeds; it cleans up the pass logs iff pass 2 ran; it sends both passes' values, then 100 only on full success |
| Encoder.VideoCompressor.CleanupPassFiles | src/mkv_compressor/core/compressor.py:597-605 | exactly the names starting with `ffmpeg2pass` are deleted, the others remain in order |
| Encoder.VideoCompressor.CompressVideo | src/mkv_compressor/core/compressor.py:236-333 | a failed guard or probe gives failure with nothing run; otherwise a tracker with the probed duration is set up and the single-pass graph or the two passes run, with the outcomes above |
| Helpers.ReplaceAll | src/mkv_compressor/utils/helpers.py:307-309 | replacing the invalid characters keeps the length |
| Helpers.SanitizeFilename | src/mkv_compressor/utils/helpers.py:296-318 | the loop computes replace, then strip of spaces and dots, then the "unnamed" fallback |
| Helpers.SanitizedSafe | src/mkv_compressor/utils/helpers.py:307-318 | a sanitised name is non-empty, has none of `<>:"/\|?*`, and neither starts nor ends with a space or dot |
| Helpers.SanitizeIdempotent | src/mkv_compressor/utils/helpers.py:307-318 | sanitising a sanitised name changes nothing |
| Helpers.DurationFields | src/mkv_compressor/utils/helpers.py:67-69 | hours, minutes and seconds are ⌊s⌋ div 3600, (⌊s⌋ mod 3600) div 60 and ⌊s⌋ mod 60 |
| Helpers.DurationText | src/mkv_compressor/utils/helpers.py:67-74 | the text is HH:MM:SS iff at least an hour has passed, else MM:SS, with fields that recombine to ⌊s⌋ |
| Helpers.FormatDurationRoundTrip | src/mkv_compressor/utils/helpers.py:57-74 | the duration text has three fields iff ⌊s⌋ ≥ 3600, and reads back as ⌊s⌋ seconds |
| Helpers.FormatFileSize | src/mkv_compressor/utils/helpers.py:34-54 | zero gives "0 B"; otherwise the unit is the largest of the five with size ≥ 1024^unit, and the value is size / 1024^unit |
| Helpers.Truncate | src/mkv_compressor/utils/helpers.py:144 | `int()` of a non-negative real is its integer part |
| Helpers.RatioAntitone | src/mkv_compressor/utils/helpers.py:132-139 | the tier ratio falls from 0.8 to 0.3 as the CRF rises |
| Helpers.EstimateAntitoneInCrf | src/mkv_compressor/utils/helpers.py:119-144 | a higher CRF never estimates a larger output |
| Helpers.EstimateBounds | src/mkv_compressor/utils/helpers.py:119-144 | with a scale factor in [0, 1] the estimate lies between 0 and the input size |
| Helpers.VideoFileByExtension | src/mkv_compressor/utils/helpers.py:268-293 | a name whose lower-cased extension is listed is a video file, with or without a directory |
| Helpers.NoDotNoVideo | src/mkv_compressor/utils/helpers.py:293 | a final component without a dot is never a video file |
| Helpers.UpperCaseExtension | src/mkv_compressor/utils/helpers.py:293 | the extension test ignores case ("clip.MOV") |
| Helpers.CandidateInjective | src/mkv_compressor/utils/helpers.py:338-339 | different counters give different candidate paths |
| Helpers.GetUniqueFilename | src/mkv_compressor/utils/helpers.py:321-344 | a free path is returned as it is; otherwise parent/stem_k+suffix for the smallest k ≥ 1 that is free |
| Helpers.Observed | src/mkv_compressor/utils/helpers.py:389-398 | the time and the size are set or cleared together: a look keeps a pair with both or neither recorded in that shape |
| Helpers.ChangeOnPresent | src/mkv_compressor/utils/helpers.py:400-407 | for a present file a change is seen iff time or size differs from what was recorded |
| Helpers.NoChangeWhenMissing | src/mkv_compressor/utils/helpers.py:389-398 | a missing file leaves the recorded pair as it is |
| Helpers.FileWatcher.constructor | src/mkv_compressor/utils/helpers.py:383-387 | a new watcher records what the first stat shows, starting from nothing |
| Helpers.FileWatcher.UpdateStats | src/mkv_compressor/utils/helpers.py:389-398 | the recorded pair becomes what the stat shows |
| Helpers.FileWatcher.HasChanged | src/mkv_compressor/utils/helpers.py:400-407 | `has_changed` records the new pair and answers whether it differs from the old |
| Config.Defaults | src/mkv_compressor/utils/config.py:44-67 | the defaults hold empty custom presets and an empty history |
| Config.Merged | src/mkv_compressor/utils/config.py:69-88 | a loaded file's keys override the defaults, the other defaults remain, and no other key appears |
| Config.GetAfterSet | src/mkv_compressor/utils/config.py:125-143 | after a successful `set`, `get` of the same dotted key returns the value |
| Config.SetChangesOnlyPath | src/mkv_compressor/utils/config.py:133-143 | `set` leaves every key path that is neither a prefix nor an extension of the set one unchanged |
| Config.SetFailsIffBlocked | src/mkv_compressor/utils/config.py:133-143 | `set` fails exactly when some present intermediate value is not a dictionary |
| Config.LastN | src/mkv_compressor/utils/config.py:167-168 | keeping the last n entries keeps min(n, length) entries from the end |
| Config.RemoveFirstAt | src/mkv_compressor/utils/config.py:184-185 | `remove` deletes the first occurrence and nothing else, and is a no-op for an absent entry |
| Config.MoveToFrontShape | src/mkv_compressor/utils/config.py:180-194 | the directory comes first, at most ten entries remain, and the other entries follow in their old order without the first earlier occurrence |
| Config.MoveToFrontDistinct | src/mkv_compressor/utils/config.py:183-192 | a duplicate-free recent list stays duplicate-free and lists the directory once |
| Config.HistoryShape | src/mkv_compressor/utils/config.py:164-168 | the new entry is last and at most 100 entries remain, the newest of the old ones in order |
| Config.RecentFront | src/mkv_compressor/utils/config.py:172-199 | after `add_recent_directory`, `get_recent_directories` starts with that directory |
| Config.PresetSaveDelete | src/mkv_compressor/utils/config.py:201-216 | after saving, the custom presets map the name to the preset; after deleting, the name is gone |
| Config.NoDotKeys | src/mkv_compressor/utils/config.py:154 | the history and preset keys have no dots, so `get` and `set` address them at the top level |
| Config.ConfigManager.constructor | src/mkv_compressor/utils/config.py:15-33 | a new manager holds the defaults merged with the file |
| Config.ConfigManager.Load | src/mkv_compressor/utils/config.py:69-88 | `load` replaces the settings by the defaults merged with the file |
| Config.ConfigManager.ResetToDefaults | src/mkv_compressor/utils/config.py:145-148 | reset gives exactly the defaults |
| Config.ConfigManager.Get | src/mkv_compressor/utils/config.py:104-123 | `get` walks the dotted key and returns the default where a segment is missing or not a dictionary |
| Config.ConfigManager.Set | src/mkv_compressor/utils/config.py:125-143 | `set` stores the value at the dotted key, creating missing dictionaries, or fails and changes nothing |
| Config.ConfigManager.AddToHistory | src/mkv_compressor/utils/config.py:150-170 | the entry is appended to the history and the last 100 entries are kept |
| Config.ConfigManager.AddRecentDirectory | src/mkv_compressor/utils/config.py:172-194 | the recent list becomes the directory followed by the list without its first occurrence, capped at ten |
| Config.ConfigManager.SaveCustomPreset | src/mkv_compressor/utils/config.py:201-205 | the custom presets gain or replace the named entry |
| Config.ConfigManager.DeleteCustomPreset | src/mkv_compressor/utils/config.py:211-216 | the named entry is removed if present; otherwise nothing changes |
| Cli.ParseResolution | src/mkv_compressor/cli.py:249-255 | a resolution is accepted iff splitting at `x` gives exactly two integers, which it returns |
| Cli.ResolutionRoundTrip | src/mkv_compressor/cli.py:249-255 | `WxH` built from two integers reads back as those integers |
| Cli.ProbedResolutionReads | src/mkv_compressor/cli.py:251 | a probed video's resolution text reads back as its width and height |
| Cli.ThreeFieldsRefused | src/mkv_compressor/cli.py:251-255 | three `x`-separated fields are refused |
| Cli.CreateCompressionSettings | src/mkv_compressor/cli.py:227-259 | an error iff a resolution is given that does not parse; otherwise the preset, or the default for an unknown name, with each given option replacing its field and `--two-pass` only setting two-pass |
| Cli.ApplyOptions | src/mkv_compressor/cli.py:239-248 | each given option replaces its field and the others are kept |
| Cli.NoOptionsKeepPreset | src/mkv_compressor/cli.py:233-236 | without options the settings are the preset, or the default for an unknown name |
| Cli.KeptVideo | src/mkv_compressor/cli.py:208-210 | kept listing entries all have an accepted extension |
| Cli.FoundVideo | src/mkv_compressor/cli.py:191-222 | every found path has one of the eight accepted extensions |
| Cli.BelowIrreflexive | src/mkv_compressor/cli.py:224 | string order: no string is below itself |
| Cli.BelowTotal | src/mkv_compressor/cli.py:224 | string order: of two different strings one is below the other |
| Cli.BelowTransitive | src/mkv_compressor/cli.py:224 | string order is transitive |
| Cli.BelowAsymmetric | src/mkv_compressor/cli.py:224 | string order is asymmetric |
| Cli.Insert | src/mkv_compressor/cli.py:224 | inserting into an ascending list keeps it ascending and adds exactly the new string |
| Cli.SortedUnique | src/mkv_compressor/cli.py:224 | `sorted(set(xs))` is ascending and has exactly the members of xs |
| Cli.AscendingDistinct | src/mkv_compressor/cli.py:224 | an ascending list has no duplicates |
| Cli.KeepFiles | src/mkv_compressor/cli.py:208-210 | the loop appends the kept entries in listing order |
| Cli.FindVideoFiles | src/mkv_compressor/cli.py:191-224 | the result is ascending and duplicate-free, has exactly the found paths, and all of them are accepted video files |
| Cli.ChooseOutput | src/mkv_compressor/cli.py:344-356 | single-file output iff exactly one file and `-o` are given; otherwise the output directory, or `.` |
| Cli.DirectoryOutputName | src/mkv_compressor/cli.py:399-403 | in directory mode the output's name is the input's root plus `_compressed.mkv`, joined to the directory |
| Cli.Successes | src/mkv_compressor/cli.py:393-427 | successes never exceed the files processed |
| Cli.SkipCostsSuccess | src/mkv_compressor/cli.py:405-410 | a skipped file is never counted, so the count falls short of the files |
| Cli.ExitStatus | src/mkv_compressor/cli.py:328-444 | the exit status is 0 iff inputs were given, files were found and all of them succeeded, and 1 otherwise |
| Cli.ExistingStays | src/mkv_compressor/cli.py:405-410 | without `--overwrite` an output that exists keeps existing for the rest of the loop |
| Cli.DuplicateOutputSkipped | src/mkv_compressor/cli.py:396-410 | without `--overwrite` a later file whose output an earlier file left behind is skipped |
| Cli.DuplicateOutputFailsBatch | src/mkv_compressor/cli.py:392-444 | two inputs with the same output, the first leaving it behind, keep the batch from succeeding without `--overwrite` |
| Cli.RunBatch | src/mkv_compressor/cli.py:392-444 | the loop tests each file against the outputs existing when it is reached, including those earlier files left, counts successes over the files not skipped and ends with 1 iff some file did not succeed |
| Gui.Appended | src/mkv_compressor/gui/main_window.py:432-434 | appending absent paths keeps the old list as a prefix and adds at most the candidates |
| Gui.AppendedMembers | src/mkv_compressor/gui/main_window.py:432-434 | after appending, a path is listed iff it was listed or offered |
| Gui.AppendedDistinct | src/mkv_compressor/gui/main_window.py:432-434 | a duplicate-free list stays duplicate-free |
| Gui.AppendedConcat | src/mkv_compressor/gui/main_window.py:448-455 | offering two batches in turn is offering them joined |
| Gui.DropStep | src/mkv_compressor/gui/main_window.py:481-500 | each dropped item adds its own candidates after the earlier ones |
| Gui.FileList.constructor | src/mkv_compressor/gui/main_window.py:163 | the list starts empty |
| Gui.FileList.Offer | src/mkv_compressor/gui/main_window.py:433-434 | a path is appended iff it is absent, and the answer says whether it was |
| Gui.FileList.AddFiles | src/mkv_compressor/gui/main_window.py:420-437 | the selected files are appended when absent, and the status shows the new count |
| Gui.FileList.OfferDir | src/mkv_compressor/gui/main_window.py:449-455 | a directory's video files are appended when absent, and the count is the growth of the list |
| Gui.FileList.OfferWalk | src/mkv_compressor/gui/main_window.py:448-455 | a walk's video files are appended in walk order when absent, and the count is the growth of the list |
| Gui.FileList.AddFolder | src/mkv_compressor/gui/main_window.py:439-457 | a cancelled dialog changes nothing; otherwise the folder's video files are appended and the status shows how many |
| Gui.FileList.OnDrop | src/mkv_compressor/gui/main_window.py:476-502 | dropped video files and the video files of dropped folders are appended when absent, and the status shows how many |
| Gui.FileList.RemoveSelected | src/mkv_compressor/gui/main_window.py:459-468 | deleting the selected ascending indices from the highest down removes exactly those positions and keeps the rest in order |
| Gui.FileList.ClearAll | src/mkv_compressor/gui/main_window.py:470-474 | the list is empty and the status says so |
| Gui.DeleteBelow | src/mkv_compressor/gui/main_window.py:464-466 | deleting a lower index after the higher ones removes exactly one more position |
| Gui.UnselectedKeeps | src/mkv_compressor/gui/main_window.py:459-466 | an unselected file stays in the list |
| Gui.OverallBounds | src/mkv_compressor/gui/main_window.py:643-645 | the overall progress of file i of n lies between 100·i/n and 100·(i+1)/n |
| Gui.CompletedShare | src/mkv_compressor/gui/main_window.py:659-661 | a completed file shows 100·(i+1)/n |
| Gui.OverallMonotone | src/mkv_compressor/gui/main_window.py:643-645 | overall progress rises with the file's percentage |
| Gui.StartedCount | src/mkv_compressor/gui/main_window.py:628-630 | the files started are those before the first check that sees the cancel flag |
| Gui.CountSucceeded | src/mkv_compressor/gui/main_window.py:656-657 | successes never exceed the files started |
| Gui.FileUpdatesInRange | src/mkv_compressor/gui/main_window.py:643-661 | every update for file i lies in that file's share |
| Gui.UpdatesInRange | src/mkv_compressor/gui/main_window.py:628-670 | every progress update of a batch lies in [0, 100] |
| Gui.CompressionWorker | src/mkv_compressor/gui/main_window.py:612-693 | an unknown preset ends the worker with failure and nothing started; otherwise the run is as below |
| Gui.ProcessFiles | src/mkv_compressor/gui/main_window.py:625-671 | the files before the cancel are processed; 100 and the finish flag (successes > 0) follow only without a cancel |
| Gui.StartFiles | src/mkv_compressor/gui/main_window.py:628-667 | the loop names each started file's output, counts its successes and collects its updates |
| Gui.ProcessFile | src/mkv_compressor/gui/main_window.py:632-666 | one file is written to `stem_compressed.mkv` in the output directory and succeeds iff the compressor does |
| Gui.ReportProgress | src/mkv_compressor/gui/main_window.py:643-645 | the callback turns each reported percentage into overall progress |
| Gui.CancelFirst | src/mkv_compressor/gui/main_window.py:628-630 | a cancel seen at the first check starts no file and skips the finish |
| Gui.NoCancelStartsAll | src/mkv_compressor/gui/main_window.py:628-671 | without a cancel every file starts, and the batch counts as a success iff some file succeeded |
| Gui.SucceededCount | src/mkv_compressor/gui/main_window.py:656-671 | the success count is positive iff some started file succeeded |
| Logging.RelativeToInverse | src/mkv_compressor/utils/logger.py:165-168 | `relative_to(home)` succeeds iff the path is home followed by zero or more components, and home joined with the result is the path |
| Logging.RelativeToChild | src/mkv_compressor/utils/logger.py:167-168 | a path below home is relative to it by the components after home |
| Logging.SanitizePath | src/mkv_compressor/utils/logger.py:162-173 | a sanitised path is never empty |
| Logging.SanitizeCases | src/mkv_compressor/utils/logger.py:162-173 | under home: `~/` and the rest; elsewhere: the path when at most 100 long, else `.../` and the final name |
| Logging.SanitizeKeepsName | src/mkv_compressor/utils/logger.py:162-173 | sanitising keeps the file's final name |
| Logging.ShortFormKeepsName | src/mkv_compressor/utils/logger.py:171-172 | the shortened form ends in the final name |
| Logging.SanitizeBound | src/mkv_compressor/utils/logger.py:169-173 | outside home the result is at most 100 long or the shortened form, and it differs from the path only when the path is longer than 100 |
| Logging.WithSuffixParts | src/mkv_compressor/utils/logger.py:127-131 | an optional suffix is appended, after its separator, exactly when the message is non-empty |
| Logging.FileOperationParts | src/mkv_compressor/utils/logger.py:175-183 | info level; `op: in -> out` with a non-empty output, else `op: in`, both sanitised |
| Logging.FileErrorParts | src/mkv_compressor/utils/logger.py:185-188 | error level; `op failed for p: err` |
| Logging.StartParts | src/mkv_compressor/utils/logger.py:127-132 | info level; `Started op`, with `: msg` only for a non-empty message |
| Logging.CompleteParts | src/mkv_compressor/utils/logger.py:141-153 | info level and "completed" on success, error level and "failed" otherwise; then the elapsed time and an optional message |

## Left out

- Process plumbing is left out: `poll`, `select` with its timeout, the blocking fallback read, `sleep` pacing, `Popen`, `run_async` and `wait`. An FFmpeg run is given as the stderr chunks read before the exit check succeeds, plus an exit code, or as a failure to start. Data still in the pipe at exit is not read, in the model as in the program.
- Stderr bytes are modelled as decoded characters. `\n` and `\r` never occur inside a UTF-8 multi-byte sequence, so the cut points agree. The effect of `errors="ignore"` on malformed bytes is not modelled.
- `str.strip`, `str.lower` and `\d` are restricted to ASCII; Unicode white space, case and digits are not modelled.
- FFmpeg and library calls are left out: `_verify_ffmpeg`, `ffmpeg.probe` (a `Probe` record is given) and the ffmpeg-python graph. The single-pass graph is kept as a record of its input, scale choice, output, format and options.
- The probe's numeric text fields are modelled as already-converted numbers (`float()` and `int()` of the duration, size, width, height and bit rate). Only the frame rate is parsed from text.
- `int()` is modelled without digit-group underscores (`1_000`); the frame-rate fields are read with `int()` rules where the program uses `float()`, so a fractional numerator such as `29.97/1` is refused by the model.
- Real numbers stand for Python floats: rounding is not modelled, and neither is the `%.1f` rendering of sizes, durations, percentages and elapsed times. `log_complete` takes its elapsed time as text.
- Speed, ETA and completion messages written only to the log (`logger.debug`, `logger.info`) are not modelled, and neither is `log_progress`.
- Config persistence is left out: JSON `load`/`save`, `backup_config`, `restore_config`, the default location and the global singleton. `load` is given a `ConfigFile`: none, loaded entries, or unreadable.
- `get_recent_directories` and `get_custom_presets` are single `get` calls; they appear inside `Config.RecentFront` and `Config.PresetSaveDelete`, not as members of their own.
- `CompressorSettings.FromDict`: the settings record is typed, so a mistyped value (`{"crf": "23"}`) is refused with `WrongType` where `cls(**data)` performs no type check and stores it; the model does not promise acceptance of such dictionaries.
- `Encoder.VideoCompressor.CompressVideo`: it runs on the corrected guards `Encoder.Prepare` (see Findings), so for an output path with no directory part, as in the documented `mkv-compressor input.mp4 -o output.mkv`, it encodes where the program returns False because `os.makedirs("")` raises. The guards as written are `Encoder.PrepareAsWritten`, and `Encoder.BareOutputNameFails` shows their failure for such a name.
- `Encoder.VideoCompressor.CleanupPassFiles`: every removal succeeds in the model. In the program a raising `os.remove` ends the loop, the warning is logged, and the later pass logs stay behind; that case is not modelled.
- `Config.ConfigManager.Set`: the model returns failure, with the store unchanged, where the program raises on a non-dictionary intermediate. The program raises only while every earlier key already existed, so nothing has changed by then either.
- The GUI itself is left out: tkinter widgets, dialogs, the progress window, the list box mirror, notifications, `os.startfile`, and the worker thread. The cancel flag is a sequential input; interleavings are not modelled.
- Log messages written only to the progress window are not modelled.
- Command-line plumbing is left out: argument parsing, logging setup, `--list-presets`, `--info`, the dry-run listing, `CLIProgressHandler`, `os.makedirs` of the output directory, and `KeyboardInterrupt`. What the file system says of each input path (file, directory, or pattern, with its listings) is given. So are the outputs that exist before the loop and, for each compressed file, whether its output file exists afterwards, since FFmpeg may leave a partial file on failure.
- System-bound helpers are left out: hashing, disk space, `find_ffmpeg`, `validate_ffmpeg`, system info, temporary directories, `compare_video_quality` and `FileWatcher.get_size`.
- `batch_compress` is not part of this model. It is not one of the modelled operations; the command line and the GUI drive `compress_video` themselves.
- Logger setup, log rotation, `cleanup_old_logs` and `get_logger` are left out; so are `assets.py`, `setup.py` and `main.py`.
- Path existence is decided on the normalised path string. Python's leading `//` special case and symbolic links are not modelled.
- `Helpers.GetUniqueFilename` uses a finite set of existing paths, so the counter search always ends; the program's search ends only if the file system is finite.
- `Helpers.FormatFileSize` returns the unit index and the scaled value rather than the rendered text.

## Findings

| source | as written | input that shows it | evidently intended | confidence | as-written member | corrected member |
|---|---|---|---|---|---|---|
| src/mkv_compressor/core/compressor.py:267 | `os.makedirs(os.path.dirname(output_path), exist_ok=True)` is called even when the output path has no directory part, and `makedirs("")` raises, so `compress_video` returns False | `mkv-compressor in.mp4 -o out.mkv` with `in.mp4` present and `out.mkv` absent | create the directory only when the output path has one; a bare name means the current directory | not executed | Encoder.BareOutputNameFails | Encoder.Prepare |
