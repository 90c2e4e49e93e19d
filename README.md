# A verified model of the video-downloader orchestration core

The downloader hands each URL to the yt-dlp engine as a child process. It
builds the engine's argument vector, reads the engine's combined output one
line at a time and turns progress lines into progress events. It checks a
cancel flag before every line and once more after the engine exits, and it
classifies the run as a success, a failure or a cancellation. A batch runs one
such download per URL, in order, and stops at the first failure or
cancellation. Pasted text is normalised into the URL list first. The progress
display writes the remaining time as a clock.

The Dafny modules follow that structure:

- `Wrappers`: `Option` and small sequence facts.
- `Text`: Python's `str.isspace`, `strip()`, `split()`, `splitlines()`,
  `startswith`, `join` and `split(c)`.
- `Numerals` and `Decimals`: digit strings, `str(n)`, and exact decimal numbers
  with truncation toward zero.
- `Decode`: `_to_int` and `_to_float`.
- `Progress`: the progress regex and `_parse_progress`.
- `Command`: the argument vector of `_run_ytdlp`, and a reader that decodes it
  the way the engine's option parser does.
- `Recent`: the `deque(maxlen=20)` of recent lines, as a ring over an array.
- `Runner`: the line loop and the outcome of `_run_ytdlp`.
- `Batch`: `download` and `download_many`.
- `Urls`: `normalize_urls`.
- `Eta`: `_fmt_eta`.

Code that updates state step by step keeps that form: the read loop, the
ring buffer, URL normalisation and the batch loop. Each method is proved
equal to a closed-form specification function (`RunSpec`, `DownloadSpec`,
`BatchSpec`, `Dedup(Words(...))`). The properties the program promises are
proved as lemmas about those functions.

The engine, the cancel flag and the environment are parameters:

- An engine run is given as the lines it prints and its exit code
  (`EngineRun`).
- The cancel flag is given as the first checkpoint at which it is seen set
  (`Option<nat>`; `None` means never). A set flag stays set.
- Tool provisioning is given as its log lines and either the tool paths or an
  error (`Setup`).
- The callbacks become traces: the progress events and the log lines, in the
  order they are delivered.

Where the program's documented design and its code differ, the model follows
the code:

- Ordinary output lines are logged trimmed, not verbatim (`log(cleaned)`).
- Provisioning runs again for every URL: `download` calls `_ensure_tools`
  each time.
- `download_many` does not deduplicate its list; `normalize_urls` is a separate
  step that its caller applies.
- A failure during provisioning is an ordinary failed outcome carrying the
  error's message. There is no separate error kind for it.

## Model

| member | source | states |
|---|---|---|
| Decode.ToFloat | src/video_downloader/downloader.py:57-64 | A field that is blank, "NA" or "None" after stripping is absent. Otherwise the result is what `float` reads from the stripped text: the value of the decimal literal it spells, or absent when it spells none. |
| Decode.ToInt | src/video_downloader/downloader.py:47-54 | Present exactly when the float decoding is present, and then equal to that value truncated toward zero. |
| Decode.ParseDecimalSpell | src/video_downloader/downloader.py:62 | Every well-formed decimal literal (sign, digits, optional point and fraction) is accepted with the number it denotes. |
| Decode.SpellOfParseDecimal | src/video_downloader/downloader.py:62 | Conversely, every accepted text is the spelling of a well-formed literal, and its value is that literal's value. |
| Decode.ParseDecimal | src/video_downloader/downloader.py:62 | An accepted text has no whitespace at either end, ends in a digit or a point, and is read as a number in its shortest form, so that equal numbers have one representation. |
| Decode.ToIntOfInt | src/video_downloader/downloader.py:47-54 | The text `str(n)` of any integer decodes back to `n`. |
| Decode.ToFloatOfInt | src/video_downloader/downloader.py:57-64 | The text `str(n)` of any integer decodes back to the float `n`. |
| Decode.ToIntOfNA | src/video_downloader/downloader.py:47-64 | "NA" and "None" decode to absent for both conversions. |
| Decode.ToFloatOfSpell | src/video_downloader/downloader.py:47-64 | The text of every well-formed literal, whole or fractional, decodes to the number it denotes as a float, and to that number truncated toward zero as an integer. |
| Decimals.Trunc | src/video_downloader/downloader.py:52 | `int(x)` of a float truncates toward zero: the result is the whole part, bounded on the correct side for either sign. |
| Decimals.TruncWhole | src/video_downloader/downloader.py:52 | A whole number truncates to itself. |
| Progress.CutField | src/video_downloader/downloader.py:22-24 | Cuts exactly when the text has a pipe. The head is pipe-free, and head, pipe and tail rebuild the text. |
| Progress.SplitFields | src/video_downloader/downloader.py:22-24 | A successful split yields `n` pipe-free fields and a remainder that serialize back to the input. |
| Progress.SplitSerialize | src/video_downloader/downloader.py:22-24 | Splitting the serialization of pipe-free fields gives those fields and the remainder back. |
| Progress.MatchProgress | src/video_downloader/downloader.py:22-24 | A match has five pipe-free groups and an `eta` without a line feed, and those groups joined by pipes give back the whole matched text. |
| Progress.MatchProgressIff | src/video_downloader/downloader.py:22-24 | The regex matches with groups `g` exactly when the five fields of `g` are pipe-free, `eta` has no line feed and the text is their pipe-separated serialization. |
| Progress.ParseProgress | src/video_downloader/downloader.py:165-187 | A payload decodes exactly when its stripped text matches the regex. The status is the stripped status group, or "downloading" when that is blank. The byte counts are the integer decodings of their groups; the exact total is kept when it decodes, and the estimate is present exactly when there is no total and the estimate decodes. Speed and eta are the float decodings of their groups. There is never a filename and never both totals. |
| Progress.EncodeNumberDecodes | src/video_downloader/downloader.py:170-174 | A number as the engine prints it (a decimal literal, or "NA" when missing) decodes to the number it stands for as a float, to its truncation as an integer, and to absent for "NA". |
| Progress.EncodeLineMatches | src/video_downloader/downloader.py:22-24 | A line printed from the progress template, with whole or fractional numbers, is matched by the regex with the groups it was printed from. |
| Progress.ParseEncodeLine | src/video_downloader/downloader.py:165-187 | Parsing a printed line gives back every present value: the byte counts truncated toward zero, speed and eta exactly, whole or fractional. An empty status becomes "downloading", and the estimate survives only when the total is missing. |
| Progress.EncodeWhole | src/video_downloader/downloader.py:170-174 | An integer the engine prints as `str(v)` is the special case of a literal without a point, standing for `v` as an integer and as a float. |
| Progress.Finished | src/video_downloader/downloader.py:272 | The synthetic event has status "finished", the path as its filename, and no other field. |
| Command.JoinPath | src/video_downloader/downloader.py:207 | The joined path begins with the directory and ends with the name. |
| Command.OutputNameOfJoin | src/video_downloader/downloader.py:207 | Whatever the directory (except a bare drive), the part after the last separator of the output template is the file-name template. |
| Command.BaseNameAppend | src/video_downloader/downloader.py:207 | After a directory that ends in a separator, the base name of the joined path is the separator-free name. |
| Command.MergeFormat | src/video_downloader/downloader.py:208 | The merge container is the requested one when it is present and non-empty, otherwise "mp4"; it is never empty. |
| Command.FixedItems | src/video_downloader/downloader.py:210-231 | Eleven options, each well-formed for the engine parser; the second sets the merge container and the last sets `-o` to the output template joined to the output directory. |
| Command.ExtraItems | src/video_downloader/downloader.py:233-237 | One option per setting that applies: `--cookies` first exactly when a non-empty cookie path is given, `--ffmpeg-location` last exactly when a location is known; each takes a value. |
| Command.BuildCommand | src/video_downloader/downloader.py:210-239 | The vector starts with the engine path and ends with the URL; what it tells the engine is stated by `Command.DecodeCommand` and `Command.CommandSettings`. |
| Command.DecodeCommand | src/video_downloader/downloader.py:210-239 | Read back, the vector sets the fixed options followed by the optional ones, has exactly the fixed switches, and has the URL as its only positional argument. |
| Command.CommandSettings | src/video_downloader/downloader.py:207-239 | The engine reads: the URL as the only positional argument; exactly the switches --no-playlist, --windows-filenames and --newline; the cookie file exactly when a non-empty one was given; the FFmpeg location exactly when one is known; the requested merge container or mp4; and the output template joined to the output directory. |
| Command.SwitchesOfFixed | src/video_downloader/downloader.py:210-231 | A string is a switch of the fixed options exactly when it is one of the three switches. |
| Command.CommandFixedValues | src/video_downloader/downloader.py:207-231 | The merge container is the requested one or mp4, and `-o` is the joined output template. |
| Command.CommandCookies | src/video_downloader/downloader.py:233-234 | `--cookies` is set to the cookie path exactly when that path is present and non-empty. |
| Command.CommandFfmpeg | src/video_downloader/downloader.py:236-237 | `--ffmpeg-location` is set exactly when an FFmpeg location is known, to that location. |
| Command.DecodeFlatten | src/video_downloader/downloader.py:210-237 | Reading back a run of well-formed options gives exactly their options and switches, in order, in front of whatever follows. |
| Recent.LastN | src/video_downloader/downloader.py:240 | A buffer of capacity `n` holds the last min(length of s, n) elements received, oldest first. |
| Recent.LastNAppendAll | src/video_downloader/downloader.py:276 | Feeding more lines to a full or partial buffer is the same as keeping the last `n` of everything received. |
| Recent.RecentLines.constructor | src/video_downloader/downloader.py:240 | A new buffer is valid, empty, and has the given capacity. |
| Recent.RecentLines.Append | src/video_downloader/downloader.py:276 | Appending keeps the ring valid and leaves it holding the last `capacity` lines of the old contents plus the new line. |
| Recent.RecentLines.Items | src/video_downloader/downloader.py:283 | Returns the buffered lines, oldest first. |
| Runner.RouteLine | src/video_downloader/downloader.py:258-277 | One line yields exactly its events and log lines. The buffer becomes the last twenty of its old contents plus the line's ordinary text, if any. |
| Runner.Classify | src/video_downloader/downloader.py:258-277 | A line is blank exactly when it is all whitespace and a progress line exactly when its stripped text starts with the progress marker, carrying the text after it. A file line starts with the file marker and not the progress marker, carrying the path after it. Anything else is an ordinary line carried stripped and non-empty, with neither marker. |
| Runner.ReadLines | src/video_downloader/downloader.py:253-277 | The loop stops early exactly when the flag is seen before some line. It then has the traces of the lines before that one. Otherwise it has the traces of every line and buffers the last twenty ordinary lines. |
| Runner.RunEngine | src/video_downloader/downloader.py:240-284 | A run equals the closed form `RunSpec` of its lines, exit code and cancel flag. |
| Runner.BlankLine | src/video_downloader/downloader.py:258-260 | A whitespace-only line yields no event, no log line and nothing buffered. |
| Runner.ClassifyProgress | src/video_downloader/downloader.py:262-263 | A line starting with the progress marker, with any trailing whitespace, is routed to the progress parser with the text after the marker. |
| Runner.EngineProgressLine | src/video_downloader/downloader.py:262-267 | A progress line as the engine prints it, with whole or fractional numbers and any trailing whitespace, yields exactly the event it encodes (byte counts truncated, speed and eta exact): no log line and nothing buffered. |
| Runner.EngineFileLine | src/video_downloader/downloader.py:269-274 | The final-path line yields a "finished" event for the path and the single log line "Saved: " + path. Nothing is buffered. |
| Runner.OthersShape | src/video_downloader/downloader.py:276 | Every buffered line is trimmed, non-empty, and starts with neither marker. |
| Runner.OthersOneLine | src/video_downloader/downloader.py:276 | Lines read from the output carry no line feed once trimmed. |
| Runner.OutcomeCases | src/video_downloader/downloader.py:253-284 | Cancelled exactly when the flag is seen at some checkpoint, whatever the exit code. The engine is terminated exactly when the flag is seen before a line. Otherwise success exactly when the exit code is zero. The message of a cancellation is "Cancelled by user". |
| Runner.CancelIgnoresRest | src/video_downloader/downloader.py:253-256 | Once the flag is seen before line `c`, the later lines and the exit code do not change the result. |
| Runner.TracesArePrefix | src/video_downloader/downloader.py:253-277 | The events and log lines of a run are those of all its lines, cut at the line where the engine was terminated; complete when it was not. |
| Runner.FailureFromOutput | src/video_downloader/downloader.py:282-284 | A failed run with ordinary output reports the last (at most twenty) ordinary lines, one per line of the message. |
| Runner.FailureFromCode | src/video_downloader/downloader.py:282-283 | A failed run without ordinary output has exactly the message "yt-dlp exited with code " + `str(N)` + ".", and that `N` reads back as the exit code. |
| Runner.FailureDetails | src/video_downloader/downloader.py:282-283 | When some ordinary line was printed, the message is the last twenty of them joined by line feeds. When none was, it is "yt-dlp exited with code " followed by `str` of the code and a period. |
| Text.Strip | src/video_downloader/downloader.py:258 | The result neither starts nor ends in whitespace, and it is empty exactly when the line is all whitespace. |
| Text.StripPadded | src/video_downloader/downloader.py:258 | Stripping a trimmed text followed by whitespace gives the text. |
| Text.SplitJoin | src/video_downloader/downloader.py:283 | Joining lines without line feeds by "\n" and splitting the result at "\n" gives the lines back. |
| Text.Join | src/video_downloader/downloader.py:283 | The joined text is empty for no parts, and otherwise starts with the first part and ends with the last. |
| Text.Lines | src/video_downloader/downloader.py:316 | Splitting gives no lines exactly for the empty text, and no line contains a line boundary. |
| Batch.Download | src/video_downloader/downloader.py:287-311 | One download equals its closed form `DownloadSpec`. |
| Batch.DownloadShape | src/video_downloader/downloader.py:287-311 | When provisioning fails, the download runs nothing, emits no events, logs only the provisioning lines and fails with the provisioning error. Otherwise it runs exactly the built command, ends as that run does with its events, and logs the provisioning lines, "Starting: url", the run's own lines and, on success only, "Done.". |
| Batch.DownloadMany | src/video_downloader/downloader.py:344-358 | The batch loop equals its closed form `BatchSpec`. |
| Batch.BatchInOrder | src/video_downloader/downloader.py:344-358 | The URLs started are a prefix of the list. It ends at the first URL that is cancelled at its check or whose download does not succeed. |
| Batch.BatchChecksCancel | src/video_downloader/downloader.py:345-346 | Every URL that was started passed the cancel check before it. |
| Batch.BatchStopsAtFirstFailure | src/video_downloader/downloader.py:344-358 | Every started URL but the last succeeded. The batch succeeds exactly when every URL passes its check and succeeds, and then every URL was started. |
| Batch.BatchFailureCause | src/video_downloader/downloader.py:344-358 | An unsuccessful batch is either cancelled at the check before the next URL, or ends with the last started download's own outcome. |
| Batch.BatchCancelledAt | src/video_downloader/downloader.py:345-346 | A flag seen at the check before URL `j`, once the batch reaches it, cancels the batch with exactly the URLs before `j` started. |
| Batch.Tag | src/video_downloader/downloader.py:355 | Each event is paired with the given URL, one pair per event, in order. |
| Batch.BatchEventsTagged | src/video_downloader/downloader.py:355 | The forwarded events are exactly the events of the started downloads, one download after the other in the order they started, each tagged with its own URL; so every forwarded event carries the URL whose download produced it. |
| Batch.SharedFlagRun | src/video_downloader/downloader.py:345-357 | With one flag shared by the whole batch, a URL that passes its check has a run that sees the flag exactly as the batch does from the next checkpoint on. |
| Batch.OffsetIncreasing | src/video_downloader/downloader.py:344-358 | The checkpoints of later URLs come after those of every run before them. |
| Urls.NormalizeUrls | src/video_downloader/downloader.py:314-331 | The result is the whitespace-separated tokens of the text (absent text counts as empty), each once, in the order of first occurrence. It contains exactly the tokens of the text, has no repeats, and every entry is non-empty without whitespace. |
| Urls.CleanTokens | src/video_downloader/downloader.py:321 | Every kept piece is non-empty and already stripped. |
| Urls.CleanWords | src/video_downloader/downloader.py:321 | Pieces that come from a whitespace split pass the strip-and-drop-empty step unchanged. |
| Urls.Dedup | src/video_downloader/downloader.py:323-331 | Deduplication keeps exactly the elements of its input and leaves no element twice. |
| Urls.DedupOrder | src/video_downloader/downloader.py:323-331 | Deduplication lists elements in the order of their first occurrence. |
| Text.IndexOf | src/video_downloader/downloader.py:323-331 | The first position of an element, or the length when it is absent. |
| Text.WordsOfLines | src/video_downloader/downloader.py:316-321 | Splitting into lines, stripping and splitting each on whitespace gives the same tokens as one whitespace split of the whole text. |
| Text.WordsOfStrip | src/video_downloader/downloader.py:317-321 | Stripping a line does not change its whitespace-separated tokens. |
| Text.Words | src/video_downloader/downloader.py:321 | Every token of a whitespace split is non-empty and contains no whitespace. |
| Eta.Clock | src/video_downloader/ui.py:41-42 | The two `divmod` steps give minutes and seconds below 60, with h·3600 + m·60 + s equal to the input. |
| Eta.ClockText | src/video_downloader/ui.py:41-45 | Below one hour the clock is minutes, a colon and two-digit seconds. From one hour on it is hours, then two-digit minutes and seconds, each after a colon. |
| Eta.FmtEta | src/video_downloader/ui.py:32-45 | The display is "-" exactly when there is no estimate or it truncates to a negative number of seconds. |
| Eta.ReadClockText | src/video_downloader/ui.py:41-45 | Reading the clock text back as `h:mm:ss` or `m:ss` gives the seconds it was written from. |
| Eta.ReadFmtEta | src/video_downloader/ui.py:32-45 | Reading the display back gives the estimate truncated to whole seconds. |
| Eta.FmtEtaInjective | src/video_downloader/ui.py:32-45 | Two estimates with the same display truncate to the same whole seconds. |
| Eta.ClockFields | src/video_downloader/ui.py:43-45 | The clock has an hours field exactly from one hour on. Its first field is a plain number, and every later field is two digits below 60. |
| Numerals.IntToString | src/video_downloader/downloader.py:283 | `str(i)` is non-empty, starts with a minus sign exactly for a negative number, and the digits after it have no leading zero. |
| Numerals.Pad2 | src/video_downloader/ui.py:44-45 | `{n:02d}` gives at least two digits, and exactly two below 100. |

## Left out

- Tool provisioning (`_tools_root`, `_download_file`, `_ensure_ytdlp`, `_find_ffmpeg_bin`, `_ensure_ffmpeg`, `_ensure_tools`) and `os.makedirs` in `download`: network, file system and archive extraction. Each is one abstract `Setup` per download: the log lines it writes, then the tool paths or an error message.
- The child process: starting it, UTF-8 decoding with replacement, and blocking reads. An engine run is given as the lines it prints and its exit code.
- `_terminate_process`: the terminate, 5-second wait and kill sequence. It is recorded only as the `terminated` flag of a run.
- `threading.Event` and concurrency: the flag is given as the first checkpoint at which it is seen set, and a set flag stays set. Interleavings beyond that are not modelled.
- The callbacks: what `on_progress` and `log` would receive is modelled as ordered traces. Whether a callback is `None` (and so drops its trace) is not modelled.
- Exceptions: `DownloadError` and any other exception raised by provisioning are outcome values. An exception raised from inside a callback is not modelled.
- Decode.ToFloat: only decimal literals written with ASCII digits (sign, digits, optional point) are accepted. Python's `float` also accepts exponents, "inf", "nan", digit underscores and the decimal digits of other scripts (such as "١٢"), and these decode to absent in the model. Values are exact decimals, not binary doubles.
- Decode.ToInt: `int(float("inf"))` raises `OverflowError`, which `_to_int` does not catch. Because "inf" is not accepted here, the model has no path that raises it.
- Eta.FmtEta: the estimate is always a finite decimal in the model, so the branch where `int(seconds)` raises never arises. The UI's `_fmt_bytes` and everything else in ui.py are not part of this model.
- Command.JoinPath: `os.path.join` is modelled as Windows path joining, because the engine is the Windows `yt-dlp_x86.exe`. POSIX joining, and names that are absolute or carry a drive, are not modelled. Tool paths are given already rendered as the strings `str(path)` produces.
- Batch.DownloadMany: each URL's download is an abstract step. It takes the flag seen at each URL's check and each download's result as inputs. `SharedFlagBatch`, `CancelChecks` and `Attempts` tie that to one flag shared by the checks and the runs.
- Command.DecodeCommand: the URL is appended without a "--" separator (downloader.py line 239), so the engine would read a URL that starts with "-" as an option. The read-back is therefore stated only for URLs that do not start with "-".
- Command.CommandSettings: stated only for URLs that do not start with "-", for the same reason.
- Runner.RunEngine: progress events and log lines are two separate traces, each in order. The UI receives both through one queue, and their interleaving is not modelled.
- The iterable of URLs is a sequence; lazy or one-shot iterables are not modelled.
