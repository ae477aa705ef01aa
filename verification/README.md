# Call transcription pipeline, modelled in Dafny

The system downloads the audio of recorded phone calls, transcribes it with
Whisper and writes a formatted text transcript for each call into a
`year/month/day` directory tree. Three processors exist:
- the first processor (`audio_processor.py`), which validates the audio and
  tries five transcription strategies in turn;
- a refactored processor (`audio_processor_refactored.py`), which caches the
  model and groups the timed segments into blocks;
- a client (`audio_processor_client.py`), which hands the audio to a separate
  transcription service.

`main.py` runs a batch for a date range and reports on it.
`verify_chronological_order.py` checks the order of the stored call dates.
`check_disk_usage.py` reports how much disk the audio and the transcripts use.

This project models the decision logic underneath that glue as pure Dafny
functions and methods over immutable datatypes, and proves what each
decision promises:
- the validation gate, the ffmpeg preset cascade and the chain of
  transcription strategies (`Validation`, `Conversion`, `Fallback`);
- the transcript layouts: `MM:SS` times, one line per segment, blocks of
  segments, paragraphs by length or sentence, and the basic tidying of a
  block's text (`TimeFormat`, `SegmentLayout`, `SimpleLayout`, `BlockLayout`,
  `ParagraphLayout`, `BasicFormatting`, with `Chunking`, `SentenceSplit` and
  `Layout` underneath);
- the per-call pipelines of the first processor and of the client
  (`ServerPipeline`, `ClientPipeline`, with `Calls` and `Paths`);
- the batch dispatch and the run report with its exit code (`Batch`,
  `RunReport`);
- the model cache (`ModelCache`), the chronological-order check
  (`Chronology`) and the disk-usage report (`DiskUsage`).

Everything outside the process is a parameter of the model:
- Whisper, ffmpeg, pydub, the file system, HTTP, the database, the date
  parsers and the clock are oracles;
- the order in which a thread pool completes its futures is an
  index sequence that holds each call once.

Python exceptions are values. `Outcome<T>` is `Done(value)` or
`Raised(message)`, and the message is what `str(e)` would give.

Several behaviours are modelled as the code is written, and proved as such:
- Under the shipped `Config`, which defines no `AUTO_CLEANUP`, every client
  call that gets its audio ends with that attribute error as its `error`,
  even a successful one (`ClientPipeline.ShippedConfigError`).
- The first processor counts a stored transcript as a success even when it
  cannot be read (`ServerPipeline.UnreadableTranscriptStillSucceeds`).
- The refactored segment grouping never writes the texts it has gathered
  when the last segment is empty
  (`BlockLayout.TrailingEmptySegmentDropsText`).
- The chronological-order check raises on the first row with an integer id,
  because it formats the id with `:8s` (`Chronology.VerifyOrder`).
- `check_disk_usage.py` imports a `StructuredLogger` that the processor does
  not define, so as written the script always ends with 1
  (`DiskUsage.CheckDiskUsage` with `importsOk` false).

## Model

| member | source | states |
|---|---|---|
| TimeFormat.SecondsField | audio_processor.py:177-179 | the seconds field of `MM:SS` is always in 0..59, for every time |
| TimeFormat.FieldsOfTime | audio_processor.py:177-178 | for a time `s >= 0` the minutes are `floor(s) / 60` and the seconds `floor(s) mod 60` |
| TimeFormat.FormatTimeRoundTrip | audio_processor_refactored.py:417-419 | reading the `MM:SS` text back gives exactly the floored minutes and seconds of every time `s >= 0` |
| TimeFormat.FormatTime | audio_processor.py:167-179 | below 100 minutes the text is five characters with `:` in the middle |
| TimeFormat.Pad2Value | audio_processor.py:179 | `{n:02d}` is all digits and reads back as `n` |
| Engine.Segments | audio_processor.py:140-143 | a segment list with every key present gives one segment per entry, each the entry's own start, end and text |
| Layout.Page | audio_processor.py:191-237 | a page is the four-line header, then each paragraph line followed by a blank line, then the footer |
| Layout.StanzaAt | audio_processor.py:219-220 | paragraph `k` sits at line `2k` and a blank line at `2k + 1` |
| Chunking.ParagraphsSpec | audio_processor.py:205-231 | the paragraphs hold exactly the non-blank pieces in order, each once; every paragraph but the last met the break rule, and none met it before its last piece |
| Chunking.FoldContent | audio_processor_refactored.py:444-486 | the closed paragraphs and the open one hold exactly the pieces seen so far that are not blank |
| Chunking.FoldInv | audio_processor_refactored.py:448-477 | every closed paragraph met the break rule, and only at its last piece |
| SentenceSplit.SplitClausesSpec | audio_processor.py:203 | `re.split(r'[.,]\s+')`: the pieces and the dropped separators give the text back, every separator is a period or comma followed by whitespace, no piece holds one, and no piece after a separator opens with whitespace (the separator took the whole run) |
| SentenceSplit.SplitClausesGreedy | audio_processor.py:203 | `\s+` is greedy: the piece after each separator does not open with whitespace |
| SentenceSplit.SplitClausesRoundTrip | audio_processor.py:203 | the pieces with the dropped separators between them are the text |
| SentenceSplit.SplitSentencesSpec | audio_processor_refactored.py:442 | `re.split(r'(?<=[.!?])\s+')`: the sentences and separators give the text back, every separator is a whitespace run, every sentence before a separator is non-empty and ends with `.`, `!` or `?` (the look-behind), no sentence after a separator opens with whitespace (the run is taken whole), and no sentence has whitespace right after a stop mark |
| SentenceSplit.SplitSentencesStops | audio_processor_refactored.py:442 | the look-behind: the text before each separator ends with a stop mark (or, for the first, the character before the text was one) |
| SentenceSplit.SplitSentencesGreedy | audio_processor_refactored.py:442 | `\s+` is greedy: the sentence after each separator does not open with whitespace |
| SentenceSplit.SplitSentencesRoundTrip | audio_processor_refactored.py:442 | the sentences with the dropped whitespace between them are the text |
| SentenceSplit.ClauseMatchSpec | audio_processor.py:203 | the match at the start of the text is the longest `[.,]\s+` separator there: a separator whose whitespace run cannot be extended, and no match exactly when no separator starts there |
| SimpleLayout.ParagraphText | audio_processor.py:215-217 | a paragraph is its stripped pieces joined by `. `, with a period added only when missing, so it always ends with `.` |
| SimpleLayout.SimpleParagraphsSpec | audio_processor.py:205-231 | the paragraphs hold exactly the non-blank clauses in order; every paragraph but the last passed 200 characters, and none did before its last clause |
| SimpleLayout.SimpleLinesShape | audio_processor.py:191-237 | the simple page is the header, one period-terminated paragraph line and one blank line per paragraph, and a footer giving the text's length |
| SimpleLayout.SimpleLinesBlank | audio_processor.py:226-235 | a text with no non-blank clause gives just the header and the footer |
| ParagraphLayout.SentenceParagraphsSpec | audio_processor_refactored.py:444-486 | the paragraphs hold exactly the non-blank sentences in order; every paragraph but the last met the 300-character, 50-word or third-sentence-`!?` rule, and none met it earlier |
| ParagraphLayout.ParagraphLinesShape | audio_processor_refactored.py:431-496 | the page is the header, every paragraph indented by four spaces (the first one too) and followed by a blank line, then the summary |
| ParagraphLayout.EmitAllIndents | audio_processor_refactored.py:469-473 | once the last line written is blank it stays so, so every paragraph written after it is indented |
| ParagraphLayout.Emit | audio_processor_refactored.py:466-473 | writing a paragraph keeps the earlier lines and ends with a blank line |
| SegmentLayout.FormatTranscriptSpec | audio_processor.py:118-165 | a segment lacking a key gives the stripped full text; no segments give the simple layout of the stripped full text; otherwise the timed page: the header, segment `i` at line `4 + i + i / 3`, a blank after every third segment, and the footer counting the full text's characters |
| SegmentLayout.TimedLinesSegments | audio_processor.py:140-146 | segment `i` is on line `4 + i + i / 3` as `[start - end] text`, in input order |
| SegmentLayout.TimedLinesBlanks | audio_processor.py:148-150 | a blank line follows every third segment |
| SegmentLayout.TimedLinesFrame | audio_processor.py:134-155 | the page opens with the header, and its footer gives the length of the full text |
| SegmentLayout.EveryThirdAt | audio_processor.py:140-150 | line `i` of the segment lines moves to `i + i / 3` once the blank lines are in |
| SegmentLayout.EveryThirdBlank | audio_processor.py:149-150 | line `4k - 1` is blank for every full group `k` of three segments |
| BasicFormatting.ApplyBasicFormattingBlank | audio_processor_refactored.py:334-338 | a whitespace-only text formats to the empty string |
| BasicFormatting.ApplyBasicFormattingSpec | audio_processor_refactored.py:334-345 | a text that is not blank is squeezed and stripped to a non-empty text, and the result is empty only when the heuristic rewrite empties it |
| BasicFormatting.ApplyBasicFormattingEnds | audio_processor_refactored.py:387-405 | for every rewrite, a non-empty result has no surrounding whitespace and ends with `.`, `!` or `?` |
| BasicFormatting.FinishSpec | audio_processor_refactored.py:387-405 | the closing passes empty only the empty text, and otherwise leave it finished |
| BasicFormatting.EnsureStopSpec | audio_processor_refactored.py:387-389 | a non-empty text ends in a stop mark afterwards; one that already did is left untouched |
| BasicFormatting.Upper | audio_processor_refactored.py:341 | an ASCII lower-case letter becomes its capital, any other ASCII character stays, and the result has one or two characters |
| BasicFormatting.UpperIdempotent | audio_processor_refactored.py:341 | every character `Upper` gives is already upper case |
| BasicFormatting.CapitalizeSpec | audio_processor_refactored.py:341 | only the first character changes; it becomes one or two characters that are already upper case, an ASCII lower-case letter becomes its capital, and any other ASCII first character leaves the text unchanged |
| BasicFormatting.SqueezeSingleSpaced | audio_processor_refactored.py:334 | after `re.sub(r'\s+', ' ')` no two whitespace characters are adjacent, and only the empty text squeezes to empty |
| BasicFormatting.SqueezeSolids | audio_processor_refactored.py:392 | squeezing keeps every non-whitespace character, in order |
| BasicFormatting.DropSpaceBeforeClean | audio_processor_refactored.py:393 | after the pass no whitespace precedes one of the marks |
| BasicFormatting.DropSpaceBeforeSolids | audio_processor_refactored.py:399-400 | removing whitespace before the marks keeps every other character |
| BasicFormatting.DedupClean | audio_processor_refactored.py:396 | after the pass no punctuation mark is repeated |
| BasicFormatting.SpaceAfterPunctSpec | audio_processor_refactored.py:403 | afterwards no punctuation mark is directly followed by a letter; only spaces are added, since the non-space characters stay the same; and a text where no mark touches a letter is returned unchanged |
| BasicFormatting.TidyLastSolid | audio_processor_refactored.py:392-403 | the tidying passes keep the last non-whitespace character |
| BlockLayout.BlocksSpec | audio_processor_refactored.py:258-300 | every block starts and ends at a segment with text, closes exactly where the 30 s / 2 s gap / last-index rule first holds, and holds exactly the non-empty stripped texts of its own segments; the blocks are in order, and no segment with text lies before the first block, between two blocks, or (when nothing is left open) after the last; the blocks' texts and the still-open buffer are the non-empty stripped texts, in order |
| BlockLayout.KeptUpToSplit | audio_processor_refactored.py:258-300 | the texts kept before segment `hi` are those kept before `lo` followed by those of segments `lo` to `hi - 1`, so a block's texts are a slice of all kept texts |
| BlockLayout.TiledCovers | audio_processor_refactored.py:258-300 | a segment with text before the end of the written blocks lies inside one of them |
| BlockLayout.NoTextLost | audio_processor_refactored.py:258-300 | when the last segment has text, no block is left open, every segment with text lies inside a block, and the blocks' texts are all non-empty stripped texts, in order |
| BlockLayout.TrailingEmptySegmentDropsText | audio_processor_refactored.py:263-264 | a text followed by an empty last segment gives no block, so the text is not written |
| BlockLayout.BlocksInRange | audio_processor_refactored.py:258-300 | every block refers to segments of the list, first no later than last |
| BlockLayout.FormatTranscriptSpec | audio_processor_refactored.py:229-319 | a segment lacking a key gives the stripped full text; no segments give the paragraph layout of the formatted full text; otherwise the timed page: the header, for each block its stamp, its formatted text and a blank line, and the seven-line summary |
| BlockLayout.TimedLinesBlock | audio_processor_refactored.py:284-295 | block `k` is lines `4 + 3k` to `6 + 3k`: its stamp from its first segment's start to its last segment's end, its formatted text, and a blank line |
| BlockLayout.TimedLinesHeader | audio_processor_refactored.py:245-309 | the page has the four-line header, three lines per block and a seven-line summary |
| BlockLayout.TimedLinesSummary | audio_processor_refactored.py:303-309 | the page closes with the summary: characters, words, the last end time and the number of segments |
| BlockLayout.StampOf | audio_processor_refactored.py:290-293 | a block's stamp is `[MM:SS - MM:SS]` of its first start and its last end |
| BlockLayout.StripTextsAt | audio_processor_refactored.py:259-261 | stripping keeps each segment's times and strips its text |
| Strings.Strip | audio_processor.py:143 | the stripped text is a slice of the text with only whitespace cut off before and after it, has no whitespace at either end, and is empty exactly when the text is blank |
| Strings.GroupedValue | audio_processor_refactored.py:305-306 | `{n:,}` with its commas taken out reads back as `n` |
| Strings.ParseNatToString | audio_processor.py:154 | `str(n)` reads back as `n` |
| Strings.WordsSplit | audio_processor_refactored.py:306 | a whitespace character splits `split()` into the words before it and the words after it |
| Strings.WordsOfWord | audio_processor_refactored.py:306 | a non-empty text without whitespace is a single word; with `WordsSplit` and the empty case this fixes `split()` on every text |
| Strings.WordsShape | audio_processor_refactored.py:306 | every word of `split()` is non-empty and holds no whitespace |
| Strings.Words | audio_processor_refactored.py:306 | `split()` gives no word exactly when the text is blank |
| Paths.BasenameSpec | audio_processor.py:597 | the base name is a suffix of the path with no `/`, preceded by `/` unless it is the whole path |
| Paths.SplitExt | audio_processor.py:598-599 | the stem and the extension give the path back; the extension is empty or one dot with no other dot or `/` |
| Paths.SplitExtCuts | audio_processor.py:598-599 | the extension is non-empty exactly when the base name has a dot after some character that is not a dot |
| Paths.JoinEnds | audio_processor.py:605-609 | `os.path.join` ends with its last part |
| Calls.Initial | audio_processor.py:565-572 | a result starts unsuccessful, with no error and no transcript path |
| Calls.ReplaceZ | audio_processor.py:585 | `replace('Z', '+00:00')` leaves no `Z`, changes nothing without one, and grows the text by five characters per `Z`: a leading `Z` becomes `+00:00` and any other leading character stays |
| Calls.ReplaceZAppend | audio_processor.py:585 | the replacement works character by character: it distributes over concatenation and turns `Z` into `+00:00` |
| Calls.FileNamesSpec | audio_processor.py:596-602 | the audio file is `<user_type>_<basename>` with `.wav` added when there is no extension, and the transcript is the same stem with `.txt` |
| Calls.UserPrefix | audio_processor.py:596 | the prefix is the stored user type; a NULL column is formatted as `None`, and `unknown` stands only for a missing key |
| Validation.Validate | audio_processor.py:291-338 | a file is accepted exactly when it exists, its size is readable and not zero, and it does not decode to under 0.1 s; the warnings are logged only for such files |
| Validation.Warnings | audio_processor.py:306-334 | a warning for each of: under 1024 bytes, an unknown extension, under 0.1 s, over 3600 s, and a decoder failure, and only then |
| Validation.DecodeFailureAccepts | audio_processor.py:331-334 | a decoder failure does not reject an existing non-empty file |
| Validation.WarningsDoNotReject | audio_processor.py:306-329 | size, extension and long duration never change the verdict |
| Conversion.FallbackConversion | audio_processor.py:239-265 | the basic preset converts exactly when ffmpeg exits with 0 |
| Conversion.ConvertAudioFormat | audio_processor.py:72-116 | after a failed aggressive run the result is the basic preset's |
| Conversion.CascadeSpec | audio_processor.py:101-116 | the cascade converts exactly when one of the two presets exits with 0, and a clean aggressive run never consults the basic one |
| Conversion.ConvertRefactored | audio_processor_refactored.py:102-146 | the refactored conversion succeeds exactly when its single run exits with 0 |
| Conversion.RefactoredIsStricter | audio_processor_refactored.py:102-146 | the refactored conversion succeeds only where the cascade does, and fails where the cascade recovers |
| Fallback.AggressiveAttempt | audio_processor.py:371-405 | the first strategy returns text only after a conversion and a ready WAV, raises exactly when the engine raises on it, and returns the formatted engine text when the conversion, the WAV and the engine all work |
| Fallback.BasicAttempt | audio_processor.py:407-435 | the second strategy returns text only after a clean ffmpeg run, raises on a timeout, a launch failure or an engine exception, and returns the formatted engine text when the run, the WAV and the engine all work |
| Fallback.PydubAttempt | audio_processor.py:454-483 | the third strategy never raises, gives text exactly when decoding, the WAV and the engine all work, and that text is the formatted engine result |
| Fallback.UltraBasicAttempt | audio_processor.py:485-528 | the fourth strategy never raises, gives text exactly when its ffmpeg run, the WAV and the engine all work, and that text is the formatted engine result |
| Fallback.DirectAttempt | audio_processor.py:437-452 | the last strategy never raises, gives text exactly when the engine works, and that text is the formatted engine result |
| Fallback.TranscribeWithFallbacks | audio_processor.py:340-369 | an invalid file invokes nothing; otherwise the strategies are tried in their fixed order, the first truthy result is returned, and all five are tried when none is truthy |
| Fallback.TranscribeAudio | audio_processor.py:267-289 | a missing or rejected file gives nothing before any strategy; otherwise the strategies tried are a non-empty prefix of the fixed order, and a transcript comes exactly when some strategy gives one: the text of the first winning strategy, which is the last one tried |
| Fallback.RefactoredTranscribe | audio_processor_refactored.py:148-227 | a transcript comes exactly when the conversion is clean, the WAV is ready, the engine gives a result, and its block layout is non-empty; it is then that block layout |
| ServerPipeline.AudioUrl | audio_processor.py:576-580 | an http(s) path is the URL itself; any other path gets `AUDIO_BASE_URL + '/'` in front |
| ServerPipeline.SkipExisting | audio_processor.py:611-618 | a stored transcript gives success with its path and content, and nothing is downloaded, transcribed or saved |
| ServerPipeline.UnreadableTranscriptStillSucceeds | audio_processor.py:614-617 | a stored transcript that cannot be read still counts as a success, with the read's message as the error |
| ServerPipeline.DownloadTarget | audio_processor.py:620-623 | a download is the call's first action, happens only when no transcript is stored, and fetches the call's URL into its audio file |
| ServerPipeline.SuccessSpec | audio_processor.py:574-647 | a call succeeds exactly when its day is known and either its transcript is stored or the download, the transcription and the save all work |
| ServerPipeline.StagesSuccess | audio_processor.py:611-641 | after the day is known, success means a stored transcript or every stage working |
| ServerPipeline.StageErrors | audio_processor.py:620-641 | each failing stage leaves its own message and no success; only a save sets the transcript path |
| ServerPipeline.DateErrors | audio_processor.py:583-589 | a day that cannot be read fails the call with the exception's message before anything is touched |
| ServerPipeline.Steps | audio_processor.py:611-641 | the stored transcript is only read, the download is the first action, and a save happens only after a download and a transcription |
| ClientPipeline.ClientDate | audio_processor_client.py:228-232 | a missing day is today, and only a string that does not parse raises |
| ClientPipeline.ClientUrl | audio_processor_client.py:251 | the URL is the base, a slash and the stored path, whatever that path is |
| ClientPipeline.Cleanup | audio_processor_client.py:269 | cleanup is on exactly when both settings are on; a missing `AUTO_CLEANUP` raises |
| ClientPipeline.ClientDownloadSpec | audio_processor_client.py:249-254 | the audio is downloaded exactly when its day is known and it is not on disk, and the download is the call's first action |
| ClientPipeline.DownloadFailureReturnsEarly | audio_processor_client.py:252-254 | a failed download ends the call with its error and no transcription, save or cleanup |
| ClientPipeline.ClientSuccessSpec | audio_processor_client.py:256-266 | a call succeeds exactly when its audio is ready, the service returns a non-empty transcript and the save works, and then the transcript path is set |
| ClientPipeline.ClientErrors | audio_processor_client.py:256-281 | the error is the cleanup setting's exception when one is missing, and otherwise the failing stage's message |
| ClientPipeline.CleanupSpec | audio_processor_client.py:268-274 | the audio is removed exactly when it was ready and both cleanup settings are on, whether the transcription worked or not |
| ClientPipeline.ShippedConfigError | audio_processor_client.py:269 | with the shipped settings every call that gets its audio ends with the missing `AUTO_CLEANUP` message, and nothing is removed |
| ClientPipeline.ClientPathsSpec | audio_processor_client.py:225-247 | the audio keeps the stored base name and the transcript ends with `.txt` |
| ClientPipeline.FetchActions | audio_processor_client.py:249-276 | the download comes first and only when the audio is absent; save and removal happen only once the audio is ready |
| ClientPipeline.Work | audio_processor_client.py:256-276 | the audio is transcribed first, saved exactly when heard, removed exactly when cleanup is on, and never downloaded |
| Batch.Settle | audio_processor_client.py:363-370 | a call that raises gets a placeholder with its id, no success, no transcript path and the exception's message |
| Batch.Sequential | audio_processor_client.py:308-329 | the results are the calls' results, in input order, one per call; an exception ends the batch at the first call that raises |
| Batch.Parallel | audio_processor_client.py:331-375 | one settled result per call, in completion order, and the same multiset as the calls' settled results |
| Batch.Permuted | audio_processor_client.py:357-370 | taking the calls in completion order rearranges them |
| Batch.UseParallel | audio_processor_client.py:297-301 | the pool is used exactly when parallel runs are enabled, there is more than one call and more than one worker is allowed |
| Batch.Workers | audio_processor_client.py:335 | the pool has `min(MAX_CPU_WORKERS, len(calls))` workers |
| Batch.ParallelWorkers | audio_processor_client.py:297-335 | on the parallel path there are at least two workers and no more than there are calls |
| Batch.ClientBatch | audio_processor_client.py:283-306 | one result per call: in input order on the sequential path, as a permutation on the parallel one |
| Batch.ServerBatch | audio_processor.py:649-688 | one result per call in completion order, a permutation of the settled results; a pool of no workers raises |
| RunReport.ReportAddsUp | main.py:84-113 | the report's successes and failures add up to the total, and its failures are the total less the successes |
| RunReport.FailureListingSpec | main.py:97-101 | the failure listing is empty exactly when every call succeeded, and lists the failed calls in input order |
| RunReport.FailureListing | main.py:97-101 | one listing line per failed call |
| RunReport.SuccessRate | main.py:95 | a rate exactly when there was a call; it lies between 0 and 100, times the number of calls it is 100 times the successes, it is 100 exactly when all succeeded and 0 exactly when none did |
| RunReport.ExitCodeSpec | main.py:204-211 | exit 0 when every call succeeded, 1 when some did and some did not, 2 when there were calls and none succeeded |
| RunReport.Preview | main.py:173-180 | a dry run shows the first five calls, or all of them when there are fewer |
| RunReport.Session | main.py:143-215 | once the database is asked, an exception ends with 1, an interrupt with 130, and only a dry run shows calls |
| RunReport.Main | main.py:120-218 | the exit code is 0, 1, 2 or 130, only a dry run shows calls, and a run that fails its set-up has no results |
| RunReport.MainSpec | main.py:120-218 | exit 0 exactly when the logs directory is made, the command line is accepted, the dates parse in order, a Whisper model loads, the database answers, and the range is empty, a dry run, or a batch that fully succeeded and was written; exit 2 exactly for a rejected command line or a written batch with calls and no success; exit 130 only after an interrupt; a failed model load ends with 1 |
| ModelCache.GetModel | audio_processor_refactored.py:38-63 | loads exactly when nothing or another model is cached; afterwards the requested model is cached, and a failed load leaves the cache as it was |
| ModelCache.ClearCache | audio_processor_refactored.py:65-69 | clearing empties both the model and its name |
| ModelCache.RepeatHits | audio_processor_refactored.py:46-63 | asking again for the same model does not reload, and returns the same model |
| ModelCache.SwitchReloads | audio_processor_refactored.py:49-51 | asking for another model loads it |
| ModelCache.ClearForcesReload | audio_processor_refactored.py:65-69 | after clearing, the next request loads |
| ModelCache.LoadCached | audio_processor_refactored.py:80-100 | the refactored loader raises only when the configured model fails to load, and then the cache is unchanged |
| ModelCache.LoadWithFallback | audio_processor.py:26-40 | the configured model, else `tiny`, which is tried only when the configured one fails |
| Chronology.Step | verify_chronological_order.py:46-60 | an `N/A` stamp changes nothing, and once the order is wrong it stays wrong |
| Chronology.Window | verify_chronological_order.py:41 | only the first ten calls are looked at |
| Chronology.VerifyOrder | verify_chronological_order.py:23-77 | raises exactly when a looked-at call has an integer id; otherwise answers whether the range has calls and the walk found them in order |
| Chronology.WalkMonotone | verify_chronological_order.py:35-62 | a walk that ends in order was in order at every earlier point |
| Chronology.BrokenStampFails | verify_chronological_order.py:58-60 | a stamp that is not text, or text that does not parse, marks the order wrong |
| Chronology.WalkReadable | verify_chronological_order.py:47-54 | on readable stamps the walk says exactly whether each parsed timestamp is no earlier than the one before, equal ones allowed |
| Chronology.ReadableVerdict | verify_chronological_order.py:41-62 | on readable stamps the verdict is exactly whether the first ten timestamps are in order |
| Chronology.VerifyChronologicalOrder | verify_chronological_order.py:11-80 | no connection or no calls gives `False`; `True` needs calls and no integer id among the first ten |
| Chronology.ExitCode | verify_chronological_order.py:82-107 | exit 0 exactly when there are two valid dates and the order was confirmed, and 1 otherwise |
| DiskUsage.FormatSize | check_disk_usage.py:17-28 | `0 B` exactly for zero; otherwise the unit index is in 0..4, the magnitude is at least 1, and below 1024 unless the unit is TB |
| DiskUsage.TierMonotone | check_disk_usage.py:79-90 | high exactly above 1000 MB, low exactly up to 500 MB, and a larger total never gets a lower tier |
| DiskUsage.CheckDiskUsage | check_disk_usage.py:30-130 | the script ends with 0 or 1, and with 0 only when the imports and the usage query worked |
| DiskUsage.ReportSpec | check_disk_usage.py:37-122 | the tier is printed exactly when imports, usage and settings work, and is the tier of the total; the script ends with 0 exactly when, besides, there was no usage or any detailed listing worked, so a failing listing ends with 1 after the tier |

## Left out

- I/O is outside the model: HTTP downloads, the transcription service, the database, the file system, temporary files and `ffmpeg`/`pydub` runs. They are oracle parameters, and only their outcome is modelled.
- Threads and scheduling are outside the model. A pool's completion order is a parameter, and the parallel results are stated only as a permutation.
- Logging, printing and progress bars are not modelled.
- `download_audio`, `save_transcript` and the client's HTTP transcription calls are oracles. Their bodies are I/O.
- `find_transcripts.py`, `whisper_service.py`, `database.py`, `check_model.py` and `check_whisper_version.py` are not part of this model.
- `config.py` is read only for the attributes it lacks: the cleanup and parallel settings are `Option`s, and `None` raises the `AttributeError`.
- `get_model_info` of the model cache is left out, because it only reports the state.
- BasicFormatting.ApplyBasicFormatting: the heuristic rewrites of audio_processor_refactored.py:348-385 are one oracle `rewrite`. That covers the question-mark and sentence-break regexes, the connector casing, and also the deterministic per-sentence capitalisation of lines 367-385. `Upper` upper-cases Latin-1 only, while Python's `str.upper` maps letters such as `ą` and `ω` too. The proved end-of-text facts hold for every `rewrite`.
- TimeFormat.FormatTime: times are reals, not floats. In Python `-1e-20 % 60 == 60.0`, which renders as `-1:60`, and a NaN or infinite time makes `int()` raise, so the formatter falls back to the raw text. The model instead proves a 0..59 seconds field for every real.
- Engine.Segments: an engine result always carries its text. A result without a `"text"` key would make the formatter return `""` (audio_processor.py:165).
- The client's `'unknown'` call id for a missing key is modelled as a missing id.
- `str(year)` and `%Y` are the same for every year of four digits; shorter years are not distinguished.
- Paths.Lower lower-cases ASCII only; extensions are compared after lowering.
- Float rendering (`:.2f`, `:.1f`) is not modelled. `DiskUsage.FormatSize` gives the real magnitude, and `RunReport.SuccessRate` the unrounded rate.
- Date fields of types other than `str`, `datetime` and `None` are not distinguished.
- DiskUsage.CheckDiskUsage: the detailed directory listing and the other settings' reports reduce to a flag each. Whether the imports work is a parameter, so the report can be stated for a fixed script.
- `main.py` treats the batch itself as an oracle. Its first three calls are only logged.
- RunReport.Main: an interrupt while the Whisper model loads would end with 130; the model's load can only succeed or raise, so set-up ends with 1 or goes on. `DatabaseManager()` only stores its configuration and is taken not to raise.
- Calls.AudioPathOf: a NULL `audio_path` column is read like a missing key, as `""`. In the source `None.startswith` raises, and `process_single_call` reports that `AttributeError` instead of building a URL.
