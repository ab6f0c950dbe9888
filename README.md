# doc-to-audio, modelled in Dafny

doc-to-audio turns a PDF document into speech. It extracts the text and can optionally have a language model reformat it. It then splits the text into chunks at sentence boundaries ("`. `") and sends each chunk to a text-to-speech service. When there are several chunks, the audio parts are joined into one MP3 file. This project models the core of that pipeline and proves properties of the model:

- `strings.dfy` (module `Strings`): the Python string and path primitives the pipeline relies on. These are `str.split`, `sep.join`, `str(n)`, `str.strip()`, and the POSIX `os.path.splitext`, `basename` and `join`.
- `text_processor.dfy` (module `TextProcessor`): the sentence-aware chunker `split_text` and the cost estimator `calculate_costs`.
  - `Chunked` is the specification function.
  - `SplitText` is the loop, proved equal to it.
  - The lemmas give the chunker's guarantees: a round trip, a size bound, and which chunks can be empty.
- `helpers.dfy` (module `Helpers`): the `retry_on_error` decorator.
  - The wrapped function is a parameter `func(args, k)`, giving the outcome of call number `k`.
  - Calls and pauses are recorded as a trace of events.
- `audio_processor.dfy` (module `AudioProcessor`): `create_audio_chunk`, `combine_audio_files` and `process_text_to_speech`.
  - They work on a `FileSystem` object whose `files` map holds, by path, the audio stored there.
  - Each method is proved to leave `files` as a specification function of the old map says (`AfterCombine`, `AfterSpeech`). It is also proved to report the error that function predicts.
  - The speech service is a parameter `tts(text, voice)` that gives either audio or `None`, the latter standing for a raised error.
- `processor.dfy` (module `Processor`): the `DocumentProcessor` steps.
  - `format_text_chunks`, with the formatter as a parameter.
  - `get_timestamped_filename`, with the clock reading as a parameter.
  - `process_document`, with the extracted text as a parameter.
  - `convert_to_audio`.
- `optional.dfy` (module `Optional`): the `Option` type.

The code does not always do what its docstrings and names suggest (for instance "preserving sentence boundaries", text_processor.py:5). The model follows the code:

- **A short text is returned unchanged.** A text no longer than the limit comes back from `split_text` as `[text]`, with no "`. `" added (text_processor.py:6-7).
- **The first chunk can be empty.** On the long path, the first chunk is `""` when the first sentence alone does not fit. The empty chunk is flushed before that sentence is placed (text_processor.py:11,14-17). `ChunkedOnlyFirstEmpty` states exactly when this happens.
- **A long text with no separator gives two chunks.** The result is `["", text + ". "]`, not one chunk (`ChunkedOneSentence`).
- **Part files are written and read in different places.**
  - `process_text_to_speech` writes them under `outputs/<basename of the stem>`.
  - `combine_audio_files` reads them next to the output file (audio_processor.py:21,26,43-44,50).
  - These agree only when the output path is literally `outputs/<name>`, with `<name>` free of slashes. That holds for every path `process_document` produces (`TempBaseInOutputs`, `PreparedDocumentCombined`).
  - It fails for a bare output name such as the default `output.mp3`. Combining then stops at the missing `output_part1.mp3`, the error is caught and reported, and the parts are left behind in `outputs/` (`BareOutputNotCombined`, with stem `output`). This assumes no file `output_part1.mp3` lies in the working directory. If a stale one does, combining starts from it and then looks for `output_part2.mp3` and later parts in the working directory too. It finishes only if every stale part is there; the model states no lemma for this case.
- **Part 1 is never cleaned up.** Combining loads part 1 (audio_processor.py:23) but removes only parts 2..N (audio_processor.py:29), although it then reports that the temporary chunk files were cleaned up (audio_processor.py:31). After a successful run part 1 is still there, holding the first chunk's speech (`CombineSucceeds`, `SpeechEndToEnd`).
- **A failed speech call leaves partial output.** `create_audio_chunk` opens its file for writing before calling the service (audio_processor.py:10-16).
  - With a single chunk, a failed call leaves the output file present and empty (`SingleChunkSpeechFails`).
  - With several chunks, a failure at chunk f leaves parts 1..f written, part f+1 empty, no later part and no combined output (`SpeechFailsAt`).

## Model

| member | source | states |
|---|---|---|
| Strings.Split | text_processor.py:10 | `text.split('. ')` always yields at least one piece, and the first piece is a prefix of the text |
| Strings.JoinSplit | text_processor.py:10 | joining the pieces of a split with the separator gives back the original text |
| Strings.SplitPiecesFree | text_processor.py:10 | no piece of a split contains the separator |
| Strings.NatToStringInjective | audio_processor.py:26 | different part numbers render as different decimal strings |
| Strings.Basename | processor.py:73 | the basename is a suffix of the path and contains no slash |
| Strings.SplitExt | audio_processor.py:21 | stem + extension is the path; the extension is empty or a dot followed by neither a slash nor another dot |
| Strings.JoinPath | processor.py:76 | joining a directory and a relative name puts exactly one slash between them |
| Strings.NatToString | audio_processor.py:26 | `str(i)` is a non-empty string of decimal digits |
| Strings.Strip | processor.py:82 | `str.strip()` is a slice of the text that neither starts nor ends with whitespace |
| Strings.StripEmptyIffBlank | processor.py:82 | a text strips to nothing exactly when every character is whitespace |
| TextProcessor.Pack | text_processor.py:13-21 | the packing loop emits at most one chunk per sentence plus one |
| TextProcessor.Chunked | text_processor.py:6-21 | `split_text` returns at most one chunk more than the text has sentences |
| TextProcessor.SplitText | text_processor.py:4-23 | the greedy packing loop computes `Chunked`; a text within the limit comes back as the single chunk `[text]` |
| TextProcessor.ChunkedNotEmpty | text_processor.py:13-21 | `split_text` never returns an empty list |
| TextProcessor.ChunkedOnlyFirstEmpty | text_processor.py:11-21 | only the first chunk can be empty, and it is empty exactly when the text is empty (short path) or the first sentence plus separator exceeds the limit (long path) |
| TextProcessor.ChunkedRoundTrip | text_processor.py:10-21 | on the long path, the chunks concatenated give the text followed by one "`. `" |
| TextProcessor.ChunkedBound | text_processor.py:14-18 | every chunk is empty, within the limit, or one sentence of the text plus "`. `" that alone exceeds it |
| TextProcessor.ChunkedTerminated | text_processor.py:15-21 | on the long path every non-empty chunk ends with "`. `" |
| TextProcessor.ChunkedOneSentence | text_processor.py:10-21 | a long text without any "`. `" becomes `["", text + ". "]` |
| TextProcessor.PackConcat | text_processor.py:13-21 | the packed chunks concatenate to the pending chunk followed by every sentence with its "`. `" |
| TextProcessor.PackFits | text_processor.py:14-18 | packing keeps every emitted chunk within the bound or a single oversized sentence |
| TextProcessor.PackNonEmpty | text_processor.py:15-21 | once the pending chunk is non-empty, packing emits only non-empty chunks, at least one |
| TextProcessor.PackTerminated | text_processor.py:15-21 | packing emits only chunks that are empty or end with "`. `" |
| TextProcessor.PunctuatedJoin | text_processor.py:15-18 | appending "`. `" to every sentence equals joining them with "`. `" plus a final "`. `" |
| TextProcessor.CeilDiv | text_processor.py:32 | `math.ceil(n / d)` is the least multiple count covering `n` |
| TextProcessor.ChunksWithinTokens | text_processor.py:32-41 | the chunk count never exceeds the token count |
| TextProcessor.CalculateCosts | text_processor.py:25-46 | characters, tokens (ceiling of a quarter) and chunks (ceiling of 1/4000) with their defining bounds; chunks never exceed tokens; both costs are zero exactly for the empty text; the total is their sum |
| TextProcessor.CostsMonotone | text_processor.py:25-46 | a longer text never has fewer tokens or chunks or a smaller total cost |
| Helpers.RetryOnError | helpers.py:5-35 | no attempts returns `None` without calling; the first successful call k returns its value after k failed calls, each followed by a pause; if every attempt fails the last error is raised with no pause after it; never more calls than `max_attempts`; every call receives the original arguments |
| Helpers.AttemptTrace | helpers.py:15-33 | a run ending at call k makes k + 1 calls and k pauses totalling k × delay, and ends on a call |
| Helpers.RetriedCounts | helpers.py:22-27 | n failed attempts record n calls and n pauses totalling n × delay |
| AudioProcessor.FileSystem.Load | audio_processor.py:23 | loading gives the stored audio, or nothing for a missing file |
| AudioProcessor.FileSystem.Remove | audio_processor.py:29 | removal deletes exactly that file |
| AudioProcessor.FileSystem.Write | audio_processor.py:10-16 | writing creates or replaces exactly that file |
| AudioProcessor.PartPathInjective | audio_processor.py:26 | different part numbers name different part files |
| AudioProcessor.InPartsOf | audio_processor.py:25-29 | a part file belongs to a range of parts exactly when its number is in the range |
| AudioProcessor.FirstMissingAt | audio_processor.py:23-29 | the first missing part is k whenever all parts before k exist and part k does not |
| AudioProcessor.PartsOfShrink | audio_processor.py:25-29 | a range of part numbers that starts later covers fewer part files |
| AudioProcessor.PartsOfNext | audio_processor.py:25-29 | one more loop round adds exactly that part to the removed files |
| AudioProcessor.FirstMissing | audio_processor.py:23-29 | the first part that cannot be loaded: all earlier parts exist and it does not |
| AudioProcessor.PartPathShape | audio_processor.py:26 | a part name starts with the base, ends with the extension, and adds no slash |
| AudioProcessor.PartsOfGrow | audio_processor.py:25-29 | a longer range of part numbers covers more part files |
| AudioProcessor.CombineErrorMeaning | audio_processor.py:21-29 | combining fails exactly when some part 1..N is missing, and then reports a file that is absent |
| AudioProcessor.AfterCombineFrame | audio_processor.py:21-32 | combining changes no file but the target, and removes only parts 2..N |
| AudioProcessor.CombineAudioFiles | audio_processor.py:18-33 | the files afterwards and the error raised are as `AfterCombine` and `CombineError` describe |
| AudioProcessor.JoinedSplit | audio_processor.py:25-28 | the joined audio of a run of parts is the joined audio of any two consecutive sub-runs |
| AudioProcessor.JoinedOrder | audio_processor.py:25-28 | in the joined audio, part i sits unaltered right after the parts numbered before it |
| AudioProcessor.CombineSucceeds | audio_processor.py:18-33 | with all parts present: no error; the target holds parts 1..N in order; part 1 is kept; parts 2..N are removed; nothing else changes |
| AudioProcessor.CombineFailsAt | audio_processor.py:23-29 | with part k the first missing: that file is reported; parts 2..k-1 are removed; later parts and all other files are untouched; nothing is exported; with part 1 missing nothing changes |
| AudioProcessor.CombineOnePart | audio_processor.py:23-32 | with at most one chunk nothing is removed and the target becomes a copy of part 1 |
| AudioProcessor.CreateAudioChunk | audio_processor.py:8-16 | the file holds the synthesized audio; if the speech call fails, the file is left empty and the failure is reported |
| AudioProcessor.FirstFailure | audio_processor.py:49-51 | the first chunk whose speech call fails: all earlier ones succeed |
| AudioProcessor.SpeechChunks | audio_processor.py:39 | the chunks spoken are never an empty list |
| AudioProcessor.TempBase | audio_processor.py:43-44 | parts are written under `outputs/` followed by the basename of the output file's stem |
| AudioProcessor.WrittenPartForm | audio_processor.py:43-50 | part i is written as `outputs/`, the basename of the output's stem, `_part`, the number and the output's extension |
| AudioProcessor.WrittenPartInOutputs | audio_processor.py:43-50 | every part written lies directly in `outputs/` |
| AudioProcessor.AfterSpeechFrame | audio_processor.py:35-63 | speech removes no file other than parts 2..N of the output |
| AudioProcessor.SpeechErrorMeaning | audio_processor.py:35-63 | no error means every chunk's speech call succeeded; a reported speech failure names a chunk whose call failed |
| AudioProcessor.ProcessTextToSpeech | audio_processor.py:35-63 | the files afterwards and the caught error are as `AfterSpeech` and `SpeechError` describe |
| AudioProcessor.BasenameOf | audio_processor.py:44 | the basename of `dir/rest` is `rest` when `rest` has no slash |
| AudioProcessor.TempBaseInOutputs | audio_processor.py:43-44 | for an output file directly in `outputs/`, the parts are written exactly where combining reads them |
| AudioProcessor.WritePartsAt | audio_processor.py:49-51 | after the loop, part j holds the speech of chunk j |
| AudioProcessor.WritePartsElsewhere | audio_processor.py:49-51 | the loop touches no file other than the part files |
| AudioProcessor.ReadBack | audio_processor.py:26 | a part looked for where it was written holds the speech of its chunk |
| AudioProcessor.JoinedWritten | audio_processor.py:49-53 | read back where they were written, the parts join into the chunks' speech in chunk order |
| AudioProcessor.SpeechEndToEnd | audio_processor.py:35-63 | for an output file in `outputs/` and speech calls that all succeed: no error; the output holds every chunk's speech in order; part 1 stays and holds the first chunk's speech; parts 2..N are gone; every other file is unchanged; the only new files are the output and part 1 |
| AudioProcessor.SpeechSucceededRun | audio_processor.py:46-53 | a run whose speech calls all succeed combines exactly the parts it wrote and reports what combining reports |
| AudioProcessor.WrittenThenCombined | audio_processor.py:49-53 | parts written where combining reads them combine without error into the chunks' speech; part 1 keeps the first chunk's speech; parts 2..N are gone |
| AudioProcessor.WrittenThenCombinedFrame | audio_processor.py:49-53 | writing and combining the parts leaves every other file unchanged and adds only the output and part 1 |
| AudioProcessor.WrittenThenCombinedKeeps | audio_processor.py:49-53 | every file other than the output and parts 1..N survives writing and combining unchanged |
| AudioProcessor.WrittenThenCombinedAdds | audio_processor.py:49-53 | after writing and combining, the only files not there before are the output and part 1 |
| AudioProcessor.SpeechSingleChunk | audio_processor.py:55-57 | one chunk is spoken straight into the output file, with no part files |
| AudioProcessor.WrittenPartIsNotOutput | audio_processor.py:43-51 | no part file written is the output file itself |
| AudioProcessor.NotOwnPart | audio_processor.py:43-50 | a name built as `outputs/<basename of stem>_part<i><ext>` is never `<stem><ext>` |
| AudioProcessor.WritePartsFrame | audio_processor.py:49-51 | after parts 1..n are written, each holds the speech of its chunk (empty if the call failed) and every other file, the output among them, is unchanged |
| AudioProcessor.SpeechFailedRun | audio_processor.py:46-53 | a run whose speech call fails at chunk f stops after writing part f+1, does not combine, and reports that chunk |
| AudioProcessor.SpeechFailsAt | audio_processor.py:46-63 | with several chunks and chunk f the first to fail: that failure is reported; parts 1..f hold the speech of chunks 1..f; part f+1 is left empty; the output file and every other file are untouched |
| AudioProcessor.SingleChunkSpeechFails | audio_processor.py:54-63 | with one chunk whose speech call fails: the output file exists and is empty, no other file changes, and the failure is reported |
| AudioProcessor.SplitExtMp3 | audio_processor.py:43 | a bare name `stem.mp3` whose stem has no dot splits into `stem` and `.mp3` |
| AudioProcessor.BareOutputNames | audio_processor.py:21-51 | for a bare output name `stem.mp3`, the parts are written as `outputs/stem_part{i}.mp3` but part 1 is looked for as `stem_part1.mp3`, and no written part is that file or the output file |
| AudioProcessor.BareOutputNotCombined | audio_processor.py:35-63 | with a bare output name (the default `output.mp3` among them) and several chunks all spoken: combining reports `stem_part1.mp3` missing; the output file is neither created nor changed; every part is left in `outputs/` |
| Processor.FormatEach | processor.py:57-60 | the formatter is applied once per chunk, with the results in chunk order |
| Processor.FormattedText | processor.py:49-64 | a text within 48000 characters is formatted as a whole, with nothing added |
| Processor.FormatTextChunks | processor.py:49-64 | the formatter is called exactly on the chunks of `split_text(text, 48000)`, in order, and their results are joined by single spaces |
| Processor.Padded | processor.py:33 | a zero-padded field has exactly the width and consists of digits |
| Processor.ValuePadded | processor.py:33 | a zero-padded number reads back as the number |
| Processor.Stamp | processor.py:33 | the `%Y%m%d_%H%M%S` stamp is 15 characters: digits with an underscore at position 8 |
| Processor.StampFields | processor.py:33 | where year, month, day, hour, minute and second sit in a stamp |
| Processor.StampRoundTrip | processor.py:33 | a stamp records the clock reading exactly |
| Processor.TimestampedFilename | processor.py:31-35 | the name starts with the base, has `_test` after it in test mode, and ends with `_`, the stamp and `.mp3`; no slash is added |
| Processor.TimestampOfFilename | processor.py:31-35 | the clock reading can be read back from a generated name |
| Processor.FilenamesDifferInTime | processor.py:31-35 | runs at different clock readings get different names |
| Processor.DocumentStem | processor.py:73-74 | the stem of the PDF's file name contains no slash |
| Processor.TestModeText | processor.py:86-88 | the test-mode text is within 1600 characters or one oversized sentence with its separator, and is empty only for an empty text or a long text whose first sentence does not fit |
| Processor.ProcessDocument | processor.py:66-91 | fails exactly when the extracted text is empty or whitespace; the output path is `outputs/` plus the timestamped name of the PDF's stem; the text is unchanged outside test mode and the first 1600-limit chunk in test mode |
| Processor.OutputPathInOutputs | processor.py:73-76 | the output file sits directly in `outputs/` |
| Processor.FinalText | processor.py:102 | the text as given without formatting; with formatting, a text within 48000 characters is formatted as a whole |
| Processor.ConvertToAudio | processor.py:100-104 | synthesis in voice `alloy` of the formatted text when formatting is on, otherwise of the text as given |
| Processor.PreparedDocumentCombined | processor.py:100-104 | for a prepared document whose chunks are all spoken, the output file holds their speech in order, parts 2..N are gone, every other file but part 1 is unchanged, and the only new files are the output and part 1 |

## Left out

- Rounding in `calculate_costs` (text_processor.py:43-45): `round()` on binary floats, half to even. The costs are exact unrounded reals.
- `math.ceil` on float division (text_processor.py:32,41): modelled as exact integer ceiling division. These are equal for every realistic length.
- Progress bars, `print` output and the timing of `process_text_to_speech`: they have no effect on results.
- PDF extraction (`pdf_processor.py`): pdf_processor.py is not part of this model. Its text is the `rawText` parameter.
- Transient failures: `tts` and `format` are functions of their input alone. Two identical chunks therefore always get the same outcome, and a call that fails once and succeeds on a repeat with the same text cannot be expressed.
- The GPT formatter (`text_formatter.py`): text_formatter.py is not part of this model. It is the parameter `format`.
- The command-line front end (`main.py`): main.py is not part of this model. Its file naming and test-mode truncation repeat processor.py.
- The OpenAI speech call and pydub decoding and encoding: the speech call is the parameter `tts`, and audio is a sequence of samples that appending concatenates.
- `DocumentProcessor.__init__`, `ensure_directories` and `initialize_openai` (processor.py:14-29): directory creation, environment variables and a global API key.
- `estimate_costs` and `display_statistics` (processor.py:37-47,93-98): they only print `calculate_costs`'s result.
- `datetime.now()` and `time.sleep`: the clock reading is a parameter, and sleeping is recorded as a `Slept` event.
- Helpers.RetryOnError: `delay_seconds` is a natural number, so negative or fractional delays are not modelled. Keyword arguments are folded into the single `args` value.
- AudioProcessor.FileSystem.Remove: requires the file to exist. Its only caller removes a file it has just loaded.
- AudioProcessor.CombineAudioFiles: a part that exists but is not valid MP3 is not modelled. Only a missing file fails to load.
- AudioProcessor.ProcessTextToSpeech: any exception is caught. The only ones modelled are a failed speech call and a missing part file.
- Processor.ConvertToAudio: the `test_mode` argument only selects closing messages, so it is not a parameter.
- Processor.Stamp: years below 1000 are padded to four digits. The platform's `strftime` may not pad them.
- AudioProcessor.FileSystem.Write: directories are not modelled, so writing always succeeds. In the program, `open(path, 'wb')` (audio_processor.py:10) raises when `outputs/` is missing. Every caller creates that directory first (processor.py:18-21), and the claim that parts are left in `outputs/` relies on that.
- AudioProcessor.FileSystem: files are identified by their path string. Paths are not normalised and aliases are not modelled, so `./outputs/x.mp3`, `outputs//x.mp3` and an absolute path to the same file are distinct keys.
- Strings.SplitExt, Strings.Basename, Strings.JoinPath: POSIX `os.path` only. Windows separators and drive letters are not modelled.
- Strings.Strip: Python's whitespace set is written out, but Unicode normalisation is not modelled.
