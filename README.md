# Subtitle extraction and Gemini translation, modelled in Dafny

The system is made of two sequential scripts that work on a video library.

- `extractor/extract_subtitle_en.py` walks the source folders.
  - For every video that is not a trailer, it decides whether a French subtitle already exists, either as an external file or as a French track inside an MKV.
  - If not, it looks for an English source: an external file, or one it extracted earlier.
  - If there is none, it extracts the first English subtitle track of an MKV to `<base>.en.<fmt>.tmp`.
  - It counts what it did per folder and merges those counts into global totals.
- `translator/translate_srt_gemini.py` translates an English subtitle into `<base>.fr.srt`.
  - It works in batches of `BATCH_SIZE` cues.
  - It rotates over a matrix of (Gemini model, API key) cells. A cell that fails cools down for `COOLDOWN_SECONDS`.
  - When every cell is blocked, it waits for the daily quota reset at 11:05 Paris time (watch mode) or exits (run-once mode).
  - After every batch it saves the output and then a progress file, so an interrupted run resumes where it stopped.

## How the model is built

The model makes the I/O explicit.

- **Clock:** integer epoch seconds. It advances only by the sleeps of the source:
  - the 10-second retry delay;
  - the 2-second rescan pause;
  - the wait for the quota reset;
  - the pause between batches.
- **Gemini service:** an oracle, `Gemini.Provider`. It maps a request (its sequence number, its cell and its text) to an answer text or a raised exception.
- **Translator's file system:** a map from path to what the file holds, as the script reads it: a parsed subtitle document, a progress record, or something that raises when read.
- **Extractor's file system:** a set of paths.
- **MKV files:** the track list `mkvmerge -J` reports is an input. `mkvextract` followed by the move of its output is an oracle.

The source changes some state in place, and the model does the same:

| State in the source | In the model |
|---|---|
| the `cooldowns` dictionary | `Cooldown.CooldownTable` |
| the files written and removed | `Translator.Disk` |
| the output document edited cue by cue | an `array<Cue>` |
| `global_stats` | `FolderStats.GlobalStats` |

Each method is proved equal to a specification function. The properties the scripts promise are proved about those functions:

| Method | Specification function |
|---|---|
| `Gemini.CallGemini` | `CallOutcome` |
| `Rotation.TranslateBatch` | `Rounds` |
| `Translator.RunBatches` | `BatchLoop` |
| `Translator.TranslateSubtitle` | `TranslationOf` |
| `Extractor.ExtractFromMkv` | `ExtractionOf` |
| `FolderStats.ProcessFolder` | `Tally` |

Module by module:

- `Cooldown`: the availability rule, `block_key` and `any_key_available`, the 11:05 reset time and the wait until it.
- `Gemini`: `call_gemini` with its single retry after a blank answer.
- `Rotation`: the credential rotation of `translate_batch`.
- `Batches`:
  - the batch offsets and the progress values they save;
  - the request text and the kept answer lines;
  - the positional merge.
- `Translator`:
  - the progress store;
  - the source search;
  - the batch loop of `translate_subtitle` and its resume check and clean-up.
- `Extractor`:
  - the trailer filter and the subtitle searches;
  - the French-track check and the English-track choice;
  - the codec mapping, `extract_from_mkv` and the `process_video_file` ladder.
- `FolderStats`: the counters of `process_folder` and `merge_stats`.
- `Handoff`: how the files of the two scripts relate.
- `Text` and `Paths`: the Python string and path operations the scripts rely on.

Some behaviours are modelled as the code has them:

- **Extracted files are never a translation source.** The extractor writes `<base>.en.<fmt>.tmp` (`extractor/extract_subtitle_en.py:256`). Its own comment at line 308 says `.txt`. The translator looks for `<base>.en.<ext>.txt` (`translator/translate_srt_gemini.py:234,256`). `Handoff.ExtractionInvisible` proves that the extractor's output never changes the translator's choice of a source.
- **There is no format conversion.** An `.ass`, `.ssa` or `.sup` source goes straight to `pysrt.open`.
  - `pysrt.open` skips the blocks it cannot parse instead of raising. A text `.ass` or `.ssa` source therefore reads as the cues it could make out, often none.
  - With no cues the loop runs no batch. The run ends as "completed", cleans up, and writes no output.
  - Only a read or decode error, such as a binary `.sup`, reaches the `except` at `translator/translate_srt_gemini.py:322-326` and gives "error" (`SourceError`).
  - The model takes a file's content as already parsed. `Subtitles(cues)`, with `cues` possibly empty, is the first case; `Unreadable` is the second.
- **VobSub and WebVTT tracks are extracted again on every run.** They are extracted to `.en.sub.tmp` and `.en.vtt.tmp`, which `find_extracted_subtitle` does not look for. `Extractor.RerunExtractsAgain` proves this.
- **"completed" can leave no output file.** When the saved progress already covers the source, the loop runs no batch. The run then ends as "completed", and the output file exists only if an earlier run wrote it.
- **The `translated = subs[:]` copy shares its cue objects with `subs`.** Each cue is read before it is written, and batches do not overlap, so the sharing has no observable effect. The model copies values.

## Model

| member | source | states |
|---|---|---|
| `Text.TrimStartMeans` | translator/translate_srt_gemini.py:353 | the left strip leaves a suffix of the input that is empty or starts with a non-space, after only whitespace |
| `Text.TrimEndMeans` | translator/translate_srt_gemini.py:353 | the right strip leaves a prefix of the input that is empty or ends with a non-space, before only whitespace |
| `Text.StripMeans` | translator/translate_srt_gemini.py:353 | `strip()` gives "" iff every character is whitespace; otherwise its result starts and ends with a non-space and is a slice of the input |
| `Text.StripIdempotent` | translator/translate_srt_gemini.py:353 | stripping a stripped line changes nothing, so the kept lines are already trimmed |
| `Text.Lower` | extractor/extract_subtitle_en.py:100 | lower-casing keeps the length and maps each character on its own |
| `Text.LowerIdempotent` | extractor/extract_subtitle_en.py:100 | lower-casing twice is lower-casing once |
| `Text.ContainsAt` | extractor/extract_subtitle_en.py:100 | Python's `p in s` holds iff `p` occurs at some position of `s` |
| `Text.Split` | translator/translate_srt_gemini.py:353 | `split("\n")` gives at least one piece, even for "" |
| `Text.SplitPieces` | translator/translate_srt_gemini.py:353 | no piece of a split holds the separator |
| `Text.SplitJoin` | translator/translate_srt_gemini.py:174 | splitting a `"\n".join` of newline-free parts gives the parts back |
| `Text.JoinSplit` | translator/translate_srt_gemini.py:353 | joining the pieces of a split gives the string back |
| `Text.FlattenLines` | translator/translate_srt_gemini.py:348 | `replace("\n", " ")` keeps the length, turns each newline into a space, keeps every other character, and leaves no newline |
| `Paths.LastIndexOf` | translator/translate_srt_gemini.py:285 | `rfind`: -1 or an index holding the character, with no occurrence after it (the helper `splitext` is built on) |
| `Paths.LastIndexOfIs` | translator/translate_srt_gemini.py:285 | the last occurrence of a character is what `rfind` returns |
| `Paths.SplitExt` | translator/translate_srt_gemini.py:285 | `os.path.splitext`: splits at the last dot of the last path component when a non-dot character precedes it in that component (definition; its contract is stated by `SplitExtMeans`) |
| `Paths.SplitExtMeans` | translator/translate_srt_gemini.py:285 | the base and the extension concatenate to the path; a non-empty extension is one dot-led suffix of the last path component, behind a non-dot character; and the extension is non-empty whenever the last component has a dot after a non-dot character |
| `Paths.SplitExtExamples` | translator/translate_srt_gemini.py:285 | `d/a.b.mkv` splits into `d/a.b` and `.mkv`; a dot file such as `d/.hidden` and a dot in a directory name give no extension |
| `Paths.FirstExisting` | translator/translate_srt_gemini.py:245-274 | the result is `None` iff no candidate exists, else the existing candidate no earlier candidate beats |
| `Paths.FirstExistingIgnores` | translator/translate_srt_gemini.py:245-274 | a new path that is not a candidate does not change the search |
| `Paths.FirstExistingAgrees` | translator/translate_srt_gemini.py:245-274 | two sets of paths that hold the same candidates give the same search result |
| `Paths.CandidatesMembership` | extractor/extract_subtitle_en.py:110-116 | the nested language/extension loops try exactly the paths `base.lang.ext` |
| `Cooldown.CooldownTable.constructor` | translator/translate_srt_gemini.py:63 | the matrix starts with no blocked cell |
| `Cooldown.Available` | translator/translate_srt_gemini.py:70-71 | `is_available`: a cell may be used at `now` iff `now` is at or past its expiry, 0 when it has none (definition) |
| `Cooldown.AnyAvailable` | translator/translate_srt_gemini.py:79-84 | `any_key_available`: some cell of MODELS × [0, len(API_KEYS)) is available (definition; `AnyKeyAvailable` computes it) |
| `Cooldown.NeverBlockedAvailable` | translator/translate_srt_gemini.py:70-71 | a cell with no entry (default expiry 0) is available at every instant |
| `Cooldown.CooldownTable.Block` | translator/translate_srt_gemini.py:74-76 | after `block_key(c)` at `t`, `c` is available at exactly the instants `>= t + COOLDOWN_SECONDS`, and no other cell's expiry changes |
| `Cooldown.CooldownTable.AnyKeyAvailable` | translator/translate_srt_gemini.py:79-84 | true iff some cell of MODELS × [0, len(API_KEYS)) is available now |
| `Cooldown.CellsMembership` | translator/translate_srt_gemini.py:165-166 | the visiting order covers exactly MODELS × [0, len(API_KEYS)) |
| `Cooldown.CellsFirst` | translator/translate_srt_gemini.py:165-166 | the first cell visited is the first model with the first key |
| `Cooldown.CellsDistinct` | translator/translate_srt_gemini.py:165-166 | with distinct model names no cell is visited twice in a pass |
| `Cooldown.NextQuotaReset` | translator/translate_srt_gemini.py:87-104 | the reset is tomorrow iff (hour, minute) is at or past (11, 5); the wait is in (0, 86400] and ends at 11:05:00 |
| `Cooldown.ResetAtTen` | translator/translate_srt_gemini.py:95-101 | at 10:00 the wait is 3900 s, until today's reset |
| `Cooldown.ResetAtResetInstant` | translator/translate_srt_gemini.py:95-101 | at 11:05:00 exactly, today's reset counts as past: the wait is a full day |
| `Cooldown.CooldownTable.Clear` | translator/translate_srt_gemini.py:122 | after `cooldowns.clear()` every cell is available at every instant |
| `Cooldown.WaitForQuotaReset` | translator/translate_srt_gemini.py:107-122 | the agent wakes at the next 11:05 Paris time, with every cooldown cleared |
| `Gemini.CallOutcome` | translator/translate_srt_gemini.py:128-156 | one call sends one or two requests and never moves the clock back |
| `Gemini.CallOutcomeSpec` | translator/translate_srt_gemini.py:146-156 | a second request is sent iff the first answer is blank, and only after the 10 s delay; a returned text is non-blank and is the last answer; the call fails iff the last reply raised or was blank; two blank answers give "Réponse vide après 2 tentatives" |
| `Gemini.CallGemini` | translator/translate_srt_gemini.py:128-156 | the bounded retry loop computes `CallOutcome` |
| `Rotation.Scan` | translator/translate_srt_gemini.py:165-188 | one pass of the nested `for` loops: the visits of the cells in order (definition; properties in `ScanForward`, `ScanHit`, `ScanFirstHit`, `ScanFrame`) |
| `Rotation.Visit` | translator/translate_srt_gemini.py:168-188 | one visit never moves the clock or the request count back, and changes nothing once a cell has answered |
| `Rotation.VisitMeans` | translator/translate_srt_gemini.py:168-188 | a cooling cell is skipped without a request; only an available cell answers, with a non-blank text; a failing cell is blocked until the end of its call plus COOLDOWN_SECONDS, whatever the error |
| `Rotation.VisitOfProperties` | translator/translate_srt_gemini.py:168-188 | a visit changes nothing once a cell has answered, never moves the clock or the request count back, and changes the expiry of no other cell |
| `Rotation.ScanForward` | translator/translate_srt_gemini.py:165-188 | a pass never moves the clock or the request count back |
| `Rotation.ScanHit` | translator/translate_srt_gemini.py:165-175 | the answer of a pass is non-blank and comes from one of the cells it visits |
| `Rotation.ScanAppend` | translator/translate_srt_gemini.py:165-166 | a pass over two runs of cells is the pass over the first, continued over the second |
| `Rotation.ScanAfterHit` | translator/translate_srt_gemini.py:175 | after the first answer the rest of the pass changes nothing (the early return) |
| `Rotation.ScanFirstHit` | translator/translate_srt_gemini.py:165-175 | the answer comes from the first cell in visiting order that answered, and the pass ends with it |
| `Rotation.ScanStartsWithHit` | translator/translate_srt_gemini.py:165-175 | a pass whose first cell answers ends with that answer |
| `Rotation.AnswersAtMeans` | translator/translate_srt_gemini.py:168-175 | the answering cell was available when reached, and its non-blank text is the answer |
| `Rotation.ScanFrame` | translator/translate_srt_gemini.py:165-188 | a pass changes the expiry of no cell it does not visit |
| `Rotation.ScanBlocksFailure` | translator/translate_srt_gemini.py:177-188 | a cell whose call failed stays blocked until the failure time plus COOLDOWN_SECONDS for the rest of the pass |
| `Rotation.ResetTriesFirstCell` | translator/translate_srt_gemini.py:117-122 | after the reset, the next pass sends its first request to the first model with the first key, and ends there when that request gets a non-blank answer |
| `Rotation.FreshVisitAnswers` | translator/translate_srt_gemini.py:117-122 | on a cleared matrix a cell whose first request gets a non-blank answer is used at once, with one request sent and no delay |
| `Rotation.Rounds` | translator/translate_srt_gemini.py:162-203 | `translate_batch`'s `while True`: a pass over the matrix, then `Decide`, with a bound on rounds (definition; properties in `RoundsMeans`) |
| `Rotation.Decide` | translator/translate_srt_gemini.py:163-203 | after a pass the loop stops only with an answer, or in run-once mode when no cell is available; it passes again exactly when no answer came and some cell is available or watch mode is on, and then with the same request count and a later clock |
| `Rotation.RoundsMeans` | translator/translate_srt_gemini.py:162-203 | a returned translation is non-blank and comes from a cell of the matrix; the program exits only in run-once mode and only when no cell is available; the loop never moves the clock or the request count back |
| `Rotation.VisitCell` | translator/translate_srt_gemini.py:168-188 | one inner iteration computes `Visit`: skip a cooling cell, call an available one, and block it on failure |
| `Rotation.ScanNextKey` | translator/translate_srt_gemini.py:166-168 | the pass up to key k+1 of a model is the pass up to key k followed by a visit of key k |
| `Rotation.PassEndsAt` | translator/translate_srt_gemini.py:175 | once a cell answers, the pass over the whole matrix ends with that answer (the early return) |
| `Rotation.RunPass` | translator/translate_srt_gemini.py:165-188 | the nested loops with the early return compute one `Scan` over the cells, and leave the matrix as it says |
| `Rotation.RunRound` | translator/translate_srt_gemini.py:163-203 | one iteration of `while True` computes `Decide` of the pass it runs: the answer, the exit, or the state it rescans from |
| `Rotation.TranslateBatch` | translator/translate_srt_gemini.py:162-203 | `translate_batch` computes `Rounds` on the joined texts, with the matrix, request count and clock it leaves |
| `Batches.RangeMeans` | translator/translate_srt_gemini.py:344 | `range(start, stop, step)` lists `start + k*step` below `stop`, and no more |
| `Batches.Checkpoints` | translator/translate_srt_gemini.py:344-360 | the progress values saved by the batches from an offset on (definition; properties in the `Checkpoints…` lemmas) |
| `Batches.CheckpointsOfRange` | translator/translate_srt_gemini.py:344-360 | the k-th progress value saved is `i + len(batch)` for the k-th offset of the range |
| `Batches.CheckpointsBounds` | translator/translate_srt_gemini.py:344-360 | every saved value lies in (last_done, total] |
| `Batches.CheckpointsIncreasing` | translator/translate_srt_gemini.py:344-360 | each saved value is strictly greater than the one before |
| `Batches.CheckpointsPrefixStep` | translator/translate_srt_gemini.py:344-360 | the values saved from one offset are that batch's end followed by the values saved from the next offset |
| `Batches.CheckpointsLast` | translator/translate_srt_gemini.py:344-360 | when last_done < total the last value saved is total |
| `Batches.CheckpointsExample` | translator/translate_srt_gemini.py:344-360 | 120 cues in batches of 50 save 50, 100, 120 |
| `Batches.Flattened` | translator/translate_srt_gemini.py:348 | one flattened text per cue, none holding a newline |
| `Batches.BatchRequestLines` | translator/translate_srt_gemini.py:174 | the request text (the joined texts of line 348) holds exactly one line per cue, in order |
| `Batches.Kept` | translator/translate_srt_gemini.py:353 | `[l.strip() for l in ls if l.strip()]` (definition; properties in `KeptMeans`, `KeptClean`) |
| `Batches.KeptMeans` | translator/translate_srt_gemini.py:353 | the kept lines are no more than the pieces, each non-empty and trimmed |
| `Batches.KeptClean` | translator/translate_srt_gemini.py:353 | lines that are already trimmed and non-blank are all kept, unchanged |
| `Batches.ResponseLinesOfJoin` | translator/translate_srt_gemini.py:353 | an answer of one clean line per cue is read back line for line |
| `Batches.Texts` | translator/translate_srt_gemini.py:348 | the texts of a document, cue by cue |
| `Batches.Merged` | translator/translate_srt_gemini.py:355-357 | the document after `translated[i + j].text = lines[j]` for each `j < len(lines)` of a batch (definition; properties in `MergedFrame`, `MergedFull`, `MergedIdempotent`, `MergedDisjoint`) |
| `Batches.MergedFrame` | translator/translate_srt_gemini.py:355-357 | the merge keeps the length and every timing, leaves the cues outside the batch alone, gives cue i+j the j-th line when there is one, and otherwise keeps its text |
| `Batches.MergedFull` | translator/translate_srt_gemini.py:355-357 | a full answer for a batch that fits replaces the batch's texts with the answer's lines |
| `Batches.MergedIdempotent` | translator/translate_srt_gemini.py:355-357 | merging the same answer again changes nothing, so a batch re-run after a crash is harmless |
| `Batches.MergedDisjoint` | translator/translate_srt_gemini.py:344-357 | a later batch leaves the cues of an earlier batch alone |
| `Translator.Open` | translator/translate_srt_gemini.py:323 | `pysrt.open` gives the cues iff the file exists and parses |
| `Translator.LoadProgress` | translator/translate_srt_gemini.py:209-213 | a missing file gives 0, a progress record its `last_index`, and anything else raises |
| `Translator.FindEnglishSubtitle` | translator/translate_srt_gemini.py:245-274 | `find_english_subtitle`: the first existing candidate, in the order of the source's loops |
| `Translator.FindEnglishPriority` | translator/translate_srt_gemini.py:245-274 | nothing is found iff no candidate exists; an extracted `.en.<ext>.txt` wins over every external file; without one, an `.en`/`.eng` file wins over a bare one |
| `Translator.Disk.Save` | translator/translate_srt_gemini.py:216-218 | a save replaces the file at its path and touches no other |
| `Translator.Disk.DeleteProgress` | translator/translate_srt_gemini.py:221-225 | the progress file is gone afterwards and every other file is kept |
| `Translator.Disk.DeleteExtractedSubtitle` | translator/translate_srt_gemini.py:228-239 | removes the first existing `.en.<ext>.txt` and nothing else, and returns True iff there was one |
| `Translator.FirstExistingAt` | translator/translate_srt_gemini.py:233-238 | the early return finds the first existing candidate |
| `Translator.Settle` | translator/translate_srt_gemini.py:350-371 | what a batch does once `translate_batch` returned: stop on a give-up, crash on `IndexError`, or save the output, then the progress, then pause unless last (definition; properties in `SettleSaves`, `SettleOverflows`, `BatchStepFramed`) |
| `Translator.BatchStep` | translator/translate_srt_gemini.py:345-371 | the body of the batch `for` loop at one offset (definition; properties in `BatchStepSave`, `BatchStepFramed`) |
| `Translator.BatchLoop` | translator/translate_srt_gemini.py:344-371 | the `for i in range(last_done, total, BATCH_SIZE)` loop over a batch body (definition; properties in `BatchLoopUnfold`, `BatchLoopSaves`, `BatchLoopDoc`, `BatchLoopFiles`, `BatchLoopOutput`) |
| `Translator.BatchLoopUnfold` | translator/translate_srt_gemini.py:344-371 | the loop ends where a batch ends it, or goes on from the next offset behind that batch's saved value |
| `Translator.BatchLoopAdvance` | translator/translate_srt_gemini.py:344-371 | after one iteration of the `for` loop, the loop from the start ends with that batch or is accounted for from the next offset, with its save appended |
| `Translator.BatchStepSave` | translator/translate_srt_gemini.py:347-360 | each batch saves `i + len(subs[i:i+BATCH_SIZE])` and never ends the loop as finished |
| `Translator.BatchStepFramed` | translator/translate_srt_gemini.py:350-360 | a batch keeps the document's length and timings and the cues before it; a batch that goes on has written the output, then the progress, and no other file; a batch that stops has touched no file, and one whose `translate_batch` gave up has changed no cue |
| `Translator.BatchStepFrame` | translator/translate_srt_gemini.py:344-360 | every batch of `translate_subtitle` keeps that frame |
| `Translator.BatchLoopSaves` | translator/translate_srt_gemini.py:344-360 | the progress values saved are, in order, a prefix of the batch ends of `range(last_done, total, BATCH_SIZE)`, and all of them when the loop finishes |
| `Translator.BatchLoopDoc` | translator/translate_srt_gemini.py:344-357 | the loop keeps the document's length and every timing, and never changes a cue before its starting offset |
| `Translator.BatchLoopFiles` | translator/translate_srt_gemini.py:359-360 | the loop writes only the output and the progress file; after a save the progress file holds the last value saved; a finished loop has saved the final document; a loop that saves nothing touches no file |
| `Translator.BatchLoopOutput` | translator/translate_srt_gemini.py:344-360 | once the loop has saved a batch, the output holds a document of the final length that agrees with the final document on every cue before the last progress value saved; unless the merge raised, it is the final document |
| `Translator.StoppedLoopFiles` | translator/translate_srt_gemini.py:344-360 | after the loop of `translate_subtitle` has saved a batch and then `translate_batch` gave up, the output holds the document the loop held, the progress file the last value saved, and every other file is as it was |
| `Translator.BatchLoopFinishedUnsaved` | translator/translate_srt_gemini.py:344 | a loop that finishes without a save ran no batch and changed nothing |
| `Translator.MergeLines` | translator/translate_srt_gemini.py:355-357 | the in-place merge leaves the array as `Merged`, and raises `IndexError` exactly when a write falls past the end |
| `Translator.SettleOverflows` | translator/translate_srt_gemini.py:355-357 | a merge that writes past the end stops the loop with `IndexError`, keeping its earlier writes and writing no file |
| `Translator.SettleSaves` | translator/translate_srt_gemini.py:355-371 | a merge that fits is followed by the save of the output, then of the progress, then a pause unless it was the last batch |
| `Translator.SettleBatch` | translator/translate_srt_gemini.py:350-371 | after `translate_batch` the batch stops on a give-up, crashes on `IndexError`, or saves the output, then the progress, then pauses unless it was the last batch |
| `Translator.RunBatch` | translator/translate_srt_gemini.py:345-371 | one iteration computes the loop body at its offset |
| `Translator.RunBatches` | translator/translate_srt_gemini.py:344-371 | the `for` loop computes `BatchLoop` from the saved offset, with the progress values it saved |
| `Translator.RotationOfRotates` | translator/translate_srt_gemini.py:351 | the batch loop calls `translate_batch` with the rotation of the configured matrix |
| `Translator.StepOfRunsBatches` | translator/translate_srt_gemini.py:345-371 | every iteration of the loop runs the batch body at its offset |
| `Translator.TranslationOf` | translator/translate_srt_gemini.py:280-412 | `translate_subtitle`: the resume check, then `FromSource` (definition; properties in `TranslationWithoutCalls`, `ConcludedStatus`, `PastResumeCheck`, `RerunAfterCompleted`, `RerunAfterStop`) |
| `Translator.FromSource` | translator/translate_srt_gemini.py:313-412 | past the resume check: no source gives "no_source", an unreadable source "error", otherwise the batch loop from the saved progress |
| `Translator.Concluded` | translator/translate_srt_gemini.py:344-412 | a finished loop cleans up and answers "completed"; a give-up exits (run-once) or is interrupted; a merge past the end raises |
| `Translator.TranslateSubtitle` | translator/translate_srt_gemini.py:280-412 | `translate_subtitle` computes `TranslationOf`: the status, the files, the matrix, the requests and the clock |
| `Translator.OwnPathsDistinct` | translator/translate_srt_gemini.py:286-287 | the output and the progress file are distinct, and neither is an extracted subtitle |
| `Translator.OwnPathsNotEnglish` | translator/translate_srt_gemini.py:245-287 | neither the output nor the progress file is ever a candidate English source |
| `Translator.SourceUnchanged` | translator/translate_srt_gemini.py:313-326 | files that differ only in the output and the progress file lead to the same English source, read the same way |
| `Translator.CleanedUpFrame` | translator/translate_srt_gemini.py:408-410 | the clean-up removes the progress file and at most one extracted subtitle, and keeps every other file as it was |
| `Translator.TranslationWithoutCalls` | translator/translate_srt_gemini.py:289-326 | "already_done" comes exactly from the resume check; "already_done", "no_source" and "error" send no request and wait for nothing; the last two touch no file |
| `Translator.ConcludedStatus` | translator/translate_srt_gemini.py:313-412 | past the resume check the run never answers "already_done"; "no_source" and "error" leave everything as it was; "completed" has cleaned up |
| `Translator.PastResumeCheck` | translator/translate_srt_gemini.py:313-344 | once the resume check lets the run through and the source, the progress and the document are read, `translate_subtitle` is the batch loop from the loaded progress value on that document, concluded |
| `Translator.CompletedRemovesProgress` | translator/translate_srt_gemini.py:407-412 | after "completed" the progress file is gone |
| `Translator.RerunAfterCompleted` | translator/translate_srt_gemini.py:289-294 | a re-run after "completed", with the output in place, answers "already_done" with no request, pause or change |
| `Translator.ResumeFromSaved` | translator/translate_srt_gemini.py:289-344 | on files that differ only in a saved output and a progress value below its length, a run reads the same source and runs the batch loop from that value on the saved document |
| `Translator.RerunAfterStop` | translator/translate_srt_gemini.py:289-360 | after a run that saved a batch and then stopped because `translate_batch` gave up, with cues left to do, a re-run does not answer "already_done": it reloads the document held at the stop and goes on from the last value saved, the offset of the batch that gave up |
| `Extractor.IsVideo` | extractor/extract_subtitle_en.py:355 | `file.lower().endswith(VIDEO_EXTENSIONS)` (definition) |
| `Extractor.IsTrailer` | extractor/extract_subtitle_en.py:98-100 | `"-trailer" in filename.lower()` (definition; property in `IsTrailerMeans`) |
| `Extractor.IsTrailerMeans` | extractor/extract_subtitle_en.py:98-100 | a name is a trailer iff "-trailer" occurs in its lower-case form, whatever its case |
| `Extractor.FindFrenchSubtitle` | extractor/extract_subtitle_en.py:103-118 | `find_french_subtitle`: some `base.lang.ext` candidate exists (definition; property in `FindFrenchMeans`) |
| `Extractor.FindFrenchMeans` | extractor/extract_subtitle_en.py:103-118 | True iff `base.lang.ext` exists for some French code and subtitle extension |
| `Extractor.FindExternalSubtitle` | extractor/extract_subtitle_en.py:121-144 | `find_external_subtitle`: the first existing language-tagged, then bare, candidate |
| `Extractor.FindExternalPriority` | extractor/extract_subtitle_en.py:121-144 | nothing is found iff no candidate exists; what is found exists and is a candidate; a language-tagged file wins over every bare one |
| `Extractor.FindExtractedSubtitle` | extractor/extract_subtitle_en.py:147-156 | `find_extracted_subtitle`: the first existing `base.en.<ext>.tmp` for the four subtitle extensions |
| `Extractor.TmpIsNoCandidate` | extractor/extract_subtitle_en.py:110-144 | a `.tmp` path is never a French or English external candidate |
| `Extractor.HasFrenchSubtitleInMkv` | extractor/extract_subtitle_en.py:177-204 | `has_french_subtitle_in_mkv` over the reported tracks (definition; property in `HasFrenchMeans`) |
| `Extractor.HasFrenchMeans` | extractor/extract_subtitle_en.py:177-204 | True iff some track is a subtitle track with language fr/fra/fre or a name containing "french", "français" or "francais"; no tracks gives False |
| `Extractor.EnglishTracks` | extractor/extract_subtitle_en.py:216-237 | `subtitle_tracks` after the append loop: the English subtitle tracks, in order (definition; property in `FirstEnglishTrack`) |
| `Extractor.FirstEnglishTrack` | extractor/extract_subtitle_en.py:216-237 | a track is selected iff some track is an English subtitle track, and it is the first such track |
| `Extractor.CodecExtension` | extractor/extract_subtitle_en.py:241-253 | the format is always one of ass, ssa, sup, sub, vtt, srt |
| `Extractor.CodecFallback` | extractor/extract_subtitle_en.py:252-253 | a codec naming none of the formats, such as SubRip's, falls back to srt |
| `Extractor.ContainsSuffix` | extractor/extract_subtitle_en.py:242-251 | a codec containing `s_text/ass` contains `ass`, and likewise for the longer tests |
| `Extractor.ExtractionOf` | extractor/extract_subtitle_en.py:207-274 | `extract_from_mkv`: False with no change without an English track, else extraction of the first one and the move or removal of its temporary file (definition; properties in `ExtractionResult`, `SearchAfterAdding`) |
| `Extractor.ExtractFromMkv` | extractor/extract_subtitle_en.py:207-274 | the append loop and the extraction compute `ExtractionOf`: False with no change when there is no English track; otherwise the temporary file is moved to `.en.<fmt>.tmp`, or removed on failure |
| `Extractor.ProcessVideoFile` | extractor/extract_subtitle_en.py:277-327 | `process_video_file`'s ladder of tests (definition; properties in `ProcessLadder`) |
| `Extractor.ProcessLadder` | extractor/extract_subtitle_en.py:277-327 | each status comes exactly from its own test after the earlier ones failed; a non-MKV is never looked into or extracted and ends as "no_source"; only an extraction changes the files |
| `Extractor.ExtractionResult` | extractor/extract_subtitle_en.py:255-268 | "mkv_extracted" leaves `.en.<fmt>.tmp` for the first English track's format and nothing else new |
| `Extractor.RerunAfterExtraction` | extractor/extract_subtitle_en.py:308-312 | after an extraction to srt/ass/sup/ssa a re-run answers "extracted" without extracting again |
| `Extractor.RerunExtractsAgain` | extractor/extract_subtitle_en.py:147-156 | after an extraction to sub or vtt a re-run extracts again, with the same result |
| `Extractor.SearchAfterAdding` | extractor/extract_subtitle_en.py:255-267 | moving the temporary file to a non-candidate path does not make a failed search succeed |
| `FolderStats.AllCounters` | extractor/extract_subtitle_en.py:340-350 | the dictionary lists every counter |
| `FolderStats.Position` | extractor/extract_subtitle_en.py:340-350 | every counter has a place in the key order |
| `FolderStats.PositionOf` | extractor/extract_subtitle_en.py:340-350 | each counter is listed once |
| `FolderStats.Zero` | extractor/extract_subtitle_en.py:340-350 | a folder starts with every counter at 0 |
| `FolderStats.CounterOf` | extractor/extract_subtitle_en.py:368-381 | a status never increments `total` or `trailers_skipped` through the `elif` chain |
| `FolderStats.Tally` | extractor/extract_subtitle_en.py:352-387 | the counters after the walk have every key |
| `FolderStats.Booking` | extractor/extract_subtitle_en.py:366-387 | a status is booked under its own counter, and a raised exception under `failed` |
| `FolderStats.CountsUnder` | extractor/extract_subtitle_en.py:355-387 | which counters count a file: none for a non-video, `trailers_skipped` for a trailer, `total` and its booking for any other video (definition) |
| `FolderStats.Number` | extractor/extract_subtitle_en.py:352-387 | how many files of the walk a counter counts (definition) |
| `FolderStats.CountKeepsBalance` | extractor/extract_subtitle_en.py:352-387 | one file keeps `total` equal to the sum of the status counters; a non-video changes nothing; a trailer bumps only `trailers_skipped`; any other video bumps `total` and the counter of its status (`failed` when it raised) by one and leaves every other counter alone |
| `FolderStats.CountBooks` | extractor/extract_subtitle_en.py:352-387 | one file adds one to exactly the counters that count it |
| `FolderStats.TotalIsSumOfStatuses` | extractor/extract_subtitle_en.py:340-389 | `total` equals the sum of the seven status counters, every video is counted as a trailer or in `total`, and every counter equals the number of files it counts: trailer videos, other videos, and videos booked under each status |
| `FolderStats.ProcessFolder` | extractor/extract_subtitle_en.py:330-389 | `None` for a missing folder, otherwise the counters of the walk |
| `FolderStats.Added` | extractor/extract_subtitle_en.py:397-398 | the sum of two counter dictionaries has every key |
| `FolderStats.AddedBalanced` | extractor/extract_subtitle_en.py:392-398 | merging balanced counters keeps the global counters balanced and adds the totals |
| `FolderStats.GlobalStats.constructor` | extractor/extract_subtitle_en.py:340-350 | the global counters start at 0 |
| `FolderStats.GlobalStats.MergeStats` | extractor/extract_subtitle_en.py:392-398 | a `None` folder result changes nothing; otherwise every counter grows by the folder's |
| `FolderStats.MergeCounterStep` | extractor/extract_subtitle_en.py:397-398 | one iteration of the merge loop adds the folder's value of one more counter and keeps the others |
| `FolderStats.MergedAll` | extractor/extract_subtitle_en.py:395-396 | once the loop has passed every key, the global counters are the key-wise sum |
| `Handoff.ExtractedIsNoSource` | extractor/extract_subtitle_en.py:256 | no file the extractor writes is a source candidate of the translator |
| `Handoff.ExtractionInvisible` | translator/translate_srt_gemini.py:245-274 | the translator picks the same source whether or not the extractor's file is present |

## Left out

- Translator.LoadProgress: `json.load(f).get("last_index", 0)` (`translator/translate_srt_gemini.py:212`) gives 0 for a JSON object without `last_index`, and passes a negative or non-integer value on to `range`. `Progress(lastIndex: nat)` holds only a natural number, so the model represents neither case.
- Paris time uses a fixed UTC offset (`Config.utcOffset`). The daylight-saving changes that `pytz` applies are not modelled.
- A Gemini request takes no time in the model; the clock advances only by the sleeps. `block_key` reads `time.time()` after the failed call returned (`translator/translate_srt_gemini.py:74-76`). In the model that instant is the start of the call plus its 10-second retry delay, if any. The time the requests spend on the network is not counted, so a modelled cooldown can end earlier than a real one.
- Time is whole seconds. The sub-second part of `time.time()` and `total_seconds()` is dropped.
- 11:05 is 39900 seconds of the day.
- `translate_batch`'s `while True` gets a bound on rounds (`fuel`). A run that uses up its rounds ends as `Interrupted`, which the source cannot do.
- The wait estimate and its formatting (lines 339-405) are not modelled. They use floating-point averages and only feed the log.
- Logging and the rotating log file are not modelled.
- `run_translation`, `run_extraction`, both `main` functions and their watch-mode loops are not modelled.
- Environment and JSON configuration parsing are not modelled. `Rotation.Config` holds the values they produce.
- Not modelled: the Gemini SDK (`genai.Client`, `generate_content`). It is the provider oracle.
- Not modelled: the SubRip parsing and writing of `pysrt`. A file's content is given as already parsed (`Translator.Content`).
- Not modelled: the JSON encoding of the progress file. It is a `Progress` record.
- Not modelled: `subprocess` calls to `mkvmerge` and `mkvextract`, and `shutil.move`. The track list is an input, and extraction is an oracle.
- `os.walk` is a list of (directory, file name) entries.
- `process_folder` takes what `process_video_file` does with each video as an oracle (`FolderStats.Outcome`). So the per-file ladder and the folder count are related by the oracle, not by a shared file system.
- A track whose `codec` is JSON `null` makes `extract_from_mkv` raise. The model's `Track` always has a codec string.
- `delete_progress` and `delete_extracted_subtitle` are modelled for their effect on the files, not for their log lines.
- `Text.Lower`: lower-cases only the Latin-1 range (A-Z and À-Þ except ×), not every Unicode letter, because the names the scripts compare are ASCII.
