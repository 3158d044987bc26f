/**
 * `translate_subtitle` of translator/translate_srt_gemini.py and the file
 * handling around it: the resume check, the search for an English source,
 * the batch loop that merges the answers into the output document and saves
 * the output and then the progress after every batch, and the final clean-up.
 *
 * The file system is a map from path to what a file holds, as the scripts
 * read it: a subtitle document as pysrt parses it, a progress record as the
 * JSON `last_index` value, or something that raises when read. Existence is
 * membership. A run stops in one of the statuses `translate_subtitle`
 * returns, or because the process stops: `sys.exit(1)` when every cell is
 * blocked in run-once mode, an uncaught exception, or the bound on rounds.
 */
module Translator {
  import opened Wrappers
  import opened Text
  import opened Paths
  import opened Cooldown
  import opened Gemini
  import opened Rotation
  import opened Batches

  /** SUBTITLE_EXTENSIONS */
  const SubtitleExtensions: seq<string> := ["srt", "ass", "sup", "ssa"]
  const EnglishCodes: seq<string> := ["en", "eng"]

  datatype Content = Subtitles(cues: seq<Cue>) | Progress(lastIndex: nat) | Unreadable
  type Files = map<string, Content>

  /** `pysrt.open(path)`: the cues, or `None` when the file is missing or raises. */
  function Open(files: Files, path: string): (r: Option<seq<Cue>>)
    ensures r.Some? <==> path in files && files[path].Subtitles?
  {
    if path in files && files[path].Subtitles? then Some(files[path].cues) else None
  }

  /** `load_progress(path)`: 0 when the file is missing, `None` when reading it raises. */
  function LoadProgress(files: Files, path: string): (r: Option<nat>)
    ensures path !in files ==> r == Some(0)
    ensures path in files ==> (r.Some? <==> files[path].Progress?)
    ensures path in files && files[path].Progress? ==> r == Some(files[path].lastIndex)
  {
    if path !in files then Some(0)
    else if files[path].Progress? then Some(files[path].lastIndex)
    else None
  }

  /** `f"{base}.en.{ext}.txt"` for every extension, in order. */
  function ExtractedCandidates(base: string): seq<string> {
    seq(|SubtitleExtensions|, j requires 0 <= j < |SubtitleExtensions| =>
      base + ".en." + SubtitleExtensions[j] + ".txt")
  }

  /** The priority order of `find_english_subtitle`. */
  function EnglishCandidates(base: string): seq<string> {
    ExtractedCandidates(base) + Candidates(base, EnglishCodes, SubtitleExtensions) +
    BareCandidates(base, SubtitleExtensions)
  }

  /** `find_english_subtitle(base)` */
  function FindEnglishSubtitle(paths: set<string>, base: string): Option<string> {
    FirstExisting(paths, EnglishCandidates(base))
  }

  /**
   * An extracted `.en.<ext>.txt` file wins over every external file, and when
   * none exists, an `.en`/`.eng` file wins over a bare one.
   */
  lemma FindEnglishPriority(paths: set<string>, base: string)
    ensures var r := FindEnglishSubtitle(paths, base);
            var x := ExtractedCandidates(base);
            var l := Candidates(base, EnglishCodes, SubtitleExtensions);
            && (r.None? <==> forall p :: p in EnglishCandidates(base) ==> p !in paths)
            && ((exists j :: 0 <= j < |x| && x[j] in paths) ==> r.Some? && r.value in x)
            && ((forall j :: 0 <= j < |x| ==> x[j] !in paths) && (exists j :: 0 <= j < |l| && l[j] in paths) ==>
                  r.Some? && r.value in l)
  {
    var r := FindEnglishSubtitle(paths, base);
    var x := ExtractedCandidates(base);
    var l := Candidates(base, EnglishCodes, SubtitleExtensions);
    var cs := EnglishCandidates(base);
    assert forall k :: 0 <= k < |x| ==> cs[k] == x[k];
    assert forall k :: 0 <= k < |l| ==> cs[|x| + k] == l[k];
    if r.Some? {
      var i :| 0 <= i < |cs| && cs[i] == r.value && r.value in paths && forall j :: 0 <= j < i ==> cs[j] !in paths;
      assert i < |x| ==> r.value == x[i];
      assert |x| <= i < |x| + |l| ==> r.value == l[i - |x|];
    } else {
      forall p | p in cs ensures p !in paths {
        var i :| 0 <= i < |cs| && cs[i] == p;
      }
    }
  }

  /** The files `delete_extracted_subtitle(base)` removes: the first existing `.en.<ext>.txt`, only. */
  function WithoutExtracted(files: Files, base: string): Files {
    match FirstExisting(files.Keys, ExtractedCandidates(base))
    case None => files
    case Some(p) => files - {p}
  }

  /** The file system, changed in place by the saves and the removals. */
  class Disk {
    var files: Files

    constructor (files: Files)
      ensures this.files == files
    {
      this.files := files;
    }

    function Exists(path: string): bool
      reads this
    {
      path in files
    }

    /** Writes `content` at `path`, replacing whatever was there. */
    method Save(path: string, content: Content)
      modifies this
      ensures files == old(files)[path := content]
    {
      files := files[path := content];
    }

    /** `delete_progress(path)`: removes the file when it exists. */
    method DeleteProgress(path: string)
      modifies this
      ensures files == old(files) - {path}
      ensures path !in files && forall p :: p != path && p in old(files) ==> p in files && files[p] == old(files)[p]
    {
      if Exists(path) {
        files := files - {path};
      }
    }

    /**
     * `delete_extracted_subtitle(base)`: removes the first `.en.<ext>.txt`
     * that exists and reports whether it removed one; external subtitle
     * files are never touched.
     */
    method DeleteExtractedSubtitle(base: string) returns (removed: bool)
      modifies this
      ensures removed <==> FirstExisting(old(files).Keys, ExtractedCandidates(base)).Some?
      ensures files == WithoutExtracted(old(files), base)
    {
      var cs := ExtractedCandidates(base);
      var j := 0;
      while j < |SubtitleExtensions|
        invariant 0 <= j <= |SubtitleExtensions| && files == old(files)
        invariant forall k :: 0 <= k < j ==> cs[k] !in files
      {
        var extracted := base + ".en." + SubtitleExtensions[j] + ".txt";
        assert extracted == cs[j];
        if Exists(extracted) {
          FirstExistingAt(files.Keys, cs, j);
          files := files - {extracted};
          return true;
        }
        j := j + 1;
      }
      assert FirstExisting(files.Keys, cs).None?;
      return false;
    }
  }

  /** The first existing candidate is the one at `j` when none before it exists. */
  lemma FirstExistingAt(paths: set<string>, cs: seq<string>, j: nat)
    requires j < |cs| && cs[j] in paths
    requires forall k :: 0 <= k < j ==> cs[k] !in paths
    ensures FirstExisting(paths, cs) == Some(cs[j])
  {
    var r := FirstExisting(paths, cs);
    var i :| 0 <= i < |cs| && cs[i] == r.value && r.value in paths && forall k :: 0 <= k < i ==> cs[k] !in paths;
    assert !(i < j) && !(j < i);
  }

  // ---------------------------------------------------------------------------
  // The batch loop
  // ---------------------------------------------------------------------------

  /** The state the batch loop carries: the output document in memory, the disk, the matrix, the requests and the clock. */
  datatype LoopState = LoopState(doc: seq<Cue>, files: Files, expiry: map<Cell, nat>, sent: nat, now: nat)

  /**
   * What `translate_batch` makes of a request text, starting from a matrix, a
   * request count and a clock. The batch loop is stated for any such
   * function; `translate_subtitle` uses the rotation of `Rounds`.
   */
  type BatchTranslator = (string, map<Cell, nat>, nat, nat) -> Run

  /** `translate_batch` with at most `fuel` rounds per batch. */
  function RotationOf(cfg: Config, provider: Provider, fuel: nat): BatchTranslator {
    (text: string, expiry: map<Cell, nat>, sent: nat, now: nat) => Rounds(cfg, provider, text, expiry, sent, now, fuel)
  }

  /**
   * `translate` is the rotation of `Rounds`. The equation is used wherever a
   * `Rounds` term appears, so that a batch loop over `translate` does not
   * unfold the rotation.
   */
  ghost predicate Rotates(translate: BatchTranslator, cfg: Config, provider: Provider, fuel: nat) {
    forall text: string, expiry: map<Cell, nat>, sent: nat, now: nat
      {:trigger Rounds(cfg, provider, text, expiry, sent, now, fuel)} ::
      translate(text, expiry, sent, now) == Rounds(cfg, provider, text, expiry, sent, now, fuel)
  }

  lemma RotationOfRotates(cfg: Config, provider: Provider, fuel: nat)
    ensures Rotates(RotationOf(cfg, provider, fuel), cfg, provider, fuel)
  {
  }

  /** How the batch loop ends: all batches done, `translate_batch` gave up, or the merge raised `IndexError`. */
  datatype LoopEnd = Finished | Stopped(outcome: Outcome) | IndexError

  /** What one batch leaves: the loop's end when it ends here, the state, and the progress value saved. */
  datatype Step = Step(end: Option<LoopEnd>, st: LoopState, save: nat)

  /**
   * One iteration of `for i in range(last_done, total, BATCH_SIZE)`: translate
   * the flattened texts of `subs[i:i + BATCH_SIZE]`, merge the kept lines into
   * the document, save the output, then the progress, then pause unless this
   * was the last batch.
   */
  function BatchStep(cfg: Config, translate: BatchTranslator, subs: seq<Cue>, out: string, prog: string,
                     i: nat, st: LoopState): Step
    requires cfg.batchSize > 0 && i < |subs|
  {
    var stop := BatchEnd(i, |subs|, cfg.batchSize);
    var run := translate(Join(Flattened(Texts(subs[i..stop])), '\n'), st.expiry, st.sent, st.now);
    Settle(cfg, |subs|, out, prog, i, stop, st.doc, st.files, run)
  }

  /** What the batch `[i, stop)` does once `translate_batch` has returned `run`. */
  function Settle(cfg: Config, total: nat, out: string, prog: string, i: nat, stop: nat,
                  doc: seq<Cue>, files: Files, run: Run): Step
    requires i <= stop
  {
    var after := LoopState(doc, files, run.expiry, run.sent, run.now);
    if !run.outcome.Done? then Step(Some(Stopped(run.outcome)), after, stop)
    else
      var lines := ResponseLines(run.outcome.text);
      var merged := Merged(doc, i, stop - i, lines);
      if MergeOverflows(|doc|, i, stop - i, lines) then Step(Some(IndexError), after.(doc := merged), stop)
      else
        var saved := files[out := Subtitles(merged)][prog := Progress(stop)];
        var now := if stop < total then run.now + cfg.pauseSeconds else run.now;
        Step(None, LoopState(merged, saved, run.expiry, run.sent, now), stop)
  }

  /** The body of a batch loop: what the batch at an offset does to a state. */
  type Stepper = (nat, LoopState) -> Step

  /**
   * `step` runs `BatchStep` at every offset inside the subtitles. The
   * equation is used wherever a `BatchStep` term appears, so that a loop over
   * `step` does not unfold the batch.
   */
  ghost predicate RunsBatches(step: Stepper, cfg: Config, translate: BatchTranslator, subs: seq<Cue>, out: string, prog: string)
    requires cfg.batchSize > 0
  {
    forall i: nat, st: LoopState {:trigger BatchStep(cfg, translate, subs, out, prog, i, st)} ::
      i < |subs| ==> step(i, st) == BatchStep(cfg, translate, subs, out, prog, i, st)
  }

  lemma StepOfRunsBatches(cfg: Config, translate: BatchTranslator, subs: seq<Cue>, out: string, prog: string)
    requires cfg.batchSize > 0
    ensures RunsBatches(StepOf(cfg, translate, subs, out, prog), cfg, translate, subs, out, prog)
  {
  }

  /** The batch at offset `i` takes the state `st` to `s`. */
  predicate StepGives(step: Stepper, i: nat, st: LoopState, s: Step) {
    step(i, st) == s
  }

  /** The body of the loop of `translate_subtitle`; offsets past the end are never run. */
  function StepOf(cfg: Config, translate: BatchTranslator, subs: seq<Cue>, out: string, prog: string): Stepper
    requires cfg.batchSize > 0
  {
    (i: nat, st: LoopState) =>
      if i < |subs| then BatchStep(cfg, translate, subs, out, prog, i, st) else Step(Some(Finished), st, i)
  }

  /** The loop's end, its final state, and the progress values it saved, in order. */
  datatype Loop = Loop(end: LoopEnd, st: LoopState, saves: seq<nat>)

  /** `for i in range(i, total, batch_size)` running `step`, from offset `i` on. */
  function BatchLoop(step: Stepper, total: nat, batchSize: nat, i: nat, st: LoopState): Loop
    requires batchSize > 0
    decreases total - i
  {
    if i >= total then Loop(Finished, st, [])
    else
      var s := step(i, st);
      if s.end.Some? then Loop(s.end.value, s.st, [])
      else
        var rest := BatchLoop(step, total, batchSize, i + batchSize, s.st);
        Loop(rest.end, rest.st, [s.save] + rest.saves)
  }

  /** The loop from `i` ends where the batch at `i` ends it, or goes on from the next offset behind that batch's save. */
  lemma BatchLoopUnfold(step: Stepper, total: nat, batchSize: nat, i: nat, st: LoopState)
    requires batchSize > 0 && i < total
    ensures var s := step(i, st);
            var r := BatchLoop(step, total, batchSize, i, st);
            && (s.end.Some? ==> r == Loop(s.end.value, s.st, []))
            && (s.end.None? ==> var rest := BatchLoop(step, total, batchSize, i + batchSize, s.st);
                                r == Loop(rest.end, rest.st, [s.save] + rest.saves))
  {
  }

  /**
   * One iteration of a batch loop started at `start`: when the loop from `i`
   * accounts for the rest of it after the progress values `saves`, and the
   * batch at `i` gives `s`, the loop ends with `s` or is accounted for from
   * the next offset on.
   */
  lemma BatchLoopAdvance(step: Stepper, total: nat, batchSize: nat, start: nat, st0: LoopState,
                         i: nat, cur: LoopState, saves: seq<nat>, s: Step)
    requires batchSize > 0 && i < total && StepGives(step, i, cur, s)
    requires var r := BatchLoop(step, total, batchSize, i, cur);
             BatchLoop(step, total, batchSize, start, st0) == Loop(r.end, r.st, saves + r.saves)
    ensures s.end.Some? ==> BatchLoop(step, total, batchSize, start, st0) == Loop(s.end.value, s.st, saves)
    ensures s.end.None? ==>
              var r := BatchLoop(step, total, batchSize, i + batchSize, s.st);
              BatchLoop(step, total, batchSize, start, st0) == Loop(r.end, r.st, (saves + [s.save]) + r.saves)
  {
    BatchLoopUnfold(step, total, batchSize, i, cur);
    if s.end.Some? {
      assert saves + [] == saves;
    } else {
      var r := BatchLoop(step, total, batchSize, i + batchSize, s.st);
      assert saves + ([s.save] + r.saves) == (saves + [s.save]) + r.saves;
    }
  }

  /** Every batch saves the end of its slice and never ends the loop as finished. */
  ghost predicate SavesBatchEnds(step: Stepper, total: nat, batchSize: nat) {
    forall i: nat, st: LoopState :: i < total ==>
      step(i, st).save == BatchEnd(i, total, batchSize) && step(i, st).end != Some(Finished)
  }

  /**
   * The batch at `i` keeps the length of the document and every timing,
   * changes no cue before `i` (and none at all when `translate_batch` gave
   * up), and, when the loop goes on, has saved the
   * document and the progress value and touched no other file; otherwise it
   * has touched no file.
   */
  predicate StepFramed(s: Step, i: nat, st: LoopState, out: string, prog: string) {
    && |s.st.doc| == |st.doc|
    && (forall k :: 0 <= k < |st.doc| ==> s.st.doc[k].timing == st.doc[k].timing)
    && (forall k :: 0 <= k < i && k < |st.doc| ==> s.st.doc[k] == st.doc[k])
    && (s.end.Some? && s.end.value.Stopped? ==> s.st.doc == st.doc)
    && (s.end.None? ==> s.st.files == st.files[out := Subtitles(s.st.doc)][prog := Progress(s.save)])
    && (s.end.Some? ==> s.st.files == st.files)
  }

  ghost predicate KeepsFrame(step: Stepper, total: nat, out: string, prog: string) {
    forall i: nat, st: LoopState :: i < total ==> StepFramed(step(i, st), i, st, out, prog)
  }

  /** A batch saves the end of its slice, and never ends the loop as finished. */
  lemma BatchStepSave(cfg: Config, translate: BatchTranslator, subs: seq<Cue>, out: string, prog: string)
    requires cfg.batchSize > 0
    ensures SavesBatchEnds(StepOf(cfg, translate, subs, out, prog), |subs|, cfg.batchSize)
  {
    var step := StepOf(cfg, translate, subs, out, prog);
    forall i: nat, st: LoopState | i < |subs|
      ensures step(i, st).save == BatchEnd(i, |subs|, cfg.batchSize) && step(i, st).end != Some(Finished)
    {
      assert step(i, st) == BatchStep(cfg, translate, subs, out, prog, i, st);
    }
  }

  /** The frame of one batch of `translate_subtitle`. */
  lemma BatchStepFramed(cfg: Config, translate: BatchTranslator, subs: seq<Cue>, out: string, prog: string,
                        i: nat, st: LoopState)
    requires cfg.batchSize > 0 && i < |subs|
    ensures StepFramed(BatchStep(cfg, translate, subs, out, prog, i, st), i, st, out, prog)
  {
    var stop := BatchEnd(i, |subs|, cfg.batchSize);
    var run: Run := translate(Join(Flattened(Texts(subs[i..stop])), '\n'), st.expiry, st.sent, st.now);
    var s := Settle(cfg, |subs|, out, prog, i, stop, st.doc, st.files, run);
    assert BatchStep(cfg, translate, subs, out, prog, i, st) == s;
    if run.outcome.Done? {
      var doc := Merged(st.doc, i, stop - i, ResponseLines(run.outcome.text));
      MergedFrame(st.doc, i, stop - i, ResponseLines(run.outcome.text));
      assert s.st.doc == doc;
      if s.end.None? {
        assert s.st.files == st.files[out := Subtitles(doc)][prog := Progress(stop)];
      }
    }
  }

  /** Every batch of `translate_subtitle` keeps the frame. */
  lemma BatchStepFrame(cfg: Config, translate: BatchTranslator, subs: seq<Cue>, out: string, prog: string)
    requires cfg.batchSize > 0
    ensures KeepsFrame(StepOf(cfg, translate, subs, out, prog), |subs|, out, prog)
  {
    var step := StepOf(cfg, translate, subs, out, prog);
    forall i: nat, st: LoopState | i < |subs| ensures StepFramed(step(i, st), i, st, out, prog) {
      assert step(i, st) == BatchStep(cfg, translate, subs, out, prog, i, st);
      BatchStepFramed(cfg, translate, subs, out, prog, i, st);
    }
  }

  /**
   * The progress values the loop saves are, in order, the ends of the
   * batches of `range(i, total, BATCH_SIZE)`, cut short when the loop stops
   * early, and all of them when it finishes.
   */
  lemma {:induction false} BatchLoopSaves(step: Stepper, total: nat, batchSize: nat, i: nat, st: LoopState)
    requires batchSize > 0 && SavesBatchEnds(step, total, batchSize)
    ensures var r := BatchLoop(step, total, batchSize, i, st);
            var c := Checkpoints(i, total, batchSize);
            && |r.saves| <= |c| && r.saves == c[..|r.saves|]
            && (r.end == Finished ==> r.saves == c)
    decreases total - i
  {
    if i < total {
      var s := step(i, st);
      if s.end.None? {
        var rest := BatchLoop(step, total, batchSize, i + batchSize, s.st);
        BatchLoopSaves(step, total, batchSize, i + batchSize, s.st);
        CheckpointsPrefixStep(i, total, batchSize, rest.saves);
      }
    }
  }

  /**
   * The loop keeps the length of the document and every timing, and never
   * changes a cue before the offset it starts at.
   */
  lemma {:induction false} BatchLoopDoc(step: Stepper, total: nat, batchSize: nat, out: string, prog: string,
                                        i: nat, st: LoopState)
    requires batchSize > 0 && KeepsFrame(step, total, out, prog)
    ensures var r := BatchLoop(step, total, batchSize, i, st);
            && |r.st.doc| == |st.doc|
            && (forall k :: 0 <= k < |st.doc| ==> r.st.doc[k].timing == st.doc[k].timing)
            && (forall k :: 0 <= k < i && k < |st.doc| ==> r.st.doc[k] == st.doc[k])
    decreases total - i
  {
    if i < total {
      var s := step(i, st);
      assert StepFramed(s, i, st, out, prog);
      if s.end.None? {
        BatchLoopDoc(step, total, batchSize, out, prog, i + batchSize, s.st);
      }
    }
  }

  /**
   * The loop writes only the output and the progress file; once it has saved
   * a batch, the progress file holds the last value saved, and when it
   * finishes, the output holds the final document. A loop that saves nothing
   * touches no file.
   */
  lemma {:induction false} BatchLoopFiles(step: Stepper, total: nat, batchSize: nat, out: string, prog: string,
                                          i: nat, st: LoopState)
    requires batchSize > 0 && out != prog && SavesBatchEnds(step, total, batchSize) && KeepsFrame(step, total, out, prog)
    ensures var r := BatchLoop(step, total, batchSize, i, st);
            && (forall p :: p != out && p != prog ==> (p in r.st.files <==> p in st.files))
            && (forall p :: p != out && p != prog && p in st.files ==> r.st.files[p] == st.files[p])
            && (|r.saves| == 0 ==> r.st.files == st.files)
            && (|r.saves| > 0 ==> prog in r.st.files && r.st.files[prog] == Progress(r.saves[|r.saves| - 1]))
            && (|r.saves| > 0 && r.end == Finished ==> out in r.st.files && r.st.files[out] == Subtitles(r.st.doc))
    decreases total - i
  {
    if i < total {
      var s := step(i, st);
      assert StepFramed(s, i, st, out, prog);
      if s.end.None? {
        var rest := BatchLoop(step, total, batchSize, i + batchSize, s.st);
        BatchLoopFiles(step, total, batchSize, out, prog, i + batchSize, s.st);
        if |rest.saves| == 0 && rest.end == Finished {
          assert rest.st == s.st by {
            BatchLoopFinishedUnsaved(step, total, batchSize, i + batchSize, s.st);
          }
        }
      }
    }
  }

  /**
   * Once the loop has saved a batch, the output holds a document of the
   * final length that agrees with the final one on every cue before the
   * last progress value saved; unless the merge raised, it holds the final
   * document itself.
   */
  lemma {:induction false} BatchLoopOutput(step: Stepper, total: nat, batchSize: nat, out: string, prog: string,
                                           i: nat, st: LoopState)
    requires batchSize > 0 && out != prog && SavesBatchEnds(step, total, batchSize) && KeepsFrame(step, total, out, prog)
    ensures var r := BatchLoop(step, total, batchSize, i, st);
            |r.saves| > 0 ==>
              && out in r.st.files && r.st.files[out].Subtitles?
              && |r.st.files[out].cues| == |r.st.doc|
              && (forall k :: 0 <= k < r.saves[|r.saves| - 1] && k < |r.st.doc| ==>
                    r.st.files[out].cues[k] == r.st.doc[k])
              && (r.end != IndexError ==> r.st.files[out] == Subtitles(r.st.doc))
    decreases total - i
  {
    if i < total {
      var s := step(i, st);
      assert StepFramed(s, i, st, out, prog);
      if s.end.None? {
        var rest := BatchLoop(step, total, batchSize, i + batchSize, s.st);
        BatchLoopOutput(step, total, batchSize, out, prog, i + batchSize, s.st);
        if |rest.saves| == 0 && i + batchSize < total {
          assert StepFramed(step(i + batchSize, s.st), i + batchSize, s.st, out, prog);
        }
      }
    }
  }

  /** A loop whose batches never finish it and that saves nothing finishes only when no batch was left. */
  lemma BatchLoopFinishedUnsaved(step: Stepper, total: nat, batchSize: nat, i: nat, st: LoopState)
    requires batchSize > 0 && SavesBatchEnds(step, total, batchSize)
    ensures var r := BatchLoop(step, total, batchSize, i, st);
            |r.saves| == 0 && r.end == Finished ==> r.st == st
  {
  }

  /** The merge of one batch: `translated[..]` becomes `Merged(doc, i, j, lines)` write by write. */
  lemma MergedStep(doc: seq<Cue>, i: nat, j: nat, lines: seq<string>)
    requires j < |lines| && i + j < |doc|
    ensures Merged(doc, i, j + 1, lines) ==
            Merged(doc, i, j, lines)[i + j := Merged(doc, i, j, lines)[i + j].(text := lines[j])]
  {
  }

  /** Past the last line of the answer the merge writes nothing more. */
  lemma MergedNoLine(doc: seq<Cue>, i: nat, j: nat, lines: seq<string>)
    requires j >= |lines|
    ensures Merged(doc, i, j + 1, lines) == Merged(doc, i, j, lines)
  {
  }

  /** Once a write falls past the end of the document, every later write does too. */
  lemma MergedPastEnd(doc: seq<Cue>, i: nat, j: nat, n: nat, lines: seq<string>)
    requires j <= n && i + j >= |doc|
    ensures Merged(doc, i, n, lines) == Merged(doc, i, j, lines)
  {
  }

  /**
   * `for j, sub in enumerate(batch): if j < len(lines): translated[i + j].text = lines[j]`
   * on the output document, in place. The first write past the end raises
   * `IndexError`; the writes before it stay done.
   */
  method MergeLines(translated: array<Cue>, i: nat, n: nat, lines: seq<string>) returns (overflow: bool)
    modifies translated
    ensures translated[..] == Merged(old(translated[..]), i, n, lines)
    ensures overflow <==> MergeOverflows(translated.Length, i, n, lines)
  {
    ghost var doc := translated[..];
    var j := 0;
    while j < n
      invariant 0 <= j <= n
      invariant translated[..] == Merged(doc, i, j, lines)
      invariant !MergeOverflows(translated.Length, i, j, lines)
    {
      if j < |lines| {
        if i + j >= translated.Length {
          MergedPastEnd(doc, i, j, n, lines);
          return true;
        }
        MergedStep(doc, i, j, lines);
        translated[i + j] := translated[i + j].(text := lines[j]);
      } else {
        MergedNoLine(doc, i, j, lines);
      }
      j := j + 1;
    }
    return false;
  }

  /**
   * The rest of one batch once `translate_batch` has answered: merge the
   * kept lines into `translated` in place, save the output, then the
   * progress, then pause unless this was the last batch.
   */
  method SettleBatch(cfg: Config, disk: Disk, translated: array<Cue>, total: nat, out: string, prog: string,
                     i: nat, stop: nat, run: Run)
    returns (end: Option<LoopEnd>, now': nat)
    requires i <= stop
    modifies disk, translated
    ensures Settle(cfg, total, out, prog, i, stop, old(translated[..]), old(disk.files), run) ==
            Step(end, LoopState(translated[..], disk.files, run.expiry, run.sent, now'), stop)
  {
    now' := run.now;
    if !run.outcome.Done? {
      return Some(Stopped(run.outcome)), now';
    }
    ghost var doc, files := translated[..], disk.files;
    var lines := ResponseLines(run.outcome.text);
    var overflow := MergeLines(translated, i, stop - i, lines);
    ghost var merged := translated[..];
    assert merged == Merged(doc, i, stop - i, lines);
    if overflow {
      assert disk.files == files;
      SettleOverflows(cfg, total, out, prog, i, stop, doc, files, run, merged);
      return Some(IndexError), now';
    }
    disk.Save(out, Subtitles(translated[..]));
    disk.Save(prog, Progress(stop));
    assert translated[..] == merged;
    if stop < total {
      now' := now' + cfg.pauseSeconds;
    }
    end := None;
    SettleSaves(cfg, total, out, prog, i, stop, doc, files, run, merged);
  }

  /** A batch whose merge overflows stops the loop with `IndexError`, its earlier writes kept and no file written. */
  lemma SettleOverflows(cfg: Config, total: nat, out: string, prog: string, i: nat, stop: nat,
                        doc: seq<Cue>, files: Files, run: Run, merged: seq<Cue>)
    requires i <= stop && run.outcome.Done?
    requires merged == Merged(doc, i, stop - i, ResponseLines(run.outcome.text))
    requires MergeOverflows(|doc|, i, stop - i, ResponseLines(run.outcome.text))
    ensures Settle(cfg, total, out, prog, i, stop, doc, files, run) ==
            Step(Some(IndexError), LoopState(merged, files, run.expiry, run.sent, run.now), stop)
  {
  }

  /** A batch whose merge fits saves the merged document, then the progress, then pauses unless it was the last. */
  lemma SettleSaves(cfg: Config, total: nat, out: string, prog: string, i: nat, stop: nat,
                    doc: seq<Cue>, files: Files, run: Run, merged: seq<Cue>)
    requires i <= stop && run.outcome.Done?
    requires merged == Merged(doc, i, stop - i, ResponseLines(run.outcome.text))
    requires !MergeOverflows(|doc|, i, stop - i, ResponseLines(run.outcome.text))
    ensures Settle(cfg, total, out, prog, i, stop, doc, files, run) ==
            Step(None, LoopState(merged, files[out := Subtitles(merged)][prog := Progress(stop)], run.expiry, run.sent,
                                 if stop < total then run.now + cfg.pauseSeconds else run.now), stop)
  {
  }

  /**
   * One batch of `translate_subtitle`: `translated` is the output document,
   * updated in place; `disk` receives the output, then the progress.
   */
  method RunBatch(cfg: Config, disk: Disk, table: CooldownTable, provider: Provider,
                  ghost translate: BatchTranslator, ghost step: Stepper,
                  subs: seq<Cue>, translated: array<Cue>, out: string, prog: string, i: nat, sent: nat, now: nat, fuel: nat)
    returns (end: Option<LoopEnd>, sent': nat, now': nat, stop: nat)
    requires cfg.batchSize > 0 && i < |subs| && table.cooldownSeconds == cfg.cooldownSeconds
    requires Rotates(translate, cfg, provider, fuel) && RunsBatches(step, cfg, translate, subs, out, prog)
    modifies disk, table, translated
    ensures StepGives(step,
                      i, LoopState(old(translated[..]), old(disk.files), old(table.expiry), sent, now),
                      Step(end, LoopState(translated[..], disk.files, table.expiry, sent', now'), stop))
  {
    ghost var st := LoopState(translated[..], disk.files, table.expiry, sent, now);
    stop := Min(i + cfg.batchSize, |subs|);
    var texts := Flattened(Texts(subs[i..stop]));
    var outcome;
    outcome, sent', now' := TranslateBatch(texts, cfg, table, provider, sent, now, fuel);
    var run := Run(outcome, table.expiry, sent', now');
    assert translate(Join(texts, '\n'), st.expiry, sent, now) == run;
    assert BatchStep(cfg, translate, subs, out, prog, i, st) == Settle(cfg, |subs|, out, prog, i, stop, st.doc, st.files, run);
    end, now' := SettleBatch(cfg, disk, translated, |subs|, out, prog, i, stop, run);
  }

  /** `for i in range(last_done, total, BATCH_SIZE)`, with the saved progress values as a ghost record. */
  method RunBatches(cfg: Config, disk: Disk, table: CooldownTable, provider: Provider,
                    ghost translate: BatchTranslator, ghost step: Stepper, subs: seq<Cue>,
                    translated: array<Cue>, out: string, prog: string, start: nat, sent: nat, now: nat, fuel: nat)
    returns (end: LoopEnd, sent': nat, now': nat, ghost saves: seq<nat>)
    requires cfg.batchSize > 0 && table.cooldownSeconds == cfg.cooldownSeconds
    requires Rotates(translate, cfg, provider, fuel) && RunsBatches(step, cfg, translate, subs, out, prog)
    modifies disk, table, translated
    ensures BatchLoop(step, |subs|, cfg.batchSize, start,
                      LoopState(old(translated[..]), old(disk.files), old(table.expiry), sent, now)) ==
            Loop(end, LoopState(translated[..], disk.files, table.expiry, sent', now'), saves)
  {
    ghost var st0 := LoopState(translated[..], disk.files, table.expiry, sent, now);
    sent', now' := sent, now;
    saves := [];
    var i := start;
    while i < |subs|
      invariant var r := BatchLoop(step, |subs|, cfg.batchSize, i,
                                   LoopState(translated[..], disk.files, table.expiry, sent', now'));
                BatchLoop(step, |subs|, cfg.batchSize, start, st0) == Loop(r.end, r.st, saves + r.saves)
      decreases |subs| - i
    {
      ghost var cur := LoopState(translated[..], disk.files, table.expiry, sent', now');
      var batchEnd, stop;
      batchEnd, sent', now', stop :=
        RunBatch(cfg, disk, table, provider, translate, step, subs, translated, out, prog, i, sent', now', fuel);
      ghost var next := LoopState(translated[..], disk.files, table.expiry, sent', now');
      BatchLoopAdvance(step, |subs|, cfg.batchSize, start, st0, i, cur, saves, Step(batchEnd, next, stop));
      if batchEnd.Some? {
        end := batchEnd.value;
        return;
      }
      saves := saves + [stop];
      i := i + cfg.batchSize;
    }
    assert saves + [] == saves;
    end := Finished;
  }

  // ---------------------------------------------------------------------------
  // translate_subtitle
  // ---------------------------------------------------------------------------

  /**
   * What `translate_subtitle` returns ("completed", "already_done",
   * "no_source", "error"), or how the process stops inside it:
   * `sys.exit(1)`, the bound on rounds, or an uncaught exception.
   */
  datatype Status = Completed | AlreadyDone | NoSource | SourceError | Exited | Interrupted | Crashed

  datatype Translation = Translation(status: Status, files: Files, expiry: map<Cell, nat>, sent: nat, now: nat)

  function OutputPath(base: string): string { base + ".fr.srt" }
  function ProgressPath(base: string): string { base + ".fr.progress.json" }

  /**
   * The resume check finds the translation finished: the output exists, and
   * either there is no progress file, or both read and the saved index has
   * reached the output's length.
   */
  predicate AlreadyTranslated(files: Files, base: string) {
    var out, prog := OutputPath(base), ProgressPath(base);
    && out in files
    && (prog !in files ||
        (Open(files, out).Some? && LoadProgress(files, prog).Some? &&
         LoadProgress(files, prog).value >= |Open(files, out).value|))
  }

  /** `delete_progress(progress_path)` then `delete_extracted_subtitle(base)`. */
  function CleanedUp(files: Files, base: string): Files {
    WithoutExtracted(files - {ProgressPath(base)}, base)
  }

  /** `translate_subtitle(video_path)`, as the specification of `TranslateSubtitle`. */
  function TranslationOf(cfg: Config, provider: Provider, video: string, files: Files,
                         expiry: map<Cell, nat>, sent: nat, now: nat, fuel: nat): Translation
  {
    var base := SplitExt(video).0;
    var out, prog := OutputPath(base), ProgressPath(base);
    if out in files && prog !in files then Translation(AlreadyDone, files, expiry, sent, now)
    else if AlreadyTranslated(files, base) then Translation(AlreadyDone, CleanedUp(files, base), expiry, sent, now)
    else FromSource(cfg, provider, base, files, expiry, sent, now, fuel)
  }

  /** The part of `translate_subtitle` after the resume check: find and read the source, then run the batches. */
  function FromSource(cfg: Config, provider: Provider, base: string, files: Files,
                      expiry: map<Cell, nat>, sent: nat, now: nat, fuel: nat): Translation
  {
    var out, prog := OutputPath(base), ProgressPath(base);
    match FindEnglishSubtitle(files.Keys, base)
    case None => Translation(NoSource, files, expiry, sent, now)
    case Some(source) =>
      match Open(files, source)
      case None => Translation(SourceError, files, expiry, sent, now)
      case Some(subs) =>
        var last := LoadProgress(files, prog);
        var doc := if out in files then Open(files, out) else Some(subs);
        if last.None? || doc.None? || cfg.batchSize == 0 then Translation(Crashed, files, expiry, sent, now)
        else
          Concluded(BatchLoop(StepOf(cfg, RotationOf(cfg, provider, fuel), subs, out, prog), |subs|, cfg.batchSize,
                              last.value, LoopState(doc.value, files, expiry, sent, now)), base)
  }

  /** How the run ends once the batch loop has: cleaned up when it finished, as it was left otherwise. */
  function Concluded(r: Loop, base: string): Translation {
    match r.end
    case Finished => Translation(Completed, CleanedUp(r.st.files, base), r.st.expiry, r.st.sent, r.st.now)
    case Stopped(o) => Translation(if o == Exhausted then Exited else Interrupted, r.st.files, r.st.expiry, r.st.sent, r.st.now)
    case IndexError => Translation(Crashed, r.st.files, r.st.expiry, r.st.sent, r.st.now)
  }

  /** `translate_subtitle(video_path)` */
  method TranslateSubtitle(cfg: Config, disk: Disk, table: CooldownTable, provider: Provider, video: string,
                           sent: nat, now: nat, fuel: nat)
    returns (status: Status, sent': nat, now': nat)
    requires table.cooldownSeconds == cfg.cooldownSeconds
    modifies disk, table
    ensures Translation(status, disk.files, table.expiry, sent', now') ==
            TranslationOf(cfg, provider, video, old(disk.files), old(table.expiry), sent, now, fuel)
  {
    var base := SplitExt(video).0;
    var out, prog := OutputPath(base), ProgressPath(base);
    ghost var files, expiry := disk.files, table.expiry;
    sent', now' := sent, now;
    if disk.Exists(out) {
      if !disk.Exists(prog) {
        return AlreadyDone, sent', now';
      }
      var check := Open(disk.files, out);
      var lastIndex := LoadProgress(disk.files, prog);
      if check.Some? && lastIndex.Some? && lastIndex.value >= |check.value| {
        disk.DeleteProgress(prog);
        var removed := disk.DeleteExtractedSubtitle(base);
        return AlreadyDone, sent', now';
      }
    }
    assert TranslationOf(cfg, provider, video, files, expiry, sent, now, fuel) ==
           FromSource(cfg, provider, base, files, expiry, sent, now, fuel);
    var source := FindEnglishSubtitle(disk.files.Keys, base);
    if source.None? {
      return NoSource, sent', now';
    }
    var read := Open(disk.files, source.value);
    if read.None? {
      return SourceError, sent', now';
    }
    var subs := read.value;
    var last := LoadProgress(disk.files, prog);
    var doc := if disk.Exists(out) then Open(disk.files, out) else Some(subs);
    if last.None? || doc.None? || cfg.batchSize == 0 {
      return Crashed, sent', now';
    }
    var cues := doc.value;
    var translated := new Cue[|cues|](k requires 0 <= k < |cues| => cues[k]);
    assert translated[..] == cues;
    var end;
    ghost var saves;
    RotationOfRotates(cfg, provider, fuel);
    StepOfRunsBatches(cfg, RotationOf(cfg, provider, fuel), subs, out, prog);
    end, sent', now', saves := RunBatches(cfg, disk, table, provider, RotationOf(cfg, provider, fuel),
                                          StepOf(cfg, RotationOf(cfg, provider, fuel), subs, out, prog),
                                          subs, translated, out, prog, last.value, sent, now, fuel);
    ghost var r := Loop(end, LoopState(translated[..], disk.files, table.expiry, sent', now'), saves);
    assert FromSource(cfg, provider, base, files, expiry, sent, now, fuel) == Concluded(r, base);
    match end {
      case Finished =>
        disk.DeleteProgress(prog);
        var removed := disk.DeleteExtractedSubtitle(base);
        status := Completed;
      case Stopped(o) =>
        status := if o == Exhausted then Exited else Interrupted;
      case IndexError =>
        status := Crashed;
    }
  }

  // ---------------------------------------------------------------------------
  // Properties of translate_subtitle
  // ---------------------------------------------------------------------------

  /** The output and the progress file are two different files, and neither is an extracted subtitle. */
  lemma OwnPathsDistinct(base: string)
    ensures OutputPath(base) != ProgressPath(base)
    ensures OutputPath(base) !in ExtractedCandidates(base) && ProgressPath(base) !in ExtractedCandidates(base)
  {
    assert OutputPath(base)[|base| + 4] == 's';
    assert ProgressPath(base)[|base| + 4] == 'p';
    var x := ExtractedCandidates(base);
    forall j | 0 <= j < |x| ensures x[j] != OutputPath(base) && x[j] != ProgressPath(base) {
      assert x[j][|base| + 1] == 'e';
      assert OutputPath(base)[|base| + 1] == 'f';
      assert ProgressPath(base)[|base| + 1] == 'f';
    }
  }

  /** Neither the output nor the progress file is ever taken for the English source. */
  lemma OwnPathsNotEnglish(base: string)
    ensures OutputPath(base) !in EnglishCandidates(base) && ProgressPath(base) !in EnglishCandidates(base)
  {
    OwnPathsDistinct(base);
    var out, prog := OutputPath(base), ProgressPath(base);
    assert out[|base| + 1] == 'f' && prog[|base| + 1] == 'f';
    forall p | p == out || p == prog
      ensures p !in Candidates(base, EnglishCodes, SubtitleExtensions)
    {
      CandidatesMembership(base, EnglishCodes, SubtitleExtensions, p);
    }
    var bare := BareCandidates(base, SubtitleExtensions);
    forall j | 0 <= j < |bare| ensures bare[j] != out && bare[j] != prog {
      assert |bare[j]| == |base| + 4;
    }
  }

  /**
   * Files that differ at most in the output and the progress file lead to the
   * same English source, read the same way.
   */
  lemma SourceUnchanged(files: Files, files': Files, base: string)
    requires forall p :: p != OutputPath(base) && p != ProgressPath(base) ==> (p in files' <==> p in files)
    requires forall p :: p != OutputPath(base) && p != ProgressPath(base) && p in files ==> files'[p] == files[p]
    ensures var source := FindEnglishSubtitle(files.Keys, base);
            && FindEnglishSubtitle(files'.Keys, base) == source
            && (source.Some? ==> Open(files', source.value) == Open(files, source.value))
  {
    var c := EnglishCandidates(base);
    OwnPathsNotEnglish(base);
    forall j | 0 <= j < |c| ensures c[j] in files.Keys <==> c[j] in files'.Keys {
      assert c[j] != OutputPath(base) && c[j] != ProgressPath(base);
    }
    FirstExistingAgrees(files.Keys, files'.Keys, c);
  }

  /** The clean-up removes the progress file and at most one extracted subtitle, and keeps every other file. */
  lemma CleanedUpFrame(files: Files, base: string)
    ensures var c := CleanedUp(files, base);
            && ProgressPath(base) !in c
            && c.Keys <= files.Keys
            && (forall p :: p in c ==> c[p] == files[p])
            && (forall p :: p in files && p != ProgressPath(base) && p !in ExtractedCandidates(base) ==> p in c)
  {
    var rest := files - {ProgressPath(base)};
    match FirstExisting(rest.Keys, ExtractedCandidates(base))
    case None =>
    case Some(v) =>
      assert v in ExtractedCandidates(base);
  }

  /**
   * `translate_subtitle` answers "already_done" exactly when the resume check
   * finds the translation finished. With "already_done", "no_source" and
   * "error" it sends no request and waits for nothing; with the last two it
   * touches no file.
   */
  lemma TranslationWithoutCalls(cfg: Config, provider: Provider, video: string, files: Files,
                                expiry: map<Cell, nat>, sent: nat, now: nat, fuel: nat)
    ensures var t := TranslationOf(cfg, provider, video, files, expiry, sent, now, fuel);
            && (t.status == AlreadyDone <==> AlreadyTranslated(files, SplitExt(video).0))
            && (t.status == AlreadyDone || t.status == NoSource || t.status == SourceError ==>
                  t.sent == sent && t.now == now && t.expiry == expiry)
            && (t.status == NoSource || t.status == SourceError ==> t.files == files)
  {
    var base := SplitExt(video).0;
    var t := TranslationOf(cfg, provider, video, files, expiry, sent, now, fuel);
    if !AlreadyTranslated(files, base) {
      var f := FromSource(cfg, provider, base, files, expiry, sent, now, fuel);
      assert t == f;
      ConcludedStatus(f, cfg, provider, base, files, expiry, sent, now, fuel);
    }
  }

  /** Past the resume check, "already_done", "no_source" and "error" come only from a missing or unreadable source. */
  lemma ConcludedStatus(f: Translation, cfg: Config, provider: Provider, base: string, files: Files,
                        expiry: map<Cell, nat>, sent: nat, now: nat, fuel: nat)
    requires f == FromSource(cfg, provider, base, files, expiry, sent, now, fuel)
    ensures f.status != AlreadyDone
    ensures f.status == NoSource || f.status == SourceError ==>
              f == Translation(f.status, files, expiry, sent, now)
    ensures f.status == Completed ==> exists fs :: f.files == CleanedUp(fs, base)
  {
    var out, prog := OutputPath(base), ProgressPath(base);
    match FindEnglishSubtitle(files.Keys, base)
    case None =>
    case Some(source) =>
      match Open(files, source)
      case None =>
      case Some(subs) =>
        var last := LoadProgress(files, prog);
        var doc := if out in files then Open(files, out) else Some(subs);
        if !(last.None? || doc.None? || cfg.batchSize == 0) {
          var r := BatchLoop(StepOf(cfg, RotationOf(cfg, provider, fuel), subs, out, prog), |subs|, cfg.batchSize,
                             last.value, LoopState(doc.value, files, expiry, sent, now));
          assert f == Concluded(r, base);
          if f.status == Completed {
            assert f.files == CleanedUp(r.st.files, base);
          }
        }
  }

  /** After "completed" the progress file is gone. */
  lemma CompletedRemovesProgress(cfg: Config, provider: Provider, video: string, files: Files,
                                 expiry: map<Cell, nat>, sent: nat, now: nat, fuel: nat)
    ensures var t := TranslationOf(cfg, provider, video, files, expiry, sent, now, fuel);
            t.status == Completed ==> ProgressPath(SplitExt(video).0) !in t.files
  {
    var base := SplitExt(video).0;
    var t := TranslationOf(cfg, provider, video, files, expiry, sent, now, fuel);
    if t.status == Completed {
      TranslationWithoutCalls(cfg, provider, video, files, expiry, sent, now, fuel);
      var f := FromSource(cfg, provider, base, files, expiry, sent, now, fuel);
      assert t == f;
      ConcludedStatus(f, cfg, provider, base, files, expiry, sent, now, fuel);
      var fs :| f.files == CleanedUp(fs, base);
      CleanedUpFrame(fs, base);
    }
  }

  /**
   * Running `translate_subtitle` again after it completed, with the output in
   * place, answers "already_done" without a request, a pause or a change.
   */
  lemma RerunAfterCompleted(cfg: Config, provider: Provider, video: string, files: Files,
                            expiry: map<Cell, nat>, sent: nat, now: nat, fuel: nat,
                            cfg': Config, provider': Provider, fuel': nat)
    requires var t := TranslationOf(cfg, provider, video, files, expiry, sent, now, fuel);
             t.status == Completed && OutputPath(SplitExt(video).0) in t.files
    ensures var t := TranslationOf(cfg, provider, video, files, expiry, sent, now, fuel);
            TranslationOf(cfg', provider', video, t.files, t.expiry, t.sent, t.now, fuel') ==
            Translation(AlreadyDone, t.files, t.expiry, t.sent, t.now)
  {
    CompletedRemovesProgress(cfg, provider, video, files, expiry, sent, now, fuel);
  }

  /**
   * Past the resume check, with the source read, the progress loaded and the
   * document opened, `translate_subtitle` is the batch loop from the loaded
   * progress value, concluded.
   */
  lemma PastResumeCheck(cfg: Config, provider: Provider, video: string, files: Files,
                        expiry: map<Cell, nat>, sent: nat, now: nat, fuel: nat,
                        subs: seq<Cue>, last: nat, doc: seq<Cue>)
    requires var base := SplitExt(video).0;
             && !AlreadyTranslated(files, base)
             && FindEnglishSubtitle(files.Keys, base).Some?
             && Open(files, FindEnglishSubtitle(files.Keys, base).value) == Some(subs)
             && LoadProgress(files, ProgressPath(base)) == Some(last)
             && (if OutputPath(base) in files then Open(files, OutputPath(base)) else Some(subs)) == Some(doc)
             && cfg.batchSize > 0
    ensures var base := SplitExt(video).0;
            var out, prog := OutputPath(base), ProgressPath(base);
            TranslationOf(cfg, provider, video, files, expiry, sent, now, fuel) ==
            Concluded(BatchLoop(StepOf(cfg, RotationOf(cfg, provider, fuel), subs, out, prog), |subs|, cfg.batchSize,
                                last, LoopState(doc, files, expiry, sent, now)), base)
  {
    var base := SplitExt(video).0;
    assert TranslationOf(cfg, provider, video, files, expiry, sent, now, fuel) ==
           FromSource(cfg, provider, base, files, expiry, sent, now, fuel);
  }

  /**
   * After the loop of `translate_subtitle` has saved a batch and then given
   * up, the output reads as the document it held, the progress file as the
   * last value saved, and every other file is as it was.
   */
  lemma StoppedLoopFiles(cfg: Config, translate: BatchTranslator, subs: seq<Cue>, out: string, prog: string,
                         i: nat, st: LoopState)
    requires cfg.batchSize > 0 && out != prog
    ensures var r := BatchLoop(StepOf(cfg, translate, subs, out, prog), |subs|, cfg.batchSize, i, st);
            r.end.Stopped? && |r.saves| > 0 ==>
              && out in r.st.files && r.st.files[out] == Subtitles(r.st.doc)
              && prog in r.st.files && r.st.files[prog] == Progress(r.saves[|r.saves| - 1])
              && (forall p :: p != out && p != prog ==> (p in r.st.files <==> p in st.files))
              && (forall p :: p != out && p != prog && p in st.files ==> r.st.files[p] == st.files[p])
  {
    var step := StepOf(cfg, translate, subs, out, prog);
    BatchStepSave(cfg, translate, subs, out, prog);
    BatchStepFrame(cfg, translate, subs, out, prog);
    BatchLoopFiles(step, |subs|, cfg.batchSize, out, prog, i, st);
    BatchLoopOutput(step, |subs|, cfg.batchSize, out, prog, i, st);
  }

  /**
   * A run on files that differ from `files` only in a saved output and a
   * progress value below its length reads the same source and runs the batch
   * loop from that value on the saved document.
   */
  lemma ResumeFromSaved(cfg: Config, provider: Provider, video: string, files: Files, files': Files,
                        expiry: map<Cell, nat>, sent: nat, now: nat, fuel: nat,
                        subs: seq<Cue>, n: nat, doc: seq<Cue>)
    requires var base := SplitExt(video).0;
             var out, prog := OutputPath(base), ProgressPath(base);
             && FindEnglishSubtitle(files.Keys, base).Some?
             && Open(files, FindEnglishSubtitle(files.Keys, base).value) == Some(subs)
             && (forall p :: p != out && p != prog ==> (p in files' <==> p in files))
             && (forall p :: p != out && p != prog && p in files ==> files'[p] == files[p])
             && out in files' && files'[out] == Subtitles(doc)
             && prog in files' && files'[prog] == Progress(n) && n < |doc|
             && cfg.batchSize > 0
    ensures var base := SplitExt(video).0;
            var out, prog := OutputPath(base), ProgressPath(base);
            TranslationOf(cfg, provider, video, files', expiry, sent, now, fuel) ==
            Concluded(BatchLoop(StepOf(cfg, RotationOf(cfg, provider, fuel), subs, out, prog), |subs|, cfg.batchSize,
                                n, LoopState(doc, files', expiry, sent, now)), base)
  {
    var base := SplitExt(video).0;
    assert !AlreadyTranslated(files', base);
    SourceUnchanged(files, files', base);
    PastResumeCheck(cfg, provider, video, files', expiry, sent, now, fuel, subs, n, doc);
  }

  /**
   * When a run gets past the resume check (so that, by `PastResumeCheck`, it
   * is the loop `r` concluded) and stops because `translate_batch` gave up
   * after saving a batch that left cues to do, it leaves the files of `r`,
   * and a later run on them does not answer "already_done": it reloads the
   * document the first run held when it stopped and goes on from the last
   * progress value saved, the offset of the batch that gave up.
   */
  lemma RerunAfterStop(cfg: Config, provider: Provider, video: string, files: Files,
                       expiry: map<Cell, nat>, sent: nat, now: nat, fuel: nat,
                       subs: seq<Cue>, last: nat, doc: seq<Cue>,
                       provider': Provider, expiry': map<Cell, nat>, sent': nat, now': nat, fuel': nat)
    requires var base := SplitExt(video).0;
             && !AlreadyTranslated(files, base)
             && FindEnglishSubtitle(files.Keys, base).Some?
             && Open(files, FindEnglishSubtitle(files.Keys, base).value) == Some(subs)
             && LoadProgress(files, ProgressPath(base)) == Some(last)
             && (if OutputPath(base) in files then Open(files, OutputPath(base)) else Some(subs)) == Some(doc)
             && cfg.batchSize > 0
    ensures var base := SplitExt(video).0;
            var out, prog := OutputPath(base), ProgressPath(base);
            var r := BatchLoop(StepOf(cfg, RotationOf(cfg, provider, fuel), subs, out, prog), |subs|, cfg.batchSize,
                               last, LoopState(doc, files, expiry, sent, now));
            r.end.Stopped? && |r.saves| > 0 && r.saves[|r.saves| - 1] < |r.st.doc| ==>
              TranslationOf(cfg, provider', video, r.st.files, expiry', sent', now', fuel') ==
              Concluded(BatchLoop(StepOf(cfg, RotationOf(cfg, provider', fuel'), subs, out, prog), |subs|,
                                  cfg.batchSize, r.saves[|r.saves| - 1],
                                  LoopState(r.st.doc, r.st.files, expiry', sent', now')), base)
  {
    var base := SplitExt(video).0;
    var out, prog := OutputPath(base), ProgressPath(base);
    var step := StepOf(cfg, RotationOf(cfg, provider, fuel), subs, out, prog);
    var r := BatchLoop(step, |subs|, cfg.batchSize, last, LoopState(doc, files, expiry, sent, now));
    if r.end.Stopped? && |r.saves| > 0 && r.saves[|r.saves| - 1] < |r.st.doc| {
      var n := r.saves[|r.saves| - 1];
      OwnPathsDistinct(base);
      StoppedLoopFiles(cfg, RotationOf(cfg, provider, fuel), subs, out, prog, last, LoopState(doc, files, expiry, sent, now));
      ResumeFromSaved(cfg, provider', video, files, r.st.files, expiry', sent', now', fuel', subs, n, r.st.doc);
    }
  }
}
