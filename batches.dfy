/**
 * The batch arithmetic of `translate_subtitle` in
 * translator/translate_srt_gemini.py: the offsets `range(last_done, total,
 * BATCH_SIZE)`, the progress value saved after each batch, the request text
 * built from a batch, the lines kept from the answer, and the positional
 * merge of those lines into the output document.
 */
module Batches {
  import opened Text

  function Min(a: int, b: int): int {
    if a <= b then a else b
  }

  /** Python's `range(start, stop, step)` for a positive step. */
  function Range(start: nat, stop: nat, step: nat): seq<nat>
    requires step > 0
    decreases stop - start
  {
    if start >= stop then [] else [start] + Range(start + step, stop, step)
  }

  /** `range(start, stop, step)` lists `start + k * step` for every k that stays below `stop`, and no more. */
  lemma {:induction false} RangeMeans(start: nat, stop: nat, step: nat)
    requires step > 0
    ensures forall k :: 0 <= k < |Range(start, stop, step)| ==>
              Range(start, stop, step)[k] == start + k * step && Range(start, stop, step)[k] < stop
    ensures start + |Range(start, stop, step)| * step >= stop
    decreases stop - start
  {
    if start < stop {
      var r := Range(start, stop, step);
      var rest := Range(start + step, stop, step);
      RangeMeans(start + step, stop, step);
      assert r == [start] + rest;
      forall k | 1 <= k < |r|
        ensures r[k] == start + k * step && r[k] < stop
      {
        assert r[k] == rest[k - 1];
        StepAfter(k - 1, step);
      }
      StepAfter(|rest|, step);
    }
  }

  lemma StepAfter(k: nat, step: nat)
    ensures (k + 1) * step == k * step + step
  {
  }

  /**
   * The progress value saved after the batch at offset `i`:
   * `i + len(subs[i:i + BATCH_SIZE])`, the slice being cut at `total`.
   */
  function BatchEnd(i: nat, total: nat, step: nat): nat {
    Min(i + step, total)
  }

  /** The progress values saved by the batches that start at `start`, in order. */
  function Checkpoints(start: nat, stop: nat, step: nat): seq<nat>
    requires step > 0
    decreases stop - start
  {
    if start >= stop then []
    else [BatchEnd(start, stop, step)] + Checkpoints(start + step, stop, step)
  }

  /** The k-th saved value ends the k-th batch of `range(start, stop, step)`. */
  lemma {:induction false} CheckpointsOfRange(start: nat, stop: nat, step: nat)
    requires step > 0
    ensures |Checkpoints(start, stop, step)| == |Range(start, stop, step)|
    ensures forall k :: 0 <= k < |Range(start, stop, step)| ==>
              Checkpoints(start, stop, step)[k] == BatchEnd(Range(start, stop, step)[k], stop, step)
    decreases stop - start
  {
    if start < stop {
      CheckpointsOfRange(start + step, stop, step);
    }
  }

  /** Every saved value lies in (start, stop]: a batch is never empty and never runs past the end. */
  lemma {:induction false} CheckpointsBounds(start: nat, stop: nat, step: nat)
    requires step > 0
    ensures forall k :: 0 <= k < |Checkpoints(start, stop, step)| ==>
              start < Checkpoints(start, stop, step)[k] <= stop
    decreases stop - start
  {
    if start < stop {
      CheckpointsBounds(start + step, stop, step);
    }
  }

  /** Each saved value is strictly greater than the one saved before it. */
  lemma {:induction false} CheckpointsIncreasing(start: nat, stop: nat, step: nat)
    requires step > 0
    ensures forall a, b :: 0 <= a < b < |Checkpoints(start, stop, step)| ==>
              Checkpoints(start, stop, step)[a] < Checkpoints(start, stop, step)[b]
    decreases stop - start
  {
    if start < stop {
      var rest := Checkpoints(start + step, stop, step);
      CheckpointsIncreasing(start + step, stop, step);
      CheckpointsBounds(start + step, stop, step);
      assert forall b :: 0 <= b < |rest| ==> BatchEnd(start, stop, step) <= start + step < rest[b];
    }
  }

  /** A prefix of the values saved from the next offset, behind this batch's value, is a prefix of the values saved from here. */
  lemma CheckpointsPrefixStep(start: nat, stop: nat, step: nat, a: seq<nat>)
    requires step > 0 && start < stop
    requires |a| <= |Checkpoints(start + step, stop, step)| && a == Checkpoints(start + step, stop, step)[..|a|]
    ensures [BatchEnd(start, stop, step)] + a == Checkpoints(start, stop, step)[..|a| + 1]
  {
  }

  /** When there is something left to translate, the last value saved is `total`. */
  lemma {:induction false} CheckpointsLast(start: nat, stop: nat, step: nat)
    requires step > 0 && start < stop
    ensures |Checkpoints(start, stop, step)| > 0
    ensures Checkpoints(start, stop, step)[|Checkpoints(start, stop, step)| - 1] == stop
    decreases stop - start
  {
    var rest := Checkpoints(start + step, stop, step);
    assert Checkpoints(start, stop, step) == [BatchEnd(start, stop, step)] + rest;
    if start + step < stop {
      CheckpointsLast(start + step, stop, step);
      assert Checkpoints(start, stop, step)[|rest|] == rest[|rest| - 1];
    } else {
      assert rest == [];
    }
  }

  /** 120 cues in batches of 50 from the beginning save 50, then 100, then 120. */
  lemma CheckpointsExample()
    ensures Checkpoints(0, 120, 50) == [50, 100, 120]
  {
    assert Checkpoints(100, 120, 50) == [120];
    assert Checkpoints(50, 120, 50) == [100, 120];
  }

  // ---------------------------------------------------------------------------
  // Request and answer
  // ---------------------------------------------------------------------------

  /** `[s.text.replace("\n", " ") for s in batch]` */
  function Flattened(texts: seq<string>): (r: seq<string>)
    ensures |r| == |texts| && forall k :: 0 <= k < |r| ==> '\n' !in r[k]
  {
    seq(|texts|, k requires 0 <= k < |texts| => FlattenLines(texts[k]))
  }

  /** The text `translate_batch` sends: the flattened cue texts, one per line. */
  function BatchRequest(texts: seq<string>): string {
    Join(Flattened(texts), '\n')
  }

  /** The request holds exactly one line per cue, in order: the k-th line is the k-th cue. */
  lemma BatchRequestLines(texts: seq<string>)
    requires |texts| >= 1
    ensures Split(BatchRequest(texts), '\n') == Flattened(texts)
  {
    SplitJoin(Flattened(texts), '\n');
  }

  /** `[l.strip() for l in ls if l.strip()]` */
  function Kept(ls: seq<string>): seq<string>
    decreases |ls|
  {
    if ls == [] then []
    else
      var l := Strip(ls[0]);
      (if l != "" then [l] else []) + Kept(ls[1..])
  }

  /** At most one kept line per line, and every kept line is non-blank and already stripped. */
  lemma {:induction false} KeptMeans(ls: seq<string>)
    ensures |Kept(ls)| <= |ls|
    ensures forall k :: 0 <= k < |Kept(ls)| ==> Kept(ls)[k] != "" && Strip(Kept(ls)[k]) == Kept(ls)[k]
    decreases |ls|
  {
    if ls != [] {
      var l, rest := Strip(ls[0]), Kept(ls[1..]);
      KeptMeans(ls[1..]);
      if l == "" {
        assert Kept(ls) == [] + rest == rest;
      } else {
        assert Kept(ls) == [l] + rest;
        assert Strip(l) == l by {
          StripIdempotent(ls[0]);
        }
        forall k | 1 <= k < |Kept(ls)|
          ensures Kept(ls)[k] != "" && Strip(Kept(ls)[k]) == Kept(ls)[k]
        {
          assert Kept(ls)[k] == rest[k - 1];
        }
      }
    }
  }

  /** The lines of the answer that the merge uses: trimmed, blank ones dropped. */
  function ResponseLines(answer: string): seq<string> {
    Kept(Split(answer, '\n'))
  }

  /** Lines that are already stripped and non-blank are all kept, unchanged. */
  lemma {:induction false} KeptClean(ls: seq<string>)
    requires forall k :: 0 <= k < |ls| ==> ls[k] != "" && Strip(ls[k]) == ls[k]
    ensures Kept(ls) == ls
    decreases |ls|
  {
    if ls != [] {
      KeptClean(ls[1..]);
    }
  }

  /**
   * An answer that gives one stripped, non-blank line per cue is read back
   * line for line: the merge is positional exactly when the provider keeps
   * one line per cue.
   */
  lemma ResponseLinesOfJoin(lines: seq<string>)
    requires |lines| >= 1
    requires forall k :: 0 <= k < |lines| ==> lines[k] != "" && Strip(lines[k]) == lines[k] && '\n' !in lines[k]
    ensures ResponseLines(Join(lines, '\n')) == lines
  {
    SplitJoin(lines, '\n');
    KeptClean(lines);
  }

  // ---------------------------------------------------------------------------
  // The output document
  // ---------------------------------------------------------------------------

  /** The timing of a cue; the translator never changes it. */
  datatype Timing = Timing(startMs: nat, endMs: nat)
  /** One subtitle item of a document. */
  datatype Cue = Cue(timing: Timing, text: string)

  function Texts(doc: seq<Cue>): (r: seq<string>)
    ensures |r| == |doc| && forall k :: 0 <= k < |doc| ==> r[k] == doc[k].text
  {
    seq(|doc|, k requires 0 <= k < |doc| => doc[k].text)
  }

  /**
   * `for j, sub in enumerate(batch): if j < len(lines): translated[i + j].text = lines[j]`
   * for a batch of `n` cues, keeping the writes that fall inside the document.
   */
  function Merged(doc: seq<Cue>, i: nat, n: nat, lines: seq<string>): seq<Cue> {
    seq(|doc|, k requires 0 <= k < |doc| =>
      if i <= k < i + n && k - i < |lines| then doc[k].(text := lines[k - i]) else doc[k])
  }

  /** Some write of the merge falls past the end of the document: Python raises `IndexError`. */
  predicate MergeOverflows(docLength: nat, i: nat, n: nat, lines: seq<string>) {
    Min(n, |lines|) > 0 && i + Min(n, |lines|) > docLength
  }

  /**
   * The merge keeps the length and every timing, leaves the cues outside the
   * batch as they were, gives the j-th cue of the batch the j-th line when
   * there is one, and otherwise keeps its previous text.
   */
  lemma MergedFrame(doc: seq<Cue>, i: nat, n: nat, lines: seq<string>)
    ensures var r := Merged(doc, i, n, lines);
            && |r| == |doc|
            && (forall k :: 0 <= k < |doc| ==> r[k].timing == doc[k].timing)
            && (forall k :: 0 <= k < |doc| && !(i <= k < i + n) ==> r[k] == doc[k])
            && (forall j :: 0 <= j < n && j < |lines| && i + j < |doc| ==> r[i + j].text == lines[j])
            && (forall k :: i <= k < i + n && k < |doc| && k - i >= |lines| ==> r[k] == doc[k])
  {
  }

  /** A full answer for a batch that fits replaces the batch's texts with the answer's lines. */
  lemma MergedFull(doc: seq<Cue>, i: nat, n: nat, lines: seq<string>)
    requires i + n <= |doc| && n <= |lines|
    ensures Texts(Merged(doc, i, n, lines))[i..i + n] == lines[..n]
  {
    var r := Merged(doc, i, n, lines);
    var t := Texts(r)[i..i + n];
    forall j | 0 <= j < n ensures t[j] == lines[..n][j] {
      assert t[j] == Texts(r)[i + j] == r[i + j].text;
    }
  }

  /** Merging the same answer again changes nothing, so a batch re-run after a crash is harmless. */
  lemma MergedIdempotent(doc: seq<Cue>, i: nat, n: nat, lines: seq<string>)
    ensures Merged(Merged(doc, i, n, lines), i, n, lines) == Merged(doc, i, n, lines)
  {
  }

  /** Batches that do not overlap merge independently: the later batch leaves the earlier one's cues alone. */
  lemma MergedDisjoint(doc: seq<Cue>, i: nat, n: nat, a: seq<string>, i': nat, n': nat, b: seq<string>)
    requires i + n <= i'
    ensures var r := Merged(Merged(doc, i, n, a), i', n', b);
            forall k :: 0 <= k < i' && k < |doc| ==> r[k] == Merged(doc, i, n, a)[k]
  {
  }
}
