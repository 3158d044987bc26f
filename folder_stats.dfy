/**
 * The counters of extractor/extract_subtitle_en.py: `process_folder` counts
 * the videos of one folder by the status `process_video_file` gives them,
 * and `merge_stats` adds a folder's counters into the global ones in place.
 *
 * The walk of the folder is its list of (directory, file name) entries, and
 * what `process_video_file` does with each video is an oracle: a status, or
 * `None` when it raises.
 */
module FolderStats {
  import opened Wrappers
  import opened Extractor

  /** The keys of the `stats` dictionary. */
  datatype Counter = Total | TrailersSkipped | FrenchExternalCount | FrenchInMkvCount | ExternalFound
                   | AlreadyExtractedCount | MkvExtractedCount | FailedCount | NoSourceCount

  type Stats = map<Counter, nat>

  /** Every key of the dictionary, in the order the source lists them. */
  const Counters: seq<Counter> := [Total, TrailersSkipped, FrenchExternalCount, FrenchInMkvCount, ExternalFound,
                                   AlreadyExtractedCount, MkvExtractedCount, FailedCount, NoSourceCount]

  lemma AllCounters()
    ensures forall c: Counter :: c in Counters
  {
    forall c: Counter ensures c in Counters {
      match c {
        case Total => case TrailersSkipped => case FrenchExternalCount => case FrenchInMkvCount =>
        case ExternalFound => case AlreadyExtractedCount => case MkvExtractedCount => case FailedCount =>
        case NoSourceCount =>
      }
    }
  }

  /** The place of a counter in `Counters`. */
  function Position(c: Counter): (i: nat)
    ensures i < |Counters| && Counters[i] == c
  {
    match c
    case Total => 0
    case TrailersSkipped => 1
    case FrenchExternalCount => 2
    case FrenchInMkvCount => 3
    case ExternalFound => 4
    case AlreadyExtractedCount => 5
    case MkvExtractedCount => 6
    case FailedCount => 7
    case NoSourceCount => 8
  }

  /** `Counters` lists each counter once. */
  lemma PositionOf(i: nat)
    requires i < |Counters|
    ensures Position(Counters[i]) == i
  {
  }

  /** The dictionary has every key. */
  predicate Complete(s: Stats) {
    forall c: Counter :: c in s
  }

  /** The dictionary `process_folder` and `run_extraction` start from: every counter at 0. */
  function Zero(): (z: Stats)
    ensures Complete(z) && forall c :: z[c] == 0
  {
    AllCounters();
    map c | c in Counters :: 0
  }

  /** The `elif` chain of `process_folder`: the counter each status increments. */
  function CounterOf(status: VideoStatus): (c: Counter)
    ensures c != Total && c != TrailersSkipped
  {
    match status
    case FrenchExternal => FrenchExternalCount
    case FrenchInMkv => FrenchInMkvCount
    case External => ExternalFound
    case AlreadyExtracted => AlreadyExtractedCount
    case MkvExtracted => MkvExtractedCount
    case Failed => FailedCount
    case NoSource => NoSourceCount
  }

  /** The sum of the seven status counters. */
  function StatusSum(s: Stats): nat
    requires Complete(s)
  {
    s[FrenchExternalCount] + s[FrenchInMkvCount] + s[ExternalFound] + s[AlreadyExtractedCount] +
    s[MkvExtractedCount] + s[FailedCount] + s[NoSourceCount]
  }

  /** `total` counts exactly the videos that got a status. */
  predicate Balanced(s: Stats) {
    Complete(s) && s[Total] == StatusSum(s)
  }

  /** One file of the walk: its directory (`root`) and its name. */
  datatype Entry = Entry(root: string, name: string)

  /** What `process_video_file` does with a video: its status, or `None` when it raises. */
  type Outcome = Entry -> Option<VideoStatus>

  /** The status counter a non-trailer video is booked under: its status's, or `failed` when the call raised. */
  function Booking(result: Option<VideoStatus>): (c: Counter)
    ensures c != Total && c != TrailersSkipped
    ensures result.None? ==> c == FailedCount
  {
    match result
    case Some(status) => CounterOf(status)
    case None => FailedCount
  }

  function Bump(s: Stats, c: Counter): Stats
    requires Complete(s)
  {
    s[c := s[c] + 1]
  }

  /** The counters after one file of the walk. */
  function Count(s: Stats, e: Entry, outcome: Outcome): Stats
    requires Complete(s)
  {
    if !IsVideo(e.name) then s
    else if IsTrailer(e.name) then Bump(s, TrailersSkipped)
    else Bump(Bump(s, Booking(outcome(e))), Total)
  }

  /** The counters after the files of the walk, in order, from all zeros. */
  function Tally(entries: seq<Entry>, outcome: Outcome): (s: Stats)
    ensures Complete(s)
    decreases |entries|
  {
    if entries == [] then Zero()
    else Count(Tally(entries[..|entries| - 1], outcome), entries[|entries| - 1], outcome)
  }

  /** How many files of the walk are videos, trailers included. */
  function Videos(entries: seq<Entry>): nat
    decreases |entries|
  {
    if entries == [] then 0
    else Videos(entries[..|entries| - 1]) + (if IsVideo(entries[|entries| - 1].name) then 1 else 0)
  }

  /**
   * Whether counter `c` counts the file `e`: a trailer video counts under
   * `trailers_skipped` only; any other video counts under `total` and under
   * the counter of its booking; a non-video counts nowhere.
   */
  predicate CountsUnder(e: Entry, outcome: Outcome, c: Counter) {
    IsVideo(e.name) &&
    if IsTrailer(e.name) then c == TrailersSkipped
    else c == Total || c == Booking(outcome(e))
  }

  /** How many files of the walk counter `c` counts. */
  function Number(entries: seq<Entry>, outcome: Outcome, c: Counter): nat
    decreases |entries|
  {
    if entries == [] then 0
    else Number(entries[..|entries| - 1], outcome, c) + (if CountsUnder(entries[|entries| - 1], outcome, c) then 1 else 0)
  }

  /**
   * Counting one file keeps `total` equal to the sum of the status counters;
   * a non-video changes nothing, a trailer bumps only `trailers_skipped`, and
   * any other video bumps `total` and the counter of its status (`failed`
   * when `process_video_file` raised) by one and leaves every other counter
   * alone.
   */
  lemma CountKeepsBalance(s: Stats, e: Entry, outcome: Outcome)
    requires Balanced(s)
    ensures var s' := Count(s, e, outcome);
            && Balanced(s')
            && s'[Total] + s'[TrailersSkipped] == s[Total] + s[TrailersSkipped] + (if IsVideo(e.name) then 1 else 0)
            && (!IsVideo(e.name) ==> s' == s)
            && (IsVideo(e.name) && IsTrailer(e.name) ==> s' == s[TrailersSkipped := s[TrailersSkipped] + 1])
            && (IsVideo(e.name) && !IsTrailer(e.name) ==>
                  var k := Booking(outcome(e));
                  && s'[Total] == s[Total] + 1
                  && s'[TrailersSkipped] == s[TrailersSkipped]
                  && s'[k] == s[k] + 1
                  && forall c :: c != Total && c != k ==> s'[c] == s[c])
  {
    CountBooks(s, e, outcome);
  }

  /** Counting one file adds one to exactly the counters that count it. */
  lemma CountBooks(s: Stats, e: Entry, outcome: Outcome)
    requires Complete(s)
    ensures forall c :: Count(s, e, outcome)[c] == s[c] + (if CountsUnder(e, outcome, c) then 1 else 0)
  {
  }

  /**
   * In the counters of a folder, `total` equals the sum of the seven status
   * counters, every video is counted either as a trailer or in `total`, and
   * each counter holds exactly the number of files it counts: the trailer
   * videos, the other videos, and the videos booked under each status.
   */
  lemma {:induction false} TotalIsSumOfStatuses(entries: seq<Entry>, outcome: Outcome)
    ensures var s := Tally(entries, outcome);
            Balanced(s) && s[Total] + s[TrailersSkipped] == Videos(entries)
    ensures forall c :: Tally(entries, outcome)[c] == Number(entries, outcome, c)
    decreases |entries|
  {
    if entries != [] {
      var init := entries[..|entries| - 1];
      TotalIsSumOfStatuses(init, outcome);
      CountKeepsBalance(Tally(init, outcome), entries[|entries| - 1], outcome);
      CountBooks(Tally(init, outcome), entries[|entries| - 1], outcome);
    }
  }

  /** `process_folder(folder_path, ...)`: `None` for a missing folder, else the counters of its videos. */
  method ProcessFolder(isDir: bool, entries: seq<Entry>, outcome: Outcome) returns (r: Option<Stats>)
    ensures r == if isDir then Some(Tally(entries, outcome)) else None
  {
    if !isDir {
      return None;
    }
    var stats := Zero();
    var i := 0;
    while i < |entries|
      invariant 0 <= i <= |entries|
      invariant stats == Tally(entries[..i], outcome)
    {
      var e := entries[i];
      ghost var before := stats;
      if !IsVideo(e.name) {
      } else if IsTrailer(e.name) {
        stats := stats[TrailersSkipped := stats[TrailersSkipped] + 1];
      } else {
        var result := outcome(e);
        if result.Some? {
          var c := CounterOf(result.value);
          stats := stats[c := stats[c] + 1];
        } else {
          stats := stats[FailedCount := stats[FailedCount] + 1];
        }
        stats := stats[Total := stats[Total] + 1];
      }
      assert stats == Count(before, e, outcome);
      assert entries[..i + 1][..i] == entries[..i];
      assert Tally(entries[..i + 1], outcome) == Count(Tally(entries[..i], outcome), e, outcome);
      i := i + 1;
    }
    assert entries[..i] == entries;
    return Some(stats);
  }

  /** The global counters plus a folder's, key by key. */
  function Added(global: Stats, folder: Stats): (r: Stats)
    requires Complete(global)
    ensures Complete(r)
  {
    map c | c in global :: global[c] + (if c in folder then folder[c] else 0)
  }

  /** Adding balanced counters to balanced counters keeps them balanced. */
  lemma AddedBalanced(global: Stats, folder: Stats)
    requires Balanced(global) && Balanced(folder)
    ensures Balanced(Added(global, folder))
    ensures Added(global, folder)[Total] == global[Total] + folder[Total]
  {
  }

  /** `global_stats`, updated in place by `merge_stats`. */
  class GlobalStats {
    var counts: Stats

    constructor ()
      ensures counts == Zero()
    {
      counts := Zero();
    }

    /**
     * `merge_stats(global_stats, folder_stats)`: adds each folder counter to
     * the global one; a `None` result (a missing folder) changes nothing.
     */
    method MergeStats(folder: Option<Stats>)
      requires Complete(counts)
      modifies this
      ensures folder.None? ==> counts == old(counts)
      ensures folder.Some? ==> counts == Added(old(counts), folder.value)
    {
      if folder.None? {
        return;
      }
      var f := folder.value;
      ghost var start := counts;
      var i := 0;
      while i < |Counters|
        invariant 0 <= i <= |Counters|
        invariant Complete(counts)
        invariant MergedUpTo(start, f, counts, i)
      {
        var c := Counters[i];
        var next := if c in f then counts[c := counts[c] + f[c]] else counts;
        MergeCounterStep(start, f, counts, next, i, c);
        counts := next;
        i := i + 1;
      }
      MergedAll(start, f, counts);
    }
  }

  /** The counters before position `i` hold their sum, the others their global value. */
  ghost predicate MergedUpTo(start: Stats, f: Stats, counts: Stats, i: nat)
    requires Complete(start) && Complete(counts)
  {
    forall c :: counts[c] == start[c] + (if Position(c) < i && c in f then f[c] else 0)
  }

  /** Once every position is merged, the counters are the key-wise sum. */
  lemma MergedAll(start: Stats, f: Stats, counts: Stats)
    requires Complete(start) && Complete(counts) && MergedUpTo(start, f, counts, |Counters|)
    ensures counts == Added(start, f)
  {
    assert forall c :: counts[c] == Added(start, f)[c];
  }

  /** Adding the folder's value of the counter at position `i` extends the merged prefix by one. */
  lemma MergeCounterStep(start: Stats, f: Stats, counts: Stats, next: Stats, i: nat, c: Counter)
    requires i < |Counters|
    requires Complete(start)
    requires Complete(counts)
    requires MergedUpTo(start, f, counts, i)
    requires c == Counters[i]
    requires next == if c in f then counts[c := counts[c] + f[c]] else counts
    ensures Complete(next) && MergedUpTo(start, f, next, i + 1)
  {
    PositionOf(i);
  }
}
