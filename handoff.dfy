/**
 * How the two scripts meet on disk. The extractor leaves the English
 * subtitle it pulls out of an MKV file at `<base>.en.<fmt>.tmp`
 * (extractor/extract_subtitle_en.py:256), while the translator's source
 * search looks for `<base>.en.<ext>.txt` and external subtitles
 * (translator/translate_srt_gemini.py:256-262): an extracted file is never
 * picked up as a source.
 */
module Handoff {
  import opened Text
  import opened Paths
  import Extractor
  import Translator

  /** No source candidate of the translator, for any video, is a file the extractor writes. */
  lemma ExtractedIsNoSource(base: string, fmt: string, b: string)
    ensures Extractor.ExtractedPath(base, fmt) !in Translator.EnglishCandidates(b)
  {
    var p := Extractor.ExtractedPath(base, fmt);
    assert EndsWith(p, ".tmp");
    Extractor.TmpIsNoCandidate(p, b);
    assert Translator.EnglishCandidates(b) == Translator.ExtractedCandidates(b) + Extractor.ExternalCandidates(b);
    var x := Translator.ExtractedCandidates(b);
    forall j | 0 <= j < |x| ensures x[j] != p {
      if |x[j]| == |p| {
        assert x[j][|x[j]| - 2] == 'x';
        assert p[|p| - 2] == 'm';
      }
    }
  }

  /**
   * Whatever the extractor writes, the translator's search for an English
   * source gives the same answer as before: a video whose only English
   * subtitle is inside the MKV stays without a source.
   */
  lemma ExtractionInvisible(paths: set<string>, base: string, fmt: string, b: string)
    ensures Translator.FindEnglishSubtitle(paths + {Extractor.ExtractedPath(base, fmt)}, b) ==
            Translator.FindEnglishSubtitle(paths, b)
  {
    ExtractedIsNoSource(base, fmt, b);
    FirstExistingIgnores(paths, Translator.EnglishCandidates(b), Extractor.ExtractedPath(base, fmt));
  }
}
