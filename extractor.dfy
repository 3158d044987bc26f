/**
 * The decision logic of extractor/extract_subtitle_en.py: which files are
 * videos and which are trailers, the priority searches for French, English
 * and already extracted subtitles, the French-track check and the choice of
 * the English track of an MKV file, the codec-to-extension mapping, and the
 * `process_video_file` ladder.
 *
 * The file system is the set of existing paths. The track list that
 * `mkvmerge -J` reports is an input (an empty list when it fails), and
 * `mkvextract` followed by the move of its output is an oracle that says
 * whether they succeed for a track id and a temporary path.
 */
module Extractor {
  import opened Wrappers
  import opened Text
  import opened Paths

  /** VIDEO_EXTENSIONS */
  const VideoExtensions: seq<string> := [".mkv", ".mp4", ".avi", ".mov", ".m4v", ".webm", ".flv", ".wmv"]
  /** SUBTITLE_EXTENSIONS */
  const SubtitleExtensions: seq<string> := ["srt", "ass", "sup", "ssa"]
  const FrenchCodes: seq<string> := ["fr", "fra", "fre", "french"]
  const EnglishCodes: seq<string> := ["en", "eng"]

  /** `file.lower().endswith(VIDEO_EXTENSIONS)` */
  predicate IsVideo(name: string) {
    exists j :: 0 <= j < |VideoExtensions| && EndsWith(Lower(name), VideoExtensions[j])
  }

  /** `is_trailer(filename)`: `"-trailer" in filename.lower()` */
  predicate IsTrailer(name: string) {
    Contains(Lower(name), "-trailer")
  }

  /** A name is a trailer iff "-trailer" occurs somewhere in its lower-case form, whatever the case it is written in. */
  lemma IsTrailerMeans(name: string)
    ensures IsTrailer(name) <==> exists i :: 0 <= i <= |name| && StartsWith(Lower(name)[i..], "-trailer")
    ensures IsTrailer(Lower(name)) == IsTrailer(name)
  {
    ContainsAt(Lower(name), "-trailer");
    LowerIdempotent(name);
  }

  // ---------------------------------------------------------------------------
  // Priority searches
  // ---------------------------------------------------------------------------

  /** `find_french_subtitle(base)`: some `.{fr,fra,fre,french}.<ext>` exists. */
  predicate FindFrenchSubtitle(files: set<string>, base: string) {
    FirstExisting(files, Candidates(base, FrenchCodes, SubtitleExtensions)).Some?
  }

  /** `find_french_subtitle` answers True exactly when a file `base.lang.ext` exists for a French code and a subtitle extension. */
  lemma FindFrenchMeans(files: set<string>, base: string)
    ensures FindFrenchSubtitle(files, base) <==>
            exists i, j :: 0 <= i < |FrenchCodes| && 0 <= j < |SubtitleExtensions| &&
                           base + "." + FrenchCodes[i] + "." + SubtitleExtensions[j] in files
  {
    var cs := Candidates(base, FrenchCodes, SubtitleExtensions);
    if FindFrenchSubtitle(files, base) {
      var r := FirstExisting(files, cs);
      var k :| 0 <= k < |cs| && cs[k] == r.value && r.value in files;
      CandidatesMembership(base, FrenchCodes, SubtitleExtensions, cs[k]);
    } else {
      forall i, j | 0 <= i < |FrenchCodes| && 0 <= j < |SubtitleExtensions|
        ensures base + "." + FrenchCodes[i] + "." + SubtitleExtensions[j] !in files
      {
        var p := base + "." + FrenchCodes[i] + "." + SubtitleExtensions[j];
        CandidatesMembership(base, FrenchCodes, SubtitleExtensions, p);
        var k :| 0 <= k < |cs| && cs[k] == p;
      }
    }
  }

  /** The order of `find_external_subtitle`: `.en.<ext>`, then `.eng.<ext>`, then bare `.<ext>`. */
  function ExternalCandidates(base: string): seq<string> {
    Candidates(base, EnglishCodes, SubtitleExtensions) + BareCandidates(base, SubtitleExtensions)
  }

  /** `find_external_subtitle(base)` */
  function FindExternalSubtitle(files: set<string>, base: string): Option<string> {
    FirstExisting(files, ExternalCandidates(base))
  }

  /**
   * `find_external_subtitle` finds nothing iff no candidate exists, and a
   * language-tagged file wins over every bare one.
   */
  lemma FindExternalPriority(files: set<string>, base: string)
    ensures var r := FindExternalSubtitle(files, base);
            var l := Candidates(base, EnglishCodes, SubtitleExtensions);
            && (r.None? <==> forall p :: p in ExternalCandidates(base) ==> p !in files)
            && (r.Some? ==> r.value in files && r.value in ExternalCandidates(base))
            && ((exists j :: 0 <= j < |l| && l[j] in files) ==> r.Some? && r.value in l)
  {
    var r := FindExternalSubtitle(files, base);
    var l := Candidates(base, EnglishCodes, SubtitleExtensions);
    var cs := ExternalCandidates(base);
    assert forall k :: 0 <= k < |l| ==> cs[k] == l[k];
    if r.Some? {
      var i :| 0 <= i < |cs| && cs[i] == r.value && r.value in files && forall j :: 0 <= j < i ==> cs[j] !in files;
      assert i < |l| ==> r.value == l[i];
    } else {
      forall p | p in cs ensures p !in files {
        var i :| 0 <= i < |cs| && cs[i] == p;
      }
    }
  }

  /** The file `extract_from_mkv` leaves for a format: `f"{base}.en.{fmt}.tmp"`. */
  function ExtractedPath(base: string, fmt: string): string {
    base + ".en." + fmt + ".tmp"
  }

  /** The order of `find_extracted_subtitle`: `.en.<ext>.tmp` for every subtitle extension. */
  function ExtractedCandidates(base: string): seq<string> {
    seq(|SubtitleExtensions|, j requires 0 <= j < |SubtitleExtensions| => ExtractedPath(base, SubtitleExtensions[j]))
  }

  /** `find_extracted_subtitle(base)` */
  function FindExtractedSubtitle(files: set<string>, base: string): Option<string> {
    FirstExisting(files, ExtractedCandidates(base))
  }

  /** A path ending in ".tmp" is neither a French nor an English external candidate, for any base name. */
  lemma TmpIsNoCandidate(p: string, base: string)
    requires EndsWith(p, ".tmp")
    ensures p !in Candidates(base, FrenchCodes, SubtitleExtensions)
    ensures p !in ExternalCandidates(base)
  {
    forall i, j | 0 <= i < |FrenchCodes| && 0 <= j < |SubtitleExtensions|
      ensures p != base + "." + FrenchCodes[i] + "." + SubtitleExtensions[j]
    {
      EndsDiffer(p, base + "." + FrenchCodes[i] + ".", SubtitleExtensions[j]);
    }
    forall i, j | 0 <= i < |EnglishCodes| && 0 <= j < |SubtitleExtensions|
      ensures p != base + "." + EnglishCodes[i] + "." + SubtitleExtensions[j]
    {
      EndsDiffer(p, base + "." + EnglishCodes[i] + ".", SubtitleExtensions[j]);
    }
    CandidatesMembership(base, FrenchCodes, SubtitleExtensions, p);
    CandidatesMembership(base, EnglishCodes, SubtitleExtensions, p);
    forall j | 0 <= j < |SubtitleExtensions| ensures BareCandidates(base, SubtitleExtensions)[j] != p {
      EndsDiffer(p, base + ".", SubtitleExtensions[j]);
    }
  }

  /** `prefix + ext` for a subtitle extension does not end in ".tmp". */
  lemma EndsDiffer(p: string, prefix: string, ext: string)
    requires EndsWith(p, ".tmp") && ext in SubtitleExtensions
    ensures p != prefix + ext
  {
    var q := prefix + ext;
    if |q| == |p| {
      assert p[|p| - 1] == p[|p| - 4..][3] == 'p';
      assert p[|p| - 3] == p[|p| - 4..][1] == 't';
      assert q[|q| - 1] == ext[2] && q[|q| - 3] == ext[0];
      assert ext[2] != 'p' || ext[0] == 's';
    }
  }

  // ---------------------------------------------------------------------------
  // MKV tracks
  // ---------------------------------------------------------------------------

  /**
   * One entry of `mkvmerge -J`'s "tracks": its id, type, and the language,
   * track name and codec, a missing or null value being "".
   */
  datatype Track = Track(id: nat, kind: string, language: string, name: string, codec: string)

  /** The French test of `has_french_subtitle_in_mkv`. */
  predicate IsFrenchTrack(t: Track) {
    var lang, name := Lower(t.language), Lower(t.name);
    && t.kind == "subtitles"
    && (lang in ["fr", "fra", "fre"] ||
        Contains(name, "french") || Contains(name, "français") || Contains(name, "francais"))
  }

  /** The English test of `extract_from_mkv`. */
  predicate IsEnglishTrack(t: Track) {
    t.kind == "subtitles" && (Lower(t.language) in ["en", "eng", "und"] || Contains(Lower(t.name), "english"))
  }

  /** `has_french_subtitle_in_mkv`: scans the tracks and stops at the first French subtitle track. */
  predicate HasFrenchSubtitleInMkv(tracks: seq<Track>)
    decreases |tracks|
  {
    tracks != [] && (IsFrenchTrack(tracks[0]) || HasFrenchSubtitleInMkv(tracks[1..]))
  }

  /** The scan answers True iff some track is a French subtitle track; no tracks (a failed `mkvmerge`) gives False. */
  lemma {:induction false} HasFrenchMeans(tracks: seq<Track>)
    ensures HasFrenchSubtitleInMkv(tracks) <==> exists i :: 0 <= i < |tracks| && IsFrenchTrack(tracks[i])
    decreases |tracks|
  {
    if tracks != [] {
      HasFrenchMeans(tracks[1..]);
      if exists i :: 0 <= i < |tracks| && IsFrenchTrack(tracks[i]) {
        var i :| 0 <= i < |tracks| && IsFrenchTrack(tracks[i]);
        if i > 0 {
          assert tracks[1..][i - 1] == tracks[i];
        }
      }
      if HasFrenchSubtitleInMkv(tracks[1..]) {
        var i :| 0 <= i < |tracks| - 1 && IsFrenchTrack(tracks[1..][i]);
        assert tracks[i + 1] == tracks[1..][i];
      }
    }
  }

  /** `subtitle_tracks` after the loop of `extract_from_mkv`: the English subtitle tracks, in order. */
  function EnglishTracks(tracks: seq<Track>): seq<Track>
    decreases |tracks|
  {
    if tracks == [] then []
    else
      var last := tracks[|tracks| - 1];
      EnglishTracks(tracks[..|tracks| - 1]) + (if IsEnglishTrack(last) then [last] else [])
  }

  /**
   * The selected track `subtitle_tracks[0]` exists iff some track is an
   * English subtitle track, and it is the first such track.
   */
  lemma {:induction false} FirstEnglishTrack(tracks: seq<Track>)
    ensures var e := EnglishTracks(tracks);
            && (e != [] <==> exists i :: 0 <= i < |tracks| && IsEnglishTrack(tracks[i]))
            && (e != [] ==> exists i :: 0 <= i < |tracks| && tracks[i] == e[0] && IsEnglishTrack(tracks[i]) &&
                                        forall j :: 0 <= j < i ==> !IsEnglishTrack(tracks[j]))
    decreases |tracks|
  {
    if tracks != [] {
      var init := tracks[..|tracks| - 1];
      var last := tracks[|tracks| - 1];
      FirstEnglishTrack(init);
      assert forall k :: 0 <= k < |init| ==> tracks[k] == init[k];
      if EnglishTracks(init) == [] && IsEnglishTrack(last) {
        assert forall j :: 0 <= j < |init| ==> !IsEnglishTrack(tracks[j]);
      }
    }
  }

  /**
   * The codec branch of `extract_from_mkv`, on the lower-cased codec: the
   * first test that matches decides, in the order ass, ssa, sup, sub, vtt,
   * and "srt" is the fallback.
   */
  function CodecExtension(codec: string): (fmt: string)
    ensures fmt in ["ass", "ssa", "sup", "sub", "vtt", "srt"]
  {
    if Contains(codec, "s_text/ass") || Contains(codec, "advanced") ||
       (Contains(codec, "ass") && !Contains(codec, "substation")) then "ass"
    else if Contains(codec, "substation") || Contains(codec, "s_text/ssa") || Contains(codec, "ssa") then "ssa"
    else if Contains(codec, "s_hdmv/pgs") || Contains(codec, "hdmv") || Contains(codec, "pgs") then "sup"
    else if Contains(codec, "s_vobsub") || Contains(codec, "vobsub") then "sub"
    else if Contains(codec, "webvtt") || Contains(codec, "s_text/webvtt") then "vtt"
    else "srt"
  }

  /** A codec that names none of the formats, such as SubRip's "s_text/utf8", falls back to "srt". */
  lemma CodecFallback(codec: string)
    requires !Contains(codec, "ass") && !Contains(codec, "advanced") && !Contains(codec, "substation")
    requires !Contains(codec, "ssa") && !Contains(codec, "hdmv") && !Contains(codec, "pgs")
    requires !Contains(codec, "vobsub") && !Contains(codec, "webvtt")
    ensures CodecExtension(codec) == "srt"
  {
    assert !Contains(codec, "s_text/ass") by {
      ContainsSuffix(codec, "ass", "s_text/");
      assert "s_text/" + "ass" == "s_text/ass";
    }
    assert !Contains(codec, "s_text/ssa") by {
      ContainsSuffix(codec, "ssa", "s_text/");
      assert "s_text/" + "ssa" == "s_text/ssa";
    }
    assert !Contains(codec, "s_hdmv/pgs") by {
      ContainsSuffix(codec, "pgs", "s_hdmv/");
      assert "s_hdmv/" + "pgs" == "s_hdmv/pgs";
    }
    assert !Contains(codec, "s_vobsub") by {
      ContainsSuffix(codec, "vobsub", "s_");
      assert "s_" + "vobsub" == "s_vobsub";
    }
    assert !Contains(codec, "s_text/webvtt") by {
      ContainsSuffix(codec, "webvtt", "s_text/");
      assert "s_text/" + "webvtt" == "s_text/webvtt";
    }
  }

  /** A string that contains `front + w` contains `w`. */
  lemma ContainsSuffix(s: string, w: string, front: string)
    ensures Contains(s, front + w) ==> Contains(s, w)
  {
    ContainsAt(s, w);
    ContainsAt(s, front + w);
    if Contains(s, front + w) {
      var i :| 0 <= i <= |s| && StartsWith(s[i..], front + w);
      assert s[i + |front|..][..|w|] == s[i..][..|front + w|][|front|..] == (front + w)[|front|..] == w;
      assert StartsWith(s[i + |front|..], w);
    }
  }

  /** Where `mkvextract` writes first: `f"{base}.temp.{fmt}"`. */
  function TempPath(base: string, fmt: string): string {
    base + ".temp." + fmt
  }

  /** `mkvextract tracks <mkv> <id>:<temp>` followed by `shutil.move(temp, out)`: whether both succeed. */
  type Extract = (nat, string) -> bool

  /** What `extract_from_mkv` returns and the files it leaves. */
  datatype Extraction = Extraction(ok: bool, files: set<string>)

  /**
   * `extract_from_mkv(mkv_path, base_path)`, as the specification of
   * `ExtractFromMkv`: no English subtitle track gives False and touches
   * nothing; otherwise the first one is extracted to the temporary file and
   * moved to `.en.<fmt>.tmp`, and on failure the temporary file is removed.
   */
  function ExtractionOf(tracks: seq<Track>, base: string, files: set<string>, extract: Extract): Extraction {
    var english := EnglishTracks(tracks);
    if english == [] then Extraction(false, files)
    else
      var track := english[0];
      var fmt := CodecExtension(Lower(track.codec));
      var temp := TempPath(base, fmt);
      if extract(track.id, temp) then Extraction(true, files - {temp} + {ExtractedPath(base, fmt)})
      else Extraction(false, files - {temp})
  }

  /** `extract_from_mkv`: collects the English subtitle tracks, then extracts the first one. */
  method ExtractFromMkv(tracks: seq<Track>, base: string, files: set<string>, extract: Extract)
    returns (ok: bool, files': set<string>)
    ensures Extraction(ok, files') == ExtractionOf(tracks, base, files, extract)
  {
    if tracks == [] {
      return false, files;
    }
    var subtitleTracks := [];
    var i := 0;
    while i < |tracks|
      invariant 0 <= i <= |tracks|
      invariant subtitleTracks == EnglishTracks(tracks[..i])
    {
      assert tracks[..i + 1][..i] == tracks[..i];
      if IsEnglishTrack(tracks[i]) {
        subtitleTracks := subtitleTracks + [tracks[i]];
      }
      i := i + 1;
    }
    assert tracks[..i] == tracks;
    if subtitleTracks == [] {
      return false, files;
    }
    var track := subtitleTracks[0];
    var fmt := CodecExtension(Lower(track.codec));
    var temp := TempPath(base, fmt);
    if extract(track.id, temp) {
      return true, files - {temp} + {ExtractedPath(base, fmt)};
    }
    return false, files - {temp};
  }

  // ---------------------------------------------------------------------------
  // process_video_file
  // ---------------------------------------------------------------------------

  /** The strings `process_video_file` returns. */
  datatype VideoStatus = FrenchExternal | FrenchInMkv | External | AlreadyExtracted | MkvExtracted | Failed | NoSource

  datatype Processed = Processed(status: VideoStatus, files: set<string>)

  /** `ext.lower() == ".mkv"` for the extension `os.path.splitext` gives. */
  predicate IsMkv(video: string) {
    Lower(SplitExt(video).1) == ".mkv"
  }

  /**
   * `process_video_file(video_path)`: French external subtitle, French track
   * in the MKV (MKV only), English external subtitle, already extracted, and
   * only then extraction (MKV only); anything else has no source.
   */
  function ProcessVideoFile(video: string, files: set<string>, tracks: seq<Track>, extract: Extract): Processed {
    var base := SplitExt(video).0;
    if FindFrenchSubtitle(files, base) then Processed(FrenchExternal, files)
    else if IsMkv(video) && HasFrenchSubtitleInMkv(tracks) then Processed(FrenchInMkv, files)
    else if FindExternalSubtitle(files, base).Some? then Processed(External, files)
    else if FindExtractedSubtitle(files, base).Some? then Processed(AlreadyExtracted, files)
    else if IsMkv(video) then
      var e := ExtractionOf(tracks, base, files, extract);
      Processed(if e.ok then MkvExtracted else Failed, e.files)
    else Processed(NoSource, files)
  }

  /**
   * The ladder: each status comes exactly from its own test after all the
   * earlier ones failed; a file that is not an MKV is never looked into and
   * never extracted; only an extraction changes the files.
   */
  lemma ProcessLadder(video: string, files: set<string>, tracks: seq<Track>, extract: Extract)
    ensures var r := ProcessVideoFile(video, files, tracks, extract);
            var base := SplitExt(video).0;
            && (r.status == FrenchExternal <==> FindFrenchSubtitle(files, base))
            && (r.status == FrenchInMkv <==>
                  !FindFrenchSubtitle(files, base) && IsMkv(video) && HasFrenchSubtitleInMkv(tracks))
            && (r.status == External ==> FindExternalSubtitle(files, base).Some?)
            && (r.status == AlreadyExtracted ==>
                  FindExternalSubtitle(files, base).None? && FindExtractedSubtitle(files, base).Some?)
            && (r.status == MkvExtracted || r.status == Failed ==>
                  IsMkv(video) && FindExternalSubtitle(files, base).None? && FindExtractedSubtitle(files, base).None?)
            && (r.status == NoSource <==>
                  !IsMkv(video) && !FindFrenchSubtitle(files, base) &&
                  FindExternalSubtitle(files, base).None? && FindExtractedSubtitle(files, base).None?)
            && (r.status != MkvExtracted && r.status != Failed ==> r.files == files)
  {
  }

  /** A successful extraction leaves `.en.<fmt>.tmp` for the first English track's format, and nothing else new. */
  lemma ExtractionResult(video: string, files: set<string>, tracks: seq<Track>, extract: Extract)
    ensures var r := ProcessVideoFile(video, files, tracks, extract);
            var base := SplitExt(video).0;
            r.status == MkvExtracted ==>
              EnglishTracks(tracks) != [] &&
              var fmt := CodecExtension(Lower(EnglishTracks(tracks)[0].codec));
              r.files == files - {TempPath(base, fmt)} + {ExtractedPath(base, fmt)}
  {
  }

  /**
   * Running the ladder again after an extraction in a format that
   * `find_extracted_subtitle` looks for answers "extracted", without a
   * second extraction.
   */
  lemma RerunAfterExtraction(video: string, files: set<string>, tracks: seq<Track>, extract: Extract, extract': Extract)
    requires ProcessVideoFile(video, files, tracks, extract).status == MkvExtracted
    requires CodecExtension(Lower(EnglishTracks(tracks)[0].codec)) in SubtitleExtensions
    ensures var r := ProcessVideoFile(video, files, tracks, extract);
            ProcessVideoFile(video, r.files, tracks, extract') == Processed(AlreadyExtracted, r.files)
  {
    var r := ProcessVideoFile(video, files, tracks, extract);
    var base := SplitExt(video).0;
    var fmt := CodecExtension(Lower(EnglishTracks(tracks)[0].codec));
    var out := ExtractedPath(base, fmt);
    ExtractionResult(video, files, tracks, extract);
    assert EndsWith(out, ".tmp");
    TmpIsNoCandidate(out, base);
    SearchAfterAdding(files, Candidates(base, FrenchCodes, SubtitleExtensions), TempPath(base, fmt), out);
    SearchAfterAdding(files, ExternalCandidates(base), TempPath(base, fmt), out);
    var j :| 0 <= j < |SubtitleExtensions| && SubtitleExtensions[j] == fmt;
    assert ExtractedCandidates(base)[j] == out;
  }

  /**
   * A VobSub or WebVTT track is extracted to `.en.sub.tmp` or `.en.vtt.tmp`,
   * which `find_extracted_subtitle` does not look for: every later run
   * extracts it again.
   */
  lemma RerunExtractsAgain(video: string, files: set<string>, tracks: seq<Track>, extract: Extract)
    requires ProcessVideoFile(video, files, tracks, extract).status == MkvExtracted
    requires CodecExtension(Lower(EnglishTracks(tracks)[0].codec)) !in SubtitleExtensions
    ensures var r := ProcessVideoFile(video, files, tracks, extract);
            ProcessVideoFile(video, r.files, tracks, extract) == r
  {
    var r := ProcessVideoFile(video, files, tracks, extract);
    var base := SplitExt(video).0;
    var fmt := CodecExtension(Lower(EnglishTracks(tracks)[0].codec));
    var temp, out := TempPath(base, fmt), ExtractedPath(base, fmt);
    ExtractionResult(video, files, tracks, extract);
    assert EndsWith(out, ".tmp");
    TmpIsNoCandidate(out, base);
    SearchAfterAdding(files, Candidates(base, FrenchCodes, SubtitleExtensions), temp, out);
    SearchAfterAdding(files, ExternalCandidates(base), temp, out);
    forall j | 0 <= j < |SubtitleExtensions| ensures ExtractedCandidates(base)[j] != out {
      if ExtractedCandidates(base)[j] == out {
        SameMiddle(base + ".en.", SubtitleExtensions[j], fmt, ".tmp");
      }
    }
    SearchAfterAdding(files, ExtractedCandidates(base), temp, out);
    assert files - {temp} + {out} - {temp} + {out} == files - {temp} + {out};
  }

  /** Equal strings with the same front and back have the same middle. */
  lemma SameMiddle(front: string, a: string, b: string, back: string)
    requires |a| == |b| && front + a + back == front + b + back
    ensures a == b
  {
    forall k | 0 <= k < |a| ensures a[k] == b[k] {
      assert (front + a + back)[|front| + k] == a[k];
      assert (front + b + back)[|front| + k] == b[k];
    }
  }

  /** Removing one path and adding one that is not a candidate does not make a failed search succeed. */
  lemma SearchAfterAdding(files: set<string>, cs: seq<string>, gone: string, added: string)
    requires added !in cs && FirstExisting(files, cs).None?
    ensures FirstExisting(files - {gone} + {added}, cs).None?
  {
    forall i | 0 <= i < |cs| ensures cs[i] !in files - {gone} + {added} {
      assert cs[i] !in files;
    }
  }
}
