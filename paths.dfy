/**
 * Path handling shared by both scripts: `os.path.splitext` and the
 * "first candidate path that exists" search that every `find_*` helper
 * performs with nested `for` loops and an early `return`.
 * The file system is a set of existing paths.
 */
module Paths {
  import opened Wrappers

  /** Index of the last occurrence of `c` in `s`, or -1 (Python's `str.rfind`). */
  function LastIndexOf(s: string, c: char): (r: int)
    ensures -1 <= r < |s|
    ensures r >= 0 ==> s[r] == c
    ensures forall k :: r < k < |s| ==> s[k] != c
    decreases |s|
  {
    if |s| == 0 then -1
    else if s[|s| - 1] == c then |s| - 1
    else LastIndexOf(s[..|s| - 1], c)
  }

  /**
   * `os.path.splitext` on POSIX paths: the extension starts at the last dot
   * of the last path component, unless that component is made of dots up to it
   * (a leading-dot name such as ".hidden" has no extension).
   */
  function SplitExt(p: string): (string, string) {
    var dot := LastIndexOf(p, '.');
    var slash := LastIndexOf(p, '/');
    if dot > slash && exists k :: slash < k < dot && p[k] != '.' then (p[..dot], p[dot..])
    else (p, "")
  }

  /**
   * The base and the extension concatenate to the path; a non-empty
   * extension is one dot-led suffix of the last path component, behind a
   * non-dot character of that component.
   */
  lemma SplitExtMeans(p: string)
    ensures SplitExt(p).0 + SplitExt(p).1 == p
    ensures var ext := SplitExt(p).1;
            ext != [] ==> ext[0] == '.' && '/' !in ext && '.' !in ext[1..]
    ensures var (base, ext) := SplitExt(p);
            ext != [] ==> exists k :: 0 <= k < |base| && base[k] != '.' && '/' !in base[k..]
    ensures (exists k, i :: 0 <= k < i < |p| && p[k] != '.' && p[i] == '.' && '/' !in p[k..]) ==> SplitExt(p).1 != []
  {
    var dot := LastIndexOf(p, '.');
    var slash := LastIndexOf(p, '/');
    if dot > slash && exists k :: slash < k < dot && p[k] != '.' {
      var k :| slash < k < dot && p[k] != '.';
      assert p[..dot] + p[dot..] == p;
      assert p[..dot][k..] == p[k..dot];
      assert '/' !in p[k..dot];
    }
    if exists k, i :: 0 <= k < i < |p| && p[k] != '.' && p[i] == '.' && '/' !in p[k..] {
      var k, i :| 0 <= k < i < |p| && p[k] != '.' && p[i] == '.' && '/' !in p[k..];
      assert dot >= i;
    }
  }

  /** `rfind` gives the index of the last occurrence. */
  lemma LastIndexOfIs(s: string, c: char, r: nat)
    requires r < |s| && s[r] == c && forall k :: r < k < |s| ==> s[k] != c
    ensures LastIndexOf(s, c) == r
  {
  }

  /** `splitext` of a file name with two dots, of a dot file, and of a dotted directory. */
  lemma SplitExtExamples()
    ensures SplitExt("d/a.b.mkv") == ("d/a.b", ".mkv")
    ensures SplitExt("d/.hidden") == ("d/.hidden", "")
    ensures SplitExt("d.x/name") == ("d.x/name", "")
  {
    LastIndexOfIs("d/a.b.mkv", '.', 5);
    LastIndexOfIs("d/a.b.mkv", '/', 1);
    assert "d/a.b.mkv"[2] != '.';
    assert "d/a.b.mkv"[..5] == "d/a.b" && "d/a.b.mkv"[5..] == ".mkv";
    LastIndexOfIs("d/.hidden", '.', 2);
    LastIndexOfIs("d/.hidden", '/', 1);
    LastIndexOfIs("d.x/name", '.', 1);
    LastIndexOfIs("d.x/name", '/', 3);
  }

  /** The first path of `candidates` that exists. */
  function FirstExisting(files: set<string>, candidates: seq<string>): (r: Option<string>)
    ensures r.None? <==> forall i :: 0 <= i < |candidates| ==> candidates[i] !in files
    ensures r.Some? ==> exists i :: 0 <= i < |candidates| && candidates[i] == r.value && r.value in files &&
                                    forall j :: 0 <= j < i ==> candidates[j] !in files
    decreases |candidates|
  {
    if |candidates| == 0 then None
    else if candidates[0] in files then Some(candidates[0])
    else
      var r := FirstExisting(files, candidates[1..]);
      FirstExistingStep(files, candidates, r);
      r
  }

  lemma FirstExistingStep(files: set<string>, candidates: seq<string>, r: Option<string>)
    requires |candidates| > 0 && candidates[0] !in files
    requires r.None? <==> forall i :: 0 <= i < |candidates| - 1 ==> candidates[1..][i] !in files
    requires r.Some? ==> exists i :: 0 <= i < |candidates| - 1 && candidates[1..][i] == r.value && r.value in files &&
                                     forall j :: 0 <= j < i ==> candidates[1..][j] !in files
    ensures r.None? <==> forall i :: 0 <= i < |candidates| ==> candidates[i] !in files
    ensures r.Some? ==> exists i :: 0 <= i < |candidates| && candidates[i] == r.value && r.value in files &&
                                    forall j :: 0 <= j < i ==> candidates[j] !in files
  {
    if r.Some? {
      var i :| 0 <= i < |candidates| - 1 && candidates[1..][i] == r.value && r.value in files &&
               forall j :: 0 <= j < i ==> candidates[1..][j] !in files;
      assert candidates[i + 1] == r.value;
      forall j | 0 <= j < i + 1 ensures candidates[j] !in files {
        if j > 0 { assert candidates[j] == candidates[1..][j - 1]; }
      }
    } else {
      forall i | 0 <= i < |candidates| ensures candidates[i] !in files {
        if i > 0 { assert candidates[i] == candidates[1..][i - 1]; }
      }
    }
  }

  /** A path that is not a candidate does not change the search when it appears. */
  lemma {:induction false} FirstExistingIgnores(files: set<string>, candidates: seq<string>, x: string)
    requires x !in candidates
    ensures FirstExisting(files + {x}, candidates) == FirstExisting(files, candidates)
    decreases |candidates|
  {
    if |candidates| > 0 {
      assert candidates[0] != x;
      assert x !in candidates[1..];
      FirstExistingIgnores(files, candidates[1..], x);
    }
  }

  /** Two sets of paths that hold the same candidates give the same search result. */
  lemma {:induction false} FirstExistingAgrees(files: set<string>, files': set<string>, candidates: seq<string>)
    requires forall j :: 0 <= j < |candidates| ==> (candidates[j] in files <==> candidates[j] in files')
    ensures FirstExisting(files, candidates) == FirstExisting(files', candidates)
    decreases |candidates|
  {
    if |candidates| > 0 {
      assert candidates[0] in files <==> candidates[0] in files';
      forall j | 0 <= j < |candidates| - 1
        ensures candidates[1..][j] in files <==> candidates[1..][j] in files'
      {
        assert candidates[1..][j] == candidates[j + 1];
      }
      FirstExistingAgrees(files, files', candidates[1..]);
    }
  }

  /** `f"{base}.{lang}.{ext}"` for one language, every extension in order. */
  function LangCandidates(base: string, lang: string, exts: seq<string>): seq<string>
  {
    seq(|exts|, j requires 0 <= j < |exts| => base + "." + lang + "." + exts[j])
  }

  /** The nested loops `for lang in langs: for ext in exts`, languages outer. */
  function Candidates(base: string, langs: seq<string>, exts: seq<string>): seq<string>
    decreases |langs|
  {
    if langs == [] then []
    else LangCandidates(base, langs[0], exts) + Candidates(base, langs[1..], exts)
  }

  /** A path is a candidate iff it is `base.lang.ext` for a listed language and extension. */
  lemma {:induction false} CandidatesMembership(base: string, langs: seq<string>, exts: seq<string>, p: string)
    ensures p in Candidates(base, langs, exts) <==>
            exists i, j :: 0 <= i < |langs| && 0 <= j < |exts| && p == base + "." + langs[i] + "." + exts[j]
    decreases |langs|
  {
    if langs != [] {
      CandidatesMembership(base, langs[1..], exts, p);
      if exists i, j :: 0 <= i < |langs| && 0 <= j < |exts| && p == base + "." + langs[i] + "." + exts[j] {
        var i, j :| 0 <= i < |langs| && 0 <= j < |exts| && p == base + "." + langs[i] + "." + exts[j];
        if i == 0 {
          assert LangCandidates(base, langs[0], exts)[j] == p;
        } else {
          assert langs[1..][i - 1] == langs[i];
        }
      }
      if p in Candidates(base, langs[1..], exts) {
        var i, j :| 0 <= i < |langs| - 1 && 0 <= j < |exts| && p == base + "." + langs[1..][i] + "." + exts[j];
        assert langs[i + 1] == langs[1..][i];
      }
    }
  }

  /** `f"{base}.{ext}"` for every extension in order. */
  function BareCandidates(base: string, exts: seq<string>): seq<string>
  {
    seq(|exts|, j requires 0 <= j < |exts| => base + "." + exts[j])
  }
}
