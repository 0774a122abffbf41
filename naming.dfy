/** Names of the files the engine writes into the outputs directory
    (core.py:64-79 and core.py:124, and the older names of app.py). */
module Naming {
  import opened Text
  import opened Backends
  import opened Parsing

  /** Python's `str()` of an optional string, as an f-string renders it. */
  function Render(o: Option<string>): string {
    match o
    case None => "None"
    case Some(s) => s
  }

  /** Extensions for which a regenerator rebuilds the document. */
  predicate IsRegeneratedExtension(ext: string) {
    ext == ".docx" || ext == ".pptx" || ext == ".xlsx"
  }

  /** The base of an output name: `job_<id>` when the job id is truthy (a
      non-empty string), else the stem of the source file. */
  function OutputBase(sourcePath: string, jobId: Option<string>): string {
    if jobId.Some? && jobId.value != "" then "job_" + jobId.value else Stem(sourcePath)
  }

  /** The extension of the output: the source's own for the three
      regenerated formats, `.txt` for all others. */
  function OutputExtension(sourcePath: string): string {
    var ext := Extension(sourcePath);
    if IsRegeneratedExtension(ext) then ext else ".txt"
  }

  /** `save_translation_output`'s file name for one service's result. */
  function OutputName(sourcePath: string, service: Backend, jobId: Option<string>): string {
    OutputBase(sourcePath, jobId) + "_" + Name(service) + OutputExtension(sourcePath)
  }

  /** The critique report of a feed job (core.py:124). */
  function CritiqueReportName(jobId: Option<string>): string {
    "job_" + Render(jobId) + "_CRITIQUE_REPORT.md"
  }

  predicate NoSlash(s: string) {
    forall q :: 0 <= q < |s| ==> s[q] != '/'
  }

  lemma NoSlashConcat(a: string, b: string)
    requires NoSlash(a) && NoSlash(b)
    ensures NoSlash(a + b)
  {
    forall q | 0 <= q < |a + b| ensures (a + b)[q] != '/' {
      if q < |a| {
        assert (a + b)[q] == a[q];
      } else {
        assert (a + b)[q] == b[q - |a|];
      }
    }
  }

  /** A dot followed by at least one character other than `.`, `/` and `_`. */
  predicate DotWord(e: string) {
    |e| > 1 && e[0] == '.' && forall q :: 1 <= q < |e| ==> e[q] != '.' && e[q] != '/' && e[q] != '_'
  }

  lemma ExtensionsDotWords(e: string)
    requires e == ".docx" || e == ".pptx" || e == ".xlsx" || e == ".txt"
    ensures DotWord(e)
  {
  }

  /** The output extension is a dot followed by letters. */
  lemma OutputExtensionShape(sourcePath: string)
    ensures DotWord(OutputExtension(sourcePath))
  {
    var ext := Extension(sourcePath);
    if IsRegeneratedExtension(ext) {
      ExtensionsDotWords(ext);
    } else {
      ExtensionsDotWords(".txt");
    }
  }

  /** The base never holds `/` when the job id does not. */
  lemma OutputBaseNoSlash(sourcePath: string, jobId: Option<string>)
    requires jobId.Some? ==> NoSlash(jobId.value)
    ensures NoSlash(OutputBase(sourcePath, jobId))
  {
    if jobId.Some? && jobId.value != "" {
      var b := "job_" + jobId.value;
      assert forall q :: 4 <= q < |b| ==> b[q] == jobId.value[q - 4];
    }
  }

  /** Scanning back from `hi` stops just past the last `c`. */
  lemma {:induction false} AfterLastAt(s: string, c: char, hi: nat, k: nat)
    requires 0 < k <= hi <= |s| && s[k - 1] == c
    requires forall q :: k <= q < hi ==> s[q] != c
    ensures AfterLast(s, c, hi) == k
    decreases hi
  {
    if hi > k {
      AfterLastAt(s, c, hi - 1, k);
    }
  }

  /** `splitext` of a name that ends in a single-dot extension and has a
      character other than `.` before it. */
  lemma SplitExtOfSuffix(p: string, e: string)
    requires |e| > 0 && e[0] == '.' && forall q :: 1 <= q < |e| ==> e[q] != '.'
    requires exists q :: 0 <= q < |p| && p[q] != '.'
    ensures SplitExt(p + e) == (p, e)
  {
    var s := p + e;
    forall q | |p| + 1 <= q < |s| ensures s[q] != '.' {
      assert s[q] == e[q - |p|];
    }
    AfterLastAt(s, '.', |s|, |p| + 1);
    var w :| 0 <= w < |p| && p[w] != '.';
    assert s[w] == p[w];
    assert HasNonDotBefore(s, |p|);
    assert s[..|p|] == p && s[|p|..] == e;
  }

  /** A name without `/` is its own base name. */
  lemma BasenameOfPlainName(s: string)
    requires NoSlash(s)
    ensures Basename(s) == s
  {
    assert AfterLast(s, '/', |s|) == 0;
  }

  /** A slash-free name ending in a dot word, with some character other
      than `.` before it, is its own base name and splits at that word. */
  lemma PlainNameSplits(p: string, e: string, w: nat)
    requires NoSlash(p) && DotWord(e) && w < |p| && p[w] != '.'
    ensures Basename(p + e) == p + e && SplitExt(p + e) == (p, e)
  {
    assert NoSlash(e) by {
      assert forall q :: 0 <= q < |e| ==> q == 0 || e[q] != '/';
    }
    NoSlashConcat(p, e);
    BasenameOfPlainName(p + e);
    SplitExtOfSuffix(p, e);
  }

  /** An output file keeps the document's format: read back with
      `basename`/`splitext`, its name is `<base>_<service>` with the source's
      extension for the regenerated formats and `.txt` otherwise. */
  lemma OutputNameSplits(sourcePath: string, service: Backend, jobId: Option<string>)
    requires jobId.Some? ==> NoSlash(jobId.value)
    ensures var n := OutputName(sourcePath, service, jobId);
            Basename(n) == n
            && SplitExt(n) == (OutputBase(sourcePath, jobId) + "_" + Name(service), OutputExtension(sourcePath))
  {
    var b := OutputBase(sourcePath, jobId);
    var p := b + "_" + Name(service);
    OutputExtensionShape(sourcePath);
    OutputBaseNoSlash(sourcePath, jobId);
    NoSlashConcat(b, "_");
    NoSlashConcat(b + "_", Name(service));
    assert p[|b|] == '_';
    PlainNameSplits(p, OutputExtension(sourcePath), |b|);
  }

  /** The outputs of different services for the same source and job never
      share a name, so none overwrites another. */
  lemma OutputNamesDistinct(sourcePath: string, jobId: Option<string>, a: Backend, b: Backend)
    requires a != b
    ensures OutputName(sourcePath, a, jobId) != OutputName(sourcePath, b, jobId)
  {
    var p := OutputBase(sourcePath, jobId) + "_";
    var e := OutputExtension(sourcePath);
    var na, nb := p + Name(a) + e, p + Name(b) + e;
    assert na[|p|] == Name(a)[0] && nb[|p|] == Name(b)[0];
    assert na[|p| + 1] == Name(a)[1] && nb[|p| + 1] == Name(b)[1];
    if Name(a)[0] == Name(b)[0] {
      assert {a, b} == {Gpt, Gemini};
    }
  }

  /** The name of a job-id output starts with `job_<id>_<service>`. */
  lemma OutputNameOfJob(sourcePath: string, service: Backend, id: string)
    requires id != ""
    ensures StartsWith(OutputName(sourcePath, service, Some(id)), "job_" + id + "_" + Name(service))
  {
    var n := OutputName(sourcePath, service, Some(id));
    var h := "job_" + id + "_" + Name(service);
    assert n == h + OutputExtension(sourcePath);
    assert n[..|h|] == h;
  }

  /** app.py's feed-job output: `job_<id>_<target>_<service>.txt`, where a
      missing target renders as `None` (app.py:115, 122, 129). */
  function LegacyOutputName(jobId: string, target: Option<string>, service: Backend): string {
    "job_" + jobId + "_" + Render(target) + "_" + Name(service) + ".txt"
  }

  /** app.py's ad-hoc output `<stem>_translated_gpt.txt` (app.py:162). */
  function AdHocOutputName(stem: string): string {
    stem + "_translated_gpt.txt"
  }

  /** The three legacy outputs of a job are distinct files. */
  lemma LegacyOutputNamesDistinct(jobId: string, target: Option<string>, a: Backend, b: Backend)
    requires a != b
    ensures LegacyOutputName(jobId, target, a) != LegacyOutputName(jobId, target, b)
  {
    var p := "job_" + jobId + "_" + Render(target) + "_";
    var na, nb := p + Name(a) + ".txt", p + Name(b) + ".txt";
    assert LegacyOutputName(jobId, target, a) == na && LegacyOutputName(jobId, target, b) == nb;
    assert na[|p|] == Name(a)[0] && nb[|p|] == Name(b)[0];
    assert na[|p| + 1] == Name(a)[1] && nb[|p| + 1] == Name(b)[1];
    if Name(a)[0] == Name(b)[0] {
      assert {a, b} == {Gpt, Gemini};
    }
  }
}
