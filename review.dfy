/** The review index of run_ui.py: grouping the outputs directory by job,
    reading the hot-folder manifest back, and finding a job's source file.
    The Streamlit page around them is not modelled. */
module Review {
  import opened Text
  import opened Backends
  import opened Parsing
  import opened Naming
  import opened Storage
  import opened Dispatch
  import opened Ledger

  // ---------------------------------------------------------------------
  // The group key `job_([\w\d.-]+)_`
  // ---------------------------------------------------------------------

  /** A character of the class `[\w\d.-]`. */
  predicate InClass(c: char) {
    IsWordChar(c) || c == '.' || c == '-'
  }

  /** Every character of `s[lo..hi]` is in the class. */
  predicate Run(s: string, lo: int, hi: int) {
    0 <= lo <= hi <= |s| && forall k :: lo <= k < hi ==> InClass(s[k])
  }

  /** The end of the longest run of class characters from `lo`. */
  function RunEnd(s: string, lo: nat): (r: nat)
    requires lo <= |s|
    decreases |s| - lo
    ensures lo <= r <= |s| && Run(s, lo, r)
    ensures r < |s| ==> !InClass(s[r])
  {
    if lo == |s| || !InClass(s[lo]) then lo else RunEnd(s, lo + 1)
  }

  /** The last `_` in `s[lo..hi]`. */
  function LastUnderscore(s: string, lo: nat, hi: nat): (r: Option<nat>)
    requires lo <= hi <= |s|
    decreases hi - lo
    ensures r.Some? ==> lo <= r.value < hi && s[r.value] == '_' && forall k :: r.value < k < hi ==> s[k] != '_'
    ensures r.None? ==> forall k :: lo <= k < hi ==> s[k] != '_'
  {
    if hi == lo then None
    else if s[hi - 1] == '_' then Some(hi - 1)
    else LastUnderscore(s, lo, hi - 1)
  }

  /** The group captured by a match of the pattern starting at `i`, if the
      pattern matches there. The quantifier is greedy, so the capture is
      the longest run of class characters after `job_` that is followed by
      `_`. */
  function MatchAt(s: string, i: nat): Option<string> {
    if !OccursAt(s, "job_", i) then None
    else
      var e := RunEnd(s, i + 4);
      if e < i + 5 then None
      else
        match LastUnderscore(s, i + 5, e)
        case None => None
        case Some(j) => Some(s[i + 4..j])
  }

  /** A match at `i` captures the longest class run after `job_` that is
      followed by `_`; there is none when no such run exists. */
  lemma MatchAtMeaning(s: string, i: nat)
    ensures var r := MatchAt(s, i);
            r.Some? ==>
              && OccursAt(s, "job_", i)
              && exists j :: i + 5 <= j < |s| && s[j] == '_' && Run(s, i + 4, j) && r.value == s[i + 4..j]
                             && forall j' :: j < j' < |s| && s[j'] == '_' ==> !Run(s, i + 4, j')
    ensures MatchAt(s, i).None? ==>
              !OccursAt(s, "job_", i) || forall j :: i + 5 <= j < |s| && s[j] == '_' ==> !Run(s, i + 4, j)
  {
  }

  /** `re.search`: the match that starts leftmost at or after `i`. */
  function SearchFrom(s: string, i: nat): Option<string>
    decreases |s| + 1 - i
  {
    if i > |s| then None
    else if MatchAt(s, i).Some? then MatchAt(s, i)
    else SearchFrom(s, i + 1)
  }

  /** The search returns the leftmost match at or after `i`. */
  lemma {:induction false} SearchFromLeftmost(s: string, i: nat)
    decreases |s| + 1 - i
    ensures var r := SearchFrom(s, i);
            r.Some? ==> exists p: nat :: i <= p && MatchAt(s, p) == r && forall q: nat :: i <= q < p ==> MatchAt(s, q).None?
    ensures SearchFrom(s, i).None? ==> forall q: nat :: i <= q ==> MatchAt(s, q).None?
  {
    if i > |s| {
      forall q: nat | i <= q ensures MatchAt(s, q).None? {
        assert !OccursAt(s, "job_", q);
      }
    } else if MatchAt(s, i).Some? {
      assert SearchFrom(s, i) == MatchAt(s, i);
    } else {
      assert SearchFrom(s, i) == SearchFrom(s, i + 1);
      SearchFromLeftmost(s, i + 1);
      var r := SearchFrom(s, i);
      if r.Some? {
        var p: nat :| i + 1 <= p && MatchAt(s, p) == r && forall q: nat :: i + 1 <= q < p ==> MatchAt(s, q).None?;
        assert forall q: nat :: i <= q < p ==> MatchAt(s, q).None?;
      }
    }
  }

  /** The job an output file is listed under, `None` when the name does not
      match. */
  function GroupKey(name: string): Option<string> {
    SearchFrom(name, 0)
  }

  /** The key is the capture of the leftmost match. */
  lemma GroupKeyLeftmost(name: string)
    ensures var r := GroupKey(name);
            r.Some? ==> exists p: nat :: MatchAt(name, p) == r && forall q: nat :: q < p ==> MatchAt(name, q).None?
    ensures GroupKey(name).None? ==> forall q: nat :: MatchAt(name, q).None?
  {
    SearchFromLeftmost(name, 0);
  }

  /** A name `job_<key>_<tail>` is listed under `key` when the key is made of
      class characters and the tail holds class characters but no `_`. */
  lemma {:induction false} GroupOfJobName(key: string, tail: string)
    requires |key| > 0 && Run(key, 0, |key|) && Run(tail, 0, |tail|)
    requires forall k :: 0 <= k < |tail| ==> tail[k] != '_'
    ensures GroupKey("job_" + key + "_" + tail) == Some(key)
  {
    var s := "job_" + key + "_" + tail;
    var u := 4 + |key|;
    assert s[..4] == "job_";
    assert forall k :: 4 <= k < u ==> s[k] == key[k - 4];
    assert s[u] == '_';
    assert forall k :: u < k < |s| ==> s[k] == tail[k - u - 1];
    assert Run(s, 4, |s|);
    assert RunEnd(s, 4) == |s|;
    assert LastUnderscore(s, 5, |s|) == Some(u);
    assert s[4..u] == key;
    assert MatchAt(s, 0) == Some(key);
  }

  /** `s` can follow the last `_` of a grouped name: class characters
      other than `_`. */
  predicate PlainTail(s: string) {
    Run(s, 0, |s|) && forall k :: 0 <= k < |s| ==> s[k] != '_'
  }

  lemma PlainTailConcat(a: string, b: string)
    requires PlainTail(a) && PlainTail(b)
    ensures PlainTail(a + b)
  {
    assert forall k :: 0 <= k < |a + b| ==> (a + b)[k] == if k < |a| then a[k] else b[k - |a|];
  }

  /** Service names and output extensions are plain tails. */
  lemma OutputSuffixPlain(sourcePath: string, service: Backend)
    ensures PlainTail(Name(service)) && PlainTail(OutputExtension(sourcePath))
  {
    var x := Extension(sourcePath);
    var e := OutputExtension(sourcePath);
    assert e == (if IsRegeneratedExtension(x) then x else ".txt");
    if IsRegeneratedExtension(x) {
      ExtensionsPlain(x);
    } else {
      ExtensionsPlain(".txt");
    }
  }

  lemma ExtensionsPlain(e: string)
    requires e == ".docx" || e == ".pptx" || e == ".xlsx" || e == ".txt"
    ensures PlainTail(e)
  {
  }

  /** Every output of a job is listed under the job's id: the name is
      `job_<id>_<service><ext>` and the id is made of class characters. */
  lemma OutputGroupedByJob(sourcePath: string, service: Backend, id: string)
    requires |id| > 0 && Run(id, 0, |id|)
    ensures GroupKey(OutputName(sourcePath, service, Some(id))) == Some(id)
  {
    var n, e := Name(service), OutputExtension(sourcePath);
    OutputSuffixPlain(sourcePath, service);
    PlainTailConcat(n, e);
    GroupOfJobName(id, n + e);
    JobOutputNameParts(sourcePath, service, id);
  }

  /** The name of a job's output, cut at the `_` after the id. */
  lemma JobOutputNameParts(sourcePath: string, service: Backend, id: string)
    requires id != ""
    ensures OutputName(sourcePath, service, Some(id)) == "job_" + id + "_" + (Name(service) + OutputExtension(sourcePath))
  {
    var n, e := Name(service), OutputExtension(sourcePath);
    assert OutputBase(sourcePath, Some(id)) == "job_" + id;
    assert ("job_" + id) + "_" + n + e == "job_" + id + "_" + (n + e);
  }

  /** The critique report of job `id` is listed under `<id>_CRITIQUE`, not
      under `id`: the greedy capture runs up to the last `_` of the name. */
  lemma CritiqueReportGroup(id: string)
    requires |id| > 0 && Run(id, 0, |id|)
    ensures GroupKey(CritiqueReportName(Some(id))) == Some(id + "_CRITIQUE")
  {
    var key := id + "_CRITIQUE";
    assert forall k :: 0 <= k < |key| ==> key[k] == if k < |id| then id[k] else "_CRITIQUE"[k - |id|];
    GroupOfJobName(key, "REPORT.md");
    assert CritiqueReportName(Some(id)) == "job_" + key + "_" + "REPORT.md";
  }

  /** An ad-hoc job's id is made of class characters. */
  lemma HotFolderIdInClass(now: nat)
    ensures |HotFolderJobId(now)| > 0 && Run(HotFolderJobId(now), 0, |HotFolderJobId(now)|)
  {
    var id := HotFolderJobId(now);
    var digits := NatToString(now);
    assert forall k :: 0 <= k < |id| ==> id[k] == if k < 10 then "hotfolder_"[k] else digits[k - 10];
  }

  /** `job_123_gpt.txt` is listed under `123`. */
  lemma GroupExample()
    ensures GroupKey("job_123_gpt.txt") == Some("123")
  {
    GroupOfJobName("123", "gpt.txt");
    GroupSpelling();
  }

  lemma GroupSpelling()
    ensures "job_" + "123" + "_" + "gpt.txt" == "job_123_gpt.txt"
  {
    assert "job_" + "123" == "job_123";
    assert "job_123" + "_" == "job_123_";
  }

  /** `job_hotfolder_1700_gpt.txt` is listed under `hotfolder_1700`. */
  lemma HotFolderGroupExample()
    ensures GroupKey("job_hotfolder_1700_gpt.txt") == Some("hotfolder_1700")
  {
    GroupOfJobName("hotfolder_1700", "gpt.txt");
    HotFolderGroupSpelling();
  }

  lemma HotFolderGroupSpelling()
    ensures "job_" + "hotfolder_1700" + "_" + "gpt.txt" == "job_hotfolder_1700_gpt.txt"
  {
    assert "job_" + "hotfolder_1700" == "job_hotfolder_1700";
    assert "job_hotfolder_1700" + "_" == "job_hotfolder_1700_";
  }

  /** `job_123_CRITIQUE_REPORT.md` is listed under `123_CRITIQUE`. */
  lemma CritiqueGroupExample()
    ensures GroupKey("job_123_CRITIQUE_REPORT.md") == Some("123_CRITIQUE")
  {
    GroupOfJobName("123_CRITIQUE", "REPORT.md");
    CritiqueGroupSpelling();
  }

  lemma CritiqueGroupSpelling()
    ensures "job_" + "123_CRITIQUE" + "_" + "REPORT.md" == "job_123_CRITIQUE_REPORT.md"
  {
    assert "job_" + "123_CRITIQUE" == "job_123_CRITIQUE";
    assert "job_123_CRITIQUE" + "_" == "job_123_CRITIQUE_";
  }

  // ---------------------------------------------------------------------
  // Grouping the outputs directory
  // ---------------------------------------------------------------------

  /** `job_files`: for each group key, the names listed under it, in the
      order of the listing. */
  function GroupFiles(files: seq<string>): map<string, seq<string>> {
    if |files| == 0 then map[]
    else
      var init := GroupFiles(files[..|files| - 1]);
      var f := files[|files| - 1];
      match GroupKey(f)
      case None => init
      case Some(k) => init[k := (if k in init then init[k] else []) + [f]]
  }

  /** The names of the listing whose group key is `key`, in listing order. */
  function FilesOf(files: seq<string>, key: string): (r: seq<string>)
    ensures forall f :: f in r <==> f in files && GroupKey(f) == Some(key)
  {
    if |files| == 0 then []
    else
      var init := FilesOf(files[..|files| - 1], key);
      var f := files[|files| - 1];
      assert files == files[..|files| - 1] + [f];
      if GroupKey(f) == Some(key) then init + [f] else init
  }

  /** No name has the key: its list is empty. */
  lemma {:induction false} FilesOfNone(files: seq<string>, key: string)
    requires forall g :: g in files ==> GroupKey(g) != Some(key)
    ensures FilesOf(files, key) == []
  {
    if |files| > 0 {
      assert files[|files| - 1] in files;
      forall g | g in files[..|files| - 1] ensures GroupKey(g) != Some(key) {
        assert g in files;
      }
      FilesOfNone(files[..|files| - 1], key);
    }
  }

  /** The groups are exactly the keys of the matching names, and each group
      lists the names under its key in listing order; names that do not
      match are dropped. */
  lemma {:induction false} GroupFilesByKey(files: seq<string>)
    ensures forall key :: key in GroupFiles(files) <==> exists f :: f in files && GroupKey(f) == Some(key)
    ensures forall key :: key in GroupFiles(files) ==> GroupFiles(files)[key] == FilesOf(files, key)
  {
    if |files| > 0 {
      var init := files[..|files| - 1];
      var f := files[|files| - 1];
      GroupFilesByKey(init);
      assert files == init + [f];
      forall key ensures key in GroupFiles(files) <==> exists g :: g in files && GroupKey(g) == Some(key) {
        if key in GroupFiles(files) && GroupKey(f) != Some(key) {
          var g :| g in init && GroupKey(g) == Some(key);
          assert g in files;
        }
      }
      forall key | key in GroupFiles(files) ensures GroupFiles(files)[key] == FilesOf(files, key) {
        if GroupKey(f) == Some(key) && key !in GroupFiles(init) {
          FilesOfNone(init, key);
        }
      }
    }
  }

  // ---------------------------------------------------------------------
  // Reading the manifest
  // ---------------------------------------------------------------------

  /** Stripping keeps a comma, which is not whitespace. */
  lemma StripKeepsComma(line: string)
    requires Contains(line, ",")
    ensures Contains(Strip(line), ",")
  {
    var c := Find(line, ",").value;
    assert line[c] == ',';
    var a := SkipSpace(line, 0);
    var b := TrimEnd(line, a, |line|);
    assert a <= c < b;
    var r := line[a..b];
    assert r[c - a] == ',';
    assert r[c - a..c - a + 1] == ",";
    assert OccursAt(r, ",", c - a);
  }

  /** One manifest line: ignored without a comma, else stripped and cut at
      its first comma into the job id and the path. */
  function ParseManifestLine(line: string): Option<(string, string)> {
    if Contains(line, ",") then
      StripKeepsComma(line);
      Some(SplitOnce(Strip(line), ","))
    else None
  }

  /** A line is ignored exactly when it has no comma; otherwise the id, a
      comma and the path make up the stripped line, and the id holds no
      comma. */
  lemma ParseManifestLineShape(line: string)
    ensures var r := ParseManifestLine(line);
            && (r.None? <==> !Contains(line, ","))
            && (r.Some? ==> r.value.0 + "," + r.value.1 == Strip(line) && !Contains(r.value.0, ","))
  {
  }

  /** Each line of the manifest file, parsed. */
  function ManifestEntries(lines: seq<string>): (r: seq<Option<(string, string)>>)
    ensures |r| == |lines|
    ensures forall k :: 0 <= k < |r| ==> r[k] == ParseManifestLine(lines[k])
  {
    seq(|lines|, k requires 0 <= k < |lines| => ParseManifestLine(lines[k]))
  }

  /** The dict built from parsed lines, read in turn, a later entry for an
      id replacing an earlier one. */
  function ReadEntries(entries: seq<Option<(string, string)>>): map<string, string> {
    if |entries| == 0 then map[]
    else
      var init := ReadEntries(entries[..|entries| - 1]);
      match entries[|entries| - 1]
      case None => init
      case Some(entry) => init[entry.0 := entry.1]
  }

  /** `manifest` as `get_job_data` builds it from the file's lines. */
  function ReadManifest(lines: seq<string>): map<string, string> {
    ReadEntries(ManifestEntries(lines))
  }

  /** Entry `k` records `id`. */
  predicate Records(entries: seq<Option<(string, string)>>, k: int, id: string) {
    0 <= k < |entries| && entries[k].Some? && entries[k].value.0 == id
  }

  /** The manifest knows an id exactly when a line records it, and then
      gives the path of the last such line. */
  lemma {:induction false} ManifestLastWins(entries: seq<Option<(string, string)>>, id: string)
    ensures id in ReadEntries(entries) <==> exists k :: Records(entries, k, id)
    ensures forall k :: Records(entries, k, id) && (forall k' :: k < k' < |entries| ==> !Records(entries, k', id)) ==>
              ReadEntries(entries)[id] == entries[k].value.1
  {
    if |entries| > 0 {
      var n := |entries| - 1;
      var init := entries[..n];
      ManifestLastWins(init, id);
      assert forall k :: 0 <= k < n ==> init[k] == entries[k];
      assert forall k :: Records(init, k, id) <==> 0 <= k < n && Records(entries, k, id);
      if !Records(entries, n, id) && id in ReadEntries(entries) {
        var k :| Records(init, k, id);
        assert Records(entries, k, id);
      }
    }
  }

  /** The string holds no line terminator. */
  predicate NoBreak(s: string) {
    forall k :: 0 <= k < |s| ==> s[k] != '\n' && s[k] != '\r'
  }

  /** The first line terminator at or after `i`, or the end of the text. */
  function LineBreak(t: string, i: nat): (r: nat)
    requires i <= |t|
    decreases |t| - i
    ensures i <= r <= |t|
    ensures forall k :: i <= k < r ==> t[k] != '\n' && t[k] != '\r'
    ensures r < |t| ==> t[r] == '\n' || t[r] == '\r'
  {
    if i == |t| || t[i] == '\n' || t[i] == '\r' then i else LineBreak(t, i + 1)
  }

  /** The first terminator is where the scan stops. */
  lemma {:induction false} LineBreakIs(t: string, i: nat, e: nat)
    requires i <= e <= |t|
    requires forall k :: i <= k < e ==> t[k] != '\n' && t[k] != '\r'
    requires e < |t| ==> t[e] == '\n' || t[e] == '\r'
    ensures LineBreak(t, i) == e
    decreases e - i
  {
    if i < e {
      LineBreakIs(t, i + 1, e);
    }
  }

  /** Where the line ending at terminator `e` is followed by the next one:
      `\r\n` is one terminator. */
  function NextLine(t: string, e: nat): (r: nat)
    requires e < |t|
    ensures e < r <= |t|
  {
    if t[e] == '\r' && e + 1 < |t| && t[e + 1] == '\n' then e + 2 else e + 1
  }

  /** `for line in f` on a file opened in text mode: the text is cut after
      every `\n`, `\r` or `\r\n`, each terminator read as `\n`; a last
      piece without terminator is a line of its own. */
  function ReadLines(t: string): seq<string>
    decreases |t|
  {
    if |t| == 0 then []
    else
      var e := LineBreak(t, 0);
      if e == |t| then [t]
      else [t[..e] + "\n"] + ReadLines(t[NextLine(t, e)..])
  }

  /** The contents of the manifest file: each entry the engine wrote,
      followed by a newline. */
  function ManifestText(entries: seq<string>): (r: string)
    ensures |r| == 0 || r[|r| - 1] == '\n'
  {
    if |entries| == 0 then ""
    else ManifestText(entries[..|entries| - 1]) + entries[|entries| - 1] + "\n"
  }

  /** The lines `get_job_data` reads back from the manifest file. */
  function FileLines(entries: seq<string>): seq<string> {
    ReadLines(ManifestText(entries))
  }

  /** Text whose first terminator is at `e` reads as the line before it
      followed by the lines after the terminator. */
  lemma ReadLinesUnfold(t: string, e: nat)
    requires e < |t| && LineBreak(t, 0) == e
    ensures ReadLines(t) == [t[..e] + "\n"] + ReadLines(t[NextLine(t, e)..])
  {
  }

  /** Text that ends a line has a first terminator, and the text after it
      still ends a line; appending more text after it moves neither. */
  lemma FirstLineOfAppend(a: string, b: string) returns (e: nat)
    requires |a| > 0 && a[|a| - 1] == '\n'
    ensures e < |a| && LineBreak(a, 0) == e && LineBreak(a + b, 0) == e
    ensures NextLine(a, e) == NextLine(a + b, e)
    ensures (a + b)[..e] == a[..e]
    ensures (a + b)[NextLine(a, e)..] == a[NextLine(a, e)..] + b
  {
    e := LineBreak(a, 0);
    var t := a + b;
    assert forall k :: 0 <= k < |a| ==> t[k] == a[k];
    LineBreakIs(t, 0, e);
  }

  /** Text that ends a line reads as its own lines followed by those of
      what comes after it. */
  lemma {:induction false} ReadLinesAppend(a: string, b: string)
    requires |a| == 0 || a[|a| - 1] == '\n'
    ensures ReadLines(a + b) == ReadLines(a) + ReadLines(b)
    decreases |a|
  {
    if |a| == 0 {
      assert a + b == b;
    } else {
      var e := FirstLineOfAppend(a, b);
      var next := NextLine(a, e);
      var rest := a[next..];
      assert |rest| == 0 || rest[|rest| - 1] == a[|a| - 1];
      ReadLinesUnfold(a, e);
      ReadLinesUnfold(a + b, e);
      ReadLinesAppend(rest, b);
    }
  }

  /** A string without terminator, followed by a newline, is one line. */
  lemma ReadLinesOfLine(m: string)
    requires NoBreak(m)
    ensures ReadLines(m + "\n") == [m + "\n"]
  {
    var t := m + "\n";
    LineBreakIs(t, 0, |m|);
    assert t[..|m|] == m;
    assert t[|m| + 1..] == [];
  }

  /** Appending an entry without terminator appends exactly its line. */
  lemma FileLinesSnoc(entries: seq<string>, m: string)
    requires NoBreak(m)
    ensures FileLines(entries + [m]) == FileLines(entries) + [m + "\n"]
  {
    assert (entries + [m])[..|entries|] == entries;
    var prefix := ManifestText(entries);
    assert ManifestText(entries + [m]) == prefix + (m + "\n");
    ReadLinesAppend(prefix, m + "\n");
    ReadLinesOfLine(m);
  }

  /** When no entry holds a terminator, the file reads back as one line per
      entry, the entry followed by its newline. */
  lemma {:induction false} FileLinesOfPlainEntries(entries: seq<string>)
    requires forall k :: 0 <= k < |entries| ==> NoBreak(entries[k])
    ensures |FileLines(entries)| == |entries|
    ensures forall k :: 0 <= k < |entries| ==> FileLines(entries)[k] == entries[k] + "\n"
  {
    if |entries| > 0 {
      var init := entries[..|entries| - 1];
      var m := entries[|entries| - 1];
      FileLinesOfPlainEntries(init);
      assert init + [m] == entries;
      FileLinesSnoc(init, m);
    }
  }

  /** The line written for an ad-hoc job reads back as that job's id and
      path, when the id holds no comma and starts with no whitespace and
      the path ends with no whitespace. */
  lemma ManifestRoundTrip(id: string, path: string)
    requires !Contains(id, ",")
    requires |id| > 0 ==> !IsSpace(id[0])
    requires |path| > 0 ==> !IsSpace(path[|path| - 1])
    ensures ParseManifestLine(ManifestLine(id, path) + "\n") == Some((id, path))
  {
    var m := ManifestLine(id, path);
    var line := m + "\n";
    assert OccursAt(line, ",", |id|) by {
      assert line[|id|..|id| + 1] == ",";
    }
    WrittenLineStrips(id, path);
    WrittenLineFirstComma(id, path);
    assert m[..|id|] == id && m[|id| + 1..] == path;
  }

  /** Stripping the written line removes exactly its newline. */
  lemma WrittenLineStrips(id: string, path: string)
    requires |id| > 0 ==> !IsSpace(id[0])
    requires |path| > 0 ==> !IsSpace(path[|path| - 1])
    ensures Strip(ManifestLine(id, path) + "\n") == ManifestLine(id, path)
  {
    var m := ManifestLine(id, path);
    var line := m + "\n";
    assert line[0] == m[0] == if |id| > 0 then id[0] else ',';
    assert line[|m| - 1] == m[|m| - 1] == if |path| > 0 then path[|path| - 1] else ',';
    assert SkipSpace(line, 0) == 0;
    assert TrimEnd(line, 0, |line|) == TrimEnd(line, 0, |m|) == |m|;
    assert line[..|m|] == m;
  }

  /** The first comma of the written line is the one after the id. */
  lemma WrittenLineFirstComma(id: string, path: string)
    requires !Contains(id, ",")
    ensures Find(ManifestLine(id, path), ",") == Some(|id|)
  {
    var m := ManifestLine(id, path);
    OccursBetween(id, ",", path);
    forall j | 0 <= j < |id| ensures !OccursAt(m, ",", j) {
      assert m[j] == id[j];
      if OccursAt(m, ",", j) {
        assert OccursAt(id, ",", j) by {
          assert id[j..j + 1] == m[j..j + 1];
        }
      }
    }
  }

  /** No ad-hoc job id holds a comma or starts with whitespace. */
  lemma HotFolderIdShape(now: nat)
    ensures !Contains(HotFolderJobId(now), ",")
    ensures !IsSpace(HotFolderJobId(now)[0])
  {
    HotFolderIdInClass(now);
    var id := HotFolderJobId(now);
    assert id[0] == 'h';
    forall j | 0 <= j < |id| ensures !OccursAt(id, ",", j) {
      assert InClass(id[j]);
      assert j + 1 <= |id| ==> id[j..j + 1][0] == id[j];
    }
  }

  /** Reading one more line: a line with a comma records (or overwrites)
      its id, any other line is skipped. */
  lemma ReadManifestSnoc(lines: seq<string>, line: string)
    ensures ReadManifest(lines + [line]) ==
              match ParseManifestLine(line)
              case None => ReadManifest(lines)
              case Some(entry) => ReadManifest(lines)[entry.0 := entry.1]
  {
    var entries := ManifestEntries(lines + [line]);
    assert entries[..|lines|] == ManifestEntries(lines);
  }

  /** The written line holds a terminator only where its id or path does. */
  lemma ManifestLineNoBreak(id: string, path: string)
    requires NoBreak(id) && NoBreak(path)
    ensures NoBreak(ManifestLine(id, path))
  {
    var m := ManifestLine(id, path);
    forall k | 0 <= k < |m| ensures m[k] != '\n' && m[k] != '\r' {
      if k < |id| {
        assert m[k] == id[k];
      } else if k > |id| {
        assert m[k] == path[k - |id| - 1];
      }
    }
  }

  /** After an ad-hoc job the manifest maps its id to its source file, so
      the review page finds the file of every ad-hoc job whose path holds
      no line terminator and does not end in whitespace. */
  lemma HotFolderManifestReadBack(st: State, sourcePath: string, now: nat, cfg: Config, o: Outcomes)
    requires |sourcePath| > 0 ==> !IsSpace(sourcePath[|sourcePath| - 1])
    requires NoBreak(sourcePath)
    ensures var id := HotFolderJobId(now);
            var lines := FileLines(HotFolderJob(st, sourcePath, id, cfg, o).manifest);
            id in ReadManifest(lines) && ReadManifest(lines)[id] == sourcePath
  {
    var id := HotFolderJobId(now);
    HotFolderJobEffects(st, sourcePath, id, cfg, o);
    var m := ManifestLine(id, sourcePath);
    assert HotFolderJob(st, sourcePath, id, cfg, o).manifest == st.manifest + [m];
    HotFolderIdShape(now);
    HotFolderIdNoBreak(now);
    ManifestLineNoBreak(id, sourcePath);
    FileLinesSnoc(st.manifest, m);
    ManifestRoundTrip(id, sourcePath);
    ReadManifestSnoc(FileLines(st.manifest), m + "\n");
  }

  /** An ad-hoc job id holds no line terminator. */
  lemma HotFolderIdNoBreak(now: nat)
    ensures NoBreak(HotFolderJobId(now))
  {
    HotFolderIdInClass(now);
  }

  /** A line without a comma is skipped. */
  lemma CommalessLineSkipped(q: string)
    requires forall k :: 0 <= k < |q| ==> q[k] != ','
    ensures ParseManifestLine(q + "\n") == None
  {
    var line := q + "\n";
    forall j | 0 <= j ensures !OccursAt(line, ",", j) {
      if j + 1 <= |line| {
        assert line[j..j + 1][0] == line[j] != ',';
      }
    }
  }

  /** A path with a newline in it reads back cut at the newline: the part
      before it is recorded for the id, and the rest is a line without a
      comma, which is skipped. */
  lemma BrokenPathReadsBackCut(id: string, p: string, q: string)
    requires !Contains(id, ",") && NoBreak(id)
    requires |id| > 0 ==> !IsSpace(id[0])
    requires NoBreak(p) && (|p| > 0 ==> !IsSpace(p[|p| - 1]))
    requires NoBreak(q) && forall k :: 0 <= k < |q| ==> q[k] != ','
    ensures ReadManifest(FileLines([ManifestLine(id, p + "\n" + q)])) == map[id := p]
  {
    var first := ManifestLine(id, p) + "\n";
    BrokenPathLines(id, p, q);
    ManifestRoundTrip(id, p);
    CommalessLineSkipped(q);
    ReadManifestSnoc([], first);
    assert [first] == [] + [first];
    assert ReadManifest([first]) == map[id := p];
    ReadManifestSnoc([first], q + "\n");
    assert [first] + [q + "\n"] == [first, q + "\n"];
  }

  /** The line written for a path with a newline in it reads back as two
      lines. */
  lemma BrokenPathLines(id: string, p: string, q: string)
    requires NoBreak(id) && NoBreak(p) && NoBreak(q)
    ensures FileLines([ManifestLine(id, p + "\n" + q)]) == [ManifestLine(id, p) + "\n", q + "\n"]
  {
    var first := ManifestLine(id, p);
    ManifestLineNoBreak(id, p);
    var written := ManifestLine(id, p + "\n" + q);
    assert [written][..0] == [];
    assert ManifestText([written]) == ManifestText([]) + written + "\n";
    assert ManifestText([written]) == (first + "\n") + (q + "\n");
    ReadLinesAppend(first + "\n", q + "\n");
    ReadLinesOfLine(first);
    ReadLinesOfLine(q);
  }

  /** `get_job_data`, given the listing of the outputs directory and the
      lines of the manifest file (`None` for a missing directory or file). */
  method GetJobData(outputs: Option<seq<string>>, manifestFile: Option<seq<string>>)
    returns (jobFiles: map<string, seq<string>>, manifest: map<string, string>)
    ensures jobFiles == GroupFiles(if outputs.Some? then outputs.value else [])
    ensures manifest == ReadManifest(if manifestFile.Some? then manifestFile.value else [])
  {
    jobFiles := map[];
    if outputs.Some? {
      jobFiles := CollectJobFiles(outputs.value);
    }
    manifest := map[];
    if manifestFile.Some? {
      manifest := CollectManifest(manifestFile.value);
    }
  }

  /** The first loop of `get_job_data`: each listed name that matches is
      appended to its job's list. */
  method CollectJobFiles(files: seq<string>) returns (jobFiles: map<string, seq<string>>)
    ensures jobFiles == GroupFiles(files)
  {
    jobFiles := map[];
    var i := 0;
    while i < |files|
      invariant 0 <= i <= |files|
      invariant jobFiles == GroupFiles(files[..i])
    {
      assert files[..i + 1][..i] == files[..i];
      var key := GroupKey(files[i]);
      if key.Some? {
        var group := if key.value in jobFiles then jobFiles[key.value] else [];
        jobFiles := jobFiles[key.value := group + [files[i]]];
      }
      i := i + 1;
    }
    assert files[..i] == files;
  }

  /** The second loop of `get_job_data`: each line with a comma sets its
      id's path. */
  method CollectManifest(lines: seq<string>) returns (manifest: map<string, string>)
    ensures manifest == ReadManifest(lines)
  {
    manifest := map[];
    var i := 0;
    while i < |lines|
      invariant 0 <= i <= |lines|
      invariant manifest == ReadManifest(lines[..i])
    {
      ReadManifestSnoc(lines[..i], lines[i]);
      assert lines[..i + 1] == lines[..i] + [lines[i]];
      if Contains(lines[i], ",") {
        StripKeepsComma(lines[i]);
        var entry := SplitOnce(Strip(lines[i]), ",");
        manifest := manifest[entry.0 := entry.1];
      }
      i := i + 1;
    }
    assert lines[..i] == lines;
  }

  // ---------------------------------------------------------------------
  // Finding a job's source file
  // ---------------------------------------------------------------------

  const HotFolderPrefix: string := "hotfolder_"
  const NotFound: string := "Source file not found."

  /** The path the review page looks at for a job: ad-hoc ids through the
      manifest only, other ids through the first upload named after them. */
  function SourcePathOf(jobId: string, manifest: map<string, string>, uploads: Option<seq<string>>): Option<string> {
    if StartsWith(jobId, HotFolderPrefix) then
      if jobId in manifest then Some(manifest[jobId]) else None
    else MatchingUpload(uploads, jobId)
  }

  /** `find_source_file`: the source's file name and text when its path is
      known, non-empty and exists (`existing` holds the paths that exist and
      `content` is what extraction reads from the file); else no name and
      the fixed message. */
  function FindSource(jobId: string, manifest: map<string, string>, uploads: Option<seq<string>>,
                      existing: set<string>, content: string): (r: (Option<string>, string))
    ensures var p := SourcePathOf(jobId, manifest, uploads);
            r.0.None? <==> p.None? || p.value == "" || p.value !in existing
    ensures r.0.None? ==> r.1 == NotFound
  {
    match SourcePathOf(jobId, manifest, uploads)
    case Some(p) =>
      if p != "" && p in existing then (Some(Basename(p)), content) else (None, NotFound)
    case None => (None, NotFound)
  }

  /** Which record decides: an ad-hoc id never depends on the uploads, any
      other id never on the manifest. */
  lemma FindSourceRouting(jobId: string, manifest: map<string, string>, manifest2: map<string, string>,
                          uploads: Option<seq<string>>, uploads2: Option<seq<string>>,
                          existing: set<string>, content: string)
    ensures StartsWith(jobId, HotFolderPrefix) ==>
              FindSource(jobId, manifest, uploads, existing, content) == FindSource(jobId, manifest, uploads2, existing, content)
    ensures !StartsWith(jobId, HotFolderPrefix) ==>
              FindSource(jobId, manifest, uploads, existing, content) == FindSource(jobId, manifest2, uploads, existing, content)
  {
  }

  /** A found source is named after an existing file: for an ad-hoc id the
      one the manifest records, for any other id the first upload whose name
      starts with the id. */
  lemma FindSourceFound(jobId: string, manifest: map<string, string>, uploads: Option<seq<string>>,
                        existing: set<string>, content: string)
    ensures var r := FindSource(jobId, manifest, uploads, existing, content);
            r.0.Some? ==>
              && r.1 == content
              && (StartsWith(jobId, HotFolderPrefix) ==>
                    jobId in manifest && manifest[jobId] in existing && r.0.value == Basename(manifest[jobId]))
              && (!StartsWith(jobId, HotFolderPrefix) ==>
                    exists k :: 0 <= k < |uploads.value| && StartsWith(uploads.value[k], jobId)
                                && (forall j :: 0 <= j < k ==> !StartsWith(uploads.value[j], jobId))
                                && UploadsDir + "/" + uploads.value[k] in existing
                                && r.0.value == Basename(UploadsDir + "/" + uploads.value[k]))
  {
    var r := FindSource(jobId, manifest, uploads, existing, content);
    if r.0.Some? && !StartsWith(jobId, HotFolderPrefix) {
      var k := FirstWithPrefix(uploads.value, jobId).value;
      assert MatchingUpload(uploads, jobId) == Some(UploadsDir + "/" + uploads.value[k]);
    }
  }

  /** `find_source_file` with its scan of the uploads directory. */
  method FindSourceFile(jobId: string, manifest: map<string, string>, uploads: Option<seq<string>>,
                        existing: set<string>, content: string)
    returns (name: Option<string>, text: string)
    ensures (name, text) == FindSource(jobId, manifest, uploads, existing, content)
  {
    var sourcePath: Option<string> := None;
    if StartsWith(jobId, HotFolderPrefix) {
      if jobId in manifest {
        sourcePath := Some(manifest[jobId]);
      }
    } else if uploads.Some? {
      var files := uploads.value;
      var i := 0;
      while i < |files|
        invariant 0 <= i <= |files|
        invariant forall k :: 0 <= k < i ==> !StartsWith(files[k], jobId)
      {
        if StartsWith(files[i], jobId) {
          assert FirstWithPrefix(files, jobId) == Some(i);
          sourcePath := Some(UploadsDir + "/" + files[i]);
          break;
        }
        i := i + 1;
      }
    }
    if sourcePath.Some? && sourcePath.value != "" && sourcePath.value in existing {
      return Some(Basename(sourcePath.value)), content;
    }
    return None, NotFound;
  }
}
