/** The regular-expression and path helpers of the job engine: the language
    pair in a feed title, the job id in a feed link, the leading digits of an
    uploaded file name, `os.path.basename`/`splitext`, and the `_to_<LANG>`
    rule of hot-folder file names. */
module Parsing {
  import opened Text

  /** `[\w\s]` */
  predicate IsWordOrSpace(c: char) {
    IsWordChar(c) || IsSpace(c)
  }

  // ---------------------------------------------------------------------
  // parse_languages: re.search(r'([\w\s]+)/([\w\s]+)', title)
  // ---------------------------------------------------------------------

  /** Some match of the pattern: group 1 is `s[i..j]`, the slash is at `j`,
      group 2 is `s[j+1..k]`; both groups are non-empty runs of `[\w\s]`. */
  predicate PairMatch(s: string, i: int, j: int, k: int) {
    0 <= i < j && j + 1 < k <= |s| && s[j] == '/'
    && (forall p :: i <= p < j ==> IsWordOrSpace(s[p]))
    && (forall p :: j < p < k ==> IsWordOrSpace(s[p]))
  }

  /** The match `re.search` reports: it starts at the leftmost position where
      any match starts, and the greedy second group runs as far as it can. */
  ghost predicate SearchResult(s: string, i: int, j: int, k: int) {
    PairMatch(s, i, j, k)
    && (k == |s| || !IsWordOrSpace(s[k]))
    && forall i', j', k' :: PairMatch(s, i', j', k') ==> i <= i'
  }

  /** A slash with a `[\w\s]` character on both sides. */
  predicate FlankedSlash(s: string, j: int) {
    0 < j && j + 1 < |s| && s[j] == '/' && IsWordOrSpace(s[j - 1]) && IsWordOrSpace(s[j + 1])
  }

  function FirstFlankedSlash(s: string, from: nat): (r: Option<nat>)
    decreases |s| - from
    ensures r.Some? ==> from <= r.value && FlankedSlash(s, r.value)
    ensures r.Some? ==> forall q :: from <= q < r.value ==> !FlankedSlash(s, q)
    ensures r.None? ==> forall q :: from <= q ==> !FlankedSlash(s, q)
  {
    if from >= |s| then None
    else if FlankedSlash(s, from) then Some(from)
    else FirstFlankedSlash(s, from + 1)
  }

  /** Start of the longest `[\w\s]` run that ends just before `j`. */
  function RunStart(s: string, j: nat): (r: nat)
    requires j <= |s|
    ensures r <= j
    ensures forall p :: r <= p < j ==> IsWordOrSpace(s[p])
    ensures r > 0 ==> !IsWordOrSpace(s[r - 1])
  {
    if j == 0 || !IsWordOrSpace(s[j - 1]) then j else RunStart(s, j - 1)
  }

  /** End of the longest `[\w\s]` run that starts at `j`. */
  function RunEnd(s: string, j: nat): (r: nat)
    requires j <= |s|
    decreases |s| - j
    ensures j <= r <= |s|
    ensures forall p :: j <= p < r ==> IsWordOrSpace(s[p])
    ensures r < |s| ==> !IsWordOrSpace(s[r])
  {
    if j == |s| || !IsWordOrSpace(s[j]) then j else RunEnd(s, j + 1)
  }

  /** Every match of the pattern has a flanked slash at its middle. */
  lemma MatchHasFlankedSlash(s: string, i: int, j: int, k: int)
    requires PairMatch(s, i, j, k)
    ensures FlankedSlash(s, j)
  {
    assert IsWordOrSpace(s[j - 1]) && IsWordOrSpace(s[j + 1]);
  }

  /** The positions of the match `re.search` finds, or None when the title
      holds no `lang/lang` pair. */
  function FindPair(s: string): (r: Option<(nat, nat, nat)>)
    ensures r.None? <==> forall i, j, k :: !PairMatch(s, i, j, k)
    ensures r.Some? ==> SearchResult(s, r.value.0, r.value.1, r.value.2)
  {
    match FirstFlankedSlash(s, 0)
    case None =>
      assert forall i, j, k :: !PairMatch(s, i, j, k) by {
        forall i, j, k | PairMatch(s, i, j, k) ensures false {
          MatchHasFlankedSlash(s, i, j, k);
        }
      }
      None
    case Some(j) =>
      var i := RunStart(s, j);
      var k := RunEnd(s, j + 1);
      assert PairMatch(s, i, j, k);
      assert forall i', j', k' :: PairMatch(s, i', j', k') ==> i <= i' by {
        forall i', j', k' | PairMatch(s, i', j', k') ensures i <= i' {
          MatchHasFlankedSlash(s, i', j', k');
        }
      }
      Some((i, j, k))
  }

  /** `parse_languages`: both groups of the search, stripped of surrounding
      whitespace, or `(None, None)` when there is no match. */
  function ParseLanguages(title: string): (r: (Option<string>, Option<string>))
    ensures r.0.None? <==> r.1.None?
  {
    match FindPair(title)
    case None => (None, None)
    case Some((i, j, k)) => (Some(Strip(title[i..j])), Some(Strip(title[j + 1..k])))
  }

  /** The languages are absent exactly when the title holds no match, and
      otherwise are the two groups of the match `re.search` reports, stripped. */
  lemma ParseLanguagesMatch(title: string)
    ensures var r := ParseLanguages(title);
            r.0.None? <==> forall i, j, k :: !PairMatch(title, i, j, k)
    ensures var r := ParseLanguages(title);
            r.0.Some? ==> exists i, j, k :: SearchResult(title, i, j, k)
                                            && r.0.value == Strip(title[i..j])
                                            && r.1.value == Strip(title[j + 1..k])
  {
    var f := FindPair(title);
    if f.Some? {
      var (i, j, k) := f.value;
      assert SearchResult(title, i, j, k);
      assert ParseLanguages(title) == (Some(Strip(title[i..j])), Some(Strip(title[j + 1..k])));
    }
  }

  // ---------------------------------------------------------------------
  // get_job_id_from_link: re.search(r'/(\d+)', link)
  // ---------------------------------------------------------------------

  /** Some match of the pattern: the slash at `p`, the digits `s[p+1..e]`. */
  predicate IdMatch(s: string, p: int, e: int) {
    0 <= p && p + 1 < e <= |s| && s[p] == '/' && forall q :: p < q < e ==> IsDigit(s[q])
  }

  /** The leftmost match with its digit run taken as long as it goes. */
  ghost predicate IdSearchResult(s: string, p: int, e: int) {
    IdMatch(s, p, e)
    && (e == |s| || !IsDigit(s[e]))
    && forall p', e' :: IdMatch(s, p', e') ==> p <= p'
  }

  predicate SlashThenDigit(s: string, p: int) {
    0 <= p && p + 1 < |s| && s[p] == '/' && IsDigit(s[p + 1])
  }

  function FirstSlashThenDigit(s: string, from: nat): (r: Option<nat>)
    decreases |s| - from
    ensures r.Some? ==> from <= r.value && SlashThenDigit(s, r.value)
    ensures r.Some? ==> forall q :: from <= q < r.value ==> !SlashThenDigit(s, q)
    ensures r.None? ==> forall q :: from <= q ==> !SlashThenDigit(s, q)
  {
    if from >= |s| then None
    else if SlashThenDigit(s, from) then Some(from)
    else FirstSlashThenDigit(s, from + 1)
  }

  /** End of the run of digits that starts at `j`. */
  function DigitRunEnd(s: string, j: nat): (r: nat)
    requires j <= |s|
    decreases |s| - j
    ensures j <= r <= |s|
    ensures forall q :: j <= q < r ==> IsDigit(s[q])
    ensures r < |s| ==> !IsDigit(s[r])
  {
    if j == |s| || !IsDigit(s[j]) then j else DigitRunEnd(s, j + 1)
  }

  /** `get_job_id_from_link`: the digits after the first slash that is
      followed by a digit, or None. */
  function JobIdFromLink(link: string): (r: Option<string>)
    ensures r.None? <==> forall p, e :: !IdMatch(link, p, e)
    ensures r.Some? ==> exists p, e :: IdSearchResult(link, p, e) && r.value == link[p + 1..e]
    ensures r.Some? ==> |r.value| > 0 && forall q :: 0 <= q < |r.value| ==> IsDigit(r.value[q])
  {
    match FirstSlashThenDigit(link, 0)
    case None =>
      assert forall p, e :: !IdMatch(link, p, e) by {
        forall p, e | IdMatch(link, p, e) ensures false {
          assert SlashThenDigit(link, p);
        }
      }
      None
    case Some(p) =>
      var e := DigitRunEnd(link, p + 1);
      assert IdMatch(link, p, e);
      assert forall p', e' :: IdMatch(link, p', e') ==> p <= p' by {
        forall p', e' | IdMatch(link, p', e') ensures p <= p' {
          assert SlashThenDigit(link, p');
        }
      }
      assert IdSearchResult(link, p, e);
      Some(link[p + 1..e])
  }

  // ---------------------------------------------------------------------
  // re.match(r'^(\d+)', name)
  // ---------------------------------------------------------------------

  /** The run of digits at the very start of a file name, if there is one. */
  function LeadingDigits(name: string): (r: Option<string>)
    ensures r.None? <==> (|name| == 0 || !IsDigit(name[0]))
    ensures r.Some? ==> StartsWith(name, r.value) && |r.value| > 0
    ensures r.Some? ==> forall q :: 0 <= q < |r.value| ==> IsDigit(r.value[q])
    ensures r.Some? ==> |r.value| == |name| || !IsDigit(name[|r.value|])
  {
    var e := DigitRunEnd(name, 0);
    if e == 0 then None else Some(name[..e])
  }

  // ---------------------------------------------------------------------
  // os.path.basename / os.path.splitext (POSIX separator '/')
  // ---------------------------------------------------------------------

  /** Index just past the last `c` before `hi`, or 0 when there is none. */
  function AfterLast(s: string, c: char, hi: nat): (r: nat)
    requires hi <= |s|
    ensures r <= hi
    ensures r > 0 ==> s[r - 1] == c
    ensures forall q :: r <= q < hi ==> s[q] != c
  {
    if hi == 0 then 0 else if s[hi - 1] == c then hi else AfterLast(s, c, hi - 1)
  }

  /** `os.path.basename`: the text after the last `/`. */
  function Basename(path: string): (r: string)
    ensures EndsWith(path, r)
    ensures forall q :: 0 <= q < |r| ==> r[q] != '/'
    ensures |r| == |path| || path[|path| - |r| - 1] == '/'
  {
    var a := AfterLast(path, '/', |path|);
    assert path[|path| - |path[a..]|..] == path[a..];
    path[a..]
  }

  /** Whether some character before `hi` differs from `.`. */
  predicate HasNonDotBefore(name: string, hi: nat)
    requires hi <= |name|
  {
    exists q :: 0 <= q < hi && name[q] != '.'
  }

  /** `os.path.splitext` of a name without `/`: the extension starts at the
      last dot, unless everything before that dot is dots (so `.bashrc` has
      no extension). */
  function SplitExt(name: string): (r: (string, string))
    ensures r.0 + r.1 == name
    ensures r.1 == [] || (r.1[0] == '.' && forall q :: 1 <= q < |r.1| ==> r.1[q] != '.')
    ensures r.1 != [] ==> HasNonDotBefore(name, |r.0|)
    ensures r.1 == [] ==> forall d :: 0 <= d < |name| && name[d] == '.' ==>
                            (forall q :: d < q < |name| ==> name[q] != '.') ==> !HasNonDotBefore(name, d)
  {
    var a := AfterLast(name, '.', |name|);
    if a == 0 || !HasNonDotBefore(name, a - 1) then
      (name, [])
    else
      assert name == name[..a - 1] + name[a - 1..];
      (name[..a - 1], name[a - 1..])
  }

  /** The file name of a path without its extension, as core.py:66 and
      core.py:142 compute it. */
  function Stem(path: string): string {
    SplitExt(Basename(path)).0
  }

  /** The extension of a path. `os.path.splitext` ignores dots before the last
      separator, so this equals the extension of the base name. */
  function Extension(path: string): string {
    SplitExt(Basename(path)).1
  }

  // ---------------------------------------------------------------------
  // The `_to_<LANG>` rule of hot-folder file names (core.py:141-143)
  // ---------------------------------------------------------------------

  const TargetMarker: string := "_to_"

  function Last<T>(s: seq<T>): T
    requires |s| > 0
  {
    s[|s| - 1]
  }

  /** The target language of an ad-hoc file: the last piece of
      `stem.split('_to_')` when the stem holds the marker, else the
      configured default. */
  function HotFolderTarget(filename: string, default: string): string {
    var stem := SplitExt(filename).0;
    if Contains(stem, TargetMarker) then Last(Split(stem, TargetMarker)) else default
  }

  /** With the marker present, the target is a marker-free tail of the stem
      that directly follows an occurrence of the marker; without it, the
      default. */
  lemma HotFolderTargetShape(filename: string, default: string)
    ensures var stem := SplitExt(filename).0;
            var t := HotFolderTarget(filename, default);
            if Contains(stem, TargetMarker) then EndsWith(stem, TargetMarker + t) && !Contains(t, TargetMarker)
            else t == default
  {
    var stem := SplitExt(filename).0;
    if Contains(stem, TargetMarker) {
      var pieces := Split(stem, TargetMarker);
      JoinSplit(stem, TargetMarker);
      SplitPiecesLackSep(stem, TargetMarker);
      assert |pieces| > 1;
      JoinLast(pieces, TargetMarker);
    }
  }

  /** Joining at least two pieces ends in the separator and the last piece. */
  lemma {:induction false} JoinLast(pieces: seq<string>, sep: string)
    requires |pieces| > 1
    ensures EndsWith(Join(pieces, sep), sep + Last(pieces))
  {
    if |pieces| == 2 {
      assert Join(pieces[1..], sep) == pieces[1];
    } else {
      JoinLast(pieces[1..], sep);
      var j := Join(pieces[1..], sep);
      assert Join(pieces, sep) == pieces[0] + sep + j;
      var t := sep + Last(pieces);
      assert (pieces[0] + sep + j)[|pieces[0] + sep + j| - |t|..] == j[|j| - |t|..];
    }
  }

  // ---------------------------------------------------------------------
  // Small instances of the cases the helper tests exercise
  // ---------------------------------------------------------------------

  /** A pair after a `|` separator, with whitespace stripped on both sides. */
  lemma LanguagesExample()
    ensures ParseLanguages("| ja/ en") == (Some("ja"), Some("en"))
  {
    PairExampleFound();
    PairExampleGroups();
    PairExampleStrips();
  }

  /** The two groups of `"| ja/ en"`, spelt out. */
  lemma PairExampleGroups()
    ensures "| ja/ en"[1..4] == " ja" && "| ja/ en"[5..8] == " en"
  {
    var s := "| ja/ en";
    assert s[1..4] == " ja";
    assert s[5..8] == " en";
  }

  /** Each group loses its leading blank. */
  lemma PairExampleStrips()
    ensures Strip(" ja") == "ja" && Strip(" en") == "en"
  {
    assert " ja" == " " + "ja" && " en" == " " + "en";
    StripLeadingBlank("ja");
    StripLeadingBlank("en");
  }

  /** The groups of `"| ja/ en"` are `" ja"` and `" en"`. */
  lemma PairExampleFound()
    ensures FindPair("| ja/ en") == Some((1, 4, 8))
  {
    var s := "| ja/ en";
    assert FirstFlankedSlash(s, 0) == Some(4);
    assert RunStart(s, 4) == 1;
    assert RunEnd(s, 5) == 8;
  }

  /** A title without a slash names no languages. */
  lemma NoLanguagesExample()
    ensures ParseLanguages("a job") == (None, None)
  {
  }

  /** The digits after `/` stop at the query string. */
  lemma JobIdExample()
    ensures JobIdFromLink("t/jobs/12?r") == Some("12")
  {
    var s := "t/jobs/12?r";
    assert FirstSlashThenDigit(s, 0) == Some(6);
    assert DigitRunEnd(s, 7) == 9;
    assert s[7..9] == "12";
  }

  /** A link whose path holds no digits has no id. */
  lemma NoJobIdExample()
    ensures JobIdFromLink("t/jobs/") == None
  {
  }

  /** `split` cuts "_to_to_" at index 0 and leaves "to_", although the last
      occurrence of the marker starts at index 4. */
  lemma OverlappingMarkerExample()
    ensures HotFolderTarget("a_to_to_.txt", "en") == "to_"
  {
    var name := "a_to_to_.txt";
    assert AfterLast(name, '.', 9) == 9;
    assert AfterLast(name, '.', 10) == 9;
    assert AfterLast(name, '.', 11) == 9;
    assert AfterLast(name, '.', 12) == 9;
    assert HasNonDotBefore(name, 8) by { assert name[0] != '.'; }
    var stem := name[..8];
    assert SplitExt(name).0 == stem;
    assert stem == "a_to_to_";
    assert OccursAt(stem, TargetMarker, 1);
    assert !OccursAt(stem, TargetMarker, 0);
    assert Find(stem, TargetMarker) == Some(1);
    assert stem[5..] == "to_";
    SplitAtFirst(stem, TargetMarker, 1);
    SplitWithout("to_", TargetMarker);
    assert stem[..1] == "a";
    assert Split(stem, TargetMarker) == ["a"] + ["to_"];
    assert OccursAt(stem, TargetMarker, 4);
  }
}
