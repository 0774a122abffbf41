/** Python string operations the translator relies on, stated over seq<char>:
    character classes of the `re` module, `in`, `startswith`, `find`,
    `split`, `join`, `replace` and `strip`. */
module Text {

  datatype Option<T> = None | Some(value: T)

  /** The characters Python's `str.isspace` accepts, which are also those
      `str.strip()` drops and `\s` matches: the ASCII tab, line feed,
      vertical tab, form feed, carriage return, the separators U+001C to
      U+001F and the space, then U+0085, U+00A0, U+1680, U+2000 to U+200A,
      U+2028, U+2029, U+202F, U+205F and U+3000. */
  predicate IsSpace(c: char) {
    c == ' ' || c == '\t' || c == '\n' || c == '\r' || c == '\U{B}' || c == '\U{C}'
    || ('\U{1C}' <= c <= '\U{1F}')
    || c == '\U{85}' || c == '\U{A0}' || c == '\U{1680}'
    || ('\U{2000}' <= c <= '\U{200A}')
    || c == '\U{2028}' || c == '\U{2029}' || c == '\U{202F}' || c == '\U{205F}' || c == '\U{3000}'
  }

  /** `\d`, ASCII digits only. */
  predicate IsDigit(c: char) {
    '0' <= c <= '9'
  }

  predicate IsAsciiLetter(c: char) {
    ('a' <= c <= 'z') || ('A' <= c <= 'Z')
  }

  /** `\w`: ASCII letters, digits and underscore, and every non-ASCII
      character that is not whitespace (letters of other scripts). */
  predicate IsWordChar(c: char) {
    IsAsciiLetter(c) || IsDigit(c) || c == '_' || (c > '\U{7F}' && !IsSpace(c))
  }

  predicate StartsWith(s: string, prefix: string) {
    |prefix| <= |s| && s[..|prefix|] == prefix
  }

  predicate EndsWith(s: string, suffix: string) {
    |suffix| <= |s| && s[|s| - |suffix|..] == suffix
  }

  /** `pattern` occurs in `s` starting at index `i`. */
  predicate OccursAt(s: string, pattern: string, i: int) {
    0 <= i && i + |pattern| <= |s| && s[i..i + |pattern|] == pattern
  }

  /** `s.find(pattern, start)`: the leftmost occurrence at or after `start`. */
  function FindFrom(s: string, pattern: string, start: nat): (r: Option<nat>)
    decreases |s| - start
    ensures r.Some? ==> start <= r.value && OccursAt(s, pattern, r.value)
    ensures r.Some? ==> forall j :: start <= j < r.value ==> !OccursAt(s, pattern, j)
    ensures r.None? ==> forall j :: start <= j ==> !OccursAt(s, pattern, j)
  {
    if start + |pattern| > |s| then None
    else if s[start..start + |pattern|] == pattern then Some(start)
    else FindFrom(s, pattern, start + 1)
  }

  function Find(s: string, pattern: string): (r: Option<nat>)
    ensures r.Some? ==> OccursAt(s, pattern, r.value)
    ensures r.Some? ==> forall j :: 0 <= j < r.value ==> !OccursAt(s, pattern, j)
    ensures r.None? ==> forall j :: !OccursAt(s, pattern, j)
  {
    FindFrom(s, pattern, 0)
  }

  /** Python's `pattern in s`. */
  predicate Contains(s: string, pattern: string) {
    Find(s, pattern).Some?
  }

  /** `sep.join(pieces)`. */
  function Join(pieces: seq<string>, sep: string): string {
    if |pieces| == 0 then ""
    else if |pieces| == 1 then pieces[0]
    else pieces[0] + sep + Join(pieces[1..], sep)
  }

  /** `s.split(sep)` for a non-empty separator: cut at the leftmost occurrence,
      then go on after it, so occurrences never overlap. */
  function Split(s: string, sep: string): (r: seq<string>)
    requires |sep| > 0
    decreases |s|
    ensures |r| >= 1
  {
    match Find(s, sep)
    case None => [s]
    case Some(i) => [s[..i]] + Split(s[i + |sep|..], sep)
  }

  /** No piece of a split holds the separator. */
  lemma {:induction false} SplitPiecesLackSep(s: string, sep: string)
    requires |sep| > 0
    ensures forall k :: 0 <= k < |Split(s, sep)| ==> !Contains(Split(s, sep)[k], sep)
    decreases |s|
  {
    var f := Find(s, sep);
    if f.None? {
    } else {
      var i := f.value;
      PrefixBeforeFirstLacks(s, sep, i);
      var tail := Split(s[i + |sep|..], sep);
      SplitPiecesLackSep(s[i + |sep|..], sep);
      var pieces := Split(s, sep);
      SplitAtFirst(s, sep, i);
      forall k | 0 <= k < |pieces| ensures !Contains(pieces[k], sep) {
        if k > 0 {
          assert pieces[k] == tail[k - 1];
        }
      }
    }
  }

  /** The text before the leftmost occurrence of `sep` holds no occurrence. */
  lemma PrefixBeforeFirstLacks(s: string, sep: string, i: nat)
    requires |sep| > 0 && OccursAt(s, sep, i)
    requires forall j :: 0 <= j < i ==> !OccursAt(s, sep, j)
    ensures !Contains(s[..i], sep)
  {
    if Contains(s[..i], sep) {
      var j := Find(s[..i], sep).value;
      assert OccursAt(s[..i], sep, j);
      assert s[..i][j..j + |sep|] == s[j..j + |sep|];
      assert OccursAt(s, sep, j) && j < i;
      assert false;
    }
  }

  /** Round trip: joining the pieces of a split with the same separator
      gives back the original string. */
  lemma {:induction false} JoinSplit(s: string, sep: string)
    requires |sep| > 0
    ensures Join(Split(s, sep), sep) == s
    decreases |s|
  {
    var f := Find(s, sep);
    if f.Some? {
      var i := f.value;
      var rest := s[i + |sep|..];
      SplitAtFirst(s, sep, i);
      JoinSplit(rest, sep);
      JoinCons(s[..i], Split(rest, sep), sep);
      AroundOccurrence(s, sep, i);
    }
  }

  /** Unfolding of a split at the leftmost occurrence of the separator. */
  lemma SplitAtFirst(s: string, sep: string, i: nat)
    requires |sep| > 0 && Find(s, sep) == Some(i)
    ensures Split(s, sep) == [s[..i]] + Split(s[i + |sep|..], sep)
  {
  }

  /** A string is the text before an occurrence, the occurrence, and the rest. */
  lemma AroundOccurrence(s: string, pattern: string, i: nat)
    requires OccursAt(s, pattern, i)
    ensures s == s[..i] + pattern + s[i + |pattern|..]
  {
    assert s == s[..i] + s[i..i + |pattern|] + s[i + |pattern|..];
  }

  /** A string placed between two others occurs there. */
  lemma OccursBetween(a: string, pattern: string, z: string)
    ensures OccursAt(a + pattern + z, pattern, |a|) && Contains(a + pattern + z, pattern)
  {
    assert (a + pattern + z)[|a|..|a| + |pattern|] == pattern;
    assert OccursAt(a + pattern + z, pattern, |a|);
  }

  lemma StartsWithAppend(a: string, z: string)
    ensures StartsWith(a + z, a)
  {
    assert (a + z)[..|a|] == a;
  }

  lemma JoinCons(head: string, tail: seq<string>, sep: string)
    requires |tail| > 0
    ensures Join([head] + tail, sep) == head + sep + Join(tail, sep)
  {
    assert ([head] + tail)[1..] == tail;
  }

  /** Splitting a string that holds no separator gives the string itself. */
  lemma SplitWithout(s: string, sep: string)
    requires |sep| > 0 && !Contains(s, sep)
    ensures Split(s, sep) == [s]
  {
  }

  /** `s.split(sep, 1)` when `sep in s`. */
  function SplitOnce(s: string, sep: string): (r: (string, string))
    requires |sep| > 0 && Contains(s, sep)
    ensures r.0 + sep + r.1 == s
    ensures !Contains(r.0, sep)
  {
    var i := Find(s, sep).value;
    PrefixBeforeFirstLacks(s, sep, i);
    assert s == s[..i] + sep + s[i + |sep|..];
    (s[..i], s[i + |sep|..])
  }

  /** `s.replace(key, repl)`: every non-overlapping occurrence of `key`, leftmost
      first, is replaced; an empty `key` inserts `repl` around every character. */
  function ReplaceAll(s: string, key: string, repl: string): string
  {
    if |key| == 0 then InsertAround(s, repl) else ReplaceFound(s, key, repl)
  }

  /** `s.replace("", repl)`. */
  function InsertAround(s: string, repl: string): string {
    if |s| == 0 then repl else repl + [s[0]] + InsertAround(s[1..], repl)
  }

  /** `s.replace(key, repl)` for a non-empty key. */
  function ReplaceFound(s: string, key: string, repl: string): string
    requires |key| > 0
    decreases |s|
  {
    match Find(s, key)
    case None => s
    case Some(i) => s[..i] + repl + ReplaceFound(s[i + |key|..], key, repl)
  }

  /** Replacing in a string whose leftmost occurrence of a non-empty key is at
      `i`: the text before it, the value, and the replacement of the rest. */
  lemma ReplaceAllStep(s: string, key: string, repl: string, i: nat)
    requires |key| > 0 && Find(s, key) == Some(i)
    ensures ReplaceAll(s, key, repl) == s[..i] + repl + ReplaceAll(s[i + |key|..], key, repl)
  {
  }

  /** `replace` is split at the key followed by join with the value. */
  lemma {:induction false} ReplaceAllIsSplitJoin(s: string, key: string, repl: string)
    requires |key| > 0
    ensures ReplaceAll(s, key, repl) == Join(Split(s, key), repl)
    decreases |s|
  {
    var f := Find(s, key);
    if f.Some? {
      var i := f.value;
      var rest := s[i + |key|..];
      var tail := Split(rest, key);
      ReplaceAllStep(s, key, repl, i);
      ReplaceAllIsSplitJoin(rest, key, repl);
      SplitAtFirst(s, key, i);
      JoinCons(s[..i], tail, repl);
    } else {
      assert Split(s, key) == [s];
    }
  }

  /** A string that does not contain a non-empty key is left as it is. */
  lemma ReplaceAbsent(s: string, key: string, repl: string)
    requires |key| > 0 && !Contains(s, key)
    ensures ReplaceAll(s, key, repl) == s
  {
  }

  /** Index of the first character at or after `lo` that is not whitespace. */
  function SkipSpace(s: string, lo: nat): (r: nat)
    requires lo <= |s|
    decreases |s| - lo
    ensures lo <= r <= |s|
    ensures forall k :: lo <= k < r ==> IsSpace(s[k])
    ensures r < |s| ==> !IsSpace(s[r])
  {
    if lo == |s| || !IsSpace(s[lo]) then lo else SkipSpace(s, lo + 1)
  }

  /** One past the last character before `hi` that is not whitespace, but no
      lower than `lo`. */
  function TrimEnd(s: string, lo: nat, hi: nat): (r: nat)
    requires lo <= hi <= |s|
    decreases hi
    ensures lo <= r <= hi
    ensures forall k :: r <= k < hi ==> IsSpace(s[k])
    ensures r > lo ==> !IsSpace(s[r - 1])
  {
    if hi == lo || !IsSpace(s[hi - 1]) then hi else TrimEnd(s, lo, hi - 1)
  }

  /** `s.strip()`: the longest slice without leading or trailing whitespace,
      obtained by dropping whitespace only. */
  function Strip(s: string): (r: string)
    ensures exists a, b :: 0 <= a <= b <= |s| && r == s[a..b]
                           && (forall k :: 0 <= k < a ==> IsSpace(s[k]))
                           && (forall k :: b <= k < |s| ==> IsSpace(s[k]))
    ensures |r| > 0 ==> !IsSpace(r[0]) && !IsSpace(r[|r| - 1])
  {
    var a := SkipSpace(s, 0);
    var b := TrimEnd(s, a, |s|);
    assert a < b ==> !IsSpace(s[a]);
    s[a..b]
  }

  /** A string without leading or trailing whitespace is its own strip. */
  lemma StripTrimmed(s: string)
    requires |s| > 0 ==> !IsSpace(s[0]) && !IsSpace(s[|s| - 1])
    ensures Strip(s) == s
  {
    var a := SkipSpace(s, 0);
    assert a == 0;
  }

  /** Stripping twice strips nothing more. */
  lemma StripIdempotent(s: string)
    ensures Strip(Strip(s)) == Strip(s)
  {
    StripTrimmed(Strip(s));
  }

  /** One leading blank before a word without outer whitespace is stripped. */
  lemma StripLeadingBlank(w: string)
    requires |w| > 0 && !IsSpace(w[0]) && !IsSpace(w[|w| - 1])
    ensures Strip(" " + w) == w
  {
    var s := " " + w;
    assert SkipSpace(s, 1) == 1;
    assert SkipSpace(s, 0) == 1;
    assert TrimEnd(s, 1, |s|) == |s|;
    assert s[1..] == w;
  }

  function LowerChar(c: char): char {
    if 'A' <= c <= 'Z' then (c as int - 'A' as int + 'a' as int) as char else c
  }

  /** `s.lower()` on ASCII letters. */
  function Lower(s: string): (r: string)
    ensures |r| == |s|
    ensures forall k :: 0 <= k < |s| ==> r[k] == LowerChar(s[k])
  {
    if |s| == 0 then "" else [LowerChar(s[0])] + Lower(s[1..])
  }

  /** Decimal rendering of a natural number, as `str(n)` gives it. */
  function NatToString(n: nat): (r: string)
    ensures |r| > 0
    ensures forall k :: 0 <= k < |r| ==> IsDigit(r[k])
  {
    if n < 10 then [DigitChar(n)] else NatToString(n / 10) + [DigitChar(n % 10)]
  }

  function DigitChar(d: nat): (c: char)
    requires d < 10
    ensures IsDigit(c)
  {
    ('0' as int + d) as char
  }
}
