/** Prompt assembly of translators/utils.py: the glossary section and the
    substitution of the placeholders into a prompt template. A Python dict
    is an association list here, in insertion order, with distinct keys. */
module Prompt {
  import opened Text

  type Dict = seq<(string, string)>

  /** No key appears twice, as in a Python dict. */
  predicate DistinctKeys(d: Dict) {
    forall i, j :: 0 <= i < j < |d| ==> d[i].0 != d[j].0
  }

  /** `d.get(key)`. */
  function Lookup(d: Dict, key: string): (r: Option<string>)
    ensures r.None? <==> forall k :: 0 <= k < |d| ==> d[k].0 != key
    ensures r.Some? ==> exists k :: 0 <= k < |d| && d[k] == (key, r.value)
  {
    if |d| == 0 then None
    else if d[0].0 == key then Some(d[0].1)
    else
      var r := Lookup(d[1..], key);
      assert r.Some? ==> exists k :: 1 <= k < |d| && d[k] == (key, r.value) by {
        if r.Some? {
          var k :| 0 <= k < |d[1..]| && d[1..][k] == (key, r.value);
          assert d[k + 1] == (key, r.value);
        }
      }
      r
  }

  /** Position of `key` among the keys of `d`. */
  function IndexOf(d: Dict, key: string): (r: Option<nat>)
    ensures r.None? <==> forall k :: 0 <= k < |d| ==> d[k].0 != key
    ensures r.Some? ==> r.value < |d| && d[r.value].0 == key
  {
    if |d| == 0 then None
    else if d[0].0 == key then Some(0)
    else
      match IndexOf(d[1..], key)
      case None => None
      case Some(k) => Some(k + 1)
  }

  /** `d[key] = value`: an existing key keeps its place and takes the new
      value; a new key is appended at the end. */
  function Put(d: Dict, key: string, value: string): Dict {
    match IndexOf(d, key)
    case Some(k) => d[k := (key, value)]
    case None => d + [(key, value)]
  }

  /** After `d[key] = value` the key maps to the value, every other key to
      what it mapped to before, and the keys stay distinct. */
  lemma PutLookup(d: Dict, key: string, value: string)
    requires DistinctKeys(d)
    ensures DistinctKeys(Put(d, key, value))
    ensures Lookup(Put(d, key, value), key) == Some(value)
    ensures forall other :: other != key ==> Lookup(Put(d, key, value), other) == Lookup(d, other)
  {
    var p := Put(d, key, value);
    var pos: nat;
    match IndexOf(d, key)
    case Some(k) =>
      pos := k;
      assert forall j :: 0 <= j < |d| ==> p[j].0 == d[j].0;
    case None =>
      pos := |d|;
    assert pos < |p| && p[pos] == (key, value);
    assert forall j :: 0 <= j < |p| && j != pos ==> p[j] == d[j];
    LookupUnique(p, key);
    forall other | other != key ensures Lookup(p, other) == Lookup(d, other) {
      LookupUnique(d, other);
      LookupUnique(p, other);
      if Lookup(d, other).Some? {
        var j :| 0 <= j < |d| && d[j] == (other, Lookup(d, other).value);
        assert p[j] == d[j];
      }
    }
  }

  /** In a dict with distinct keys, `Lookup` gives the value paired with the
      key wherever it stands. */
  lemma LookupUnique(d: Dict, key: string)
    requires DistinctKeys(d)
    ensures forall k :: 0 <= k < |d| && d[k].0 == key ==> Lookup(d, key) == Some(d[k].1)
  {
    if Lookup(d, key).Some? {
      forall k | 0 <= k < |d| && d[k].0 == key ensures Lookup(d, key) == Some(d[k].1) {
        var j :| 0 <= j < |d| && d[j] == (key, Lookup(d, key).value);
        assert j == k;
      }
    }
  }

  /** Where `d[key] = value` leaves the key: at its old position when it was
      present, the length unchanged; last otherwise. Every other entry keeps
      its place. */
  lemma PutPosition(d: Dict, key: string, value: string)
    ensures var p := Put(d, key, value);
            if Lookup(d, key).Some? then
              |p| == |d| && exists k :: 0 <= k < |d| && d[k].0 == key && p[k] == (key, value)
            else
              |p| == |d| + 1 && p[|d|] == (key, value)
    ensures var p := Put(d, key, value);
            forall k :: 0 <= k < |d| && d[k].0 != key ==> p[k] == d[k]
  {
  }

  // ---------------------------------------------------------------------
  // The glossary section
  // ---------------------------------------------------------------------

  const GlossaryKey: string := "{glossary_section}"
  const GlossaryHeader: string := "You must adhere to the following glossary terms:"

  /** The instruction for one glossary entry. */
  function TermLine(term: string, translation: string): string {
    "- \"" + term + "\" must be translated as \"" + translation + "\""
  }

  /** One instruction per entry, in the glossary's order. */
  function TermLines(glossary: Dict): (r: seq<string>)
    ensures |r| == |glossary|
    ensures forall k :: 0 <= k < |r| ==> r[k] == TermLine(glossary[k].0, glossary[k].1)
  {
    seq(|glossary|, k requires 0 <= k < |glossary| => TermLine(glossary[k].0, glossary[k].1))
  }

  /** The text put in place of `{glossary_section}`: nothing for an empty
      glossary, else the header line and the term lines, each line closed
      by a newline. */
  function GlossarySection(glossary: Dict): (r: string)
    ensures r == "" <==> |glossary| == 0
  {
    if |glossary| == 0 then ""
    else GlossaryHeader + "\n" + Join(TermLines(glossary), "\n") + "\n"
  }

  /** A joined piece is part of the joined text. */
  lemma {:induction false} JoinAround(pieces: seq<string>, sep: string, k: nat)
    requires k < |pieces|
    ensures exists a, z :: Join(pieces, sep) == a + pieces[k] + z
    decreases k
  {
    if |pieces| == 1 {
      assert Join(pieces, sep) == "" + pieces[0] + "";
    } else if k == 0 {
      assert Join(pieces, sep) == "" + pieces[0] + (sep + Join(pieces[1..], sep));
    } else {
      JoinAround(pieces[1..], sep, k - 1);
      var a, z :| Join(pieces[1..], sep) == a + pieces[1..][k - 1] + z;
      assert Join(pieces, sep) == (pieces[0] + sep + a) + pieces[k] + z;
    }
  }

  lemma Regroup(h: string, a: string, l: string, z: string, e: string)
    ensures h + ((a + l + z) + e) == (h + a) + l + (z + e)
  {
  }

  /** A non-empty glossary section opens with the header line, holds the
      instruction of every entry and ends with a newline. */
  lemma GlossarySectionShape(glossary: Dict)
    requires |glossary| > 0
    ensures StartsWith(GlossarySection(glossary), GlossaryHeader + "\n")
    ensures EndsWith(GlossarySection(glossary), "\n")
    ensures forall k :: 0 <= k < |glossary| ==> Contains(GlossarySection(glossary), TermLine(glossary[k].0, glossary[k].1))
  {
    var lines := TermLines(glossary);
    var body := Join(lines, "\n");
    var r := GlossarySection(glossary);
    assert r == (GlossaryHeader + "\n") + (body + "\n");
    StartsWithAppend(GlossaryHeader + "\n", body + "\n");
    forall k | 0 <= k < |glossary| ensures Contains(r, TermLine(glossary[k].0, glossary[k].1)) {
      JoinAround(lines, "\n", k);
      var a, z :| body == a + lines[k] + z;
      Regroup(GlossaryHeader + "\n", a, lines[k], z, "\n");
      OccursBetween(GlossaryHeader + "\n" + a, lines[k], z + "\n");
    }
  }

  // ---------------------------------------------------------------------
  // Substitution
  // ---------------------------------------------------------------------

  /** The template after `template.replace(key, value)` for every item, in
      order, each over the result of the one before. */
  function SubstituteAll(template: string, items: Dict): string {
    if |items| == 0 then template
    else
      var last := items[|items| - 1];
      ReplaceAll(SubstituteAll(template, items[..|items| - 1]), last.0, last.1)
  }

  /** A template that contains none of the keys comes back unchanged. */
  lemma {:induction false} SubstituteAbsent(template: string, items: Dict)
    requires forall k :: 0 <= k < |items| ==> !Contains(template, items[k].0)
    ensures SubstituteAll(template, items) == template
  {
    if |items| > 0 {
      var init := items[..|items| - 1];
      SubstituteAbsent(template, init);
      var last := items[|items| - 1];
      assert |last.0| > 0 by {
        if |last.0| == 0 {
          assert OccursAt(template, last.0, 0);
        }
      }
      ReplaceAbsent(template, last.0, last.1);
    }
  }

  /** Substituting one more item is one more `replace` on the result. */
  lemma SubstituteSnoc(template: string, items: Dict, i: nat)
    requires i < |items|
    ensures SubstituteAll(template, items[..i + 1])
            == ReplaceAll(SubstituteAll(template, items[..i]), items[i].0, items[i].1)
  {
    assert items[..i + 1][..i] == items[..i];
  }

  /** When a key occurs once, that occurrence is replaced and the rest of
      the text kept. */
  lemma ReplaceSingle(s: string, key: string, value: string, i: nat)
    requires |key| > 0 && OccursAt(s, key, i)
    requires forall j :: 0 <= j < i ==> !OccursAt(s, key, j)
    requires !Contains(s[i + |key|..], key)
    ensures ReplaceAll(s, key, value) == s[..i] + value + s[i + |key|..]
  {
    assert Find(s, key) == Some(i);
    ReplaceAbsent(s[i + |key|..], key, value);
  }

  /** Every occurrence of a key is replaced: `replace` equals cutting at the
      key and joining the pieces, none of which holds the key, with the
      value. */
  lemma ReplaceEveryOccurrence(s: string, key: string, value: string)
    requires |key| > 0
    ensures ReplaceAll(s, key, value) == Join(Split(s, key), value)
    ensures forall k :: 0 <= k < |Split(s, key)| ==> !Contains(Split(s, key)[k], key)
    ensures Join(Split(s, key), key) == s
  {
    ReplaceAllIsSplitJoin(s, key, value);
    SplitPiecesLackSep(s, key);
    JoinSplit(s, key);
  }

  /** A key that starts with a character found nowhere before `i` does not
      occur before `i`. */
  lemma NoEarlierOccurrence(s: string, key: string, i: nat)
    requires |key| > 0 && i <= |s|
    requires forall j :: 0 <= j < i ==> s[j] != key[0]
    ensures forall j :: 0 <= j < i ==> !OccursAt(s, key, j)
  {
    forall j | 0 <= j < i ensures !OccursAt(s, key, j) {
      assert s[j] != key[0];
    }
  }

  predicate Lacks(s: string, c: char) {
    forall j :: 0 <= j < |s| ==> s[j] != c
  }

  /** A key whose first character occurs nowhere else in the text is
      replaced where it stands. */
  lemma FillOnce(p: string, key: string, q: string, value: string)
    requires |key| > 0 && Lacks(p, key[0]) && Lacks(q, key[0])
    ensures ReplaceAll(p + key + q, key, value) == p + value + q
  {
    var s := p + key + q;
    OccursBetween(p, key, q);
    NoEarlierOccurrence(s, key, |p|);
    assert s[|p| + |key|..] == q;
    NoEarlierOccurrence(q, key, |q|);
    ReplaceSingle(s, key, value, |p|);
    assert s[..|p|] == p;
  }

  /** `Text: {text}` becomes `Text: Translate this.`. */
  lemma FillExample()
    ensures ReplaceAll("Text: {text}", "{text}", "Translate this.") == "Text: Translate this."
  {
    var p, key := "Text: ", "{text}";
    assert Lacks(p, '{');
    assert Lacks("", '{');
    FillOnce(p, key, "", "Translate this.");
    FillSpelling();
  }

  lemma FillSpelling()
    ensures "Text: " + "{text}" + "" == "Text: {text}"
    ensures "Text: " + "Translate this." + "" == "Text: Translate this."
  {
  }

  /** The placeholders dict the caller passes and the function extends. */
  class Placeholders {
    var items: Dict

    constructor (initial: Dict)
      ensures items == initial
    {
      items := initial;
    }

    /** `placeholders[key] = value`. */
    method Set(key: string, value: string)
      modifies this
      ensures items == Put(old(items), key, value)
    {
      var k := IndexOf(items, key);
      if k.Some? {
        items := items[k.value := (key, value)];
      } else {
        items := items + [(key, value)];
      }
    }
  }

  /** The items a call leaves in the placeholders dict: those passed in and
      the glossary section under `{glossary_section}`. */
  function InjectedItems(items: Dict, glossary: Dict): Dict {
    Put(items, GlossaryKey, GlossarySection(glossary))
  }

  /** After a call the dict holds the glossary section under
      `{glossary_section}`, which is substituted last unless the caller had
      already set that key; the caller's other placeholders are kept. */
  lemma InjectedItemsEffects(items: Dict, glossary: Dict)
    requires DistinctKeys(items)
    ensures var d := InjectedItems(items, glossary);
            && DistinctKeys(d)
            && Lookup(d, GlossaryKey) == Some(GlossarySection(glossary))
            && (forall key :: key != GlossaryKey ==> Lookup(d, key) == Lookup(items, key))
            && (Lookup(items, GlossaryKey).None? ==> |d| == |items| + 1 && d[|items|] == (GlossaryKey, GlossarySection(glossary)))
            && (Lookup(items, GlossaryKey).Some? ==> |d| == |items|)
  {
    PutLookup(items, GlossaryKey, GlossarySection(glossary));
    PutPosition(items, GlossaryKey, GlossarySection(glossary));
  }

  /** `get_prompt_with_glossary` with the template's text and the glossary
      passed in: it stores the glossary section in the caller's dict, then
      replaces each key of the dict in turn. */
  method GetPromptWithGlossary(template: string, glossary: Dict, placeholders: Placeholders) returns (prompt: string)
    modifies placeholders
    ensures placeholders.items == InjectedItems(old(placeholders.items), glossary)
    ensures prompt == SubstituteAll(template, placeholders.items)
  {
    var section := "";
    if |glossary| > 0 {
      var terms := Join(TermLines(glossary), "\n");
      section := GlossaryHeader + "\n" + terms + "\n";
    }
    assert section == GlossarySection(glossary);
    placeholders.Set(GlossaryKey, section);
    var items := placeholders.items;
    prompt := template;
    var i := 0;
    while i < |items|
      invariant 0 <= i <= |items|
      invariant prompt == SubstituteAll(template, items[..i])
      invariant placeholders.items == items
    {
      SubstituteSnoc(template, items, i);
      prompt := ReplaceAll(prompt, items[i].0, items[i].1);
      i := i + 1;
    }
    assert items[..i] == items;
  }
}
