/** The assignment both document regenerators perform: the translated text
    is cut into pieces at blank lines, and the elements of the document that
    can hold text, visited in document order, take the pieces one after the
    other until the pieces run out. Here an element is reduced to whether
    it is a candidate; `Xlsx` and `Pptx` say which elements are. */
module Fill {
  import opened Text
  import opened Backends

  const PieceSeparator: string := "\n\n"

  /** `translated_text.split('\n\n')`. */
  function Pieces(translated: string): (r: seq<string>)
    ensures |r| >= 1
    ensures forall k :: 0 <= k < |r| ==> !Contains(r[k], PieceSeparator)
    ensures Join(r, PieceSeparator) == translated
  {
    SplitPiecesLackSep(translated, PieceSeparator);
    JoinSplit(translated, PieceSeparator);
    Split(translated, PieceSeparator)
  }

  /** How many candidates come before position `i`. */
  function CandidatesBefore(flags: seq<bool>, i: nat): (r: nat)
    requires i <= |flags|
    ensures r <= i
  {
    if i == 0 then 0 else CandidatesBefore(flags, i - 1) + (if flags[i - 1] then 1 else 0)
  }

  /** The number of candidates. */
  function Count(flags: seq<bool>): nat {
    CandidatesBefore(flags, |flags|)
  }

  function Min(a: nat, b: nat): nat {
    if a <= b then a else b
  }

  /** The index of the piece that position `i` receives: its rank, when it
      is a candidate and pieces remain. */
  function Slot(flags: seq<bool>, pieceCount: nat, i: nat): (r: Option<nat>)
    requires i < |flags|
    ensures r.Some? <==> flags[i] && CandidatesBefore(flags, i) < pieceCount
    ensures r.Some? ==> r.value < pieceCount
  {
    if flags[i] && CandidatesBefore(flags, i) < pieceCount then Some(CandidatesBefore(flags, i)) else None
  }

  /** Ranks never decrease, and a candidate ranks below everything after it. */
  lemma {:induction false} RankMonotone(flags: seq<bool>, i: nat, j: nat)
    requires i <= j <= |flags|
    ensures CandidatesBefore(flags, i) <= CandidatesBefore(flags, j)
    ensures i < j && flags[i] ==> CandidatesBefore(flags, i) < CandidatesBefore(flags, j)
    decreases j
  {
    if i < j {
      RankMonotone(flags, i, j - 1);
    }
  }

  /** Pieces land in document order: of two positions that both receive a
      piece, the earlier one receives the earlier piece, so no piece is used
      twice. */
  lemma SlotsInOrder(flags: seq<bool>, pieceCount: nat, i: nat, j: nat)
    requires i < j < |flags|
    requires Slot(flags, pieceCount, i).Some? && Slot(flags, pieceCount, j).Some?
    ensures Slot(flags, pieceCount, i).value < Slot(flags, pieceCount, j).value
  {
    RankMonotone(flags, i, j);
  }

  /** Every rank below the number of candidates before `n` belongs to a
      candidate before `n`. */
  lemma {:induction false} RankHits(flags: seq<bool>, n: nat, k: nat)
    requires n <= |flags| && k < CandidatesBefore(flags, n)
    ensures exists i :: 0 <= i < n && flags[i] && CandidatesBefore(flags, i) == k
  {
    if k < CandidatesBefore(flags, n - 1) {
      RankHits(flags, n - 1, k);
    } else {
      assert flags[n - 1] && CandidatesBefore(flags, n - 1) == k;
    }
  }

  /** Some position receives piece `k`. */
  predicate Placed(flags: seq<bool>, pieceCount: nat, k: nat) {
    exists i: nat :: i < |flags| && Slot(flags, pieceCount, i) == Some(k)
  }

  /** Exactly the first `Min(Count(flags), pieceCount)` pieces are used, each
      by one position; any further pieces are dropped. */
  lemma PiecesUsed(flags: seq<bool>, pieceCount: nat)
    ensures forall k: nat :: k < Min(Count(flags), pieceCount) ==> Placed(flags, pieceCount, k)
    ensures forall i :: 0 <= i < |flags| && Slot(flags, pieceCount, i).Some? ==>
              Slot(flags, pieceCount, i).value < Min(Count(flags), pieceCount)
  {
    forall k: nat | k < Min(Count(flags), pieceCount) ensures Placed(flags, pieceCount, k) {
      PieceLands(flags, pieceCount, k);
    }
    forall i | 0 <= i < |flags| && Slot(flags, pieceCount, i).Some?
      ensures Slot(flags, pieceCount, i).value < Min(Count(flags), pieceCount)
    {
      RankMonotone(flags, i, |flags|);
    }
  }

  /** Piece `k` is placed when there are more than `k` pieces and more than
      `k` candidates. */
  lemma PieceLands(flags: seq<bool>, pieceCount: nat, k: nat)
    requires k < Min(Count(flags), pieceCount)
    ensures Placed(flags, pieceCount, k)
  {
    RankHits(flags, |flags|, k);
    var i :| 0 <= i < |flags| && flags[i] && CandidatesBefore(flags, i) == k;
    assert Slot(flags, pieceCount, i) == Some(k);
  }

  /** One more position visited: the rank counts it when it is a candidate. */
  lemma RankStep(flags: seq<bool>, i: nat)
    requires i < |flags|
    ensures CandidatesBefore(flags, i + 1) == CandidatesBefore(flags, i) + (if flags[i] then 1 else 0)
  {
  }

  /** The status returned on success. */
  function Created(outputPath: string): string {
    "Successfully created " + outputPath
  }

  /** The start of a regenerator's error message, for documents of the
      given extension (`xlsx`, `pptx`). */
  function ErrorPrefix(extension: string): string {
    "Error: Failed to regenerate ." + extension + " file. "
  }

  /** What a regenerator returns: the success message when the document was
      read and written, otherwise its error prefix followed by the text of
      the exception. */
  function Status(done: bool, outputPath: string, extension: string, failure: string): string {
    if done then Created(outputPath) else ErrorPrefix(extension) + failure
  }

  /** The status reads as an error exactly when the regeneration failed,
      whatever the extension and the exception. */
  lemma StatusIsError(done: bool, outputPath: string, extension: string, failure: string)
    ensures IsError(Status(done, outputPath, extension, failure)) <==> !done
  {
    assert Created(outputPath)[0] == 'S';
    var message := ErrorPrefix(extension) + failure;
    assert message[..6] == "Error:" by {
      assert message[0] == 'E' && message[1] == 'r' && message[2] == 'r';
      assert message[3] == 'o' && message[4] == 'r' && message[5] == ':';
    }
  }
}
