/** regenerators/xlsx_regenerator.py: the workbook's string cells take the
    translated pieces in order. The cells are one array in the order the
    loops visit them: sheet by sheet, row by row, left to right. */
module Xlsx {
  import opened Text
  import opened Backends
  import opened Fill

  /** A cell value as openpyxl gives it: empty, a string, or a value of any
      other type (numbers, dates, booleans), which the model tells apart
      only by an integer. */
  datatype CellValue = Blank | Str(text: string) | Other(code: int)

  /** `cell.value and isinstance(cell.value, str)`: a non-empty string. */
  predicate IsCandidate(v: CellValue) {
    v.Str? && v.text != ""
  }

  function Flags(cells: seq<CellValue>): (r: seq<bool>)
    ensures |r| == |cells|
    ensures forall i :: 0 <= i < |r| ==> r[i] == IsCandidate(cells[i])
  {
    seq(|cells|, i requires 0 <= i < |cells| => IsCandidate(cells[i]))
  }

  /** What cell `i` holds after the loops. */
  function FilledCell(cells: seq<CellValue>, pieces: seq<string>, i: nat): CellValue
    requires i < |cells|
  {
    match Slot(Flags(cells), |pieces|, i)
    case Some(k) => Str(pieces[k])
    case None => cells[i]
  }

  function Filled(cells: seq<CellValue>, pieces: seq<string>): (r: seq<CellValue>)
    ensures |r| == |cells|
    ensures forall i :: 0 <= i < |r| ==> r[i] == FilledCell(cells, pieces, i)
  {
    seq(|cells|, i requires 0 <= i < |cells| => FilledCell(cells, pieces, i))
  }

  /** The k-th non-empty string cell takes piece k while pieces last; every
      other cell, and every string cell past the last piece, keeps its
      value. */
  lemma FilledCells(cells: seq<CellValue>, pieces: seq<string>)
    ensures forall i :: 0 <= i < |cells| && IsCandidate(cells[i]) && CandidatesBefore(Flags(cells), i) < |pieces| ==>
              Filled(cells, pieces)[i] == Str(pieces[CandidatesBefore(Flags(cells), i)])
    ensures forall i :: 0 <= i < |cells| && !(IsCandidate(cells[i]) && CandidatesBefore(Flags(cells), i) < |pieces|) ==>
              Filled(cells, pieces)[i] == cells[i]
  {
  }

  /** The loops over the workbook, on its cells in visiting order; the
      result is the final `text_index`. */
  method FillCells(cells: array<CellValue>, pieces: seq<string>) returns (textIndex: nat)
    modifies cells
    ensures cells[..] == Filled(old(cells[..]), pieces)
    ensures textIndex == Min(Count(Flags(old(cells[..]))), |pieces|)
  {
    ghost var before := cells[..];
    ghost var flags := Flags(before);
    textIndex := 0;
    var i := 0;
    while i < cells.Length
      invariant 0 <= i <= cells.Length
      invariant textIndex == Min(CandidatesBefore(flags, i), |pieces|)
      invariant forall j :: 0 <= j < i ==> cells[j] == FilledCell(before, pieces, j)
      invariant forall j :: i <= j < cells.Length ==> cells[j] == before[j]
    {
      RankStep(flags, i);
      if cells[i].Str? && cells[i].text != "" {
        if textIndex < |pieces| {
          cells[i] := Str(pieces[textIndex]);
          textIndex := textIndex + 1;
        }
      }
      i := i + 1;
    }
    assert cells[..] == Filled(before, pieces);
  }

  /** `create_xlsx_from_text`. Loading the workbook and saving it are I/O:
      `loaded` and `saved` say whether each succeeded, and `failure` is the
      text of the exception raised otherwise. The workbook is changed only
      when it was loaded, and the status is an error string exactly when
      loading or saving failed. */
  method CreateXlsxFromText(book: array<CellValue>, loaded: bool, translatedText: string, outputPath: string,
                            saved: bool, failure: string)
    returns (status: string)
    modifies book
    ensures loaded ==> book[..] == Filled(old(book[..]), Pieces(translatedText))
    ensures !loaded ==> book[..] == old(book[..])
    ensures status == Status(loaded && saved, outputPath, "xlsx", failure)
    ensures IsError(status) <==> !(loaded && saved)
  {
    StatusIsError(loaded && saved, outputPath, "xlsx", failure);
    if !loaded {
      return ErrorPrefix("xlsx") + failure;
    }
    var translatedTexts := Split(translatedText, "\n\n");
    var _ := FillCells(book, translatedTexts);
    if !saved {
      return ErrorPrefix("xlsx") + failure;
    }
    return Created(outputPath);
  }
}
