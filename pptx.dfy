/** regenerators/pptx_regenerator.py: the shapes of the presentation that
    have a text frame take the translated pieces in order. The shapes are
    one array in the order the loops visit them: slide by slide, and within
    a slide in the order of its shape tree. */
module Pptx {
  import opened Text
  import opened Backends
  import opened Fill

  /** A shape on a slide: one with a text frame (whose text may be empty),
      or one without (a picture, a chart, a group), told apart only by a
      name. */
  datatype Shape = Framed(text: string) | Frameless(name: string)

  /** `hasattr(shape, "text")`: the shape has a text frame, empty or not. */
  predicate IsCandidate(s: Shape) {
    s.Framed?
  }

  function Flags(shapes: seq<Shape>): (r: seq<bool>)
    ensures |r| == |shapes|
    ensures forall i :: 0 <= i < |r| ==> r[i] == IsCandidate(shapes[i])
  {
    seq(|shapes|, i requires 0 <= i < |shapes| => IsCandidate(shapes[i]))
  }

  /** What shape `i` is after the loops. */
  function FilledShape(shapes: seq<Shape>, pieces: seq<string>, i: nat): Shape
    requires i < |shapes|
  {
    match Slot(Flags(shapes), |pieces|, i)
    case Some(k) => Framed(pieces[k])
    case None => shapes[i]
  }

  function Filled(shapes: seq<Shape>, pieces: seq<string>): (r: seq<Shape>)
    ensures |r| == |shapes|
    ensures forall i :: 0 <= i < |r| ==> r[i] == FilledShape(shapes, pieces, i)
  {
    seq(|shapes|, i requires 0 <= i < |shapes| => FilledShape(shapes, pieces, i))
  }

  /** The k-th shape with a text frame takes piece k while pieces last, even
      when its text was empty; shapes without a text frame, and framed
      shapes past the last piece, are left as they were. */
  lemma FilledShapes(shapes: seq<Shape>, pieces: seq<string>)
    ensures forall i :: 0 <= i < |shapes| && IsCandidate(shapes[i]) && CandidatesBefore(Flags(shapes), i) < |pieces| ==>
              Filled(shapes, pieces)[i] == Framed(pieces[CandidatesBefore(Flags(shapes), i)])
    ensures forall i :: 0 <= i < |shapes| && !(IsCandidate(shapes[i]) && CandidatesBefore(Flags(shapes), i) < |pieces|) ==>
              Filled(shapes, pieces)[i] == shapes[i]
  {
  }

  /** The loops over the slides, on their shapes in visiting order; the
      result is the final `para_index`. */
  method FillShapes(shapes: array<Shape>, pieces: seq<string>) returns (paraIndex: nat)
    modifies shapes
    ensures shapes[..] == Filled(old(shapes[..]), pieces)
    ensures paraIndex == Min(Count(Flags(old(shapes[..]))), |pieces|)
  {
    ghost var before := shapes[..];
    ghost var flags := Flags(before);
    paraIndex := 0;
    var i := 0;
    while i < shapes.Length
      invariant 0 <= i <= shapes.Length
      invariant paraIndex == Min(CandidatesBefore(flags, i), |pieces|)
      invariant forall j :: 0 <= j < i ==> shapes[j] == FilledShape(before, pieces, j)
      invariant forall j :: i <= j < shapes.Length ==> shapes[j] == before[j]
    {
      RankStep(flags, i);
      if shapes[i].Framed? {
        if paraIndex < |pieces| {
          shapes[i] := Framed(pieces[paraIndex]);
          paraIndex := paraIndex + 1;
        }
      }
      i := i + 1;
    }
    assert shapes[..] == Filled(before, pieces);
  }

  /** `create_pptx_from_text`. Opening the presentation and saving it are
      I/O: `loaded` and `saved` say whether each succeeded, and `failure` is
      the text of the exception raised otherwise. The presentation is
      changed only when it was opened, and the status is an error string
      exactly when opening or saving failed. */
  method CreatePptxFromText(deck: array<Shape>, loaded: bool, translatedText: string, outputPath: string,
                            saved: bool, failure: string)
    returns (status: string)
    modifies deck
    ensures loaded ==> deck[..] == Filled(old(deck[..]), Pieces(translatedText))
    ensures !loaded ==> deck[..] == old(deck[..])
    ensures status == Status(loaded && saved, outputPath, "pptx", failure)
    ensures IsError(status) <==> !(loaded && saved)
  {
    StatusIsError(loaded && saved, outputPath, "pptx", failure);
    if !loaded {
      return ErrorPrefix("pptx") + failure;
    }
    var translatedParagraphs := Split(translatedText, "\n\n");
    var _ := FillShapes(deck, translatedParagraphs);
    if !saved {
      return ErrorPrefix("pptx") + failure;
    }
    return Created(outputPath);
  }
}
