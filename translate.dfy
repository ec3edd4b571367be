// `translateRange` / `translateTextEdits`: edits computed against text that
// was extracted from a sub-range are moved back into whole-document
// coordinates by adding the sub-range's start position. As in the source,
// the column offset is added to EVERY position, not only to positions on the
// first line of the extracted text. `TranslateTextEditsFirstLine` is the
// corrected translation, which shifts columns on line 0 only, and
// `TranslateMisplacesInteriorColumns` exhibits the difference.

module Translate {
  import opened EditorTypes

  /** Component-wise sum of two positions. */
  function Add(a: Position, b: Position): Position
  {
    Position(a.line + b.line, a.character + b.character)
  }

  /** Component-wise negation, the inverse of a shift. */
  function Neg(a: Position): Position
  {
    Position(-a.line, -a.character)
  }

  /** Shifts both ends of `range` by `offset` (line and column). */
  function TranslateRange(range: Range, offset: Position): (r: Range)
    ensures r.start.line - range.start.line == offset.line && r.end.line - range.end.line == offset.line
    ensures r.start.character - range.start.character == offset.character
    ensures r.end.character - range.end.character == offset.character
  {
    Range(Add(range.start, offset), Add(range.end, offset))
  }

  /** Moves every edit by `offset.start`; only the range changes. */
  function TranslateTextEdits(textEdits: seq<TextEdit>, offset: Range): (r: seq<TextEdit>)
    ensures |r| == |textEdits|
    ensures forall i :: 0 <= i < |r| ==>
      r[i].newText == textEdits[i].newText &&
      r[i].range.start.line - textEdits[i].range.start.line == offset.start.line &&
      r[i].range.end.line - textEdits[i].range.end.line == offset.start.line &&
      r[i].range.start.character - textEdits[i].range.start.character == offset.start.character &&
      r[i].range.end.character - textEdits[i].range.end.character == offset.start.character
  {
    seq(|textEdits|, i requires 0 <= i < |textEdits| =>
      ReplaceEdit(TranslateRange(textEdits[i].range, offset.start), textEdits[i].newText))
  }

  // ---------------------------------------------------------------------
  // Properties of the translation

  /** Translating by (0, 0) changes nothing. */
  lemma TranslateByZero(range: Range)
    ensures TranslateRange(range, Position(0, 0)) == range
  {
  }

  /** Two translations compose into one by the component-wise sum. */
  lemma TranslateTwice(range: Range, a: Position, b: Position)
    ensures TranslateRange(TranslateRange(range, a), b) == TranslateRange(range, Add(a, b))
  {
  }

  /** Translating back by the negated offset undoes a translation. */
  lemma TranslateUndo(range: Range, offset: Position)
    ensures TranslateRange(TranslateRange(range, offset), Neg(offset)) == range
  {
  }

  /** A shift keeps document order between any two positions, both ways. */
  lemma ShiftKeepsOrder(p: Position, q: Position, offset: Position)
    ensures Before(p, q) <==> Before(Add(p, offset), Add(q, offset))
  {
  }

  /** Translating an edit list keeps it ascending and non-overlapping, and vice versa. */
  lemma TranslateKeepsAscending(textEdits: seq<TextEdit>, offset: Range)
    ensures Ascending(textEdits) <==> Ascending(TranslateTextEdits(textEdits, offset))
  {
    var r := TranslateTextEdits(textEdits, offset);
    forall i | 0 <= i < |textEdits|
      ensures Before(textEdits[i].range.start, textEdits[i].range.end) <==> Before(r[i].range.start, r[i].range.end)
    {
      ShiftKeepsOrder(textEdits[i].range.start, textEdits[i].range.end, offset.start);
    }
    forall i | 0 <= i < |textEdits| - 1
      ensures Before(textEdits[i].range.end, textEdits[i + 1].range.start) <==> Before(r[i].range.end, r[i + 1].range.start)
    {
      ShiftKeepsOrder(textEdits[i].range.end, textEdits[i + 1].range.start, offset.start);
    }
  }

  /** Translating an edit list by a range starting at (0, 0) is the identity. */
  lemma TranslateEditsByZero(textEdits: seq<TextEdit>, offset: Range)
    requires offset.start == Position(0, 0)
    ensures TranslateTextEdits(textEdits, offset) == textEdits
  {
    var r := TranslateTextEdits(textEdits, offset);
    forall i | 0 <= i < |r| ensures r[i] == textEdits[i] {
      TranslateByZero(textEdits[i].range);
    }
  }

  /** Translating an edit list twice equals translating it once by the summed start. */
  lemma TranslateEditsTwice(textEdits: seq<TextEdit>, o1: Range, o2: Range, o: Range)
    requires o.start == Add(o1.start, o2.start)
    ensures TranslateTextEdits(TranslateTextEdits(textEdits, o1), o2) == TranslateTextEdits(textEdits, o)
  {
    var r1 := TranslateTextEdits(textEdits, o1);
    var r2 := TranslateTextEdits(r1, o2);
    var r := TranslateTextEdits(textEdits, o);
    forall i | 0 <= i < |r| ensures r2[i] == r[i] {
      TranslateTwice(textEdits[i].range, o1.start, o2.start);
    }
  }

  // ---------------------------------------------------------------------
  // The column shift applied to every line

  /**
   * The alternative the translation does not implement: the column offset is
   * added only to positions on line 0 of the extracted text, which is where
   * the extracted text actually starts at that column.
   */
  function ShiftFirstLineOnly(p: Position, offset: Position): Position
  {
    Position(p.line + offset.line, if p.line == 0 then p.character + offset.character else p.character)
  }

  /**
   * The translation agrees with the first-line-only rule exactly when the
   * offset's column is 0 or both ends of the range lie on line 0; for any
   * other range a sub-range starting mid-line shifts interior columns too.
   */
  lemma TranslateMatchesFirstLineRule(range: Range, offset: Position)
    ensures TranslateRange(range, offset) == Range(ShiftFirstLineOnly(range.start, offset), ShiftFirstLineOnly(range.end, offset))
        <==> (offset.character == 0 || (range.start.line == 0 && range.end.line == 0))
  {
  }

  /**
   * The translation with the column offset applied only on line 0: each
   * edit keeps its text, every line moves by the offset's line, and a
   * column moves by the offset's column only on the first line.
   */
  function TranslateTextEditsFirstLine(textEdits: seq<TextEdit>, offset: Range): (r: seq<TextEdit>)
    ensures |r| == |textEdits|
    ensures forall i :: 0 <= i < |r| ==>
      r[i].newText == textEdits[i].newText &&
      r[i].range.start.line - textEdits[i].range.start.line == offset.start.line &&
      r[i].range.end.line - textEdits[i].range.end.line == offset.start.line &&
      (textEdits[i].range.start.line == 0 ==>
         r[i].range.start.character == textEdits[i].range.start.character + offset.start.character) &&
      (textEdits[i].range.end.line == 0 ==>
         r[i].range.end.character == textEdits[i].range.end.character + offset.start.character) &&
      (textEdits[i].range.start.line != 0 ==> r[i].range.start.character == textEdits[i].range.start.character) &&
      (textEdits[i].range.end.line != 0 ==> r[i].range.end.character == textEdits[i].range.end.character)
  {
    seq(|textEdits|, i requires 0 <= i < |textEdits| =>
      ReplaceEdit(Range(ShiftFirstLineOnly(textEdits[i].range.start, offset.start),
                        ShiftFirstLineOnly(textEdits[i].range.end, offset.start)),
                  textEdits[i].newText))
  }

  /** The first-line-only shift keeps document order between any two positions, both ways. */
  lemma FirstLineShiftKeepsOrder(p: Position, q: Position, offset: Position)
    ensures Before(p, q) <==> Before(ShiftFirstLineOnly(p, offset), ShiftFirstLineOnly(q, offset))
  {
  }

  /** The corrected translation keeps an edit list ascending and non-overlapping, and vice versa. */
  lemma FirstLineKeepsAscending(textEdits: seq<TextEdit>, offset: Range)
    ensures Ascending(textEdits) <==> Ascending(TranslateTextEditsFirstLine(textEdits, offset))
  {
    var r := TranslateTextEditsFirstLine(textEdits, offset);
    forall i | 0 <= i < |textEdits|
      ensures Before(textEdits[i].range.start, textEdits[i].range.end) <==> Before(r[i].range.start, r[i].range.end)
    {
      FirstLineShiftKeepsOrder(textEdits[i].range.start, textEdits[i].range.end, offset.start);
    }
    forall i | 0 <= i < |textEdits| - 1
      ensures Before(textEdits[i].range.end, textEdits[i + 1].range.start) <==> Before(r[i].range.end, r[i + 1].range.start)
    {
      FirstLineShiftKeepsOrder(textEdits[i].range.end, textEdits[i + 1].range.start, offset.start);
    }
  }

  // ---------------------------------------------------------------------
  // Where a position of extracted text lies in the document

  /** The text from `start` on, of a document given as its lines: the rest of the start line, then the lines below. */
  function Extract(doc: seq<string>, start: Position): (r: seq<string>)
    requires 0 <= start.line < |doc| && 0 <= start.character <= |doc[start.line]|
    ensures |r| == |doc| - start.line
    ensures r[0] == doc[start.line][start.character..]
    ensures forall k :: 0 < k < |r| ==> r[k] == doc[start.line + k]
  {
    [doc[start.line][start.character..]] + doc[start.line + 1..]
  }

  /** `p` names a character of `doc`. */
  predicate OnChar(doc: seq<string>, p: Position)
  {
    0 <= p.line < |doc| && 0 <= p.character < |doc[p.line]|
  }

  function CharAt(doc: seq<string>, p: Position): char
    requires OnChar(doc, p)
  {
    doc[p.line][p.character]
  }

  /**
   * The first-line-only shift takes every character position of the
   * extracted text to the position of the same character in the document.
   */
  lemma FirstLineShiftFindsSameChar(doc: seq<string>, start: Position, p: Position)
    requires 0 <= start.line < |doc| && 0 <= start.character <= |doc[start.line]|
    requires OnChar(Extract(doc, start), p)
    ensures OnChar(doc, ShiftFirstLineOnly(p, start))
    ensures CharAt(doc, ShiftFirstLineOnly(p, start)) == CharAt(Extract(doc, start), p)
  {
  }

  /**
   * The translation as written does not: in a document whose range starts
   * at column 3, the extracted text's line 1 begins with 'c', but the
   * translated position (1, 3) points at 'f'.
   */
  lemma TranslateMisplacesInteriorColumns()
    ensures var doc := ["xyzab", "cdefg"];
            var start := Position(0, 3);
            var moved := TranslateTextEdits([DeleteEdit(Range(Position(1, 0), Position(1, 1)))], Range(start, Position(1, 5)));
            CharAt(Extract(doc, start), Position(1, 0)) == 'c' &&
            moved[0].range.start == Position(1, 3) &&
            CharAt(doc, moved[0].range.start) == 'f'
  {
    var doc := ["xyzab", "cdefg"];
    assert Extract(doc, Position(0, 3))[1] == "cdefg";
  }

  /** Scenario: an edit at (0, 0) of the extracted text lands at the range start (5, 3). */
  lemma TranslateScenario(newText: string, offsetEnd: Position)
    ensures TranslateTextEdits([InsertEdit(Position(0, 0), newText)], Range(Position(5, 3), offsetEnd))
         == [TextEdit(Range(Position(5, 3), Position(5, 3)), newText)]
  {
  }
}
