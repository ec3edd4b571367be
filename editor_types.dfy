// The editor-side value types the diff utilities produce: zero-based
// positions, ranges and text edits, as the host editor's protocol defines
// them (`Position.create`, `Range.create`, `TextEdit.insert/del/replace`).

module EditorTypes {

  datatype Option<+T> = None | Some(value: T)

  /** A zero-based (line, character) point in a text buffer. */
  datatype Position = Position(line: int, character: int)

  /** A pair of positions; an edit applies to [start, end). */
  datatype Range = Range(start: Position, end: Position)

  /** One positional replacement: the text in `range` becomes `newText`. */
  datatype TextEdit = TextEdit(range: Range, newText: string)

  /** Document order on positions: line first, then character. */
  predicate Before(a: Position, b: Position)
  {
    a.line < b.line || (a.line == b.line && a.character <= b.character)
  }

  /** The host editor's requirement that edits come in ascending, non-overlapping order. */
  predicate Ascending(textEdits: seq<TextEdit>)
  {
    (forall i :: 0 <= i < |textEdits| ==> Before(textEdits[i].range.start, textEdits[i].range.end)) &&
    (forall i :: 0 <= i < |textEdits| - 1 ==> Before(textEdits[i].range.end, textEdits[i + 1].range.start))
  }

  /** `TextEdit.insert(pos, text)`: an empty range at `pos`. */
  function InsertEdit(pos: Position, text: string): TextEdit
  {
    TextEdit(Range(pos, pos), text)
  }

  /** `TextEdit.del(range)`: replace `range` by nothing. */
  function DeleteEdit(range: Range): TextEdit
  {
    TextEdit(range, "")
  }

  /** `TextEdit.replace(range, text)`. */
  function ReplaceEdit(range: Range, text: string): TextEdit
  {
    TextEdit(range, text)
  }
}
