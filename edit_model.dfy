// The internal `Edit` record of the diff utilities as a value, its
// conversion to an editor edit (`Edit.apply`), and the `notEmpty` filter
// that `getTextEdits` runs over the converted list.

module EditModel {
  import opened EditorTypes

  // The `EditTypes` enumeration: `action` is a plain number in the source,
  // so values outside these three are representable.
  const EDIT_DELETE: int := 0
  const EDIT_INSERT: int := 1
  const EDIT_REPLACE: int := 2

  predicate KnownAction(action: int)
  {
    action == EDIT_DELETE || action == EDIT_INSERT || action == EDIT_REPLACE
  }

  /**
   * The state of one `Edit` object: its kind, where it starts, where it ends
   * (`None` while the field is still unassigned) and the text accumulated so
   * far (the constructor sets it to "").
   */
  datatype EditVal = EditVal(action: int, start: Position, end: Option<Position>, text: string)

  /** `Range.create(start, end)` needs both ends: a deleting edit must have its end set. */
  predicate HasEnd(e: EditVal)
  {
    e.action == EDIT_DELETE || e.action == EDIT_REPLACE ==> e.end.Some?
  }

  /**
   * `Edit.apply`: an insert at `start`, a delete of [start, end) or a
   * replace of [start, end) by `text`; an unknown action yields nothing.
   */
  function ApplyEdit(e: EditVal): (r: Option<TextEdit>)
    requires HasEnd(e)
    ensures r.Some? <==> KnownAction(e.action)
    ensures r.Some? ==> r.value.range.start == e.start
    ensures e.action == EDIT_INSERT ==> r.value.range.end == e.start && r.value.newText == e.text
    ensures e.action == EDIT_DELETE ==> r.value.range.end == e.end.value && r.value.newText == ""
    ensures e.action == EDIT_REPLACE ==> r.value.range.end == e.end.value && r.value.newText == e.text
  {
    if e.action == EDIT_INSERT then Some(InsertEdit(e.start, e.text))
    else if e.action == EDIT_DELETE then Some(DeleteEdit(Range(e.start, e.end.value)))
    else if e.action == EDIT_REPLACE then Some(ReplaceEdit(Range(e.start, e.end.value), e.text))
    else None
  }

  /** `filter(notEmpty)`: the present values, in their original order. */
  function Present<T(!new)>(xs: seq<Option<T>>): (r: seq<T>)
    ensures |r| <= |xs|
    ensures forall x :: x in r <==> Some(x) in xs
    ensures (forall i :: 0 <= i < |xs| ==> xs[i].Some?) ==>
              |r| == |xs| && forall i :: 0 <= i < |xs| ==> r[i] == xs[i].value
  {
    if |xs| == 0 then []
    else
      var rest := Present(xs[..|xs| - 1]);
      assert forall x :: Some(x) in xs <==> Some(x) in xs[..|xs| - 1] || xs[|xs| - 1] == Some(x);
      match xs[|xs| - 1]
      case None => rest
      case Some(v) => rest + [v]
  }

  /** Filtering distributes over concatenation, so relative order is kept. */
  lemma {:induction false} PresentAppend<T(!new)>(xs: seq<Option<T>>, ys: seq<Option<T>>)
    ensures Present(xs + ys) == Present(xs) + Present(ys)
    decreases |ys|
  {
    if |ys| > 0 {
      var zs := xs + ys;
      assert zs[..|zs| - 1] == xs + ys[..|ys| - 1];
      PresentAppend(xs, ys[..|ys| - 1]);
    } else {
      assert xs + ys == xs;
    }
  }

  /** `edits.map(apply)`. */
  function ApplyAll(edits: seq<EditVal>): (r: seq<Option<TextEdit>>)
    requires forall i :: 0 <= i < |edits| ==> HasEnd(edits[i])
    ensures |r| == |edits|
    ensures forall i :: 0 <= i < |edits| ==> r[i] == ApplyEdit(edits[i])
  {
    seq(|edits|, i requires 0 <= i < |edits| => ApplyEdit(edits[i]))
  }

  /**
   * `edits.map(apply).filter(notEmpty)`: when every action is known, nothing
   * is dropped and the i-th editor edit is the i-th edit converted.
   */
  function TextEditsOf(edits: seq<EditVal>): (r: seq<TextEdit>)
    requires forall i :: 0 <= i < |edits| ==> HasEnd(edits[i])
    ensures |r| <= |edits|
    ensures (forall i :: 0 <= i < |edits| ==> KnownAction(edits[i].action)) ==>
              |r| == |edits| && forall i :: 0 <= i < |edits| ==> Some(r[i]) == ApplyEdit(edits[i])
  {
    Present(ApplyAll(edits))
  }
}
