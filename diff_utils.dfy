// `parseUniDiffs`, `getEdits` and `getTextEdits` as the source writes them:
// nested loops over file diffs, hunks and lines, a nullable `edit` slot
// holding a mutable Edit object whose fields are set in place, and arrays
// that objects are pushed onto. The walk is proved to compute the fold of
// HunkWalk, whose properties are proved in WalkProperties, WalkInvariants
// and WalkOrder.
//
// The diff library (`structuredPatch`) is a parameter; the platform test is
// the `isWindows` parameter.

module DiffUtils {
  import opened EditorTypes
  import opened EditModel
  import opened HunkWalk
  import opened LineEndings
  import WalkInvariants
  import WalkOrder

  /** The mutable `Edit` record: its kind, start, end (unset until a removed line) and text. */
  class Edit {
    var action: int
    var start: Position
    var end: Option<Position>
    var text: string

    constructor (action: int, start: Position)
      ensures Value() == EditVal(action, start, None, "")
    {
      this.action := action;
      this.start := start;
      this.end := None;
      this.text := "";
    }

    /** The object's current fields. */
    function Value(): EditVal
      reads this
    {
      EditVal(action, start, end, text)
    }
  }

  /** The values an array of Edit objects holds right now. */
  function Snapshot(edits: seq<Edit>): (r: seq<EditVal>)
    reads edits
    ensures |r| == |edits|
    ensures forall i :: 0 <= i < |edits| ==> r[i] == edits[i].Value()
  {
    seq(|edits|, i requires 0 <= i < |edits| reads edits => edits[i].Value())
  }

  /**
   * The objects of one file diff agree with a WalkState: `objs` lists every
   * Edit created so far, in creation order, and `Holds` says each holds the
   * matching pool value; `Shape` says how `edit` and `edits` refer to them.
   */
  ghost predicate Tracks(st: WalkState, edit: Edit?, edits: seq<Edit>, objs: seq<Edit>)
    reads objs
  {
    Shape(st, edit, edits, objs) && Holds(objs, st.pool)
  }

  /** Each object holds the value of the same index in `pool`. */
  ghost predicate Holds(objs: seq<Edit>, pool: seq<EditVal>)
    reads objs
  {
    |objs| == |pool| && forall k :: 0 <= k < |objs| ==> objs[k].Value() == pool[k]
  }

  /**
   * The newest object is distinct from the others; `edits` is `out` read
   * through `objs`; `edit` is null exactly when no edit is open, and
   * otherwise the newest object.
   */
  ghost predicate Shape(st: WalkState, edit: Edit?, edits: seq<Edit>, objs: seq<Edit>)
  {
    |objs| == |st.pool| &&
    (forall k :: 0 <= k < |objs| - 1 ==> objs[k] != objs[|objs| - 1]) &&
    |edits| == |st.out| &&
    (forall i :: 0 <= i < |edits| ==> st.out[i] < |objs| && edits[i] == objs[st.out[i]]) &&
    (edit == null <==> !st.open) &&
    (edit != null ==> |objs| > 0 && edit == objs[|objs| - 1])
  }

  /**
   * The per-line callback of the hunk walk: the switch on the line's first
   * character, updating `startLine`, the `edit` slot and the `edits` array.
   */
  method WalkLine(line: string, edit: Edit?, edits: seq<Edit>, startLine: int, ghost st: WalkState, ghost objs: seq<Edit>)
    returns (edit': Edit?, edits': seq<Edit>, startLine': int, ghost objs': seq<Edit>)
    requires Sane(st) && startLine == st.startLine && Tracks(st, edit, edits, objs)
    modifies edit
    ensures startLine' == StepLine(st, line).startLine
    ensures Tracks(StepLine(st, line), edit', edits', objs')
    ensures edit' == null || edit' == edit || fresh(edit')
  {
    edit', edits', startLine', objs' := edit, edits, startLine, objs;
    match TagOf(line) {
      case Removed =>
        edit', objs' := RemoveLine(line, edit', edits', startLine', st, objs');
        startLine' := startLine' + 1;
      case Added =>
        edit', objs' := AddLine(line, edit', edits', startLine', st, objs');
      case Context =>
        startLine' := startLine' + 1;
        if edit' != null {
          edits' := edits' + [edit'];
        }
        edit' := null;
      case Other =>
    }
  }

  /** The `'-'` arm of the switch, but for the `startLine` step: open a Delete if no edit is open, end the edit below this line. */
  method RemoveLine(line: string, edit: Edit?, edits: seq<Edit>, startLine: int, ghost st: WalkState, ghost objs: seq<Edit>)
    returns (edit': Edit, ghost objs': seq<Edit>)
    requires TagOf(line) == Removed
    requires Sane(st) && startLine == st.startLine && Tracks(st, edit, edits, objs)
    modifies edit
    ensures Tracks(StepLine(st, line), edit', edits, objs')
    ensures objs' == objs || (objs' == objs + [edit'] && fresh(edit'))
    ensures edit' == edit || fresh(edit')
  {
    ghost var pool := OpenSlot(st, EDIT_DELETE);
    ghost var v := pool[|pool| - 1].(end := Some(Position(st.startLine, 0)));
    ghost var r := WalkState(st.startLine + 1, pool[|pool| - 1 := v], st.out, true);
    assert StepLine(st, line) == r;
    objs' := objs;
    if edit == null {
      edit' := new Edit(EDIT_DELETE, Position(startLine - 1, 0));
      objs' := objs' + [edit'];
      ShapeAfterOpen(st, r, edits, objs, edit');
    } else {
      edit' := edit;
      ShapeKeep(st, r, edit', edits, objs);
    }
    assert forall k :: 0 <= k < |objs'| - 1 ==> objs'[k] != edit' && objs'[k].Value() == pool[k];
    edit'.end := Some(Position(startLine, 0));
    assert edit'.Value() == v;
    assert forall k :: 0 <= k < |objs'| ==> objs'[k].Value() == r.pool[k];
  }

  /** The `'+'` arm of the switch: open an Insert if no edit is open, turn an open Delete into a Replace, append the line. */
  method AddLine(line: string, edit: Edit?, edits: seq<Edit>, startLine: int, ghost st: WalkState, ghost objs: seq<Edit>)
    returns (edit': Edit, ghost objs': seq<Edit>)
    requires TagOf(line) == Added
    requires Sane(st) && startLine == st.startLine && Tracks(st, edit, edits, objs)
    modifies edit
    ensures Tracks(StepLine(st, line), edit', edits, objs')
    ensures objs' == objs || (objs' == objs + [edit'] && fresh(edit'))
    ensures edit' == edit || fresh(edit')
  {
    ghost var pool := OpenSlot(st, EDIT_INSERT);
    ghost var e := pool[|pool| - 1];
    ghost var v := e.(action := if st.open && e.action == EDIT_DELETE then EDIT_REPLACE else e.action,
                      text := e.text + Content(line) + "\n");
    ghost var r := WalkState(st.startLine, pool[|pool| - 1 := v], st.out, true);
    assert StepLine(st, line) == r;
    objs' := objs;
    if edit == null {
      edit' := new Edit(EDIT_INSERT, Position(startLine - 1, 0));
      objs' := objs' + [edit'];
      ShapeAfterOpen(st, r, edits, objs, edit');
    } else {
      edit' := edit;
      ShapeKeep(st, r, edit', edits, objs);
      if edit'.action == EDIT_DELETE {
        edit'.action := EDIT_REPLACE;
      }
    }
    assert forall k :: 0 <= k < |objs'| - 1 ==> objs'[k] != edit' && objs'[k].Value() == pool[k];
    edit'.text := edit'.text + Content(line) + "\n";
    assert edit'.Value() == v;
    assert forall k :: 0 <= k < |objs'| ==> objs'[k].Value() == r.pool[k];
  }

  /** Opening a new Edit appends it to the objects; it is the newest and the open one. */
  lemma ShapeAfterOpen(st: WalkState, r: WalkState, edits: seq<Edit>, objs: seq<Edit>, e: Edit)
    requires Shape(st, null, edits, objs)
    requires |r.pool| == |st.pool| + 1 && r.out == st.out && r.open
    requires forall k :: 0 <= k < |objs| ==> objs[k] != e
    ensures Shape(r, e, edits, objs + [e])
  {
    var objs' := objs + [e];
    assert forall i :: 0 <= i < |edits| ==> objs'[st.out[i]] == objs[st.out[i]];
  }

  /** Changing the open edit in place keeps the references as they are. */
  lemma ShapeKeep(st: WalkState, r: WalkState, edit: Edit, edits: seq<Edit>, objs: seq<Edit>)
    requires Shape(st, edit, edits, objs)
    requires |r.pool| == |st.pool| && r.out == st.out && r.open
    ensures Shape(r, edit, edits, objs)
  {
  }

  /** `hunk.lines.forEach(...)`: the switch applied to each line of a hunk in turn. */
  method WalkLinesOf(lines: seq<string>, edit: Edit?, edits: seq<Edit>, startLine: int, ghost st: WalkState, ghost objs: seq<Edit>)
    returns (edit': Edit?, edits': seq<Edit>, startLine': int, ghost objs': seq<Edit>)
    requires Sane(st) && startLine == st.startLine && Tracks(st, edit, edits, objs)
    modifies edit
    ensures Tracks(WalkLines(st, lines), edit', edits', objs')
    ensures startLine' == WalkLines(st, lines).startLine
    ensures edit' == null || edit' == edit || fresh(edit')
  {
    ghost var s := st;
    edit', edits', startLine', objs' := edit, edits, startLine, objs;
    var i := 0;
    while i < |lines|
      invariant 0 <= i <= |lines|
      invariant Sane(s) && s == WalkLines(st, lines[..i])
      invariant startLine' == s.startLine
      invariant Tracks(s, edit', edits', objs')
      invariant edit' == null || edit' == edit || fresh(edit')
    {
      edit', edits', startLine', objs' := WalkLine(lines[i], edit', edits', startLine', s, objs');
      assert lines[..i + 1][..i] == lines[..i];
      assert WalkLines(st, lines[..i + 1]) == StepLine(s, lines[i]);
      s := StepLine(s, lines[i]);
      i := i + 1;
    }
    assert lines[..i] == lines;
  }

  /**
   * The per-hunk callback: `startLine` from the hunk, the line loop, then the
   * end-of-hunk push. The only Edit it can change besides the ones it
   * creates is the one left open by the previous hunk.
   */
  method ParseHunk(hunk: Hunk, edit: Edit?, edits: seq<Edit>, ghost st: WalkState, ghost objs: seq<Edit>)
    returns (edit': Edit?, edits': seq<Edit>, ghost objs': seq<Edit>)
    requires Sane(st) && Tracks(st, edit, edits, objs)
    modifies edit
    ensures Tracks(WalkHunk(st, hunk), edit', edits', objs')
    ensures edit' == null || edit' == edit || fresh(edit')
  {
    var startLine := hunk.oldStart;
    ghost var s := st.(startLine := startLine);
    edit', edits', startLine, objs' := WalkLinesOf(hunk.lines, edit, edits, startLine, s, objs);
    TracksEndHunk(WalkLines(s, hunk.lines), edit', edits', objs');
    if edit' != null {
      edits' := edits' + [edit'];
    }
  }

  /** The end-of-hunk push keeps the objects in step with EndHunk. */
  lemma TracksEndHunk(st: WalkState, edit: Edit?, edits: seq<Edit>, objs: seq<Edit>)
    requires Sane(st) && Tracks(st, edit, edits, objs)
    ensures Tracks(EndHunk(st), edit, if edit != null then edits + [edit] else edits, objs)
  {
  }

  /**
   * The per-file callback: the hunk loop, then the FilePatch of the edits'
   * final values.
   */
  method ParseDiff(uniDiff: ParsedDiff) returns (patch: FilePatch)
    ensures patch == ParseFile(uniDiff)
  {
    var edit: Edit? := null;
    var edits: seq<Edit> := [];
    ghost var objs: seq<Edit> := [];
    ghost var st := Initial;
    var h := 0;
    while h < |uniDiff.hunks|
      invariant 0 <= h <= |uniDiff.hunks|
      invariant Sane(st) && st == WalkHunks(Initial, uniDiff.hunks[..h])
      invariant Tracks(st, edit, edits, objs)
      invariant edit == null || fresh(edit)
    {
      edit, edits, objs := ParseHunk(uniDiff.hunks[h], edit, edits, st, objs);
      assert uniDiff.hunks[..h + 1][..h] == uniDiff.hunks[..h];
      st := WalkHunk(st, uniDiff.hunks[h]);
      h := h + 1;
    }
    assert uniDiff.hunks[..h] == uniDiff.hunks;
    var fileName := FileNameOf(uniDiff.oldFileName);
    patch := FilePatch(fileName, Snapshot(edits));
  }

  /** `parseUniDiffs`: one FilePatch per file diff, in order. */
  method ParseUniDiffs(diffOutput: seq<ParsedDiff>) returns (filePatches: seq<FilePatch>)
    ensures filePatches == ParseAll(diffOutput)
  {
    filePatches := [];
    var f := 0;
    while f < |diffOutput|
      invariant 0 <= f <= |diffOutput|
      invariant filePatches == ParseAll(diffOutput[..f])
    {
      var patch := ParseDiff(diffOutput[f]);
      filePatches := filePatches + [patch];
      f := f + 1;
    }
    assert diffOutput[..f] == diffOutput;
  }

  /** The line-diff library's `structuredPatch(oldName, newName, oldText, newText, oldHeader, newHeader)`. */
  type StructuredPatch = (string, string, string, string, string, string) -> ParsedDiff

  /** `getEdits`: CR-LF normalised on Windows, one structured patch, walked into its FilePatch. */
  method GetEdits(fileName: string, oldStr: string, newStr: string, isWindows: bool, structuredPatch: StructuredPatch)
    returns (patch: FilePatch)
    ensures patch == ParseFile(structuredPatch(fileName, fileName, NormalizeEol(oldStr, isWindows), NormalizeEol(newStr, isWindows), "", ""))
  {
    var unifiedDiffs := structuredPatch(fileName, fileName, NormalizeEol(oldStr, isWindows), NormalizeEol(newStr, isWindows), "", "");
    var filePatches := ParseUniDiffs([unifiedDiffs]);
    patch := filePatches[0];
  }

  /**
   * `getTextEdits`: the editor edits for turning `oldStr` into `newStr`.
   * Every parsed edit converts (none is filtered out), the i-th editor edit
   * is the i-th parsed edit converted, and when the hunks are laid out as a
   * line diff lays them out the list is ascending and non-overlapping.
   */
  method GetTextEdits(oldStr: string, newStr: string, isWindows: bool, structuredPatch: StructuredPatch)
    returns (textEdits: seq<TextEdit>)
    ensures var d := structuredPatch("undefined", "undefined", NormalizeEol(oldStr, isWindows), NormalizeEol(newStr, isWindows), "", "");
            var edits := ParseFile(d).edits;
            |textEdits| == |edits| &&
            (forall i :: 0 <= i < |edits| ==> HasEnd(edits[i]) && Some(textEdits[i]) == ApplyEdit(edits[i])) &&
            (WalkOrder.LaidOut(d.hunks) ==> Ascending(textEdits))
  {
    var filename := "undefined";
    var filePatch := GetEdits(filename, oldStr, newStr, isWindows, structuredPatch);
    ghost var d := structuredPatch(filename, filename, NormalizeEol(oldStr, isWindows), NormalizeEol(newStr, isWindows), "", "");
    WalkInvariants.NothingFiltered(d);
    if WalkOrder.LaidOut(d.hunks) {
      WalkOrder.FileEditsAscending(d);
    }
    textEdits := TextEditsOf(filePatch.edits);
  }
}
