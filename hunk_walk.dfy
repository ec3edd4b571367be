// The meaning of `parseUniDiffs` as a fold over the tagged lines of each
// hunk. This is the specification the imperative walk in DiffUtils is
// proved against, and the home of the properties of that walk.
//
// In the source the open edit lives in a variable `edit` that is declared
// once per file diff and is NOT cleared after the end-of-hunk flush, so the
// same Edit object can be pushed twice and can change after it has been
// pushed. The state below therefore keeps every Edit object ever created
// (`pool`, in creation order) and the output list as indexes into it
// (`out`); a pushed edit is read back at the end, with its final fields.
// The open edit, when there is one, is always the newest object.

module HunkWalk {
  import opened EditorTypes
  import opened EditModel

  /** A hunk of a structured patch: its 1-based start line in the old text and its lines, tag first. */
  datatype Hunk = Hunk(oldStart: int, lines: seq<string>)

  /** One file's structured patch. */
  datatype ParsedDiff = ParsedDiff(oldFileName: Option<string>, hunks: seq<Hunk>)

  /** The edits of one file, each read as its Edit object's final fields. */
  datatype FilePatch = FilePatch(fileName: string, edits: seq<EditVal>)

  /** `line.substr(0, 1)`: removed, added, context, or anything else (including the empty line). */
  datatype Tag = Removed | Added | Context | Other

  function TagOf(line: string): Tag
  {
    if |line| == 0 then Other
    else if line[0] == '-' then Removed
    else if line[0] == '+' then Added
    else if line[0] == ' ' then Context
    else Other
  }

  /** The tag is decided by the line's first character alone. */
  lemma TagOfFirstChar(line: string)
    ensures TagOf(line) == Removed <==> "-" <= line
    ensures TagOf(line) == Added <==> "+" <= line
    ensures TagOf(line) == Context <==> " " <= line
    ensures TagOf(line) == Other <==> !("-" <= line || "+" <= line || " " <= line)
  {
  }

  /** `line.substr(1)`: the line without its tag. */
  function Content(line: string): string
  {
    if |line| == 0 then "" else line[1..]
  }

  /** Putting the tag back in front of the content gives the line back. */
  lemma ContentDropsTag(line: string)
    requires |line| > 0
    ensures [line[0]] + Content(line) == line
    ensures |Content(line)| == |line| - 1
  {
  }

  /**
   * The walk's variables: `startLine`, every Edit created so far, the
   * `edits` array as indexes into `pool`, and whether `edit` is non-null
   * (it then refers to the last element of `pool`).
   */
  datatype WalkState = WalkState(startLine: int, pool: seq<EditVal>, out: seq<nat>, open: bool)

  predicate Sane(st: WalkState)
  {
    (st.open ==> |st.pool| > 0) &&
    (forall i :: 0 <= i < |st.out| ==> st.out[i] < |st.pool|)
  }

  /** The state a file diff starts in: no Edit yet, nothing pushed. */
  const Initial: WalkState := WalkState(0, [], [], false)

  /** The pool once `edit` is non-null: an open edit stays, otherwise `new Edit(action, (startLine - 1, 0))` joins. */
  function OpenSlot(st: WalkState, action: int): (pool: seq<EditVal>)
    requires Sane(st)
    ensures |pool| > 0
    ensures st.open ==> pool == st.pool
    ensures !st.open ==> |pool| == |st.pool| + 1 && pool[..|st.pool|] == st.pool && pool[|st.pool|..] == [EditVal(action, Position(st.startLine - 1, 0), None, "")]
  {
    if st.open then st.pool else st.pool + [EditVal(action, Position(st.startLine - 1, 0), None, "")]
  }

  /**
   * One pass of the line switch: a removed line opens a Delete if none is
   * open, sets the open edit's end to (startLine, 0) and advances; an added
   * line opens an Insert if none is open and appends its content; a context
   * line advances, pushes the open edit and empties the slot; any other line
   * does nothing.
   */
  function StepLine(st: WalkState, line: string): (r: WalkState)
    requires Sane(st)
    ensures Sane(r)
  {
    match TagOf(line)
    case Removed =>
      var pool := OpenSlot(st, EDIT_DELETE);
      var e := pool[|pool| - 1];
      WalkState(st.startLine + 1, pool[|pool| - 1 := e.(end := Some(Position(st.startLine, 0)))], st.out, true)
    case Added =>
      var pool := OpenSlot(st, EDIT_INSERT);
      var e := pool[|pool| - 1];
      var action := if st.open && e.action == EDIT_DELETE then EDIT_REPLACE else e.action;
      WalkState(st.startLine, pool[|pool| - 1 := e.(action := action, text := e.text + Content(line) + "\n")], st.out, true)
    case Context =>
      WalkState(st.startLine + 1, st.pool, if st.open then st.out + [|st.pool| - 1] else st.out, false)
    case Other =>
      st
  }

  /**
   * What one line does to the walk, case by case: which Edit is open
   * afterwards and with what kind, end and text, what is pushed, and how
   * far `startLine` moves.
   */
  lemma StepLineEffect(st: WalkState, line: string)
    requires Sane(st)
    ensures var r := StepLine(st, line);
      r.startLine == st.startLine + (if TagOf(line) == Removed || TagOf(line) == Context then 1 else 0)
    ensures var r := StepLine(st, line);
      TagOf(line) == Removed || TagOf(line) == Added ==>
        r.open && r.out == st.out &&
        |r.pool| == |st.pool| + (if st.open then 0 else 1) && r.pool[..|r.pool| - 1] == st.pool[..|r.pool| - 1] &&
        (!st.open ==> r.pool[|r.pool| - 1].start == Position(st.startLine - 1, 0)) &&
        (st.open ==> r.pool[|r.pool| - 1].start == st.pool[|st.pool| - 1].start)
    ensures var r := StepLine(st, line);
      TagOf(line) == Removed ==>
        r.pool[|r.pool| - 1].end == Some(Position(st.startLine, 0)) &&
        r.pool[|r.pool| - 1].action == (if st.open then st.pool[|st.pool| - 1].action else EDIT_DELETE) &&
        r.pool[|r.pool| - 1].text == (if st.open then st.pool[|st.pool| - 1].text else "")
    ensures var r := StepLine(st, line);
      TagOf(line) == Added ==>
        r.pool[|r.pool| - 1].text == (if st.open then st.pool[|st.pool| - 1].text else "") + Content(line) + "\n" &&
        r.pool[|r.pool| - 1].end == (if st.open then st.pool[|st.pool| - 1].end else None) &&
        r.pool[|r.pool| - 1].action ==
          (if !st.open then EDIT_INSERT
           else if st.pool[|st.pool| - 1].action == EDIT_DELETE then EDIT_REPLACE
           else st.pool[|st.pool| - 1].action)
    ensures var r := StepLine(st, line);
      TagOf(line) == Context ==>
        !r.open && r.pool == st.pool && r.out == st.out + (if st.open then [|st.pool| - 1] else [])
    ensures TagOf(line) == Other ==> StepLine(st, line) == st
  {
  }

  /** The line loop of one hunk, as a left fold. */
  function WalkLines(st: WalkState, lines: seq<string>): (r: WalkState)
    requires Sane(st)
    ensures Sane(r)
    decreases |lines|
  {
    if |lines| == 0 then st
    else StepLine(WalkLines(st, lines[..|lines| - 1]), lines[|lines| - 1])
  }

  /** The line loop never moves `startLine` back, never drops an Edit and never takes back a push. */
  lemma {:induction false} WalkLinesGrows(st: WalkState, lines: seq<string>)
    requires Sane(st)
    ensures var r := WalkLines(st, lines);
            r.startLine >= st.startLine && |st.pool| <= |r.pool| && st.out <= r.out
    decreases |lines|
  {
    if |lines| > 0 {
      WalkLinesGrows(st, lines[..|lines| - 1]);
    }
  }

  /** The end-of-hunk flush: an open edit is pushed, and `edit` keeps pointing at it. */
  function EndHunk(st: WalkState): (r: WalkState)
    requires Sane(st)
    ensures Sane(r)
    ensures r.startLine == st.startLine && r.pool == st.pool && r.open == st.open
    ensures r.out == st.out + (if st.open then [|st.pool| - 1] else [])
  {
    if st.open then st.(out := st.out + [|st.pool| - 1]) else st
  }

  /** One hunk: `startLine` starts at `oldStart`, then the lines, then the flush. */
  function WalkHunk(st: WalkState, h: Hunk): (r: WalkState)
    requires Sane(st)
    ensures Sane(r)
    ensures r.startLine >= h.oldStart && |st.pool| <= |r.pool| && st.out <= r.out
  {
    WalkLinesGrows(st.(startLine := h.oldStart), h.lines);
    EndHunk(WalkLines(st.(startLine := h.oldStart), h.lines))
  }

  /** The hunk loop of one file diff, as a left fold. */
  function WalkHunks(st: WalkState, hunks: seq<Hunk>): (r: WalkState)
    requires Sane(st)
    ensures Sane(r)
    ensures |st.pool| <= |r.pool| && st.out <= r.out
    decreases |hunks|
  {
    if |hunks| == 0 then st
    else WalkHunk(WalkHunks(st, hunks[..|hunks| - 1]), hunks[|hunks| - 1])
  }

  /** The `edits` array, each entry read as its object's final fields. */
  function Resolve(st: WalkState): (r: seq<EditVal>)
    requires Sane(st)
    ensures |r| == |st.out|
    ensures forall i :: 0 <= i < |r| ==> r[i] == st.pool[st.out[i]]
  {
    seq(|st.out|, i requires 0 <= i < |st.out| => st.pool[st.out[i]])
  }

  /** `uniDiff.oldFileName || ""`. */
  function FileNameOf(name: Option<string>): (r: string)
    ensures name.Some? ==> r == name.value
    ensures name.None? ==> r == ""
  {
    match name
    case None => ""
    case Some(s) => s
  }

  /** The FilePatch `parseUniDiffs` builds for one file diff. */
  function ParseFile(d: ParsedDiff): (p: FilePatch)
    ensures p.fileName == FileNameOf(d.oldFileName)
    ensures |p.edits| == |WalkHunks(Initial, d.hunks).out|
    ensures d.hunks == [] ==> p.edits == []
  {
    FilePatch(FileNameOf(d.oldFileName), Resolve(WalkHunks(Initial, d.hunks)))
  }

  /** `parseUniDiffs`: one FilePatch per file diff, in order. */
  function ParseAll(ds: seq<ParsedDiff>): (r: seq<FilePatch>)
    ensures |r| == |ds|
    ensures forall i :: 0 <= i < |ds| ==> r[i] == ParseFile(ds[i])
  {
    seq(|ds|, i requires 0 <= i < |ds| => ParseFile(ds[i]))
  }
}
