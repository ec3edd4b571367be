// Invariants of the hunk walk: every Edit it creates is well formed
// (a known kind, a deleting kind has an end, a Delete carries no text and
// the others always do, positions at column 0), and a step never takes
// anything back: the output only grows, an edit keeps its start, its text
// only grows, and its kind only moves from Delete to Replace.

module WalkInvariants {
  import opened EditorTypes
  import opened EditModel
  import opened HunkWalk

  predicate WellFormed(e: EditVal)
  {
    KnownAction(e.action) && HasEnd(e) &&
    (e.action == EDIT_DELETE <==> e.text == "") &&
    e.start.character == 0 &&
    (e.end.Some? ==> e.end.value.character == 0)
  }

  predicate PoolWellFormed(pool: seq<EditVal>)
  {
    forall k :: 0 <= k < |pool| ==> WellFormed(pool[k])
  }

  /** How one Edit object may change: same start, text extended, Delete at most upgraded to Replace. */
  predicate Grown(a: EditVal, b: EditVal)
  {
    b.start == a.start && a.text <= b.text &&
    (b.action == a.action || (a.action == EDIT_DELETE && b.action == EDIT_REPLACE))
  }

  /**
   * `r` is a later state than `st`: nothing pushed is taken back, every
   * existing edit has only grown, and only the open edit can have changed.
   */
  predicate Extends(st: WalkState, r: WalkState)
  {
    |st.pool| <= |r.pool| && |st.out| <= |r.out| && r.out[..|st.out|] == st.out &&
    (!st.open && r.open ==> |r.pool| > |st.pool|) &&
    forall k :: 0 <= k < |st.pool| ==>
      Grown(st.pool[k], r.pool[k]) && (k < |st.pool| - 1 || !st.open ==> r.pool[k] == st.pool[k])
  }

  lemma ExtendsTrans(a: WalkState, b: WalkState, c: WalkState)
    requires Extends(a, b) && Extends(b, c)
    ensures Extends(a, c)
  {
    assert c.out[..|a.out|] == c.out[..|b.out|][..|a.out|];
    forall k | 0 <= k < |a.pool|
      ensures Grown(a.pool[k], c.pool[k])
    {
      assert a.pool[k].text <= b.pool[k].text <= c.pool[k].text;
      assert a.pool[k].text == c.pool[k].text[..|a.pool[k].text|];
    }
  }

  /** One line: the pool stays well formed, the state only grows, `startLine` does not decrease. */
  lemma StepKeeps(st: WalkState, line: string)
    requires Sane(st) && PoolWellFormed(st.pool)
    ensures var r := StepLine(st, line);
            PoolWellFormed(r.pool) && Extends(st, r) && r.startLine >= st.startLine
  {
    var r := StepLine(st, line);
    assert r.out[..|st.out|] == st.out;
    match TagOf(line)
    case Removed =>
      var pool := OpenSlot(st, EDIT_DELETE);
      assert forall k :: 0 <= k < |st.pool| ==> pool[k] == st.pool[k];
    case Added =>
      var pool := OpenSlot(st, EDIT_INSERT);
      assert forall k :: 0 <= k < |st.pool| ==> pool[k] == st.pool[k];
      var e := pool[|pool| - 1];
      assert e.text <= r.pool[|pool| - 1].text;
    case Context =>
    case Other =>
  }

  /** The line loop of a hunk keeps the pool well formed and only grows the state. */
  lemma {:induction false} WalkLinesKeeps(st: WalkState, lines: seq<string>)
    requires Sane(st) && PoolWellFormed(st.pool)
    ensures var r := WalkLines(st, lines);
            PoolWellFormed(r.pool) && Extends(st, r) && r.startLine >= st.startLine
    decreases |lines|
  {
    if |lines| == 0 {
      assert st.out[..|st.out|] == st.out;
    } else {
      var m := WalkLines(st, lines[..|lines| - 1]);
      WalkLinesKeeps(st, lines[..|lines| - 1]);
      StepKeeps(m, lines[|lines| - 1]);
      ExtendsTrans(st, m, StepLine(m, lines[|lines| - 1]));
    }
  }

  lemma WalkHunkKeeps(st: WalkState, h: Hunk)
    requires Sane(st) && PoolWellFormed(st.pool)
    ensures PoolWellFormed(WalkHunk(st, h).pool) && Extends(st, WalkHunk(st, h))
  {
    var s := st.(startLine := h.oldStart);
    WalkLinesKeeps(s, h.lines);
    var m := WalkLines(s, h.lines);
    assert EndHunk(m).out[..|m.out|] == m.out;
    ExtendsTrans(st, m, EndHunk(m));
  }

  lemma {:induction false} WalkHunksKeeps(st: WalkState, hunks: seq<Hunk>)
    requires Sane(st) && PoolWellFormed(st.pool)
    ensures PoolWellFormed(WalkHunks(st, hunks).pool) && Extends(st, WalkHunks(st, hunks))
    decreases |hunks|
  {
    if |hunks| == 0 {
      assert st.out[..|st.out|] == st.out;
    } else {
      var m := WalkHunks(st, hunks[..|hunks| - 1]);
      WalkHunksKeeps(st, hunks[..|hunks| - 1]);
      WalkHunkKeeps(m, hunks[|hunks| - 1]);
      ExtendsTrans(st, m, WalkHunk(m, hunks[|hunks| - 1]));
    }
  }

  /** Every edit of every parsed file is well formed. */
  lemma ParsedEditsWellFormed(d: ParsedDiff)
    ensures forall i :: 0 <= i < |ParseFile(d).edits| ==> WellFormed(ParseFile(d).edits[i])
  {
    WalkHunksKeeps(Initial, d.hunks);
  }

  /**
   * `getTextEdits` drops nothing: every parsed edit has a known kind, so
   * `apply` never yields undefined and the i-th editor edit is the i-th
   * parsed edit converted.
   */
  lemma NothingFiltered(d: ParsedDiff)
    ensures var edits := ParseFile(d).edits;
            (forall i :: 0 <= i < |edits| ==> HasEnd(edits[i])) &&
            |TextEditsOf(edits)| == |edits| &&
            forall i :: 0 <= i < |edits| ==> Some(TextEditsOf(edits)[i]) == ApplyEdit(edits[i])
  {
    ParsedEditsWellFormed(d);
  }
}
