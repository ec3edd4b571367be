// Properties of the hunk walk: what a run of removed or added lines does,
// how a maximal run coalesces into one edit, which lines are ignored, the
// invariants every step keeps, and the order of the edits of one hunk.

module WalkProperties {
  import opened EditorTypes
  import opened EditModel
  import opened HunkWalk

  // ---------------------------------------------------------------------
  // Folding over concatenated input

  lemma {:induction false} WalkLinesAppend(st: WalkState, a: seq<string>, b: seq<string>)
    requires Sane(st)
    ensures WalkLines(st, a + b) == WalkLines(WalkLines(st, a), b)
    decreases |b|
  {
    if |b| == 0 {
      assert a + b == a;
    } else {
      assert (a + b)[..|a + b| - 1] == a + b[..|b| - 1];
      WalkLinesAppend(st, a, b[..|b| - 1]);
    }
  }

  lemma WalkLinesOne(st: WalkState, line: string)
    requires Sane(st)
    ensures WalkLines(st, [line]) == StepLine(st, line)
  {
    assert [line][..0] == [];
  }

  // ---------------------------------------------------------------------
  // Runs of removed and added lines

  predicate AllTagged(lines: seq<string>, tag: Tag)
  {
    forall i :: 0 <= i < |lines| ==> TagOf(lines[i]) == tag
  }

  /** The text a run of added lines contributes: each line's content and one "\n". */
  function AddedText(lines: seq<string>): string
    decreases |lines|
  {
    if |lines| == 0 then "" else AddedText(lines[..|lines| - 1]) + Content(lines[|lines| - 1]) + "\n"
  }

  /**
   * k removed lines: with no open edit a Delete opens at (startLine - 1, 0);
   * either way the open edit now ends at (startLine - 1 + k, 0), `startLine`
   * advanced by k, and nothing was pushed.
   */
  lemma {:induction false} RemovedRun(st: WalkState, lines: seq<string>)
    requires Sane(st)
    requires |lines| > 0 && AllTagged(lines, Removed)
    ensures var pool := OpenSlot(st, EDIT_DELETE);
            var last := |pool| - 1;
            WalkLines(st, lines) ==
              WalkState(st.startLine + |lines|,
                        pool[last := pool[last].(end := Some(Position(st.startLine - 1 + |lines|, 0)))],
                        st.out, true)
    decreases |lines|
  {
    var init := lines[..|lines| - 1];
    if |init| == 0 {
      assert lines == [lines[0]];
      WalkLinesOne(st, lines[0]);
    } else {
      RemovedRun(st, init);
    }
  }

  /** A fresh run of k removed lines spans lines [s - 1, s - 1 + k) at column 0 and deletes only. */
  lemma FreshRemovedRun(st: WalkState, lines: seq<string>)
    requires Sane(st) && !st.open
    requires |lines| > 0 && AllTagged(lines, Removed)
    ensures WalkLines(st, lines) ==
      WalkState(st.startLine + |lines|,
                st.pool + [EditVal(EDIT_DELETE, Position(st.startLine - 1, 0), Some(Position(st.startLine - 1 + |lines|, 0)), "")],
                st.out, true)
  {
    RemovedRun(st, lines);
  }

  /**
   * m added lines: with no open edit an Insert opens at (startLine - 1, 0);
   * an open Delete becomes a Replace and any other kind stays; the text
   * grows by exactly the lines' contents, one "\n" each; `startLine`, the
   * edit's start and end, and the output are unchanged.
   */
  lemma {:induction false} AddedRun(st: WalkState, lines: seq<string>)
    requires Sane(st)
    requires |lines| > 0 && AllTagged(lines, Added)
    ensures var pool := OpenSlot(st, EDIT_INSERT);
            var last := |pool| - 1;
            var e := pool[last];
            var action := if st.open && e.action == EDIT_DELETE then EDIT_REPLACE else e.action;
            WalkLines(st, lines) ==
              WalkState(st.startLine, pool[last := e.(action := action, text := e.text + AddedText(lines))], st.out, true)
    decreases |lines|
  {
    var init := lines[..|lines| - 1];
    var line := lines[|lines| - 1];
    var pool := OpenSlot(st, EDIT_INSERT);
    var last := |pool| - 1;
    var e := pool[last];
    if |init| == 0 {
      assert lines == [line];
      assert AddedText(lines) == Content(line) + "\n";
      WalkLinesOne(st, line);
      assert e.text + Content(line) + "\n" == e.text + AddedText(lines);
    } else {
      AddedRun(st, init);
      var m := WalkLines(st, init);
      AddedToOpen(m, line);
      assert e.text + AddedText(init) + Content(line) + "\n" == e.text + AddedText(lines);
    }
  }

  /** An added line with a non-Delete edit open only extends that edit's text. */
  lemma AddedToOpen(m: WalkState, line: string)
    requires Sane(m) && m.open && TagOf(line) == Added
    requires m.pool[|m.pool| - 1].action != EDIT_DELETE
    ensures var e := m.pool[|m.pool| - 1];
            StepLine(m, line) == m.(pool := m.pool[|m.pool| - 1 := e.(text := e.text + Content(line) + "\n")])
  {
  }

  /** k removed lines then m added lines, from no open edit: one open Replace of [s - 1, s - 1 + k). */
  lemma RemovedThenAdded(st: WalkState, removed: seq<string>, added: seq<string>)
    requires Sane(st) && !st.open
    requires |removed| > 0 && AllTagged(removed, Removed)
    requires |added| > 0 && AllTagged(added, Added)
    ensures WalkLines(WalkLines(st, removed), added) ==
      WalkState(st.startLine + |removed|,
                st.pool + [EditVal(EDIT_REPLACE, Position(st.startLine - 1, 0), Some(Position(st.startLine - 1 + |removed|, 0)), AddedText(added))],
                st.out, true)
  {
    var s := st.startLine;
    var d := EditVal(EDIT_DELETE, Position(s - 1, 0), Some(Position(s - 1 + |removed|, 0)), "");
    var m := WalkLines(st, removed);
    FreshRemovedRun(st, removed);
    assert m == WalkState(s + |removed|, st.pool + [d], st.out, true);
    AddedRun(m, added);
    var d' := d.(action := EDIT_REPLACE, text := "" + AddedText(added));
    assert (st.pool + [d])[|st.pool| := d'] == st.pool + [d'];
  }

  /**
   * Coalescing: k removed lines followed directly by m added lines and then
   * a context line yield exactly one edit, a Replace of lines
   * [s - 1, s - 1 + k) by the added text, and close the slot.
   */
  lemma ReplaceRunCoalesces(st: WalkState, removed: seq<string>, added: seq<string>, context: string)
    requires Sane(st) && !st.open
    requires |removed| > 0 && AllTagged(removed, Removed)
    requires |added| > 0 && AllTagged(added, Added)
    requires TagOf(context) == Context
    ensures WalkLines(st, removed + added + [context]) ==
      WalkState(st.startLine + |removed| + 1,
                st.pool + [EditVal(EDIT_REPLACE, Position(st.startLine - 1, 0), Some(Position(st.startLine - 1 + |removed|, 0)), AddedText(added))],
                st.out + [|st.pool|], false)
  {
    RemovedThenAdded(st, removed, added);
    WalkLinesAppend(st, removed, added);
    WalkLinesAppend(st, removed + added, [context]);
    WalkLinesOne(WalkLines(st, removed + added), context);
  }

  predicate IsChange(line: string)
  {
    TagOf(line) == Removed || TagOf(line) == Added
  }

  /** Any non-empty run of removed/added lines, in any order, opens exactly one new edit and pushes nothing. */
  lemma {:induction false} ChangeRunOpensOneEdit(st: WalkState, run: seq<string>)
    requires Sane(st) && !st.open
    requires |run| > 0 && forall i :: 0 <= i < |run| ==> IsChange(run[i])
    ensures var r := WalkLines(st, run);
            r.open && |r.pool| == |st.pool| + 1 && r.pool[..|st.pool|] == st.pool && r.out == st.out
    decreases |run|
  {
    var init := run[..|run| - 1];
    if |init| > 0 {
      ChangeRunOpensOneEdit(st, init);
    }
  }

  /** A maximal run of changed lines ended by a context line becomes exactly one pushed edit. */
  lemma OneEditPerRun(st: WalkState, run: seq<string>, context: string)
    requires Sane(st) && !st.open
    requires |run| > 0 && forall i :: 0 <= i < |run| ==> IsChange(run[i])
    requires TagOf(context) == Context
    ensures var r := WalkLines(st, run + [context]);
            !r.open && |r.pool| == |st.pool| + 1 && r.pool[..|st.pool|] == st.pool &&
            r.out == st.out + [|st.pool|] && Resolve(r) == Resolve(st) + [r.pool[|st.pool|]]
  {
    ChangeRunOpensOneEdit(st, run);
    WalkLinesAppend(st, run, [context]);
    WalkLinesOne(WalkLines(st, run), context);
  }

  // ---------------------------------------------------------------------
  // Lines that produce nothing

  predicate Unchanging(line: string)
  {
    TagOf(line) == Context || TagOf(line) == Other
  }

  /** With no open edit, context and unrecognised lines only advance `startLine`. */
  lemma {:induction false} ContextOnlyLines(st: WalkState, lines: seq<string>)
    requires Sane(st) && !st.open
    requires forall i :: 0 <= i < |lines| ==> Unchanging(lines[i])
    ensures var r := WalkLines(st, lines);
            r.pool == st.pool && r.out == st.out && !r.open && r.startLine >= st.startLine
    decreases |lines|
  {
    if |lines| > 0 {
      ContextOnlyLines(st, lines[..|lines| - 1]);
    }
  }

  /** A hunk of context lines only yields no edits. */
  lemma ContextOnlyHunk(st: WalkState, h: Hunk)
    requires Sane(st) && !st.open
    requires forall i :: 0 <= i < |h.lines| ==> Unchanging(h.lines[i])
    ensures WalkHunk(st, h).pool == st.pool && Resolve(WalkHunk(st, h)) == Resolve(st)
  {
    ContextOnlyLines(st.(startLine := h.oldStart), h.lines);
  }

  /** The lines the switch recognises. */
  function DropOther(lines: seq<string>): (r: seq<string>)
    ensures forall i :: 0 <= i < |r| ==> TagOf(r[i]) != Other
    decreases |lines|
  {
    if |lines| == 0 then []
    else
      var last := lines[|lines| - 1];
      DropOther(lines[..|lines| - 1]) + (if TagOf(last) == Other then [] else [last])
  }

  /** A line that is none of "-", "+", " " changes nothing: removing all of them gives the same walk. */
  lemma {:induction false} OtherLinesIgnored(st: WalkState, lines: seq<string>)
    requires Sane(st)
    ensures WalkLines(st, lines) == WalkLines(st, DropOther(lines))
    decreases |lines|
  {
    if |lines| > 0 {
      var init := lines[..|lines| - 1];
      var last := lines[|lines| - 1];
      OtherLinesIgnored(st, init);
      if TagOf(last) != Other {
        var d := DropOther(init);
        assert DropOther(lines) == d + [last];
        assert (d + [last])[..|d + [last]| - 1] == d;
      } else {
        assert DropOther(lines) == DropOther(init);
      }
    }
  }
}
