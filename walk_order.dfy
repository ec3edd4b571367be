// Order of the edits the walk emits. Within one hunk `startLine` never
// decreases, an edit opens at `startLine - 1` and a context line lies
// between two edits, so the edits of a hunk are ascending and do not
// overlap: exactly what the host editor demands of an edit list. For a
// whole file the same holds when the hunks are laid out as a line diff
// lays them out (ascending, and every hunk but the last closed by a
// context line).

module WalkOrder {
  import opened EditorTypes
  import opened EditModel
  import opened HunkWalk
  import opened WalkProperties
  import opened WalkInvariants

  /** The last old-text line an edit reaches: its end line once set, its start line otherwise. */
  function LastLine(e: EditVal): int
  {
    if e.end.Some? then e.end.value.line else e.start.line
  }

  /** From index `b` on, each edit is a forward span and ends before the next begins. */
  predicate SeparatedFrom(pool: seq<EditVal>, b: nat)
  {
    (forall j :: b <= j < |pool| ==> pool[j].start.line <= LastLine(pool[j])) &&
    (forall j :: b <= j < |pool| - 1 ==> LastLine(pool[j]) < pool[j + 1].start.line)
  }

  predicate Separated(es: seq<EditVal>)
  {
    SeparatedFrom(es, 0)
  }

  /** The run of indexes lo, lo + 1, ..., hi - 1. */
  function Indexes(lo: nat, hi: nat): (r: seq<nat>)
    requires lo <= hi
    ensures |r| == hi - lo
    ensures forall i :: 0 <= i < |r| ==> r[i] == lo + i
  {
    seq(hi - lo, i requires 0 <= i < hi - lo => lo + i)
  }

  /**
   * The state part-way through a hunk that began in `st0` with no open edit
   * and `startLine` = `first`: the edits created since then follow each
   * other in order, each closed one was pushed exactly once, and the
   * newest one ends just above `startLine` (on the line above it when
   * still open).
   */
  predicate InHunk(st: WalkState, st0: WalkState, first: int)
  {
    var b := |st0.pool|;
    var n := |st.pool|;
    b <= n && st.pool[..b] == st0.pool &&
    (st.open ==> n > b) &&
    st.out == st0.out + Indexes(b, if st.open then n - 1 else n) &&
    st.startLine >= first &&
    SeparatedFrom(st.pool, b) &&
    (forall j :: b <= j < n ==> st.pool[j].start.line >= first - 1) &&
    (n > b && st.open ==> LastLine(st.pool[n - 1]) == st.startLine - 1) &&
    (n > b && !st.open ==> LastLine(st.pool[n - 1]) < st.startLine - 1)
  }

  /** A new edit opened at `startLine - 1` keeps a hunk's edits in order. */
  lemma OpenInHunk(st: WalkState, st0: WalkState, first: int, r: WalkState, e: EditVal)
    requires Sane(st) && !st0.open && InHunk(st, st0, first) && !st.open
    requires e.start == Position(st.startLine - 1, 0) && e.start.line <= LastLine(e) <= st.startLine
    requires r.pool == st.pool + [e] && r.out == st.out && r.open
    requires r.startLine == st.startLine + (LastLine(e) - e.start.line)
    ensures InHunk(r, st0, first)
  {
    var b := |st0.pool|;
    assert r.pool[..b] == st.pool[..b];
  }

  /** The open edit changes in place without crossing `startLine - 1`. */
  lemma ChangeInHunk(st: WalkState, st0: WalkState, first: int, r: WalkState, e: EditVal)
    requires Sane(st) && !st0.open && InHunk(st, st0, first) && st.open
    requires e.start == st.pool[|st.pool| - 1].start && e.start.line <= LastLine(e)
    requires r.pool == st.pool[|st.pool| - 1 := e] && r.out == st.out && r.open
    requires LastLine(e) == r.startLine - 1 && r.startLine >= st.startLine
    ensures InHunk(r, st0, first)
  {
    var b := |st0.pool|;
    assert r.pool[..b] == st.pool[..b];
  }

  /** A removed or added line opens or changes the newest edit without breaking the hunk's order. */
  lemma ChangeLineInHunk(st: WalkState, st0: WalkState, first: int, line: string)
    requires Sane(st) && Sane(st0) && !st0.open && InHunk(st, st0, first)
    requires TagOf(line) == Removed || TagOf(line) == Added
    ensures InHunk(StepLine(st, line), st0, first)
  {
    var n := |st.pool|;
    var r := StepLine(st, line);
    if !st.open {
      OpenInHunk(st, st0, first, r, r.pool[n]);
    } else {
      ChangeInHunk(st, st0, first, r, r.pool[n - 1]);
    }
  }

  /** A context line pushes the open edit, whose index is the next one due. */
  lemma ContextLineInHunk(st: WalkState, st0: WalkState, first: int, line: string)
    requires Sane(st) && Sane(st0) && !st0.open && InHunk(st, st0, first)
    requires TagOf(line) == Context
    ensures InHunk(StepLine(st, line), st0, first)
  {
    var b := |st0.pool|;
    var n := |st.pool|;
    if st.open {
      assert Indexes(b, n - 1) + [n - 1] == Indexes(b, n);
    }
  }

  lemma StepInHunk(st: WalkState, st0: WalkState, first: int, line: string)
    requires Sane(st) && Sane(st0) && !st0.open && InHunk(st, st0, first)
    ensures InHunk(StepLine(st, line), st0, first)
  {
    match TagOf(line)
    case Removed => ChangeLineInHunk(st, st0, first, line);
    case Added => ChangeLineInHunk(st, st0, first, line);
    case Context => ContextLineInHunk(st, st0, first, line);
    case Other =>
  }

  lemma {:induction false} WalkLinesInHunk(st: WalkState, st0: WalkState, first: int, lines: seq<string>)
    requires Sane(st) && Sane(st0) && !st0.open && InHunk(st, st0, first)
    ensures InHunk(WalkLines(st, lines), st0, first)
    decreases |lines|
  {
    if |lines| > 0 {
      WalkLinesInHunk(st, st0, first, lines[..|lines| - 1]);
      StepInHunk(WalkLines(st, lines[..|lines| - 1]), st0, first, lines[|lines| - 1]);
    }
  }

  /**
   * A hunk walked with no edit open at its start: its output is exactly the
   * Edit objects it created, each once and in creation order; they are
   * ascending and non-overlapping, and none starts above the hunk.
   */
  lemma HunkEditsOrdered(st0: WalkState, h: Hunk)
    requires Sane(st0) && !st0.open
    ensures var r := WalkHunk(st0, h);
            var b := |st0.pool|;
            b <= |r.pool| && r.pool[..b] == st0.pool &&
            r.out == st0.out + Indexes(b, |r.pool|) &&
            SeparatedFrom(r.pool, b) &&
            (forall j :: b <= j < |r.pool| ==> r.pool[j].start.line >= h.oldStart - 1) &&
            r.startLine >= h.oldStart &&
            (!r.open && |r.pool| > b ==> LastLine(r.pool[|r.pool| - 1]) < r.startLine - 1)
  {
    var b := |st0.pool|;
    var s := st0.(startLine := h.oldStart);
    assert st0.out + Indexes(b, b) == st0.out;
    assert InHunk(s, st0, h.oldStart);
    WalkLinesInHunk(s, st0, h.oldStart, h.lines);
    var m := WalkLines(s, h.lines);
    if m.open {
      assert Indexes(b, |m.pool| - 1) + [|m.pool| - 1] == Indexes(b, |m.pool|);
    }
  }

  /** The edits a hunk adds to the `edits` array are the ones it created, in creation order. */
  lemma HunkAppendsItsEdits(st0: WalkState, h: Hunk)
    requires Sane(st0) && !st0.open
    ensures var r := WalkHunk(st0, h);
            |st0.pool| <= |r.pool| && Resolve(r) == Resolve(st0) + r.pool[|st0.pool|..]
  {
    HunkEditsOrdered(st0, h);
    var b := |st0.pool|;
    var r := WalkHunk(st0, h);
    var res := Resolve(r);
    var want := Resolve(st0) + r.pool[b..];
    assert |res| == |want|;
    forall i | 0 <= i < |res| ensures res[i] == want[i] {
      if i < |st0.out| {
        assert r.out[i] == st0.out[i] < b;
        assert r.pool[st0.out[i]] == r.pool[..b][st0.out[i]];
      }
    }
  }

  // ---------------------------------------------------------------------
  // From edits to editor edits

  /** Well-formed, separated edits become an ascending, non-overlapping editor edit list. */
  lemma SeparatedAscending(es: seq<EditVal>)
    requires PoolWellFormed(es)
    requires Separated(es)
    ensures Ascending(TextEditsOf(es))
  {
    var t := TextEditsOf(es);
    forall j | 0 <= j < |t| ensures Before(t[j].range.start, t[j].range.end) && t[j].range.end.line <= LastLine(es[j])
    {
      assert Some(t[j]) == ApplyEdit(es[j]);
    }
  }

  /** The edits of one hunk, converted for the editor, are ascending and non-overlapping. */
  lemma HunkTextEditsAscending(st0: WalkState, h: Hunk)
    requires Sane(st0) && !st0.open && PoolWellFormed(st0.pool)
    ensures var r := WalkHunk(st0, h);
            |st0.pool| <= |r.pool| && PoolWellFormed(r.pool[|st0.pool|..]) &&
            Ascending(TextEditsOf(r.pool[|st0.pool|..]))
  {
    HunkEditsOrdered(st0, h);
    WalkHunkKeeps(st0, h);
    var r := WalkHunk(st0, h);
    var es := r.pool[|st0.pool|..];
    assert Separated(es);
    SeparatedAscending(es);
  }

  // ---------------------------------------------------------------------
  // A whole file

  /** The old-text lines a hunk covers: its removed and context lines. */
  function OldLength(lines: seq<string>): nat
    decreases |lines|
  {
    if |lines| == 0 then 0
    else
      var tag := TagOf(lines[|lines| - 1]);
      OldLength(lines[..|lines| - 1]) + (if tag == Removed || tag == Context then 1 else 0)
  }

  /** `startLine` ends a hunk advanced by exactly the old-text lines the hunk covers. */
  lemma {:induction false} WalkLinesAdvance(st: WalkState, lines: seq<string>)
    requires Sane(st)
    ensures WalkLines(st, lines).startLine == st.startLine + OldLength(lines)
    decreases |lines|
  {
    if |lines| > 0 {
      WalkLinesAdvance(st, lines[..|lines| - 1]);
    }
  }

  /** The last line the switch recognises is a context line, or there is none. */
  predicate EndsWithContext(lines: seq<string>)
  {
    var d := DropOther(lines);
    |d| == 0 || TagOf(d[|d| - 1]) == Context
  }

  lemma ClosedAfter(st: WalkState, lines: seq<string>)
    requires Sane(st) && !st.open && EndsWithContext(lines)
    ensures !WalkLines(st, lines).open
  {
    OtherLinesIgnored(st, lines);
  }

  /**
   * Hunks as a line diff lays them out: each one starts at or below the
   * old-text line where the previous one ended, and every hunk but the last
   * ends on a context line.
   */
  predicate LaidOut(hunks: seq<Hunk>)
  {
    forall j :: 0 <= j < |hunks| - 1 ==>
      EndsWithContext(hunks[j].lines) &&
      hunks[j].oldStart + OldLength(hunks[j].lines) <= hunks[j + 1].oldStart
  }

  /** The ordered prefix of a file stays ordered when the next hunk starts below its last edit. */
  lemma AppendHunkOrdered(m: WalkState, h: Hunk)
    requires Sane(m) && !m.open
    requires m.out == Indexes(0, |m.pool|) && SeparatedFrom(m.pool, 0)
    requires |m.pool| > 0 ==> LastLine(m.pool[|m.pool| - 1]) < h.oldStart - 1
    ensures var r := WalkHunk(m, h);
            r.out == Indexes(0, |r.pool|) && SeparatedFrom(r.pool, 0)
  {
    var b := |m.pool|;
    HunkEditsOrdered(m, h);
    var r := WalkHunk(m, h);
    var n := |r.pool|;
    assert Indexes(0, b) + Indexes(b, n) == Indexes(0, n);
    assert forall j :: 0 <= j < b ==> r.pool[j] == m.pool[j] by {
      assert r.pool[..b] == m.pool;
    }
    if 0 < b < n {
      assert LastLine(r.pool[b - 1]) < r.pool[b].start.line;
    }
  }

  /** A hunk that ends on a context line leaves no edit open, and its last edit ends above its end. */
  lemma ClosedHunkEnd(m: WalkState, h: Hunk)
    requires Sane(m) && !m.open && EndsWithContext(h.lines)
    requires |m.pool| > 0 ==> LastLine(m.pool[|m.pool| - 1]) < h.oldStart - 1
    ensures var r := WalkHunk(m, h);
            !r.open && (|r.pool| > 0 ==> LastLine(r.pool[|r.pool| - 1]) < h.oldStart + OldLength(h.lines) - 1)
  {
    var b := |m.pool|;
    HunkEditsOrdered(m, h);
    var r := WalkHunk(m, h);
    WalkLinesAdvance(m.(startLine := h.oldStart), h.lines);
    ClosedAfter(m.(startLine := h.oldStart), h.lines);
    if |r.pool| == b && b > 0 {
      assert r.pool[b - 1] == r.pool[..b][b - 1];
    }
  }

  /** Dropping the last hunk keeps the layout. */
  lemma LaidOutPrefix(hunks: seq<Hunk>)
    requires |hunks| > 0 && LaidOut(hunks)
    ensures LaidOut(hunks[..|hunks| - 1])
  {
    var init := hunks[..|hunks| - 1];
    forall j | 0 <= j < |init| - 1
      ensures EndsWithContext(init[j].lines) && init[j].oldStart + OldLength(init[j].lines) <= init[j + 1].oldStart
    {
      assert init[j] == hunks[j] && init[j + 1] == hunks[j + 1];
    }
  }

  lemma {:induction false} LaidOutFileOrdered(hunks: seq<Hunk>)
    requires LaidOut(hunks)
    ensures var r := WalkHunks(Initial, hunks);
            r.out == Indexes(0, |r.pool|) && SeparatedFrom(r.pool, 0) &&
            (|hunks| > 0 && EndsWithContext(hunks[|hunks| - 1].lines) ==>
               !r.open &&
               (|r.pool| > 0 ==>
                  LastLine(r.pool[|r.pool| - 1]) < hunks[|hunks| - 1].oldStart + OldLength(hunks[|hunks| - 1].lines) - 1))
    decreases |hunks|
  {
    if |hunks| == 0 {
      assert Indexes(0, 0) == [];
    } else {
      var init := hunks[..|hunks| - 1];
      var h := hunks[|hunks| - 1];
      LaidOutPrefix(hunks);
      LaidOutFileOrdered(init);
      var m := WalkHunks(Initial, init);
      assert WalkHunks(Initial, hunks) == WalkHunk(m, h);
      if |init| > 0 {
        assert init[|init| - 1] == hunks[|hunks| - 2];
      }
      assert |m.pool| > 0 ==> LastLine(m.pool[|m.pool| - 1]) < h.oldStart - 1;
      AppendHunkOrdered(m, h);
      if EndsWithContext(h.lines) {
        ClosedHunkEnd(m, h);
      }
    }
  }

  /**
   * The edit list of a file whose hunks are laid out as a line diff lays
   * them out holds every edit exactly once, in creation order, ascending
   * and non-overlapping, and so is the editor edit list built from it.
   */
  lemma FileEditsAscending(d: ParsedDiff)
    requires LaidOut(d.hunks)
    ensures var edits := ParseFile(d).edits;
            Separated(edits) && PoolWellFormed(edits) && Ascending(TextEditsOf(edits))
  {
    LaidOutFileOrdered(d.hunks);
    var r := WalkHunks(Initial, d.hunks);
    assert Resolve(r) == r.pool;
    ParsedEditsWellFormed(d);
    SeparatedAscending(ParseFile(d).edits);
  }

  /** A diff in which no line is added or removed (e.g. of two equal texts) yields no edits. */
  lemma {:induction false} UnchangedHunksNoEdits(hunks: seq<Hunk>)
    requires forall j, i :: 0 <= j < |hunks| && 0 <= i < |hunks[j].lines| ==> Unchanging(hunks[j].lines[i])
    ensures var r := WalkHunks(Initial, hunks);
            r.pool == [] && r.out == [] && !r.open
    decreases |hunks|
  {
    if |hunks| > 0 {
      var init := hunks[..|hunks| - 1];
      UnchangedHunksNoEdits(init);
      var m := WalkHunks(Initial, init);
      var h := hunks[|hunks| - 1];
      ContextOnlyLines(m.(startLine := h.oldStart), h.lines);
    }
  }

  lemma UnchangedFileNoEdits(d: ParsedDiff)
    requires forall j, i :: 0 <= j < |d.hunks| && 0 <= i < |d.hunks[j].lines| ==> Unchanging(d.hunks[j].lines[i])
    ensures ParseFile(d).edits == []
  {
    UnchangedHunksNoEdits(d.hunks);
  }
}
