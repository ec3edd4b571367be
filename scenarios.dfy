// Concrete walks: the three line-diff scenarios of the formatter (one
// replaced, one appended, one removed line), and the sharing of one Edit
// object between two hunks when a hunk ends with an edit still open.

module Scenarios {
  import opened EditorTypes
  import opened EditModel
  import opened HunkWalk

  /** The added line "+c" contributes "c\n". */
  lemma AddedOne(c: char)
    ensures TagOf(['+', c]) == Added && "" + Content(['+', c]) + "\n" == [c, '\n']
  {
    assert ['+', c][1..] == [c];
  }

  lemma ReplacedLineWalk()
    ensures WalkLines(WalkState(1, [], [], false), [" a", "-b", "+x", " c"])
         == WalkState(4, [EditVal(EDIT_REPLACE, Position(1, 0), Some(Position(2, 0)), "x\n")], [0], false)
  {
    var lines := [" a", "-b", "+x", " c"];
    var s0 := WalkState(1, [], [], false);
    var s2 := WalkState(3, [EditVal(EDIT_DELETE, Position(1, 0), Some(Position(2, 0)), "")], [], true);
    var s3 := WalkState(3, [EditVal(EDIT_REPLACE, Position(1, 0), Some(Position(2, 0)), "x\n")], [], true);
    assert lines[..3][..2] == lines[..2] && lines[..2][..1] == lines[..1] && lines[..1][..0] == [];
    AddedOne('x');
    assert StepLine(s2, "+x") == s3;
    assert WalkLines(s0, lines[..1]) == WalkState(2, [], [], false);
    assert WalkLines(s0, lines[..2]) == s2;
    assert WalkLines(s0, lines[..3]) == s3;
  }

  /** "a\nb\nc\n" to "a\nx\nc\n": one Replace of line 1 by "x\n". */
  lemma ReplacedLine()
    ensures var d := ParsedDiff(None, [Hunk(1, [" a", "-b", "+x", " c"])]);
            ParseFile(d).edits == [EditVal(EDIT_REPLACE, Position(1, 0), Some(Position(2, 0)), "x\n")] &&
            TextEditsOf(ParseFile(d).edits) == [ReplaceEdit(Range(Position(1, 0), Position(2, 0)), "x\n")]
  {
    ReplacedLineWalk();
    assert [Hunk(1, [" a", "-b", "+x", " c"])][..0] == [];
  }

  lemma AppendedLineWalk()
    ensures WalkLines(WalkState(1, [], [], false), [" a", " b", "+c"])
         == WalkState(3, [EditVal(EDIT_INSERT, Position(2, 0), None, "c\n")], [], true)
  {
    var lines := [" a", " b", "+c"];
    var s0 := WalkState(1, [], [], false);
    var s2 := WalkState(3, [], [], false);
    assert lines[..2][..1] == lines[..1] && lines[..1][..0] == [];
    AddedOne('c');
    assert StepLine(s2, "+c") == WalkState(3, [EditVal(EDIT_INSERT, Position(2, 0), None, "c\n")], [], true);
    assert StepLine(s0, " a") == WalkState(2, [], [], false);
    assert StepLine(WalkState(2, [], [], false), " b") == s2;
    assert WalkLines(s0, lines[..1]) == WalkState(2, [], [], false);
    assert WalkLines(s0, lines[..2]) == s2;
  }

  /** "a\nb\n" to "a\nb\nc\n": one Insert of "c\n" at the start of line 2, the end of the document. */
  lemma AppendedLine()
    ensures var d := ParsedDiff(None, [Hunk(1, [" a", " b", "+c"])]);
            ParseFile(d).edits == [EditVal(EDIT_INSERT, Position(2, 0), None, "c\n")] &&
            TextEditsOf(ParseFile(d).edits) == [InsertEdit(Position(2, 0), "c\n")]
  {
    AppendedLineWalk();
    assert [Hunk(1, [" a", " b", "+c"])][..0] == [];
  }

  lemma RemovedLineWalk()
    ensures WalkLines(WalkState(1, [], [], false), [" a", "-b", " c"])
         == WalkState(4, [EditVal(EDIT_DELETE, Position(1, 0), Some(Position(2, 0)), "")], [0], false)
  {
    var lines := [" a", "-b", " c"];
    var s0 := WalkState(1, [], [], false);
    assert lines[..2][..1] == lines[..1] && lines[..1][..0] == [];
    var e := EditVal(EDIT_DELETE, Position(1, 0), Some(Position(2, 0)), "");
    assert WalkLines(s0, lines[..1]) == WalkState(2, [], [], false);
    assert WalkLines(s0, lines[..2]) == WalkState(3, [e], [], true);
  }

  /** "a\nb\nc\n" to "a\nc\n": one Delete of line 1. */
  lemma RemovedLine()
    ensures var d := ParsedDiff(None, [Hunk(1, [" a", "-b", " c"])]);
            ParseFile(d).edits == [EditVal(EDIT_DELETE, Position(1, 0), Some(Position(2, 0)), "")] &&
            TextEditsOf(ParseFile(d).edits) == [DeleteEdit(Range(Position(1, 0), Position(2, 0)))]
  {
    RemovedLineWalk();
    assert [Hunk(1, [" a", "-b", " c"])][..0] == [];
  }

  /** The first hunk ends on a removed line: its Delete is pushed and stays open. */
  lemma FirstHunkLeavesEditOpen()
    ensures WalkHunks(Initial, [Hunk(1, [" a", "-b"])])
         == WalkState(3, [EditVal(EDIT_DELETE, Position(1, 0), Some(Position(2, 0)), "")], [0], true)
  {
    var h1 := Hunk(1, [" a", "-b"]);
    var del := EditVal(EDIT_DELETE, Position(1, 0), Some(Position(2, 0)), "");
    assert h1.lines[..1][..0] == [] && [h1][..0] == [];
    assert WalkLines(WalkState(1, [], [], false), h1.lines[..1]) == WalkState(2, [], [], false);
    assert WalkLines(WalkState(1, [], [], false), h1.lines) == WalkState(3, [del], [], true);
  }

  /** The second hunk's added line changes that same open object and pushes it again. */
  lemma SecondHunkReusesIt()
    ensures WalkHunk(WalkState(3, [EditVal(EDIT_DELETE, Position(1, 0), Some(Position(2, 0)), "")], [0], true), Hunk(10, ["+d"]))
         == WalkState(10, [EditVal(EDIT_REPLACE, Position(1, 0), Some(Position(2, 0)), "d\n")], [0, 0], true)
  {
    var m := WalkState(3, [EditVal(EDIT_DELETE, Position(1, 0), Some(Position(2, 0)), "")], [0], true);
    var rep := EditVal(EDIT_REPLACE, Position(1, 0), Some(Position(2, 0)), "d\n");
    assert ["+d"][..0] == [];
    AddedOne('d');
    assert StepLine(m.(startLine := 10), "+d") == WalkState(10, [rep], [0], true);
  }

  /**
   * A hunk that ends on a removed line leaves its Delete open; the next
   * hunk's added line turns that same object into a Replace carrying the
   * new text, so the file's edit list holds that one object twice and the
   * Delete is gone.
   */
  lemma OpenEditSharedAcrossHunks()
    ensures var d := ParsedDiff(Some("f"), [Hunk(1, [" a", "-b"]), Hunk(10, ["+d"])]);
            var e := EditVal(EDIT_REPLACE, Position(1, 0), Some(Position(2, 0)), "d\n");
            ParseFile(d) == FilePatch("f", [e, e])
  {
    var hunks := [Hunk(1, [" a", "-b"]), Hunk(10, ["+d"])];
    FirstHunkLeavesEditOpen();
    SecondHunkReusesIt();
    assert hunks[..1] == [Hunk(1, [" a", "-b"])];
  }
}
