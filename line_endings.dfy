// The line-ending normalisation `getEdits` applies on Windows before
// diffing: `s.split("\r\n").join("\n")`. The platform test is a parameter.

module LineEndings {

  /** `s.split("\r\n")`: the pieces between non-overlapping CR-LF pairs, scanning left to right. */
  function SplitCrlf(s: string): (parts: seq<string>)
    ensures |parts| >= 1
    decreases |s|
  {
    if |s| == 0 then [""]
    else if |s| >= 2 && s[0] == '\r' && s[1] == '\n' then [""] + SplitCrlf(s[2..])
    else
      var rest := SplitCrlf(s[1..]);
      [[s[0]] + rest[0]] + rest[1..]
  }

  /** `parts.join(sep)`: starts with the first part and ends with the last. */
  function Join(parts: seq<string>, sep: string): (r: string)
    requires |parts| >= 1
    ensures parts[0] <= r
    decreases |parts|
  {
    if |parts| == 1 then parts[0] else parts[0] + sep + Join(parts[1..], sep)
  }

  /**
   * The normalised text handed to the diff: on Windows every CR that
   * precedes an LF is dropped (the CR-LF pair becomes LF); elsewhere the text
   * is passed on unchanged.
   */
  function NormalizeEol(s: string, isWindows: bool): (r: string)
    ensures isWindows ==> r == DropCrBeforeLf(s)
    ensures !isWindows ==> r == s
  {
    if isWindows then SplitJoinDropsCr(s); Join(SplitCrlf(s), "\n") else s
  }

  /** Reference definition: drop every CR that immediately precedes an LF, keep every other character. */
  function DropCrBeforeLf(s: string): string
    decreases |s|
  {
    if |s| == 0 then ""
    else if |s| >= 2 && s[0] == '\r' && s[1] == '\n' then DropCrBeforeLf(s[1..])
    else [s[0]] + DropCrBeforeLf(s[1..])
  }

  /** The number of LF characters, i.e. of line breaks the line diff sees. */
  function CountLf(s: string): nat
    decreases |s|
  {
    if |s| == 0 then 0 else (if s[0] == '\n' then 1 else 0) + CountLf(s[1..])
  }

  lemma JoinConsChar(c: char, p: string, ps: seq<string>, sep: string)
    ensures Join([[c] + p] + ps, sep) == [c] + Join([p] + ps, sep)
  {
    if |ps| > 0 {
      assert ([[c] + p] + ps)[1..] == ps;
      assert ([p] + ps)[1..] == ps;
    }
  }

  lemma JoinSplitCons(c: char, s: string, sep: string)
    requires !(|s| >= 1 && c == '\r' && s[0] == '\n')
    ensures Join(SplitCrlf([c] + s), sep) == [c] + Join(SplitCrlf(s), sep)
  {
    var t := [c] + s;
    assert t[1..] == s;
    var rest := SplitCrlf(s);
    JoinConsChar(c, rest[0], rest[1..], sep);
    assert [rest[0]] + rest[1..] == rest;
  }

  /** Splitting on CR-LF and joining back with CR-LF gives the text back. */
  lemma {:induction false} SplitJoinRoundTrip(s: string)
    ensures Join(SplitCrlf(s), "\r\n") == s
    decreases |s|
  {
    if |s| == 0 {
    } else if |s| >= 2 && s[0] == '\r' && s[1] == '\n' {
      SplitJoinRoundTrip(s[2..]);
      assert ([""] + SplitCrlf(s[2..]))[1..] == SplitCrlf(s[2..]);
      assert s == "\r\n" + s[2..];
    } else {
      SplitJoinRoundTrip(s[1..]);
      JoinSplitCons(s[0], s[1..], "\r\n");
      assert s == [s[0]] + s[1..];
    }
  }

  /** `split("\r\n").join("\n")` is exactly: drop each CR that precedes an LF. */
  lemma {:induction false} SplitJoinDropsCr(s: string)
    ensures Join(SplitCrlf(s), "\n") == DropCrBeforeLf(s)
    decreases |s|
  {
    if |s| == 0 {
    } else if |s| >= 2 && s[0] == '\r' && s[1] == '\n' {
      var rest := SplitCrlf(s[2..]);
      SplitJoinDropsCr(s[2..]);
      assert SplitCrlf(s) == [""] + rest;
      assert ([""] + rest)[1..] == rest;
      assert Join(SplitCrlf(s), "\n") == "\n" + DropCrBeforeLf(s[2..]);
      var t := s[1..];
      assert t[0] == '\n' && t[1..] == s[2..];
      assert DropCrBeforeLf(t) == "\n" + DropCrBeforeLf(s[2..]);
    } else {
      SplitJoinDropsCr(s[1..]);
      JoinSplitCons(s[0], s[1..], "\n");
      assert s == [s[0]] + s[1..];
    }
  }

  /** Normalisation keeps every line break, so line numbers mean the same before and after. */
  lemma {:induction false} NormalizeKeepsLineBreaks(s: string, isWindows: bool)
    ensures CountLf(NormalizeEol(s, isWindows)) == CountLf(s)
  {
    if isWindows {
      DropKeepsLf(s);
    }
  }

  lemma {:induction false} DropKeepsLf(s: string)
    ensures CountLf(DropCrBeforeLf(s)) == CountLf(s)
    decreases |s|
  {
    if |s| > 0 {
      DropKeepsLf(s[1..]);
      if !(|s| >= 2 && s[0] == '\r' && s[1] == '\n') {
        assert ([s[0]] + DropCrBeforeLf(s[1..]))[1..] == DropCrBeforeLf(s[1..]);
      }
    }
  }

  /** A text with no CR-LF pair is left as it is. */
  lemma {:induction false} NormalizeWithoutCrlf(s: string, isWindows: bool)
    requires forall i :: 0 <= i < |s| - 1 ==> !(s[i] == '\r' && s[i + 1] == '\n')
    ensures NormalizeEol(s, isWindows) == s
  {
    if isWindows {
      DropWithoutCrlf(s);
    }
  }

  lemma {:induction false} DropWithoutCrlf(s: string)
    requires forall i :: 0 <= i < |s| - 1 ==> !(s[i] == '\r' && s[i + 1] == '\n')
    ensures DropCrBeforeLf(s) == s
    decreases |s|
  {
    if |s| > 0 {
      DropWithoutCrlf(s[1..]);
      assert s == [s[0]] + s[1..];
    }
  }
}
