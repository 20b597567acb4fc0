/** Texts as sequences of lines, and how the two line readers of the program cut them. */
module IniLines {
  import opened IniText

  function Concat(lines: seq<string>): string {
    if lines == [] then [] else lines[0] + Concat(lines[1..])
  }

  /** A line with its newline, without NUL or another newline. */
  predicate FullLine(line: string) {
    line != [] && line[|line| - 1] == '\n' && NUL !in line && '\n' !in line[..|line| - 1]
  }

  /** The lines of a text: only the last may lack its newline. */
  predicate IsLines(lines: seq<string>) {
    && (forall i :: 0 <= i < |lines| - 1 ==> FullLine(lines[i]))
    && (lines != [] ==> var last := lines[|lines| - 1]; FullLine(last) || (last != [] && '\n' !in last && NUL !in last))
  }

  lemma IsLinesTail(lines: seq<string>)
    requires IsLines(lines) && lines != []
    ensures IsLines(lines[1..])
  {
    forall i | 0 <= i < |lines[1..]| - 1
      ensures FullLine(lines[1..][i])
    {
      assert FullLine(lines[i + 1]);
    }
  }

  lemma {:induction false} PieceFull(line: string, rest: string, size: nat)
    requires FullLine(line) && |line| < size
    ensures Piece(line + rest, size) == line
  {
    var text := line + rest;
    assert text[0] == line[0];
    if |line| > 1 {
      assert text[1..] == line[1..] + rest;
      assert line[..|line| - 1][0] == line[0];
      assert line[1..][..|line[1..]| - 1] == line[..|line| - 1][1..];
      PieceFull(line[1..], rest, size - 1);
    }
  }

  lemma {:induction false} PieceLast(line: string, size: nat)
    requires '\n' !in line && |line| < size
    ensures Piece(line, size) == line
  {
    if line != [] {
      PieceLast(line[1..], size - 1);
    }
  }

  /** A reader whose buffer no line fills reads the lines. */
  lemma {:induction false} PiecesAreLines(lines: seq<string>, size: nat)
    requires IsLines(lines) && 1 < size && forall i :: 0 <= i < |lines| ==> |lines[i]| < size
    ensures Pieces(Concat(lines), size) == lines
  {
    if lines != [] {
      var line, rest := lines[0], Concat(lines[1..]);
      IsLinesTail(lines);
      PiecesAreLines(lines[1..], size);
      if |lines| > 1 || FullLine(line) {
        PieceFull(line, rest, size);
      } else {
        assert lines[1..] == [] && line + rest == line;
        PieceLast(line, size);
      }
      assert (line + rest)[|line|..] == rest;
    }
  }

  lemma {:induction false} CStringPlain(s: string)
    requires NUL !in s
    ensures CString(s) == s
  {
    if s != [] {
      CStringPlain(s[1..]);
    }
  }

  lemma {:induction false} CStringsPlain(lines: seq<string>)
    requires forall i :: 0 <= i < |lines| ==> NUL !in lines[i]
    ensures CStrings(lines) == lines
  {
    if lines != [] {
      CStringPlain(lines[0]);
      CStringsPlain(lines[1..]);
    }
  }

  /** So the parser runs over the lines. */
  lemma ParseLines(lines: seq<string>, handler: Handler)
    requires IsLines(lines) && forall i :: 0 <= i < |lines| ==> |lines[i]| < INI_MAX_LINE
    ensures ParseText(Concat(lines), handler) == Run(lines, INITIAL, 1, Stepper(handler))
  {
    PiecesAreLines(lines, INI_MAX_LINE);
    forall i | 0 <= i < |lines|
      ensures NUL !in lines[i]
    {
      if i < |lines| - 1 {
        assert FullLine(lines[i]);
      }
    }
    CStringsPlain(lines);
  }
}
