/** The editor and the parser number lines differently: what the edit does to the lines of a
    file, and when both mean the same line (source/main.cpp, source/ini.c). */
module AutobootEdit {
  import opened Options
  import opened IniText
  import opened IniLines
  import opened Autoboot

  ghost predicate FullLines(lines: seq<string>) {
    forall i :: 0 <= i < |lines| ==> FullLine(lines[i])
  }

  lemma FullLinesTail(lines: seq<string>)
    requires FullLines(lines) && lines != []
    ensures FullLines(lines[1..]) && FullLine(lines[0])
  {
    forall i | 0 <= i < |lines[1..]|
      ensures FullLine(lines[1..][i])
    {
      assert FullLine(lines[i + 1]);
    }
  }

  /** A line that does not fit fills the buffer. */
  lemma {:induction false} PieceLong(line: string, rest: string, size: nat)
    requires FullLine(line) && 1 < size <= |line|
    ensures Piece(line + rest, size) == line[..size - 1] && FullLine(line[size - 1..])
  {
    var text := line + rest;
    assert text[0] == line[0] == line[..|line| - 1][0];
    if size > 2 {
      assert text[1..] == line[1..] + rest;
      assert line[1..][..|line[1..]| - 1] == line[..|line| - 1][1..];
      PieceLong(line[1..], rest, size - 1);
      assert line[..size - 1] == [line[0]] + line[1..][..size - 2];
    } else {
      assert line[1..][..|line[1..]| - 1] == line[..|line| - 1][1..];
    }
  }

  // ---------------------------------------------------------------- the edit, line by line

  predicate Touched(e: Edit, i: nat) {
    i == e.line || (i == e.listLine && e.listText.Some?)
  }

  /** A line that fits is read and written at once. */
  lemma RewriteShort(line: string, rest: string, i: nat, e: Edit)
    requires FullLine(line) && |line| < FGETS_MAX
    ensures Rewritten(line + rest, i, e) == Replacement(e, i, line) + Rewritten(rest, i + 1, e)
  {
    PieceFull(line, rest, FGETS_MAX);
    assert Seen(line + rest) == line;
    assert (line + rest)[|line|..] == rest;
    RewriteStep(line + rest, i, e);
  }

  lemma Heads(line: string, n: nat)
    requires FullLine(line) && 0 < n < |line|
    ensures NUL !in line[..n] && !Ended(line[..n])
  {
    assert line[..n][n - 1] == line[..|line| - 1][n - 1];
  }

  /** Of a longer one, the part that fits is copied. */
  lemma RewriteLong(line: string, rest: string, i: nat, e: Edit)
    requires FullLine(line) && FGETS_MAX <= |line|
    ensures FullLine(line[FGETS_MAX - 1..])
    ensures Rewritten(line + rest, i, e)
      == line[..FGETS_MAX - 1] + Rewritten(line[FGETS_MAX - 1..] + rest, i, e)
  {
    var n := FGETS_MAX - 1;
    var text, head := line + rest, line[..FGETS_MAX - 1];
    assert Seen(text) == head && |Piece(text, FGETS_MAX)| == n && FullLine(line[n..]) by {
      PieceLong(line, rest, FGETS_MAX);
      Heads(line, n);
    }
    assert !Ended(head) by {
      Heads(line, n);
    }
    assert text[n..] == line[n..] + rest;
    RewriteStep(text, i, e);
  }

  /** Any line is kept or replaced as a whole, if the replaced ones fit the buffer of fgets. */
  lemma {:induction false} RewriteLine(line: string, rest: string, i: nat, e: Edit, write: (string, nat) -> string)
    requires FullLine(line) && (Touched(e, i) ==> |line| < FGETS_MAX) && Writes(write, e)
    ensures write(line + rest, i) == Replacement(e, i, line) + write(rest, i + 1)
    decreases |line|
  {
    if |line| < FGETS_MAX {
      RewriteShort(line, rest, i, e);
    } else {
      var head, tail := line[..FGETS_MAX - 1], line[FGETS_MAX - 1..];
      assert FullLine(tail) && write(line + rest, i) == head + write(tail + rest, i) by {
        RewriteLong(line, rest, i, e);
      }
      RewriteLine(tail, rest, i, e, write);
      Rejoin(line, FGETS_MAX - 1, write(rest, i + 1));
    }
  }

  lemma Rejoin(line: string, n: nat, more: string)
    requires n <= |line|
    ensures line[..n] + (line[n..] + more) == line + more
  {
  }

  function EditedLines(lines: seq<string>, first: nat, e: Edit): seq<string> {
    seq(|lines|, k requires 0 <= k < |lines| => Replacement(e, first + k, lines[k]))
  }

  ghost predicate EditedFit(lines: seq<string>, first: nat, e: Edit) {
    forall k :: 0 <= k < |lines| && Touched(e, first + k) ==> |lines[k]| < FGETS_MAX
  }

  lemma EditedTail(lines: seq<string>, first: nat, e: Edit)
    requires lines != [] && EditedFit(lines, first, e)
    ensures Touched(e, first) ==> |lines[0]| < FGETS_MAX
    ensures EditedFit(lines[1..], first + 1, e)
    ensures EditedLines(lines, first, e) == [Replacement(e, first, lines[0])] + EditedLines(lines[1..], first + 1, e)
  {
    assert Touched(e, first + 0) ==> |lines[0]| < FGETS_MAX;
    forall k | 0 <= k < |lines[1..]| && Touched(e, first + 1 + k)
      ensures |lines[1..][k]| < FGETS_MAX
    {
      assert Touched(e, first + (k + 1));
    }
  }

  lemma RewriteFirst(lines: seq<string>, rest: string, first: nat, e: Edit, write: (string, nat) -> string)
    requires FullLines(lines) && lines != [] && (Touched(e, first) ==> |lines[0]| < FGETS_MAX) && Writes(write, e)
    ensures write(Concat(lines) + rest, first)
      == Replacement(e, first, lines[0]) + write(Concat(lines[1..]) + rest, first + 1)
  {
    FullLinesTail(lines);
    assert Concat(lines) + rest == lines[0] + (Concat(lines[1..]) + rest);
    RewriteLine(lines[0], Concat(lines[1..]) + rest, first, e, write);
  }

  lemma EditedConcat(lines: seq<string>, first: nat, e: Edit)
    requires lines != [] && EditedFit(lines, first, e)
    ensures Concat(EditedLines(lines, first, e))
      == Replacement(e, first, lines[0]) + Concat(EditedLines(lines[1..], first + 1, e))
  {
    EditedTail(lines, first, e);
    ConcatCons(Replacement(e, first, lines[0]), EditedLines(lines[1..], first + 1, e));
  }

  lemma {:induction false} RewriteLines(
    lines: seq<string>, rest: string, first: nat, e: Edit, write: (string, nat) -> string)
    requires FullLines(lines) && EditedFit(lines, first, e) && Writes(write, e)
    ensures write(Concat(lines) + rest, first)
      == Concat(EditedLines(lines, first, e)) + write(rest, first + |lines|)
    decreases |lines|
  {
    if lines == [] {
      assert Concat(lines) + rest == rest;
    } else {
      assert FullLines(lines[1..]) && EditedFit(lines[1..], first + 1, e) by {
        FullLinesTail(lines);
        EditedTail(lines, first, e);
      }
      RewriteLines(lines[1..], rest, first + 1, e, write);
      assert Touched(e, first) ==> |lines[0]| < FGETS_MAX by {
        EditedTail(lines, first, e);
      }
      RewriteFirst(lines, rest, first, e, write);
      EditedConcat(lines, first, e);
    }
  }

  /** In a file of which only lines among `lines` are replaced, exactly those change, if and
      only if the rest has no NUL: the program drops what stands between a NUL and the end of
      the string it has read. */
  lemma RewriteFile(lines: seq<string>, rest: string, e: Edit)
    requires FullLines(lines) && EditedFit(lines, 1, e) && e.line <= |lines| && e.listLine <= |lines|
    ensures Rewritten(Concat(lines) + rest, 1, e) == Concat(EditedLines(lines, 1, e)) + rest <==> NUL !in rest
  {
    var write := (text: string, i: nat) => Rewritten(text, i, e);
    RewriteLines(lines, rest, 1, e, write);
    RewriteTail(rest, 1 + |lines|, e);
    SamePrefix(Concat(EditedLines(lines, 1, e)), Rewritten(rest, 1 + |lines|, e), rest);
  }

  /** A last line without newline is never replaced, even if its number asks for it. */
  lemma RewriteUnended(lines: seq<string>, last: string, e: Edit)
    requires FullLines(lines) && EditedFit(lines, 1, e) && '\n' !in last
    ensures Rewritten(Concat(lines) + last, 1, e) == Concat(EditedLines(lines, 1, e)) + last <==> NUL !in last
  {
    var write := (text: string, i: nat) => Rewritten(text, i, e);
    RewriteLines(lines, last, 1, e, write);
    RewriteTail(last, 1 + |lines|, e);
    SamePrefix(Concat(EditedLines(lines, 1, e)), Rewritten(last, 1 + |lines|, e), last);
  }

  /** The bytes between a NUL and the end of the line are lost, the newline with them. */
  lemma NulIsLost()
    ensures Rewritten("x=1\0y\nz=2\n", 1, Edit(-1, "", -1, None)) != "x=1\0y\nz=2\n"
  {
    RewriteTail("x=1\0y\nz=2\n", 1, Edit(-1, "", -1, None));
    assert "x=1\0y\nz=2\n"[3] == NUL;
  }

  /** The setting stays as it is on a line that only the end of the file ends. */
  lemma UnendedStays(last: string)
    requires last == "autoboot=1"
    ensures Rewritten(last, 1, Edit(1, "autoboot=2\n", -1, None)) == last
  {
    RewriteTail(last, 1, Edit(1, "autoboot=2\n", -1, None));
  }

  lemma SamePrefix(a: string, b: string, c: string)
    ensures a + b == a + c <==> b == c
  {
    assert (a + b)[|a|..] == b && (a + c)[|a|..] == c;
  }

  lemma ConcatCons(line: string, lines: seq<string>)
    ensures Concat([line] + lines) == line + Concat(lines)
  {
    assert ([line] + lines)[1..] == lines;
  }

  /** Text in which no line is replaced is copied exactly if it has no NUL. */
  lemma {:induction false} RewriteTail(text: string, i: nat, e: Edit)
    requires (e.line < i && e.listLine < i) || '\n' !in text
    ensures |Rewritten(text, i, e)| <= |text|
    ensures Rewritten(text, i, e) == text <==> NUL !in text
    ensures NUL in text ==> |Rewritten(text, i, e)| < |text|
    decreases |text|
  {
    if text != "" {
      RewriteStep(text, i, e);
      var n := |Piece(text, FGETS_MAX)|;
      var line, rest := Seen(text), text[n..];
      assert text == text[..n] + rest && text[..n] == Piece(text, FGETS_MAX);
      SeenPrefix(text);
      RewriteTail(rest, if Ended(line) then i + 1 else i, e);
    }
  }

  lemma SeenPrefix(text: string)
    ensures var p := Piece(text, FGETS_MAX);
      Seen(text) <= p && (NUL in p ==> |Seen(text)| < |p|) && (Ended(Seen(text)) ==> '\n' in text)
  {
    SeenIs(text);
    if Ended(Seen(text)) {
      assert Piece(text, FGETS_MAX)[|Seen(text)| - 1] == text[|Seen(text)| - 1];
    }
  }

  // ---------------------------------------------------------------- what both call line n

  lemma PiecesFirst(line: string, rest: string, size: nat)
    requires FullLine(line) && |line| < size
    ensures Pieces(line + rest, size) == [line] + Pieces(rest, size)
  {
    PieceFull(line, rest, size);
    assert (line + rest)[|line|..] == rest;
  }

  /** Lines that fit are pieces. */
  lemma {:induction false} PiecesConcat(lines: seq<string>, rest: string, size: nat)
    requires FullLines(lines) && 1 < size && forall k :: 0 <= k < |lines| ==> |lines[k]| < size
    ensures Pieces(Concat(lines) + rest, size) == lines + Pieces(rest, size)
  {
    if lines == [] {
      assert Concat(lines) + rest == rest;
    } else {
      FullLinesTail(lines);
      PiecesConcat(lines[1..], rest, size);
      PiecesCons(lines, rest, size);
    }
  }

  lemma PiecesCons(lines: seq<string>, rest: string, size: nat)
    requires lines != [] && FullLine(lines[0]) && |lines[0]| < size
    requires Pieces(Concat(lines[1..]) + rest, size) == lines[1..] + Pieces(rest, size)
    ensures Pieces(Concat(lines) + rest, size) == lines + Pieces(rest, size)
  {
    PiecesFirst(lines[0], Concat(lines[1..]) + rest, size);
    assert Concat(lines) + rest == lines[0] + (Concat(lines[1..]) + rest);
    ConsAssoc(lines, Pieces(rest, size));
  }

  lemma ConsAssoc(a: seq<string>, b: seq<string>)
    requires a != []
    ensures [a[0]] + (a[1..] + b) == a + b
  {
  }

  /** A line is cut into more than one piece exactly when it does not fit. */
  lemma {:induction false} LinePieces(line: string, rest: string, size: nat)
    requires FullLine(line) && 1 < size
    ensures var n := |Pieces(line + rest, size)| - |Pieces(rest, size)|;
      if |line| < size then n == 1 else n > 1
    decreases |line|
  {
    var text := line + rest;
    if |line| < size {
      PieceFull(line, rest, size);
      assert text[|line|..] == rest;
    } else {
      PieceLong(line, rest, size);
      assert text[size - 1..] == line[size - 1..] + rest;
      LinePieces(line[size - 1..], rest, size);
    }
  }

  lemma {:induction false} LinesPieces(lines: seq<string>, size: nat)
    requires FullLines(lines) && 1 < size
    ensures |Pieces(Concat(lines), size)| >= |lines|
    ensures |Pieces(Concat(lines), size)| == |lines| <==> forall k :: 0 <= k < |lines| ==> |lines[k]| < size
  {
    if lines != [] {
      FullLinesTail(lines);
      LinePieces(lines[0], Concat(lines[1..]), size);
      LinesPieces(lines[1..], size);
      if forall k :: 0 <= k < |lines[1..]| ==> |lines[1..][k]| < size {
        forall k | 1 <= k < |lines|
          ensures |lines[k]| < size
        {
          assert |lines[1..][k - 1]| < size;
        }
      }
    }
  }

  /** The lines the editor counts: the strings from fgets that end in a newline. */
  function Counted(text: string): nat {
    if text == "" then 0
    else (if Ended(Seen(text)) then 1 else 0) + Counted(text[|Piece(text, FGETS_MAX)|..])
  }

  /** `count` is Counted, unfolded only where Counted is mentioned. */
  ghost predicate Counts(count: string -> nat) {
    forall text {:trigger Counted(text)} :: count(text) == Counted(text)
  }

  lemma CountStep(text: string, rest: string, count: string -> nat)
    requires text != "" && rest == text[|Piece(text, FGETS_MAX)|..] && Counts(count)
    ensures count(text) == (if Ended(Seen(text)) then 1 else 0) + count(rest)
  {
    assert count(text) == Counted(text) && count(rest) == Counted(rest);
  }

  lemma CountShort(line: string, rest: string, count: string -> nat)
    requires FullLine(line) && |line| < FGETS_MAX && Counts(count)
    ensures count(line + rest) == 1 + count(rest)
  {
    PieceFull(line, rest, FGETS_MAX);
    assert Seen(line + rest) == line && (line + rest)[|line|..] == rest;
    CountStep(line + rest, rest, count);
  }

  lemma CountLong(line: string, rest: string, count: string -> nat)
    requires FullLine(line) && FGETS_MAX <= |line| && Counts(count)
    ensures FullLine(line[FGETS_MAX - 1..])
    ensures count(line + rest) == count(line[FGETS_MAX - 1..] + rest)
  {
    var n := FGETS_MAX - 1;
    var text := line + rest;
    assert Seen(text) == line[..n] && |Piece(text, FGETS_MAX)| == n && FullLine(line[n..]) by {
      PieceLong(line, rest, FGETS_MAX);
      Heads(line, n);
    }
    assert !Ended(line[..n]) by {
      Heads(line, n);
    }
    assert text[n..] == line[n..] + rest;
    CountStep(text, line[n..] + rest, count);
  }

  /** However long a line is, the editor counts it once ... */
  lemma {:induction false} CountLine(line: string, rest: string, count: string -> nat)
    requires FullLine(line) && Counts(count)
    ensures count(line + rest) == 1 + count(rest)
    decreases |line|
  {
    if |line| < FGETS_MAX {
      CountShort(line, rest, count);
    } else {
      CountLong(line, rest, count);
      CountLine(line[FGETS_MAX - 1..], rest, count);
    }
  }

  lemma {:induction false} CountLines(lines: seq<string>, rest: string, count: string -> nat)
    requires FullLines(lines) && Counts(count)
    ensures count(Concat(lines) + rest) == |lines| + count(rest)
  {
    if lines == [] {
      assert Concat(lines) + rest == rest;
    } else {
      FullLinesTail(lines);
      CountLines(lines[1..], rest, count);
      CountLine(lines[0], Concat(lines[1..]) + rest, count);
      assert Concat(lines) + rest == lines[0] + (Concat(lines[1..]) + rest);
    }
  }

  lemma CountFull(lines: seq<string>)
    requires FullLines(lines)
    ensures Counted(Concat(lines)) == |lines|
  {
    var count := (text: string) => Counted(text);
    CountLines(lines, "", count);
    assert Concat(lines) + "" == Concat(lines);
    assert count(Concat(lines)) == Counted(Concat(lines)) && count("") == Counted("") == 0;
  }

  lemma Untouched(lines: seq<string>, e: Edit)
    requires forall k :: 1 <= k <= |lines| ==> !Touched(e, k)
    ensures EditedFit(lines, 1, e) && EditedLines(lines, 1, e) == lines
  {
    forall k | 0 <= k < |lines|
      ensures Replacement(e, 1 + k, lines[k]) == lines[k]
    {
      assert !Touched(e, 1 + k);
    }
  }

  lemma PrefixKept(lines: seq<string>, rest: string, e: Edit)
    requires FullLines(lines) && forall k :: 1 <= k <= |lines| ==> !Touched(e, k)
    ensures Rewritten(Concat(lines) + rest, 1, e) == Concat(lines) + Rewritten(rest, 1 + |lines|, e)
  {
    var write := (text: string, i: nat) => Rewritten(text, i, e);
    assert write(Concat(lines) + rest, 1) == Concat(lines) + write(rest, 1 + |lines|) by {
      Untouched(lines, e);
      RewriteLines(lines, rest, 1, e, write);
    }
  }

  /** ... and in the edit the line behind `lines` has the next number. */
  lemma EditorNumber(lines: seq<string>, rest: string, e: Edit)
    requires FullLines(lines) && forall k :: 1 <= k <= |lines| ==> !Touched(e, k)
    ensures Counted(Concat(lines)) == |lines|
    ensures Rewritten(Concat(lines) + rest, 1, e) == Concat(lines) + Rewritten(rest, 1 + |lines|, e)
  {
    CountFull(lines);
    PrefixKept(lines, rest, e);
  }

  /** The line behind `lines` has the same number for the parser and for the editor exactly
      when none of them is longer than the parser's buffer. */
  lemma SameNumbers(lines: seq<string>)
    requires FullLines(lines)
    ensures |Pieces(Concat(lines), INI_MAX_LINE)| == Counted(Concat(lines))
      <==> forall k :: 0 <= k < |lines| ==> |lines[k]| <= 1002
  {
    CountFull(lines);
    LinesPieces(lines, INI_MAX_LINE);
  }

  /** Behind one line of 1003 bytes the editor is on line 2, the parser further. */
  lemma LongLineCountsTwice()
    ensures var text := seq(1002, _ => 'x') + "\n";
      FullLine(text) && 1 + Counted(text) == 2 < 1 + |Pieces(text, INI_MAX_LINE)|
  {
    var line := seq(1002, _ => 'x') + "\n";
    assert line[..|line| - 1] == seq(1002, _ => 'x');
    CountFull([line]);
    LinesPieces([line], INI_MAX_LINE);
    assert [line][1..] == [] && Concat([line]) == line + "";
    assert Concat([line]) == line;
  }

  lemma {:induction false} CStringsConcat(a: seq<string>, b: seq<string>)
    ensures CStrings(a + b) == CStrings(a) + CStrings(b)
  {
    if a == [] {
      assert a + b == b;
    } else {
      assert (a + b)[1..] == a[1..] + b;
      CStringsConcat(a[1..], b);
    }
  }

  /** The parser runs over the lines and then over the pieces of the rest. */
  lemma ParseParts(lines: seq<string>, rest: string, handler: Handler)
    requires FullLines(lines) && forall k :: 0 <= k < |lines| ==> |lines[k]| < INI_MAX_LINE
    ensures ParseText(Concat(lines) + rest, handler)
      == Run(lines + CStrings(Pieces(rest, INI_MAX_LINE)), INITIAL, 1, Stepper(handler))
  {
    PiecesConcat(lines, rest, INI_MAX_LINE);
    CStringsConcat(lines, Pieces(rest, INI_MAX_LINE));
    forall k | 0 <= k < |lines|
      ensures NUL !in lines[k]
    {
      assert FullLine(lines[k]);
    }
    CStringsPlain(lines);
  }
}
