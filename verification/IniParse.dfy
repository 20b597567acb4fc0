/** The parser of source/ini.c itself: it cuts the line buffer in place with NULs. */
module IniParse {
  import opened Options
  import opened IniText

  /** The C string s lies at position p of a. */
  ghost predicate StrAt(a: seq<char>, p: nat, s: string) {
    && p + |s| < |a| && a[p..p + |s|] == s && a[p + |s|] == NUL && NUL !in s
  }

  lemma StrTail(a: seq<char>, p: nat, s: string, k: nat)
    requires StrAt(a, p, s) && k <= |s|
    ensures StrAt(a, p + k, s[k..])
  {
    assert a[p + k..p + |s|] == s[k..];
  }

  lemma StrHead(a: seq<char>, p: nat, s: string, k: nat)
    requires StrAt(a, p, s) && k <= |s|
    ensures StrAt(a[p + k := NUL], p, s[..k])
  {
    assert a[p + k := NUL][p..p + k] == s[..k];
  }

  lemma StrChar(a: seq<char>, p: nat, s: string, k: nat)
    requires StrAt(a, p, s) && k <= |s|
    ensures a[p + k] == (if k < |s| then s[k] else NUL) && (a[p + k] == NUL <==> k == |s|)
  {
    if k < |s| {
      assert a[p..p + |s|][k] == s[k];
    }
  }

  /** strlen. */
  method StrLen(a: array<char>, p: nat, ghost s: string) returns (n: nat)
    requires StrAt(a[..], p, s)
    ensures n == |s|
  {
    n := 0;
    while a[p + n] != NUL
      invariant n <= |s|
      decreases |s| - n
      invariant p + n < a.Length && (a[p + n] == NUL <==> n == |s|)
    {
      StrChar(a[..], p, s, n + 1);
      n := n + 1;
    }
  }

  /** The characters of the string at p, as a handler reads them. */
  method ReadStr(a: array<char>, p: nat, ghost s: string) returns (r: string)
    requires StrAt(a[..], p, s)
    ensures r == s
  {
    var n := StrLen(a, p, s);
    r := a[p..p + n];
  }

  /** a and b agree outside the positions from lo to hi. */
  ghost predicate SameBut(a: seq<char>, b: seq<char>, lo: nat, hi: nat) {
    |a| == |b| && forall i :: 0 <= i < |a| && !(lo <= i < hi) ==> a[i] == b[i]
  }

  lemma StrKept(a: seq<char>, b: seq<char>, lo: nat, hi: nat, p: nat, s: string)
    requires SameBut(a, b, lo, hi) && StrAt(a, p, s) && (hi <= p || p + |s| < lo)
    ensures StrAt(b, p, s)
  {
    assert b[p..p + |s|] == a[p..p + |s|];
  }

  /** rstrip. */
  method RStripAt(a: array<char>, p: nat, ghost s: string)
    requires StrAt(a[..], p, s)
    modifies a
    ensures StrAt(a[..], p, RStrip(s)) && SameBut(old(a[..]), a[..], p, p + |s|)
  {
    var n := StrLen(a, p, s);
    assert s[..n] == s;
    while n > 0 && IsSpace(a[p + n - 1])
      invariant n <= |s| && StrAt(a[..], p, s[..n]) && RStrip(s[..n]) == RStrip(s)
      invariant SameBut(old(a[..]), a[..], p, p + |s|)
    {
      StrChar(a[..], p, s[..n], n - 1);
      StrHead(a[..], p, s[..n], n - 1);
      assert s[..n][..n - 1] == s[..n - 1];
      ghost var b := a[..];
      n := n - 1;
      a[p + n] := NUL;
      assert a[..] == b[p + n := NUL];
    }
    if n > 0 {
      StrChar(a[..], p, s[..n], n - 1);
    }
  }

  /** lskip. */
  method LSkipAt(a: array<char>, p: nat, ghost s: string) returns (q: nat)
    requires StrAt(a[..], p, s)
    ensures q == p + |s| - |LSkip(s)| && StrAt(a[..], q, LSkip(s))
  {
    q := p;
    ghost var t := s;
    StrChar(a[..], q, t, 0);
    while a[q] != NUL && IsSpace(a[q])
      invariant StrAt(a[..], q, t) && LSkip(t) == LSkip(s) && q + |t| == p + |s|
      invariant q < a.Length && a[q] == (if t != [] then t[0] else NUL) && (a[q] == NUL <==> t == [])
      decreases |t|
    {
      StrTail(a[..], q, t, 1);
      t := t[1..];
      q := q + 1;
      StrChar(a[..], q, t, 0);
    }
    assert LSkip(t) == t;
  }

  /** find_chars_or_comment; no characters stands for the NULL pointer. */
  method FindAt(a: array<char>, p: nat, chars: string, ghost s: string) returns (e: nat)
    requires StrAt(a[..], p, s)
    ensures e == p + Find(s, chars) && a[e] == if e < p + |s| then s[e - p] else NUL
  {
    e := p;
    var wasSpace := false;
    StrChar(a[..], p, s, 0);
    while a[e] != NUL && a[e] !in chars && !(wasSpace && a[e] == ';')
      invariant p <= e <= p + |s| && FindFrom(s, chars, e - p) == Find(s, chars)
      invariant e < a.Length && a[e] == (if e < p + |s| then s[e - p] else NUL) && (a[e] == NUL <==> e == p + |s|)
      invariant wasSpace == (e > p && IsSpace(s[e - p - 1]))
      decreases p + |s| - e
    {
      wasSpace := IsSpace(a[e]);
      e := e + 1;
      StrChar(a[..], p, s, e - p);
    }
  }

  /** strncpy0 into a whole buffer. */
  method StrNCpy0(dest: array<char>, a: array<char>, p: nat, ghost s: string)
    requires StrAt(a[..], p, s) && 0 < dest.Length && dest != a
    modifies dest
    ensures StrAt(dest[..], 0, Cut(s, dest.Length))
  {
    var i := 0;
    StrChar(a[..], p, s, 0);
    while i < dest.Length - 1 && a[p + i] != NUL
      invariant 0 <= i <= |s| && i < dest.Length && dest[..i] == s[..i]
      invariant p + i < a.Length && (a[p + i] == NUL <==> i == |s|)
      invariant i < |s| ==> a[p + i] == s[i]
      decreases |s| - i
    {
      dest[i] := a[p + i];
      i := i + 1;
      StrChar(a[..], p, s, i);
    }
    dest[i] := NUL;
    assert dest[..i] == Cut(s, dest.Length);
    assert dest[..][0..i] == dest[..i];
  }

  /** A piece ends where nothing before ends it and something ends it there. */
  lemma {:induction false} PieceIs(text: string, size: nat, n: nat)
    requires 1 < size && n <= |text| && n < size && forall i :: 0 <= i < n - 1 ==> text[i] != '\n'
    requires n == |text| || n == size - 1 || (n > 0 && text[n - 1] == '\n')
    ensures Piece(text, size) == text[..n]
    decreases n
  {
    if n > 1 {
      PieceIs(text[1..], size - 1, n - 1);
      assert text[..n] == [text[0]] + text[1..][..n - 1];
    } else if n == 1 && text[0] != '\n' {
      assert Piece(text[1..], size - 1) == [];
    }
  }

  /** A text being read: ini_parse_string_ctx, or an open file. */
  class Stream {
    const text: string
    var pos: nat

    ghost predicate Valid()
      reads this
    {
      pos <= |text|
    }

    ghost function Left(): string
      requires Valid()
      reads this
    {
      text[pos..]
    }

    constructor (text: string)
      ensures Valid() && pos == 0 && this.text == text && Left() == text
    {
      this.text := text;
      pos := 0;
    }

    /** ini_reader_string, and fgets on a file. */
    method Read(buf: array<char>, size: nat) returns (ok: bool)
      requires Valid() && size <= buf.Length
      modifies this`pos, buf
      ensures Valid()
      ensures ok == (old(Left()) != [] && 2 <= size)
      ensures !ok ==> pos == old(pos) && buf[..] == old(buf[..])
      ensures ok ==> var p := Piece(old(Left()), size);
        StrAt(buf[..], 0, CString(p)) && Left() == old(Left())[|p|..]
    {
      if pos == |text| || size < 2 {
        return false;
      }
      var n := Fill(buf, size);
      buf[n] := NUL;
      PieceAt(buf[..], Piece(old(Left()), size));
      return true;
    }

    /** The copying loop of the reader. */
    method Fill(buf: array<char>, size: nat) returns (n: nat)
      requires Valid() && 2 <= size <= buf.Length
      modifies this`pos, buf
      ensures Valid() && n < size && buf[..n] == Piece(old(Left()), size) && Left() == old(Left())[n..]
    {
      n := Copy(buf, size);
      PieceIs(old(Left()), size, n);
      assert text[old(pos)..][n..] == text[pos..];
    }

    method Copy(buf: array<char>, size: nat) returns (n: nat)
      requires Valid() && 2 <= size <= buf.Length
      modifies this`pos, buf
      ensures Valid() && pos == old(pos) + n && n < size
      ensures buf[..n] == old(Left())[..n]
      ensures forall i :: 0 <= i < n - 1 ==> old(Left())[i] != '\n'
      ensures pos == |text| || n == size - 1 || (n > 0 && old(Left())[n - 1] == '\n')
    {
      var num := size;
      n := 0;
      while num > 1 && pos < |text|
        invariant 0 < num == size - n && pos == old(pos) + n && pos <= |text|
        invariant forall i :: 0 <= i < n ==> buf[i] == text[old(pos) + i] && buf[i] != '\n'
      {
        var c := text[pos];
        pos := pos + 1;
        buf[n] := c;
        n := n + 1;
        if c == '\n' {
          break;
        }
        num := num - 1;
      }
    }
  }

  /** The local variables of ini_parse_stream. */
  class Scan {
    const line: array<char>
    const section: array<char>
    const prevName: array<char>
    const handler: Handler
    var lineno: nat
    var error: nat
    var calls: seq<Call>

    ghost predicate Valid()
    {
      && line.Length == INI_MAX_LINE && section.Length == MAX_SECTION && prevName.Length == MAX_NAME
      && line != section && line != prevName && section != prevName
    }

    /** The variables hold the state st. */
    ghost predicate Holds(st: State)
      reads this, section, prevName
    {
      && StrAt(section[..], 0, st.section) && StrAt(prevName[..], 0, st.prevName)
      && error == st.error && calls == st.calls
    }

    constructor (handler: Handler)
      ensures Valid() && Holds(INITIAL) && lineno == 0 && this.handler == handler
      ensures fresh(line) && fresh(section) && fresh(prevName)
    {
      line := new char[INI_MAX_LINE](_ => NUL);
      section := new char[MAX_SECTION](_ => NUL);
      prevName := new char[MAX_NAME](_ => NUL);
      this.handler := handler;
      lineno := 0;
      error := 0;
      calls := [];
    }

    /** HANDLER, and the note of the first line whose call is refused. */
    method Report(name: string, value: Option<string>, ghost st: State)
      requires Valid() && Holds(st)
      modifies `error, `calls
      ensures Holds(IniText.Report(st, Call(st.section, name, value, lineno), handler))
    {
      var s := ReadStr(section, 0, st.section);
      calls := calls + [Call(s, name, value, lineno)];
      if !handler(calls) && error == 0 {
        error := lineno;
      }
    }

    /** A "[section]" line: the text behind the bracket is at p. */
    method OpenSection(p: nat, ghost s: string, ghost st: State)
      requires Valid() && Holds(st) && StrAt(line[..], p, s)
      modifies line, section, prevName, `error
      ensures Holds(Apply(Title(s), st, lineno, handler))
    {
      var end := FindAt(line, p, "]", s);
      if line[end] == ']' {
        StrHead(line[..], p, s, end - p);
        ghost var b := line[..];
        line[end] := NUL;
        assert line[..] == b[end := NUL];
        StrNCpy0(section, line, p, s[..end - p]);
        prevName[0] := NUL;
        assert StrAt(prevName[..], 0, "");
      } else if error == 0 {
        error := lineno;
      }
    }

    /** *end = '\0'. */
    method CutAt(p: nat, k: nat, ghost s: string)
      requires StrAt(line[..], p, s) && k <= |s|
      modifies line
      ensures StrAt(line[..], p, s[..k]) && SameBut(old(line[..]), line[..], p, p + k + 1)
    {
      StrHead(line[..], p, s, k);
      ghost var b := line[..];
      line[p + k] := NUL;
      assert line[..] == b[p + k := NUL];
    }

    /** The value behind the delimiter, cut at an inline comment and trimmed. */
    method TrimValue(p: nat, ghost s: string) returns (value: nat)
      requires StrAt(line[..], p, s)
      modifies line
      ensures StrAt(line[..], value, Value(s)) && SameBut(old(line[..]), line[..], p, p + |s| + 1)
    {
      var end := FindAt(line, p, "", s);
      StrChar(line[..], p, s, end - p);
      assert s[..|s|] == s;
      if line[end] != NUL {
        CutAt(p, end - p, s);
      }
      ghost var t := s[..end - p];
      value := LSkipAt(line, p, t);
      RStripAt(line, value, LSkip(t));
    }

    /** The name in front of position e is cut off and trimmed; what is behind e is kept. */
    method TrimName(p: nat, e: nat, ghost s: string)
      requires StrAt(line[..], p, s) && e < |s|
      modifies line
      ensures StrAt(line[..], p, RStrip(s[..e])) && StrAt(line[..], p + e + 1, s[e + 1..])
    {
      StrTail(line[..], p, s, e + 1);
      ghost var b := line[..];
      CutAt(p, e, s);
      StrKept(b, line[..], p, p + e + 1, p + e + 1, s[e + 1..]);
      b := line[..];
      RStripAt(line, p, s[..e]);
      StrKept(b, line[..], p, p + |s[..e]|, p + e + 1, s[e + 1..]);
    }

    /** Name and value on both sides of position e. */
    method TrimPair(p: nat, e: nat, ghost s: string) returns (value: nat)
      requires StrAt(line[..], p, s) && e < |s|
      modifies line
      ensures StrAt(line[..], p, RStrip(s[..e])) && StrAt(line[..], value, IniText.Value(s[e + 1..]))
    {
      TrimName(p, e, s);
      ghost var b := line[..];
      value := TrimValue(p + e + 1, s[e + 1..]);
      StrKept(b, line[..], p + e + 1, p + e + 1 + |s[e + 1..]| + 1, p, RStrip(s[..e]));
    }

    /** A name=value or name:value line, or a name alone. */
    method NameValue(p: nat, ghost s: string, ghost st: State)
      requires Valid() && Holds(st) && StrAt(line[..], p, s)
      modifies line, prevName, `error, `calls
      ensures Holds(Apply(Entry(s), st, lineno, handler))
    {
      var end := FindAt(line, p, "=:", s);
      ghost var e := end - p;
      StrChar(line[..], p, s, e);
      assert Entry(s) == if line[end] == '=' || line[end] == ':'
        then Pair(RStrip(s[..e]), IniText.Value(s[e + 1..])) else Bare(RStrip(s[..e]));
      if line[end] == '=' || line[end] == ':' {
        var value := TrimPair(p, end - p, s);
        Keep(p, value, RStrip(s[..e]), IniText.Value(s[e + 1..]), st);
      } else if error == 0 {
        CutAt(p, end - p, s);
        RStripAt(line, p, s[..e]);
        var n := ReadStr(line, p, RStrip(s[..e]));
        Report(n, None, st);
      }
    }

    /** A pair is remembered and reported. */
    method Keep(name: nat, value: nat, ghost n: string, ghost v: string, ghost st: State)
      requires Valid() && Holds(st) && StrAt(line[..], name, n) && StrAt(line[..], value, v)
      modifies prevName, `error, `calls
      ensures Holds(Apply(Pair(n, v), st, lineno, handler))
    {
      StrNCpy0(prevName, line, name, n);
      var nameText := ReadStr(line, name, n);
      var valueText := ReadStr(line, value, v);
      Report(nameText, Some(valueText), st.(prevName := Cut(n, MAX_NAME)));
    }

    /** One line of the text. */
    method Line(ghost raw: string, ghost st: State)
      requires Valid() && Holds(st) && StrAt(line[..], 0, raw)
      modifies line, section, prevName, `error, `calls
      ensures Holds(Step(raw, st, lineno, handler))
    {
      var start, indented := Trim(raw);
      Dispatch(start, indented, LSkip(RStrip(raw[Start(raw, lineno)..])), st);
    }

    /** What kind of line it is, by its trimmed text. */
    method Dispatch(start: nat, indented: bool, ghost s: string, ghost st: State)
      requires Valid() && Holds(st) && StrAt(line[..], start, s)
      modifies line, section, prevName, `error, `calls
      ensures Holds(Apply(Understand(s, indented, st.prevName), st, lineno, handler))
    {
      StrChar(line[..], start, s, 0);
      StrChar(prevName[..], 0, st.prevName, 0);
      if line[start] == ';' || line[start] == '#' || line[start] == NUL {
      } else if prevName[0] != NUL && line[start] != NUL && indented {
        Continue(start, s, st);
      } else if line[start] == '[' {
        StrTail(line[..], start, s, 1);
        OpenSection(start + 1, s[1..], st);
      } else {
        NameValue(start, s, st);
      }
    }

    /** More of the value of the previous name. */
    method Continue(start: nat, ghost s: string, ghost st: State)
      requires Valid() && Holds(st) && StrAt(line[..], start, s)
      modifies `error, `calls
      ensures Holds(Apply(More(s), st, lineno, handler))
    {
      var n := ReadStr(prevName, 0, st.prevName);
      var v := ReadStr(line, start, s);
      Report(n, Some(v), st);
    }

    /** start = lskip(rstrip(start)), behind a byte order mark on line 1. */
    method Trim(ghost raw: string) returns (start: nat, indented: bool)
      requires Valid() && StrAt(line[..], 0, raw)
      modifies line
      ensures var k := Start(raw, lineno); var t := RStrip(raw[k..]); var s := LSkip(t);
        StrAt(line[..], start, s) && indented == (k + (|t| - |s|) > 0)
    {
      start := 0;
      StrBom(line[..], raw);
      if lineno == 1 && line[0] == BOM[0] && line[1] == BOM[1] && line[2] == BOM[2] {
        start := 3;
      }
      ghost var k := start;
      StrTail(line[..], 0, raw, k);
      RStripAt(line, start, raw[k..]);
      start := LSkipAt(line, start, RStrip(raw[k..]));
      indented := start > 0;
    }

    /** ini_parse_stream. */
    method Parse(stream: Stream) returns (result: nat)
      requires Valid() && Holds(INITIAL) && lineno == 0 && stream.Valid() && stream.pos == 0
      modifies this, line, section, prevName, stream`pos
      ensures Holds(ParseText(stream.text, handler)) && result == ParseText(stream.text, handler).error
    {
      ghost var st, todo := INITIAL, Todo(handler);
      assert stream.Left() == stream.text;
      ghost var goal := todo(stream.text, INITIAL, 1);
      assert goal == Rest(stream.text, INITIAL, 1, handler) == ParseText(stream.text, handler);
      assert Continues(todo);
      var more := true;
      while more
        invariant Holds(st) && stream.Valid() && todo(stream.Left(), st, lineno + 1) == goal
        invariant !more ==> stream.Left() == []
        decreases |stream.Left()|, more
      {
        more, st := Next(stream, st, todo);
      }
      assert todo(stream.Left(), st, lineno + 1) == Rest([], st, lineno + 1, handler) == st;
      return error;
    }

    /** todo(text, st, lineno) is the final state from st with `text` unread. Stated so that it
        is unfolded only where Rest is mentioned. */
    ghost predicate Continues(todo: Effect) {
      forall text, st, n: nat {:trigger Rest(text, st, n, handler)} :: todo(text, st, n) == Rest(text, st, n, handler)
    }

    /** One round of the loop over the lines. */
    method Next(stream: Stream, ghost st: State, ghost todo: Effect) returns (more: bool, ghost next: State)
      requires Valid() && Holds(st) && stream.Valid() && Continues(todo)
      modifies this, line, section, prevName, stream`pos
      ensures Holds(next) && stream.Valid()
      ensures todo(stream.Left(), next, lineno + 1) == todo(old(stream.Left()), st, old(lineno) + 1)
      ensures if more then |stream.Left()| < |old(stream.Left())| else stream.Left() == old(stream.Left()) == []
    {
      ghost var left := stream.Left();
      next := st;
      more := stream.Read(line, INI_MAX_LINE);
      if more {
        lineno := lineno + 1;
        next := FirstLine(left, st, todo);
      }
    }

    /** The line in the buffer is the first of those still to come. */
    method FirstLine(ghost text: string, ghost st: State, ghost todo: Effect) returns (ghost next: State)
      requires Valid() && Holds(st) && text != [] && StrAt(line[..], 0, CString(Piece(text, INI_MAX_LINE)))
      requires Continues(todo)
      modifies line, section, prevName, `error, `calls
      ensures Holds(next)
      ensures todo(text, st, lineno) == todo(text[|Piece(text, INI_MAX_LINE)|..], next, lineno + 1)
    {
      RestStep(text, st, lineno, handler);
      Line(CString(Piece(text, INI_MAX_LINE)), st);
      next := Step(CString(Piece(text, INI_MAX_LINE)), st, lineno, handler);
    }
  }

  ghost function Todo(handler: Handler): Effect {
    (text: string, st: State, lineno: nat) => Rest(text, st, lineno, handler)
  }

  /** What is still to come of a parse. */
  ghost function Rest(text: string, st: State, lineno: nat, handler: Handler): State {
    Run(CStrings(Pieces(text, INI_MAX_LINE)), st, lineno, Stepper(handler))
  }

  lemma RestStep(text: string, st: State, lineno: nat, handler: Handler)
    requires text != []
    ensures var p := Piece(text, INI_MAX_LINE);
      Rest(text, st, lineno, handler) == Rest(text[|p|..], Step(CString(p), st, lineno, handler), lineno + 1, handler)
  {
    var p := Piece(text, INI_MAX_LINE);
    assert CStrings(Pieces(text, INI_MAX_LINE)) == [CString(p)] + CStrings(Pieces(text[|p|..], INI_MAX_LINE)) by {
      assert Pieces(text, INI_MAX_LINE)[1..] == Pieces(text[|p|..], INI_MAX_LINE);
    }
  }

  lemma {:induction false} PieceAt(a: seq<char>, p: string)
    requires |p| < |a| && a[..|p|] == p && a[|p|] == NUL
    ensures StrAt(a, 0, CString(p))
  {
    var s := CString(p);
    assert a[0..|s|] == p[..|s|];
    if |s| < |p| {
      assert a[|s|] == a[..|p|][|s|];
    }
  }

  lemma StrBom(a: seq<char>, s: string)
    requires StrAt(a, 0, s) && 3 < |a|
    ensures BOM <= s <==> a[0] == BOM[0] && a[1] == BOM[1] && a[2] == BOM[2]
  {
    assert a[0..|s|] == s;
  }
}
