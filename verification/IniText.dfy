/** What source/ini.c makes of a text, line by line, as functions on strings. The switches
    of includes/ini.h are at their defaults; characters are bytes and '\0' is NUL. */
module IniText {
  import opened Options

  const NUL: char := '\0'
  const MAX_SECTION: nat := 50
  const MAX_NAME: nat := 50
  const INI_MAX_LINE: nat := 1003
  const BOM: string := "\U{EF}\U{BB}\U{BF}"

  // ---------------------------------------------------------------- trimming and searching

  predicate IsSpace(c: char) {
    c == ' ' || c == '\t' || c == '\n' || c == '\U{0B}' || c == '\U{0C}' || c == '\r'
  }

  /** Without trailing white space. */
  function RStrip(s: string): (r: string)
    ensures |r| <= |s|
  {
    if s != [] && IsSpace(s[|s| - 1]) then RStrip(s[..|s| - 1]) else s
  }

  /** Without leading white space. */
  function LSkip(s: string): (r: string)
    ensures |r| <= |s|
  {
    if s != [] && IsSpace(s[0]) then LSkip(s[1..]) else s
  }

  /** The stripped string is the longest prefix that does not end in white space. */
  lemma {:induction false} RStripIs(s: string, k: nat)
    requires k <= |s| && (k > 0 ==> !IsSpace(s[k - 1])) && forall i :: k <= i < |s| ==> IsSpace(s[i])
    ensures RStrip(s) == s[..k]
  {
    if k < |s| {
      RStripIs(s[..|s| - 1], k);
      assert s[..|s| - 1][..k] == s[..k];
    } else {
      assert s[..k] == s;
    }
  }

  /** ... and the skipped one the longest suffix that does not start with it. */
  lemma {:induction false} LSkipIs(s: string, k: nat)
    requires k <= |s| && (k < |s| ==> !IsSpace(s[k])) && forall i :: 0 <= i < k ==> IsSpace(s[i])
    ensures LSkip(s) == s[k..]
  {
    if k > 0 {
      LSkipIs(s[1..], k - 1);
      assert s[1..][k - 1..] == s[k..];
    }
  }

  /** Position i of s ends a search: one of `chars`, or a ';' behind white space. */
  predicate Stops(s: string, chars: string, i: nat)
    requires i < |s|
  {
    s[i] in chars || (s[i] == ';' && i > 0 && IsSpace(s[i - 1]))
  }

  /** The first such position at or behind i, or the end. */
  function FindFrom(s: string, chars: string, i: nat): (e: nat)
    requires i <= |s|
    ensures i <= e <= |s|
    ensures forall j :: i <= j < e ==> !Stops(s, chars, j)
    ensures e < |s| ==> Stops(s, chars, e)
    decreases |s| - i
  {
    if i == |s| || Stops(s, chars, i) then i else FindFrom(s, chars, i + 1)
  }

  function Find(s: string, chars: string): (e: nat)
    ensures e <= |s|
  {
    FindFrom(s, chars, 0)
  }

  /** The search is determined by where it may stop. */
  lemma {:induction false} FindIs(s: string, chars: string, i: nat, e: nat)
    requires i <= e <= |s|
    requires forall j :: i <= j < e ==> !Stops(s, chars, j)
    requires e < |s| ==> Stops(s, chars, e)
    ensures FindFrom(s, chars, i) == e
    decreases e - i
  {
    if i < e {
      FindIs(s, chars, i + 1, e);
    }
  }

  /** What strncpy0 keeps in a buffer of `size` bytes. */
  function Cut(s: string, size: nat): string
    requires 0 < size
  {
    if |s| < size then s else s[..size - 1]
  }

  // ---------------------------------------------------------------- one line

  datatype Item =
    | Nothing
    | Section(title: string)
    | Unclosed
    | Pair(name: string, value: string)
    | Bare(name: string)
    | More(value: string)

  /** Where the text of a line starts: behind a byte order mark on line 1. */
  function Start(line: string, lineno: nat): (k: nat)
    ensures k <= |line|
  {
    if lineno == 1 && BOM <= line then 3 else 0
  }

  /** How a line is understood when the last name read was prevName. */
  function Classify(line: string, prevName: string, lineno: nat): Item {
    var k := Start(line, lineno);
    var t := RStrip(line[k..]);
    Understand(LSkip(t), k + (|t| - |LSkip(t)|) > 0, prevName)
  }

  /** ... given its trimmed text and whether anything stood before it. */
  function Understand(s: string, indented: bool, prevName: string): Item {
    if s == "" || s[0] == ';' || s[0] == '#' then Nothing
    else if prevName != "" && indented then More(s)
    else if s[0] == '[' then Title(s[1..])
    else Entry(s)
  }

  /** The text behind an opening bracket. */
  function Title(s: string): Item {
    var e := Find(s, "]");
    if e < |s| && s[e] == ']' then Section(s[..e]) else Unclosed
  }

  /** A name and a value, or a name alone. */
  function Entry(s: string): Item {
    var e := Find(s, "=:");
    if e < |s| && (s[e] == '=' || s[e] == ':')
    then Pair(RStrip(s[..e]), Value(s[e + 1..]))
    else Bare(RStrip(s[..e]))
  }

  /** The value behind the delimiter: up to an inline comment, trimmed. */
  function Value(s: string): string {
    RStrip(LSkip(s[..Find(s, "")]))
  }

  // ---------------------------------------------------------------- the whole text

  datatype Call = Call(section: string, name: string, value: Option<string>, lineno: nat)

  /** The answer of a handler to the last of the calls made so far. */
  type Handler = seq<Call> -> bool

  datatype State = State(section: string, prevName: string, error: nat, calls: seq<Call>)

  function Report(st: State, call: Call, handler: Handler): State {
    var calls := st.calls + [call];
    st.(calls := calls, error := if !handler(calls) && st.error == 0 then call.lineno else st.error)
  }

  function Apply(item: Item, st: State, lineno: nat, handler: Handler): State {
    match item
    case Nothing => st
    case Section(title) => st.(section := Cut(title, MAX_SECTION), prevName := "")
    case Unclosed => if st.error == 0 then st.(error := lineno) else st
    case Pair(name, value) =>
      Report(st.(prevName := Cut(name, MAX_NAME)), Call(st.section, name, Some(value), lineno), handler)
    case Bare(name) =>
      if st.error == 0 then Report(st, Call(st.section, name, None, lineno), handler) else st
    case More(value) => Report(st, Call(st.section, st.prevName, Some(value), lineno), handler)
  }

  function Step(line: string, st: State, lineno: nat, handler: Handler): State {
    Apply(Classify(line, st.prevName, lineno), st, lineno, handler)
  }

  /** The effect of one line on the state: the line, the state before, the line number. */
  type Effect = (string, State, nat) -> State

  function Stepper(handler: Handler): Effect {
    (line: string, st: State, lineno: nat) => Step(line, st, lineno, handler)
  }

  /** The state after the lines, the first of which has number `first`. */
  function Run(lines: seq<string>, st: State, first: nat, effect: Effect): State {
    if lines == [] then st else Run(lines[1..], effect(lines[0], st, first), first + 1, effect)
  }

  const INITIAL := State("", "", 0, [])

  lemma {:induction false} RunConcat(a: seq<string>, b: seq<string>, st: State, first: nat, effect: Effect)
    ensures Run(a + b, st, first, effect) == Run(b, Run(a, st, first, effect), first + |a|, effect)
  {
    if a == [] {
      assert a + b == b;
    } else {
      assert (a + b)[1..] == a[1..] + b;
      RunConcat(a[1..], b, effect(a[0], st, first), first + 1, effect);
    }
  }

  // ---------------------------------------------------------------- cutting a text into lines

  /** The piece one call of fgets with a buffer of `size` bytes reads. */
  function Piece(text: string, size: nat): (p: string)
    ensures |p| <= |text| && |p| + 1 <= size + if size == 0 then 1 else 0
    ensures p == text[..|p|]
    ensures text != [] && 1 < size ==> p != []
  {
    if text == [] || size < 2 then []
    else if text[0] == '\n' then [text[0]]
    else [text[0]] + Piece(text[1..], size - 1)
  }

  /** All pieces of a text. */
  function Pieces(text: string, size: nat): seq<string>
    requires 1 < size
  {
    if text == [] then [] else [Piece(text, size)] + Pieces(text[|Piece(text, size)|..], size)
  }

  /** A piece ends at the first newline or fills the buffer. */
  lemma {:induction false} PieceEnds(text: string, size: nat)
    requires 1 < size && text != []
    ensures var p := Piece(text, size);
      && (forall i :: 0 <= i < |p| - 1 ==> p[i] != '\n')
      && (p[|p| - 1] != '\n' ==> |p| == size - 1 || |p| == |text|)
  {
    if text[0] != '\n' && size > 2 && |text| > 1 {
      PieceEnds(text[1..], size - 1);
    }
  }

  /** The part of a string that C sees: up to the first NUL. */
  function CString(s: string): (r: string)
    ensures r <= s && NUL !in r
    ensures |r| < |s| ==> s[|r|] == NUL
  {
    if s == [] || s[0] == NUL then [] else [s[0]] + CString(s[1..])
  }

  function CStrings(pieces: seq<string>): seq<string> {
    if pieces == [] then [] else [CString(pieces[0])] + CStrings(pieces[1..])
  }

  /** ini_parse_stream on a text. */
  function ParseText(text: string, handler: Handler): State {
    Run(CStrings(Pieces(text, INI_MAX_LINE)), INITIAL, 1, Stepper(handler))
  }
}
