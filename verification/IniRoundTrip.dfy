/** Printing sections, fields and the other kinds of lines, and parsing them again
    (source/ini.c). */
module IniRoundTrip {
  import opened Options
  import opened IniText
  import opened IniLines

  /** One line of a text. */
  datatype Entry =
    | Head(title: string)                                   // [title]
    | Titled(indent: string, title: string, rest: string)   // ... with anything around it
    | Field(name: string, value: string)                    // name=value
    | Laid(indent: string, name: string, before: string, delimiter: char, after: string, value: string,
           space: string, note: string)                     // ... with white space and a comment
    | More(indent: string, text: string)                    // a continuation line
    | Remark(indent: string, mark: char, text: string)      // a comment
    | Blank(indent: string)
    | Bare(name: string, space: string, note: string)       // a name alone
    | Unclosed(text: string)                                // [text

  /** The line without its newline. */
  function Body(e: Entry): string {
    match e
    case Head(title) => "[" + title + "]"
    case Titled(indent, title, rest) => indent + ("[" + title + "]" + rest)
    case Field(name, value) => name + "=" + value
    case Laid(indent, name, before, delimiter, after, value, space, note) =>
      indent + (name + before + [delimiter] + after + value) + (space + note)
    case More(indent, text) => indent + text
    case Remark(indent, mark, text) => indent + ([mark] + text)
    case Blank(indent) => indent
    case Bare(name, space, note) => name + (space + note)
    case Unclosed(text) => "[" + text
  }

  function Print(e: Entry): string {
    Body(e) + "\n"
  }

  function PrintAll(es: seq<Entry>): seq<string> {
    seq(|es|, i requires 0 <= i < |es| => Print(es[i]))
  }

  // ---------------------------------------------------------------- what may be printed

  /** White space inside a line. */
  predicate White(c: char) {
    c == ' ' || c == '\t' || c == '\U{0B}' || c == '\U{0C}' || c == '\r'
  }

  lemma SpaceIs(c: char)
    ensures IsSpace(c) <==> White(c) || c == '\n'
  {
  }

  predicate OneLine(s: string) {
    '\n' !in s && NUL !in s
  }

  predicate Trimmed(s: string) {
    s == "" || (!White(s[0]) && !White(s[|s| - 1]))
  }

  predicate Indent(s: string) {
    forall i :: 0 <= i < |s| ==> White(s[i])
  }

  /** A name as it may stand at the start of line `lineno`. */
  predicate Name(name: string, lineno: nat) {
    && OneLine(name) && Trimmed(name) && Find(name, "=:") == |name|
    && (name != "" ==> name[0] != ';' && name[0] != '#' && name[0] != '[')
    && (lineno == 1 ==> !(BOM <= name))
  }

  predicate Val(value: string) {
    OneLine(value) && Trimmed(value) && Find(value, "") == |value|
  }

  predicate Tail(s: string) {
    OneLine(s) && (s != "" ==> !White(s[|s| - 1]))
  }

  /** What may stand behind a name or value: white space, and behind that a comment. */
  predicate Behind(space: string, note: string) {
    Indent(space) && Tail(note) && (note != "" ==> space != "" && note[0] == ';')
  }

  /** What may stand on line `lineno`: nothing the parser would take for something else. */
  predicate Printable(e: Entry, lineno: nat) {
    && |Print(e)| < INI_MAX_LINE
    && match e
       case Head(title) => OneLine(title) && Find(title, "]") == |title|
       case Titled(indent, title, rest) =>
         Indent(indent) && OneLine(title) && Find(title, "]") == |title| && Tail(rest)
       case Field(name, value) => Name(name, lineno) && Val(value)
       case Laid(indent, name, before, delimiter, after, value, space, note) =>
         && Indent(indent) && Name(name, lineno) && Indent(before) && (name == "" ==> before == "")
         && (delimiter == '=' || delimiter == ':')
         && Indent(after) && Val(value) && (after != "" ==> value != "" && value[0] != ';')
         && Behind(space, note)
       case More(indent, text) =>
         && Indent(indent) && indent != "" && OneLine(text) && Trimmed(text)
         && text != "" && text[0] != ';' && text[0] != '#'
       case Remark(indent, mark, text) => Indent(indent) && (mark == ';' || mark == '#') && Tail(text)
       case Blank(indent) => Indent(indent)
       case Bare(name, space, note) => Name(name, lineno) && name != "" && Behind(space, note)
       case Unclosed(text) => Tail(text) && ']' !in text
  }

  /** Whether the line may follow the name `prev`: a continuation line needs a name, and behind a name
      everything else that is indented would be one. */
  predicate Follows(e: Entry, prev: string) {
    && (e.More? ==> prev != "")
    && (e.Titled? || e.Laid? ==> e.indent == "" || prev == "")
  }

  /** What the parser keeps of a section or name. */
  function First49(s: string): string {
    if |s| < 50 then s else s[..49]
  }

  /** The name that a continuation line continues, behind e. */
  function NextPrev(e: Entry, prev: string): string {
    if e.Head? || e.Titled? then "" else if e.Field? || e.Laid? then First49(e.name) else prev
  }

  /** All lines may stand where they do. */
  ghost predicate AllPrintable(es: seq<Entry>, first: nat, prev: string) {
    es == [] || (
      && Printable(es[0], first) && Follows(es[0], prev)
      && AllPrintable(es[1..], first + 1, NextPrev(es[0], prev)))
  }

  // ---------------------------------------------------------------- how each line is understood

  lemma FindBefore(s: string, rest: string, chars: string)
    requires Find(s, chars) == |s| && rest != [] && rest[0] in chars
    ensures Find(s + rest, chars) == |s|
  {
    forall j | 0 <= j < |s|
      ensures !Stops(s + rest, chars, j)
    {
      assert !Stops(s, chars, j);
    }
    FindIs(s + rest, chars, 0, |s|);
  }

  /** White space around the text of a line is stripped; what stands in front makes it indented. */
  lemma LineIs(line: string, indent: string, text: string, trail: string, prevName: string, lineno: nat)
    requires line == indent + text + trail + "\n" && Indent(indent) && Indent(trail) && OneLine(text)
    requires text != "" && !White(text[0]) && !White(text[|text| - 1])
    requires lineno == 1 ==> !(BOM <= line)
    ensures Classify(line, prevName, lineno) == Understand(text, indent != "", prevName)
  {
    var kept := indent + text;
    SpaceIs(text[0]);
    SpaceIs(text[|text| - 1]);
    Spaces(indent);
    Spaces(trail);
    assert RStrip(line) == kept by {
      assert line[..|kept|] == kept && kept[|kept| - 1] == text[|text| - 1];
      RStripIs(line, |kept|);
    }
    assert LSkip(kept) == text by {
      assert kept[|indent|..] == text;
      LSkipIs(kept, |indent|);
    }
    assert line[0..] == line;
  }

  lemma Spaces(s: string)
    requires Indent(s)
    ensures (forall i :: 0 <= i < |s| ==> IsSpace(s[i])) && OneLine(s)
  {
    forall i | 0 <= i < |s|
      ensures IsSpace(s[i])
    {
      SpaceIs(s[i]);
    }
  }

  lemma NoBom(line: string)
    requires line != "" && line[0] !in BOM
    ensures !(BOM <= line)
  {
  }

  /** A line starts with a byte order mark only if its name does. */
  lemma NameBom(line: string, indent: string, name: string, rest: string)
    requires line == indent + name + rest && Indent(indent) && !(BOM <= name) && rest != "" && rest[0] !in BOM
    ensures !(BOM <= line)
  {
    if indent != "" {
      NoBom(line);
    } else if |name| <= 2 {
      assert line[|name|] == rest[0];
    } else {
      assert line[..3] == name[..3];
    }
  }

  lemma Ends(text: string)
    requires OneLine(text)
    ensures FullLine(text + "\n")
  {
    assert (text + "\n")[..|text|] == text;
  }

  lemma TitleOf(title: string, rest: string)
    requires Find(title, "]") == |title|
    ensures Understand("[" + title + "]" + rest, false, "") == Section(title)
  {
    var s, line := title + ("]" + rest), "[" + title + "]" + rest;
    FindBefore(title, "]" + rest, "]");
    assert s[..|title|] == title && s[|title|] == ']';
    assert line[0] == '[' && line[1..] == s;
  }

  lemma TitledLine(indent: string, title: string, rest: string, prevName: string, lineno: nat)
    requires Printable(Titled(indent, title, rest), lineno) && Follows(Titled(indent, title, rest), prevName)
    ensures Classify(Print(Titled(indent, title, rest)), prevName, lineno) == Section(title)
  {
    var text, line := "[" + title + "]" + rest, Print(Titled(indent, title, rest));
    assert line == indent + text + "" + "\n";
    NoBom(line);
    assert text[|text| - 1] == if rest == "" then ']' else rest[|rest| - 1];
    LineIs(line, indent, text, "", prevName, lineno);
    TitleOf(title, rest);
  }

  lemma HeadLine(title: string, prevName: string, lineno: nat)
    requires Printable(Head(title), lineno)
    ensures Classify(Print(Head(title)), prevName, lineno) == Section(title)
  {
    assert Print(Head(title)) == Print(Titled("", title, ""));
    TitledLine("", title, "", prevName, lineno);
  }

  /** The name in front of a delimiter or comment. */
  lemma NameOf(name: string, before: string, rest: string)
    requires OneLine(name) && Trimmed(name) && Find(name, "=:") == |name| && Indent(before)
    requires name == "" ==> before == ""
    requires rest != "" ==> rest[0] == '=' || rest[0] == ':' || (rest[0] == ';' && before != "")
    ensures Find(name + before + rest, "=:") == |name + before|
    ensures RStrip(name + before) == name
  {
    var s, e := name + before + rest, |name + before|;
    Spaces(before);
    forall j | 0 <= j < e
      ensures !Stops(s, "=:", j)
    {
      if j < |name| {
        assert !Stops(name, "=:", j);
      }
    }
    FindIs(s, "=:", 0, e);
    StripAround("", name, before);
    assert name + before == "" + name + before;
  }

  /** White space on both sides is stripped. */
  lemma StripAround(after: string, value: string, space: string)
    requires Indent(after) && Trimmed(value) && Indent(space) && OneLine(value)
    requires value == "" ==> after == ""
    ensures RStrip(LSkip(after + value + space)) == value
    ensures after == "" ==> RStrip(value + space) == value
  {
    Spaces(after);
    Spaces(space);
    var s, t := after + value + space, value + space;
    if value == "" {
      assert s == t == space;
      LSkipIs(s, |s|);
      RStripIs(t, 0);
    } else {
      SpaceIs(value[0]);
      SpaceIs(value[|value| - 1]);
      LSkipIs(s, |after|);
      assert s[|after|..] == t && t[..|value|] == value;
      RStripIs(t, |value|);
    }
  }

  /** An inline comment is cut off, with the white space in front of it. */
  lemma ValueOf(after: string, value: string, space: string, note: string)
    requires Indent(after) && Val(value) && (after != "" ==> value != "" && value[0] != ';') && Behind(space, note)
    ensures Value(after + value + space + note) == value
  {
    var s, e := after + value + space + note, |after + value + space|;
    Spaces(after);
    Spaces(space);
    forall j | 0 <= j < e
      ensures !Stops(s, "", j)
    {
      if |after| <= j < |after + value| {
        assert !Stops(value, "", j - |after|);
      }
    }
    FindIs(s, "", 0, e);
    assert s[..e] == after + value + space;
    StripAround(after, value, space);
  }

  lemma SplitAt(left: string, delimiter: char, right: string)
    requires Find(left + ([delimiter] + right), "=:") == |left| && (delimiter == '=' || delimiter == ':')
    ensures IniText.Entry(left + ([delimiter] + right)) == Pair(RStrip(left), Value(right))
  {
    var s := left + ([delimiter] + right);
    assert s[..|left|] == left && s[|left|] == delimiter && s[|left| + 1..] == right;
  }

  /** The text of a line with a name and a value is understood as them. */
  lemma PairOf(e: Entry, text: string, space: string, lineno: nat)
    requires Printable(e, lineno) && e.Laid? && Behind(space, e.note) && (e.note == "" ==> space == "")
    requires text == e.name + e.before + ([e.delimiter] + (e.after + e.value + space + e.note))
    ensures IniText.Entry(text) == Pair(e.name, e.value)
  {
    var right := e.after + e.value + space + e.note;
    NameOf(e.name, e.before, [e.delimiter] + right);
    SplitAt(e.name + e.before, e.delimiter, right);
    ValueOf(e.after, e.value, space, e.note);
  }

  lemma TextEnds(e: Entry, text: string, space: string, lineno: nat)
    requires Printable(e, lineno) && e.Laid? && Behind(space, e.note) && (e.note == "" ==> space == "")
    requires text == e.name + e.before + ([e.delimiter] + (e.after + e.value + space + e.note))
    ensures text != "" && !White(text[0]) && !White(text[|text| - 1]) && OneLine(text)
    ensures text[0] == if e.name == "" then e.delimiter else e.name[0]
  {
    Spaces(e.before);
    Spaces(e.after);
    Spaces(space);
    assert text[|text| - 1] == if e.note != "" then e.note[|e.note| - 1]
      else if e.value != "" then e.value[|e.value| - 1] else e.delimiter;
  }

  lemma TextBom(line: string, indent: string, name: string, before: string, right: string, trail: string)
    requires line == indent + (name + before + right) + trail + "\n" && Indent(indent) && Indent(before)
    requires right != "" && (right[0] == '=' || right[0] == ':')
    ensures !(BOM <= name) ==> !(BOM <= line)
  {
    if !(BOM <= name) {
      var rest := before + right + trail + "\n";
      assert line == indent + name + rest;
      NameBom(line, indent, name, rest);
    }
  }

  lemma PairLine(e: Entry, line: string, text: string, space: string, trail: string, prevName: string, lineno: nat)
    requires Printable(e, lineno) && e.Laid? && Follows(e, prevName) && line == e.indent + text + trail + "\n"
    requires Behind(space, e.note) && (e.note == "" ==> space == "") && Indent(trail)
    requires text == e.name + e.before + ([e.delimiter] + (e.after + e.value + space + e.note))
    ensures Classify(line, prevName, lineno) == Pair(e.name, e.value)
  {
    assert lineno == 1 ==> !(BOM <= line) by {
      TextBom(line, e.indent, e.name, e.before, [e.delimiter] + (e.after + e.value + space + e.note), trail);
    }
    TextEnds(e, text, space, lineno);
    LineIs(line, e.indent, text, trail, prevName, lineno);
    PairOf(e, text, space, lineno);
  }

  /** The white space behind a value ends the line when no comment follows. */
  lemma LaidText(e: Entry, text: string, space: string, trail: string)
    requires e.Laid? && (if e.note == "" then space == "" && trail == e.space else space == e.space && trail == "")
    requires text == e.name + e.before + ([e.delimiter] + (e.after + e.value + space + e.note))
    ensures Print(e) == e.indent + text + trail + "\n"
  {
    var core := e.name + e.before + [e.delimiter] + e.after + e.value;
    assert text == core + (space + e.note);
    assert space + e.note + trail == e.space + e.note;
  }

  lemma LaidLine(e: Entry, prevName: string, lineno: nat)
    requires Printable(e, lineno) && e.Laid? && Follows(e, prevName)
    ensures Classify(Print(e), prevName, lineno) == Pair(e.name, e.value)
  {
    var space, trail := if e.note == "" then "" else e.space, if e.note == "" then e.space else "";
    var text := e.name + e.before + ([e.delimiter] + (e.after + e.value + space + e.note));
    LaidText(e, text, space, trail);
    PairLine(e, Print(e), text, space, trail, prevName, lineno);
  }

  lemma FieldLine(name: string, value: string, prevName: string, lineno: nat)
    requires Printable(Field(name, value), lineno)
    ensures Classify(Print(Field(name, value)), prevName, lineno) == Pair(name, value)
  {
    var e := Laid("", name, "", '=', "", value, "", "");
    assert Body(e) == Body(Field(name, value)) by {
      assert "" + (name + "" + ['='] + "" + value) == name + "=" + value;
    }
    LaidLine(e, prevName, lineno);
  }

  lemma MoreLine(indent: string, text: string, prevName: string, lineno: nat)
    requires Printable(Entry.More(indent, text), lineno) && prevName != ""
    ensures Classify(Print(Entry.More(indent, text)), prevName, lineno) == Item.More(text)
  {
    var line := Print(Entry.More(indent, text));
    assert line == indent + text + "" + "\n";
    NoBom(line);
    LineIs(line, indent, text, "", prevName, lineno);
  }

  lemma RemarkLine(indent: string, mark: char, text: string, prevName: string, lineno: nat)
    requires Printable(Remark(indent, mark, text), lineno)
    ensures Classify(Print(Remark(indent, mark, text)), prevName, lineno) == Nothing
  {
    var line := Print(Remark(indent, mark, text));
    assert line == indent + ([mark] + text) + "" + "\n";
    NoBom(line);
    LineIs(line, indent, [mark] + text, "", prevName, lineno);
  }

  lemma BlankLine(indent: string, prevName: string, lineno: nat)
    requires Printable(Blank(indent), lineno)
    ensures Classify(Print(Blank(indent)), prevName, lineno) == Nothing
  {
    var line := indent + "\n";
    NoBom(line);
    Spaces(indent);
    assert line[0..] == line;
    RStripIs(line, 0);
  }

  /** The text of a line with a name alone. */
  lemma BareOf(text: string, name: string, before: string, note: string)
    requires Name(name, 2) && name != "" && Behind(before, note) && (note == "" ==> before == "")
    requires text == name + before + note
    ensures Understand(text, false, "") == Item.Bare(name)
    ensures text != "" && !White(text[0]) && !White(text[|text| - 1]) && OneLine(text)
  {
    Spaces(before);
    assert text[0] == name[0];
    assert text[|text| - 1] == if note != "" then note[|note| - 1] else name[|name| - 1];
    NameOf(name, before, note);
    assert text[..|name + before|] == name + before;
  }

  lemma BareLine(name: string, space: string, note: string, prevName: string, lineno: nat)
    requires Printable(Entry.Bare(name, space, note), lineno)
    ensures Classify(Print(Entry.Bare(name, space, note)), prevName, lineno) == Item.Bare(name)
  {
    var line := Print(Entry.Bare(name, space, note));
    if lineno == 1 {
      assert line == "" + name + (space + note + "\n");
      NameBom(line, "", name, space + note + "\n");
    }
    if note == "" {
      assert line == "" + name + space + "\n" && name == name + "" + "";
      BareOf(name, name, "", "");
      LineIs(line, "", name, space, prevName, lineno);
    } else {
      var text := name + space + note;
      assert line == "" + text + "" + "\n";
      BareOf(text, name, space, note);
      LineIs(line, "", text, "", prevName, lineno);
    }
  }

  lemma UnclosedLine(text: string, prevName: string, lineno: nat)
    requires Printable(Entry.Unclosed(text), lineno)
    ensures Classify(Print(Entry.Unclosed(text)), prevName, lineno) == Item.Unclosed
  {
    var s, line := "[" + text, Print(Entry.Unclosed(text));
    assert line == "" + s + "" + "\n";
    NoBom(line);
    LineIs(line, "", s, "", prevName, lineno);
    assert s[1..] == text;
  }

  // ---------------------------------------------------------------- what each line does

  /** The state behind a line. */
  function After(e: Entry, st: State, lineno: nat, handler: Handler): State {
    if e.Head? || e.Titled? then st.(section := First49(e.title), prevName := "")
    else if e.Field? || e.Laid? then
      Report(st.(prevName := First49(e.name)), Call(st.section, e.name, Some(e.value), lineno), handler)
    else if e.More? then Report(st, Call(st.section, st.prevName, Some(e.text), lineno), handler)
    else if e.Bare? && st.error == 0 then Report(st, Call(st.section, e.name, None, lineno), handler)
    else if e.Unclosed? && st.error == 0 then st.(error := lineno)
    else st
  }

  function ItemOf(e: Entry): Item {
    if e.Head? || e.Titled? then Section(e.title)
    else if e.Field? || e.Laid? then Pair(e.name, e.value)
    else if e.More? then Item.More(e.text)
    else if e.Bare? then Item.Bare(e.name)
    else if e.Unclosed? then Item.Unclosed
    else Nothing
  }

  /** Every printed line is understood as what it says. */
  lemma PrintedItem(e: Entry, prevName: string, lineno: nat)
    requires Printable(e, lineno) && Follows(e, prevName)
    ensures Classify(Print(e), prevName, lineno) == ItemOf(e)
  {
    match e
    case Head(title) => HeadLine(title, prevName, lineno);
    case Titled(indent, title, rest) => TitledLine(indent, title, rest, prevName, lineno);
    case Field(name, value) => FieldLine(name, value, prevName, lineno);
    case Laid(_, _, _, _, _, _, _, _) => LaidLine(e, prevName, lineno);
    case More(indent, text) => MoreLine(indent, text, prevName, lineno);
    case Remark(indent, mark, text) => RemarkLine(indent, mark, text, prevName, lineno);
    case Blank(indent) => BlankLine(indent, prevName, lineno);
    case Bare(name, space, note) => BareLine(name, space, note, prevName, lineno);
    case Unclosed(text) => UnclosedLine(text, prevName, lineno);
  }

  lemma ItemDoes(e: Entry, st: State, lineno: nat, handler: Handler)
    ensures Apply(ItemOf(e), st, lineno, handler) == After(e, st, lineno, handler)
  {
  }

  lemma PrintedStep(e: Entry, st: State, lineno: nat, handler: Handler)
    requires Printable(e, lineno) && Follows(e, st.prevName)
    ensures Stepper(handler)(Print(e), st, lineno) == After(e, st, lineno, handler)
  {
    PrintedItem(e, st.prevName, lineno);
    ItemDoes(e, st, lineno, handler);
  }

  /** Every printed line is one line. */
  lemma PrintedLine(e: Entry, lineno: nat)
    requires Printable(e, lineno)
    ensures FullLine(Print(e))
  {
    forall s: string | Indent(s)
      ensures OneLine(s)
    {
      Spaces(s);
    }
    Ends(Body(e));
  }

  // ---------------------------------------------------------------- what a text does

  function Meaning(es: seq<Entry>, st: State, first: nat, handler: Handler): State
    decreases |es|
  {
    if es == [] then st else Meaning(es[1..], After(es[0], st, first, handler), first + 1, handler)
  }

  /** The calls that belong to the lines, from line `first` on in section `section`, when the last
      name was `prev`. A name alone is reported only while no error was found. */
  function Calls(es: seq<Entry>, section: string, prev: string, first: nat, sound: bool): seq<Call>
    decreases |es|
  {
    if es == [] then []
    else
      var e := es[0];
      var rest := Calls(es[1..], if e.Head? || e.Titled? then First49(e.title) else section, NextPrev(e, prev),
                        first + 1, sound && !e.Unclosed?);
      if e.Field? || e.Laid? then [Call(section, e.name, Some(e.value), first)] + rest
      else if e.More? then [Call(section, prev, Some(e.text), first)] + rest
      else if e.Bare? && sound then [Call(section, e.name, None, first)] + rest
      else rest
  }

  /** The first line with an unclosed bracket, or 0. */
  function FirstUnclosed(es: seq<Entry>, first: nat): nat
    decreases |es|
  {
    if es == [] then 0 else if es[0].Unclosed? then first else FirstUnclosed(es[1..], first + 1)
  }

  /** The line of the first call that the handler refuses, after the calls `before`. */
  function FirstRefused(before: seq<Call>, calls: seq<Call>, handler: Handler): nat
    decreases |calls|
  {
    if calls == [] then 0
    else if !handler(before + [calls[0]]) then calls[0].lineno
    else FirstRefused(before + [calls[0]], calls[1..], handler)
  }

  /** `effect` treats printed lines as the parser does. */
  ghost predicate Reads(effect: Effect, handler: Handler) {
    forall e: Entry, st: State, n: nat {:trigger After(e, st, n, handler)} ::
      Printable(e, n) && Follows(e, st.prevName) ==> effect(Print(e), st, n) == After(e, st, n, handler)
  }

  lemma AfterPrev(e: Entry, st: State, lineno: nat, handler: Handler)
    ensures After(e, st, lineno, handler).prevName == NextPrev(e, st.prevName)
  {
  }

  lemma RunFirst(es: seq<Entry>, st: State, first: nat, effect: Effect)
    requires es != []
    ensures Run(PrintAll(es), st, first, effect)
      == Run(PrintAll(es[1..]), effect(Print(es[0]), st, first), first + 1, effect)
  {
    assert PrintAll(es)[1..] == PrintAll(es[1..]) && PrintAll(es)[0] == Print(es[0]);
  }

  lemma {:induction false} RunPrinted(es: seq<Entry>, st: State, first: nat, handler: Handler, effect: Effect)
    requires AllPrintable(es, first, st.prevName) && Reads(effect, handler)
    ensures Run(PrintAll(es), st, first, effect) == Meaning(es, st, first, handler)
    decreases |es|
  {
    if es != [] {
      var next := After(es[0], st, first, handler);
      AfterPrev(es[0], st, first, handler);
      RunPrinted(es[1..], next, first + 1, handler, effect);
      RunFirst(es, st, first, effect);
    }
  }

  lemma {:induction false} PrintableAt(es: seq<Entry>, first: nat, prev: string, i: nat)
    requires AllPrintable(es, first, prev) && i < |es|
    ensures Printable(es[i], first + i)
    decreases i
  {
    if i > 0 {
      PrintableAt(es[1..], first + 1, NextPrev(es[0], prev), i - 1);
    }
  }

  lemma PrintedLines(es: seq<Entry>, first: nat, prev: string)
    requires AllPrintable(es, first, prev)
    ensures forall i :: 0 <= i < |es| ==> FullLine(PrintAll(es)[i]) && |PrintAll(es)[i]| < INI_MAX_LINE
  {
    forall i | 0 <= i < |es|
      ensures FullLine(PrintAll(es)[i]) && |PrintAll(es)[i]| < INI_MAX_LINE
    {
      PrintableAt(es, first, prev, i);
      PrintedLine(es[i], first + i);
    }
  }

  /** Parsing what was printed does line by line what the lines mean. */
  lemma ParsePrinted(es: seq<Entry>, handler: Handler)
    requires AllPrintable(es, 1, "")
    ensures ParseText(Concat(PrintAll(es)), handler) == Meaning(es, INITIAL, 1, handler)
  {
    PrintedLines(es, 1, "");
    ParseLines(PrintAll(es), handler);
    forall e: Entry, st: State, n: nat | Printable(e, n) && Follows(e, st.prevName)
      ensures Stepper(handler)(Print(e), st, n) == After(e, st, n, handler)
    {
      PrintedStep(e, st, n, handler);
    }
    RunPrinted(es, INITIAL, 1, handler, Stepper(handler));
  }

  // ---------------------------------------------------------------- the results

  /** No name alone and no unclosed bracket. */
  predicate Plain(es: seq<Entry>) {
    forall e :: e in es ==> !e.Bare? && !e.Unclosed?
  }

  lemma {:induction false} MeaningPlain(es: seq<Entry>, st: State, first: nat, handler: Handler)
    requires Plain(es) && 0 < first
    ensures var r, calls := Meaning(es, st, first, handler), Calls(es, st.section, st.prevName, first, true);
      && r.calls == st.calls + calls
      && r.error == if st.error != 0 then st.error else FirstRefused(st.calls, calls, handler)
    decreases |es|
  {
    if es != [] {
      var next := After(es[0], st, first, handler);
      AfterPrev(es[0], st, first, handler);
      MeaningPlain(es[1..], next, first + 1, handler);
      var rest := Calls(es[1..], next.section, next.prevName, first + 1, true);
      if es[0].Field? || es[0].Laid? {
        Account(st, Call(st.section, es[0].name, Some(es[0].value), first), handler, rest);
      } else if es[0].More? {
        Account(st, Call(st.section, st.prevName, Some(es[0].text), first), handler, rest);
      }
    }
  }

  /** The bookkeeping of one call. */
  lemma Account(st: State, c: Call, handler: Handler, rest: seq<Call>)
    requires 0 < c.lineno
    ensures var next := Report(st, c, handler); var own := [c] + rest;
      && next.calls + rest == st.calls + own
      && (if next.error != 0 then next.error else FirstRefused(next.calls, rest, handler))
        == (if st.error != 0 then st.error else FirstRefused(st.calls, own, handler))
  {
    assert st.calls + [c] + rest == st.calls + ([c] + rest);
    assert ([c] + rest)[1..] == rest;
  }

  lemma CallsFirst(es: seq<Entry>, section: string, prev: string, first: nat, sound: bool)
    requires es != []
    ensures Calls(es, section, prev, first, sound) == Calls([es[0]], section, prev, first, sound)
      + Calls(es[1..], if es[0].Head? || es[0].Titled? then First49(es[0].title) else section,
              NextPrev(es[0], prev), first + 1, sound && !es[0].Unclosed?)
  {
    assert [es[0]][1..] == [];
  }

  lemma AfterAccepted(e: Entry, st: State, lineno: nat, handler: Handler)
    requires forall cs :: handler(cs)
    ensures var next := After(e, st, lineno, handler);
      && next.calls == st.calls + Calls([e], st.section, st.prevName, lineno, st.error == 0)
      && next.error == if st.error == 0 && e.Unclosed? then lineno else st.error
  {
    var next := After(e, st, lineno, handler);
    assert next.calls != st.calls ==> handler(next.calls);
  }

  lemma {:induction false} MeaningAccepted(es: seq<Entry>, st: State, first: nat, handler: Handler)
    requires (forall cs :: handler(cs)) && 0 < first
    ensures var r := Meaning(es, st, first, handler);
      && r.calls == st.calls + Calls(es, st.section, st.prevName, first, st.error == 0)
      && r.error == if st.error != 0 then st.error else FirstUnclosed(es, first)
    decreases |es|
  {
    if es != [] {
      var next := After(es[0], st, first, handler);
      AfterPrev(es[0], st, first, handler);
      AfterAccepted(es[0], st, first, handler);
      MeaningAccepted(es[1..], next, first + 1, handler);
      CallsFirst(es, st.section, st.prevName, first, st.error == 0);
    }
  }

  /** Parsing what was printed calls the handler with exactly the fields and continuation lines,
      in order, with the line numbers they stand on, and returns the first refused line: 0 if
      none is refused. */
  lemma RoundTrip(es: seq<Entry>, handler: Handler)
    requires AllPrintable(es, 1, "") && Plain(es)
    ensures var r, calls := ParseText(Concat(PrintAll(es)), handler), Calls(es, "", "", 1, true);
      && r.calls == calls
      && r.error == FirstRefused([], calls, handler)
      && ((forall cs :: handler(cs)) ==> r.error == 0)
  {
    ParsePrinted(es, handler);
    MeaningPlain(es, INITIAL, 1, handler);
    if forall cs :: handler(cs) {
      NoneRefused([], Calls(es, "", "", 1, true), handler);
    }
  }

  /** With a handler that accepts all calls, names alone are reported too, up to the first unclosed
      bracket, whose line is the result. */
  lemma RoundTripAccepted(es: seq<Entry>, handler: Handler)
    requires AllPrintable(es, 1, "") && forall cs :: handler(cs)
    ensures var r := ParseText(Concat(PrintAll(es)), handler);
      r.calls == Calls(es, "", "", 1, true) && r.error == FirstUnclosed(es, 1)
  {
    ParsePrinted(es, handler);
    MeaningAccepted(es, INITIAL, 1, handler);
  }

  lemma {:induction false} NoneRefused(before: seq<Call>, calls: seq<Call>, handler: Handler)
    requires forall cs :: handler(cs)
    ensures FirstRefused(before, calls, handler) == 0
    decreases |calls|
  {
    if calls != [] {
      assert handler(before + [calls[0]]);
      NoneRefused(before + [calls[0]], calls[1..], handler);
    }
  }

  /** A byte order mark in front of the first line makes no difference to it. */
  lemma BomIgnored(line: string, prevName: string)
    requires !(BOM <= line) && prevName == ""
    ensures Classify(BOM + line, prevName, 1) == Classify(line, prevName, 1)
  {
    assert BOM <= BOM + line && (BOM + line)[3..] == line && line[0..] == line;
  }
}
