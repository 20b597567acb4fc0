/** hekate_ipl.ini parsed for the autoboot settings, edited by the line numbers just read, and
    parsed again (source/main_config.c, source/main.cpp). */
module Autoboot {
  import opened Options
  import opened IniText
  import opened IniLines
  import opened IniParse
  import RT = IniRoundTrip
  import opened Numbers

  const FGETS_MAX: nat := 1000

  /** atoll */
  function Atoll(s: string): int {
    var t := LSkip(s);
    if t != "" && t[0] == '-' then 0 - Number(t[1..], 0)
    else if t != "" && t[0] == '+' then Number(t[1..], 0)
    else Number(t, 0)
  }

  /** A long long stored in an int. */
  function ToInt(n: int): (i: int)
    ensures -0x8000_0000 <= n < 0x8000_0000 ==> i == n
  {
    var m := n % 0x1_0000_0000;
    if m < 0x8000_0000 then m else m - 0x1_0000_0000
  }

  lemma AtollOfItoa(n: int)
    ensures Atoll(Itoa(n)) == n
  {
    DigitsFit(if n < 0 then -n else n, 1);
    NumberOfDigits(if n < 0 then -n else n);
    LSkipIs(Itoa(n), 0);
  }

  /** atoll skips white space, takes one sign and reads digits; what follows them is ignored, and
      without digits the result is 0. */
  lemma AtollReads(space: string, n: nat, rest: string)
    requires (forall i :: 0 <= i < |space| ==> IsSpace(space[i])) && (rest != "" ==> !IsDigit(rest[0]))
    ensures Atoll(space + (Digits(n) + rest)) == n
    ensures Atoll(space + ("+" + (Digits(n) + rest))) == n
    ensures Atoll(space + ("-" + (Digits(n) + rest))) + n == 0
    ensures (rest != "" ==> !IsSpace(rest[0]) && rest[0] != '-' && rest[0] != '+') ==> Atoll(space + rest) == 0
  {
    var number := Digits(n) + rest;
    DigitsFit(n, 1);
    assert Number(number, 0) == n by {
      NumberStops(Digits(n), rest, 0);
      NumberOfDigits(n);
    }
    SkipTo(space, number);
    SkipTo(space, "+" + number);
    SkipTo(space, "-" + number);
    assert ("+" + number)[1..] == number && ("-" + number)[1..] == number;
    if rest != "" ==> !IsSpace(rest[0]) {
      SkipTo(space, rest);
    }
  }

  lemma SkipTo(space: string, s: string)
    requires (forall i :: 0 <= i < |space| ==> IsSpace(space[i])) && (s != "" ==> !IsSpace(s[0]))
    ensures LSkip(space + s) == s
  {
    assert (space + s)[|space|..] == s;
    LSkipIs(space + s, |space|);
  }

  /** A value beyond the width of an int wraps around. */
  lemma IntWraps(n: int)
    ensures -0x8000_0000 <= ToInt(n) < 0x8000_0000 && (n - ToInt(n)) % 0x1_0000_0000 == 0
  {
  }

  /** The two parameter buffers hold the edited lines and their NUL exactly when the second
      number is above -10^9: there is no room for a sign and ten digits. */
  lemma ParamsFit(a: int, b: int)
    requires 0 <= a < 0x8000_0000 && -0x8000_0000 <= b < 0x8000_0000
    ensures |Param("autoboot", a)| < 21
    ensures |Itoa(b)| < 11 && |Param("autoboot_list", b)| < 26 <==> -1_000_000_000 < b
  {
    assert Pow10(10) == 10_000_000_000 && Pow10(9) == 1_000_000_000;
    DigitsFit(a, 10);
    if b < 0 {
      DigitsFit(-b, 9);
    } else {
      DigitsFit(b, 10);
    }
  }

  /** The first number without room. */
  lemma ParamTooLong()
    ensures |Itoa(-1_000_000_000)| == 11
  {
    assert Pow10(10) == 10_000_000_000 && Pow10(9) == 1_000_000_000;
    DigitsFit(1_000_000_000, 10);
    DigitsFit(1_000_000_000, 9);
  }

  // ---------------------------------------------------------------- reading the settings

  /** The handler accepts every call. */
  const ACCEPT: Handler := (calls: seq<Call>) => true

  datatype Config = Config(autoboot: int, autobootLine: int, list: int, listLine: int)

  const NOTHING := Config(0, -1, 0, -1)

  predicate Is(call: Call, name: string) {
    call.section == "config" && call.name == name
  }

  function ValueOf(call: Call): int {
    if call.value.Some? then ToInt(Atoll(call.value.value)) else 0
  }

  function LineOf(call: Call): int {
    if call.value.Some? then call.lineno else -1
  }

  /** hekate_config_handler */
  function Configure(c: Config, call: Call): Config {
    if Is(call, "autoboot") then c.(autoboot := ValueOf(call), autobootLine := LineOf(call))
    else if Is(call, "autoboot_list") then c.(list := ValueOf(call), listLine := LineOf(call))
    else c
  }

  function Configured(calls: seq<Call>): Config {
    if calls == [] then NOTHING else Configure(Configured(calls[..|calls| - 1]), calls[|calls| - 1])
  }

  /** The settings of a file. */
  function Parsed(text: string): Config {
    Configured(ParseText(text, ACCEPT).calls)
  }

  /** The index of the last call that sets `name`, or -1. */
  function Last(calls: seq<Call>, name: string): (j: int)
    ensures -1 <= j < |calls| && (0 <= j ==> Is(calls[j], name))
    ensures forall i :: j < i < |calls| ==> !Is(calls[i], name)
  {
    if calls == [] then -1
    else if Is(calls[|calls| - 1], name) then |calls| - 1
    else Last(calls[..|calls| - 1], name)
  }

  /** A key without a value is as if it had not been there, and only two keys of one section count. */
  lemma KeysOfConfig(c: Config, section: string, name: string, value: Option<string>, n: int, lineno: nat)
    requires -0x8000_0000 <= n < 0x8000_0000
    ensures section != "config" || (name != "autoboot" && name != "autoboot_list") ==>
      Configure(c, Call(section, name, value, lineno)) == c
    ensures Configure(c, Call("config", "autoboot", Some(Itoa(n)), lineno)) == Config(n, lineno, c.list, c.listLine)
    ensures Configure(c, Call("config", "autoboot_list", Some(Itoa(n)), lineno))
      == Config(c.autoboot, c.autobootLine, n, lineno)
    ensures Configure(c, Call("config", "autoboot", None, lineno)) == Config(0, -1, c.list, c.listLine)
    ensures Configure(c, Call("config", "autoboot_list", None, lineno)) == Config(c.autoboot, c.autobootLine, 0, -1)
  {
    AtollOfItoa(n);
  }

  /** The last call for each name decides. */
  lemma {:induction false} ConfiguredIs(calls: seq<Call>)
    ensures var i, j, c := Last(calls, "autoboot"), Last(calls, "autoboot_list"), Configured(calls);
      && c.autoboot == (if i < 0 then 0 else ValueOf(calls[i]))
      && c.autobootLine == (if i < 0 then -1 else LineOf(calls[i]))
      && c.list == (if j < 0 then 0 else ValueOf(calls[j]))
      && c.listLine == (if j < 0 then -1 else LineOf(calls[j]))
  {
    if calls != [] {
      ConfiguredIs(calls[..|calls| - 1]);
    }
  }

  /** The calls set the same names. */
  ghost predicate SameNames(a: seq<Call>, b: seq<Call>) {
    |a| == |b| && forall i :: 0 <= i < |a| ==> a[i].section == b[i].section && a[i].name == b[i].name
  }

  lemma {:induction false} LastIsSame(a: seq<Call>, b: seq<Call>, name: string)
    requires SameNames(a, b)
    ensures Last(a, name) == Last(b, name)
  {
    if a != [] {
      LastIsSame(a[..|a| - 1], b[..|b| - 1], name);
    }
  }

  // ---------------------------------------------------------------- editing by line number

  /** What update_hekate_autoboot_param replaces. */
  datatype Edit = Edit(line: int, text: string, listLine: int, listText: Option<string>)

  function Param(name: string, value: int): string {
    RT.Print(RT.Field(name, Itoa(value)))
  }

  /** Enabling sets both lines, disabling only the first. */
  function EditOf(c: Config, a: int, b: Option<int>): Edit {
    Edit(c.autobootLine, Param("autoboot", a), c.listLine,
         if b.Some? then Some(Param("autoboot_list", b.value)) else None)
  }

  function Replacement(e: Edit, i: nat, line: string): string {
    if i == e.line then e.text
    else if i == e.listLine && e.listText.Some? then e.listText.value
    else line
  }

  /** What fgets leaves in the buffer, as strlen and fputs see it: up to the first NUL. */
  function Seen(text: string): (line: string)
    ensures |line| <= |Piece(text, FGETS_MAX)| && NUL !in line
    ensures line == Piece(text, FGETS_MAX) <==> NUL !in Piece(text, FGETS_MAX)
  {
    if NUL !in Piece(text, FGETS_MAX) then
      CStringPlain(Piece(text, FGETS_MAX));
      Piece(text, FGETS_MAX)
    else CString(Piece(text, FGETS_MAX))
  }

  predicate Ended(line: string) {
    line != "" && line[|line| - 1] == '\n'
  }

  /** What is written for the rest of a file from line i on. */
  function Rewritten(text: string, i: nat, e: Edit): string {
    if text == "" then ""
    else
      var line := Seen(text);
      var rest := text[|Piece(text, FGETS_MAX)|..];
      if !Ended(line) then line + Rewritten(rest, i, e)
      else Replacement(e, i, line) + Rewritten(rest, i + 1, e)
  }

  /** No fgets yields an empty string: then the program would read the byte in front of its buffer. */
  predicate Readable(text: string) {
    text == "" || (text[0] != NUL && Readable(text[|Piece(text, FGETS_MAX)|..]))
  }

  lemma {:induction false} PlainIsReadable(text: string)
    requires NUL !in text
    ensures Readable(text)
    decreases |text|
  {
    if text != "" {
      PlainIsReadable(text[|Piece(text, FGETS_MAX)|..]);
    }
  }

  lemma RewriteStep(text: string, i: nat, e: Edit)
    requires text != ""
    ensures var line := Seen(text); var rest := text[|Piece(text, FGETS_MAX)|..];
      Rewritten(text, i, e) == (if Ended(line) then Replacement(e, i, line) else line)
        + Rewritten(rest, if Ended(line) then i + 1 else i, e)
  {
  }

  /** `write` is Rewritten, unfolded only where Rewritten is mentioned. */
  ghost predicate Writes(write: (string, nat) -> string, e: Edit) {
    forall text, i {:trigger Rewritten(text, i, e)} :: write(text, i) == Rewritten(text, i, e)
  }

  /** The next string that fgets reads into a buffer of 1000 bytes. */
  method NextLine(file: Stream, buffer: array<char>) returns (more: bool, line: string)
    requires file.Valid() && buffer.Length == FGETS_MAX
    modifies file`pos, buffer
    ensures file.Valid() && more == (old(file.Left()) != "")
    ensures more ==>
      && line == Seen(old(file.Left()))
      && file.Left() == old(file.Left())[|Piece(old(file.Left()), FGETS_MAX)|..]
    ensures !more ==> line == "" && file.Left() == ""
  {
    more := file.Read(buffer, FGETS_MAX);
    line := "";
    if more {
      SeenIs(old(file.Left()));
      line := ReadStr(buffer, 0, Seen(old(file.Left())));
    }
  }

  lemma SeenIs(text: string)
    ensures Seen(text) == CString(Piece(text, FGETS_MAX))
  {
    if NUL !in Piece(text, FGETS_MAX) {
      CStringPlain(Piece(text, FGETS_MAX));
    }
  }

  /** `readable` is Readable, unfolded only where Readable is mentioned. */
  ghost predicate Accepts(readable: string -> bool) {
    forall text {:trigger Readable(text)} :: readable(text) == Readable(text)
  }

  lemma WriteStep(text: string, rest: string, i: nat, e: Edit, write: (string, nat) -> string, readable: string -> bool)
    requires text != "" && rest == text[|Piece(text, FGETS_MAX)|..]
    requires Writes(write, e) && Accepts(readable) && readable(text)
    ensures var line := Seen(text);
      && line != "" && readable(rest) && |rest| < |text|
      && write(text, i) == (if Ended(line) then Replacement(e, i, line) else line)
        + write(rest, if Ended(line) then i + 1 else i)
  {
    assert Readable(text) && readable(rest) == Readable(rest);
    RewriteStep(text, i, e);
    SeenIs(text);
    assert Piece(text, FGETS_MAX)[0] == text[0];
  }

  lemma WriteEnd(i: nat, e: Edit, write: (string, nat) -> string)
    requires Writes(write, e)
    ensures write("", i) == ""
  {
    assert write("", i) == Rewritten("", i, e);
  }

  /** The loop over the file. */
  method Rewrite(file: Stream, e: Edit) returns (written: string)
    requires file.Valid() && file.pos == 0 && Readable(file.text)
    modifies file`pos
    ensures written == Rewritten(file.text, 1, e)
  {
    var buffer := new char[FGETS_MAX];
    assert file.Left() == file.text;
    ghost var write := (text: string, i: nat) => Rewritten(text, i, e);
    ghost var readable := (text: string) => Readable(text);
    ghost var all := write(file.text, 1);
    assert Writes(write, e) && Accepts(readable) && all == Rewritten(file.text, 1, e);
    written := WriteAll(file, buffer, e, write, readable);
  }

  method WriteAll(file: Stream, buffer: array<char>, e: Edit,
                  ghost write: (string, nat) -> string, ghost readable: string -> bool) returns (written: string)
    requires file.Valid() && buffer.Length == FGETS_MAX
    requires Writes(write, e) && Accepts(readable) && readable(file.Left())
    modifies file`pos, buffer
    ensures written == write(old(file.Left()), 1)
  {
    var i := 1;
    written := "";
    var more := true;
    while more
      invariant file.Valid() && readable(file.Left()) && (!more ==> file.Left() == "")
      invariant written + write(file.Left(), i) == write(old(file.Left()), 1)
      decreases |file.Left()|, more
    {
      var out;
      more, out, i := WriteLine(file, buffer, i, e, write, readable);
      written := written + out;
    }
    WriteEnd(i, e, write);
  }

  /** One round of the loop: what it writes, and the line number behind it. */
  method WriteLine(file: Stream, buffer: array<char>, i: nat, e: Edit,
                   ghost write: (string, nat) -> string, ghost readable: string -> bool)
    returns (more: bool, out: string, next: nat)
    requires file.Valid() && buffer.Length == FGETS_MAX
    requires Writes(write, e) && Accepts(readable) && readable(file.Left())
    modifies file`pos, buffer
    ensures file.Valid() && readable(file.Left())
    ensures write(old(file.Left()), i) == out + write(file.Left(), next)
    ensures if more then |file.Left()| < |old(file.Left())| else file.Left() == old(file.Left()) == ""
  {
    var line;
    more, line := NextLine(file, buffer);
    if !more {
      return more, "", i;
    }
    WriteStep(old(file.Left()), file.Left(), i, e, write, readable);
    if line[|line| - 1] != '\n' {
      return more, line, i;
    }
    return more, Replacement(e, i, line), i + 1;
  }
}
