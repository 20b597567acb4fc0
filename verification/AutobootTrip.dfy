/** Parse, edit, parse: after the edit the next parse reports the new settings at the same
    lines and every other call unchanged. */
module AutobootTrip {
  import opened Options
  import opened IniText
  import opened IniLines
  import opened Autoboot
  import opened AutobootEdit
  import opened Numbers

  // ---------------------------------------------------------------- runs with an accepting handler

  function Rebase(st: State, calls: seq<Call>): State {
    st.(calls := calls)
  }

  predicate Grown(st: State, r: State, lineno: nat) {
    && st.calls <= r.calls && |r.calls| <= |st.calls| + 1
    && (|r.calls| == |st.calls| + 1 ==> r.calls[|st.calls|].lineno == lineno)
  }

  /** A line makes at most one call and does not see the calls before. */
  ghost predicate Blind(effect: Effect) {
    && (forall line, st, n: nat {:trigger effect(line, st, n)} :: Grown(st, effect(line, st, n), n))
    && (forall line, st, cs, n: nat {:trigger effect(line, Rebase(st, cs), n)} ::
          effect(line, Rebase(st, cs), n)
            == Rebase(effect(line, st, n), cs + effect(line, st, n).calls[|st.calls|..]))
  }

  lemma ApplyBlind(item: Item, st: State, cs: seq<Call>, n: nat)
    ensures var r := Apply(item, st, n, ACCEPT);
      Grown(st, r, n) && Apply(item, Rebase(st, cs), n, ACCEPT) == Rebase(r, cs + r.calls[|st.calls|..])
  {
  }

  lemma AcceptIsBlind()
    ensures Blind(Stepper(ACCEPT))
  {
    var effect := Stepper(ACCEPT);
    forall line, st, n: nat
      ensures Grown(st, effect(line, st, n), n)
    {
      ApplyBlind(Classify(line, st.prevName, n), st, [], n);
    }
    forall line, st, cs, n: nat
      ensures effect(line, Rebase(st, cs), n)
        == Rebase(effect(line, st, n), cs + effect(line, st, n).calls[|st.calls|..])
    {
      ApplyBlind(Classify(line, st.prevName, n), st, cs, n);
    }
  }

  lemma {:induction false} RunBlind(lines: seq<string>, st: State, cs: seq<Call>, first: nat, effect: Effect)
    requires Blind(effect)
    ensures var r := Run(lines, st, first, effect);
      st.calls <= r.calls && Run(lines, Rebase(st, cs), first, effect) == Rebase(r, cs + r.calls[|st.calls|..])
  {
    if lines == [] {
      assert cs + st.calls[|st.calls|..] == cs;
    } else {
      var next := effect(lines[0], st, first);
      var more := cs + next.calls[|st.calls|..];
      assert effect(lines[0], Rebase(st, cs), first) == Rebase(next, more);
      RunBlind(lines[1..], next, more, first + 1, effect);
      var r := Run(lines, st, first, effect);
      assert more + r.calls[|next.calls|..] == cs + r.calls[|st.calls|..];
    }
  }

  /** Where the j-th call comes from: the line it names, with j calls before. */
  ghost predicate From(lines: seq<string>, st: State, first: nat, effect: Effect, call: Call, j: nat) {
    && first <= call.lineno < first + |lines|
    && var s := Run(lines[..call.lineno - first], st, first, effect);
      && |s.calls| == j
      && effect(lines[call.lineno - first], s, call.lineno).calls == s.calls + [call]
  }

  lemma {:induction false} CallFrom(lines: seq<string>, st: State, first: nat, effect: Effect, j: nat)
    requires Blind(effect) && |st.calls| <= j < |Run(lines, st, first, effect).calls|
    ensures From(lines, st, first, effect, Run(lines, st, first, effect).calls[j], j)
  {
    var r := Run(lines, st, first, effect);
    var next := effect(lines[0], st, first);
    RunBlind(lines[1..], next, [], first + 1, effect);
    if j < |next.calls| {
      assert r.calls[j] == next.calls[j] && lines[..0] == [];
    } else {
      CallFrom(lines[1..], next, first + 1, effect, j);
      var k := r.calls[j].lineno - first;
      assert lines[..k][1..] == lines[1..][..k - 1];
    }
  }

  /** Two calls of a run never name the same line. */
  lemma OneCallPerLine(lines: seq<string>, effect: Effect, i: nat, j: nat)
    requires Blind(effect)
    requires var cs := Run(lines, INITIAL, 1, effect).calls;
      i < |cs| && j < |cs| && cs[i].lineno == cs[j].lineno
    ensures i == j
  {
    CallFrom(lines, INITIAL, 1, effect, i);
    CallFrom(lines, INITIAL, 1, effect, j);
  }

  /** A line may be exchanged for one that differs only in the call it makes. */
  lemma SwapLine(lines: seq<string>, effect: Effect, k: nat, line: string, call: Call)
    requires Blind(effect) && k < |lines|
    requires var s := Run(lines[..k], INITIAL, 1, effect); var was := effect(lines[k], s, k + 1);
      |was.calls| == |s.calls| + 1 && effect(line, s, k + 1) == Rebase(was, s.calls + [call])
    ensures var s, r := Run(lines[..k], INITIAL, 1, effect), Run(lines, INITIAL, 1, effect);
      |s.calls| < |r.calls| && Run(lines[k := line], INITIAL, 1, effect) == Rebase(r, r.calls[|s.calls| := call])
  {
    var s, r := Run(lines[..k], INITIAL, 1, effect), Run(lines, INITIAL, 1, effect);
    var was := effect(lines[k], s, k + 1);
    var rest := lines[k + 1..];
    SplitRun(lines, effect, k);
    assert lines[k := line][..k] == lines[..k] && lines[k := line][k + 1..] == rest;
    SplitRun(lines[k := line], effect, k);
    RunBlind(rest, was, s.calls + [call], k + 2, effect);
    assert s.calls + [call] + r.calls[|was.calls|..] == r.calls[|s.calls| := call];
  }

  lemma SplitRun(lines: seq<string>, effect: Effect, k: nat)
    requires k < |lines|
    ensures Run(lines, INITIAL, 1, effect)
      == Run(lines[k + 1..], effect(lines[k], Run(lines[..k], INITIAL, 1, effect), k + 1), k + 2, effect)
  {
    assert lines == lines[..k] + lines[k..] && lines[k..][1..] == lines[k + 1..];
    RunConcat(lines[..k], lines[k..], INITIAL, 1, effect);
  }

  // ---------------------------------------------------------------- one setting

  predicate PlainName(name: string) {
    0 < |name| < MAX_NAME && forall i :: 0 <= i < |name| ==> 'a' <= name[i] <= 'z' || name[i] == '_'
  }

  lemma ParamPrintable(name: string, value: int, lineno: nat)
    requires PlainName(name) && |Itoa(value)| <= 20
    ensures RT.Printable(RT.Field(name, Itoa(value)), lineno)
  {
    var v := Itoa(value);
    DigitsFit(if value < 0 then -value else value, 1);
    FindIs(name, "=:", 0, |name|);
    FindIs(v, "", 0, |v|);
  }

  /** The edited line sets the same name, whatever stood there before. */
  lemma ParamStep(line: string, name: string, value: int, s: State, lineno: nat, call: Call)
    requires PlainName(name) && |Itoa(value)| <= 20 && name == call.name && call.value.Some?
    requires Step(line, s, lineno, ACCEPT).calls == s.calls + [call]
    ensures Step(Param(name, value), s, lineno, ACCEPT)
      == Rebase(Step(line, s, lineno, ACCEPT), s.calls + [call.(value := Some(Itoa(value)))])
  {
    ParamPrintable(name, value, lineno);
    RT.FieldLine(name, Itoa(value), s.prevName, lineno);
    var item := Classify(line, s.prevName, lineno);
    CallOf(item, s, lineno, call);
  }

  lemma CallOf(item: Item, s: State, lineno: nat, call: Call)
    requires Apply(item, s, lineno, ACCEPT).calls == s.calls + [call] && call.value.Some?
    ensures call.section == s.section && call.lineno == lineno
    ensures (item.Pair? && item.name == call.name) || (item.More? && s.prevName == call.name)
  {
    var r := Apply(item, s, lineno, ACCEPT);
    assert r.calls[|s.calls|] == call;
  }

  /** Exchanging the line that set a name exchanges the value in its call. */
  lemma SwapSetting(lines: seq<string>, r: State, j: nat, value: int)
    requires r == Run(lines, INITIAL, 1, Stepper(ACCEPT)) && j < |r.calls|
    requires PlainName(r.calls[j].name) && r.calls[j].value.Some? && |Itoa(value)| <= 20
    ensures var call := r.calls[j];
      && 1 <= call.lineno <= |lines|
      && Run(lines[call.lineno - 1 := Param(call.name, value)], INITIAL, 1, Stepper(ACCEPT))
        == Rebase(r, r.calls[j := call.(value := Some(Itoa(value)))])
  {
    var effect, call := Stepper(ACCEPT), r.calls[j];
    var line, call' := Param(call.name, value), call.(value := Some(Itoa(value)));
    AcceptIsBlind();
    forall was, s | effect(was, s, call.lineno).calls == s.calls + [call]
      ensures effect(line, s, call.lineno) == Rebase(effect(was, s, call.lineno), s.calls + [call'])
    {
      ParamStep(was, call.name, value, s, call.lineno, call);
    }
    SwapCall(lines, effect, r, j, line, call');
  }

  lemma SwapCall(lines: seq<string>, effect: Effect, r: State, j: nat, line: string, call: Call)
    requires Blind(effect) && r == Run(lines, INITIAL, 1, effect) && j < |r.calls|
    requires var n := r.calls[j].lineno;
      forall was, s {:trigger effect(was, s, n)} :: effect(was, s, n).calls == s.calls + [r.calls[j]]
        ==> effect(line, s, n) == Rebase(effect(was, s, n), s.calls + [call])
    ensures var n := r.calls[j].lineno;
      1 <= n <= |lines| && Run(lines[n - 1 := line], INITIAL, 1, effect) == Rebase(r, r.calls[j := call])
  {
    CallFrom(lines, INITIAL, 1, effect, j);
    SwapLine(lines, effect, r.calls[j].lineno - 1, line, call);
  }

  lemma PlainNames()
    ensures PlainName("autoboot") && PlainName("autoboot_list")
  {
  }

  // ---------------------------------------------------------------- the round trip

  /** A file whose two settings lie among full lines that fit both readers, and a pair whose
      parameters fit their buffers. Behind the lines anything may follow but NUL. */
  ghost predicate Editable(lines: seq<string>, rest: string, a: int, b: Option<int>) {
    var c := Parsed(Concat(lines) + rest);
    && FullLines(lines) && (forall k :: 0 <= k < |lines| ==> |lines[k]| < INI_MAX_LINE)
    && c.autobootLine != -1 && c.listLine != -1 && c.autobootLine <= |lines| && c.listLine <= |lines|
    && EditedFit(lines, 1, EditOf(c, a, b)) && NUL !in rest
    && 0 <= a < 0x8000_0000 && (b.Some? ==> -1_000_000_000 < b.value < 0x8000_0000)
  }

  /** The calls after the edit: the last call for each name has the new value. */
  function NewCalls(calls: seq<Call>, a: int, b: Option<int>): seq<Call>
    requires Last(calls, "autoboot") >= 0 && Last(calls, "autoboot_list") >= 0
  {
    var i, j := Last(calls, "autoboot"), Last(calls, "autoboot_list");
    var cs := calls[i := calls[i].(value := Some(Itoa(a)))];
    if b.Some? then cs[j := calls[j].(value := Some(Itoa(b.value)))] else cs
  }

  lemma ItoaShort(n: int)
    requires -0x8000_0000 <= n < 0x8000_0000
    ensures |Itoa(n)| <= 11 && ToInt(Atoll(Itoa(n))) == n
  {
    assert Pow10(10) == 10_000_000_000;
    DigitsFit(if n < 0 then -n else n, 10);
    AtollOfItoa(n);
  }

  /** ... and they configure the new settings on the old lines. */
  lemma NewCallsConfigure(calls: seq<Call>, a: int, b: Option<int>)
    requires Configured(calls).autobootLine != -1 && Configured(calls).listLine != -1
    requires 0 <= a < 0x8000_0000 && (b.Some? ==> -0x8000_0000 <= b.value < 0x8000_0000)
    ensures Last(calls, "autoboot") >= 0 && Last(calls, "autoboot_list") >= 0
    ensures var c := Configured(calls);
      Configured(NewCalls(calls, a, b)) == c.(autoboot := a, list := if b.Some? then b.value else c.list)
  {
    ConfiguredIs(calls);
    var cs := NewCalls(calls, a, b);
    ConfiguredIs(cs);
    LastIsSame(calls, cs, "autoboot");
    LastIsSame(calls, cs, "autoboot_list");
    ItoaShort(a);
    if b.Some? {
      ItoaShort(b.value);
    }
  }

  /** Both settings were read, from different lines. */
  ghost predicate HasSettings(all: seq<string>, calls: seq<Call>) {
    && var c, i, j := Configured(calls), Last(calls, "autoboot"), Last(calls, "autoboot_list");
    && 0 <= i && 0 <= j && i != j && calls[i].value.Some? && calls[j].value.Some?
    && c.autobootLine == calls[i].lineno && c.listLine == calls[j].lineno
    && 1 <= c.autobootLine <= |all| && 1 <= c.listLine <= |all| && c.autobootLine != c.listLine
  }

  lemma Settings(all: seq<string>)
    requires var c := Configured(Run(all, INITIAL, 1, Stepper(ACCEPT)).calls);
      c.autobootLine != -1 && c.listLine != -1
    ensures HasSettings(all, Run(all, INITIAL, 1, Stepper(ACCEPT)).calls)
  {
    var calls := Run(all, INITIAL, 1, Stepper(ACCEPT)).calls;
    var i, j := Last(calls, "autoboot"), Last(calls, "autoboot_list");
    ConfiguredIs(calls);
    assert 1 <= calls[i].lineno <= |all| && 1 <= calls[j].lineno <= |all| && calls[i].lineno != calls[j].lineno by {
      AcceptIsBlind();
      CallFrom(all, INITIAL, 1, Stepper(ACCEPT), i);
      CallFrom(all, INITIAL, 1, Stepper(ACCEPT), j);
      if calls[i].lineno == calls[j].lineno {
        OneCallPerLine(all, Stepper(ACCEPT), i, j);
      }
    }
  }

  /** The lines with the new settings. */
  function NewLines(all: seq<string>, c: Config, a: int, b: Option<int>): seq<string>
    requires 1 <= c.autobootLine <= |all| && 1 <= c.listLine <= |all|
  {
    var one := all[c.autobootLine - 1 := Param("autoboot", a)];
    if b.Some? then one[c.listLine - 1 := Param("autoboot_list", b.value)] else one
  }

  lemma SwapBoth(all: seq<string>, r: State, a: int, b: Option<int>)
    requires 0 <= a < 0x8000_0000 && (b.Some? ==> -0x8000_0000 <= b.value < 0x8000_0000)
    requires r == Run(all, INITIAL, 1, Stepper(ACCEPT)) && HasSettings(all, r.calls)
    ensures Run(NewLines(all, Configured(r.calls), a, b), INITIAL, 1, Stepper(ACCEPT))
      == Rebase(r, NewCalls(r.calls, a, b))
  {
    var i, j := Last(r.calls, "autoboot"), Last(r.calls, "autoboot_list");
    var one := all[r.calls[i].lineno - 1 := Param("autoboot", a)];
    var r' := Rebase(r, r.calls[i := r.calls[i].(value := Some(Itoa(a)))]);
    assert Run(one, INITIAL, 1, Stepper(ACCEPT)) == r' by {
      ItoaShort(a);
      PlainNames();
      SwapSetting(all, r, i, a);
    }
    if b.Some? {
      var both := one[r.calls[j].lineno - 1 := Param("autoboot_list", b.value)];
      assert Run(both, INITIAL, 1, Stepper(ACCEPT))
        == Rebase(r', r'.calls[j := r.calls[j].(value := Some(Itoa(b.value)))]) by {
        ItoaShort(b.value);
        PlainNames();
        SwapSetting(one, r', j, b.value);
      }
    }
  }

  lemma ParamLine(name: string, value: int)
    requires PlainName(name) && |name| <= 20 && |Itoa(value)| <= 20
    ensures FullLine(Param(name, value)) && |Param(name, value)| < INI_MAX_LINE
  {
    ParamPrintable(name, value, 1);
    RT.PrintedLine(RT.Field(name, Itoa(value)), 1);
  }

  lemma EditedStayLines(lines: seq<string>, e: Edit)
    requires FullLines(lines) && (forall k :: 0 <= k < |lines| ==> |lines[k]| < INI_MAX_LINE)
    requires FullLine(e.text) && |e.text| < INI_MAX_LINE
    requires e.listText.Some? ==> FullLine(e.listText.value) && |e.listText.value| < INI_MAX_LINE
    ensures FullLines(EditedLines(lines, 1, e))
    ensures forall k :: 0 <= k < |lines| ==> |EditedLines(lines, 1, e)[k]| < INI_MAX_LINE
  {
  }

  /** Writing the settings and parsing again: the same result, the same calls but for the two
      values, and the new settings at the lines that were parsed before. */
  lemma RoundTrip(lines: seq<string>, rest: string, a: int, b: Option<int>)
    requires Editable(lines, rest, a, b)
    ensures var text := Concat(lines) + rest;
      var c, r := Parsed(text), ParseText(text, ACCEPT);
      var text' := Rewritten(text, 1, EditOf(c, a, b));
      && Last(r.calls, "autoboot") >= 0 && Last(r.calls, "autoboot_list") >= 0
      && ParseText(text', ACCEPT) == Rebase(r, NewCalls(r.calls, a, b))
      && Parsed(text') == c.(autoboot := a, list := if b.Some? then b.value else c.list)
  {
    var text, pieces := Concat(lines) + rest, CStrings(Pieces(rest, INI_MAX_LINE));
    var c, r := Parsed(text), ParseText(text, ACCEPT);
    var e := EditOf(c, a, b);
    var edited := EditedLines(lines, 1, e);
    assert r == Run(lines + pieces, INITIAL, 1, Stepper(ACCEPT)) by {
      ParseParts(lines, rest, ACCEPT);
    }
    Settings(lines + pieces);
    assert Rewritten(text, 1, e) == Concat(edited) + rest by {
      RewriteFile(lines, rest, e);
    }
    assert ParseText(Concat(edited) + rest, ACCEPT) == Run(edited + pieces, INITIAL, 1, Stepper(ACCEPT)) by {
      ParamsAreLines(a, b);
      EditedStayLines(lines, e);
      ParseParts(edited, rest, ACCEPT);
    }
    EditedAre(lines, pieces, c, a, b);
    SwapBoth(lines + pieces, r, a, b);
    NewCallsConfigure(r.calls, a, b);
  }

  /** The edit writes the lines with exactly the two settings exchanged, and what follows them. */
  lemma EditsExactly(lines: seq<string>, rest: string, c: Config, a: int, b: Option<int>, written: seq<string>)
    requires FullLines(lines) && NUL !in rest && |written| == |lines|
    requires c.autobootLine != c.listLine && c.autobootLine <= |lines| && c.listLine <= |lines|
    requires forall k :: 0 <= k < |lines| ==>
      if k + 1 == c.autobootLine then |lines[k]| < 1000 && written[k] == "autoboot=" + Itoa(a) + "\n"
      else if k + 1 == c.listLine && b.Some? then
        |lines[k]| < 1000 && written[k] == "autoboot_list=" + Itoa(b.value) + "\n"
      else written[k] == lines[k]
    ensures Rewritten(Concat(lines) + rest, 1, EditOf(c, a, b)) == Concat(written) + rest
  {
    var e := EditOf(c, a, b);
    assert "autoboot" + "=" == "autoboot=" && "autoboot_list" + "=" == "autoboot_list=";
    forall k | 0 <= k < |lines|
      ensures EditedLines(lines, 1, e)[k] == written[k] && (Touched(e, 1 + k) ==> |lines[k]| < FGETS_MAX)
    {
    }
    assert EditedLines(lines, 1, e) == written;
    RewriteFile(lines, rest, e);
  }

  lemma ParamsAreLines(a: int, b: Option<int>)
    requires 0 <= a < 0x8000_0000 && (b.Some? ==> -0x8000_0000 <= b.value < 0x8000_0000)
    ensures FullLine(Param("autoboot", a)) && |Param("autoboot", a)| < INI_MAX_LINE
    ensures b.Some? ==>
      FullLine(Param("autoboot_list", b.value)) && |Param("autoboot_list", b.value)| < INI_MAX_LINE
  {
    PlainNames();
    ItoaShort(a);
    ParamLine("autoboot", a);
    if b.Some? {
      ItoaShort(b.value);
      ParamLine("autoboot_list", b.value);
    }
  }

  lemma EditedAre(lines: seq<string>, pieces: seq<string>, c: Config, a: int, b: Option<int>)
    requires 1 <= c.autobootLine <= |lines| && 1 <= c.listLine <= |lines| && c.autobootLine != c.listLine
    ensures EditedLines(lines, 1, EditOf(c, a, b)) + pieces == NewLines(lines + pieces, c, a, b)
  {
  }
}
