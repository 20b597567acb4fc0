/** The global autoboot settings and their update (source/main_config.c, source/main.cpp). */
module AutobootStatus {
  import opened Options
  import opened IniText
  import opened IniLines
  import opened IniParse
  import opened Autoboot
  import opened AutobootTrip
  import opened Numbers

  /** The globals after get_hekate_autoboot_status; the first one gets the list setting. */
  function Refreshed(s: Config, text: string): Config {
    if ParseText(text, ACCEPT).error != 0 then s
    else var c := Parsed(text); c.(autoboot := if c.autoboot != 0 then c.list else 0)
  }

  /** ... with a file that may be missing. */
  function Looked(s: Config, file: Option<string>): Config {
    if file.Some? then Refreshed(s, file.value) else s
  }

  /** A pair of settings; the caller's counts if its first number is positive, or else the menu's. */
  type Pair = (int, int)

  function Chosen(given: Pair, menu: Pair): Pair {
    if given.0 <= 0 then menu else given
  }

  /** update_hekate_autoboot_param gives up before it touches a file. */
  predicate Refused(s: Config, enable: bool, a: int) {
    s.autobootLine == -1 || s.listLine == -1 || (if enable then a < 0 else s.autoboot != 0)
  }

  /** The file after update_hekate_autoboot_param. */
  function Updated(s: Config, enable: bool, pair: Pair, text: string): string {
    if Refused(s, enable, pair.0) then text
    else Rewritten(text, 1, if enable then EditOf(s, pair.0, Some(pair.1)) else EditOf(s, 0, None))
  }

  /** What the file system does during an update: the file it has, whether the temporary file
      opens, and what a failing copy leaves behind, if it fails. */
  datatype Disk = Disk(file: Option<string>, tempOpens: bool, broken: Option<Option<string>>)

  /** The globals and the file after an update. */
  datatype Outcome = Outcome(status: Config, file: Option<string>)

  function Update(s: Config, enable: bool, pair: Pair, disk: Disk): Outcome {
    if Refused(s, enable, pair.0) || disk.file.None? || !disk.tempOpens then Outcome(s, disk.file)
    else if disk.broken.Some? then Outcome(s, disk.broken.value)
    else
      var text := Updated(s, enable, pair, disk.file.value);
      Outcome(Refreshed(s, text), Some(text))
  }

  /** The struct the handler fills. */
  class HekateConfig {
    var autoboot: int
    var autobootLine: int
    var list: int
    var listLine: int

    ghost function Values(): Config
      reads this
    {
      Config(autoboot, autobootLine, list, listLine)
    }

    constructor ()
      ensures Values() == NOTHING
    {
      autoboot, autobootLine, list, listLine := 0, -1, 0, -1;
    }

    /** hekate_config_handler */
    method Handle(call: Call)
      modifies this
      ensures Values() == Configure(old(Values()), call)
    {
      if call.section == "config" && call.name == "autoboot" {
        match call.value
        case Some(v) => autoboot, autobootLine := ToInt(Atoll(v)), call.lineno;
        case None => autoboot, autobootLine := 0, -1;
      } else if call.section == "config" && call.name == "autoboot_list" {
        match call.value
        case Some(v) => list, listLine := ToInt(Atoll(v)), call.lineno;
        case None => list, listLine := 0, -1;
      }
    }

    /** The handler receives the calls of a parse in order. */
    method HandleAll(calls: seq<Call>)
      requires Values() == NOTHING
      modifies this
      ensures Values() == Configured(calls)
    {
      assert calls[..|calls|] == calls;
      for i := 0 to |calls|
        invariant Values() == Configured(calls[..i])
      {
        Handle(calls[i]);
        assert calls[..i + 1][..i] == calls[..i];
      }
    }
  }

  class Globals {
    var autoboot: int
    var autobootLine: int
    var list: int
    var listLine: int

    ghost function Status(): Config
      reads this
    {
      Config(autoboot, autobootLine, list, listLine)
    }

    constructor ()
      ensures Status() == NOTHING
    {
      autoboot, autobootLine, list, listLine := 0, -1, 0, -1;
    }

    /** get_hekate_autoboot_status */
    method GetStatus(file: Option<string>)
      modifies this
      ensures Status() == Looked(old(Status()), file)
    {
      if file.Some? {
        Parse(file.value);
      }
    }

    method Parse(text: string)
      modifies this
      ensures Status() == Refreshed(old(Status()), text)
    {
      var config := new HekateConfig();
      var scan := new Scan(ACCEPT);
      var stream := new Stream(text);
      var result := scan.Parse(stream);
      config.HandleAll(scan.calls);
      if result == 0 {
        autoboot, autobootLine := if config.autoboot != 0 then config.list else 0, config.autobootLine;
        list, listLine := config.list, config.listLine;
      }
    }

    /** update_hekate_autoboot_param; the parameters of the chosen pair must fit their buffers. */
    method UpdateParam(enable: bool, given: Pair, menu: Pair, disk: Disk) returns (file: Option<string>)
      requires enable && autobootLine != -1 && listLine != -1 ==> var pair := Chosen(given, menu);
        pair.0 < 0 || (pair.0 < 0x8000_0000 && -1_000_000_000 < pair.1 < 0x8000_0000)
      requires !Refused(Status(), enable, Chosen(given, menu).0) && disk.file.Some? && disk.tempOpens ==>
        Readable(disk.file.value)
      modifies this
      ensures Outcome(Status(), file) == Update(old(Status()), enable, Chosen(given, menu), disk)
    {
      file := disk.file;
      if autobootLine == -1 || listLine == -1 {
        return;
      }
      var pair := if given.0 <= 0 then menu else given;
      if enable && pair.0 < 0 {
        return;
      }
      if (autoboot != 0 && !enable) || disk.file.None? || !disk.tempOpens {
        return;
      }
      var e := Edit(autobootLine, Param("autoboot", if enable then pair.0 else 0), listLine,
                    if enable then Some(Param("autoboot_list", pair.1)) else None);
      var stream := new Stream(disk.file.value);
      var text := Rewrite(stream, e);
      if disk.broken.Some? {
        return disk.broken.value;
      }
      file := Some(text);
      GetStatus(file);
    }
  }

  /** The globals show the last settings of a file that is there and is parsed without an error, with
      the list setting in the place of the first unless that is 0; otherwise they stay. */
  lemma StatusIs(s: Config, file: Option<string>)
    ensures Looked(s, file) ==
      if file.None? || ParseText(file.value, ACCEPT).error > 0 then s
      else
        var c := Configured(ParseText(file.value, ACCEPT).calls);
        Config(if c.autoboot == 0 then 0 else c.list, c.autobootLine, c.list, c.listLine)
  {
  }

  /** Status, enable, status: the file shows the pair at the old lines, and so do the globals,
      except that the first shows the list setting, or 0 when a is 0. */
  lemma EnableShows(s: Config, lines: seq<string>, rest: string, a: int, b: int)
    requires Editable(lines, rest, a, Some(b)) && ParseText(Concat(lines) + rest, ACCEPT).error == 0
    ensures var text := Concat(lines) + rest;
      var s1 := Refreshed(s, text);
      var text' := Updated(s1, true, (a, b), text);
      && Parsed(text') == Parsed(text).(autoboot := a, list := b)
      && Refreshed(s1, text') == s1.(autoboot := if a != 0 then b else 0, list := b)
  {
    RoundTrip(lines, rest, a, Some(b));
  }

  /** The given pair reaches the file if its first number is positive, and otherwise the menu's. */
  lemma EnableChooses(s: Config, lines: seq<string>, rest: string, given: Pair, menu: Pair)
    requires ParseText(Concat(lines) + rest, ACCEPT).error == 0
    ensures var text := Concat(lines) + rest;
      var r := Update(Refreshed(s, text), true, Chosen(given, menu), Disk(Some(text), true, None));
      && (given.0 > 0 && Editable(lines, rest, given.0, Some(given.1)) ==>
            r.file.Some? && Parsed(r.file.value) == Parsed(text).(autoboot := given.0, list := given.1))
      && (given.0 <= 0 && Editable(lines, rest, menu.0, Some(menu.1)) ==>
            r.file.Some? && Parsed(r.file.value) == Parsed(text).(autoboot := menu.0, list := menu.1))
  {
    var pair := if given.0 > 0 then given else menu;
    if Editable(lines, rest, pair.0, Some(pair.1)) {
      EnableShows(s, lines, rest, pair.0, pair.1);
    }
  }

  /** Nothing changes without both settings in the file, for a negative number to enable, with the
      first global set when disabling, without the file or without the temporary one. */
  lemma UpdateRefused(s: Config, enable: bool, given: Pair, menu: Pair, disk: Disk)
    requires s.autobootLine == -1 || s.listLine == -1 || disk.file.None? || !disk.tempOpens
      || (enable && given.0 <= 0 && menu.0 < 0) || (!enable && s.autoboot != 0)
    ensures Update(s, enable, Chosen(given, menu), disk) == Outcome(s, disk.file)
  {
  }

  /** A copy that fails leaves the globals as they were. */
  lemma UpdateBroken(s: Config, enable: bool, given: Pair, menu: Pair, text: string, left: Option<string>)
    requires s.autobootLine != -1 && s.listLine != -1
    requires if enable then given.0 > 0 || menu.0 >= 0 else s.autoboot == 0
    ensures Update(s, enable, Chosen(given, menu), Disk(Some(text), true, Some(left))) == Outcome(s, left)
  {
  }

  /** Disabling works exactly on files where the autoboot is already off or takes no entry of
      the list: in the others the guard on the global refuses. */
  lemma DisableWorks(s: Config, lines: seq<string>, rest: string, pair: Pair)
    requires Editable(lines, rest, 0, None) && ParseText(Concat(lines) + rest, ACCEPT).error == 0
    ensures var text := Concat(lines) + rest;
      var c, text' := Parsed(text), Updated(Refreshed(s, text), false, pair, text);
      && (Parsed(text').autoboot == 0 <==> c.autoboot == 0 || c.list == 0)
      && Parsed(text') == if c.autoboot == 0 || c.list == 0 then c.(autoboot := 0) else c
  {
    RoundTrip(lines, rest, 0, None);
  }

  const SETTINGS := [RT.Head("config"), RT.Field("autoboot", Itoa(1)), RT.Field("autoboot_list", Itoa(1))]

  /** It fails on this file, which stays as it is. */
  lemma DisableFails(s: Config, pair: Pair)
    ensures var text := Concat(["[config]\n", "autoboot=1\n", "autoboot_list=1\n"]);
      && Parsed(text) == Config(1, 2, 1, 3)
      && Updated(Refreshed(s, text), false, pair, text) == text
  {
    var text := Concat(["[config]\n", "autoboot=1\n", "autoboot_list=1\n"]);
    SettingsText();
    SettingsPrintable(SETTINGS);
    assert ParseText(text, ACCEPT).calls == RT.Calls(SETTINGS, "", "", 1, true)
        && ParseText(text, ACCEPT).error == 0 by {
      RT.RoundTrip(SETTINGS, ACCEPT);
    }
    SettingsConfigured();
  }

  lemma SettingsText()
    ensures RT.PrintAll(SETTINGS) == ["[config]\n", "autoboot=1\n", "autoboot_list=1\n"]
  {
    assert Itoa(1) == "1";
    assert RT.Print(SETTINGS[0]) == "[config]\n";
    assert RT.Print(SETTINGS[1]) == "autoboot=1\n";
    assert RT.Print(SETTINGS[2]) == "autoboot_list=1\n";
    assert RT.PrintAll(SETTINGS) == [RT.Print(SETTINGS[0]), RT.Print(SETTINGS[1]), RT.Print(SETTINGS[2])];
  }

  lemma SettingsConfigured()
    ensures Configured(RT.Calls(SETTINGS, "", "", 1, true)) == Config(1, 2, 1, 3)
  {
    var one, two := Call("config", "autoboot", Some(Itoa(1)), 2), Call("config", "autoboot_list", Some(Itoa(1)), 3);
    var fields := SETTINGS[1..];
    assert fields[1..] == [SETTINGS[2]] && fields[1..][1..] == [];
    assert RT.Calls(fields[1..], "config", "autoboot", 3, true) == [two];
    assert RT.Calls(fields, "config", "", 2, true) == [one] + [two];
    assert RT.Calls(SETTINGS, "", "", 1, true) == [one, two];
    assert [one, two][..1] == [one] && [one][..0] == [];
    assert Configured([one]) == Configure(Configured([]), one);
    ItoaShort(1);
  }

  lemma SettingsPrintable(es: seq<RT.Entry>)
    requires es == [RT.Head("config"), RT.Field("autoboot", Itoa(1)), RT.Field("autoboot_list", Itoa(1))]
    ensures RT.AllPrintable(es, 1, "") && RT.Plain(es)
  {
    PlainNames();
    ItoaShort(1);
    ParamPrintable("autoboot", 1, 2);
    ParamPrintable("autoboot_list", 1, 3);
    ConfigPrintable("config");
    AllThree(es, es[0], es[1], es[2]);
  }

  lemma ConfigPrintable(title: string)
    requires title == "config"
    ensures RT.Printable(RT.Head(title), 1)
  {
    FindIs(title, "]", 0, 6);
    assert |RT.Body(RT.Head(title))| == 8;
  }

  lemma AllThree(es: seq<RT.Entry>, one: RT.Entry, two: RT.Entry, three: RT.Entry)
    requires es == [one, two, three] && one.Head? && two.Field? && three.Field?
    requires RT.Printable(one, 1) && RT.Printable(two, 2) && RT.Printable(three, 3)
    ensures RT.AllPrintable(es, 1, "") && RT.Plain(es)
  {
    var p := RT.NextPrev(two, RT.NextPrev(one, ""));
    assert es[1..] == [two, three] && [two, three][1..] == [three] && [three][1..] == [];
    assert RT.AllPrintable([three], 3, p);
    assert RT.AllPrintable([two, three], 2, "");
  }
}
