/** Loading what was saved. */
module ConfigProofs {
  import opened Basics
  import opened Decimal
  import opened Config
  import opened ConfigLines

  // ---- What trimming leaves of a saved value ----

  predicate Trimmed(s: string) {
    s == "" || (!IsSpace(s[0]) && !IsSpace(s[|s| - 1]))
  }


  /** The value read back for a saved value: what is left of it after trimming. */
  function ReadBack(v: string): string {
    Trim(RTrim(v))
  }

  lemma ReadBackIsIdentity(v: string)
    ensures ReadBack(v) == v <==> Trimmed(v)
  {
    RTrimShape(v);
    LTrimShape(RTrim(v));
    RTrimShape(LTrim(RTrim(v)));
  }

  // ---- One saved line ----

  predicate OneLine(s: string) {
    '\n' !in s && '\0' !in s
  }

  /** A key name as the saver writes it. */
  predicate PlainName(name: string) {
    && name != "" && name[0] != '#' && name[0] != ';' && !IsSpace(name[0]) && !IsSpace(name[|name| - 1])
    && '=' !in name && '\n' !in name && '\0' !in name
  }

  lemma ParseEntryLine(name: string, value: string)
    requires PlainName(name) && '\0' !in value
    ensures ParseLine(EntryLine(name, value)) == Entry(name, ReadBack(value))
  {
    var line := EntryLine(name, value);
    UpToAbsent(line, '\0');
    assert LTrim(line) == line;
    var a := name + "=";
    assert line == a + (value + "\n");
    RTrimAppend(a, value + "\n");
    assert (value + "\n")[..|value|] == value;
    var p := a + RTrim(value);
    assert Trim(line) == p;
    assert p == name + ['='] + RTrim(value);
    UpToAt(name, '=', RTrim(value));
    assert p[|name| + 1..] == RTrim(value);
    assert '=' in p by { assert p[|name|] == '='; }
    assert Trim(name) == name;
  }

  lemma LoadEntry(name: string, value: string, rest: string, c: Config)
    requires PlainName(name) && OneLine(value) && |name| + 1 + |value| + 1 < INI_LINE_MAX
    ensures LoadLines(EntryLine(name, value) + rest, c) == LoadLines(rest, Set(c, KeyOf(name), ReadBack(value)))
  {
    var line := name + "=" + value;
    assert EntryLine(name, value) + rest == line + "\n" + rest;
    FgetsLine(line, rest);
    ParseEntryLine(name, value);
  }

  /** The saver's names are the ones the loader compares with. */
  lemma KeyOfName(k: Key)
    ensures KeyOf(Name(k)) == k
  {
  }

  lemma IdNamesArePlain()
    ensures PlainName("agent_id") && PlainName("tenant_id") && PlainName("hostname")
  {
  }

  lemma SystemNamesArePlain()
    ensures PlainName("os_name") && PlainName("os_version") && PlainName("arch")
  {
  }

  lemma EndpointNameIsPlain()
    ensures PlainName("ws_endpoint")
  {
  }

  lemma HardwareNameIsPlain()
    ensures PlainName("hardware_id")
  {
  }

  lemma FingerprintNameIsPlain()
    ensures PlainName("ca_fingerprint")
  {
  }

  lemma MetricsNameIsPlain()
    ensures PlainName("metrics_interval_sec")
  {
  }

  lemma HeartbeatNameIsPlain()
    ensures PlainName("heartbeat_interval_sec")
  {
  }

  lemma NameIsPlain(k: Key)
    requires k != Unknown
    ensures PlainName(Name(k)) && |Name(k)| <= 22
  {
    IdNamesArePlain();
    SystemNamesArePlain();
    EndpointNameIsPlain();
    HardwareNameIsPlain();
    FingerprintNameIsPlain();
    MetricsNameIsPlain();
    HeartbeatNameIsPlain();
  }

  ghost predicate EntryWritable(e: (Key, string)) {
    e.0 != Unknown && OneLine(e.1) && |e.1| < 1000
  }

  function SetAll(c: Config, es: seq<(Key, string)>): Config
    decreases |es|
  {
    if es == [] then c else SetAll(Set(c, es[0].0, ReadBack(es[0].1)), es[1..])
  }

  ghost predicate Writable(es: seq<(Key, string)>) {
    forall i | 0 <= i < |es| :: EntryWritable(es[i])
  }

  lemma {:induction false} LoadEntries(es: seq<(Key, string)>, c: Config)
    requires Writable(es)
    ensures LoadLines(EntriesText(es), c) == SetAll(c, es)
    decreases |es|
  {
    if es != [] {
      assert EntryWritable(es[0]);
      NameIsPlain(es[0].0);
      KeyOfName(es[0].0);
      LoadEntry(Name(es[0].0), es[0].1, EntriesText(es[1..]), c);
      LoadEntries(es[1..], Set(c, es[0].0, ReadBack(es[0].1)));
    }
  }

  // ---- A line that is too long ----

  lemma FgetsFull(piece: string, line: string)
    requires |piece| == INI_LINE_MAX - 1 && '\n' !in piece && '\n' !in line
    ensures Fgets(piece + (line + "\n")) == (piece, line + "\n")
  {
    var file := piece + (line + "\n");
    UpToAt(piece + line, '\n', "");
    assert piece + line + ['\n'] + "" == file;
    assert file[..|piece|] == piece && file[|piece|..] == line + "\n";
  }

  /** The end of a comment that is too long for the buffer is acted on: whatever the comment
      says in its first 1023 characters, the entry behind them takes effect. */
  lemma LongCommentIsActedOn(filler: string, name: string, value: string, c: Config)
    requires |filler| == 1022 && '\n' !in filler
    requires PlainName(name) && OneLine(value) && |name| + 1 + |value| + 1 < INI_LINE_MAX
    ensures LoadLines(("#" + filler) + EntryLine(name, value), c) == Set(c, KeyOf(name), ReadBack(value))
  {
    FgetsFull("#" + filler, name + "=" + value);
    assert "#" + filler == "" + (['#'] + filler);
    CommentIsIgnored("", '#', filler);
    assert EntryLine(name, value) + "" == EntryLine(name, value);
    LoadEntry(name, value, "", c);
  }

  /** So a single comment line can set the agent id. */
  lemma LongCommentSetsAgentId(filler: string, c: Config)
    requires |filler| == 1022 && '\n' !in filler
    ensures LoadLines(("#" + filler) + EntryLine("agent_id", "other"), c) == c.(agentId := "other")
  {
    IdNamesArePlain();
    LongCommentIsActedOn(filler, "agent_id", "other", c);
    ReadBackIsIdentity("other");
  }

  // ---- Round trip ----

  function Strings(c: Config): seq<string> {
    [c.agentId, c.tenantId, c.wsEndpoint, c.hostname, c.osName, c.osVersion, c.arch, c.hardwareId, c.caFingerprint]
  }

  /** What the C structure can hold: terminated strings within their buffers and 32-bit ints. */
  predicate Storable(c: Config) {
    && (forall i | 0 <= i < 9 :: '\0' !in Strings(c)[i])
    && |c.agentId| < 37 && |c.tenantId| < 37 && |c.wsEndpoint| < 512 && |c.hostname| < 256 && |c.osName| < 32
    && |c.osVersion| < 128 && |c.arch| < 16 && |c.hardwareId| < 37 && |c.caFingerprint| < 65
    && -0x8000_0000 <= c.metricsInterval < 0x8000_0000 && -0x8000_0000 <= c.heartbeatInterval < 0x8000_0000
  }

  predicate NoNewlines(c: Config) {
    forall i | 0 <= i < 9 :: '\n' !in Strings(c)[i]
  }

  predicate AllTrimmed(c: Config) {
    forall i | 0 <= i < 9 :: Trimmed(Strings(c)[i])
  }

  /** The configuration with every string read back. */
  function ReadBackAll(c: Config): Config {
    Config(ReadBack(c.agentId), ReadBack(c.tenantId), ReadBack(c.wsEndpoint), ReadBack(c.hostname), ReadBack(c.osName),
           ReadBack(c.osVersion), ReadBack(c.arch), ReadBack(c.hardwareId), ReadBack(c.caFingerprint),
           c.metricsInterval, c.heartbeatInterval)
  }

  lemma {:induction false} LeadingDigitsAll(s: string)
    requires AllDigits(s)
    ensures LeadingDigits(s) == s
    decreases |s|
  {
    if s != "" { LeadingDigitsAll(s[1..]); }
  }

  lemma DigitsReadBack(d: string)
    requires AllDigits(d) && d != ""
    ensures OneLine(d) && Trimmed(d) && Atoi(d) == Value(d)
  {
    LeadingDigitsAll(d);
    assert IsDigit(d[0]) && IsDigit(d[|d| - 1]);
  }

  lemma NegativeReadsBack(d: string)
    requires AllDigits(d) && d != ""
    ensures OneLine("-" + d) && Trimmed("-" + d) && Atoi("-" + d) == 0 - Value(d)
  {
    DigitsReadBack(d);
    LeadingDigitsAll(d);
    assert ("-" + d)[1..] == d && ("-" + d)[|d|] == d[|d| - 1];
  }

  /** An int is read back exactly, and prints as one short trimmed word. */
  lemma IntRoundTrip(n: int)
    requires -0x8000_0000 <= n < 0x8000_0000
    ensures Atoi(ReadBack(PrintInt(n))) == n
    ensures OneLine(PrintInt(n)) && |PrintInt(n)| <= 11
  {
    var m := if n < 0 then -n else n;
    assert Pow10(10) == 10000000000;
    PrintLength(m, 10, Pow10(10));
    ValueOfPrint(m);
    DigitsReadBack(Print(m));
    NegativeReadsBack(Print(m));
    ReadBackIsIdentity(PrintInt(n));
  }

  lemma ReadBackFits(v: string, size: nat)
    requires |v| < size
    ensures CopyField(ReadBack(v), size) == ReadBack(v)
  {
    RTrimShape(v);
    LTrimShape(RTrim(v));
    RTrimShape(LTrim(RTrim(v)));
  }

  lemma SetAllAt(c: Config, es: seq<(Key, string)>, i: nat)
    requires i < |es|
    ensures SetAll(c, es[i..]) == SetAll(Set(c, es[i].0, ReadBack(es[i].1)), es[i + 1..])
  {
    assert es[i..][1..] == es[i + 1..];
  }

  lemma {:induction false} SetAllEntries(c: Config, d: Config)
    requires Storable(c)
    ensures SetAll(d, Entries(c)) == ReadBackAll(c)
  {
    var es := Entries(c);
    ReadBackFits(c.agentId, 37);
    ReadBackFits(c.tenantId, 37);
    ReadBackFits(c.wsEndpoint, 512);
    ReadBackFits(c.hostname, 256);
    ReadBackFits(c.osName, 32);
    ReadBackFits(c.osVersion, 128);
    ReadBackFits(c.arch, 16);
    ReadBackFits(c.hardwareId, 37);
    ReadBackFits(c.caFingerprint, 65);
    IntRoundTrip(c.metricsInterval);
    IntRoundTrip(c.heartbeatInterval);
    var d1 := d.(agentId := ReadBack(c.agentId));
    var d2 := d1.(tenantId := ReadBack(c.tenantId));
    var d3 := d2.(wsEndpoint := ReadBack(c.wsEndpoint));
    var d4 := d3.(hostname := ReadBack(c.hostname));
    var d5 := d4.(osName := ReadBack(c.osName));
    var d6 := d5.(osVersion := ReadBack(c.osVersion));
    var d7 := d6.(arch := ReadBack(c.arch));
    var d8 := d7.(hardwareId := ReadBack(c.hardwareId));
    var d9 := d8.(caFingerprint := ReadBack(c.caFingerprint));
    var d10 := d9.(metricsInterval := c.metricsInterval);
    assert es[0..] == es && es[11..] == [];
    SetAllAt(d, es, 0);
    SetAllAt(d1, es, 1);
    SetAllAt(d2, es, 2);
    SetAllAt(d3, es, 3);
    SetAllAt(d4, es, 4);
    SetAllAt(d5, es, 5);
    SetAllAt(d6, es, 6);
    SetAllAt(d7, es, 7);
    SetAllAt(d8, es, 8);
    SetAllAt(d9, es, 9);
    SetAllAt(d10, es, 10);
  }

  lemma StringsAreOneLine(c: Config, i: nat)
    requires Storable(c) && NoNewlines(c) && i < 9
    ensures OneLine(Strings(c)[i]) && |Strings(c)[i]| < 1000
  {
  }

  lemma EntriesAreWritable(c: Config)
    requires Storable(c) && NoNewlines(c)
    ensures Writable(Entries(c))
  {
    IntRoundTrip(c.metricsInterval);
    IntRoundTrip(c.heartbeatInterval);
    forall i | 0 <= i < 11 ensures EntryWritable(Entries(c)[i]) {
      if i < 9 {
        StringsAreOneLine(c, i);
        assert Entries(c)[i].1 == Strings(c)[i];
      }
    }
  }

  lemma HeaderTexts()
    ensures OneLine(TITLE) && OneLine(WARNING) && |TITLE| < 100 && |WARNING| < 100
  {
    assert OneLine(" Leo-One Agent — ");
    assert OneLine("configuration générée");
    assert OneLine(" automatiquement");
    assert OneLine(" Ne pas modifier");
    assert OneLine(" manuellement sauf");
    assert OneLine(" agent_id et ws_endpoint");
  }

  lemma CommentLine(text: string, rest: string, c: Config)
    requires OneLine(text) && |text| < 100
    ensures LoadLines(("#" + text) + "\n" + rest, c) == LoadLines(rest, c)
  {
    LoadShortLine("#" + text, rest, c);
    CommentIsIgnored("", '#', text + "\n");
    assert ("#" + text) + "\n" == "" + (['#'] + (text + "\n"));
  }

  lemma BlankLine(rest: string, c: Config)
    ensures LoadLines("\n" + rest, c) == LoadLines(rest, c)
  {
    assert "" + "\n" == "\n";
    LoadShortLine("", rest, c);
    BlankIsIgnored("\n");
  }

  lemma CommentsAreIgnored(first: string, second: string, rest: string, c: Config)
    requires OneLine(first) && |first| < 100 && OneLine(second) && |second| < 100
    ensures LoadLines(("#" + first) + "\n" + (("#" + second) + "\n" + "\n") + rest, c) == LoadLines(rest, c)
  {
    var r2 := "\n" + rest;
    var r1 := ("#" + second) + "\n" + r2;
    assert ("#" + first) + "\n" + (("#" + second) + "\n" + "\n") + rest == ("#" + first) + "\n" + r1;
    CommentLine(first, r1, c);
    CommentLine(second, r2, c);
    BlankLine(rest, c);
  }

  lemma HeaderIsIgnored(rest: string, c: Config)
    ensures LoadLines(HEADER + rest, c) == LoadLines(rest, c)
  {
    HeaderTexts();
    CommentsAreIgnored(TITLE, WARNING, rest, c);
  }

  lemma LoadOfSaved(c: Config)
    requires Storable(c) && NoNewlines(c)
    ensures LoadLines(Saved(c), DEFAULTS) == ReadBackAll(c)
  {
    HeaderIsIgnored(EntriesText(Entries(c)), DEFAULTS);
    EntriesAreWritable(c);
    LoadEntries(Entries(c), DEFAULTS);
    SetAllEntries(c, DEFAULTS);
  }

  // ---- A loaded value never holds a newline ----

  /** Text whose only newline, if any, is its last character. */
  predicate NewlineLast(s: string) {
    forall i | 0 <= i < |s| - 1 :: s[i] != '\n'
  }

  lemma TrimDropsNewline(s: string)
    requires NewlineLast(s)
    ensures '\n' !in Trim(s)
  {
    LTrimShape(s);
    var l := LTrim(s);
    assert NewlineLast(l);
    RTrimShape(l);
    var t := RTrim(l);
    forall i | 0 <= i < |t| ensures t[i] != '\n' {
      assert t[i] == l[i];
    }
  }

  lemma ParsedValueHasNoNewline(file: string)
    requires file != ""
    ensures ParseLine(Fgets(file).0).Entry? ==> '\n' !in ParseLine(Fgets(file).0).value
  {
    var line := Fgets(file).0;
    var body := UpTo(file, '\n');
    assert NewlineLast(line) by {
      forall i | 0 <= i < |line| - 1 ensures line[i] != '\n' {
        assert line[i] == file[i] == body[i];
        assert body[i] in body;
      }
    }
    var text := UpTo(line, '\0');
    assert NewlineLast(text);
    var p := Trim(text);
    TrimDropsNewline(text);
    var key := UpTo(p, '=');
    if |key| < |p| {
      TrimDropsNewline(p[|key| + 1..]);
    } else {
      TrimDropsNewline("");
    }
  }

  lemma SetKeepsNoNewlines(c: Config, k: Key, v: string)
    requires NoNewlines(c) && '\n' !in v
    ensures NoNewlines(Set(c, k, v))
  {
    var c' := Set(c, k, v);
    forall i | 0 <= i < 9 ensures '\n' !in Strings(c')[i] {
      assert '\n' !in Strings(c)[i];
    }
  }

  lemma {:induction false} LoadedHasNoNewlines(file: string, c: Config)
    requires NoNewlines(c)
    ensures NoNewlines(LoadLines(file, c))
    decreases |file|
  {
    if file != "" {
      var l := ParseLine(Fgets(file).0);
      ParsedValueHasNoNewline(file);
      if l.Entry? { SetKeepsNoNewlines(c, KeyOf(l.key), l.value); }
      LoadedHasNoNewlines(Fgets(file).1, Apply(c, l));
    }
  }

  lemma ReadBackAllIsIdentity(c: Config)
    ensures ReadBackAll(c) == c <==> AllTrimmed(c)
  {
    forall i | 0 <= i < 9 ensures ReadBack(Strings(c)[i]) == Strings(c)[i] <==> Trimmed(Strings(c)[i]) {
      ReadBackIsIdentity(Strings(c)[i]);
    }
    var fs := Strings(c);
    assert AllTrimmed(c) <==> (Trimmed(fs[0]) && Trimmed(fs[1]) && Trimmed(fs[2]) && Trimmed(fs[3]) && Trimmed(fs[4])
                               && Trimmed(fs[5]) && Trimmed(fs[6]) && Trimmed(fs[7]) && Trimmed(fs[8]));
  }

  /** Whatever a configuration structure can hold, loading the saved file gives it back if and
      only if it is valid and its strings are trimmed and free of newlines; '=' and '#' inside
      a value do no harm. */
  lemma SaveLoadRoundTrip(c: Config)
    requires Storable(c)
    ensures Loaded(Saved(c)) == Ok(c) <==> IsValid(c) && NoNewlines(c) && AllTrimmed(c)
  {
    if NoNewlines(c) {
      LoadOfSaved(c);
      ReadBackAllIsIdentity(c);
    } else {
      assert NoNewlines(DEFAULTS);
      LoadedHasNoNewlines(Saved(c), DEFAULTS);
    }
  }
}
