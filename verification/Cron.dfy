/** Schedules: cron expressions, the simplified recurrence form, and the two conversions. */
module Cron {
  import opened Basics
  import opened Decimal

  datatype Preset = Hourly | Daily | Weekly | Advanced

  datatype Recurrence = Recurrence(preset: Preset, time: string, weekday: nat)

  const FALLBACK := Recurrence(Advanced, "02:00", 1)

  // ---- JavaScript strings ----

  /** White space and line terminators, the class that trim and \s share. */
  predicate IsSpace(c: char) {
    c in {' ', '\t', '\n', '\r', '\U{0B}', '\U{0C}', '\U{A0}', '\U{1680}', '\U{2028}', '\U{2029}', '\U{202F}',
          '\U{205F}', '\U{3000}', '\U{FEFF}'} || '\U{2000}' <= c <= '\U{200A}'
  }

  predicate NoSpace(s: string) {
    forall i | 0 <= i < |s| :: !IsSpace(s[i])
  }

  /** The words of a text: trim().split(/\s+/), and no word for an all-blank text (for which
      split gives one empty word; either way there are not five). */
  function Words(s: string): seq<string> {
    if s == "" then []
    else if IsSpace(s[0]) then Words(s[1..])
    else if |s| == 1 || IsSpace(s[1]) then [[s[0]]] + Words(s[1..])
    else
      var rest := Words(s[1..]);
      if rest == [] then [[s[0]]] else [[s[0]] + rest[0]] + rest[1..]
  }

  /** padStart(2, '0') of a numeral. */
  function Pad2(n: nat): string {
    if n < 10 then "0" + Print(n) else Print(n)
  }

  predicate Numeral(s: string) {
    s != "" && AllDigits(s)
  }

  /** +text for a numeral; exact below 2^53. */
  const MAX_EXACT: nat := 0x20_0000_0000_0000

  function TimeText(hour: nat, minute: nat): string {
    Pad2(hour) + ":" + Pad2(minute)
  }

  // ---- The two conversions ----

  function ParseCronToPreset(expr: string): Recurrence {
    ParseParts(Words(expr))
  }

  function ParseParts(parts: seq<string>): Recurrence {
    if |parts| != 5 then FALLBACK
    else
      var min, hour, dom, month, dow := parts[0], parts[1], parts[2], parts[3], parts[4];
      if dom != "*" || month != "*" then FALLBACK
      else if min == "0" && hour == "*" && dow == "*" then Recurrence(Hourly, "02:00", 1)
      else if Numeral(min) && Numeral(hour) && dow == "*" then
        Recurrence(Daily, TimeText(Value(hour), Value(min)), 1)
      else if Numeral(min) && Numeral(hour) && |dow| == 1 && '0' <= dow[0] <= '6' then
        Recurrence(Weekly, TimeText(Value(hour), Value(min)), Value(dow))
      else FALLBACK
  }

  /** +part if finite, else 0: here for parts that are numerals or not numbers at all. */
  function NumberOr0(part: string): nat {
    if Numeral(part) then Value(part) else 0
  }

  /** time.split(':'), its first two parts. */
  function SplitTime(time: string): (string, string) {
    var hh := UpTo(time, ':');
    var rest := time[|hh|..];
    (hh, if rest == "" then "" else UpTo(rest[1..], ':'))
  }

  function BuildCronFromPreset(state: Recurrence, advanced: string): string {
    match state.preset
    case Advanced => advanced
    case Hourly => "0 * * * *"
    case _ =>
      var (hh, mm) := SplitTime(state.time);
      Print(NumberOr0(mm)) + " " + Print(NumberOr0(hh)) + " * * " + (if state.preset.Daily? then "*" else Print(state.weekday))
  }

  // ---- Words of a built expression ----

  lemma {:induction false} WordsOfWord(w: string, rest: string)
    requires w != "" && NoSpace(w) && (rest == "" || IsSpace(rest[0]))
    ensures Words(w + rest) == [w] + Words(rest)
    decreases |w|
  {
    assert (w + rest)[1..] == w[1..] + rest;
    if |w| == 1 {
      assert w[1..] + rest == rest && [w[0]] == w;
    } else {
      WordsOfWord(w[1..], rest);
      assert [w[0]] + w[1..] == w;
      assert ([w[1..]] + Words(rest))[1..] == Words(rest);
    }
  }

  lemma WordsAfterSpace(rest: string)
    ensures Words(" " + rest) == Words(rest)
  {
    assert (" " + rest)[1..] == rest;
  }

  /** Five space-free fields joined by single spaces. */
  function Join5(a: string, b: string, c: string, d: string, e: string): string {
    a + (" " + (b + (" " + (c + (" " + (d + (" " + e)))))))
  }

  lemma WordsOfJoin5(a: string, b: string, c: string, d: string, e: string)
    requires a != "" && b != "" && c != "" && d != "" && e != ""
    requires NoSpace(a) && NoSpace(b) && NoSpace(c) && NoSpace(d) && NoSpace(e)
    ensures Words(Join5(a, b, c, d, e)) == [a, b, c, d, e]
  {
    assert e + "" == e;
    WordsOfWord(e, "");
    WordsAfterSpace(e);
    WordsOfWord(d, " " + e);
    WordsAfterSpace(d + (" " + e));
    WordsOfWord(c, " " + (d + (" " + e)));
    WordsAfterSpace(c + (" " + (d + (" " + e))));
    WordsOfWord(b, " " + (c + (" " + (d + (" " + e)))));
    WordsAfterSpace(b + (" " + (c + (" " + (d + (" " + e))))));
    WordsOfWord(a, " " + (b + (" " + (c + (" " + (d + (" " + e)))))));
  }

  lemma DigitsAreNoSpace(s: string)
    requires AllDigits(s)
    ensures NoSpace(s)
  {
  }

  // ---- The time field ----

  lemma Pad2RoundTrip(n: nat)
    ensures Numeral(Pad2(n)) && Value(Pad2(n)) == n && |Pad2(n)| >= 2
  {
    ValueOfPrint(n);
    if n < 10 {
      ValueOfZeroPrefixed(Pad2(n));
      assert Pad2(n)[1..] == Print(n);
    }
  }

  lemma SplitTimeOf(hour: nat, minute: nat)
    ensures SplitTime(TimeText(hour, minute)) == (Pad2(hour), Pad2(minute))
  {
    var h, m := Pad2(hour), Pad2(minute);
    Pad2RoundTrip(hour);
    Pad2RoundTrip(minute);
    assert TimeText(hour, minute) == h + [':'] + m;
    UpToAt(h, ':', m);
    assert (h + [':'] + m)[|h|..][1..] == m;
    UpToAbsent(m, ':');
  }

  lemma Join5Flat(a: string, b: string, e: string)
    ensures a + " " + b + " * * " + e == Join5(a, b, "*", "*", e)
  {
    assert " * * " + e == " " + ("*" + (" " + ("*" + (" " + e))));
    assert a + " " + b + " * * " + e == a + (" " + (b + (" * * " + e)));
  }

  /** The last field of a built daily or weekly expression. */
  function DayField(preset: Preset, weekday: nat): string {
    if preset.Daily? then "*" else Print(weekday)
  }

  /** Building from a time that parsing produced gives both numbers back, unpadded. */
  lemma BuildFromTime(hour: nat, minute: nat, preset: Preset, weekday: nat, advanced: string)
    requires preset.Daily? || preset.Weekly?
    ensures BuildCronFromPreset(Recurrence(preset, TimeText(hour, minute), weekday), advanced)
         == Join5(Print(minute), Print(hour), "*", "*", DayField(preset, weekday))
  {
    SplitTimeOf(hour, minute);
    Pad2RoundTrip(hour);
    Pad2RoundTrip(minute);
    Join5Flat(Print(minute), Print(hour), DayField(preset, weekday));
  }

  lemma WordsOfBuilt(hour: nat, minute: nat, preset: Preset, weekday: nat, advanced: string)
    requires preset.Daily? || preset.Weekly?
    ensures Words(BuildCronFromPreset(Recurrence(preset, TimeText(hour, minute), weekday), advanced))
         == [Print(minute), Print(hour), "*", "*", DayField(preset, weekday)]
  {
    BuildFromTime(hour, minute, preset, weekday, advanced);
    DigitsAreNoSpace(Print(minute));
    DigitsAreNoSpace(Print(hour));
    DigitsAreNoSpace(Print(weekday));
    WordsOfJoin5(Print(minute), Print(hour), "*", "*", DayField(preset, weekday));
  }

  // ---- Trimming ----

  function JsTrim(s: string): string {
    if s == "" then ""
    else if IsSpace(s[0]) then JsTrim(s[1..])
    else if IsSpace(s[|s| - 1]) then JsTrim(s[..|s| - 1])
    else s
  }

  lemma {:induction false} WordsIgnoreFinalSpace(s: string, c: char)
    requires IsSpace(c)
    ensures Words(s + [c]) == Words(s)
    decreases |s|
  {
    if s == "" {
      assert (s + [c])[1..] == "";
    } else {
      assert (s + [c])[1..] == s[1..] + [c];
      WordsIgnoreFinalSpace(s[1..], c);
    }
  }

  lemma {:induction false} WordsOfTrimmed(s: string)
    ensures Words(JsTrim(s)) == Words(s)
    decreases |s|
  {
    if s != "" {
      if IsSpace(s[0]) {
        WordsOfTrimmed(s[1..]);
      } else if IsSpace(s[|s| - 1]) {
        WordsOfTrimmed(s[..|s| - 1]);
        WordsIgnoreFinalSpace(s[..|s| - 1], s[|s| - 1]);
        assert s[..|s| - 1] + [s[|s| - 1]] == s;
      }
    }
  }

  // ---- Editing without changes ----

  /** A field up to the leading zeros of a numeral. */
  function Canonical(field: string): string {
    if Numeral(field) then StripZeros(field) else field
  }

  predicate SameField(a: string, b: string) {
    Canonical(a) == Canonical(b)
  }

  predicate SameFields(a: seq<string>, b: seq<string>) {
    |a| == |b| && forall i | 0 <= i < |a| :: SameField(a[i], b[i])
  }

  /** Numerals that JavaScript numbers hold exactly. */
  predicate Exact(parts: seq<string>) {
    forall i | 0 <= i < |parts| && Numeral(parts[i]) :: Value(parts[i]) < MAX_EXACT
  }

  lemma StripZerosIdempotent(s: string)
    ensures StripZeros(StripZeros(s)) == StripZeros(s)
    ensures s != "" ==> StripZeros(s) != ""
    ensures AllDigits(s) ==> AllDigits(StripZeros(s))
  {
  }

  lemma PrintedFieldIsSame(field: string)
    requires Numeral(field)
    ensures SameField(Print(Value(field)), field)
  {
    PrintOfValue(field);
    StripZerosIdempotent(field);
  }

  lemma HourlyWords()
    ensures Words("0 * * * *") == ["0", "*", "*", "*", "*"]
  {
    assert "0 * * * *" == Join5("0", "*", "*", "*", "*");
    WordsOfJoin5("0", "*", "*", "*", "*");
  }

  /** What a daily or weekly reading of five fields consists of. */
  lemma TimedParts(parts: seq<string>)
    requires ParseParts(parts).preset.Daily? || ParseParts(parts).preset.Weekly?
    ensures |parts| == 5 && Numeral(parts[0]) && Numeral(parts[1]) && parts[2] == "*" && parts[3] == "*"
    ensures ParseParts(parts).time == TimeText(Value(parts[1]), Value(parts[0]))
    ensures ParseParts(parts).preset.Daily? ==> parts[4] == "*"
    ensures ParseParts(parts).preset.Weekly? ==> Numeral(parts[4]) && ParseParts(parts).weekday == Value(parts[4])
  {
  }

  lemma RebuiltFields(min: string, hour: string, dow: string, preset: Preset, weekday: nat)
    requires Numeral(min) && Numeral(hour)
    requires if preset.Daily? then dow == "*" else Numeral(dow) && weekday == Value(dow)
    ensures SameFields([Print(Value(min)), Print(Value(hour)), "*", "*", DayField(preset, weekday)], [min, hour, "*", "*", dow])
  {
    PrintedFieldIsSame(min);
    PrintedFieldIsSame(hour);
    if !preset.Daily? { PrintedFieldIsSame(dow); }
  }

  /** A daily or weekly state with the time of two numerals rebuilds those numerals. */
  lemma TimedRebuild(min: string, hour: string, dow: string, preset: Preset, weekday: nat, advanced: string)
    requires Numeral(min) && Numeral(hour) && (preset.Daily? || preset.Weekly?)
    requires if preset.Daily? then dow == "*" else Numeral(dow) && weekday == Value(dow)
    ensures SameFields(Words(BuildCronFromPreset(Recurrence(preset, TimeText(Value(hour), Value(min)), weekday), advanced)),
                       [min, hour, "*", "*", dow])
  {
    WordsOfBuilt(Value(hour), Value(min), preset, weekday, advanced);
    RebuiltFields(min, hour, dow, preset, weekday);
  }

  lemma TimedEdit(parts: seq<string>, advanced: string)
    requires ParseParts(parts).preset.Daily? || ParseParts(parts).preset.Weekly?
    ensures SameFields(Words(BuildCronFromPreset(ParseParts(parts), advanced)), parts)
  {
    TimedParts(parts);
    var state := ParseParts(parts);
    var fields := [parts[0], parts[1], "*", "*", parts[4]];
    assert parts == fields;
    assert state == Recurrence(state.preset, TimeText(Value(parts[1]), Value(parts[0])), state.weekday);
    TimedRebuild(parts[0], parts[1], parts[4], state.preset, state.weekday, advanced);
  }

  lemma HourlyEdit(parts: seq<string>, advanced: string)
    requires ParseParts(parts).preset.Hourly?
    ensures Words(BuildCronFromPreset(ParseParts(parts), advanced)) == parts
  {
    HourlyWords();
    assert parts == ["0", "*", "*", "*", "*"];
  }

  lemma SameFieldsReflexive(parts: seq<string>)
    ensures SameFields(parts, parts)
  {
  }

  /** Opening a schedule and saving it unchanged keeps its five fields, up to leading zeros of
      numerals and white space; an expression that matches no preset is kept literally. */
  lemma EditingPreservesSchedule(expr: string)
    requires Exact(Words(expr))
    ensures SameFields(Words(BuildCronFromPreset(ParseCronToPreset(expr), JsTrim(expr))), Words(expr))
    ensures ParseCronToPreset(expr).preset.Advanced? ==>
      BuildCronFromPreset(ParseCronToPreset(expr), JsTrim(expr)) == JsTrim(expr)
  {
    var preset := ParseParts(Words(expr)).preset;
    SameFieldsReflexive(Words(expr));
    if preset.Advanced? {
      WordsOfTrimmed(expr);
    } else if preset.Hourly? {
      HourlyEdit(Words(expr), JsTrim(expr));
    } else {
      TimedEdit(Words(expr), JsTrim(expr));
    }
  }

  predicate AllSpace(s: string) {
    forall i | 0 <= i < |s| :: IsSpace(s[i])
  }

  /** `t` is what is left of `s` between white space. */
  predicate Between(s: string, before: string, t: string, after: string) {
    s == before + (t + after) && AllSpace(before) && AllSpace(after)
  }

  lemma WidenLeft(s: string, before: string, t: string, after: string)
    requires s != "" && IsSpace(s[0]) && Between(s[1..], before, t, after)
    ensures Between(s, [s[0]] + before, t, after)
  {
    assert s == [s[0]] + s[1..];
  }

  lemma WidenRight(s: string, before: string, t: string, after: string)
    requires s != "" && IsSpace(s[|s| - 1]) && Between(s[..|s| - 1], before, t, after)
    ensures Between(s, before, t, after + [s[|s| - 1]])
  {
    assert s == s[..|s| - 1] + [s[|s| - 1]];
  }

  /** Trimming removes white space at both ends, all of it, and nothing else. */
  lemma {:induction false} JsTrimIsExact(s: string) returns (before: string, after: string)
    ensures Between(s, before, JsTrim(s), after)
    ensures JsTrim(s) != "" ==> !IsSpace(JsTrim(s)[0]) && !IsSpace(JsTrim(s)[|JsTrim(s)| - 1])
    decreases |s|
  {
    before, after := "", "";
    if s != "" && IsSpace(s[0]) {
      before, after := JsTrimIsExact(s[1..]);
      WidenLeft(s, before, JsTrim(s), after);
      before := [s[0]] + before;
    } else if s != "" && IsSpace(s[|s| - 1]) {
      before, after := JsTrimIsExact(s[..|s| - 1]);
      WidenRight(s, before, JsTrim(s), after);
      after := after + [s[|s| - 1]];
    }
  }

  /** A time that is no time stands for midnight. */
  lemma MalformedTimeIsMidnight(time: string, preset: Preset, weekday: nat, advanced: string)
    requires ':' !in time && !Numeral(time) && (preset.Daily? || preset.Weekly?)
    ensures BuildCronFromPreset(Recurrence(preset, time, weekday), advanced) == "0 0 * * " + DayField(preset, weekday)
  {
    UpToAbsent(time, ':');
    assert Print(0) == "0";
    assert "0" + " " + "0" + " * * " == "0 0 * * ";
  }

  // ---- Which expressions are which preset ----

  /** Field by field, what each preset stands for; everything else is advanced. */
  lemma PresetIff(parts: seq<string>)
    ensures ParseParts(parts).preset.Hourly? <==> parts == ["0", "*", "*", "*", "*"]
    ensures ParseParts(parts).preset.Daily? <==>
      |parts| == 5 && Numeral(parts[0]) && Numeral(parts[1]) && parts[2..] == ["*", "*", "*"]
    ensures ParseParts(parts).preset.Weekly? <==>
      |parts| == 5 && Numeral(parts[0]) && Numeral(parts[1]) && parts[2..4] == ["*", "*"]
      && parts[4] in ["0", "1", "2", "3", "4", "5", "6"]
    ensures ParseParts(parts).preset.Hourly? || ParseParts(parts).preset.Advanced? ==>
      ParseParts(parts).time == "02:00" && ParseParts(parts).weekday == 1
  {
    if |parts| == 5 {
      assert parts == [parts[0], parts[1], parts[2], parts[3], parts[4]];
      assert parts[2..] == [parts[2], parts[3], parts[4]] && parts[2..4] == [parts[2], parts[3]];
      assert !Numeral("*") by { assert !IsDigit("*"[0]); }
      OneDigit(parts[4]);
    }
  }

  lemma OneDigit(s: string)
    ensures |s| == 1 && '0' <= s[0] <= '6' <==> s in ["0", "1", "2", "3", "4", "5", "6"]
  {
    if |s| == 1 { assert s == [s[0]]; }
  }

  // ---- Parsing what was built ----

  /** A daily or weekly form, built and parsed, keeps its preset, its time and (weekly) its day. */
  lemma BuiltPresetParsesBack(hour: nat, minute: nat, preset: Preset, weekday: nat, advanced: string)
    requires hour < MAX_EXACT && minute < MAX_EXACT && (preset.Daily? || (preset.Weekly? && weekday <= 6))
    ensures ParseCronToPreset(BuildCronFromPreset(Recurrence(preset, TimeText(hour, minute), weekday), advanced))
         == Recurrence(preset, TimeText(hour, minute), if preset.Daily? then 1 else weekday)
  {
    WordsOfBuilt(hour, minute, preset, weekday, advanced);
    PartsParseBack(hour, minute, preset, weekday);
  }

  lemma NumeralIsNotStar(s: string)
    requires Numeral(s)
    ensures s != "*"
  {
    assert IsDigit(s[0]);
  }

  lemma ParseDaily(min: string, hour: string)
    requires Numeral(min) && Numeral(hour)
    ensures ParseParts([min, hour, "*", "*", "*"]) == Recurrence(Daily, TimeText(Value(hour), Value(min)), 1)
  {
    NumeralIsNotStar(hour);
  }

  lemma ParseWeekly(min: string, hour: string, dow: string)
    requires Numeral(min) && Numeral(hour) && |dow| == 1 && '0' <= dow[0] <= '6' && Numeral(dow)
    ensures ParseParts([min, hour, "*", "*", dow]) == Recurrence(Weekly, TimeText(Value(hour), Value(min)), Value(dow))
  {
    NumeralIsNotStar(dow);
  }

  lemma PartsParseBack(hour: nat, minute: nat, preset: Preset, weekday: nat)
    requires preset.Daily? || (preset.Weekly? && weekday <= 6)
    ensures ParseParts([Print(minute), Print(hour), "*", "*", DayField(preset, weekday)])
         == Recurrence(preset, TimeText(hour, minute), if preset.Daily? then 1 else weekday)
  {
    ValueOfPrint(minute);
    ValueOfPrint(hour);
    ValueOfPrint(weekday);
    if preset.Daily? {
      ParseDaily(Print(minute), Print(hour));
    } else {
      ParseWeekly(Print(minute), Print(hour), Print(weekday));
    }
  }
}
