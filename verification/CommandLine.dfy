/** The Windows command-line builder: the text it means to produce, the parser of the
    Microsoft C runtime that must undo it, and the round trip between the two. */
module CommandLine {

  // ---- What the builder renders ----

  predicate IsBlank(c: char) {
    c == ' ' || c == '\t'
  }

  /** An argument is quoted when empty or when it contains a blank or a quote. */
  predicate NeedsQuotes(arg: string) {
    arg == "" || exists c <- arg :: IsBlank(c) || c == '"'
  }

  function Slashes(n: nat): string {
    seq(n, _ => '\\')
  }

  /** The rest of a quoted argument and its closing quote, after `n` pending backslashes. */
  function QuotedTail(arg: string, n: nat): string {
    if arg == "" then Slashes(2 * n) + "\""
    else if arg[0] == '\\' then QuotedTail(arg[1..], n + 1)
    else if arg[0] == '"' then Slashes(2 * n + 1) + "\"" + QuotedTail(arg[1..], 0)
    else Slashes(n) + [arg[0]] + QuotedTail(arg[1..], 0)
  }

  function RenderArg(arg: string): string {
    if NeedsQuotes(arg) then "\"" + QuotedTail(arg, 0) else arg
  }

  /** The whole line: the arguments in order, separated by single spaces. */
  function Render(argv: seq<string>): string {
    if argv == [] then ""
    else
      var before := Render(argv[..|argv| - 1]);
      before + (if before == "" then "" else " ") + RenderArg(argv[|argv| - 1])
  }

  // ---- The parser of the Microsoft C runtime ----

  /** One argument from the front of `s`, after `n` backslashes not yet interpreted.
      2n backslashes and a quote give n backslashes and open or close a quoted part; 2n+1
      and a quote give n backslashes and a literal quote; other backslashes are literal; a
      doubled quote inside a quoted part is one literal quote.  Returns the argument and the
      unread text, which starts with a blank if there is any. */
  function ScanArg(s: string, inQuotes: bool, n: nat): (r: (string, string))
    ensures |r.1| <= |s|
    ensures s != "" && !(IsBlank(s[0]) && !inQuotes) ==> |r.1| < |s|
  {
    if s == "" then (Slashes(n), "")
    else if s[0] == '\\' then ScanArg(s[1..], inQuotes, n + 1)
    else if s[0] == '"' then
      if n % 2 == 1 then
        var (arg, left) := ScanArg(s[1..], inQuotes, 0);
        (Slashes(n / 2) + "\"" + arg, left)
      else if inQuotes && |s| > 1 && s[1] == '"' then
        var (arg, left) := ScanArg(s[2..], inQuotes, 0);
        (Slashes(n / 2) + "\"" + arg, left)
      else
        var (arg, left) := ScanArg(s[1..], !inQuotes, 0);
        (Slashes(n / 2) + arg, left)
    else if !inQuotes && IsBlank(s[0]) then (Slashes(n), s)
    else
      var (arg, left) := ScanArg(s[1..], inQuotes, 0);
      (Slashes(n) + [s[0]] + arg, left)
  }

  function SkipBlanks(s: string): (r: string)
    ensures |r| <= |s|
    ensures r != "" ==> !IsBlank(r[0])
  {
    if s != "" && IsBlank(s[0]) then SkipBlanks(s[1..]) else s
  }

  function ParseArgs(s: string): seq<string>
    decreases |s|
  {
    var t := SkipBlanks(s);
    if t == "" then []
    else
      var (arg, left) := ScanArg(t, false, 0);
      [arg] + ParseArgs(left)
  }

  /** The program name: quotes toggle and are dropped, backslashes are ordinary. */
  function ScanProgram(s: string, inQuotes: bool): (string, string) {
    if s == "" then ("", "")
    else if s[0] == '"' then ScanProgram(s[1..], !inQuotes)
    else if !inQuotes && IsBlank(s[0]) then ("", s)
    else
      var (name, left) := ScanProgram(s[1..], inQuotes);
      ([s[0]] + name, left)
  }

  /** A whole command line: program name first, then the arguments. */
  function ParseLine(s: string): seq<string> {
    var (name, left) := ScanProgram(s, false);
    [name] + ParseArgs(left)
  }

  // ---- Round trip ----

  /** Text after an argument: nothing, or a separator. */
  predicate AtBoundary(s: string) {
    s == "" || IsBlank(s[0])
  }

  lemma {:induction false} ScanSlashes(k: nat, s: string, inQuotes: bool, n: nat)
    ensures ScanArg(Slashes(k) + s, inQuotes, n) == ScanArg(s, inQuotes, n + k)
    decreases k
  {
    if k == 0 {
      assert Slashes(0) + s == s;
    } else {
      assert (Slashes(k) + s)[1..] == Slashes(k - 1) + s;
      ScanSlashes(k - 1, s, inQuotes, n + 1);
    }
  }

  lemma ScanClosingQuote(n: nat, after: string)
    requires AtBoundary(after)
    ensures ScanArg(Slashes(2 * n) + "\"" + after, true, 0) == (Slashes(n), after)
  {
    var s := "\"" + after;
    assert Slashes(2 * n) + "\"" + after == Slashes(2 * n) + s;
    ScanSlashes(2 * n, s, true, 0);
    assert s[1..] == after;
    assert Slashes(n) + Slashes(0) == Slashes(n);
  }

  lemma Reassociate(a: string, b: string, c: string)
    ensures (a + b) + c == a + (b + c)
  {
  }

  /** Scanning after `k` backslashes, in whatever way the text is put together. */
  lemma ScanBehindSlashes(line: string, k: nat, s: string)
    requires line == Slashes(k) + s
    ensures ScanArg(line, true, 0) == ScanArg(s, true, k)
  {
    ScanSlashes(k, s, true, 0);
  }

  lemma ScanOddQuote(s: string, n: nat)
    requires s != "" && s[0] == '"'
    ensures ScanArg(s, true, 2 * n + 1)
         == (Slashes(n) + "\"" + ScanArg(s[1..], true, 0).0, ScanArg(s[1..], true, 0).1)
  {
    assert (2 * n + 1) % 2 == 1 && (2 * n + 1) / 2 == n;
  }

  /** The other two rules for a quote: after 2n backslashes it opens or closes a quoted part, and
      doubled inside one it is a literal quote. */
  lemma ScanEvenQuote(s: string, n: nat)
    requires s != "" && s[0] == '"'
    ensures ScanArg(s, false, 2 * n) == (Slashes(n) + ScanArg(s[1..], true, 0).0, ScanArg(s[1..], true, 0).1)
    ensures |s| > 1 && s[1] == '"' ==>
      ScanArg(s, true, 2 * n) == (Slashes(n) + "\"" + ScanArg(s[2..], true, 0).0, ScanArg(s[2..], true, 0).1)
    ensures |s| == 1 || s[1] != '"' ==>
      ScanArg(s, true, 2 * n) == (Slashes(n) + ScanArg(s[1..], false, 0).0, ScanArg(s[1..], false, 0).1)
  {
    assert 2 * n % 2 == 0 && 2 * n / 2 == n;
  }

  lemma ScanLiteralQuote(n: nat, tail: string)
    ensures ScanArg(Slashes(2 * n + 1) + "\"" + tail, true, 0)
         == (Slashes(n) + "\"" + ScanArg(tail, true, 0).0, ScanArg(tail, true, 0).1)
  {
    var s := "\"" + tail;
    Reassociate(Slashes(2 * n + 1), "\"", tail);
    ScanBehindSlashes(Slashes(2 * n + 1) + "\"" + tail, 2 * n + 1, s);
    ScanOddQuote(s, n);
    assert s[1..] == tail;
  }

  lemma ScanOther(s: string, n: nat)
    requires s != "" && s[0] != '\\' && s[0] != '"'
    ensures ScanArg(s, true, n) == (Slashes(n) + [s[0]] + ScanArg(s[1..], true, 0).0, ScanArg(s[1..], true, 0).1)
  {
  }

  lemma ScanOrdinary(n: nat, c: char, tail: string)
    requires c != '\\' && c != '"'
    ensures ScanArg(Slashes(n) + [c] + tail, true, 0)
         == (Slashes(n) + [c] + ScanArg(tail, true, 0).0, ScanArg(tail, true, 0).1)
  {
    var s := [c] + tail;
    Reassociate(Slashes(n), [c], tail);
    ScanBehindSlashes(Slashes(n) + [c] + tail, n, s);
    ScanOther(s, n);
    assert s[1..] == tail && s[0] == c;
  }

  /** Scanning a quoted tail gives the pending backslashes and the argument back, and stops
      right after the closing quote. */
  lemma {:induction false} ScanQuotedTail(arg: string, n: nat, after: string)
    requires AtBoundary(after)
    ensures ScanArg(QuotedTail(arg, n) + after, true, 0) == (Slashes(n) + arg, after)
    decreases |arg|
  {
    if arg == "" {
      ScanClosingQuote(n, after);
      assert Slashes(n) + arg == Slashes(n);
    } else if arg[0] == '\\' {
      ScanQuotedTail(arg[1..], n + 1, after);
      assert Slashes(n + 1) + arg[1..] == Slashes(n) + arg;
    } else {
      var tail := QuotedTail(arg[1..], 0) + after;
      ScanQuotedTail(arg[1..], 0, after);
      assert Slashes(0) + arg[1..] == arg[1..];
      assert Slashes(n) + [arg[0]] + arg[1..] == Slashes(n) + arg;
      if arg[0] == '"' {
        ScanLiteralQuote(n, tail);
        Reassociate(Slashes(2 * n + 1) + "\"", QuotedTail(arg[1..], 0), after);
      } else {
        ScanOrdinary(n, arg[0], tail);
        Reassociate(Slashes(n) + [arg[0]], QuotedTail(arg[1..], 0), after);
      }
    }
  }

  /** Text that neither quotes nor, outside quotes, blanks interrupt. */
  predicate Literal(s: string, inQuotes: bool) {
    forall i | 0 <= i < |s| :: s[i] != '"' && (inQuotes || !IsBlank(s[i]))
  }

  lemma {:induction false} ScanPlain(arg: string, n: nat, after: string)
    requires Literal(arg, false) && AtBoundary(after)
    ensures ScanArg(arg + after, false, n) == (Slashes(n) + arg, after)
    decreases |arg|
  {
    if arg == "" {
      assert arg + after == after && Slashes(n) + arg == Slashes(n);
    } else {
      assert (arg + after)[1..] == arg[1..] + after;
      if arg[0] == '\\' {
        ScanPlain(arg[1..], n + 1, after);
        assert Slashes(n + 1) + arg[1..] == Slashes(n) + arg;
      } else {
        ScanPlain(arg[1..], 0, after);
        assert Slashes(0) + arg[1..] == arg[1..];
        assert Slashes(n) + [arg[0]] + arg[1..] == Slashes(n) + arg;
      }
    }
  }

  /** One rendered argument scans back to itself. */
  lemma ScanRendered(arg: string, after: string)
    requires AtBoundary(after)
    ensures ScanArg(RenderArg(arg) + after, false, 0) == (arg, after)
    ensures RenderArg(arg) != "" && !IsBlank(RenderArg(arg)[0])
  {
    assert Slashes(0) + arg == arg;
    if NeedsQuotes(arg) {
      assert (RenderArg(arg) + after)[1..] == QuotedTail(arg, 0) + after;
      ScanQuotedTail(arg, 0, after);
      assert Slashes(0) + (Slashes(0) + arg) == arg;
    } else {
      assert forall i | 0 <= i < |arg| :: arg[i] in arg;
      ScanPlain(arg, 0, after);
    }
  }

  /** The arguments joined from the front, each preceded by a space. */
  function Joined(argv: seq<string>): string {
    if argv == [] then "" else " " + RenderArg(argv[0]) + Joined(argv[1..])
  }

  lemma {:induction false} JoinedSnoc(argv: seq<string>, arg: string)
    ensures Joined(argv + [arg]) == Joined(argv) + " " + RenderArg(arg)
    decreases |argv|
  {
    if argv != [] {
      assert (argv + [arg])[1..] == argv[1..] + [arg];
      JoinedSnoc(argv[1..], arg);
    }
  }

  lemma RenderSnoc(argv: seq<string>, arg: string)
    ensures Render(argv + [arg]) == Render(argv) + (if Render(argv) == "" then "" else " ") + RenderArg(arg)
  {
    assert (argv + [arg])[..|argv|] == argv;
  }

  lemma SpaceAssociates(a: string, b: string, c: string)
    requires a != ""
    ensures (a + b) + (if a + b == "" then "" else " ") + c == a + (b + " " + c)
  {
    assert |a + b| > 0;
  }

  lemma RenderArgNonEmpty(arg: string)
    ensures RenderArg(arg) != ""
  {
  }

  lemma {:induction false} RenderFront(first: string, rest: seq<string>)
    ensures Render([first] + rest) == RenderArg(first) + Joined(rest)
    decreases |rest|
  {
    if rest == [] {
      RenderSnoc([], first);
      assert [first] + rest == [] + [first];
    } else {
      RenderFrontStep(first, rest);
    }
  }

  lemma {:induction false} RenderFrontStep(first: string, rest: seq<string>)
    requires rest != []
    ensures Render([first] + rest) == RenderArg(first) + Joined(rest)
    decreases |rest|, 0
  {
    var init, last := rest[..|rest| - 1], rest[|rest| - 1];
    calc {
      Render([first] + rest);
      { assert [first] + rest == ([first] + init) + [last]; }
      Render(([first] + init) + [last]);
      { RenderSnoc([first] + init, last); RenderFront(first, init); }
      (RenderArg(first) + Joined(init)) + (if RenderArg(first) + Joined(init) == "" then "" else " ") + RenderArg(last);
      { RenderArgNonEmpty(first); SpaceAssociates(RenderArg(first), Joined(init), RenderArg(last)); }
      RenderArg(first) + (Joined(init) + " " + RenderArg(last));
      { JoinedSnoc(init, last); assert init + [last] == rest; }
      RenderArg(first) + Joined(rest);
    }
  }

  lemma RenderIsJoined(argv: seq<string>)
    requires argv != []
    ensures Render(argv) == RenderArg(argv[0]) + Joined(argv[1..])
  {
    RenderFront(argv[0], argv[1..]);
    assert [argv[0]] + argv[1..] == argv;
  }

  lemma ParseNext(t: string)
    requires t != "" && !IsBlank(t[0])
    ensures ParseArgs(" " + t) == [ScanArg(t, false, 0).0] + ParseArgs(ScanArg(t, false, 0).1)
  {
    assert (" " + t)[1..] == t;
    assert SkipBlanks(t) == t;
    assert SkipBlanks(" " + t) == t;
  }

  lemma {:induction false} ParseJoined(argv: seq<string>)
    ensures ParseArgs(Joined(argv)) == argv
    decreases |argv|
  {
    if argv != [] {
      var rest := Joined(argv[1..]);
      var t := RenderArg(argv[0]) + rest;
      Reassociate(" ", RenderArg(argv[0]), rest);
      ScanRendered(argv[0], rest);
      assert t[0] == RenderArg(argv[0])[0];
      ParseNext(t);
      ParseJoined(argv[1..]);
      assert [argv[0]] + argv[1..] == argv;
    }
  }

  /** Read by the argument rules alone, the line gives every argument back. */
  lemma ArgumentsRoundTrip(argv: seq<string>)
    ensures ParseArgs(Render(argv)) == argv
  {
    if argv != [] {
      RenderIsJoined(argv);
      ScanRendered(argv[0], Joined(argv[1..]));
      ParseJoined(argv[1..]);
      assert [argv[0]] + argv[1..] == argv;
    }
  }

  // ---- The program name ----

  predicate EndsWithSlash(arg: string) {
    arg != "" && arg[|arg| - 1] == '\\'
  }

  /** What makes a program name survive: no quote, and no final backslash if it is quoted. */
  predicate ProgramSafe(name: string) {
    '"' !in name && (NeedsQuotes(name) ==> !EndsWithSlash(name))
  }

  lemma {:induction false} ScanProgramHasNoQuote(s: string, inQuotes: bool)
    ensures '"' !in ScanProgram(s, inQuotes).0
    decreases |s|
  {
    if s != "" {
      ScanProgramHasNoQuote(s[1..], inQuotes);
      ScanProgramHasNoQuote(s[1..], !inQuotes);
    }
  }

  lemma {:induction false} ProgramLiteral(lit: string, s: string, inQuotes: bool)
    requires Literal(lit, inQuotes)
    ensures ScanProgram(lit + s, inQuotes)
         == (lit + ScanProgram(s, inQuotes).0, ScanProgram(s, inQuotes).1)
    decreases |lit|
  {
    if lit == "" {
      assert lit + s == s && lit + ScanProgram(s, inQuotes).0 == ScanProgram(s, inQuotes).0;
    } else {
      assert (lit + s)[1..] == lit[1..] + s;
      ProgramLiteral(lit[1..], s, inQuotes);
      assert [lit[0]] + (lit[1..] + ScanProgram(s, inQuotes).0) == lit + ScanProgram(s, inQuotes).0;
    }
  }

  /** How many backslashes follow the last other character, after `n` pending ones. */
  function FinalSlashes(arg: string, n: nat): nat {
    if arg == "" then n else FinalSlashes(arg[1..], if arg[0] == '\\' then n + 1 else 0)
  }

  lemma {:induction false} FinalSlashesEnd(arg: string, n: nat)
    ensures FinalSlashes(arg, n) > 0 <==> if arg == "" then n > 0 else EndsWithSlash(arg)
    decreases |arg|
  {
    if arg != "" {
      FinalSlashesEnd(arg[1..], if arg[0] == '\\' then n + 1 else 0);
      assert |arg| > 1 ==> arg[1..][|arg| - 2] == arg[|arg| - 1];
    }
  }

  lemma SlashesAdd(n: nat, m: nat)
    ensures Slashes(n + m) == Slashes(n) + Slashes(m)
  {
  }

  lemma Shift(a: string, c: char, b: string, d: string)
    ensures (a + [c]) + (b + d) == (a + ([c] + b)) + d
    ensures (a + [c]) + b == a + ([c] + b)
  {
  }

  /** Without quotes in it, a quoted tail is the text itself with its final backslashes doubled. */
  lemma {:induction false} QuotedTailWithoutQuotes(arg: string, n: nat)
    requires '"' !in arg
    ensures QuotedTail(arg, n) == (Slashes(n) + arg) + (Slashes(FinalSlashes(arg, n)) + "\"")
    decreases |arg|
  {
    if arg == "" {
      SlashesAdd(n, n);
      assert Slashes(n) + "" == Slashes(n);
      assert Slashes(n) + Slashes(n) + "\"" == Slashes(n) + (Slashes(n) + "\"");
    } else {
      var end := Slashes(FinalSlashes(arg, n)) + "\"";
      assert arg == [arg[0]] + arg[1..];
      Shift(Slashes(n), arg[0], arg[1..], end);
      if arg[0] == '\\' {
        QuotedTailWithoutQuotes(arg[1..], n + 1);
        SlashesAdd(n, 1);
        assert Slashes(1) == [arg[0]];
      } else {
        assert arg[0] in arg;
        QuotedTailWithoutQuotes(arg[1..], 0);
        assert Slashes(0) + arg[1..] == arg[1..];
      }
    }
  }

  lemma ScanQuotedProgram(name: string, after: string)
    requires '"' !in name && NeedsQuotes(name) && AtBoundary(after)
    ensures ScanProgram(RenderArg(name) + after, false) == (name + Slashes(FinalSlashes(name, 0)), after)
  {
    var k := FinalSlashes(name, 0);
    var lit, s := name + Slashes(k), "\"" + after;
    QuotedTailWithoutQuotes(name, 0);
    assert QuotedTail(name, 0) + after == lit + s;
    assert (RenderArg(name) + after)[1..] == QuotedTail(name, 0) + after;
    assert Literal(lit, true) by {
      forall i | 0 <= i < |lit| ensures lit[i] != '"' {
        if i < |name| { assert name[i] in name; }
      }
    }
    ProgramLiteral(lit, s, true);
    assert s[1..] == after;
    assert lit + "" == lit;
  }

  lemma ScanPlainProgram(name: string, after: string)
    requires !NeedsQuotes(name) && AtBoundary(after)
    ensures ScanProgram(RenderArg(name) + after, false) == (name, after)
  {
    assert forall i | 0 <= i < |name| :: name[i] in name;
    ProgramLiteral(name, after, false);
    assert name + "" == name;
  }

  /** A name without quotes is read up to its end; it gains backslashes exactly when it is
      quoted and ends with one. */
  lemma ScanProgramName(name: string, after: string)
    requires '"' !in name && AtBoundary(after)
    ensures ScanProgram(RenderArg(name) + after, false).1 == after
    ensures ScanProgram(RenderArg(name) + after, false).0 == name <==> ProgramSafe(name)
  {
    if NeedsQuotes(name) {
      var k := FinalSlashes(name, 0);
      FinalSlashesEnd(name, 0);
      ScanQuotedProgram(name, after);
      assert |name + Slashes(k)| == |name| + k;
      if k == 0 { assert name + Slashes(k) == name; }
    } else {
      ScanPlainProgram(name, after);
    }
  }

  // ---- What follows the program name ----

  /** Quotes in the name toggle the scanner as they stand, escaped or not: starting inside
      quotes, it meets no blank outside them and is inside them at the end. */
  predicate Balanced(name: string, inside: bool) {
    if name == "" then inside
    else if name[0] == '"' then Balanced(name[1..], !inside)
    else (inside || !IsBlank(name[0])) && Balanced(name[1..], inside)
  }

  /** The same, but it is outside at the end, so that the closing quote opens. */
  predicate EndsOutside(name: string, inside: bool) {
    if name == "" then !inside
    else if name[0] == '"' then EndsOutside(name[1..], !inside)
    else (inside || !IsBlank(name[0])) && EndsOutside(name[1..], inside)
  }

  /** What makes the arguments survive. */
  predicate TailSafe(name: string) {
    !NeedsQuotes(name) || Balanced(name, true)
  }

  /** The text that the program name leaves unread. */
  function Unread(s: string, inQuotes: bool): string {
    ScanProgram(s, inQuotes).1
  }

  lemma UnreadStep(k: nat, c: char, s: string, inQuotes: bool)
    ensures Unread(Slashes(k) + [c] + s, inQuotes)
         == if c == '"' then Unread(s, !inQuotes) else if !inQuotes && IsBlank(c) then [c] + s else Unread(s, inQuotes)
  {
    Reassociate(Slashes(k), [c], s);
    ProgramLiteral(Slashes(k), [c] + s, inQuotes);
    assert ([c] + s)[1..] == s;
  }

  lemma {:induction false} QuotedTailHasQuote(arg: string, n: nat)
    ensures '"' in QuotedTail(arg, n)
    decreases |arg|
  {
    if arg == "" {
      assert QuotedTail(arg, n)[2 * n] == '"';
    } else {
      QuotedTailHasQuote(arg[1..], n + 1);
      QuotedTailHasQuote(arg[1..], 0);
    }
  }

  /** What is left unread behind the quoted form of a name: exactly what follows it, what a
      quoted part still open leaves of that, or a part of the name itself. */
  lemma {:induction false} UnreadBehindTail(arg: string, n: nat, inside: bool, after: string)
    ensures Balanced(arg, inside) && AtBoundary(after) ==> Unread(QuotedTail(arg, n) + after, inside) == after
    ensures EndsOutside(arg, inside) ==> Unread(QuotedTail(arg, n) + after, inside) == Unread(after, true)
    ensures !Balanced(arg, inside) && !EndsOutside(arg, inside) ==> '"' in Unread(QuotedTail(arg, n) + after, inside)
    decreases |arg|
  {
    if arg == "" {
      UnreadStep(2 * n, '"', after, inside);
    } else if arg[0] == '\\' {
      UnreadBehindTail(arg[1..], n + 1, inside, after);
    } else {
      var tail := QuotedTail(arg[1..], 0);
      if arg[0] == '"' {
        Reassociate(Slashes(2 * n + 1) + "\"", tail, after);
        UnreadStep(2 * n + 1, '"', tail + after, inside);
        UnreadBehindTail(arg[1..], 0, !inside, after);
      } else {
        Reassociate(Slashes(n) + [arg[0]], tail, after);
        UnreadStep(n, arg[0], tail + after, inside);
        UnreadBehindTail(arg[1..], 0, inside, after);
        QuotedTailHasQuote(arg[1..], 0);
      }
    }
  }

  lemma UnreadBehindName(name: string, after: string)
    requires NeedsQuotes(name)
    ensures Unread(RenderArg(name) + after, false) == Unread(QuotedTail(name, 0) + after, true)
  {
    var s := RenderArg(name) + after;
    UnreadQuote(s);
    assert s[1..] == QuotedTail(name, 0) + after;
  }

  lemma UnreadQuote(s: string)
    requires s != "" && s[0] == '"'
    ensures Unread(s, false) == Unread(s[1..], true)
  {
  }

  lemma JoinedAtBoundary(argv: seq<string>)
    ensures AtBoundary(Joined(argv))
  {
  }

  /** Behind a tail-safe program name all arguments are read back. */
  lemma TailRoundTrip(argv: seq<string>)
    requires argv != [] && TailSafe(argv[0])
    ensures ParseLine(Render(argv))[1..] == argv[1..]
  {
    var after := Joined(argv[1..]);
    RenderIsJoined(argv);
    JoinedAtBoundary(argv[1..]);
    if NeedsQuotes(argv[0]) {
      UnreadBehindName(argv[0], after);
      UnreadBehindTail(argv[0], 0, true, after);
    } else {
      ScanPlainProgram(argv[0], after);
    }
    ParseJoined(argv[1..]);
  }

  lemma {:induction false} SkipBlanksKeeps(s: string, c: char)
    requires c in s && !IsBlank(c)
    ensures c in SkipBlanks(s)
    decreases |s|
  {
    if IsBlank(s[0]) {
      assert c in s[1..];
      SkipBlanksKeeps(s[1..], c);
    }
  }

  lemma {:induction false} UnreadInsideQuotes(s: string)
    requires '"' !in s
    ensures Unread(s, true) == ""
    decreases |s|
  {
    if s != "" {
      assert s[0] in s;
      UnreadInsideQuotes(s[1..]);
    }
  }

  lemma UnsafeNameAlone(name: string)
    requires !TailSafe(name) && !EndsOutside(name, true)
    ensures ParseLine(Render([name] + []))[1..] != []
  {
    assert [name] + [] == [name] && [name][1..] == [];
    RenderIsJoined([name]);
    UnreadBehindName(name, "");
    UnreadBehindTail(name, 0, true, "");
    SkipBlanksKeeps(Unread(RenderArg(name) + "", false), '"');
  }

  lemma UnsafeNameSwallows(name: string)
    requires NeedsQuotes(name) && EndsOutside(name, true)
    ensures ParseLine(Render([name] + ["x"]))[1..] == []
  {
    RenderFront(name, ["x"]);
    assert ["x"][1..] == [];
    assert Joined(["x"]) == " x";
    UnreadBehindName(name, " x");
    UnreadBehindTail(name, 0, true, " x");
    UnreadInsideQuotes(" x");
  }

  /** The condition is exact: whatever arguments follow are read back if and only if the name
      needs no quotes or the quotes in it are balanced. */
  lemma TailRoundTripIff(name: string)
    ensures (forall rest: seq<string> :: ParseLine(Render([name] + rest))[1..] == rest) <==> TailSafe(name)
  {
    if TailSafe(name) {
      forall rest: seq<string> ensures ParseLine(Render([name] + rest))[1..] == rest {
        TailRoundTrip([name] + rest);
        assert ([name] + rest)[1..] == rest;
      }
    } else if EndsOutside(name, true) {
      UnsafeNameSwallows(name);
      var rest := ["x"];
      assert ParseLine(Render([name] + rest))[1..] != rest;
    } else {
      UnsafeNameAlone(name);
      var rest: seq<string> := [];
      assert ParseLine(Render([name] + rest))[1..] != rest;
    }
  }

  /** For example, a program named by a single quote swallows its argument. */
  lemma QuoteNameSwallowsArgument()
    ensures ParseLine(Render(["\""] + ["x"]))[1..] == []
  {
    assert "\""[1..] == "" && '"' in "\"";
    UnsafeNameSwallows("\"");
  }

  // ---- The whole line ----

  lemma {:induction false} QuoteFreeIsBalanced(name: string)
    requires '"' !in name
    ensures Balanced(name, true)
    decreases |name|
  {
    if name != "" {
      assert name[0] in name;
      QuoteFreeIsBalanced(name[1..]);
    }
  }

  /** The whole line round-trips if and only if the program name has no quote and does not
      combine a need for quotes with a final backslash. */
  lemma LineRoundTrip(argv: seq<string>)
    requires argv != []
    ensures ParseLine(Render(argv)) == argv <==> ProgramSafe(argv[0])
  {
    if '"' in argv[0] {
      ScanProgramHasNoQuote(Render(argv), false);
    } else {
      QuoteFreeIsBalanced(argv[0]);
      TailRoundTrip(argv);
      RenderIsJoined(argv);
      JoinedAtBoundary(argv[1..]);
      ScanProgramName(argv[0], Joined(argv[1..]));
      Uncons(ParseLine(Render(argv)), argv);
    }
  }

  /** For example, a quoted directory name that ends with a backslash comes back with two. */
  lemma QuotedDirectoryIsMisread()
    ensures ParseLine(Render(["a b\\"])) == ["a b\\\\"]
  {
    var name := "a b\\";
    assert name[1] == ' ' && ' ' in name && '"' !in name;
    RenderIsJoined([name]);
    ScanQuotedProgram(name, "");
    assert FinalSlashes("", 1) == 1 && FinalSlashes("\\", 0) == 1;
    assert name[1..] == " b\\" && " b\\"[1..] == "b\\" && "b\\"[1..] == "\\" && "\\"[1..] == "";
    assert name + Slashes(1) == "a b\\\\";
  }

  lemma Uncons(a: seq<string>, b: seq<string>)
    requires a != [] && b != [] && a[1..] == b[1..]
    ensures a == b <==> a[0] == b[0]
  {
    assert a == [a[0]] + a[1..] && b == [b[0]] + b[1..];
  }
}
