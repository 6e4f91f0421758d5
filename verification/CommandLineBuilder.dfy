/** The builder as it runs: it writes into a bounded buffer through a moving index, drops
    what does not fit and looks at the index only at the end. */
module CommandLineBuilder {
  import opened CommandLine

  /** `line` is the text meant so far: the index is its length, or the buffer size once that
      is reached, and as long as it is not reached the buffer starts with that very text. */
  ghost predicate Written(dest: array<char>, size: nat, pos: nat, line: string)
    reads dest
  {
    && size <= dest.Length
    && pos == (if |line| < size then |line| else size)
    && (|line| < size ==> dest[..pos] == line)
  }

  /** Nothing at or past `size` was written. */
  ghost predicate Untouched(now: string, before: string, size: nat) {
    |now| == |before| && forall k | size <= k < |now| :: now[k] == before[k]
  }

  method Put(dest: array<char>, size: nat, pos: nat, c: char, ghost line: string) returns (next: nat)
    requires Written(dest, size, pos, line)
    modifies dest
    ensures Written(dest, size, next, line + [c])
    ensures Untouched(dest[..], old(dest[..]), size)
  {
    next := pos;
    if next < size {
      dest[next] := c;
      next := next + 1;
      assert |line| + 1 < size ==> dest[..next] == line + [c];
    }
  }

  method PutSlashes(dest: array<char>, size: nat, pos: nat, n: nat, ghost line: string) returns (next: nat)
    requires Written(dest, size, pos, line)
    modifies dest
    ensures Written(dest, size, next, line + Slashes(n))
    ensures Untouched(dest[..], old(dest[..]), size)
  {
    next := pos;
    var i := 0;
    assert line + Slashes(0) == line;
    while i < n && next < size
      invariant i <= n
      invariant Written(dest, size, next, line + Slashes(i))
      invariant Untouched(dest[..], old(dest[..]), size)
    {
      next := Put(dest, size, next, '\\', line + Slashes(i));
      assert line + Slashes(i) + ['\\'] == line + Slashes(i + 1);
      i := i + 1;
    }
  }

  method ComputeNeedsQuotes(arg: string) returns (needsQuotes: bool)
    ensures needsQuotes == NeedsQuotes(arg)
  {
    needsQuotes := arg == "";
    var p := 0;
    while p < |arg| && !needsQuotes
      invariant p <= |arg|
      invariant needsQuotes ==> NeedsQuotes(arg)
      invariant !needsQuotes ==> arg != "" && forall i | 0 <= i < p :: !IsBlank(arg[i]) && arg[i] != '"'
    {
      if arg[p] == ' ' || arg[p] == '\t' || arg[p] == '"' {
        assert arg[p] in arg;
        needsQuotes := true;
      }
      p := p + 1;
    }
  }

  /** `n` backslashes and one character, each dropped if the buffer is full. */
  method PutAfterSlashes(dest: array<char>, size: nat, pos: nat, n: nat, c: char, ghost line: string) returns (next: nat)
    requires Written(dest, size, pos, line)
    modifies dest
    ensures Written(dest, size, next, line + (Slashes(n) + [c]))
    ensures Untouched(dest[..], old(dest[..]), size)
  {
    next := PutSlashes(dest, size, pos, n, line);
    next := Put(dest, size, next, c, line + Slashes(n));
    assert line + (Slashes(n) + [c]) == line + Slashes(n) + [c];
  }

  /** What a pending run of `n` backslashes and the character after it turn into. */
  function Escaped(n: nat, c: char): string {
    if c == '"' then Slashes(n * 2 + 1) + [c] else Slashes(n) + [c]
  }

  lemma QuotedTailAt(arg: string, p: nat, n: nat)
    requires p < |arg|
    ensures QuotedTail(arg[p..], n) ==
      if arg[p] == '\\' then QuotedTail(arg[p + 1..], n + 1)
      else Escaped(n, arg[p]) + QuotedTail(arg[p + 1..], 0)
  {
    assert arg[p..][1..] == arg[p + 1..] && arg[p..][0] == arg[p];
  }

  /** What the loop has meant to write after reading `arg`, and its backslash count. */
  function Emitted(arg: string): (string, nat) {
    if arg == "" then ("\"", 0)
    else
      var (text, n) := Emitted(arg[..|arg| - 1]);
      var c := arg[|arg| - 1];
      if c == '\\' then (text, n + 1) else (text + Escaped(n, c), 0)
  }

  lemma EmittedNext(arg: string, p: nat)
    requires p < |arg|
    ensures Emitted(arg[..p + 1]) ==
      if arg[p] == '\\' then (Emitted(arg[..p]).0, Emitted(arg[..p]).1 + 1)
      else (Emitted(arg[..p]).0 + Escaped(Emitted(arg[..p]).1, arg[p]), 0)
  {
    assert arg[..p + 1][..p] == arg[..p];
  }

  lemma {:induction false} EmittedSoFar(arg: string, p: nat)
    requires p <= |arg|
    ensures Emitted(arg[..p]).0 + QuotedTail(arg[p..], Emitted(arg[..p]).1) == "\"" + QuotedTail(arg, 0)
    decreases p
  {
    if p == 0 {
      assert arg[..0] == "" && arg[0..] == arg;
    } else {
      var q := p - 1;
      EmittedSoFar(arg, q);
      EmittedNext(arg, q);
      var (text, n) := Emitted(arg[..q]);
      QuotedTailAt(arg, q, n);
      Reassociate(text, Escaped(n, arg[q]), QuotedTail(arg[p..], 0));
    }
  }

  lemma EmittedAll(arg: string)
    ensures Emitted(arg).0 + (Slashes(Emitted(arg).1 * 2) + ['"']) == "\"" + QuotedTail(arg, 0)
  {
    EmittedSoFar(arg, |arg|);
    assert arg[..|arg|] == arg && arg[|arg|..] == "";
  }

  /** One turn of the quoting loop. */
  method PutQuotedChar(dest: array<char>, size: nat, pos: nat, backslashes: nat, c: char, ghost line: string)
    returns (next: nat, count: nat)
    requires Written(dest, size, pos, line)
    modifies dest
    ensures Written(dest, size, next, if c == '\\' then line else line + Escaped(backslashes, c))
    ensures count == if c == '\\' then backslashes + 1 else 0
    ensures Untouched(dest[..], old(dest[..]), size)
  {
    if c == '\\' {
      return pos, backslashes + 1;
    }
    if c == '"' {
      next := PutAfterSlashes(dest, size, pos, backslashes * 2 + 1, '"', line);
    } else {
      next := PutAfterSlashes(dest, size, pos, backslashes, c, line);
    }
    count := 0;
  }

  /** The quoted form of `arg`, one character at a time with a running backslash count. */
  method AppendQuotedBody(dest: array<char>, size: nat, pos: nat, arg: string, ghost line: string) returns (next: nat)
    requires Written(dest, size, pos, line)
    modifies dest
    ensures Written(dest, size, next, line + ("\"" + QuotedTail(arg, 0)))
    ensures Untouched(dest[..], old(dest[..]), size)
  {
    next := Put(dest, size, pos, '"', line);
    var backslashes: nat := 0;
    var p := 0;
    while p < |arg|
      invariant p <= |arg|
      invariant Written(dest, size, next, line + Emitted(arg[..p]).0)
      invariant backslashes == Emitted(arg[..p]).1
      invariant Untouched(dest[..], old(dest[..]), size)
    {
      EmittedNext(arg, p);
      Reassociate(line, Emitted(arg[..p]).0, Escaped(backslashes, arg[p]));
      next, backslashes := PutQuotedChar(dest, size, next, backslashes, arg[p], line + Emitted(arg[..p]).0);
      p := p + 1;
    }
    assert arg[..p] == arg;
    next := PutAfterSlashes(dest, size, next, backslashes * 2, '"', line + Emitted(arg).0);
    EmittedAll(arg);
    Reassociate(line, Emitted(arg).0, Slashes(backslashes * 2) + ['"']);
  }

  /** memcpy of an argument that needs no quotes; if it does not fit the build must fail. */
  method AppendPlain(dest: array<char>, size: nat, pos: nat, arg: string, ghost line: string) returns (next: nat)
    requires Written(dest, size, pos, line)
    modifies dest
    ensures Written(dest, size, next, line + arg)
    ensures Untouched(dest[..], old(dest[..]), size)
  {
    var l := |arg|;
    if pos + l < size {
      forall i | 0 <= i < l {
        dest[pos + i] := arg[i];
      }
      next := pos + l;
      assert dest[..pos] == old(dest[..pos]);
      assert dest[..next] == dest[..pos] + arg;
    } else {
      next := size;
    }
  }

  method AppendQuotedArg(dest: array<char>, size: nat, pos: nat, arg: string, ghost line: string) returns (next: nat)
    requires Written(dest, size, pos, line)
    modifies dest
    ensures Written(dest, size, next, line + (if line == "" then "" else " ") + RenderArg(arg))
    ensures Untouched(dest[..], old(dest[..]), size)
  {
    var needsQuotes := ComputeNeedsQuotes(arg);
    next := pos;
    ghost var sep := line + (if line == "" then "" else " ");
    if next > 0 && next < size {
      next := Put(dest, size, next, ' ', line);
    }
    assert Written(dest, size, next, sep);
    if !needsQuotes {
      next := AppendPlain(dest, size, next, arg, sep);
    } else {
      next := AppendQuotedBody(dest, size, next, arg, sep);
    }
  }

  /** How the runtime reads a line built from `argv`: all of it by the argument rules; the
      arguments behind argv[0] if that is tail-safe; the whole if and only if argv[0] is safe.
      The text of NUL-free arguments holds no NUL, so the terminator is its first. */
  ghost predicate Reads(line: string, argv: seq<string>) {
    && ParseArgs(line) == argv
    && (argv != [] && TailSafe(argv[0]) ==> ParseLine(line)[1..] == argv[1..])
    && (argv != [] ==> (ParseLine(line) == argv <==> ProgramSafe(argv[0])))
    && ((forall k | 0 <= k < |argv| :: '\0' !in argv[k]) ==> '\0' !in line)
  }

  lemma RenderReads(argv: seq<string>)
    ensures Reads(Render(argv), argv)
  {
    ArgumentsRoundTrip(argv);
    if argv != [] {
      LineRoundTrip(argv);
      if TailSafe(argv[0]) { TailRoundTrip(argv); }
    }
    if forall k | 0 <= k < |argv| :: '\0' !in argv[k] { RenderNulFree(argv); }
  }

  /** The build succeeds if and only if the whole rendering and its terminator fit; then the
      buffer holds exactly that rendering.  Nothing is ever written past `size`. */
  method BuildCmdline(dest: array<char>, size: nat, argv: seq<string>) returns (ok: bool)
    requires size <= dest.Length
    modifies dest
    ensures ok <==> |Render(argv)| < size
    ensures ok ==> dest[..|Render(argv)|] == Render(argv) && dest[|Render(argv)|] == '\0'
    ensures ok ==> Reads(dest[..|Render(argv)|], argv)
    ensures Untouched(dest[..], old(dest[..]), size)
  {
    var pos: nat := 0;
    var i := 0;
    while i < |argv|
      invariant i <= |argv|
      invariant Written(dest, size, pos, Render(argv[..i]))
      invariant Untouched(dest[..], old(dest[..]), size)
    {
      pos := AppendQuotedArg(dest, size, pos, argv[i], Render(argv[..i]));
      assert argv[..i + 1][..i] == argv[..i];
      i := i + 1;
    }
    assert argv[..i] == argv;
    if pos >= size {
      return false;
    }
    dest[pos] := '\0';
    assert dest[..pos] == Render(argv);
    RenderReads(argv);
    ok := true;
  }

  // ---- The terminator is the only NUL ----

  lemma {:induction false} QuotedTailNulFree(arg: string, n: nat)
    requires '\0' !in arg
    ensures '\0' !in QuotedTail(arg, n)
    decreases |arg|
  {
    if arg != "" {
      assert arg[0] in arg;
      QuotedTailNulFree(arg[1..], n + 1);
      QuotedTailNulFree(arg[1..], 0);
    }
  }

  /** With NUL-free arguments the C string in the buffer ends at the terminator, not before. */
  lemma {:induction false} RenderNulFree(argv: seq<string>)
    requires forall i | 0 <= i < |argv| :: '\0' !in argv[i]
    ensures '\0' !in Render(argv)
    decreases |argv|
  {
    if argv != [] {
      RenderNulFree(argv[..|argv| - 1]);
      QuotedTailNulFree(argv[|argv| - 1], 0);
    }
  }
}
