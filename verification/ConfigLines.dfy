/** Lines of the configuration file: how the loader reads them, which of them it ignores, and
    which changes to a file it does not notice. */
module ConfigLines {
  import opened Basics
  import opened Config
  import opened Folds

  // ---- Trimming ----

  lemma {:induction false} RTrimAppend(a: string, b: string)
    requires a != "" && !IsSpace(a[|a| - 1])
    ensures RTrim(a + b) == a + RTrim(b)
    decreases |b|
  {
    if b == "" {
      assert a + b == a;
    } else if IsSpace(b[|b| - 1]) {
      assert (a + b)[..|a + b| - 1] == a + b[..|b| - 1];
      RTrimAppend(a, b[..|b| - 1]);
    }
  }

  lemma {:induction false} LTrimShape(s: string)
    ensures |LTrim(s)| <= |s| && LTrim(s) == s[|s| - |LTrim(s)|..]
    ensures LTrim(s) != "" ==> !IsSpace(LTrim(s)[0])
    ensures |LTrim(s)| == |s| <==> s == "" || !IsSpace(s[0])
    decreases |s|
  {
    if s != "" && IsSpace(s[0]) { LTrimShape(s[1..]); }
  }

  lemma {:induction false} RTrimShape(s: string)
    ensures RTrim(s) <= s
    ensures RTrim(s) != "" ==> !IsSpace(RTrim(s)[|RTrim(s)| - 1])
    ensures |RTrim(s)| == |s| <==> s == "" || !IsSpace(s[|s| - 1])
    decreases |s|
  {
    if s != "" && IsSpace(s[|s| - 1]) { RTrimShape(s[..|s| - 1]); }
  }

  predicate Blank(s: string) {
    forall i | 0 <= i < |s| :: IsSpace(s[i])
  }

  lemma {:induction false} LTrimBlank(blank: string, s: string)
    requires Blank(blank)
    ensures LTrim(blank + s) == LTrim(s)
    decreases |blank|
  {
    if blank == "" {
      assert blank + s == s;
    } else {
      assert (blank + s)[0] == blank[0] && (blank + s)[1..] == blank[1..] + s;
      LTrimBlank(blank[1..], s);
    }
  }

  // ---- fgets ----

  lemma FgetsLine(line: string, rest: string)
    requires '\n' !in line && |line| + 1 < INI_LINE_MAX
    ensures line + "\n" + rest != "" && Fgets(line + "\n" + rest) == (line + "\n", rest)
  {
    UpToAt(line, '\n', rest);
    var file := line + "\n" + rest;
    assert file[..|line| + 1] == line + "\n" && file[|line| + 1..] == rest;
  }

  predicate Aligned(pre: string) {
    pre == "" || pre[|pre| - 1] == '\n'
  }

  lemma UpToPrefix(pre: string, s: string, c: char)
    requires c in pre
    ensures UpTo(pre + s, c) == UpTo(pre, c) && |UpTo(pre, c)| < |pre|
  {
    UpToUnique(pre + s, c, UpTo(pre, c));
  }

  lemma FgetsPrefix(pre: string, s: string)
    requires pre != "" && Aligned(pre)
    ensures Fgets(pre + s) == (Fgets(pre).0, Fgets(pre).1 + s)
    ensures Aligned(Fgets(pre).1)
  {
    assert pre[|pre| - 1] in pre;
    UpToPrefix(pre, s, '\n');
    var m := |Fgets(pre).0|;
    assert (pre + s)[..m] == pre[..m] && (pre + s)[m..] == pre[m..] + s;
  }

  /** Loading complete lines and then the rest is loading the whole. */
  lemma {:induction false} LoadSplit(pre: string, s: string, c: Config)
    requires Aligned(pre)
    ensures LoadLines(pre + s, c) == LoadLines(s, LoadLines(pre, c))
    decreases |pre|
  {
    if pre == "" {
      assert pre + s == s;
    } else {
      FgetsPrefix(pre, s);
      LoadSplit(Fgets(pre).1, s, Apply(c, ParseLine(Fgets(pre).0)));
    }
  }

  // ---- A text as the pieces that fgets makes of it ----

  /** A line that does not fit the buffer is read, and acted on, in pieces. */
  function Pieces(file: string): seq<string>
    decreases |file|
  {
    if file == "" then [] else [Fgets(file).0] + Pieces(Fgets(file).1)
  }

  function ReadPiece(c: Config, piece: string): Config {
    Apply(c, ParseLine(piece))
  }

  lemma {:induction false} LoadIsFold(file: string, c: Config)
    ensures LoadLines(file, c) == Fold(ReadPiece, c, Pieces(file))
    decreases |file|
  {
    if file != "" {
      var (piece, left) := Fgets(file);
      LoadIsFold(left, ReadPiece(c, piece));
      FoldCons(ReadPiece, c, piece, Pieces(left));
    }
  }

  /** The field that a piece sets, or Unknown if it sets none. */
  function KeySet(piece: string): Key {
    var l := ParseLine(piece);
    if l.Ignored? then Unknown else KeyOf(l.key)
  }

  predicate Inert(ps: seq<string>) {
    forall i | 0 <= i < |ps| :: KeySet(ps[i]) == Unknown
  }

  lemma {:induction false} InertChangesNothing(c: Config, ps: seq<string>)
    requires Inert(ps)
    ensures Fold(ReadPiece, c, ps) == c
    decreases |ps|
  {
    if ps != [] {
      assert KeySet(ps[0]) == Unknown;
      InertChangesNothing(c, ps[1..]);
    }
  }

  // ---- Lines that do not matter ----

  /** A line leaves the configuration alone if each of its pieces is ignored or names no
      known key. */
  predicate InertLine(line: string) {
    Inert(Pieces(line + "\n"))
  }

  /** Such a line can be added or removed anywhere. */
  lemma IgnoredLineDoesNotMatter(pre: string, line: string, rest: string)
    requires Aligned(pre) && InertLine(line)
    ensures Loaded(pre + ((line + "\n") + rest)) == Loaded(pre + rest)
  {
    var c := LoadLines(pre, DEFAULTS);
    LoadSplit(pre, (line + "\n") + rest, DEFAULTS);
    LoadSplit(pre, rest, DEFAULTS);
    LoadSplit(line + "\n", rest, c);
    LoadIsFold(line + "\n", c);
    InertChangesNothing(c, Pieces(line + "\n"));
  }

  /** A configuration that setting `k` to `v` cannot produce. */
  function Other(k: Key, v: string): Config {
    var text := if v == "" then "x" else "";
    var number := if Atoi(v) == 0 then 1 else 0;
    Config(text, text, text, text, text, text, text, text, text, number, number)
  }

  lemma OtherDiffers(c: Config, k: Key, v: string)
    requires k != Unknown
    ensures Set(c, k, v) != Other(k, v)
  {
  }

  lemma {:induction false} LastActive(ps: seq<string>) returns (i: nat)
    requires !Inert(ps)
    ensures i < |ps| && KeySet(ps[i]) != Unknown && Inert(ps[i + 1..])
    decreases |ps|
  {
    if Inert(ps[1..]) {
      i := 0;
    } else {
      var j := LastActive(ps[1..]);
      i := j + 1;
      assert ps[1..][j + 1..] == ps[i + 1..];
    }
  }

  lemma LastActiveDecides(c: Config, ps: seq<string>, i: nat)
    requires i < |ps| && Inert(ps[i + 1..])
    ensures Fold(ReadPiece, c, ps) == ReadPiece(Fold(ReadPiece, c, ps[..i]), ps[i])
  {
    FoldSplit(ReadPiece, c, ps, i);
    assert ps[i..] == [ps[i]] + ps[i + 1..];
    FoldCons(ReadPiece, Fold(ReadPiece, c, ps[..i]), ps[i], ps[i + 1..]);
    InertChangesNothing(ReadPiece(Fold(ReadPiece, c, ps[..i]), ps[i]), ps[i + 1..]);
  }

  lemma ActiveChangesSomething(ps: seq<string>) returns (c: Config)
    requires !Inert(ps)
    ensures Fold(ReadPiece, c, ps) != c
  {
    var i := LastActive(ps);
    var l := ParseLine(ps[i]);
    c := Other(KeyOf(l.key), l.value);
    LastActiveDecides(c, ps, i);
    OtherDiffers(Fold(ReadPiece, c, ps[..i]), KeyOf(l.key), l.value);
  }

  /** The condition is exact: a line leaves every configuration unchanged if and only if each
      piece that fgets makes of it is ignored or names no known key. */
  lemma LineIsInertIff(line: string)
    ensures (forall c: Config :: LoadLines(line + "\n", c) == c) <==> InertLine(line)
  {
    var ps := Pieces(line + "\n");
    forall c: Config ensures LoadLines(line + "\n", c) == Fold(ReadPiece, c, ps) {
      LoadIsFold(line + "\n", c);
    }
    if Inert(ps) {
      forall c: Config ensures Fold(ReadPiece, c, ps) == c { InertChangesNothing(c, ps); }
    } else {
      var c := ActiveChangesSomething(ps);
      assert LoadLines(line + "\n", c) != c;
    }
  }

  /** A line that fits the buffer is one piece. */
  predicate Short(line: string) {
    '\n' !in line && |line| + 1 < INI_LINE_MAX
  }

  lemma ShortLineIsOnePiece(line: string)
    requires Short(line)
    ensures Pieces(line + "\n") == [line + "\n"]
  {
    FgetsLine(line, "");
    assert line + "\n" + "" == line + "\n";
  }

  lemma ShortIgnoredLineIsInert(line: string)
    requires Short(line) && ParseLine(line + "\n").Ignored?
    ensures InertLine(line)
  {
    ShortLineIsOnePiece(line);
  }

  lemma LoadShortLine(line: string, rest: string, c: Config)
    requires Short(line)
    ensures LoadLines(line + "\n" + rest, c) == LoadLines(rest, Apply(c, ParseLine(line + "\n")))
  {
    FgetsLine(line, rest);
  }

  lemma UpToSkip(a: string, s: string, c: char)
    requires c !in a
    ensures UpTo(a + s, c) == a + UpTo(s, c)
  {
    var u := UpTo(s, c);
    assert s[..|u|] == u;
    assert (a + s)[..|a + u|] == a + u;
    forall i | 0 <= i < |a + u| ensures (a + u)[i] != c {
      if i < |a| { assert (a + u)[i] == a[i]; } else { assert (a + u)[i] == u[i - |a|]; }
    }
    if |u| < |s| { assert (a + s)[|a + u|] == s[|u|]; }
    UpToUnique(a + s, c, a + u);
  }

  lemma BlankHasNoNul(blank: string)
    requires Blank(blank)
    ensures '\0' !in blank
  {
    forall i | 0 <= i < |blank| ensures blank[i] != '\0' { assert IsSpace(blank[i]); }
  }

  /** A piece is ignored if its first character other than white space is '#' or ';'. */
  lemma CommentIsIgnored(blank: string, mark: char, text: string)
    requires Blank(blank) && (mark == '#' || mark == ';')
    ensures ParseLine(blank + ([mark] + text)).Ignored?
  {
    BlankHasNoNul(blank);
    UpToSkip(blank, [mark] + text, '\0');
    UpToSkip([mark], text, '\0');
    var t := [mark] + UpTo(text, '\0');
    LTrimBlank(blank, t);
    assert LTrim(t) == t;
    RTrimAppend([mark], UpTo(text, '\0'));
  }

  lemma BlankIsIgnored(blank: string)
    requires Blank(blank)
    ensures ParseLine(blank).Ignored?
  {
    BlankHasNoNul(blank);
    UpToAbsent(blank, '\0');
    LTrimBlank(blank, "");
    assert blank + "" == blank;
  }

  lemma NoSeparatorIsIgnored(text: string)
    requires '=' !in text
    ensures ParseLine(text).Ignored?
  {
    var t := UpTo(text, '\0');
    LTrimShape(t);
    RTrimShape(LTrim(t));
    var p := Trim(t);
    forall i | 0 <= i < |p| ensures p[i] != '=' {
      assert p[i] == LTrim(t)[i] == t[|t| - |LTrim(t)| + i] == text[|t| - |LTrim(t)| + i];
    }
  }

  // ---- The order of lines ----

  lemma SetCommutes(c: Config, k1: Key, v1: string, k2: Key, v2: string)
    requires k1 != k2
    ensures Set(Set(c, k1, v1), k2, v2) == Set(Set(c, k2, v2), k1, v1)
  {
  }

  /** No piece of the one sets a field that a piece of the other sets. */
  predicate Disjoint(ps: seq<string>, qs: seq<string>) {
    forall i, j | 0 <= i < |ps| && 0 <= j < |qs| :: KeySet(ps[i]) != KeySet(qs[j]) || KeySet(ps[i]) == Unknown
  }

  lemma PieceCommutes(p: string, q: string)
    requires KeySet(p) != KeySet(q) || KeySet(p) == Unknown
    ensures Commute(ReadPiece, p, q)
  {
    var l, m := ParseLine(p), ParseLine(q);
    if KeySet(p) != Unknown && KeySet(q) != Unknown {
      forall c: Config ensures ReadPiece(ReadPiece(c, p), q) == ReadPiece(ReadPiece(c, q), p) {
        SetCommutes(c, KeyOf(l.key), l.value, KeyOf(m.key), m.value);
      }
    }
  }

  /** The text of a list of lines. */
  function Text(lines: seq<string>): string {
    if lines == [] then "" else (lines[0] + "\n") + Text(lines[1..])
  }

  predicate Independent(l1: string, l2: string) {
    Disjoint(Pieces(l1 + "\n"), Pieces(l2 + "\n"))
  }

  /** No two lines set the same field. */
  predicate DistinctKeys(lines: seq<string>) {
    forall i, j | 0 <= i < j < |lines| :: Independent(lines[i], lines[j])
  }

  /** What loading one line does. */
  function ReadLine(c: Config, line: string): Config {
    Fold(ReadPiece, c, Pieces(line + "\n"))
  }

  lemma LineCommutes(l1: string, l2: string)
    requires Independent(l1, l2)
    ensures Commute(ReadLine, l1, l2)
  {
    var ps, qs := Pieces(l1 + "\n"), Pieces(l2 + "\n");
    forall i, j | 0 <= i < |ps| && 0 <= j < |qs| ensures Commute(ReadPiece, ps[i], qs[j]) {
      PieceCommutes(ps[i], qs[j]);
    }
    forall c: Config ensures ReadLine(ReadLine(c, l1), l2) == ReadLine(ReadLine(c, l2), l1) {
      AllCommute(ReadPiece, c, ps, qs);
    }
  }

  lemma {:induction false} LoadText(lines: seq<string>, rest: string, c: Config)
    ensures LoadLines(Text(lines) + rest, c) == LoadLines(rest, Fold(ReadLine, c, lines))
    decreases |lines|
  {
    if lines == [] {
      assert Text(lines) + rest == rest;
    } else {
      var line := lines[0] + "\n";
      assert Text(lines) + rest == line + (Text(lines[1..]) + rest);
      LoadSplit(line, Text(lines[1..]) + rest, c);
      LoadIsFold(line, c);
      LoadText(lines[1..], rest, ReadLine(c, lines[0]));
    }
  }

  /** The lines of a file, or of any part of it that starts with a complete line, can be put in
      any order as long as no two of them set the same field. */
  lemma LinesWithDistinctKeysCommute(pre: string, ls: seq<string>, ls': seq<string>, rest: string)
    requires Aligned(pre) && multiset(ls) == multiset(ls') && DistinctKeys(ls)
    ensures Loaded(pre + (Text(ls) + rest)) == Loaded(pre + (Text(ls') + rest))
  {
    LoadSplit(pre, Text(ls) + rest, DEFAULTS);
    LoadSplit(pre, Text(ls') + rest, DEFAULTS);
    var c := LoadLines(pre, DEFAULTS);
    LoadText(ls, rest, c);
    LoadText(ls', rest, c);
    forall i, j | 0 <= i < j < |ls| ensures Commute(ReadLine, ls[i], ls[j]) {
      LineCommutes(ls[i], ls[j]);
    }
    FoldOfPermutation(ReadLine, c, ls, ls');
  }

  /** For lines that fit the buffer this is about the keys they name. */
  lemma ShortLinesAreIndependent(l1: string, l2: string)
    requires Short(l1) && Short(l2)
    ensures Independent(l1, l2) <==> KeySet(l1 + "\n") != KeySet(l2 + "\n") || KeySet(l1 + "\n") == Unknown
  {
    ShortLineIsOnePiece(l1);
    ShortLineIsOnePiece(l2);
    var ps, qs := Pieces(l1 + "\n"), Pieces(l2 + "\n");
    assert ps[0] == l1 + "\n" && qs[0] == l2 + "\n";
    if Disjoint(ps, qs) { assert KeySet(ps[0]) != KeySet(qs[0]) || KeySet(ps[0]) == Unknown; }
  }
}
