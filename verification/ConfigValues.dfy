/** What loading puts into the fields: which texts fail to load, what a field holds that no line
    sets, and where a value that is too long is cut. */
module ConfigValues {
  import opened Basics
  import opened Config
  import opened ConfigLines
  import opened Decimal
  import opened Folds

  /** A file fails to load if and only if the fingerprint it gives is not 64 characters long or
      one of the three required fields stays empty. */
  lemma LoadFailsIff(file: string)
    ensures var c := LoadLines(file, DEFAULTS);
      Loaded(file) == ErrConfig <==> |c.caFingerprint| != 64 || c.agentId == "" || c.tenantId == "" || c.wsEndpoint == ""
    ensures Loaded(file) != ErrConfig ==> Loaded(file) == Ok(LoadLines(file, DEFAULTS))
  {
  }

  // ---- Fields that no line sets ----

  /** The field of a key: its text or its number. */
  function Field(c: Config, k: Key): (string, int) {
    match k
    case AgentId => (c.agentId, 0)
    case TenantId => (c.tenantId, 0)
    case WsEndpoint => (c.wsEndpoint, 0)
    case Hostname => (c.hostname, 0)
    case OsName => (c.osName, 0)
    case OsVersion => (c.osVersion, 0)
    case Arch => (c.arch, 0)
    case HardwareId => (c.hardwareId, 0)
    case CaFingerprint => (c.caFingerprint, 0)
    case MetricsInterval => ("", c.metricsInterval)
    case HeartbeatInterval => ("", c.heartbeatInterval)
    case Unknown => ("", 0)
  }

  lemma SetKeepsField(c: Config, k: Key, v: string, other: Key)
    requires other != k
    ensures Field(Set(c, k, v), other) == Field(c, other)
  {
  }

  lemma PieceKeepsField(c: Config, piece: string, k: Key)
    requires KeySet(piece) != k
    ensures Field(ReadPiece(c, piece), k) == Field(c, k)
  {
    var l := ParseLine(piece);
    if l.Entry? { SetKeepsField(c, KeyOf(l.key), l.value, k); }
  }

  lemma {:induction false} FieldKept(c: Config, ps: seq<string>, k: Key)
    requires forall i | 0 <= i < |ps| :: KeySet(ps[i]) != k
    ensures Field(Fold(ReadPiece, c, ps), k) == Field(c, k)
    decreases |ps|
  {
    if ps != [] {
      PieceKeepsField(c, ps[0], k);
      FieldKept(ReadPiece(c, ps[0]), ps[1..], k);
    }
  }

  /** A field that no line of the file sets is empty; the intervals are 300 and 10800 seconds. */
  lemma UnsetFieldIsDefault(file: string, k: Key)
    requires forall i | 0 <= i < |Pieces(file)| :: KeySet(Pieces(file)[i]) != k
    ensures Field(LoadLines(file, DEFAULTS), k)
         == ("", if k == MetricsInterval then 300 else if k == HeartbeatInterval then 10800 else 0)
  {
    LoadIsFold(file, DEFAULTS);
    FieldKept(DEFAULTS, Pieces(file), k);
  }

  // ---- Values that are too long ----

  function Cut(v: string, n: nat): string {
    if |v| <= n then v else v[..n]
  }

  /** Each text field keeps this many characters of its value, and nothing else changes. */
  lemma ValueIsCut(c: Config, v: string)
    ensures Set(c, AgentId, v) == c.(agentId := Cut(v, 36)) && Set(c, TenantId, v) == c.(tenantId := Cut(v, 36))
    ensures Set(c, WsEndpoint, v) == c.(wsEndpoint := Cut(v, 511)) && Set(c, Hostname, v) == c.(hostname := Cut(v, 255))
    ensures Set(c, OsName, v) == c.(osName := Cut(v, 31)) && Set(c, OsVersion, v) == c.(osVersion := Cut(v, 127))
    ensures Set(c, Arch, v) == c.(arch := Cut(v, 15)) && Set(c, HardwareId, v) == c.(hardwareId := Cut(v, 36))
    ensures Set(c, CaFingerprint, v) == c.(caFingerprint := Cut(v, 64))
  {
  }

  /** Everything fits the structure. */
  predicate Fits(c: Config) {
    && |c.agentId| <= 36 && |c.tenantId| <= 36 && |c.wsEndpoint| <= 511 && |c.hostname| <= 255 && |c.osName| <= 31
    && |c.osVersion| <= 127 && |c.arch| <= 15 && |c.hardwareId| <= 36 && |c.caFingerprint| <= 64
  }

  lemma SetFits(c: Config, k: Key, v: string)
    requires Fits(c)
    ensures Fits(Set(c, k, v))
  {
    ValueIsCut(c, v);
  }

  lemma ApplyFits(c: Config, l: Line)
    requires Fits(c)
    ensures Fits(Apply(c, l))
  {
    if l.Entry? { SetFits(c, KeyOf(l.key), l.value); }
  }

  lemma {:induction false} LoadedFits(file: string, c: Config)
    requires Fits(c)
    ensures Fits(LoadLines(file, c))
    decreases |file|
  {
    if file != "" {
      var (piece, left) := Fgets(file);
      var c' := Apply(c, ParseLine(piece));
      ApplyFits(c, ParseLine(piece));
      LoadedFits(left, c');
    }
  }

  // ---- Numbers ----

  lemma {:induction false} LeadingDigitsOf(d: string, rest: string)
    requires AllDigits(d) && (rest == "" || !IsDigit(rest[0]))
    ensures LeadingDigits(d + rest) == d
    decreases |d|
  {
    if d == "" {
      assert d + rest == rest;
    } else {
      assert (d + rest)[0] == d[0] && (d + rest)[1..] == d[1..] + rest;
      LeadingDigitsOf(d[1..], rest);
    }
  }

  /** A number is an optional sign and the digits that follow; the rest is not looked at. */
  lemma AtoiReads(d: string, rest: string)
    requires AllDigits(d) && (rest == "" || !IsDigit(rest[0]))
    ensures Atoi("-" + (d + rest)) == 0 - Value(d) && Atoi("+" + (d + rest)) == Value(d)
    ensures d != "" ==> Atoi(d + rest) == Value(d)
  {
    LeadingDigitsOf(d, rest);
    assert ("-" + (d + rest))[1..] == d + rest && ("+" + (d + rest))[1..] == d + rest;
    if d != "" { assert (d + rest)[0] == d[0] && IsDigit(d[0]); }
  }

  // ---- White space ----

  /** The six characters of isspace in the C locale. */
  lemma SpaceIs(c: char)
    ensures IsSpace(c) <==> c as int == 32 || 9 <= c as int <= 13
  {
  }

  lemma {:induction false} LTrimParts(s: string) returns (before: string)
    ensures s == before + LTrim(s) && Blank(before)
    ensures LTrim(s) != "" ==> !IsSpace(LTrim(s)[0])
    decreases |s|
  {
    if s != "" && IsSpace(s[0]) {
      var b := LTrimParts(s[1..]);
      before := [s[0]] + b;
    } else {
      before := "";
    }
  }

  lemma {:induction false} RTrimParts(s: string) returns (after: string)
    ensures s == RTrim(s) + after && Blank(after)
    ensures RTrim(s) != "" ==> !IsSpace(RTrim(s)[|RTrim(s)| - 1])
    decreases |s|
  {
    if s != "" && IsSpace(s[|s| - 1]) {
      var a := RTrimParts(s[..|s| - 1]);
      after := a + [s[|s| - 1]];
    } else {
      after := "";
    }
  }

  /** Trimming removes white space at both ends, all of it, and nothing else. */
  lemma TrimIsExact(s: string) returns (before: string, after: string)
    ensures s == before + (Trim(s) + after) && Blank(before) && Blank(after)
    ensures Trim(s) != "" ==> !IsSpace(Trim(s)[0]) && !IsSpace(Trim(s)[|Trim(s)| - 1])
  {
    before := LTrimParts(s);
    after := RTrimParts(LTrim(s));
    if Trim(s) != "" { assert Trim(s)[0] == LTrim(s)[0]; }
  }
}
