/** The agent's configuration file: what loading a text means, what saving writes, and when
    the one undoes the other.  Text is a sequence of characters; C strings hold no NUL. */
module Config {
  import opened Basics
  import opened Decimal

  const INI_LINE_MAX: nat := 1024

  datatype Key =
    | AgentId | TenantId | WsEndpoint | Hostname | OsName | OsVersion | Arch | HardwareId | CaFingerprint
    | MetricsInterval | HeartbeatInterval | Unknown

  datatype Config = Config(
    agentId: string, tenantId: string, wsEndpoint: string, hostname: string, osName: string, osVersion: string,
    arch: string, hardwareId: string, caFingerprint: string, metricsInterval: int, heartbeatInterval: int)

  const DEFAULTS := Config("", "", "", "", "", "", "", "", "", 300, 10800)

  datatype Result = Ok(config: Config) | ErrConfig

  function KeyOf(name: string): Key {
    if name == "agent_id" then AgentId
    else if name == "tenant_id" then TenantId
    else if name == "ws_endpoint" then WsEndpoint
    else if name == "hostname" then Hostname
    else if name == "os_name" then OsName
    else if name == "os_version" then OsVersion
    else if name == "arch" then Arch
    else if name == "hardware_id" then HardwareId
    else if name == "ca_fingerprint" then CaFingerprint
    else if name == "metrics_interval_sec" then MetricsInterval
    else if name == "heartbeat_interval_sec" then HeartbeatInterval
    else Unknown
  }

  /** sizeof of the field that a key fills. */
  function SizeOf(k: Key): nat {
    match k
    case AgentId => 37
    case TenantId => 37
    case WsEndpoint => 512
    case Hostname => 256
    case OsName => 32
    case OsVersion => 128
    case Arch => 16
    case HardwareId => 37
    case CaFingerprint => 65
    case _ => 1
  }

  // ---- C library ----

  predicate IsSpace(c: char) {
    c == ' ' || c == '\t' || c == '\n' || c == '\r' || c == 11 as char || c == 12 as char
  }

  function LTrim(s: string): string {
    if s != "" && IsSpace(s[0]) then LTrim(s[1..]) else s
  }

  function RTrim(s: string): string {
    if s != "" && IsSpace(s[|s| - 1]) then RTrim(s[..|s| - 1]) else s
  }

  function Trim(s: string): string {
    RTrim(LTrim(s))
  }

  /** strncpy into a buffer of `size` bytes, terminated. */
  function CopyField(v: string, size: nat): string
    requires size >= 1
  {
    if |v| < size then v else v[..size - 1]
  }

  function LeadingDigits(s: string): (d: string)
    ensures AllDigits(d)
  {
    if s == "" || !IsDigit(s[0]) then "" else [s[0]] + LeadingDigits(s[1..])
  }

  /** atoi of a trimmed text, for values that fit an int. */
  function Atoi(s: string): int {
    if s != "" && s[0] == '-' then 0 - Value(LeadingDigits(s[1..]))
    else if s != "" && s[0] == '+' then Value(LeadingDigits(s[1..]))
    else Value(LeadingDigits(s))
  }

  /** "%d". */
  function PrintInt(n: int): string {
    if n < 0 then "-" + Print(-n) else Print(n)
  }

  // ---- Loading ----

  function Set(c: Config, k: Key, v: string): Config {
    match k
    case AgentId => c.(agentId := CopyField(v, SizeOf(k)))
    case TenantId => c.(tenantId := CopyField(v, SizeOf(k)))
    case WsEndpoint => c.(wsEndpoint := CopyField(v, SizeOf(k)))
    case Hostname => c.(hostname := CopyField(v, SizeOf(k)))
    case OsName => c.(osName := CopyField(v, SizeOf(k)))
    case OsVersion => c.(osVersion := CopyField(v, SizeOf(k)))
    case Arch => c.(arch := CopyField(v, SizeOf(k)))
    case HardwareId => c.(hardwareId := CopyField(v, SizeOf(k)))
    case CaFingerprint => c.(caFingerprint := CopyField(v, SizeOf(k)))
    case MetricsInterval => c.(metricsInterval := Atoi(v))
    case HeartbeatInterval => c.(heartbeatInterval := Atoi(v))
    case Unknown => c
  }

  datatype Line = Ignored | Entry(key: string, value: string)

  /** One buffer of text: a comment, blank or '='-less line, or a key and its value. */
  function ParseLine(buffer: string): Line {
    var p := Trim(UpTo(buffer, '\0'));
    if p == "" || p[0] == '#' || p[0] == ';' || '=' !in p then Ignored
    else
      var key := UpTo(p, '=');
      Entry(Trim(key), Trim(if |key| < |p| then p[|key| + 1..] else ""))
  }

  function Apply(c: Config, l: Line): Config {
    if l.Ignored? then c else Set(c, KeyOf(l.key), l.value)
  }

  /** fgets: up to 1023 characters, ending with the first newline if one is among them. */
  function Fgets(file: string): (r: (string, string))
    requires file != ""
    ensures r.0 + r.1 == file && r.0 != "" && |r.1| < |file|
  {
    var body := UpTo(file, '\n');
    var n := if |body| < |file| then |body| + 1 else |body|;
    var m := if n < INI_LINE_MAX - 1 then n else INI_LINE_MAX - 1;
    (file[..m], file[m..])
  }

  function LoadLines(file: string, c: Config): Config
    decreases |file|
  {
    if file == "" then c else LoadLines(Fgets(file).1, Apply(c, ParseLine(Fgets(file).0)))
  }

  predicate IsValid(c: Config) {
    |c.caFingerprint| == 64 && c.agentId != "" && c.tenantId != "" && c.wsEndpoint != ""
  }

  function Loaded(file: string): Result {
    var c := LoadLines(file, DEFAULTS);
    if IsValid(c) then Ok(c) else ErrConfig
  }

  // ---- Saving ----

  function EntryLine(name: string, value: string): string {
    name + "=" + value + "\n"
  }

  const TITLE := " Leo-One Agent — " + "configuration générée" + " automatiquement"
  const WARNING := " Ne pas modifier" + " manuellement sauf" + " agent_id et ws_endpoint"
  const HEADER := ("#" + TITLE) + "\n" + (("#" + WARNING) + "\n" + "\n")

  function Name(k: Key): string {
    match k
    case AgentId => "agent_id"
    case TenantId => "tenant_id"
    case WsEndpoint => "ws_endpoint"
    case Hostname => "hostname"
    case OsName => "os_name"
    case OsVersion => "os_version"
    case Arch => "arch"
    case HardwareId => "hardware_id"
    case CaFingerprint => "ca_fingerprint"
    case MetricsInterval => "metrics_interval_sec"
    case HeartbeatInterval => "heartbeat_interval_sec"
    case Unknown => "?"
  }

  function Entries(c: Config): seq<(Key, string)> {
    [(AgentId, c.agentId), (TenantId, c.tenantId), (WsEndpoint, c.wsEndpoint), (Hostname, c.hostname), (OsName, c.osName),
     (OsVersion, c.osVersion), (Arch, c.arch), (HardwareId, c.hardwareId), (CaFingerprint, c.caFingerprint),
     (MetricsInterval, PrintInt(c.metricsInterval)), (HeartbeatInterval, PrintInt(c.heartbeatInterval))]
  }

  function EntriesText(es: seq<(Key, string)>): string {
    if es == [] then "" else EntryLine(Name(es[0].0), es[0].1) + EntriesText(es[1..])
  }

  function Saved(c: Config): string {
    HEADER + EntriesText(Entries(c))
  }

  // ---- The methods, with the loops of the source ----

  method TrimText(s: string) returns (r: string)
    ensures r == Trim(s)
  {
    var from := 0;
    assert s[0..] == s;
    while from < |s| && IsSpace(s[from])
      invariant from <= |s|
      invariant LTrim(s[from..]) == LTrim(s)
    {
      assert s[from..][1..] == s[from + 1..];
      from := from + 1;
    }
    r := s[from..];
    ghost var left := r;
    var end := |r| - 1;
    assert r[..end + 1] == r;
    while end > 0 && IsSpace(r[end])
      invariant -1 <= end < |r|
      invariant end == -1 ==> r == ""
      invariant RTrim(r[..end + 1]) == RTrim(left)
      invariant r == left
    {
      assert r[..end + 1][..end] == r[..end];
      end := end - 1;
    }
    r := r[..end + 1];
  }

  /** `file` is the content of the file, if it could be opened. */
  method Load(file: Option<string>) returns (res: Result)
    ensures res == if file.None? then ErrConfig else Loaded(file.value)
  {
    if file.None? {
      return ErrConfig;
    }
    var out := DEFAULTS;
    var rest := file.value;
    while rest != ""
      invariant LoadLines(rest, out) == LoadLines(file.value, DEFAULTS)
      decreases |rest|
    {
      var (line, left) := Fgets(rest);
      var p := TrimText(UpTo(line, '\0'));
      if !(p == "" || p[0] == '#' || p[0] == ';') && '=' in p {
        var sep := |UpTo(p, '=')|;
        var key := TrimText(p[..sep]);
        var val := TrimText(if sep < |p| then p[sep + 1..] else "");
        assert p[..sep] == UpTo(p, '=');
        out := Set(out, KeyOf(key), val);
      }
      rest := left;
    }
    res := if IsValid(out) then Ok(out) else ErrConfig;
  }
}
