/** A file download: chunks go to a `.part` file and into a digest as libwebsockets delivers
    them, and the file takes its final name only after it was verified. */
module FileTransfer {
  import opened Basics

  const MIB: nat := 1024 * 1024

  /** Callbacks of the HTTP connection, in whatever order libwebsockets delivers them.
      `accepted` is the number of bytes that fwrite manages to store. */
  datatype Event =
    | ConnectionError
    | Headers(status: int, contentLength: Option<nat>)
    | Chunk(data: seq<byte>, accepted: nat)
    | Completed
    | Closed
    | Timer
    | Other

  /** The download context; `stored` is the content of the `.part` file, `hashed` what the
      digest has consumed, `progress` the progress messages sent by the receive callback. */
  datatype Context = Context(
    stored: seq<byte>, hashed: seq<byte>, received: nat, total: nat, lastPct: int,
    httpStatus: int, done: bool, failed: bool, progress: nat)

  function Start(expectedSize: nat): Context {
    Context([], [], 0, expectedSize, 0, 0, false, false, 0)
  }

  function Percent(received: nat, total: nat): nat {
    if total > 0 then received * 100 / total else 0
  }

  /** Whether the receive callback reports progress after taking a chunk of `len` bytes. */
  predicate Reports(received: nat, total: nat, lastPct: int, len: nat) {
    Percent(received, total) >= lastPct + 10 || (total == 0 && received % MIB < len)
  }

  function TakeChunk(d: Context, data: seq<byte>): Context {
    var received := d.received + |data|;
    var d' := d.(stored := d.stored + data, hashed := d.hashed + data, received := received);
    if Reports(received, d.total, d.lastPct, |data|) then
      d'.(lastPct := Percent(received, d.total), progress := d.progress + 1)
    else d'
  }

  function OnCallback(d: Context, e: Event): Context {
    match e
    case ConnectionError => d.(failed := true, done := true)
    case Headers(status, len) =>
      d.(httpStatus := status,
         total := if d.total == 0 && len.Some? then len.value else d.total,
         failed := d.failed || status != 200)
    case Chunk(data, accepted) =>
      if data == [] || d.failed then d
      else if accepted < |data| then d.(stored := d.stored + data[..accepted], failed := true)
      else TakeChunk(d, data)
    case Completed => d.(done := true)
    case Closed => d.(done := true)
    case Timer => d.(failed := true, done := true)
    case Other => d
  }

  // ---- What every callback sequence keeps ----

  /** Until something fails, exactly the bytes stored have been hashed and counted. */
  predicate InStep(d: Context) {
    !d.failed ==> d.hashed == d.stored && d.received == |d.stored|
  }

  lemma CallbackKeepsStep(d: Context, e: Event)
    requires InStep(d)
    ensures InStep(OnCallback(d, e))
  {
  }

  /** With a known size, each progress message advanced the percentage by at least 10. */
  predicate Paced(d: Context) {
    d.total > 0 && 10 * d.progress <= d.lastPct <= Percent(d.received, d.total)
  }

  lemma PercentMonotone(a: nat, b: nat, total: nat)
    requires a <= b && total > 0
    ensures Percent(a, total) <= Percent(b, total)
  {
    DivMonotone(a * 100, b * 100, total);
  }

  lemma CallbackKeepsPace(d: Context, e: Event)
    requires Paced(d)
    ensures Paced(OnCallback(d, e)) && OnCallback(d, e).total == d.total
  {
    var d' := OnCallback(d, e);
    assert d'.received >= d.received;
    PercentMonotone(d.received, d'.received, d.total);
  }

  lemma PercentUpTo100(received: nat, total: nat)
    requires received <= total && total > 0
    ensures Percent(received, total) <= 100
  {
    var q := Percent(received, total);
    DivBounds(received * 100, total);
    MulMonotone(101, q, total);
  }

  function OnAll(d: Context, es: seq<Event>): Context {
    if es == [] then d else OnCallback(OnAll(d, es[..|es| - 1]), es[|es| - 1])
  }

  lemma {:induction false} AllKeepPace(d: Context, es: seq<Event>)
    requires Paced(d)
    ensures Paced(OnAll(d, es)) && OnAll(d, es).total == d.total
  {
    if es != [] {
      AllKeepPace(d, es[..|es| - 1]);
      CallbackKeepsPace(OnAll(d, es[..|es| - 1]), es[|es| - 1]);
    }
  }

  /** The size is known from the request, or from the response headers before any chunk. */
  ghost predicate SizeKnown(d: Context, size: nat) {
    size > 0 && (d == Start(size) || exists status: int :: d == OnCallback(Start(0), Headers(status, Some(size))))
  }

  /** For a known size, whatever the callback sequence, the receive callback sends at most ten
      progress messages as long as no more than that size has been received. */
  lemma AtMostTenProgressMessages(d: Context, size: nat, es: seq<Event>)
    requires SizeKnown(d, size)
    ensures OnAll(d, es).received <= size ==> OnAll(d, es).progress <= 10
  {
    assert Paced(d) && d.total == size;
    AllKeepPace(d, es);
    if OnAll(d, es).received <= size { PercentUpTo100(OnAll(d, es).received, size); }
  }

  /** For an unknown size a chunk is reported if and only if it reaches a new MiB multiple. */
  lemma ReportsNewMebibyte(before: nat, len: nat)
    requires len > 0
    ensures Reports(before + len, 0, 0, len) <==> (before + len) / 1048576 > before / 1048576
  {
    var r, q := before + len, before / MIB;
    assert before == MIB * q + before % MIB;
    assert r == MIB * (r / MIB) + r % MIB;
  }

  /** No known size: progress messages never outnumber the MiB received. */
  predicate Sparse(d: Context) {
    d.total == 0 && d.lastPct == 0 && d.progress <= d.received / MIB
  }

  predicate AnnouncesSize(e: Event) {
    e.Headers? && e.contentLength.Some?
  }

  lemma CallbackKeepsSparse(d: Context, e: Event)
    requires Sparse(d) && !AnnouncesSize(e)
    ensures Sparse(OnCallback(d, e))
  {
    if e.Chunk? && e.data != [] {
      ReportsNewMebibyte(d.received, |e.data|);
      assert (d.received + |e.data|) / MIB >= d.received / MIB;
    }
  }

  lemma {:induction false} UnknownSizeIsSparse(es: seq<Event>)
    requires forall i | 0 <= i < |es| :: !AnnouncesSize(es[i])
    ensures Sparse(OnAll(Start(0), es))
  {
    if es != [] {
      UnknownSizeIsSparse(es[..|es| - 1]);
      CallbackKeepsSparse(OnAll(Start(0), es[..|es| - 1]), es[|es| - 1]);
    }
  }

  // ---- The whole transfer ----

  /** One call of lws_service: the callbacks it delivers, and whether it failed or the
      deadline had passed when it returned. */
  datatype Service = Service(events: seq<Event>, error: bool, late: bool)

  /** The outcome of every call that can fail.  The result of fclose is not looked at:
      `lostAtClose` is the number of bytes that its last flush fails to store. */
  datatype Env = Env(
    requestOk: bool, openOk: bool, digestOk: bool, contextOk: bool, connectOk: bool, lostAtClose: nat, renameOk: bool)

  /** The work directory. */
  type Dir = map<string, seq<byte>>

  /** The two names of a transfer: the command id with ".part", and the requested file name,
      which nothing keeps from being the same. */
  datatype Names = Names(part: string, final: string)

  function PartName(cmdId: string): string {
    cmdId + ".part"
  }

  /** The content of a file, if there is one. */
  function Entry(dir: Dir, name: string): Option<seq<byte>> {
    if name in dir then Some(dir[name]) else None
  }

  /** rename, which keeps the file if both names are the same. */
  function Renamed(dir: Dir, names: Names): Dir
    requires names.part in dir
  {
    (dir - {names.part})[names.final := dir[names.part]]
  }

  datatype Code = Ok | ErrProtocol | ErrSystem | ErrNetwork | ErrTimeout | StillRunning

  function LowerChar(c: char): char {
    if 'A' <= c <= 'Z' then (c as int + 32) as char else c
  }

  function Lower(s: string): string {
    if s == "" then "" else [LowerChar(s[0])] + Lower(s[1..])
  }

  /** strcasecmp against the expected digest; an empty expectation accepts anything. */
  predicate DigestAccepted(digest: string, expected: string) {
    expected == "" || Lower(digest) == Lower(expected)
  }

  /** Equal, or the two cases of one ASCII letter. */
  predicate SameButCase(a: char, b: char) {
    || a == b
    || ('A' <= a <= 'Z' && 'a' <= b <= 'z' && b as int - 'a' as int == a as int - 'A' as int)
    || ('A' <= b <= 'Z' && 'a' <= a <= 'z' && a as int - 'a' as int == b as int - 'A' as int)
  }

  /** The two digests differ in length, or at some position by more than case. */
  predicate Differ(digest: string, expected: string) {
    |digest| != |expected| || exists i | 0 <= i < |digest| :: !SameButCase(digest[i], expected[i])
  }

  lemma LowerCharIs(a: char, b: char)
    ensures LowerChar(a) == LowerChar(b) <==> SameButCase(a, b)
  {
  }

  lemma {:induction false} LowerAt(s: string, i: nat)
    requires i < |s|
    ensures |Lower(s)| == |s| && Lower(s)[i] == LowerChar(s[i])
    decreases |s|
  {
    LowerLength(s);
    if i > 0 { LowerAt(s[1..], i - 1); }
  }

  lemma {:induction false} LowerLength(s: string)
    ensures |Lower(s)| == |s|
    decreases |s|
  {
    if s != "" { LowerLength(s[1..]); }
  }

  /** Character by character: a digest is accepted if and only if none is expected or it equals
      the expected one up to case. */
  lemma DigestAcceptedIff(digest: string, expected: string)
    ensures DigestAccepted(digest, expected) <==> expected == "" || !Differ(digest, expected)
  {
    LowerLength(digest);
    LowerLength(expected);
    if |digest| == |expected| {
      forall i | 0 <= i < |digest| ensures Lower(digest)[i] == Lower(expected)[i] <==> SameButCase(digest[i], expected[i]) {
        LowerAt(digest, i);
        LowerAt(expected, i);
        LowerCharIs(digest[i], expected[i]);
      }
      if !Differ(digest, expected) {
        assert Lower(digest) == Lower(expected);
      } else {
        var i :| 0 <= i < |digest| && !SameButCase(digest[i], expected[i]);
        assert Lower(digest)[i] != Lower(expected)[i];
      }
    }
  }

  /** The service loop: the context it leaves and the code so far; StillRunning if the calls of
      lws_service end before the transfer does. */
  function Served(d: Context, services: seq<Service>): (Context, Code)
    decreases |services|
  {
    if d.done then (d, Ok)
    else if services == [] then (d, StillRunning)
    else
      var d' := OnAll(d, services[0].events);
      if services[0].error then (d'.(failed := true), Ok)
      else if services[0].late then (d'.(failed := true), ErrTimeout)
      else Served(d', services[1..])
  }

  /** The loop and the destruction of the HTTP context, which can deliver callbacks too. */
  function Fetched(expectedSize: nat, services: seq<Service>, closing: seq<Event>): (Context, Code) {
    var (d, rc) := Served(Start(expectedSize), services);
    if rc.StillRunning? then (d, rc) else (OnAll(d, closing), rc)
  }

  /** What the closed `.part` file holds. */
  function Flushed(stored: seq<byte>, lost: nat): seq<byte> {
    if lost < |stored| then stored[..|stored| - lost] else []
  }

  /** The checks after the loop. */
  function Verdict(hash: seq<byte> -> string, expected: string, d: Context, rc: Code, renameOk: bool): Code {
    if d.failed || d.httpStatus != 200 then (if rc.Ok? then ErrNetwork else rc)
    else if !DigestAccepted(hash(d.hashed), expected) then ErrProtocol
    else if !renameOk then ErrSystem
    else Ok
  }

  /** The whole transfer: code, work directory and context. */
  function Outcome(hash: seq<byte> -> string, expected: string, expectedSize: nat,
                   services: seq<Service>, closing: seq<Event>, env: Env, dir: Dir, names: Names): (Code, Dir, Context)
  {
    var cleaned := dir - {names.part};
    if !env.requestOk then (ErrProtocol, dir, Start(expectedSize))
    else if !env.openOk then (ErrSystem, dir, Start(expectedSize))
    else if !env.digestOk then (ErrSystem, cleaned, Start(expectedSize))
    else if !env.contextOk || !env.connectOk then (ErrNetwork, cleaned, Start(expectedSize))
    else
      var (d, rc) := Fetched(expectedSize, services, closing);
      if rc.StillRunning? then (rc, dir[names.part := d.stored], d)
      else
        var code := Verdict(hash, expected, d, rc, env.renameOk);
        (code, if code.Ok? then Renamed(dir[names.part := Flushed(d.stored, env.lostAtClose)], names) else cleaned, d)
  }

  lemma {:induction false} AllKeepStep(d: Context, es: seq<Event>)
    requires InStep(d)
    ensures InStep(OnAll(d, es)) && (d.failed ==> OnAll(d, es).failed)
  {
    if es != [] {
      AllKeepStep(d, es[..|es| - 1]);
      CallbackKeepsStep(OnAll(d, es[..|es| - 1]), es[|es| - 1]);
    }
  }

  lemma {:induction false} ServedInStep(d: Context, services: seq<Service>)
    requires InStep(d)
    ensures InStep(Served(d, services).0)
    decreases |services|
  {
    if !d.done && services != [] {
      AllKeepStep(d, services[0].events);
      ServedInStep(OnAll(d, services[0].events), services[1..]);
    }
  }

  lemma FetchedInStep(expectedSize: nat, services: seq<Service>, closing: seq<Event>)
    ensures InStep(Fetched(expectedSize, services, closing).0)
  {
    ServedInStep(Start(expectedSize), services);
    AllKeepStep(Served(Start(expectedSize), services).0, closing);
  }

  /** What a return promises about the work directory: the final name is replaced exactly on
      Ok, by what the closed file holds; otherwise it keeps its content.  No `.part` file is left
      once it was opened.  No other file changes. */
  ghost predicate SafeReturn(rc: Code, content: seq<byte>, created: bool, dir: Dir, dir': Dir, names: Names) {
    && (rc.Ok? ==> Entry(dir', names.final) == Some(content))
    && (!rc.Ok? ==> Entry(dir', names.final) == Entry(dir, names.final))
    && (created ==> names.part !in dir')
    && (!created ==> dir' == dir)
    && (forall name: string | name != names.part && name != names.final :: Entry(dir', name) == Entry(dir, name))
  }

  /** On Ok the bytes stored are the bytes hashed, all that was received, and their digest was
      accepted, whatever the names. */
  lemma OkIsVerified(hash: seq<byte> -> string, expected: string, expectedSize: nat,
                     services: seq<Service>, closing: seq<Event>, env: Env, dir: Dir, names: Names)
    ensures var (rc, after, d) := Outcome(hash, expected, expectedSize, services, closing, env, dir, names);
      rc.Ok? ==>
        && d.stored == d.hashed && d.received == |d.stored| && d.httpStatus == 200 && !d.failed
        && DigestAccepted(hash(d.stored), expected)
        && Entry(after, names.final) == Some(Flushed(d.stored, env.lostAtClose))
  {
    FetchedInStep(expectedSize, services, closing);
  }

  /** For every course of events and every return: the promise is kept if and only if the two
      names differ, or the file was never opened, or there was no final file that a failure
      could remove.  Whatever the names, no other file ever changes. */
  lemma TransferIsSafe(hash: seq<byte> -> string, expected: string, expectedSize: nat,
                       services: seq<Service>, closing: seq<Event>, env: Env, dir: Dir, names: Names)
    ensures var (rc, after, d) := Outcome(hash, expected, expectedSize, services, closing, env, dir, names);
      var created := env.requestOk && env.openOk;
      && (!rc.StillRunning? ==>
           (SafeReturn(rc, Flushed(d.stored, env.lostAtClose), created, dir, after, names) <==>
            names.part != names.final || !created || (!rc.Ok? && names.final !in dir)))
      && (rc.StillRunning? && names.part != names.final ==> Entry(after, names.final) == Entry(dir, names.final))
      && (forall name: string | name != names.part && name != names.final :: Entry(after, name) == Entry(dir, name))
  {
    var (rc, after, d) := Outcome(hash, expected, expectedSize, services, closing, env, dir, names);
    if names.part == names.final && env.requestOk && env.openOk && !rc.StillRunning? {
      if rc.Ok? {
        assert names.part in after;
      } else {
        assert Entry(after, names.final) == None;
      }
    }
  }

  /** A command whose file name is its own `.part` name: a successful download leaves the file
      under that name, and a failed one removes a file that was there before. */
  lemma EqualNamesAreUnsafe(hash: seq<byte> -> string, cmdId: string, data: seq<byte>, expectedSize: nat, dir: Dir)
    requires data != [] && PartName(cmdId) in dir
    ensures var names := Names(PartName(cmdId), PartName(cmdId));
      var good, bad := Env(true, true, true, true, true, 0, true), Env(true, true, true, true, false, 0, true);
      var (rc, after, _) := Outcome(hash, hash(data), expectedSize, OneChunk(data), [], good, dir, names);
      var (rc', after', _) := Outcome(hash, hash(data), expectedSize, OneChunk(data), [], bad, dir, names);
      rc.Ok? && PartName(cmdId) in after && rc' == ErrNetwork && PartName(cmdId) !in after'
  {
    OneChunkIsFetched(data, expectedSize);
  }

  /** A successful transfer delivers the verified bytes if and only if closing the file lost
      nothing (or there was nothing to lose). */
  lemma DeliversVerifiedBytes(hash: seq<byte> -> string, expected: string, expectedSize: nat,
                              services: seq<Service>, closing: seq<Event>, env: Env, dir: Dir, names: Names)
    requires Outcome(hash, expected, expectedSize, services, closing, env, dir, names).0.Ok?
    ensures var (rc, after, d) := Outcome(hash, expected, expectedSize, services, closing, env, dir, names);
      && (Entry(after, names.final) == Some(d.hashed) <==> env.lostAtClose == 0 || d.received == 0)
      && names.final in after && after[names.final] <= d.hashed
      && |after[names.final]| == if env.lostAtClose < d.received then d.received - env.lostAtClose else 0
  {
    OkIsVerified(hash, expected, expectedSize, services, closing, env, dir, names);
    FlushedIsWhole(Outcome(hash, expected, expectedSize, services, closing, env, dir, names).2.stored, env.lostAtClose);
  }

  lemma FlushedIsWhole(stored: seq<byte>, lost: nat)
    ensures Flushed(stored, lost) == stored <==> lost == 0 || stored == []
  {
    assert stored[..|stored|] == stored;
  }

  /** The plain download of `data` in one chunk. */
  function OneChunk(data: seq<byte>): seq<Service> {
    [Service([Headers(200, None), Chunk(data, |data|), Completed], false, false)]
  }

  lemma OneChunkIsFetched(data: seq<byte>, expectedSize: nat)
    requires data != []
    ensures var (d, rc) := Fetched(expectedSize, OneChunk(data), []);
      rc.Ok? && !d.failed && d.httpStatus == 200 && d.stored == data && d.hashed == data
  {
    var d0 := Start(expectedSize);
    var es := OneChunk(data)[0].events;
    var d1 := OnCallback(d0, Headers(200, None));
    var d2 := OnCallback(d1, Chunk(data, |data|));
    var d3 := OnCallback(d2, Completed);
    assert d2.stored == data && d2.hashed == data;
    assert es[..2][..1] == es[..1] && es[..1][..0] == [] && es[..3] == es;
    assert OnAll(d0, es[..1]) == d1;
    assert OnAll(d0, es[..2]) == d2;
    assert OnAll(d0, es) == d3;
    assert Served(d3, OneChunk(data)[1..]) == (d3, Ok);
  }

  /** Such a loss goes unnoticed: for any bytes, downloaded in one chunk and checked against
      their own digest, a close that loses some of them is reported as success. */
  lemma LossAtCloseGoesUnnoticed(hash: seq<byte> -> string, data: seq<byte>, expectedSize: nat, lost: nat, dir: Dir, names: Names)
    requires data != [] && lost > 0
    ensures var env := Env(true, true, true, true, true, lost, true);
      var (rc, after, d) := Outcome(hash, hash(data), expectedSize, OneChunk(data), [], env, dir, names);
      rc.Ok? && d.hashed == data && Entry(after, names.final) == Some(Flushed(data, lost)) && Flushed(data, lost) != data
  {
    OneChunkIsFetched(data, expectedSize);
    FlushedIsWhole(data, lost);
  }

  /** The download context that the callbacks update in place. */
  class Download {
    var stored: seq<byte>
    var hashed: seq<byte>
    var bytesReceived: nat
    var bytesTotal: nat
    var lastReportedPct: int
    var httpStatus: int
    var done: bool
    var failed: bool
    var progress: nat

    function View(): Context
      reads this
    {
      Context(stored, hashed, bytesReceived, bytesTotal, lastReportedPct, httpStatus, done, failed, progress)
    }

    constructor (expectedSize: nat)
      ensures View() == Start(expectedSize)
    {
      stored, hashed, bytesReceived, bytesTotal, lastReportedPct := [], [], 0, expectedSize, 0;
      httpStatus, done, failed, progress := 0, false, false, 0;
    }

    method ReceiveChunk(data: seq<byte>, accepted: nat)
      modifies this
      ensures View() == OnCallback(old(View()), Chunk(data, accepted))
    {
      if data == [] || failed {
        return;
      }
      if accepted < |data| {
        stored := stored + data[..accepted];
        failed := true;
        return;
      }
      stored := stored + data;
      hashed := hashed + data;
      bytesReceived := bytesReceived + |data|;
      var pct := if bytesTotal > 0 then bytesReceived * 100 / bytesTotal else 0;
      if pct >= lastReportedPct + 10 || (bytesTotal == 0 && bytesReceived % MIB < |data|) {
        lastReportedPct := pct;
        progress := progress + 1;
      }
    }

    method Callback(e: Event)
      modifies this
      ensures View() == OnCallback(old(View()), e)
    {
      match e
      case ConnectionError =>
        failed, done := true, true;
      case Headers(status, contentLength) =>
        httpStatus := status;
        if bytesTotal == 0 && contentLength.Some? {
          bytesTotal := contentLength.value;
        }
        if httpStatus != 200 {
          failed := true;
        }
      case Chunk(data, accepted) =>
        ReceiveChunk(data, accepted);
      case Completed =>
        done := true;
      case Closed =>
        done := true;
      case Timer =>
        failed, done := true, true;
      case Other =>
    }

    /** The callbacks of one call of lws_service or of the destruction of the context. */
    method Deliver(events: seq<Event>)
      modifies this
      ensures View() == OnAll(old(View()), events)
    {
      for i := 0 to |events|
        invariant View() == OnAll(old(View()), events[..i])
      {
        assert events[..i + 1][..i] == events[..i];
        Callback(events[i]);
      }
      assert events[..|events|] == events;
    }
  }

  /** The code of the source, step by step: it computes exactly that outcome. */
  method Transfer(hash: seq<byte> -> string, expected: string, expectedSize: nat,
                  services: seq<Service>, closing: seq<Event>, env: Env, dir: Dir, names: Names)
    returns (rc: Code, after: Dir, d: Context)
    ensures (rc, after, d) == Outcome(hash, expected, expectedSize, services, closing, env, dir, names)
    ensures rc.Ok? ==>
      && d.stored == d.hashed && d.received == |d.stored| && d.httpStatus == 200
      && DigestAccepted(hash(d.stored), expected)
      && Entry(after, names.final) == Some(Flushed(d.stored, env.lostAtClose))
    ensures rc.Ok? ==> (Entry(after, names.final) == Some(d.hashed) <==> env.lostAtClose == 0 || d.received == 0)
    ensures !rc.StillRunning? ==>
      (SafeReturn(rc, Flushed(d.stored, env.lostAtClose), env.requestOk && env.openOk, dir, after, names) <==>
       names.part != names.final || !(env.requestOk && env.openOk) || (!rc.Ok? && names.final !in dir))
    ensures forall name: string | name != names.part && name != names.final :: Entry(after, name) == Entry(dir, name)
    ensures expected != "" && Differ(hash(d.hashed), expected) ==>
      !rc.Ok? && (names.part != names.final ==> Entry(after, names.final) == Entry(dir, names.final))
    ensures rc.Ok? <==> !rc.StillRunning? && env.requestOk && env.openOk && env.digestOk && env.contextOk && env.connectOk
                        && !d.failed && d.httpStatus == 200 && DigestAccepted(hash(d.hashed), expected) && env.renameOk
  {
    OkIsVerified(hash, expected, expectedSize, services, closing, env, dir, names);
    TransferIsSafe(hash, expected, expectedSize, services, closing, env, dir, names);
    DigestAcceptedIff(hash(Outcome(hash, expected, expectedSize, services, closing, env, dir, names).2.hashed), expected);
    var dl := new Download(expectedSize);
    d := dl.View();
    after := dir;
    if !env.requestOk {
      return ErrProtocol, after, d;
    }
    if !env.openOk {
      return ErrSystem, after, d;
    }
    after := after[names.part := []];
    assert after - {names.part} == dir - {names.part};
    if !env.digestOk {
      return ErrSystem, after - {names.part}, d;
    }
    if !env.contextOk || !env.connectOk {
      return ErrNetwork, after - {names.part}, d;
    }
    rc := ServiceLoop(dl, services);
    if rc.StillRunning? {
      d := dl.View();
      after := after[names.part := d.stored];
      assert after == dir[names.part := d.stored];
      return rc, after, d;
    }
    dl.Deliver(closing);
    d := dl.View();
    after := after[names.part := Flushed(d.stored, env.lostAtClose)];
    assert after == dir[names.part := Flushed(d.stored, env.lostAtClose)];
    assert after - {names.part} == dir - {names.part};
    FlushedIsWhole(d.stored, env.lostAtClose);
    if d.failed || d.httpStatus != 200 {
      return if rc.Ok? then ErrNetwork else rc, after - {names.part}, d;
    }
    var digest := hash(d.hashed);
    if !DigestAccepted(digest, expected) {
      return ErrProtocol, after - {names.part}, d;
    }
    if !env.renameOk {
      return ErrSystem, after - {names.part}, d;
    }
    after := Renamed(after, names);
    rc := Ok;
  }

  method ServiceLoop(dl: Download, services: seq<Service>) returns (rc: Code)
    modifies dl
    ensures (dl.View(), rc) == Served(old(dl.View()), services)
  {
    rc := Ok;
    var i := 0;
    assert services[0..] == services;
    while !dl.done
      invariant i <= |services| && rc.Ok?
      invariant Served(dl.View(), services[i..]) == Served(old(dl.View()), services)
      decreases |services| - i
    {
      if i >= |services| {
        return StillRunning;
      }
      assert services[i..][0] == services[i] && services[i..][1..] == services[i + 1..];
      dl.Deliver(services[i].events);
      if services[i].error {
        dl.failed := true;
        return;
      }
      if services[i].late {
        dl.failed := true;
        return ErrTimeout;
      }
      i := i + 1;
    }
  }
}
