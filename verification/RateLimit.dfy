/** The sliding-window limiter: what its compacted lists mean, and why they answer exactly
    as the full history would. */
module RateLimit {

  type Attempts = map<string, seq<int>>

  /** One call with the clock readings it makes: the purge reads the clock first, and a
      recorded attempt is stamped by a second reading. */
  datatype Op =
    | Allow(key: string, t1: int, t2: int)
    | Blocked(key: string, t1: int)
    | RecordFailure(key: string, t1: int, t2: int)
    | Reset(key: string)

  datatype Answer = Said(yes: bool) | Silent

  function Get(m: Attempts, key: string): seq<int> {
    if key in m then m[key] else []
  }

  /** The attempts strictly after `cutoff`, in order. */
  function Recent(s: seq<int>, cutoff: int): seq<int> {
    if s == [] then []
    else Recent(s[..|s| - 1], cutoff) + (if s[|s| - 1] > cutoff then [s[|s| - 1]] else [])
  }

  /** purgeLocked on values: the key keeps its recent attempts, or disappears. */
  function Purge(m: Attempts, key: string, cutoff: int): Attempts {
    var kept := Recent(Get(m, key), cutoff);
    if kept == [] then m - {key} else m[key := kept]
  }

  /** One call of the limiter on its compacted lists. */
  function Call(m: Attempts, op: Op, max: int, window: int): (Attempts, Answer) {
    match op
    case Allow(key, t1, t2) =>
      var p := Purge(m, key, t1 - window);
      if |Get(p, key)| >= max then (p, Said(false)) else (p[key := Get(p, key) + [t2]], Said(true))
    case Blocked(key, t1) =>
      var p := Purge(m, key, t1 - window);
      (p, Said(|Get(p, key)| >= max))
    case RecordFailure(key, t1, t2) =>
      var p := Purge(m, key, t1 - window);
      (p[key := Get(p, key) + [t2]], Silent)
    case Reset(key) => (m - {key}, Silent)
  }

  /** What RecordFailure leaves: the purged lists with one more attempt. */
  lemma RecordFailureLists(m: Attempts, key: string, t1: int, t2: int, max: int, window: int)
    ensures Call(m, RecordFailure(key, t1, t2), max, window).0
         == Purge(m, key, t1 - window)[key := Get(Purge(m, key, t1 - window), key) + [t2]]
  {
  }

  function Answers(m: Attempts, ops: seq<Op>, max: int, window: int): seq<Answer>
    decreases |ops|
  {
    if ops == [] then []
    else
      var (m', a) := Call(m, ops[0], max, window);
      [a] + Answers(m', ops[1..], max, window)
  }

  // ---- The reference: never forget an attempt, count the recent ones when asked ----

  function Count(h: Attempts, key: string, t: int, window: int): nat {
    |Recent(Get(h, key), t - window)|
  }

  function FullCall(h: Attempts, op: Op, max: int, window: int): (Attempts, Answer) {
    match op
    case Allow(key, t1, t2) =>
      if Count(h, key, t1, window) >= max then (h, Said(false)) else (h[key := Get(h, key) + [t2]], Said(true))
    case Blocked(key, t1) => (h, Said(Count(h, key, t1, window) >= max))
    case RecordFailure(key, t1, t2) => (h[key := Get(h, key) + [t2]], Silent)
    case Reset(key) => (h - {key}, Silent)
  }

  function FullAnswers(h: Attempts, ops: seq<Op>, max: int, window: int): seq<Answer>
    decreases |ops|
  {
    if ops == [] then []
    else
      var (h', a) := FullCall(h, ops[0], max, window);
      [a] + FullAnswers(h', ops[1..], max, window)
  }

  // ---- A non-decreasing clock ----

  predicate ClockedOp(op: Op, from: int) {
    match op
    case Allow(_, t1, t2) => from <= t1 <= t2
    case Blocked(_, t1) => from <= t1
    case RecordFailure(_, t1, t2) => from <= t1 <= t2
    case Reset(_) => true
  }

  function ClockAfter(op: Op, from: int): int {
    match op
    case Allow(_, _, t2) => t2
    case Blocked(_, t1) => t1
    case RecordFailure(_, _, t2) => t2
    case Reset(_) => from
  }

  predicate Clocked(ops: seq<Op>, from: int) {
    ops == [] || (ClockedOp(ops[0], from) && Clocked(ops[1..], ClockAfter(ops[0], from)))
  }

  // ---- Refinement ----

  lemma RecentSnoc(s: seq<int>, t: int, x: int)
    ensures Recent(s + [t], x) == Recent(s, x) + (if t > x then [t] else [])
  {
    assert (s + [t])[..|s|] == s;
  }

  lemma {:induction false} RecentTwice(s: seq<int>, x: int, y: int)
    requires x <= y
    ensures Recent(Recent(s, x), y) == Recent(s, y)
  {
    if s != [] {
      var init, last := s[..|s| - 1], s[|s| - 1];
      RecentTwice(init, x, y);
      if last > x {
        RecentSnoc(Recent(init, x), last, y);
      } else {
        assert Recent(s, x) == Recent(init, x) && Recent(s, y) == Recent(init, y);
      }
    }
  }

  /** For every cutoff still to come, the compacted lists and the full history hold the same
      recent attempts. */
  ghost predicate SameFrom(s: seq<int>, h: seq<int>, from: int) {
    forall x | x >= from :: Recent(s, x) == Recent(h, x)
  }

  ghost predicate Agree(m: Attempts, h: Attempts, from: int) {
    forall key: string :: SameFrom(Get(m, key), Get(h, key), from)
  }

  lemma SameAfterPurge(s: seq<int>, h: seq<int>, from: int, cutoff: int)
    requires SameFrom(s, h, from) && from <= cutoff
    ensures SameFrom(Recent(s, cutoff), h, cutoff)
    ensures Recent(s, cutoff) == Recent(h, cutoff)
  {
    forall x | x >= cutoff ensures Recent(Recent(s, cutoff), x) == Recent(h, x) {
      RecentTwice(s, cutoff, x);
    }
  }

  lemma SameAfterPush(s: seq<int>, h: seq<int>, from: int, t: int)
    requires SameFrom(s, h, from)
    ensures SameFrom(s + [t], h + [t], from)
  {
    forall x | x >= from ensures Recent(s + [t], x) == Recent(h + [t], x) {
      RecentSnoc(s, t, x);
      RecentSnoc(h, t, x);
    }
  }

  lemma SameLater(s: seq<int>, h: seq<int>, from: int, later: int)
    requires SameFrom(s, h, from) && from <= later
    ensures SameFrom(s, h, later)
  {
  }

  /** Whether a call that finds `n` recent attempts records one. */
  predicate Records(op: Op, n: nat, max: int) {
    op.RecordFailure? || (op.Allow? && n < max)
  }

  function AnswerTo(op: Op, n: nat, max: int): Answer {
    match op
    case Allow(_, _, _) => Said(n < max)
    case Blocked(_, _) => Said(n >= max)
    case _ => Silent
  }

  /** What both limiters do to the list of the called key, in terms of its recent attempts. */
  lemma CallOnKey(m: Attempts, op: Op, max: int, window: int)
    requires !op.Reset?
    ensures var kept := Recent(Get(m, op.key), op.t1 - window);
      && Call(m, op, max, window).1 == AnswerTo(op, |kept|, max)
      && Get(Call(m, op, max, window).0, op.key) == kept + if Records(op, |kept|, max) then [op.t2] else []
  {
    var kept := Recent(Get(m, op.key), op.t1 - window);
    assert Get(Purge(m, op.key, op.t1 - window), op.key) == kept;
    assert kept + [] == kept;
  }

  lemma FullCallOnKey(h: Attempts, op: Op, max: int, window: int)
    requires !op.Reset?
    ensures var n := |Recent(Get(h, op.key), op.t1 - window)|;
      && FullCall(h, op, max, window).1 == AnswerTo(op, n, max)
      && Get(FullCall(h, op, max, window).0, op.key) == Get(h, op.key) + if Records(op, n, max) then [op.t2] else []
  {
    assert Get(h, op.key) + [] == Get(h, op.key);
  }

  /** The lists of the called key, before and after. */
  lemma CallRefinesOnKey(m: Attempts, h: Attempts, op: Op, max: int, window: int, clock: int)
    requires SameFrom(Get(m, op.key), Get(h, op.key), clock - window) && ClockedOp(op, clock)
    ensures Call(m, op, max, window).1 == FullCall(h, op, max, window).1
    ensures SameFrom(Get(Call(m, op, max, window).0, op.key), Get(FullCall(h, op, max, window).0, op.key), ClockAfter(op, clock) - window)
  {
    if !op.Reset? {
      CallOnKey(m, op, max, window);
      FullCallOnKey(h, op, max, window);
      ListsStaySame(Get(m, op.key), Get(h, op.key), clock - window, op.t1 - window, ClockAfter(op, clock) - window, ClockAfter(op, clock));
    }
  }

  /** Purging one of two lists, and recording the same attempt in both or in neither, leaves
      them the same from the new cutoff on. */
  lemma ListsStaySame(s: seq<int>, h: seq<int>, from: int, cutoff: int, later: int, t: int)
    requires SameFrom(s, h, from) && from <= cutoff <= later
    ensures Recent(s, cutoff) == Recent(h, cutoff)
    ensures SameFrom(Recent(s, cutoff) + [t], h + [t], later) && SameFrom(Recent(s, cutoff) + [], h + [], later)
  {
    SameAfterPurge(s, h, from, cutoff);
    SameLater(Recent(s, cutoff), h, cutoff, later);
    SameAfterPush(Recent(s, cutoff), h, later, t);
    assert Recent(s, cutoff) + [] == Recent(s, cutoff) && h + [] == h;
  }

  lemma CallLeavesOtherKeys(m: Attempts, op: Op, max: int, window: int, key: string)
    requires key != op.key
    ensures Get(Call(m, op, max, window).0, key) == Get(m, key)
    ensures Get(FullCall(m, op, max, window).0, key) == Get(m, key)
  {
  }

  lemma CallRefines(m: Attempts, h: Attempts, op: Op, max: int, window: int, clock: int)
    requires Agree(m, h, clock - window) && ClockedOp(op, clock)
    ensures Call(m, op, max, window).1 == FullCall(h, op, max, window).1
    ensures Agree(Call(m, op, max, window).0, FullCall(h, op, max, window).0, ClockAfter(op, clock) - window)
  {
    var m', h' := Call(m, op, max, window).0, FullCall(h, op, max, window).0;
    CallRefinesOnKey(m, h, op, max, window, clock);
    forall key: string ensures SameFrom(Get(m', key), Get(h', key), ClockAfter(op, clock) - window) {
      assert SameFrom(Get(m, key), Get(h, key), clock - window);
      if key != op.key {
        CallLeavesOtherKeys(m, op, max, window, key);
        CallLeavesOtherKeys(h, op, max, window, key);
      }
    }
  }

  /** For every sequence of calls under a non-decreasing clock, purging and compacting never
      change an answer. */
  lemma {:induction false} LimiterRefinesHistory(m: Attempts, h: Attempts, ops: seq<Op>, max: int, window: int, clock: int)
    requires Agree(m, h, clock - window) && Clocked(ops, clock)
    ensures Answers(m, ops, max, window) == FullAnswers(h, ops, max, window)
    decreases |ops|
  {
    if ops != [] {
      CallRefines(m, h, ops[0], max, window, clock);
      LimiterRefinesHistory(Call(m, ops[0], max, window).0, FullCall(h, ops[0], max, window).0,
                            ops[1..], max, window, ClockAfter(ops[0], clock));
    }
  }

  // ---- Dropping calls that cannot matter ----

  function Only(ops: seq<Op>, keep: Op -> bool): seq<Op> {
    if ops == [] then [] else (if keep(ops[0]) then [ops[0]] else []) + Only(ops[1..], keep)
  }

  /** The answers given to the calls that `keep` selects. */
  function AnswersTo(ops: seq<Op>, answers: seq<Answer>, keep: Op -> bool): seq<Answer>
    requires |ops| == |answers|
  {
    if ops == [] then [] else (if keep(ops[0]) then [answers[0]] else []) + AnswersTo(ops[1..], answers[1..], keep)
  }

  /** Calls that `keep` drops are queries or concern keys that no kept call mentions. */
  ghost predicate Droppable(keep: Op -> bool) {
    forall a: Op, b: Op :: !keep(a) && keep(b) ==> a.Blocked? || a.key != b.key
  }

  ghost predicate SameForKept(h: Attempts, g: Attempts, keep: Op -> bool) {
    forall op: Op | keep(op) :: Get(h, op.key) == Get(g, op.key)
  }

  lemma FullAnswersLength(h: Attempts, ops: seq<Op>, max: int, window: int)
    ensures |FullAnswers(h, ops, max, window)| == |ops|
    decreases |ops|
  {
    if ops != [] { FullAnswersLength(FullCall(h, ops[0], max, window).0, ops[1..], max, window); }
  }

  lemma KeptCallAgrees(h: Attempts, g: Attempts, op: Op, keep: Op -> bool, max: int, window: int)
    requires SameForKept(h, g, keep) && keep(op)
    ensures FullCall(h, op, max, window).1 == FullCall(g, op, max, window).1
    ensures SameForKept(FullCall(h, op, max, window).0, FullCall(g, op, max, window).0, keep)
  {
    assert Get(h, op.key) == Get(g, op.key);
  }

  lemma DroppedCallIsUnseen(h: Attempts, g: Attempts, op: Op, keep: Op -> bool, max: int, window: int)
    requires Droppable(keep) && SameForKept(h, g, keep) && !keep(op)
    ensures SameForKept(FullCall(h, op, max, window).0, g, keep)
  {
  }

  lemma {:induction false} DroppedCallsDoNotMatterInHistory(h: Attempts, g: Attempts, ops: seq<Op>, keep: Op -> bool, max: int, window: int)
    requires Droppable(keep) && SameForKept(h, g, keep)
    ensures |FullAnswers(h, ops, max, window)| == |ops|
    ensures AnswersTo(ops, FullAnswers(h, ops, max, window), keep) == FullAnswers(g, Only(ops, keep), max, window)
    decreases |ops|
  {
    FullAnswersLength(h, ops, max, window);
    if ops != [] {
      var op := ops[0];
      var h' := FullCall(h, op, max, window).0;
      assert FullAnswers(h, ops, max, window)[1..] == FullAnswers(h', ops[1..], max, window);
      if keep(op) {
        KeptCallAgrees(h, g, op, keep, max, window);
        assert Only(ops, keep)[1..] == Only(ops[1..], keep);
        DroppedCallsDoNotMatterInHistory(h', FullCall(g, op, max, window).0, ops[1..], keep, max, window);
      } else {
        DroppedCallIsUnseen(h, g, op, keep, max, window);
        DroppedCallsDoNotMatterInHistory(h', g, ops[1..], keep, max, window);
        assert Only(ops, keep) == Only(ops[1..], keep);
      }
    }
  }

  lemma {:induction false} ClockedEarlier(ops: seq<Op>, from: int, earlier: int)
    requires Clocked(ops, from) && earlier <= from
    ensures Clocked(ops, earlier)
    decreases |ops|
  {
    if ops != [] && ops[0].Reset? { ClockedEarlier(ops[1..], from, earlier); }
  }

  lemma {:induction false} ClockedOnly(ops: seq<Op>, keep: Op -> bool, from: int)
    requires Clocked(ops, from)
    ensures Clocked(Only(ops, keep), from)
    decreases |ops|
  {
    if ops != [] {
      ClockedOnly(ops[1..], keep, ClockAfter(ops[0], from));
      var rest := Only(ops[1..], keep);
      if keep(ops[0]) {
        assert Only(ops, keep)[1..] == rest;
      } else {
        assert Only(ops, keep) == rest;
        ClockedEarlier(rest, ClockAfter(ops[0], from), from);
      }
    }
  }

  lemma DroppedCallsDoNotMatter(ops: seq<Op>, keep: Op -> bool, max: int, window: int, clock: int)
    requires Droppable(keep) && Clocked(ops, clock)
    ensures |Answers(map[], ops, max, window)| == |ops|
    ensures AnswersTo(ops, Answers(map[], ops, max, window), keep) == Answers(map[], Only(ops, keep), max, window)
  {
    assert Agree(map[], map[], clock - window);
    LimiterRefinesHistory(map[], map[], ops, max, window, clock);
    ClockedOnly(ops, keep, clock);
    LimiterRefinesHistory(map[], map[], Only(ops, keep), max, window, clock);
    DroppedCallsDoNotMatterInHistory(map[], map[], ops, keep, max, window);
  }

  /** Keys are independent: the answers about a key are those of the calls on that key alone. */
  lemma KeysAreIndependent(ops: seq<Op>, key: string, max: int, window: int, clock: int)
    requires Clocked(ops, clock)
    ensures |Answers(map[], ops, max, window)| == |ops|
    ensures AnswersTo(ops, Answers(map[], ops, max, window), (op: Op) => op.key == key)
         == Answers(map[], Only(ops, (op: Op) => op.key == key), max, window)
  {
    DroppedCallsDoNotMatter(ops, (op: Op) => op.key == key, max, window, clock);
  }

  /** Blocked is a pure query: leaving out every Blocked call changes no other answer. */
  lemma BlockedIsAQuery(ops: seq<Op>, max: int, window: int, clock: int)
    requires Clocked(ops, clock)
    ensures |Answers(map[], ops, max, window)| == |ops|
    ensures AnswersTo(ops, Answers(map[], ops, max, window), (op: Op) => !op.Blocked?)
         == Answers(map[], Only(ops, (op: Op) => !op.Blocked?), max, window)
  {
    DroppedCallsDoNotMatter(ops, (op: Op) => !op.Blocked?, max, window, clock);
  }

  // ---- Throttling: max + 1 consecutive grants span at least the window ----

  function FullHistory(h: Attempts, ops: seq<Op>, max: int, window: int): Attempts
    decreases |ops|
  {
    if ops == [] then h else FullHistory(FullCall(h, ops[0], max, window).0, ops[1..], max, window)
  }

  ghost predicate Sorted(s: seq<int>) {
    forall i, j | 0 <= i < j < |s| :: s[i] <= s[j]
  }

  ghost predicate NoneAfter(s: seq<int>, t: int) {
    forall i | 0 <= i < |s| :: s[i] <= t
  }

  /** Any max + 1 consecutive stamps span at least the window. */
  ghost predicate Spaced(s: seq<int>, max: int, window: int) {
    && (max <= 0 ==> s == [])
    && (forall i, j | 0 <= i < j < |s| && j == i + max :: s[j] - s[i] >= window)
  }

  ghost predicate Throttled(h: Attempts, max: int, window: int, clock: int) {
    forall key: string :: Sorted(Get(h, key)) && NoneAfter(Get(h, key), clock) && Spaced(Get(h, key), max, window)
  }

  lemma {:induction false} RecentAtLeast(s: seq<int>, i: nat, x: int)
    requires Sorted(s) && i < |s| && s[i] > x
    ensures |Recent(s, x)| >= |s| - i
    decreases |s|
  {
    if i < |s| - 1 { RecentAtLeast(s[..|s| - 1], i, x); }
  }

  lemma GrantIsSpaced(s: seq<int>, t1: int, t2: int, max: int, window: int)
    requires Sorted(s) && NoneAfter(s, t1) && Spaced(s, max, window) && t1 <= t2
    requires |Recent(s, t1 - window)| < max
    ensures Sorted(s + [t2]) && NoneAfter(s + [t2], t2) && Spaced(s + [t2], max, window)
  {
    if |s| >= max && s[|s| - max] > t1 - window {
      RecentAtLeast(s, |s| - max, t1 - window);
      assert false;
    }
  }

  lemma CallThrottles(h: Attempts, op: Op, max: int, window: int, clock: int)
    requires Throttled(h, max, window, clock) && ClockedOp(op, clock) && !op.RecordFailure?
    ensures Throttled(FullCall(h, op, max, window).0, max, window, ClockAfter(op, clock))
  {
    var h' := FullCall(h, op, max, window).0;
    forall key: string
      ensures Sorted(Get(h', key)) && NoneAfter(Get(h', key), ClockAfter(op, clock)) && Spaced(Get(h', key), max, window)
    {
      assert Sorted(Get(h, key)) && NoneAfter(Get(h, key), clock) && Spaced(Get(h, key), max, window);
      if op.Allow? && key == op.key && Count(h, key, op.t1, window) < max {
        GrantIsSpaced(Get(h, key), op.t1, op.t2, max, window);
      }
    }
  }

  lemma {:induction false} ThrottledOverRun(h: Attempts, ops: seq<Op>, max: int, window: int, clock: int) returns (last: int)
    requires Throttled(h, max, window, clock) && Clocked(ops, clock)
    requires forall i | 0 <= i < |ops| :: !ops[i].RecordFailure?
    ensures Throttled(FullHistory(h, ops, max, window), max, window, last)
    decreases |ops|
  {
    if ops == [] {
      last := clock;
    } else {
      CallThrottles(h, ops[0], max, window, clock);
      last := ThrottledOverRun(FullCall(h, ops[0], max, window).0, ops[1..], max, window, ClockAfter(ops[0], clock));
    }
  }

  /** The stamps of the grants of `key` since its last Reset, after those in `stamps`, as the
      calls and the limiter's answers show them. */
  function Granted(stamps: seq<int>, ops: seq<Op>, answers: seq<Answer>, key: string): seq<int>
    requires |ops| == |answers|
    decreases |ops|
  {
    if ops == [] then stamps
    else
      var now := if ops[0].key != key then stamps
                 else if ops[0].Allow? && answers[0] == Said(true) then stamps + [ops[0].t2]
                 else if ops[0].Reset? then []
                 else stamps;
      Granted(now, ops[1..], answers[1..], key)
  }

  lemma {:induction false} HistoryIsGranted(h: Attempts, ops: seq<Op>, key: string, max: int, window: int)
    requires forall k | 0 <= k < |ops| :: !ops[k].RecordFailure?
    ensures |FullAnswers(h, ops, max, window)| == |ops|
    ensures Get(FullHistory(h, ops, max, window), key) == Granted(Get(h, key), ops, FullAnswers(h, ops, max, window), key)
    decreases |ops|
  {
    FullAnswersLength(h, ops, max, window);
    if ops != [] {
      var h' := FullCall(h, ops[0], max, window).0;
      assert FullAnswers(h, ops, max, window)[1..] == FullAnswers(h', ops[1..], max, window);
      HistoryIsGranted(h', ops[1..], key, max, window);
      if ops[0].key != key { CallLeavesOtherKeys(h, ops[0], max, window, key); }
    }
  }

  /** If attempts are recorded by Allow alone, the stamps of any max + 1 consecutive grants of
      a key since its last Reset span at least the window, although Allow decides with one
      clock reading and stamps with another. */
  lemma GrantsAreSpaced(ops: seq<Op>, key: string, max: int, window: int, clock: int)
    requires Clocked(ops, clock) && forall k | 0 <= k < |ops| :: !ops[k].RecordFailure?
    ensures |Answers(map[], ops, max, window)| == |ops|
    ensures Spaced(Granted([], ops, Answers(map[], ops, max, window), key), max, window)
  {
    assert Throttled(map[], max, window, clock) && Agree(map[], map[], clock - window);
    LimiterRefinesHistory(map[], map[], ops, max, window, clock);
    HistoryIsGranted(map[], ops, key, max, window);
    var last := ThrottledOverRun(map[], ops, max, window, clock);
  }
}
