/** Input from the browser to the screen: the viewer encodes mouse and keyboard events, the
    relay copies or filters the messages, the agent decodes and injects them. */
module RemoteInput {
  import opened Basics
  import opened ScreenScaling

  type Message = seq<byte>

  const INPUT_MOVE: byte := 0x10
  const INPUT_BUTTON: byte := 0x11
  const INPUT_SCROLL: byte := 0x12
  const INPUT_KEY: byte := 0x13
  const CONTROL: byte := 0x20

  /** What the viewer captures and what the agent injects. */
  datatype Event =
    | Move(x: int, y: int)
    | Button(button: int, down: bool)
    | Scroll(delta: int)
    | Key(key: int, down: bool)

  /** The ranges the viewer produces: normalized positions, byte-sized codes, 16-bit deltas. */
  predicate Sendable(e: Event) {
    match e
    case Move(x, y) => 0 <= x <= 65535 && 0 <= y <= 65535
    case Button(b, _) => 0 <= b < 256
    case Scroll(d) => -32768 <= d < 32768
    case Key(k, _) => 0 <= k < 256
  }

  function Encode(e: Event): Message
    requires Sendable(e)
  {
    match e
    case Move(x, y) => [INPUT_MOVE, Hi(x), Lo(x), Hi(y), Lo(y)]
    case Button(b, down) => [INPUT_BUTTON, b, if down then 1 else 0]
    case Scroll(d) => [INPUT_SCROLL, Hi(d), Lo(d)]
    case Key(k, down) => [INPUT_KEY, k, if down then 1 else 0]
  }

  /** (int16_t) of an unsigned 16-bit value. */
  function Int16(u: nat): int {
    if u >= 32768 then u - 65536 else u
  }

  /** The RECEIVE callback of an established session: what reaches the input backend. */
  function Decode(m: Message, controlMode: bool): Option<Event> {
    if |m| == 0 || m[0] == CONTROL || !controlMode then None
    else if m[0] == INPUT_MOVE && |m| >= 5 then Some(Move(U16(m[1], m[2]), U16(m[3], m[4])))
    else if m[0] == INPUT_BUTTON && |m| >= 3 then Some(Button(m[1], m[2] != 0))
    else if m[0] == INPUT_SCROLL && |m| >= 3 then Some(Scroll(Int16(U16(m[1], m[2]))))
    else if m[0] == INPUT_KEY && |m| >= 3 then Some(Key(m[1], m[2] != 0))
    else None
  }

  /** Sixteen bits of a negative number are those of its two's complement. */
  lemma TwosComplement(d: int)
    ensures Hi(d + 65536) == Hi(d) && Lo(d + 65536) == Lo(d)
  {
    assert (d + 65536) / 256 == d / 256 + 256;
  }

  lemma Int16RoundTrip(d: int)
    requires -32768 <= d < 32768
    ensures Int16(U16(Hi(d), Lo(d))) == d
  {
    if d < 0 {
      TwosComplement(d);
      U16Exact(d + 65536);
    } else {
      U16Exact(d);
    }
  }

  /** In control mode the agent decodes exactly the event the viewer encoded. */
  lemma DecodeEncode(e: Event)
    requires Sendable(e)
    ensures Decode(Encode(e), true) == Some(e)
  {
    if e.Move? {
      MoveRoundTrip(e.x, e.y);
    } else if e.Scroll? {
      Int16RoundTrip(e.delta);
    }
  }

  lemma MoveRoundTrip(x: int, y: int)
    requires 0 <= x <= 65535 && 0 <= y <= 65535
    ensures Decode(Encode(Move(x, y)), true) == Some(Move(x, y))
  {
    U16Exact(x);
    U16Exact(y);
    DecodedMove([INPUT_MOVE, Hi(x), Lo(x), Hi(y), Lo(y)]);
  }

  lemma DecodedMove(m: Message)
    requires |m| == 5 && m[0] == INPUT_MOVE
    ensures Decode(m, true) == Some(Move(U16(m[1], m[2]), U16(m[3], m[4])))
  {
  }

  // ---- The relay ----

  predicate IsInputMessage(m: Message) {
    |m| > 0 && (m[0] == INPUT_MOVE || m[0] == INPUT_BUTTON || m[0] == INPUT_SCROLL || m[0] == INPUT_KEY)
  }

  /** The messages that a copy direction lets through, in order. */
  function Passed(ms: seq<Message>, filterInput: bool): seq<Message> {
    if ms == [] then []
    else
      var last := ms[|ms| - 1];
      Passed(ms[..|ms| - 1], filterInput) + if filterInput && IsInputMessage(last) then [] else [last]
  }

  lemma {:induction false} PassedMonotone(ms: seq<Message>, i: nat, filterInput: bool)
    requires i <= |ms|
    ensures Passed(ms[..i], filterInput) <= Passed(ms, filterInput)
    decreases |ms|
  {
    if i < |ms| {
      PassedMonotone(ms[..|ms| - 1], i, filterInput);
      assert ms[..|ms| - 1][..i] == ms[..i];
    } else {
      assert ms[..i] == ms;
    }
  }

  /** One direction of pump: reads until the source fails (the end of `ms`), writes until the
      sink fails (its write number `writes`). */
  method CopyOne(ms: seq<Message>, filterInput: bool, writes: nat) returns (delivered: seq<Message>)
    ensures delivered <= Passed(ms, filterInput)
    ensures |delivered| == if |Passed(ms, filterInput)| <= writes then |Passed(ms, filterInput)| else writes
  {
    delivered := [];
    var i := 0;
    while i < |ms|
      invariant i <= |ms|
      invariant delivered == Passed(ms[..i], filterInput) && |delivered| <= writes
    {
      var payload := ms[i];
      assert ms[..i + 1][..i] == ms[..i];
      i := i + 1;
      if filterInput && IsInputMessage(payload) {
        continue;
      }
      if |delivered| == writes {
        PassedMonotone(ms, i, filterInput);
        PassedMonotone(ms[..i], i - 1, filterInput);
        assert ms[..i][..i - 1] == ms[..i - 1];
        return;
      }
      delivered := delivered + [payload];
    }
    assert ms[..i] == ms;
  }

  lemma {:induction false} FilteredHasNoInput(ms: seq<Message>)
    ensures forall k | 0 <= k < |Passed(ms, true)| :: !IsInputMessage(Passed(ms, true)[k])
  {
    if ms != [] { FilteredHasNoInput(ms[..|ms| - 1]); }
  }

  lemma {:induction false} UnfilteredIsAll(ms: seq<Message>)
    ensures Passed(ms, false) == ms
  {
    if ms != [] { UnfilteredIsAll(ms[..|ms| - 1]); }
  }

  /** Message by message: exactly those whose first byte is one of 0x10, 0x11, 0x12 and 0x13 are
      held back by the filter, and without it none is. */
  lemma PassedNext(ms: seq<Message>, m: Message)
    ensures Passed(ms + [m], true) == Passed(ms, true) + (if |m| > 0 && 0x10 <= m[0] <= 0x13 then [] else [m])
    ensures Passed(ms + [m], false) == Passed(ms, false) + [m]
  {
    assert (ms + [m])[..|ms|] == ms;
  }

  /** The direction from the viewer to the agent: filtered in view mode alone. */
  method ViewerToAgent(mode: string, sent: seq<Message>, writes: nat) returns (delivered: seq<Message>)
    ensures delivered <= (if mode == "view" then Passed(sent, true) else sent)
    ensures writes >= |sent| ==> delivered == if mode == "view" then Passed(sent, true) else sent
  {
    delivered := CopyOne(sent, mode == "view", writes);
    UnfilteredIsAll(sent);
    PassedLength(sent);
  }

  lemma {:induction false} PassedLength(ms: seq<Message>)
    ensures |Passed(ms, true)| <= |ms|
  {
    if ms != [] { PassedLength(ms[..|ms| - 1]); }
  }

  // ---- What the agent receives ----

  /** The receive buffer of the session's protocol. */
  const RX_BUFFER: nat := 65536

  /** A message longer than the buffer reaches the RECEIVE callback in pieces, and the callback
      takes each of them for a message. */
  function Pieces(m: Message): seq<Message> {
    if m == [] then [] else if |m| <= RX_BUFFER then [m] else [m[..RX_BUFFER]] + Pieces(m[RX_BUFFER..])
  }

  function Received(ms: seq<Message>): seq<Message> {
    if ms == [] then [] else Received(ms[..|ms| - 1]) + Pieces(ms[|ms| - 1])
  }

  /** What the agent injects for what its callback receives, in order. */
  function Injected(ps: seq<Message>, controlMode: bool): seq<Event> {
    if ps == [] then []
    else
      var e := Decode(ps[|ps| - 1], controlMode);
      Injected(ps[..|ps| - 1], controlMode) + if e.Some? then [e.value] else []
  }

  /** An input message that is long enough to decode. */
  predicate Injects(p: Message) {
    IsInputMessage(p) && |p| >= if p[0] == INPUT_MOVE then 5 else 3
  }

  lemma DecodesIff(p: Message)
    ensures Decode(p, true).Some? <==> Injects(p)
    ensures Decode(p, false).None?
  {
  }

  /** No piece of the message is such an input message. */
  predicate Harmless(m: Message) {
    forall j | 0 <= j < |Pieces(m)| :: !Injects(Pieces(m)[j])
  }

  lemma SliceOfRest(m: Message, n: nat, lo: nat, hi: nat)
    requires lo <= hi && n + hi <= |m|
    ensures m[n..][lo..hi] == m[n + lo..n + hi]
  {
  }

  /** The pieces start at the multiples of the buffer size. */
  lemma {:induction false} PieceAt(m: Message, j: nat)
    requires j < |Pieces(m)|
    ensures 65536 * j < |m|
    ensures Pieces(m)[j] == m[65536 * j..if |m| < 65536 * (j + 1) then |m| else 65536 * (j + 1)]
    decreases j
  {
    if |m| <= RX_BUFFER {
      assert m[0..|m|] == m;
    } else if j > 0 {
      var rest := m[RX_BUFFER..];
      PieceAt(rest, j - 1);
      assert Pieces(m)[j] == Pieces(rest)[j - 1];
      var lo, hi := 65536 * (j - 1), if |rest| < 65536 * j then |rest| else 65536 * j;
      assert Pieces(rest)[j - 1] == rest[lo..hi];
      SliceOfRest(m, RX_BUFFER, lo, hi);
    }
  }

  lemma {:induction false} InjectedAppend(ps: seq<Message>, qs: seq<Message>, controlMode: bool)
    ensures Injected(ps + qs, controlMode) == Injected(ps, controlMode) + Injected(qs, controlMode)
    decreases |qs|
  {
    if qs == [] {
      assert ps + qs == ps;
    } else {
      var init, n := qs[..|qs| - 1], |ps + qs| - 1;
      assert (ps + qs)[..n] == ps + init && (ps + qs)[n] == qs[|qs| - 1];
      InjectedAppend(ps, init, controlMode);
    }
  }

  lemma {:induction false} NothingInjectedFrom(ps: seq<Message>)
    ensures Injected(ps, true) == [] <==> forall j | 0 <= j < |ps| :: !Injects(ps[j])
    ensures Injected(ps, false) == []
  {
    if ps != [] {
      NothingInjectedFrom(ps[..|ps| - 1]);
      DecodesIff(ps[|ps| - 1]);
    }
  }

  /** Messages delivered to an agent in control mode inject nothing if and only if none of
      them has a piece, at a multiple of 65536 bytes, that is an input message; to an agent in
      view mode they never do. */
  lemma {:induction false} NothingInjectedIff(ms: seq<Message>)
    ensures Injected(Received(ms), true) == [] <==> forall k | 0 <= k < |ms| :: Harmless(ms[k])
    ensures Injected(Received(ms), false) == []
  {
    if ms != [] {
      var init, last := ms[..|ms| - 1], ms[|ms| - 1];
      NothingInjectedIff(init);
      NothingInjectedFrom(Pieces(last));
      InjectedAppend(Received(init), Pieces(last), true);
      InjectedAppend(Received(init), Pieces(last), false);
      assert forall k | 0 <= k < |init| :: init[k] == ms[k];
    }
  }

  lemma ShortMessageIsHarmless(m: Message)
    requires !IsInputMessage(m) && |m| <= RX_BUFFER
    ensures Harmless(m)
  {
  }

  // ---- End to end ----

  /** View mode: whatever the viewer sends and wherever the connection breaks, the agent is sent
      an initial part of the non-input messages.  An agent that knows the mode injects nothing;
      one that believed itself in control mode injects nothing if and only if no message has
      an input message at a later multiple of its buffer size, so never for messages that fit
      the buffer. */
  method ViewMode(sent: seq<Message>, writes: nat) returns (delivered: seq<Message>)
    ensures delivered <= Passed(sent, true)
    ensures Injected(Received(delivered), false) == []
    ensures Injected(Received(delivered), true) == [] <==> forall k | 0 <= k < |delivered| :: Harmless(delivered[k])
    ensures (forall k | 0 <= k < |delivered| :: |delivered[k]| <= RX_BUFFER) ==> Injected(Received(delivered), true) == []
  {
    delivered := ViewerToAgent("view", sent, writes);
    FilteredHasNoInput(sent);
    NothingInjectedIff(delivered);
    forall k | 0 <= k < |delivered| && |delivered[k]| <= RX_BUFFER ensures Harmless(delivered[k]) {
      assert delivered[k] == Passed(sent, true)[k];
      ShortMessageIsHarmless(delivered[k]);
    }
  }

  lemma TwoPieces(first: Message, second: Message)
    requires |first| == RX_BUFFER && 0 < |second| <= RX_BUFFER
    ensures Pieces(first + second) == [first, second]
  {
    assert (first + second)[..RX_BUFFER] == first && (first + second)[RX_BUFFER..] == second;
  }

  /** The length matters: a control message that fills the buffer, with an encoded event behind
      it, passes the view filter, and an agent in control mode injects the event. */
  lemma LongMessageInjects(first: Message, e: Event)
    requires |first| == RX_BUFFER && first[0] == CONTROL && Sendable(e)
    ensures var m := first + Encode(e);
      Passed([m], true) == [m] && Injected(Received([m]), true) == [e]
  {
    var m: Message, second: Message := first + Encode(e), Encode(e);
    assert m[0] == CONTROL;
    var one: seq<Message> := [m];
    assert one[..0] == [];
    TwoPieces(first, second);
    assert Received([m]) == [first, second];
    DecodeEncode(e);
    var ps: seq<Message> := [first, second];
    assert ps[..1] == [first] && ps[..1][..0] == [];
    assert Decode(first, true) == None;
    assert Injected(ps[..1], true) == [];
  }

  function EncodeAll(es: seq<Event>): seq<Message>
    requires forall k | 0 <= k < |es| :: Sendable(es[k])
  {
    if es == [] then [] else EncodeAll(es[..|es| - 1]) + [Encode(es[|es| - 1])]
  }

  lemma {:induction false} InjectedEncoded(es: seq<Event>)
    requires forall k | 0 <= k < |es| :: Sendable(es[k])
    ensures Injected(EncodeAll(es), true) == es
  {
    if es != [] {
      var init := EncodeAll(es[..|es| - 1]);
      InjectedEncoded(es[..|es| - 1]);
      DecodeEncode(es[|es| - 1]);
      assert EncodeAll(es)[..|init|] == init;
    }
  }

  lemma {:induction false} EncodedPrefix(es: seq<Event>, n: nat)
    requires forall k | 0 <= k < |es| :: Sendable(es[k])
    requires n <= |es|
    ensures |EncodeAll(es)| == |es| && EncodeAll(es)[..n] == EncodeAll(es[..n])
    decreases |es|
  {
    if n < |es| {
      EncodedPrefix(es[..|es| - 1], n);
      assert es[..|es| - 1][..n] == es[..n];
    } else {
      assert es[..n] == es;
      if es != [] { EncodedPrefix(es[..|es| - 1], |es| - 1); }
    }
  }

  /** Encoded events reach the callback whole. */
  lemma {:induction false} EncodedIsReceivedWhole(es: seq<Event>)
    requires forall k | 0 <= k < |es| :: Sendable(es[k])
    ensures Received(EncodeAll(es)) == EncodeAll(es)
  {
    if es != [] {
      var init := EncodeAll(es[..|es| - 1]);
      EncodedIsReceivedWhole(es[..|es| - 1]);
      assert EncodeAll(es)[..|init|] == init;
    }
  }

  /** Control mode: the injected events are an initial part of the captured ones, unchanged
      and in order, and all of them if the agent's connection holds. */
  method ControlMode(events: seq<Event>, writes: nat) returns (delivered: seq<Message>)
    requires forall k | 0 <= k < |events| :: Sendable(events[k])
    ensures Injected(Received(delivered), true) <= events
    ensures |events| <= writes ==> Injected(Received(delivered), true) == events
  {
    var sent := EncodeAll(events);
    delivered := ViewerToAgent("control", sent, writes);
    EncodedPrefix(events, |events|);
    var n := |delivered|;
    EncodedPrefix(events, n);
    assert delivered == sent[..n];
    EncodedIsReceivedWhole(events[..n]);
    InjectedEncoded(events[..n]);
  }

  // ---- Coordinates ----

  function Clamp01(r: real): real {
    if r < 0.0 then 0.0 else if r > 1.0 then 1.0 else r
  }

  /** Math.round(r * 65535) of a clamped position relative to the canvas. */
  function Normalize(client: real, left: real, width: real): (x: int)
    requires width > 0.0
    ensures 0 <= x <= 65535
  {
    (Clamp01((client - left) / width) * 65535.0 + 0.5).Floor
  }

  /** The pixel that the agent moves the pointer to, on a screen of `size` pixels. */
  function ToScreen(x: nat, size: nat): nat
    requires size >= 1
  {
    x * (size - 1) / 65535
  }

  lemma ToScreenMonotone(x: nat, x': nat, size: nat)
    requires x <= x' && size >= 1
    ensures ToScreen(x, size) <= ToScreen(x', size)
  {
    MulMonotone(x, x', size - 1);
    DivMonotone(x * (size - 1), x' * (size - 1), 65535);
  }

  lemma ToScreenCorners(size: nat)
    requires size >= 1
    ensures ToScreen(0, size) == 0 && ToScreen(65535, size) == size - 1
  {
  }

  lemma NormalizeMonotone(c: real, c': real, left: real, width: real)
    requires c <= c' && width > 0.0
    ensures Normalize(c, left, width) <= Normalize(c', left, width)
  {
    assert (c - left) / width <= (c' - left) / width;
  }

  lemma RatioAtMostOne(a: real, w: real)
    requires w > 0.0 && 0.0 <= a <= w
    ensures 0.0 <= a / w <= 1.0
  {
    assert a / w * w == a;
  }

  /** The coordinate is within a half of 65535 times the relative position. */
  lemma NormalizeIsNearest(c: real, left: real, width: real)
    requires width > 0.0 && left <= c <= left + width
    ensures var r := (c - left) / width;
      65535.0 * r - 0.5 <= Normalize(c, left, width) as real <= 65535.0 * r + 0.5
  {
    var r := (c - left) / width;
    RatioAtMostOne(c - left, width);
    assert Clamp01(r) == r;
  }

  /** The pixel is the one that the coordinate falls on when the screen is divided evenly. */
  lemma ToScreenIs(x: nat, size: nat, p: nat)
    requires size >= 1
    ensures p == ToScreen(x, size) <==> p * 65535 <= x * (size - 1) < (p + 1) * 65535
  {
  }

  lemma RatioAtLeastOne(a: real, w: real)
    requires w > 0.0
    ensures a >= w ==> a / w >= 1.0
  {
    assert a / w * w == a;
  }

  /** Pointer positions reach the screen in order, stay on it, and the edges of the canvas
      reach the edges of the screen. */
  lemma PointerReachesScreen(c: real, c': real, left: real, width: real, size: nat)
    requires c <= c' && width > 0.0 && size >= 1
    ensures ToScreen(Normalize(c, left, width), size) <= ToScreen(Normalize(c', left, width), size) < size
    ensures c <= left ==> ToScreen(Normalize(c, left, width), size) == 0
    ensures c' >= left + width ==> ToScreen(Normalize(c', left, width), size) == size - 1
  {
    NormalizeMonotone(c, c', left, width);
    var x, x' := Normalize(c, left, width), Normalize(c', left, width);
    ToScreenMonotone(x, x', size);
    ToScreenMonotone(x', 65535, size);
    ToScreenCorners(size);
    if c <= left { assert (c - left) / width <= 0.0; }
    RatioAtLeastOne(c' - left, width);
  }
}
