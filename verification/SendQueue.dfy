/** The agent's send queue: a ring of 32 slots filled by any thread and emptied, one message
    per WRITEABLE event, by the libwebsockets thread. */
module SendQueue {

  const QUEUE_DEPTH: nat := 32
  const MAX_MSG_SIZE: nat := 65536

  datatype SendResult = Ok | ErrNetwork | ErrQueueFull

  /** What one WRITEABLE event did: the payload given to lws_write, and whether it asked to
      be called again. */
  datatype Drained = Nothing | Wrote(payload: string, rearmed: bool)

  function Clip(data: string): (r: string)
    ensures |r| == if |data| > MAX_MSG_SIZE then MAX_MSG_SIZE else |data|
    ensures r <= data
  {
    if |data| > MAX_MSG_SIZE then data[..MAX_MSG_SIZE] else data
  }

  /** The messages of a ring, oldest first. */
  function Window(slots: seq<string>, head: nat, count: nat): (w: seq<string>)
    requires |slots| == QUEUE_DEPTH
  {
    seq(count, i requires 0 <= i => slots[(head + i) % QUEUE_DEPTH])
  }

  lemma WindowAfterPush(slots: seq<string>, head: nat, count: nat, m: string)
    requires |slots| == QUEUE_DEPTH && head < QUEUE_DEPTH && count < QUEUE_DEPTH
    ensures Window(slots[(head + count) % QUEUE_DEPTH := m], head, count + 1) == Window(slots, head, count) + [m]
  {
  }

  lemma WindowAfterPop(slots: seq<string>, head: nat, count: nat)
    requires |slots| == QUEUE_DEPTH && head < QUEUE_DEPTH && 0 < count <= QUEUE_DEPTH
    ensures Window(slots, (head + 1) % QUEUE_DEPTH, count - 1) == Window(slots, head, count)[1..]
    ensures Window(slots, head, count)[0] == slots[head]
  {
  }

  /** One position further round the ring. */
  lemma NextPosition(n: nat, m: nat)
    ensures ((n % 32) + m) % 32 == (n + m) % 32
  {
    assert n == 32 * (n / 32) + n % 32;
  }

  lemma TailAfterPush(head: nat, count: nat)
    ensures ((head + count) % QUEUE_DEPTH + 1) % QUEUE_DEPTH == (head + (count + 1)) % QUEUE_DEPTH
  {
    NextPosition(head + count, 1);
  }

  lemma TailAfterPop(head: nat, count: nat)
    requires count > 0
    ensures ((head + 1) % QUEUE_DEPTH + (count - 1)) % QUEUE_DEPTH == (head + count) % QUEUE_DEPTH
  {
    NextPosition(head + 1, count - 1);
  }

  /** What was accepted stays what was written followed by what is queued. */
  lemma HistoryAfterPush(written: seq<string>, queued: seq<string>, m: string)
    ensures written + queued + [m] == written + (queued + [m])
  {
  }

  lemma HistoryAfterPop(written: seq<string>, queued: seq<string>)
    requires queued != []
    ensures written + queued == (written + [queued[0]]) + queued[1..]
  {
  }

  class Queue {
    var slots: array<string>
    var head: nat
    var tail: nat
    var count: nat
    var connected: bool
    /** Histories: messages accepted by Send and payloads handed to lws_write. */
    ghost var accepted: seq<string>
    ghost var written: seq<string>

    ghost predicate Valid()
      reads this, slots
    {
      && slots.Length == QUEUE_DEPTH
      && head < QUEUE_DEPTH && count <= QUEUE_DEPTH
      && tail == (head + count) % QUEUE_DEPTH
      && (forall i | 0 <= i < QUEUE_DEPTH :: |slots[i]| <= MAX_MSG_SIZE)
      && accepted == written + Contents()
    }

    ghost function Contents(): seq<string>
      reads this, slots
      requires slots.Length == QUEUE_DEPTH
    {
      Window(slots[..], head, count)
    }

    constructor ()
      ensures Valid() && fresh(slots) && Contents() == [] && !connected && accepted == []
    {
      slots := new string[QUEUE_DEPTH](_ => "");
      head, tail, count, connected := 0, 0, 0, false;
      accepted, written := [], [];
    }

    /** leo_conn_send, without the wake-up that follows. */
    method Send(data: string) returns (rc: SendResult)
      requires Valid()
      modifies this`tail, this`count, this`accepted, slots
      ensures Valid()
      ensures rc == if data == "" || !connected then ErrNetwork
                    else if |old(Contents())| == QUEUE_DEPTH then ErrQueueFull
                    else Ok
      ensures Contents() == if rc.Ok? then old(Contents()) + [Clip(data)] else old(Contents())
      ensures accepted == if rc.Ok? then old(accepted) + [Clip(data)] else old(accepted)
    {
      if data == "" || !connected {
        return ErrNetwork;
      }
      var len := |data|;
      if len > MAX_MSG_SIZE {
        len := MAX_MSG_SIZE;
      }
      if count >= QUEUE_DEPTH {
        return ErrQueueFull;
      }
      var message := data[..len];
      assert message == Clip(data);
      WindowAfterPush(slots[..], head, count, message);
      HistoryAfterPush(written, Contents(), message);
      TailAfterPush(head, count);
      slots[tail] := message;
      assert slots[..] == old(slots[..])[tail := message];
      tail := (tail + 1) % QUEUE_DEPTH;
      count := count + 1;
      accepted := accepted + [message];
      rc := Ok;
    }

    /** The WRITEABLE callback; the message leaves the queue even when lws_write fails. */
    method Writeable() returns (d: Drained)
      requires Valid()
      modifies this`head, this`count, this`written
      ensures Valid()
      ensures old(Contents()) == [] ==> d == Nothing && Contents() == [] && written == old(written)
      ensures old(Contents()) != [] ==>
        d == Wrote(old(Contents())[0], Contents() != []) && Contents() == old(Contents())[1..]
        && written == old(written) + [old(Contents())[0]]
    {
      d := Nothing;
      if count > 0 {
        WindowAfterPop(slots[..], head, count);
        HistoryAfterPop(written, Contents());
        TailAfterPop(head, count);
        var payload := Clip(slots[head]);
        head := (head + 1) % QUEUE_DEPTH;
        count := count - 1;
        written := written + [payload];
        d := Wrote(payload, count > 0);
      }
    }
  }
}
