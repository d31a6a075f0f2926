/** The client's publish queue and packet ids as functions, with their closed forms. */
module ClientSpec {

  datatype Message = Message(topic: string, message: string, retain: bool)

  datatype QueueType = DROP | FIFO | LIFO

  /** `Undefined` is `pop_front` or `pop_back` on an empty deque. */
  datatype Queueing = Queued(queue: seq<Message>) | Dropped | Undefined

  /** toPublishQueue once the client is known to be connecting. */
  function Enqueue(kind: QueueType, size: nat, queue: seq<Message>, m: Message): Queueing {
    match kind
    case DROP => Dropped
    case FIFO =>
      if |queue| < size then Queued(queue + [m])
      else if queue == [] then Undefined
      else Queued(queue[1..] + [m])
    case LIFO =>
      if |queue| < size then Queued(queue + [m])
      else if queue == [] then Undefined
      else Queued(queue[..|queue| - 1] + [m])
  }

  /** All of `ms` published one after the other on an empty queue. */
  function EnqueueAll(kind: QueueType, size: nat, ms: seq<Message>): Queueing {
    if ms == [] then Queued([])
    else
      match EnqueueAll(kind, size, ms[..|ms| - 1])
      case Queued(queue) => Enqueue(kind, size, queue, ms[|ms| - 1])
      case other => other
  }

  lemma EnqueueAllStep(kind: QueueType, size: nat, ms: seq<Message>)
    requires ms != [] && EnqueueAll(kind, size, ms[..|ms| - 1]).Queued?
    ensures EnqueueAll(kind, size, ms) ==
            Enqueue(kind, size, EnqueueAll(kind, size, ms[..|ms| - 1]).queue, ms[|ms| - 1])
  {
  }

  /** What FIFO keeps of the messages, one message later. */
  lemma Slide(ms: seq<Message>, size: nat)
    requires ms != [] && size >= 1
    ensures var init, m := ms[..|ms| - 1], ms[|ms| - 1];
            var kept := if |init| <= size then init else init[|init| - size..];
            Enqueue(FIFO, size, kept, m) == Queued(if |ms| <= size then ms else ms[|ms| - size..])
  {
    var init, m := ms[..|ms| - 1], ms[|ms| - 1];
    assert ms == init + [m];
    if |init| > size {
      var from := |init| - size;
      assert init[from..][1..] + [m] == ms[from + 1..];
    } else if |init| == size {
      assert init[1..] + [m] == ms[1..];
    }
  }

  /** FIFO keeps the newest messages, as many as fit. */
  lemma {:induction false} FifoKeepsNewest(size: nat, ms: seq<Message>)
    requires size >= 1
    ensures EnqueueAll(FIFO, size, ms) == Queued(if |ms| <= size then ms else ms[|ms| - size..])
  {
    if ms != [] {
      FifoKeepsNewest(size, ms[..|ms| - 1]);
      EnqueueAllStep(FIFO, size, ms);
      Slide(ms, size);
      hide EnqueueAll, Enqueue;
    }
  }

  /** What LIFO keeps of the messages, one message later. */
  lemma Swap(ms: seq<Message>, size: nat)
    requires ms != [] && size >= 1
    ensures var init, m := ms[..|ms| - 1], ms[|ms| - 1];
            var kept := if |init| <= size then init else init[..size - 1] + [init[|init| - 1]];
            Enqueue(LIFO, size, kept, m) == Queued(if |ms| <= size then ms else ms[..size - 1] + [m])
  {
    var init, m := ms[..|ms| - 1], ms[|ms| - 1];
    assert ms == init + [m];
    if |init| >= size {
      var kept := if |init| <= size then init else init[..size - 1] + [init[|init| - 1]];
      assert kept[..size - 1] == init[..size - 1] == ms[..size - 1];
    }
  }

  /** LIFO keeps the oldest size - 1 messages and the newest one. */
  lemma {:induction false} LifoKeepsOldestAndNewest(size: nat, ms: seq<Message>)
    requires size >= 1
    ensures EnqueueAll(LIFO, size, ms) == Queued(if |ms| <= size then ms else ms[..size - 1] + [ms[|ms| - 1]])
  {
    if ms != [] {
      LifoKeepsOldestAndNewest(size, ms[..|ms| - 1]);
      EnqueueAllStep(LIFO, size, ms);
      Swap(ms, size);
      hide EnqueueAll, Enqueue;
    }
  }

  lemma {:induction false} FirstDecides(kind: QueueType, ms: seq<Message>)
    requires ms != []
    ensures EnqueueAll(kind, 0, ms) == if kind == DROP then Dropped else Undefined
  {
    if |ms| > 1 { FirstDecides(kind, ms[..|ms| - 1]); } else { assert ms[..0] == []; }
  }

  lemma {:induction false} DropDrops(size: nat, ms: seq<Message>)
    requires ms != []
    ensures EnqueueAll(DROP, size, ms) == Dropped
  {
    if |ms| > 1 { DropDrops(size, ms[..|ms| - 1]); } else { assert ms[..0] == []; }
  }

  /** Queueing is undefined exactly for a queue of size 0 that is not of type DROP. */
  lemma UndefinedIffSizeZero(kind: QueueType, size: nat, ms: seq<Message>)
    requires ms != []
    ensures EnqueueAll(kind, size, ms) == Undefined <==> size == 0 && kind != DROP
  {
    if size == 0 {
      FirstDecides(kind, ms);
    } else if kind == FIFO {
      FifoKeepsNewest(size, ms);
    } else if kind == LIFO {
      LifoKeepsOldestAndNewest(size, ms);
    } else {
      DropDrops(size, ms);
    }
  }

  // ---- Packet ids ------------------------------------------------------------------------------

  /** The id written when `m_packet_id` is `id`: zero is skipped. */
  function Written(id: nat): nat {
    if id == 0 then 1 else id
  }

  /** `m_packet_id` after that send, in 16 bits. */
  function NextId(id: nat): nat {
    (Written(id) + 1) % 0x10000
  }

  /** `m_packet_id` after `k` subscribe or unsubscribe sends. */
  function IdAfter(k: nat): nat {
    if k == 0 then 0 else NextId(IdAfter(k - 1))
  }

  lemma Remainder(n: int, q: int, r: int)
    requires n == 65535 * q + r && 0 <= r < 65535
    ensures n % 65535 == r
  {
  }

  /** The id written by send number `k`, counted from 0, despite the wrap-around. */
  lemma {:induction false} IdClosedForm(k: nat)
    ensures Written(IdAfter(k)) == k % 65535 + 1
  {
    if k > 0 {
      IdClosedForm(k - 1);
      var q, r := (k - 1) / 65535, (k - 1) % 65535;
      if r == 65534 { Remainder(k, q + 1, 0); } else { Remainder(k, q, r + 1); }
    }
  }

  /** No id is zero or too wide, and two ids are equal exactly when their sends are a multiple of 65535 apart;
      so any 65535 consecutive ids are distinct. */
  lemma IdsRepeatIff(i: nat, j: nat)
    requires i <= j
    ensures 1 <= Written(IdAfter(i)) <= 65535
    ensures Written(IdAfter(i)) == Written(IdAfter(j)) <==> (j - i) % 65535 == 0
  {
    IdClosedForm(i);
    IdClosedForm(j);
    var q, d := j / 65535 - i / 65535, j % 65535 - i % 65535;
    if d >= 0 { Remainder(j - i, q, d); } else { Remainder(j - i, q - 1, d + 65535); }
  }
}
