/** The client's locked operations: connect, disconnect, publish, subscribe, unsubscribe, and the two
    notifications of its connection. Each method is one critical section of the client mutex. */
module Client {
  import opened Common
  import opened Topics
  import opened SubscriptionSpec
  import opened SubscriptionIndex
  import opened ClientSpec

  datatype State = DISCONNECTED | CONNECTING | CONNECTED

  datatype Outgoing =
    | PublishPacket(message: Message)
    | SubscribePacket(id: nat, filter: string)
    | UnsubscribePacket(id: nat, filter: string)

  /** `passed` sends found the queue no longer than the limit, and then, if `refused`, one found it longer. */
  ghost predicate Tried(before: seq<nat>, after: seq<nat>, passed: nat, refused: bool, limit: nat) {
    && before <= after && |after| == |before| + passed + (if refused then 1 else 0)
    && (forall i :: |before| <= i < |before| + passed ==> after[i] <= limit)
    && (refused ==> after[|after| - 1] > limit)
  }

  lemma TriedThen(a: seq<nat>, b: seq<nat>, c: seq<nat>, m: nat, n: nat, refused: bool, limit: nat)
    requires Tried(a, b, m, false, limit) && Tried(b, c, n, refused, limit)
    ensures Tried(a, c, m + n, refused, limit)
  {
    assert forall i :: 0 <= i < |b| ==> c[i] == b[i];
  }

  /** The sending end of a connection. */
  class Connection {
    /** The accepted packets not yet popped, and how many priority packets stand before them. */
    var sendQueue: seq<Outgoing>
    var ahead: nat
    /** Every packet accepted so far, oldest first, and the lengths of the queue found at the checks of `send`. */
    ghost var accepted: seq<Outgoing>
    ghost var checks: seq<nat>

    /** What is queued is the newest part of what was accepted, in order. */
    ghost predicate Valid()
      reads this
    {
      |sendQueue| <= |accepted| && sendQueue == accepted[|accepted| - |sendQueue|..]
    }

    constructor ()
      ensures Valid() && sendQueue == [] && accepted == []
    {
      sendQueue, ahead, accepted, checks := [], 0, [], [];
    }

    /** What the writer and the reader do to the queue meanwhile: packets go from its front, priority packets come
        and go, and callers learn nothing about how many. */
    method Interfere()
      requires Valid()
      modifies this`sendQueue, this`ahead
      ensures Valid()
    {
      var k :| 0 <= k <= |sendQueue|;
      var n: nat := *;
      sendQueue, ahead := sendQueue[k..], n;
    }

    /** Connection::send without priority: a packet is refused exactly when the queue is found longer than the
        limit; an accepted packet is the last of the queue, a refused one leaves no trace. */
    method Send(packet: Outgoing, limit: nat) returns (ok: bool)
      requires Valid()
      modifies this
      ensures Valid()
      ensures Tried(old(checks), checks, if ok then 1 else 0, !ok, limit)
      ensures ok <==> checks[|checks| - 1] <= limit
      ensures checks[|checks| - 1] + (if ok then 1 else 0) == ahead + |sendQueue|
      ensures accepted == if ok then old(accepted) + [packet] else old(accepted)
      ensures ok ==> sendQueue != []
    {
      Interfere();
      checks := checks + [ahead + |sendQueue|];
      if ahead + |sendQueue| > limit {
        return false;
      }
      sendQueue, accepted := sendQueue + [packet], accepted + [packet];
      ok := true;
    }
  }

  function Published(ms: seq<Message>): seq<Outgoing> {
    if ms == [] then [] else Published(ms[..|ms| - 1]) + [PublishPacket(ms[|ms| - 1])]
  }

  /** One SUBSCRIBE per filter, with the ids that follow `sent` earlier ones. */
  function Subscribed(filters: seq<string>, sent: nat): seq<Outgoing> {
    if filters == [] then []
    else
      var n := |filters| - 1;
      Subscribed(filters[..n], sent) + [SubscribePacket(Written(IdAfter(sent + n)), filters[n])]
  }

  lemma SubscribedOneMore(filters: seq<string>, sent: nat, f: string)
    ensures Subscribed(filters + [f], sent) ==
            Subscribed(filters, sent) + [SubscribePacket(Written(IdAfter(sent + |filters|)), f)]
  {
    assert (filters + [f])[..|filters|] == filters;
  }

  lemma PublishedOneMore(ms: seq<Message>, k: nat)
    requires k < |ms|
    ensures Published(ms[..k + 1]) == Published(ms[..k]) + [PublishPacket(ms[k])]
  {
    assert ms[..k + 1][..k] == ms[..k];
  }

  /** One PUBLISH per message, each in its place. */
  lemma {:induction false} PublishedIs(ms: seq<Message>)
    ensures |Published(ms)| == |ms|
    ensures forall i :: 0 <= i < |ms| ==> Published(ms)[i] == PublishPacket(ms[i])
  {
    if ms != [] { PublishedIs(ms[..|ms| - 1]); }
  }

  /** One SUBSCRIBE per filter, each in its place, with consecutive ids. */
  lemma {:induction false} SubscribedIs(filters: seq<string>, sent: nat)
    ensures |Subscribed(filters, sent)| == |filters|
    ensures forall i :: 0 <= i < |filters| ==>
              Subscribed(filters, sent)[i] == SubscribePacket((sent + i) % 65535 + 1, filters[i])
  {
    if filters != [] {
      SubscribedIs(filters[..|filters| - 1], sent);
      IdClosedForm(sent + |filters| - 1);
      hide IdAfter, Written;
    }
  }

  /** The order of std::less on strings. */
  predicate Before(a: string, b: string) {
    b != "" && (a == "" || a[0] < b[0] || (a[0] == b[0] && Before(a[1..], b[1..])))
  }

  /** The texts differ at `k` for the first time, and `a` is smaller there. */
  predicate SmallerAt(a: string, b: string, k: nat) {
    k < |a| && k < |b| && a[..k] == b[..k] && a[k] < b[k]
  }

  lemma SmallerBelow(a: string, b: string, k: nat)
    requires a != "" && b != "" && a[0] == b[0]
    ensures SmallerAt(a, b, k + 1) <==> SmallerAt(a[1..], b[1..], k)
  {
    if k < |a| - 1 && k < |b| - 1 {
      assert a[..k + 1] == [a[0]] + a[1..][..k] && b[..k + 1] == [b[0]] + b[1..][..k];
      assert a[..k + 1][1..] == a[1..][..k] && b[..k + 1][1..] == b[1..][..k];
    }
  }

  lemma SmallerAtFirst(a: string, b: string, k: nat)
    requires a != "" && b != "" && a[0] != b[0]
    ensures SmallerAt(a, b, k) <==> k == 0 && a[0] < b[0]
  {
    if 0 < k < |a| && k < |b| {
      assert a[..k][0] == a[0] && b[..k][0] == b[0];
    }
  }

  /** A proper beginning comes first, and otherwise the first character that differs decides. */
  lemma {:induction false} BeforeIs(a: string, b: string)
    ensures Before(a, b) <==> a < b || exists k: nat :: SmallerAt(a, b, k)
  {
    if a != "" && b != "" {
      if a[0] == b[0] {
        BeforeIs(a[1..], b[1..]);
        assert a < b <==> a[1..] < b[1..];
        if k: nat :| SmallerAt(a[1..], b[1..], k) { SmallerBelow(a, b, k); }
        if k: nat :| SmallerAt(a, b, k) {
          assert a[k] < b[k];
          SmallerBelow(a, b, k - 1);
        }
      } else {
        SmallerAtFirst(a, b, 0);
        if k: nat :| SmallerAt(a, b, k) { SmallerAtFirst(a, b, k); }
      }
    }
  }

  lemma {:induction false} BeforeTotal(a: string, b: string)
    ensures a == b || Before(a, b) || Before(b, a)
  {
    if a != "" && b != "" && a[0] == b[0] {
      BeforeTotal(a[1..], b[1..]);
      assert a == [a[0]] + a[1..] && b == [b[0]] + b[1..];
    }
  }

  lemma {:induction false} BeforeTransitive(a: string, b: string, c: string)
    requires Before(a, b) && Before(b, c)
    ensures Before(a, c)
  {
    if a != "" && a[0] == b[0] == c[0] {
      BeforeTransitive(a[1..], b[1..], c[1..]);
    }
  }

  predicate IsLeast(f: string, filters: set<string>) {
    f in filters && forall g :: g in filters && g != f ==> Before(f, g)
  }

  lemma {:induction false} HasLeast(filters: set<string>) returns (least: string)
    requires filters != {}
    ensures IsLeast(least, filters)
  {
    var first :| first in filters;
    var others := filters - {first};
    assert filters == others + {first};
    least := first;
    if others != {} {
      var other := HasLeast(others);
      BeforeTotal(first, other);
      if Before(other, first) {
        least := other;
      } else {
        forall g | g in others && g != other ensures Before(first, g) {
          BeforeTransitive(first, other, g);
        }
      }
    }
  }

  /** `order` is how iterating the set visits it: each filter once, in ascending order. */
  ghost predicate Enumerates(order: seq<string>, filters: set<string>) {
    && (forall f :: f in order <==> f in filters)
    && (forall i, j :: 0 <= i < j < |order| ==> Before(order[i], order[j]))
  }

  /** `order` is the beginning of that iteration: the rest comes after. */
  ghost predicate Visited(order: seq<string>, filters: set<string>, rest: set<string>) {
    && rest <= filters && Enumerates(order, filters - rest)
    && (forall f, g :: f in order && g in rest ==> Before(f, g))
  }

  /** Where the iteration starts and what it has visited at its end. */
  lemma VisitEnds(filters: set<string>)
    ensures Visited([], filters, filters)
    ensures forall order :: Visited(order, filters, {}) ==> Enumerates(order, filters)
  {
    assert filters - filters == {} && filters - {} == filters;
  }

  /** One more filter of the iteration. */
  lemma VisitNext(order: seq<string>, filters: set<string>, rest: set<string>, f: string)
    requires Visited(order, filters, rest) && IsLeast(f, rest)
    ensures Visited(order + [f], filters, rest - {f})
  {
    var more := order + [f];
    forall i, j | 0 <= i < j < |more| ensures Before(more[i], more[j]) {
      if j == |order| {
        assert order[i] in order;
      }
    }
  }

  /** Subscribing the flat set reaches every filter with a live callback. */
  lemma EveryLiveFilter(s: Subs, live: seq<Pair>, order: seq<string>)
    requires Consistent(s, live) && Enumerates(order, s.topics)
    ensures forall f :: HasCallback(s, f) ==> f in order
  {
    forall f | HasCallback(s, f) ensures f in order {
      assert InSet(s, f);
    }
  }

  datatype PublishResult = Accepted | Refused | UndefinedQueue

  /** How a flush ends: everything tried, or a refused SUBSCRIBE that makes the reader join itself. */
  datatype FlushResult = Flushed | SelfJoin

  class Impl {
    var state: State
    const subs: Index
    var queueType: QueueType
    var queueSize: nat
    var publishQueue: seq<Message>
    var sendQueueSize: nat
    var connection: Connection?
    var packetId: nat
    /** The live pairs the tree stands for, and how many ids were written. */
    ghost var live: seq<Pair>
    ghost var sent: nat

    /** What holds whenever the client mutex is free. */
    ghost predicate Valid()
      reads this, subs, subs.repr, connection
    {
      && subs.Valid() && Consistent(subs.Value(), live)
      && (state == DISCONNECTED <==> connection == null) && (connection != null ==> connection.Valid())
      && (publishQueue != [] ==> state == CONNECTING)
      && packetId == IdAfter(sent)
    }

    constructor (queueType: QueueType, queueSize: nat, sendQueueSize: nat)
      ensures Valid() && fresh(subs) && subs.repr == {} && state == DISCONNECTED && subs.Value() == EMPTY
      ensures this.queueType == queueType && this.queueSize == queueSize && this.sendQueueSize == sendQueueSize
    {
      state, publishQueue, connection, packetId := DISCONNECTED, [], null, 0;
      this.queueType, this.queueSize, this.sendQueueSize := queueType, queueSize, sendQueueSize;
      subs := new Index();
      live, sent := [], 0;
    }

    /** Client::connect. */
    method Connect()
      requires Valid()
      modifies this`state, this`connection
      ensures Valid()
      ensures if old(state) == DISCONNECTED then state == CONNECTING && fresh(connection) && connection.accepted == []
              else state == old(state) && connection == old(connection)
    {
      if state != DISCONNECTED {
        return;
      }
      state := CONNECTING;
      connection := new Connection();
    }

    /** Impl::disconnect: the tree and the publish queue go, the flat set stays. */
    method Drop()
      requires Valid() && state != DISCONNECTED
      modifies this`publishQueue, this`connection, this`live, subs
      ensures connection == null && publishQueue == [] && live == [] && subs.repr == {}
      ensures subs.Valid() && Consistent(subs.Value(), live)
      ensures Done(subs.Value()) == Step(old(subs.Value()), Op.Clear)
    {
      hide Consistent, Split, Insert, Remove, Index.Valid, Index.Contents;
      StepKeeps(subs.Value(), Op.Clear, live);
      subs.Clear();
      publishQueue, connection, live := [], null, [];
    }

    /** Client::disconnect. */
    method Disconnect()
      requires Valid()
      modifies this`state, this`publishQueue, this`connection, this`live, subs
      ensures Valid() && state == DISCONNECTED
      ensures old(state) == DISCONNECTED ==> live == old(live) && subs.Value() == old(subs.Value())
      ensures old(state) != DISCONNECTED ==> Done(subs.Value()) == Step(old(subs.Value()), Op.Clear) && live == []
    {
      hide Consistent, Split, Insert, Remove, Index.Valid, Index.Contents;
      if state == DISCONNECTED {
        return;
      }
      Drop();
      state := DISCONNECTED;
    }

    /** Client::publish, with toPublishQueue while connecting and sendPublish while connected. */
    method Publish(m: Message) returns (r: PublishResult)
      requires Valid()
      modifies this`publishQueue, connection
      ensures Valid()
      ensures state == DISCONNECTED ==> r == Refused
      ensures state == CONNECTING ==>
                connection.accepted == old(connection.accepted) && connection.checks == old(connection.checks)
      ensures state == CONNECTING ==>
                match Enqueue(queueType, queueSize, old(publishQueue), m)
                case Queued(q) => r == Accepted && publishQueue == q
                case Dropped => r == Refused && publishQueue == old(publishQueue)
                case Undefined() => r == UndefinedQueue
      ensures state == CONNECTED ==>
                r != UndefinedQueue && connection.accepted ==
                                       old(connection.accepted) + if r == Accepted then [PublishPacket(m)] else []
      ensures state == CONNECTED ==>
                Tried(old(connection.checks), connection.checks, if r == Accepted then 1 else 0, r != Accepted,
                      sendQueueSize)
    {
      hide Consistent, Split, Insert, Remove, Index.Valid, Index.Contents;
      match state {
        case DISCONNECTED =>
          r := Refused;
        case CONNECTING =>
          match queueType {
            case DROP =>
              return Refused;
            case FIFO =>
              if |publishQueue| >= queueSize {
                if publishQueue == [] { return UndefinedQueue; }
                publishQueue := publishQueue[1..];
              }
            case LIFO =>
              if |publishQueue| >= queueSize {
                if publishQueue == [] { return UndefinedQueue; }
                publishQueue := publishQueue[..|publishQueue| - 1];
              }
          }
          publishQueue := publishQueue + [m];
          r := Accepted;
        case CONNECTED =>
          var ok := connection.Send(PublishPacket(m), sendQueueSize);
          r := if ok then Accepted else Refused;
      }
    }

    /** The id of the next SUBSCRIBE or UNSUBSCRIBE, skipping zero, in 16 bits. */
    method TakeId() returns (id: nat)
      requires packetId == IdAfter(sent)
      modifies this`packetId, this`sent
      ensures id == Written(IdAfter(old(sent))) && sent == old(sent) + 1 && packetId == IdAfter(sent)
    {
      if packetId == 0 {
        packetId := packetId + 1;
      }
      id := packetId;
      packetId := (packetId + 1) % 0x10000;
      sent := sent + 1;
    }

    /** The recovery branch: Impl::disconnect, then Impl::connect, with the client still connected. */
    method Reconnect()
      requires Valid() && state == CONNECTED
      modifies this`publishQueue, this`connection, this`live, subs
      ensures Valid() && fresh(connection) && connection.accepted == []
      ensures live == [] && publishQueue == [] && subs.repr == {}
      ensures subs.Value() == Subs(map[], old(subs.topics))
    {
      hide Consistent, Split, Insert, Remove, Index.Valid, Index.Contents;
      Drop();
      connection := new Connection();
    }

    /** Connection::sendSubscribe. */
    method SendSubscribe(topic: string) returns (ok: bool)
      requires connection != null && connection.Valid() && packetId == IdAfter(sent)
      modifies this`packetId, this`sent, connection
      ensures connection.Valid() && packetId == IdAfter(sent) && sent == old(sent) + 1
      ensures Tried(old(connection.checks), connection.checks, if ok then 1 else 0, !ok, sendQueueSize)
      ensures connection.accepted ==
              old(connection.accepted) + if ok then [SubscribePacket(Written(IdAfter(old(sent))), topic)] else []
    {
      var id := TakeId();
      ok := connection.Send(SubscribePacket(id, topic), sendQueueSize);
    }

    /** Connection::sendUnsubscribe. */
    method SendUnsubscribe(topic: string) returns (ok: bool)
      requires connection != null && connection.Valid() && packetId == IdAfter(sent)
      modifies this`packetId, this`sent, connection
      ensures connection.Valid() && packetId == IdAfter(sent) && sent == old(sent) + 1
      ensures Tried(old(connection.checks), connection.checks, if ok then 1 else 0, !ok, sendQueueSize)
      ensures connection.accepted ==
              old(connection.accepted) + if ok then [UnsubscribePacket(Written(IdAfter(old(sent))), topic)] else []
    {
      var id := TakeId();
      ok := connection.Send(UnsubscribePacket(id, topic), sendQueueSize);
    }

    /** Client::subscribe. `replaced` tells that the SUBSCRIBE was refused, exactly when the send queue was found
        too long, and the connection replaced: the new callback is lost with the whole tree, while the filter
        stays in the flat set. */
    method Subscribe(topic: string, callback: Callback) returns (replaced: bool)
      requires Valid()
      modifies this`packetId, this`sent, this`live, this`publishQueue, this`connection, subs, subs.repr, connection
      ensures Valid() && fresh(subs.repr - old(subs.repr))
      ensures publishQueue == if replaced then [] else old(publishQueue)
      ensures sent == old(sent) + if state == CONNECTED then 1 else 0
      ensures !replaced ==> connection == old(connection)
      ensures old(connection) != null ==>
                old(connection).accepted ==
                old(connection.accepted) +
                if state == CONNECTED && !replaced then [SubscribePacket(Written(IdAfter(old(sent))), topic)] else []
      ensures state == DISCONNECTED ==> !replaced && subs.Value() == old(subs.Value()) && live == old(live)
      ensures replaced ==> state == CONNECTED
      ensures old(connection) != null ==>
                if state == CONNECTED
                then Tried(old(connection.checks), old(connection).checks, if replaced then 0 else 1, replaced,
                           sendQueueSize)
                else old(connection).checks == old(connection.checks)
      ensures state != DISCONNECTED && !replaced ==>
                && live == old(live) + [Pair(topic, callback)]
                && Done(subs.Value()) == Step(old(subs.Value()), Op.Subscribe(topic, callback))
      ensures replaced ==> live == [] && subs.Value() == Subs(map[], old(subs.topics) + {topic})
      ensures replaced ==> fresh(connection) && connection.accepted == []
    {
      hide Consistent, Split, Insert, Remove, Index.Valid, Index.Contents;
      replaced := false;
      if state == DISCONNECTED {
        return;
      }
      StepKeeps(subs.Value(), Op.Subscribe(topic, callback), live);
      subs.Subscribe(topic, callback);
      live := live + [Pair(topic, callback)];
      if state == CONNECTED {
        var ok := SendSubscribe(topic);
        if !ok {
          Reconnect();
          replaced := true;
        }
      }
    }

    /** Client::unsubscribe. `WalkedOff` is the source's undefined behaviour. */
    method Unsubscribe(topic: string) returns (r: Unsubscribed, replaced: bool)
      requires Valid()
      modifies this`packetId, this`sent, this`live, this`publishQueue, this`connection, subs, subs.repr, connection
      ensures Valid()
      ensures publishQueue == if replaced then [] else old(publishQueue)
      ensures sent == old(sent) + if state == CONNECTED && r == Removed then 1 else 0
      ensures old(connection) != null ==>
                old(connection).accepted ==
                old(connection.accepted) +
                if state == CONNECTED && r == Removed && !replaced
                then [UnsubscribePacket(Written(IdAfter(old(sent))), topic)] else []
      ensures state == DISCONNECTED ==> r == NotSubscribed && !replaced && subs.Value() == old(subs.Value())
      ensures state != DISCONNECTED ==>
                (r == WalkedOff <==> Step(old(subs.Value()), Op.Unsubscribe(topic)) == Outcome.Undefined)
      ensures state != DISCONNECTED && r != WalkedOff && !replaced ==>
                Done(subs.Value()) == Step(old(subs.Value()), Op.Unsubscribe(topic))
      ensures !replaced ==> connection == old(connection)
      ensures r != Removed ==> live == old(live)
      ensures r == Removed && !replaced ==> live == Without(old(live), topic)
      ensures replaced ==> state == CONNECTED && r == Removed
      ensures old(connection) != null ==>
                if state == CONNECTED && r == Removed
                then Tried(old(connection.checks), old(connection).checks, if replaced then 0 else 1, replaced,
                           sendQueueSize)
                else old(connection).checks == old(connection.checks)
      ensures replaced ==> live == [] && subs.Value() == Subs(map[], old(subs.topics) - {topic})
      ensures replaced ==> fresh(connection) && connection.accepted == []
    {
      hide Consistent, Split, Insert, Remove, Index.Valid, Index.Contents;
      replaced := false;
      if state == DISCONNECTED {
        return NotSubscribed, false;
      }
      StepKeeps(subs.Value(), Op.Unsubscribe(topic), live);
      r := subs.Unsubscribe(topic);
      if r != Removed {
        return;
      }
      live := Without(live, topic);
      if state == CONNECTED {
        var ok := SendUnsubscribe(topic);
        if !ok {
          Reconnect();
          replaced := true;
        }
      }
    }

    /** Impl::messageReceived: the callbacks run, none unless connected. */
    method MessageReceived(topic: string) returns (run: seq<Callback>)
      requires Valid()
      ensures state != CONNECTED ==> run == []
      ensures state == CONNECTED ==> run == Deliver(subs.Value().tree, [], Split(topic))
      ensures state == CONNECTED && NoWildcard(Split(topic)) ==> multiset(run) == multiset(Matching(live, Split(topic)))
    {
      if state != CONNECTED {
        return [];
      }
      run := subs.FindSubscriptionMatch(topic, subs.subscriptions, []);
      if NoWildcard(Split(topic)) {
        DeliverIsMatching(subs.Contents(), live, Split(topic));
      }
    }

    /** The first loop of connectionStateChange(true): one SUBSCRIBE per filter of the flat set, in the order of
        the set, until one is refused because the send queue was found too long. */
    method RestoreSubscriptions() returns (ok: bool, order: seq<string>)
      requires connection != null && connection.Valid() && packetId == IdAfter(sent)
      modifies this`packetId, this`sent, connection
      ensures connection.Valid() && packetId == IdAfter(sent)
      ensures sent == old(sent) + |order| + if ok then 0 else 1
      ensures connection.accepted == old(connection.accepted) + Subscribed(order, old(sent))
      ensures ok ==> Enumerates(order, subs.topics)
      ensures Tried(old(connection.checks), connection.checks, |order|, !ok, sendQueueSize)
      ensures !ok ==> exists rest :: rest != {} && Visited(order, subs.topics, rest)
    {
      order, ok := [], true;
      var left := subs.topics;
      VisitEnds(subs.topics);
      assert Subscribed([], sent) == [];
      assert Tried(connection.checks, connection.checks, 0, false, sendQueueSize);
      hide Visited, Enumerates, Before, IsLeast, Subscribed, Written, IdAfter, Connection.Valid, Tried;
      while left != {}
        invariant connection.Valid() && Visited(order, subs.topics, left)
        invariant sent == old(sent) + |order| && packetId == IdAfter(sent)
        invariant Tried(old(connection.checks), connection.checks, |order|, false, sendQueueSize)
        invariant connection.accepted == old(connection.accepted) + Subscribed(order, old(sent))
        decreases left
      {
        ghost var least := HasLeast(left);
        ghost var before := sent;
        var f :| IsLeast(f, left);
        ghost var tried := connection.checks;
        ok := SendSubscribe(f);
        TriedThen(old(connection.checks), tried, connection.checks, |order|, if ok then 1 else 0, !ok, sendQueueSize);
        if !ok {
          return;
        }
        VisitNext(order, subs.topics, left, f);
        SubscribedOneMore(order, old(sent), f);
        Regroup(old(connection.accepted), Subscribed(order, old(sent)), [SubscribePacket(Written(IdAfter(before)), f)]);
        order, left := order + [f], left - {f};
      }
    }

    /** The second loop: the queued publishes in order, until one is refused. */
    method FlushPublishes() returns (k: nat, refused: bool)
      requires connection != null && connection.Valid()
      modifies connection
      ensures connection.Valid() && k <= |publishQueue| && (refused <==> k < |publishQueue|)
      ensures Tried(old(connection.checks), connection.checks, k, refused, sendQueueSize)
      ensures connection.accepted == old(connection.accepted) + Published(publishQueue[..k])
    {
      k, refused := 0, false;
      assert Published([]) == [];
      assert Tried(connection.checks, connection.checks, 0, false, sendQueueSize);
      hide Published, Connection.Valid, Tried;
      while k < |publishQueue|
        invariant 0 <= k <= |publishQueue| && connection.Valid()
        invariant Tried(old(connection.checks), connection.checks, k, false, sendQueueSize)
        invariant connection.accepted == old(connection.accepted) + Published(publishQueue[..k])
      {
        ghost var tried := connection.checks;
        var ok := connection.Send(PublishPacket(publishQueue[k]), sendQueueSize);
        TriedThen(old(connection.checks), tried, connection.checks, k, if ok then 1 else 0, !ok, sendQueueSize);
        if !ok {
          refused := true;
          return;
        }
        PublishedOneMore(publishQueue, k);
        Regroup(old(connection.accepted), Published(publishQueue[..k]), [PublishPacket(publishQueue[k])]);
        k := k + 1;
      }
    }

    /** connectionStateChange(true). With no refusal every filter of the flat set, and so every filter with a live
        callback, is subscribed once in the order of the set and then the whole publish queue is sent in order;
        a refused publish cuts it to a prefix; a refused SUBSCRIBE ends in the reader joining itself. */
    method ConnectionUp() returns (r: FlushResult, order: seq<string>, k: nat, refused: bool)
      requires Valid() && connection != null
      modifies this`state, this`packetId, this`sent, this`live, this`publishQueue, this`connection, subs, connection
      ensures state == CONNECTED && publishQueue == []
      ensures r == Flushed ==>
                Valid() && connection == old(connection) && live == old(live) && sent == old(sent) + |order|
      ensures r == Flushed ==>
                && Enumerates(order, subs.topics) && subs.Value() == old(subs.Value())
                && (forall f :: HasCallback(subs.Value(), f) ==> f in order)
      ensures r == Flushed ==>
                && k <= |old(publishQueue)| && (refused <==> k < |old(publishQueue)|)
                && connection.accepted ==
                   old(connection.accepted) + Subscribed(order, old(sent)) + Published(old(publishQueue)[..k])
      ensures r == Flushed ==>
                Tried(old(connection.checks), connection.checks, |order| + k, refused, sendQueueSize)
      ensures r == SelfJoin ==>
                && connection == null && live == [] && subs.Valid() && subs.Value() == Subs(map[], old(subs.topics))
                && Tried(old(connection.checks), old(connection).checks, |order|, true, sendQueueSize)
                && sent == old(sent) + |order| + 1
                && old(connection).accepted == old(connection.accepted) + Subscribed(order, old(sent))
                && exists rest :: rest != {} && Visited(order, subs.topics, rest)
    {
      hide Consistent, Split, Insert, Remove, Index.Valid, Index.Contents;
      state := CONNECTED;
      var ok;
      k, refused := 0, false;
      ok, order := RestoreSubscriptions();
      if !ok {
        subs.Clear();
        publishQueue, connection, live := [], null, [];
        return SelfJoin, order, k, refused;
      }
      ghost var tried := connection.checks;
      k, refused := FlushPublishes();
      TriedThen(old(connection.checks), tried, connection.checks, |order|, k, refused, sendQueueSize);
      publishQueue := [];
      r := Flushed;
      EveryLiveFilter(subs.Value(), live, order);
    }

    /** connectionStateChange(false). */
    method ConnectionDown()
      requires Valid() && connection != null
      modifies this`state
      ensures Valid() && state == CONNECTING
    {
      state := CONNECTING;
    }
  }
}
