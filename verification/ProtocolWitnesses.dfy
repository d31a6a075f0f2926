/** Each way in which a packet other than CONNECT comes first on a socket is taken by a run of the protocol,
    and the bound of the send queue is attained. */
module ProtocolWitnesses {
  import opened SendProtocol
  import opened ProtocolSafety

  lemma {:induction false} RunAppend(s: State, run: seq<Action>, a: Action)
    requires Run(s, run).Reached? && Enabled(Run(s, run).state, a)
    ensures Run(s, run + [a]) == Reached(Apply(Run(s, run).state, a))
    decreases |run|
  {
    hide Apply, Enabled;
    if run == [] {
      assert ([] + [a])[1..] == [];
    } else {
      assert (run + [a])[1..] == run[1..] + [a];
      RunAppend(Apply(s, run[0]), run[1..], a);
    }
  }

  /** One more step keeps a state reachable. */
  lemma Go(limit: nat, s: State, a: Action) returns (t: State)
    requires Reachable(limit, s) && Enabled(s, a)
    ensures t == Apply(s, a) && Reachable(limit, t)
  {
    hide Apply, Enabled;
    var run :| Run(Init(limit), run) == Reached(s);
    RunAppend(Init(limit), run, a);
    t := Apply(s, a);
  }

  lemma Start(limit: nat) returns (t: State)
    ensures t == Init(limit) && Reachable(limit, t)
  {
    t := Init(limit);
    assert Run(t, []) == Reached(t);
  }

  /** From the head of the loop in RESOLVING to the search for a socket. */
  lemma Resolve(limit: nat, s: State) returns (t: State)
    requires Reachable(limit, s) && s.reader == AtLoop && s.conn == Resolving
    ensures Reachable(limit, t) && t == s.(conn := Dialing, reader := InDial, socket := false)
  {
    hide Reachable;
    t := Go(limit, s, Reading(ReadState));
    t := Go(limit, t, Reading(ResolveWorks));
    t := Go(limit, t, Reading(StoreDialing));
    t := Go(limit, t, Reading(ReadState));
  }

  /** And on to a new socket about to be greeted. */
  lemma Dial(limit: nat, s: State) returns (t: State)
    requires Reachable(limit, s) && s.reader == AtLoop && s.conn == Resolving
    ensures Reachable(limit, t)
    ensures t == s.(conn := Authenticating, reader := PushConnect, socket := true, sockets := s.sockets + 1,
                    greeting := Fresh, connack := false)
  {
    hide Reachable;
    t := Resolve(limit, s);
    t := Go(limit, t, Reading(DialConnects));
    t := Go(limit, t, Reading(ChosenChecksStop));
    t := Go(limit, t, Reading(StoreAuthenticating));
  }

  /** connect(), then the first socket, its CONNECT in the queue. */
  lemma Greet(limit: nat) returns (t: State)
    ensures Reachable(limit, t)
    ensures t == Init(limit).(client := Connecting, live := true, conn := Authenticating, reader := AtLoop,
                              writer := Looking, queue := [Connect(1)], socket := true, sockets := 1,
                              greeting := Queued)
  {
    hide Reachable;
    t := Start(limit);
    t := Go(limit, t, Application(Lock));
    t := Go(limit, t, Application(Begin));
    t := Dial(limit, t);
    t := Go(limit, t, Reading(QueueConnect));
  }

  /** The writer pops the CONNECT at the front of the queue. */
  lemma TakeConnect(limit: nat, s: State) returns (t: State)
    requires Reachable(limit, s) && s.writer == Looking && Authorised(s.conn)
    requires s.queue != [] && s.queue[0] == Connect(s.sockets)
    ensures Reachable(limit, t)
    ensures t == s.(queue := s.queue[1..], popped := s.popped + [s.queue[0]], greeting := Taken,
                    writer := Holding(s.queue[0], s.sockets))
  {
    hide Reachable;
    t := Go(limit, s, Writing(Look));
    t := Go(limit, t, Writing(Pop));
  }

  /** The writer writes what it holds, when that is no packet to be recorded as early. */
  lemma Deliver(limit: nat, s: State) returns (t: State)
    requires Reachable(limit, s) && s.writer.Holding? && !PassesConnect(s, s.writer) && Authorised(s.conn) && s.socket
    ensures Reachable(limit, t)
    ensures t == s.(writer := Looking, wire := s.wire + [Sent(s.sockets, s.writer.packet, s.writer.popped)])
  {
    t := Go(limit, s, Writing(CheckState));
    t := Go(limit, t, Writing(Put));
  }

  /** The writer writes a packet it popped on this socket before CONNECT. */
  lemma DeliverEarly(limit: nat, s: State) returns (t: State)
    requires Reachable(limit, s) && s.writer.Holding? && PassesConnect(s, s.writer) && Authorised(s.conn) && s.socket
    ensures Reachable(limit, t)
    ensures t == s.(writer := Looking, wire := s.wire + [Sent(s.sockets, s.writer.packet, s.writer.popped)],
                    early := s.early + {s.sockets})
  {
    t := Go(limit, s, Writing(CheckState));
    t := Go(limit, t, Writing(Put));
  }

  /** A CONNACK with code 0 has been read. */
  lemma ReadConnack(limit: nat, s: State) returns (t: State)
    requires Reachable(limit, s) && s.reader == AtLoop && Authorised(s.conn)
    ensures Reachable(limit, t) && t == s.(reader := SetUp, connack := true)
  {
    hide Reachable;
    t := Go(limit, s, Reading(ReadState));
    t := Go(limit, t, Session(RecvConnack));
  }

  /** A CONNACK with code 0, nothing to flush. */
  lemma Acknowledge(limit: nat, s: State) returns (t: State)
    requires Reachable(limit, s) && s.reader == AtLoop && Authorised(s.conn) && s.app == Idle
    ensures Reachable(limit, t) && t == s.(conn := Up, client := Connected, carried := false, connack := true)
  {
    hide Reachable;
    t := ReadConnack(limit, s);
    t := Go(limit, t, Session(StoreUp));
    t := Go(limit, t, Session(TellUp));
    t := Go(limit, t, Session(FlushEnds));
  }

  /** CONNECT written, CONNACK received, nothing to flush. */
  lemma Establish(limit: nat) returns (t: State)
    ensures Reachable(limit, t)
    ensures t == Init(limit).(client := Connected, live := true, conn := Up, reader := AtLoop, writer := Looking,
                              socket := true, sockets := 1, greeting := Taken, popped := [Connect(1)],
                              wire := [Sent(1, Connect(1), 1)], connack := true)
  {
    hide Reachable;
    t := Greet(limit);
    t := TakeConnect(limit, t);
    t := Deliver(limit, t);
    t := Acknowledge(limit, t);
  }

  /** From a broken recvLoop to the socket closed. */
  lemma Fail(limit: nat, s: State) returns (t: State)
    requires Reachable(limit, s) && s.reader == AtLoop && s.conn == Up
    ensures Reachable(limit, t)
    ensures t == s.(conn := SocketError, socket := false)
  {
    hide Reachable;
    t := Go(limit, s, Reading(ReadState));
    t := Go(limit, t, Session(RecvFails));
    t := Go(limit, t, Ending(FailedChecksStop));
    t := Go(limit, t, Ending(StoreError));
    t := Go(limit, t, Ending(CloseIt));
  }

  /** SOCKET_ERROR: the client is told and the queue cleared. */
  lemma Report(limit: nat, s: State) returns (t: State)
    requires Reachable(limit, s) && s.reader == AtLoop && s.conn == SocketError && s.app == Idle && s.greeting == Taken
    ensures Reachable(limit, t)
    ensures t == s.(client := Connecting, carried := false, connack := false, conn := Backoff, queue := [])
  {
    hide Reachable;
    t := Go(limit, s, Reading(ReadState));
    t := Go(limit, t, Ending(StoreBackoff));
    t := Go(limit, t, Ending(TellDown));
    t := Go(limit, t, Ending(EmptyQueue));
  }

  /** BACKOFF: sleep, then resolve again. */
  lemma Retry(limit: nat, s: State) returns (t: State)
    requires Reachable(limit, s) && s.reader == AtLoop && s.conn == Backoff
    ensures Reachable(limit, t) && t == s.(conn := Resolving)
  {
    hide Reachable;
    t := Go(limit, s, Reading(ReadState));
    t := Go(limit, t, Ending(Wake));
    t := Go(limit, t, Ending(StoreResolving));
  }

  /** One publish accepted. */
  lemma Publish(limit: nat, s: State) returns (t: State)
    requires Reachable(limit, s) && MutexFree(s) && s.client == Connected && |s.queue| <= s.limit
    ensures Reachable(limit, t) && t == Accept(s)
  {
    t := Go(limit, s, Application(Lock));
    t := Go(limit, t, Application(CheckSize));
    t := Go(limit, t, Application(Push));
  }

  /** The writer pops a data packet. */
  lemma Take(limit: nat, s: State) returns (t: State)
    requires Reachable(limit, s) && s.writer == Looking && Authorised(s.conn) && s.queue != [] && s.queue[0].Data?
    ensures Reachable(limit, t)
    ensures t == s.(queue := s.queue[1..], popped := s.popped + [s.queue[0]], writer := Holding(s.queue[0], s.sockets))
  {
    t := Go(limit, s, Writing(Look));
    t := Go(limit, t, Writing(Pop));
  }

  /** A packet popped on the first socket is written first on the second one. */
  lemma StalePacketComesFirst() returns (t: State)
    ensures Reachable(3, t) && !t.recovered && t.early == {} && t.discarded == {}
    ensures t.wire == [Sent(1, Connect(1), 1), Sent(2, Data(0), 1)]
  {
    hide Reachable;
    t := Establish(3);
    t := Publish(3, t);
    t := Take(3, t);
    t := Fail(3, t);
    t := Report(3, t);
    t := Retry(3, t);
    t := Dial(3, t);
    t := Deliver(3, t);
  }

  /** A ping is due and pushed in front of whatever is queued. */
  lemma PushPing(limit: nat, s: State) returns (t: State)
    requires Reachable(limit, s) && s.reader == AtLoop && Authorised(s.conn)
    ensures Reachable(limit, t) && t == s.(reader := InRecv, queue := [Ping] + s.queue)
  {
    hide Reachable;
    t := Go(limit, s, Reading(ReadState));
    t := Go(limit, t, Session(RecvPings));
  }

  /** A ping pushed in front of the queued CONNECT and taken up by the writer goes out first. */
  lemma EarlyPingComesFirst() returns (t: State)
    ensures Reachable(3, t) && !t.recovered
    ensures t.wire == [Sent(1, Ping, 1)] && t.early == {1}
  {
    hide Reachable;
    t := Greet(3);
    t := PushPing(3, t);
    t := Go(3, t, Writing(Look));
    t := Go(3, t, Writing(Pop));
    t := DeliverEarly(3, t);
  }

  /** disconnect() while the writer holds a ping: the ping is thrown away. */
  lemma DropHeld(s: State) returns (t: State)
    requires Reachable(3, s) && MutexFree(s) && s.client == Connecting && s.writer.Holding? && s.writer.packet == Ping
    ensures Reachable(3, t)
    ensures t == s.(app := Joining, client := Disconnected, conn := Stop, writer := Looking)
  {
    hide Reachable;
    t := Go(3, s, Application(Lock));
    t := Go(3, t, Application(Close));
    t := Go(3, t, Application(RequestStop));
    t := Go(3, t, Writing(CheckState));
  }

  lemma PingDropped() returns (t: State)
    ensures Reachable(3, t)
    ensures t == Init(3).(app := Joining, live := true, conn := Stop, reader := SetUp, writer := Looking,
                          queue := [Connect(1)], socket := true, sockets := 1, greeting := Queued, popped := [Ping],
                          connack := true)
  {
    hide Reachable;
    t := Greet(3);
    t := PushPing(3, t);
    t := Go(3, t, Session(RecvConnack));
    t := Go(3, t, Writing(Look));
    t := Go(3, t, Writing(Pop));
    t := DropHeld(t);
  }

  /** Pushing a ping in front of CONNECT is no excuse by itself: thrown away on STOP, which a CONNACK then
      overwrites, it leaves CONNECT the first packet. */
  lemma DroppedPingIsNoExcuse() returns (t: State)
    ensures Reachable(3, t) && !t.recovered && Ping in t.popped
    ensures t.wire == [Sent(1, Connect(1), 1)] && t.early == {} && t.discarded == {}
  {
    hide Reachable;
    t := PingDropped();
    t := Go(3, t, Session(StoreUp));
    t := TakeConnect(3, t);
    t := Deliver(3, t);
  }

  lemma StopWhileHolding(s: State) returns (t: State)
    requires Reachable(3, s) && s.app == Idle && s.reader == AtLoop && s.conn == Up && s.client == Connected
    requires s.writer == Holding(Connect(1), 1) && s.sockets == 1
    ensures Reachable(3, t)
    ensures t == s.(app := Joining, client := Disconnected, conn := Stop, reader := SetUp, writer := Looking,
                    connack := true, discarded := s.discarded + {1})
  {
    hide Reachable;
    t := ReadConnack(3, s);
    t := Go(3, t, Application(Lock));
    t := Go(3, t, Application(Close));
    t := Go(3, t, Application(RequestStop));
    t := Go(3, t, Writing(CheckState));
  }

  /** CONNACK arrives while the writer still holds CONNECT, STOP makes the writer drop it, a second CONNACK
      overwrites STOP: the next packet goes out without a CONNECT before it. */
  lemma DiscardedConnect() returns (t: State)
    ensures Reachable(3, t) && !t.recovered
    ensures t.wire == [Sent(1, Data(0), 1)] && t.discarded == {1}
  {
    hide Reachable;
    t := Greet(3);
    t := TakeConnect(3, t);
    t := Acknowledge(3, t);
    t := Publish(3, t);
    t := StopWhileHolding(t);
    t := Go(3, t, Session(StoreUp));
    t := Take(3, t);
    t := Deliver(3, t);
  }

  /** The bound is attained: with size 0 one data packet is accepted. */
  lemma BoundIsAttained() returns (t: State)
    ensures Reachable(0, t) && |Ids(t.queue)| == t.limit + 1
  {
    hide Reachable;
    t := Establish(0);
    t := Publish(0, t);
    assert t.queue == [Data(0)];
    IdsOfOne(Data(0));
  }

  /** The recovery branch of a refused subscribe. */
  lemma Replace(s: State) returns (t: State)
    requires Reachable(0, s) && MutexFree(s) && s.client == Connected && |s.queue| > s.limit
    requires s.reader == AtLoop && s.writer == Looking
    ensures Reachable(0, t) && t == Started(s).(recovered := true, carried := true)
  {
    hide Reachable;
    t := Go(0, s, Application(Lock));
    t := Go(0, t, Application(Recover));
    t := Go(0, t, Reading(ReadState));
    t := Go(0, t, Writing(Look));
    t := Go(0, t, Application(Rejoined));
  }

  /** After a recovery branch the client stays CONNECTED while the new connection is still resolving: data is
      queued before any CONNECT and can be popped between the store of AUTHENTICATING and the push. The client
      is CONNECTED without a CONNACK on its socket. */
  lemma RecoveryBreaksTheOrder() returns (t: State)
    ensures Reachable(0, t) && t.early == {2} && t.client == Connected && !t.connack
    ensures t.wire == [Sent(1, Connect(1), 1), Sent(2, Data(1), 2)]
  {
    hide Reachable;
    t := Establish(0);
    t := Publish(0, t);
    t := Replace(t);
    t := Publish(0, t);
    t := Dial(0, t);
    t := Take(0, t);
    t := DeliverEarly(0, t);
  }
}
