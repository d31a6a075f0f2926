/** What every run of the send protocol keeps: who excludes whom, the order and the bound of the send
    queue, the client's states, and which packet is first on a socket. One lemma per party and invariant. */
module ProtocolSafety {
  import opened Common
  import opened SendProtocol

  // ---- Who may be where: every run, recovery included ----------------------------------------

  /** Between locked operations the client is DISCONNECTED exactly when there is no connection; the mutex has
      one holder; STOP is stored only while the application waits for the threads (or the reader for itself). */
  predicate Exclusive(s: State) {
    && (!s.live ==> s.client.Disconnected? && s.reader.ReaderDone? && s.writer.WriterDone?
                    && (s.app.Idle? || s.app.Locked?) && s.queue == [])
    && (s.live ==> (s.client.Disconnected? <==> s.app.Closing? || s.app.Joining?))
    && (s.app.Checked? ==> s.client.Connected?)
    && (s.app.Rejoining? ==> s.client.Connected? && s.recovered)
    && (ReaderHoldsMutex(s) ==> s.app.Idle? && s.client.Connected?)
    && (s.reader.SelfJoin? ==> s.recovered)
    && (s.live && s.conn.Stop? ==> s.app.Joining? || s.app.Rejoining? || s.reader.SelfJoin?)
    && (s.live && s.reader.ReaderDone? ==> s.app.Joining? || s.app.Rejoining?)
    && (s.reader.ReaderDone? ==> !Authorised(s.conn))
  }

  lemma ExclusiveApp(s: State, a: AppStep)
    requires Exclusive(s) && AppEnabled(s, a)
    ensures Exclusive(ApplyApp(s, a)) && ApplyApp(s, a).limit == s.limit
  {
  }

  lemma ExclusiveReader(s: State, a: ReaderStep)
    requires Exclusive(s) && ReaderEnabled(s, a)
    ensures Exclusive(ApplyReader(s, a)) && ApplyReader(s, a).limit == s.limit
  {
  }

  lemma ExclusiveSession(s: State, a: SessionStep)
    requires Exclusive(s) && SessionEnabled(s, a)
    ensures Exclusive(ApplySession(s, a)) && ApplySession(s, a).limit == s.limit
  {
  }

  lemma ExclusiveEnding(s: State, a: EndingStep)
    requires Exclusive(s) && EndingEnabled(s, a)
    ensures Exclusive(ApplyEnding(s, a)) && ApplyEnding(s, a).limit == s.limit
  {
  }

  lemma ExclusiveWriter(s: State, a: WriterStep)
    requires Exclusive(s) && WriterEnabled(s, a)
    ensures Exclusive(ApplyWriter(s, a)) && ApplyWriter(s, a).limit == s.limit
  {
  }

  // ---- Order and bound: every run, recovery included ------------------------------------------

  function Ids(q: seq<Packet>): seq<nat> {
    if q == [] then [] else (if q[0].Data? then [q[0].id] else []) + Ids(q[1..])
  }

  lemma {:induction false} IdsOfConcat(q: seq<Packet>, r: seq<Packet>)
    ensures Ids(q + r) == Ids(q) + Ids(r)
  {
    if q == [] {
      assert q + r == r;
    } else {
      assert (q + r)[0] == q[0] && (q + r)[1..] == q[1..] + r;
      IdsOfConcat(q[1..], r);
      Regroup(if q[0].Data? then [q[0].id] else [], Ids(q[1..]), Ids(r));
    }
  }

  lemma IdsOfOne(p: Packet)
    ensures Ids([p]) == if p.Data? then [p.id] else []
  {
    assert [p][1..] == [];
  }

  lemma {:induction false} IdsFit(q: seq<Packet>)
    ensures |Ids(q)| <= |q|
  {
    if q != [] { IdsFit(q[1..]); }
  }

  predicate Increasing(ids: seq<nat>, bound: nat) {
    && (forall i, j :: 0 <= i < j < |ids| ==> ids[i] < ids[j])
    && (forall i :: 0 <= i < |ids| ==> ids[i] < bound)
  }

  /** Data in acceptance order, popped first and queued after it; nothing twice. */
  predicate Ordered(s: State) {
    Increasing(Ids(s.popped) + Ids(s.queue), s.accepted)
  }

  /** At most one data packet beyond the limit, and none beyond it while a sender that has passed the
      size check has not pushed yet. */
  predicate Bounded(s: State) {
    && |Ids(s.queue)| <= s.limit + 1
    && (s.app.Checked? || s.reader.FlushChecked? ==> |Ids(s.queue)| <= s.limit)
  }

  predicate QueueInv(s: State) {
    Ordered(s) && Bounded(s)
  }

  lemma Dropped(ids: seq<nat>, queued: seq<nat>, bound: nat)
    requires Increasing(ids + queued, bound)
    ensures Increasing(ids + [], bound)
  {
    assert forall i :: 0 <= i < |ids| ==> ids[i] == (ids + queued)[i];
  }

  lemma Appended(ids: seq<nat>, queued: seq<nat>, bound: nat)
    requires Increasing(ids + queued, bound)
    ensures Increasing(ids + (queued + [bound]), bound + 1)
  {
    assert ids + (queued + [bound]) == (ids + queued) + [bound];
  }

  lemma AcceptKeeps(s: State)
    requires QueueInv(s) && |Ids(s.queue)| <= s.limit
    ensures Ordered(Accept(s)) && |Ids(Accept(s).queue)| <= s.limit + 1
  {
    IdsOfConcat(s.queue, [Data(s.accepted)]);
    IdsOfOne(Data(s.accepted));
    Appended(Ids(s.popped), Ids(s.queue), s.accepted);
  }

  lemma QueueApp(s: State, a: AppStep)
    requires Exclusive(s) && QueueInv(s) && AppEnabled(s, a)
    ensures QueueInv(ApplyApp(s, a))
  {
    Dropped(Ids(s.popped), Ids(s.queue), s.accepted);
    IdsFit(s.queue);
    if a == Push { AcceptKeeps(s); }
  }

  /** What is pushed in front is not data. */
  lemma IdsBehind(p: Packet, q: seq<Packet>)
    requires !p.Data?
    ensures Ids([p] + q) == Ids(q)
  {
    assert ([p] + q)[1..] == q;
  }

  /** What a step of the reader on its way to a socket leaves alone. */
  predicate ReaderLeaves(s: State, a: ReaderStep, t: State) {
    && t.limit == s.limit && t.app == s.app && t.writer == s.writer && t.popped == s.popped
    && t.accepted == s.accepted && t.recovered == s.recovered && !t.reader.FlushChecked?
    && t.wire == s.wire && t.discarded == s.discarded && t.early == s.early
    && t.queue == (if a.QueueConnect? then [Connect(s.sockets)] + s.queue else s.queue)
    && (if a.DialConnects? then t.sockets == s.sockets + 1 else t.sockets == s.sockets && (t.socket ==> s.socket))
    && (!a.DialConnects? && !a.QueueConnect? ==> t.greeting == s.greeting)
  }

  lemma ReaderFrame(s: State, a: ReaderStep)
    requires ReaderEnabled(s, a)
    ensures ReaderLeaves(s, a, ApplyReader(s, a))
  {
  }

  lemma QueueReader(s: State, a: ReaderStep)
    requires QueueInv(s) && ReaderEnabled(s, a)
    ensures QueueInv(ApplyReader(s, a))
  {
    IdsBehind(Connect(s.sockets), s.queue);
    ReaderFrame(s, a);
    hide Ids, Increasing, ReaderEnabled, ApplyReader;
  }

  lemma QueueSession(s: State, a: SessionStep)
    requires Exclusive(s) && QueueInv(s) && SessionEnabled(s, a)
    ensures QueueInv(ApplySession(s, a))
  {
    IdsBehind(Ping, s.queue);
    IdsFit(s.queue);
    hide Ids, Increasing;
    if a == FlushPushes { AcceptKeeps(s); }
  }

  lemma QueueEnding(s: State, a: EndingStep)
    requires QueueInv(s) && EndingEnabled(s, a)
    ensures QueueInv(ApplyEnding(s, a))
  {
    Dropped(Ids(s.popped), Ids(s.queue), s.accepted);
  }

  lemma QueueWriter(s: State, a: WriterStep)
    requires QueueInv(s) && WriterEnabled(s, a)
    ensures QueueInv(ApplyWriter(s, a))
  {
    hide Ids, Increasing;
    if a == Pop {
      var front, rest := [s.queue[0]], s.queue[1..];
      IdsOfConcat(s.popped, front);
      IdsOfConcat(front, rest);
      assert s.queue == front + rest;
      assert (Ids(s.popped) + Ids(front)) + Ids(rest) == Ids(s.popped) + (Ids(front) + Ids(rest));
    }
  }

  // ---- Where reader and connection are: every run, recovery included -----------------------------------

  predicate TalkPlace(r: Reader) {
    r.InRecv? || r.SetUp? || r.NotifyUp? || r.Flush? || r.FlushChecked?
    || r.RecvFailed? || r.SetSocketError? || r.CloseSocket?
  }

  predicate DialPlace(r: Reader) {
    r.InResolve? || r.SetDialing? || r.InDial? || r.Asleep? || r.SetResolving?
  }

  predicate ChosenPlace(r: Reader) {
    r.Chosen? || r.SetAuthenticating? || r.PushConnect?
  }

  predicate EndPlace(r: Reader) {
    r.SetBackoff? || r.NotifyDown? || r.ClearQueue?
  }

  predicate Searching(c: ConnState) {
    c.Resolving? || c.Dialing? || c.Backoff?
  }

  /** Which connection states each place of the reader allows. */
  predicate Places(s: State) {
    && (s.reader.NotifyUp? ==> s.conn.Up? || s.conn.SocketError? || s.conn.Stop?)
    && (s.reader.CloseSocket? ==> s.conn.SocketError? || s.conn.Stop?)
    && (TalkPlace(s.reader) || s.reader.PushConnect? ==> !Searching(s.conn))
    && (DialPlace(s.reader) ==> !Authorised(s.conn))
    && (EndPlace(s.reader) ==> s.conn.Backoff? || s.conn.SocketError? || s.conn.Stop?)
  }

  lemma PlacesApp(s: State, a: AppStep)
    requires Exclusive(s) && Places(s) && AppEnabled(s, a)
    ensures Places(ApplyApp(s, a))
  {
  }

  lemma PlacesReader(s: State, a: ReaderStep)
    requires Exclusive(s) && Places(s) && ReaderEnabled(s, a)
    ensures Places(ApplyReader(s, a))
  {
  }

  lemma PlacesSession(s: State, a: SessionStep)
    requires Exclusive(s) && Places(s) && SessionEnabled(s, a)
    ensures Places(ApplySession(s, a))
  {
  }

  lemma PlacesEnding(s: State, a: EndingStep)
    requires Exclusive(s) && Places(s) && EndingEnabled(s, a)
    ensures Places(ApplyEnding(s, a))
  {
  }

  lemma PlacesWriter(s: State, a: WriterStep)
    requires Exclusive(s) && Places(s) && WriterEnabled(s, a)
    ensures Places(ApplyWriter(s, a))
  {
  }

  // ---- Where CONNECT is: every run, recovery included --------------------------------------------------

  predicate HasPacket(w: Writer) {
    w.Holding? || w.Sending?
  }

  predicate FreshWhenChosen(s: State) {
    ChosenPlace(s.reader) ==> s.greeting.Fresh?
  }

  /** CONNECT number `n` was neither written nor thrown away. */
  predicate Unspent(s: State, n: nat) {
    n !in s.discarded && forall i :: 0 <= i < |s.wire| ==> s.wire[i].packet != Connect(n)
  }

  predicate InHand(w: Writer, n: nat) {
    HasPacket(w) && w.packet == Connect(n)
  }

  /** CONNECTs wait newest first, and each number is in one place only. */
  predicate QueueNumbered(s: State) {
    && (forall i :: 0 <= i < |s.queue| && s.queue[i].Connect? ==>
          var n := s.queue[i].socket;
          n <= s.sockets && (n == s.sockets ==> s.greeting.Queued?) && Unspent(s, n) && !InHand(s.writer, n))
    && (forall i, j :: 0 <= i < j < |s.queue| && s.queue[i].Connect? && s.queue[j].Connect? ==>
          s.queue[i].socket > s.queue[j].socket)
  }

  predicate HandNumbered(s: State) {
    HasPacket(s.writer) ==>
      && s.writer.popped <= s.sockets
      && (s.writer.packet.Connect? ==>
            var n := s.writer.packet.socket;
            n <= s.writer.popped && Unspent(s, n) && (n == s.sockets ==> !Pending(s)))
  }

  predicate EntryNumbered(s: State, e: Sent) {
    && e.popped <= e.socket <= s.sockets
    && (e.packet.Connect? ==>
          var n := e.packet.socket;
          n <= e.popped && n !in s.discarded && (n == s.sockets ==> !Pending(s)))
  }

  predicate SpentNumbered(s: State) {
    && (forall i :: 0 <= i < |s.wire| ==> EntryNumbered(s, s.wire[i]))
    && (forall n :: n in s.discarded ==> n <= s.sockets && (n == s.sockets ==> !Pending(s)))
  }

  /** Every CONNECT number is in at most one place of queue, writer, wire and discarded ones; a CONNECT is
      popped no earlier than its socket was opened and written no earlier than it was popped. */
  predicate Numbered(s: State) {
    FreshWhenChosen(s) && QueueNumbered(s) && HandNumbered(s) && SpentNumbered(s)
  }

  lemma NumberedStart(s: State, t: State)
    requires Numbered(s) && t.queue == [] && !HasPacket(t.writer) && t.greeting.Lost? && FreshWhenChosen(t)
    requires t.wire == s.wire && t.discarded == s.discarded && t.sockets == s.sockets
    ensures Numbered(t)
  {
  }

  /** A step that touches neither queue, writer, wire nor CONNECT keeps the numbers. */
  lemma SameNumbers(s: State, t: State)
    requires Numbered(s) && FreshWhenChosen(t)
    requires t.queue == s.queue && t.writer == s.writer && t.wire == s.wire && t.discarded == s.discarded
    requires t.sockets == s.sockets && t.greeting == s.greeting
    ensures Numbered(t)
  {
  }

  lemma NumberedAccept(s: State, t: State)
    requires Numbered(s) && FreshWhenChosen(t) && t.queue == s.queue + [Data(s.accepted)]
    requires t.writer == s.writer && t.wire == s.wire && t.discarded == s.discarded
    requires t.sockets == s.sockets && t.greeting == s.greeting
    ensures Numbered(t)
  {
  }

  lemma NumberedApp(s: State, a: AppStep)
    requires Numbered(s) && AppEnabled(s, a)
    ensures Numbered(ApplyApp(s, a))
  {
    hide QueueNumbered, HandNumbered, SpentNumbered;
    match a
    case Push => NumberedAccept(s, ApplyApp(s, a));
    case Begin => NumberedStart(s, ApplyApp(s, a));
    case Rejoined => NumberedStart(s, ApplyApp(s, a));
    case Joined => NumberedStart(s, ApplyApp(s, a));
    case _ => SameNumbers(s, ApplyApp(s, a));
  }

  lemma NumberedDial(s: State)
    requires Numbered(s) && ReaderEnabled(s, DialConnects)
    ensures Numbered(ApplyReader(s, DialConnects))
  {
  }

  lemma NumberedGreet(s: State)
    requires Numbered(s) && ReaderEnabled(s, QueueConnect)
    ensures Numbered(ApplyReader(s, QueueConnect))
  {
  }

  lemma LoopKeepsFresh(s: State, a: ReaderStep)
    requires FreshWhenChosen(s) && ReaderEnabled(s, a) && a != QueueConnect
    ensures FreshWhenChosen(ApplyReader(s, a))
  {
  }

  lemma NumberedLoop(s: State, a: ReaderStep)
    requires Numbered(s) && ReaderEnabled(s, a) && a != DialConnects && a != QueueConnect
    ensures Numbered(ApplyReader(s, a))
  {
    ReaderFrame(s, a);
    LoopKeepsFresh(s, a);
    hide Numbered, ReaderEnabled, ApplyReader;
    SameNumbers(s, ApplyReader(s, a));
  }

  lemma NumberedReader(s: State, a: ReaderStep)
    requires Numbered(s) && ReaderEnabled(s, a)
    ensures Numbered(ApplyReader(s, a))
  {
    hide Numbered, ReaderEnabled, ApplyReader;
    if a == DialConnects {
      NumberedDial(s);
    } else if a == QueueConnect {
      NumberedGreet(s);
    } else {
      NumberedLoop(s, a);
    }
  }

  lemma NumberedPing(s: State)
    requires Numbered(s)
    ensures Numbered(s.(queue := [Ping] + s.queue))
  {
  }

  lemma NumberedSession(s: State, a: SessionStep)
    requires Numbered(s) && SessionEnabled(s, a)
    ensures Numbered(ApplySession(s, a))
  {
    hide QueueNumbered, HandNumbered, SpentNumbered;
    match a
    case RecvPings => NumberedPing(s);
    case FlushPushes => NumberedAccept(s, ApplySession(s, a));
    case _ => SameNumbers(s, ApplySession(s, a));
  }

  lemma NumberedEnding(s: State, a: EndingStep)
    requires Numbered(s) && EndingEnabled(s, a)
    ensures Numbered(ApplyEnding(s, a))
  {
  }

  lemma NumberedPop(s: State)
    requires Numbered(s) && WriterEnabled(s, Pop)
    ensures Numbered(ApplyWriter(s, Pop))
  {
  }

  lemma SameSpent(s: State, t: State)
    requires t.wire == s.wire && t.discarded == s.discarded && t.sockets == s.sockets && t.greeting == s.greeting
    ensures forall n :: Unspent(t, n) == Unspent(s, n)
    ensures forall e :: EntryNumbered(t, e) == EntryNumbered(s, e)
  {
  }

  lemma NumberedPass(s: State)
    requires Numbered(s) && WriterEnabled(s, CheckState) && Authorised(s.conn)
    ensures Numbered(ApplyWriter(s, CheckState))
  {
    hide Unspent, EntryNumbered;
    var t := ApplyWriter(s, CheckState);
    assert forall n :: Unspent(t, n) == Unspent(s, n) by { SameSpent(s, t); }
    assert forall e :: EntryNumbered(t, e) == EntryNumbered(s, e) by { SameSpent(s, t); }
  }

  lemma NumberedDrop(s: State)
    requires Numbered(s) && WriterEnabled(s, CheckState) && !Authorised(s.conn)
    ensures Numbered(ApplyWriter(s, CheckState))
  {
  }

  lemma NumberedPut(s: State)
    requires Numbered(s) && WriterEnabled(s, Put)
    ensures Numbered(ApplyWriter(s, Put))
  {
  }

  lemma NumberedRest(s: State, a: WriterStep)
    requires Numbered(s) && WriterEnabled(s, a) && a != Pop && a != CheckState && a != Put
    ensures Numbered(ApplyWriter(s, a))
  {
  }

  lemma NumberedWriter(s: State, a: WriterStep)
    requires Numbered(s) && WriterEnabled(s, a)
    ensures Numbered(ApplyWriter(s, a))
  {
    hide Numbered, WriterEnabled, ApplyWriter;
    match a
    case Pop => NumberedPop(s);
    case CheckState => if Authorised(s.conn) { NumberedPass(s); } else { NumberedDrop(s); }
    case Put => NumberedPut(s);
    case _ => NumberedRest(s, a);
  }

  predicate LostPlace(s: State) {
    DialPlace(s.reader) || EndPlace(s.reader) || s.reader.ReaderDone? || (s.reader.AtLoop? && !Authorised(s.conn))
  }

  /** The newest socket's CONNECT once it is out of the queue: lost only while nothing may be sent, in the
      writer's hands only when it was popped; and what the writer sends instead of it is recorded. */
  predicate Greeted(s: State) {
    && (s.greeting.Lost? ==> LostPlace(s) && !Authorised(s.conn))
    && (s.writer.Holding? && s.writer.packet == Connect(s.sockets) ==> s.greeting.Taken?)
    && (s.writer.Sending? && s.writer.popped == s.sockets ==>
          s.writer.packet == Connect(s.sockets) || s.greeting.Taken? || s.sockets in s.early)
  }

  lemma GreetedApp(s: State, a: AppStep)
    requires Exclusive(s) && Places(s) && Numbered(s) && Greeted(s) && AppEnabled(s, a)
    ensures Greeted(ApplyApp(s, a))
  {
  }

  lemma GreetedReader(s: State, a: ReaderStep)
    requires Exclusive(s) && Places(s) && Numbered(s) && Greeted(s) && ReaderEnabled(s, a)
    ensures Greeted(ApplyReader(s, a))
  {
  }

  lemma GreetedSession(s: State, a: SessionStep)
    requires Exclusive(s) && Places(s) && Numbered(s) && Greeted(s) && SessionEnabled(s, a)
    ensures Greeted(ApplySession(s, a))
  {
  }

  lemma GreetedEnding(s: State, a: EndingStep)
    requires Exclusive(s) && Places(s) && Numbered(s) && Greeted(s) && EndingEnabled(s, a)
    ensures Greeted(ApplyEnding(s, a))
  {
  }

  lemma GreetedWriter(s: State, a: WriterStep)
    requires Exclusive(s) && Places(s) && Numbered(s) && Greeted(s) && WriterEnabled(s, a)
    ensures Greeted(ApplyWriter(s, a))
  {
  }

  predicate Closing(w: Writer) {
    w.SetError? || w.CloseAfterError?
  }

  /** Nothing more can be written to the newest socket, or it is being closed. */
  predicate Dying(s: State) {
    !s.socket || s.reader.CloseSocket? || Closing(s.writer)
  }

  /** The newest socket's CONNECT has been pushed and not lost. */
  predicate WasQueued(s: State) {
    s.greeting.Queued? || s.greeting.Taken?
  }

  /** A connection that left the authorised states without STOP has lost its socket. */
  predicate Closed(s: State) {
    && ((WasQueued(s) || s.reader.PushConnect?) && !Authorised(s.conn) && !s.conn.Stop? ==> Dying(s))
    && (WasQueued(s) && (DialPlace(s.reader) || EndPlace(s.reader)) ==> Dying(s))
  }

  lemma ClosedApp(s: State, a: AppStep)
    requires Exclusive(s) && Places(s) && Numbered(s) && Greeted(s) && Closed(s) && AppEnabled(s, a)
    ensures Closed(ApplyApp(s, a))
  {
  }

  lemma ClosedReader(s: State, a: ReaderStep)
    requires Exclusive(s) && Places(s) && Numbered(s) && Greeted(s) && Closed(s) && ReaderEnabled(s, a)
    ensures Closed(ApplyReader(s, a))
  {
  }

  lemma ClosedSession(s: State, a: SessionStep)
    requires Exclusive(s) && Places(s) && Numbered(s) && Greeted(s) && Closed(s) && SessionEnabled(s, a)
    ensures Closed(ApplySession(s, a))
  {
  }

  lemma ClosedEnding(s: State, a: EndingStep)
    requires Exclusive(s) && Places(s) && Numbered(s) && Greeted(s) && Closed(s) && EndingEnabled(s, a)
    ensures Closed(ApplyEnding(s, a))
  {
  }

  lemma ClosedWriter(s: State, a: WriterStep)
    requires Exclusive(s) && Places(s) && Numbered(s) && Greeted(s) && Closed(s) && WriterEnabled(s, a)
    ensures Closed(ApplyWriter(s, a))
  {
  }

  /** Something was written to the newest socket. */
  predicate Wrote(s: State) {
    exists i :: 0 <= i < |s.wire| && s.wire[i].socket == s.sockets
  }

  /** Once CONNECT has been popped: it is still in the writer's hands, something was written, it was thrown
      away on STOP, or the socket takes no more. */
  predicate Answered(s: State) {
    s.greeting.Taken? && s.sockets !in s.discarded ==>
      || Wrote(s)
      || (HasPacket(s.writer) && s.writer.packet == Connect(s.sockets))
      || !s.socket
      || Closing(s.writer)
      || (s.reader.CloseSocket? && (s.writer.Looking? || s.writer.WriterDone?))
  }

  lemma AnsweredApp(s: State, a: AppStep)
    requires Places(s) && Numbered(s) && Greeted(s) && Closed(s) && Answered(s) && AppEnabled(s, a)
    ensures Answered(ApplyApp(s, a))
  {
  }

  lemma AnsweredReader(s: State, a: ReaderStep)
    requires Places(s) && Numbered(s) && Greeted(s) && Closed(s) && Answered(s) && ReaderEnabled(s, a)
    ensures Answered(ApplyReader(s, a))
  {
  }

  lemma AnsweredSession(s: State, a: SessionStep)
    requires Places(s) && Numbered(s) && Greeted(s) && Closed(s) && Answered(s) && SessionEnabled(s, a)
    ensures Answered(ApplySession(s, a))
  {
  }

  lemma AnsweredEnding(s: State, a: EndingStep)
    requires Places(s) && Numbered(s) && Greeted(s) && Closed(s) && Answered(s) && EndingEnabled(s, a)
    ensures Answered(ApplyEnding(s, a))
  {
  }

  lemma AnsweredWriter(s: State, a: WriterStep)
    requires Places(s) && Numbered(s) && Greeted(s) && Closed(s) && Answered(s) && WriterEnabled(s, a)
    ensures Answered(ApplyWriter(s, a))
  {
    var t := ApplyWriter(s, a);
    if a == Put {
      assert t.wire[|s.wire|].socket == t.sockets;
    }
  }

  // ---- What goes out first on a socket: every run, recovery included -----------------------------------

  /** No packet was written to the socket of `wire[i]` before it. */
  predicate FirstOnSocket(wire: seq<Sent>, i: nat)
    requires i < |wire|
  {
    forall j :: 0 <= j < i ==> wire[j].socket != wire[i].socket
  }

  /** CONNECT, or one of the three ways another packet comes first. */
  predicate FirstExplained(s: State, e: Sent) {
    || e.packet == Connect(e.socket)
    || e.popped < e.socket             // popped before this socket was opened
    || e.socket in s.early             // the writer took up another packet before CONNECT was popped
    || e.socket in s.discarded         // CONNECT was thrown away because STOP was requested
  }

  predicate WireInv(s: State) {
    forall i :: 0 <= i < |s.wire| && FirstOnSocket(s.wire, i) ==> FirstExplained(s, s.wire[i])
  }

  /** The history of writes and its excuses only grow; `recovered` is never taken back. */
  predicate SameWire(s: State, t: State) {
    t.wire == s.wire && s.early <= t.early && s.discarded <= t.discarded && (s.recovered ==> t.recovered)
  }

  lemma WireSame(s: State, t: State)
    requires WireInv(s) && SameWire(s, t)
    ensures WireInv(t)
  {
    forall i | 0 <= i < |t.wire| && FirstOnSocket(t.wire, i) ensures FirstExplained(t, t.wire[i]) {
      assert FirstOnSocket(s.wire, i);
    }
  }

  lemma WireApp(s: State, a: AppStep)
    ensures SameWire(s, ApplyApp(s, a))
  {
  }

  lemma WireReader(s: State, a: ReaderStep)
    requires ReaderEnabled(s, a)
    ensures SameWire(s, ApplyReader(s, a))
  {
    ReaderFrame(s, a);
    hide ReaderEnabled, ApplyReader;
  }

  lemma WireSession(s: State, a: SessionStep)
    ensures SameWire(s, ApplySession(s, a))
  {
  }

  lemma WireEnding(s: State, a: EndingStep)
    ensures SameWire(s, ApplyEnding(s, a))
  {
  }

  lemma WireWriter(s: State, a: WriterStep)
    requires WriterEnabled(s, a) && a != Put
    ensures SameWire(s, ApplyWriter(s, a))
  {
  }

  lemma WireOthers(s: State, a: Action)
    requires Enabled(s, a) && a != Writing(Put)
    ensures SameWire(s, Apply(s, a))
  {
    hide ApplyApp, ApplyReader, ApplySession, ApplyEnding, ApplyWriter, SameWire;
    hide AppEnabled, ReaderEnabled, SessionEnabled, EndingEnabled, WriterEnabled;
    match a
    case Application(x) => WireApp(s, x);
    case Reading(x) => WireReader(s, x);
    case Session(x) => WireSession(s, x);
    case Ending(x) => WireEnding(s, x);
    case Writing(x) => WireWriter(s, x);
  }

  lemma FirstAfterPut(s: State, i: nat)
    requires WriterEnabled(s, Put) && i < |ApplyWriter(s, Put).wire| && FirstOnSocket(ApplyWriter(s, Put).wire, i)
    ensures i < |s.wire| ==> FirstOnSocket(s.wire, i)
    ensures i == |s.wire| ==> !Wrote(s)
  {
    var t := ApplyWriter(s, Put);
    forall j | 0 <= j < i ensures s.wire[j].socket != t.wire[i].socket {
      assert t.wire[j] == s.wire[j];
    }
  }

  /** The write itself: the packet is the first on its socket only if an excuse holds. */
  lemma WirePut(s: State)
    requires Greeted(s) && Numbered(s) && Answered(s) && WireInv(s) && WriterEnabled(s, Put)
    ensures WireInv(ApplyWriter(s, Put))
  {
    var t := ApplyWriter(s, Put);
    forall i | 0 <= i < |t.wire| && FirstOnSocket(t.wire, i) ensures FirstExplained(t, t.wire[i]) {
      FirstAfterPut(s, i);
    }
  }

  /** The first packet on socket `n`, if there is one, is not its CONNECT. */
  predicate NotGreetedFirst(s: State, n: nat) {
    forall i :: 0 <= i < |s.wire| && FirstOnSocket(s.wire, i) && s.wire[i].socket == n ==>
      s.wire[i].packet != Connect(n)
  }

  /** The overtaking packet is about to be sent, or the socket takes no more. */
  predicate PassingBy(s: State) {
    (s.writer.Sending? && s.writer.packet != Connect(s.sockets)) || Closing(s.writer) || !s.socket
  }

  /** A packet taken up before CONNECT goes out first, or nothing does. */
  predicate Overtaken(s: State) {
    forall n :: n in s.early ==>
      n <= s.sockets && NotGreetedFirst(s, n) && (n == s.sockets && !Wrote(s) ==> PassingBy(s))
  }

  /** A step that writes nothing and reopens no socket. */
  lemma SamePassing(s: State, t: State)
    requires Overtaken(s) && t.wire == s.wire && t.early == s.early
    requires t.sockets > s.sockets || (t.sockets == s.sockets && (PassingBy(s) ==> PassingBy(t)))
    ensures Overtaken(t)
  {
  }

  lemma OvertakenApp(s: State, a: AppStep)
    requires Exclusive(s) && Overtaken(s) && AppEnabled(s, a)
    ensures Overtaken(ApplyApp(s, a))
  {
    hide Overtaken;
    SamePassing(s, ApplyApp(s, a));
  }

  lemma OvertakenReader(s: State, a: ReaderStep)
    requires Overtaken(s) && ReaderEnabled(s, a)
    ensures Overtaken(ApplyReader(s, a))
  {
    ReaderFrame(s, a);
    hide Overtaken, ReaderEnabled, ApplyReader;
    SamePassing(s, ApplyReader(s, a));
  }

  lemma OvertakenSession(s: State, a: SessionStep)
    requires Overtaken(s) && SessionEnabled(s, a)
    ensures Overtaken(ApplySession(s, a))
  {
    hide Overtaken;
    SamePassing(s, ApplySession(s, a));
  }

  lemma OvertakenEnding(s: State, a: EndingStep)
    requires Overtaken(s) && EndingEnabled(s, a)
    ensures Overtaken(ApplyEnding(s, a))
  {
    hide Overtaken;
    SamePassing(s, ApplyEnding(s, a));
  }

  lemma OvertakenPut(s: State)
    requires Overtaken(s) && WriterEnabled(s, Put)
    ensures Overtaken(ApplyWriter(s, Put))
  {
    var t := ApplyWriter(s, Put);
    forall n, i | n in t.early && 0 <= i < |t.wire| && FirstOnSocket(t.wire, i) && t.wire[i].socket == n
      ensures t.wire[i].packet != Connect(n)
    {
      FirstAfterPut(s, i);
    }
    assert t.wire[|s.wire|].socket == t.sockets;
  }

  lemma OvertakenCheck(s: State)
    requires Numbered(s) && Overtaken(s) && WriterEnabled(s, CheckState)
    ensures Overtaken(ApplyWriter(s, CheckState))
  {
  }

  lemma OvertakenRest(s: State, a: WriterStep)
    requires Overtaken(s) && WriterEnabled(s, a) && a != Put && a != CheckState
    ensures Overtaken(ApplyWriter(s, a))
  {
    hide Overtaken;
    SamePassing(s, ApplyWriter(s, a));
  }

  lemma OvertakenWriter(s: State, a: WriterStep)
    requires Numbered(s) && Overtaken(s) && WriterEnabled(s, a)
    ensures Overtaken(ApplyWriter(s, a))
  {
    hide Numbered, Overtaken, WriterEnabled, ApplyWriter;
    match a
    case Put => OvertakenPut(s);
    case CheckState => OvertakenCheck(s);
    case _ => OvertakenRest(s, a);
  }

  // ---- Sessions: every run, recovery included ----------------------------------------------------------

  predicate InSession(s: State) {
    || ((s.reader.AtLoop? || TalkPlace(s.reader)) && (s.conn.Up? || s.conn.SocketError?))
    || (s.reader.SetBackoff? && s.conn.SocketError?)
    || (s.reader.NotifyDown? && (s.conn.Backoff? || s.conn.SocketError?))
  }

  predicate BeforeGreeting(s: State) {
    DialPlace(s.reader) || ChosenPlace(s.reader) || (s.reader.AtLoop? && Searching(s.conn))
  }

  /** A CONNACK with code 0 has been read and the client is about to be told. */
  predicate ConnackRead(r: Reader) {
    r.SetUp? || r.NotifyUp?
  }

  /** The client is CONNECTED only during a session opened by a CONNACK, and between sessions the queue is empty,
      unless CONNECTED was carried over by a recovery branch. */
  predicate Sessions(s: State) {
    && (s.client.Connected? && !s.carried ==> InSession(s) && s.connack)
    && (ConnackRead(s.reader) ==> s.connack)
    && (s.client.Connected? && s.carried && s.connack ==>
          s.app.Rejoining? || s.reader.SelfJoin? || ConnackRead(s.reader))
    && (BeforeGreeting(s) && !s.carried ==> s.queue == [])
    && (s.reader.ClearQueue? ==> !s.client.Connected?)
    && (s.carried ==> s.recovered)
  }

  lemma SessionsApp(s: State, a: AppStep)
    requires Exclusive(s) && Places(s) && Sessions(s) && AppEnabled(s, a)
    ensures Sessions(ApplyApp(s, a))
  {
  }

  lemma SessionsReader(s: State, a: ReaderStep)
    requires Exclusive(s) && Places(s) && Sessions(s) && ReaderEnabled(s, a)
    ensures Sessions(ApplyReader(s, a))
  {
  }

  lemma SessionsSession(s: State, a: SessionStep)
    requires Exclusive(s) && Places(s) && Sessions(s) && SessionEnabled(s, a)
    ensures Sessions(ApplySession(s, a))
  {
  }

  lemma SessionsEnding(s: State, a: EndingStep)
    requires Exclusive(s) && Places(s) && Sessions(s) && EndingEnabled(s, a)
    ensures Sessions(ApplyEnding(s, a))
  {
  }

  lemma SessionsWriter(s: State, a: WriterStep)
    requires Exclusive(s) && Places(s) && Sessions(s) && WriterEnabled(s, a)
    ensures Sessions(ApplyWriter(s, a))
  {
  }

  // ---- Runs without a recovery branch ------------------------------------------------------------------

  /** Only pings stand before CONNECT number `n` in the queue. */
  predicate Opens(q: seq<Packet>, n: nat) {
    q != [] && (q[0] == Connect(n) || (q[0].Ping? && Opens(q[1..], n)))
  }

  lemma {:induction false} OpensAppend(q: seq<Packet>, n: nat, p: Packet)
    requires Opens(q, n)
    ensures Opens(q + [p], n)
  {
    if q[0] != Connect(n) {
      OpensAppend(q[1..], n, p);
      assert (q + [p])[1..] == q[1..] + [p];
    }
  }

  lemma OpensPing(q: seq<Packet>, n: nat)
    requires Opens(q, n)
    ensures Opens([Ping] + q, n)
  {
    assert ([Ping] + q)[1..] == q;
  }

  predicate FreshPlace(s: State) {
    || ChosenPlace(s.reader) || s.reader.ReaderDone?
    || ((s.reader.AtLoop? || s.reader.SetBackoff?) && s.client.Disconnected? && (s.conn.SocketError? || s.conn.Stop?))
    || (s.reader.NotifyDown? && s.client.Disconnected?)
  }

  /** Until CONNECT is popped only pings stand before it, and the writer pops nothing else. */
  predicate Guarded(s: State) {
    && (s.greeting.Fresh? ==> s.queue == [] && FreshPlace(s) && !s.client.Connected?)
    && (s.greeting.Lost? ==> s.queue == [] && !s.client.Connected?)
    && (s.greeting.Queued? ==> Opens(s.queue, s.sockets))
    && (HasPacket(s.writer) && s.writer.popped == s.sockets ==>
          s.writer.packet == Connect(s.sockets) || s.greeting.Taken? || (s.writer.packet.Ping? && !s.greeting.Fresh?))
  }

  lemma GuardedApp(s: State, a: AppStep)
    requires Exclusive(s) && Places(s) && Numbered(s) && Greeted(s) && Sessions(s) && Guarded(s) && AppEnabled(s, a)
    requires !ApplyApp(s, a).recovered
    ensures Guarded(ApplyApp(s, a))
  {
    if s.greeting.Queued? { OpensAppend(s.queue, s.sockets, Data(s.accepted)); }
  }

  lemma GuardedReader(s: State, a: ReaderStep)
    requires Exclusive(s) && Places(s) && Numbered(s) && Greeted(s) && Sessions(s) && Guarded(s) && ReaderEnabled(s, a)
    requires !ApplyReader(s, a).recovered
    ensures Guarded(ApplyReader(s, a))
  {
  }

  lemma GuardedSession(s: State, a: SessionStep)
    requires Exclusive(s) && Places(s) && Numbered(s) && Greeted(s) && Sessions(s) && Guarded(s) && SessionEnabled(s, a)
    requires !ApplySession(s, a).recovered
    ensures Guarded(ApplySession(s, a))
  {
    if s.greeting.Queued? {
      OpensAppend(s.queue, s.sockets, Data(s.accepted));
      OpensPing(s.queue, s.sockets);
    }
  }

  lemma GuardedEnding(s: State, a: EndingStep)
    requires Exclusive(s) && Places(s) && Numbered(s) && Greeted(s) && Sessions(s) && Guarded(s) && EndingEnabled(s, a)
    requires !ApplyEnding(s, a).recovered
    ensures Guarded(ApplyEnding(s, a))
  {
  }

  lemma GuardedWriter(s: State, a: WriterStep)
    requires Exclusive(s) && Places(s) && Numbered(s) && Greeted(s) && Sessions(s) && Guarded(s) && WriterEnabled(s, a)
    requires !ApplyWriter(s, a).recovered
    ensures Guarded(ApplyWriter(s, a))
  {
  }

  /** CONNECT or a ping, or a packet popped too early, or CONNECT was thrown away. */
  predicate FirstGuarded(s: State, e: Sent) {
    e.packet == Connect(e.socket) || e.packet.Ping? || e.popped < e.socket || e.socket in s.discarded
  }

  predicate WireGuarded(s: State) {
    forall i :: 0 <= i < |s.wire| && FirstOnSocket(s.wire, i) ==> FirstGuarded(s, s.wire[i])
  }

  lemma WireGuardedSame(s: State, t: State)
    requires WireGuarded(s) && SameWire(s, t)
    ensures WireGuarded(t)
  {
    forall i | 0 <= i < |t.wire| && FirstOnSocket(t.wire, i) ensures FirstGuarded(t, t.wire[i]) {
      assert FirstOnSocket(s.wire, i);
    }
  }

  lemma WireGuardedPut(s: State)
    requires Numbered(s) && Answered(s) && Guarded(s) && WireGuarded(s) && WriterEnabled(s, Put)
    ensures WireGuarded(ApplyWriter(s, Put))
  {
    var t := ApplyWriter(s, Put);
    forall i | 0 <= i < |t.wire| && FirstOnSocket(t.wire, i) ensures FirstGuarded(t, t.wire[i]) {
      FirstAfterPut(s, i);
    }
  }

  // ---- All steps, all runs -----------------------------------------------------------------------------

  predicate ConnectInv(s: State) {
    Places(s) && Numbered(s) && Greeted(s) && Closed(s) && Answered(s) && WireInv(s) && Overtaken(s)
  }

  predicate Inv(s: State) {
    && Exclusive(s) && QueueInv(s) && ConnectInv(s) && Sessions(s)
    && (!s.recovered ==> Guarded(s) && WireGuarded(s))
  }

  lemma WireKept(s: State, a: Action)
    requires Enabled(s, a) && ConnectInv(s)
    ensures WireInv(Apply(s, a))
    ensures s.recovered ==> Apply(s, a).recovered
    ensures !Apply(s, a).recovered && Guarded(s) && WireGuarded(s) ==> WireGuarded(Apply(s, a))
  {
    hide Places, Numbered, Greeted, Closed, Answered, WireInv, Overtaken, Guarded, WireGuarded;
    hide ApplyApp, ApplyReader, ApplySession, ApplyEnding, AppEnabled, ReaderEnabled, SessionEnabled, EndingEnabled;
    if a == Writing(Put) {
      WirePut(s);
      if Guarded(s) && WireGuarded(s) { WireGuardedPut(s); }
    } else {
      WireOthers(s, a);
      WireSame(s, Apply(s, a));
      if WireGuarded(s) { WireGuardedSame(s, Apply(s, a)); }
    }
  }

  lemma InvApp(s: State, a: AppStep)
    requires Inv(s) && AppEnabled(s, a)
    ensures Inv(ApplyApp(s, a)) && ApplyApp(s, a).limit == s.limit
  {
    hide ApplyApp, AppEnabled, Exclusive, QueueInv, Sessions, Guarded, WireGuarded;
    hide Places, Numbered, Greeted, Closed, Answered, WireInv, Overtaken;
    ExclusiveApp(s, a);
    QueueApp(s, a);
    PlacesApp(s, a);
    NumberedApp(s, a);
    GreetedApp(s, a);
    ClosedApp(s, a);
    AnsweredApp(s, a);
    OvertakenApp(s, a);
    SessionsApp(s, a);
    WireKept(s, Application(a));
    if !ApplyApp(s, a).recovered {
      GuardedApp(s, a);
    }
  }

  lemma InvReader(s: State, a: ReaderStep)
    requires Inv(s) && ReaderEnabled(s, a)
    ensures Inv(ApplyReader(s, a)) && ApplyReader(s, a).limit == s.limit
  {
    hide ApplyReader, ReaderEnabled, Exclusive, QueueInv, Sessions, Guarded, WireGuarded;
    hide Places, Numbered, Greeted, Closed, Answered, WireInv, Overtaken;
    ExclusiveReader(s, a);
    QueueReader(s, a);
    PlacesReader(s, a);
    NumberedReader(s, a);
    GreetedReader(s, a);
    ClosedReader(s, a);
    AnsweredReader(s, a);
    OvertakenReader(s, a);
    SessionsReader(s, a);
    WireKept(s, Reading(a));
    if !ApplyReader(s, a).recovered {
      GuardedReader(s, a);
    }
  }

  lemma InvSession(s: State, a: SessionStep)
    requires Inv(s) && SessionEnabled(s, a)
    ensures Inv(ApplySession(s, a)) && ApplySession(s, a).limit == s.limit
  {
    hide ApplySession, SessionEnabled, Exclusive, QueueInv, Sessions, Guarded, WireGuarded;
    hide Places, Numbered, Greeted, Closed, Answered, WireInv, Overtaken;
    ExclusiveSession(s, a);
    QueueSession(s, a);
    PlacesSession(s, a);
    NumberedSession(s, a);
    GreetedSession(s, a);
    ClosedSession(s, a);
    AnsweredSession(s, a);
    OvertakenSession(s, a);
    SessionsSession(s, a);
    WireKept(s, Session(a));
    if !ApplySession(s, a).recovered {
      GuardedSession(s, a);
    }
  }

  lemma InvEnding(s: State, a: EndingStep)
    requires Inv(s) && EndingEnabled(s, a)
    ensures Inv(ApplyEnding(s, a)) && ApplyEnding(s, a).limit == s.limit
  {
    hide ApplyEnding, EndingEnabled, Exclusive, QueueInv, Sessions, Guarded, WireGuarded;
    hide Places, Numbered, Greeted, Closed, Answered, WireInv, Overtaken;
    ExclusiveEnding(s, a);
    QueueEnding(s, a);
    PlacesEnding(s, a);
    NumberedEnding(s, a);
    GreetedEnding(s, a);
    ClosedEnding(s, a);
    AnsweredEnding(s, a);
    OvertakenEnding(s, a);
    SessionsEnding(s, a);
    WireKept(s, Ending(a));
    if !ApplyEnding(s, a).recovered {
      GuardedEnding(s, a);
    }
  }

  lemma InvWriter(s: State, a: WriterStep)
    requires Inv(s) && WriterEnabled(s, a)
    ensures Inv(ApplyWriter(s, a)) && ApplyWriter(s, a).limit == s.limit
  {
    hide ApplyWriter, WriterEnabled, Exclusive, QueueInv, Sessions, Guarded, WireGuarded;
    hide Places, Numbered, Greeted, Closed, Answered, WireInv, Overtaken;
    ExclusiveWriter(s, a);
    QueueWriter(s, a);
    PlacesWriter(s, a);
    NumberedWriter(s, a);
    GreetedWriter(s, a);
    ClosedWriter(s, a);
    AnsweredWriter(s, a);
    OvertakenWriter(s, a);
    SessionsWriter(s, a);
    WireKept(s, Writing(a));
    if !ApplyWriter(s, a).recovered {
      GuardedWriter(s, a);
    }
  }

  lemma StepKeepsInv(s: State, a: Action)
    requires Inv(s) && Enabled(s, a)
    ensures Inv(Apply(s, a)) && Apply(s, a).limit == s.limit
  {
    hide Inv, ApplyApp, ApplyReader, ApplySession, ApplyEnding, ApplyWriter;
    hide AppEnabled, ReaderEnabled, SessionEnabled, EndingEnabled, WriterEnabled;
    match a
    case Application(x) => InvApp(s, x);
    case Reading(x) => InvReader(s, x);
    case Session(x) => InvSession(s, x);
    case Ending(x) => InvEnding(s, x);
    case Writing(x) => InvWriter(s, x);
  }

  lemma {:induction false} RunKeepsInv(s: State, run: seq<Action>)
    requires Inv(s) && Run(s, run).Reached?
    ensures Inv(Run(s, run).state) && Run(s, run).state.limit == s.limit
    decreases |run|
  {
    if run != [] {
      StepKeepsInv(s, run[0]);
      RunKeepsInv(Apply(s, run[0]), run[1..]);
    }
  }

  lemma ReachableInv(limit: nat, t: State)
    requires Reachable(limit, t)
    ensures Inv(t) && t.limit == limit
  {
    var run :| Run(Init(limit), run) == Reached(t);
    RunKeepsInv(Init(limit), run);
  }

  // ---- STOP: what ends the threads, and what takes it back ---------------------------------------------

  /** The steps that store another state without looking at the one stored. */
  predicate Overwrites(a: Action) {
    || a == Application(Begin) || a == Application(Rejoined)
    || a == Reading(ResolveFails) || a == Reading(StoreDialing) || a == Reading(DialFails)
    || a == Reading(StoreAuthenticating) || a == Session(StoreUp)
    || a == Ending(StoreError) || a == Ending(StoreBackoff) || a == Ending(StoreResolving)
    || a == Writing(WriterStoresError)
  }

  lemma TakenBackApp(s: State, a: AppStep)
    requires AppEnabled(s, a) && s.conn == Stop
    ensures ApplyApp(s, a).conn != Stop <==> Overwrites(Application(a))
  {
  }

  lemma TakenBackReader(s: State, a: ReaderStep)
    requires ReaderEnabled(s, a) && s.conn == Stop
    ensures ApplyReader(s, a).conn != Stop <==> Overwrites(Reading(a))
  {
  }

  lemma TakenBackSession(s: State, a: SessionStep)
    requires SessionEnabled(s, a) && s.conn == Stop
    ensures ApplySession(s, a).conn != Stop <==> Overwrites(Session(a))
  {
  }

  lemma TakenBackEnding(s: State, a: EndingStep)
    requires EndingEnabled(s, a) && s.conn == Stop
    ensures ApplyEnding(s, a).conn != Stop <==> Overwrites(Ending(a))
  {
  }

  lemma TakenBackWriter(s: State, a: WriterStep)
    requires WriterEnabled(s, a) && s.conn == Stop
    ensures ApplyWriter(s, a).conn != Stop <==> Overwrites(Writing(a))
  {
  }

  /** STOP is not absorbing: exactly these steps take it back. */
  lemma StopIsTakenBackIff(s: State, a: Action)
    requires Enabled(s, a) && s.conn == Stop
    ensures Apply(s, a).conn != Stop <==> Overwrites(a)
  {
    hide Overwrites, ApplyApp, ApplyReader, ApplySession, ApplyEnding, ApplyWriter;
    hide AppEnabled, ReaderEnabled, SessionEnabled, EndingEnabled, WriterEnabled;
    match a
    case Application(x) => TakenBackApp(s, x);
    case Reading(x) => TakenBackReader(s, x);
    case Session(x) => TakenBackSession(s, x);
    case Ending(x) => TakenBackEnding(s, x);
    case Writing(x) => TakenBackWriter(s, x);
  }

  /** Every look at the stored state that finds STOP obeys it: the reader goes back to the head of its loop and
      ends there, the writer ends, and a packet it holds is thrown away. */
  lemma StopIsObeyed(s: State, a: Action)
    requires Enabled(s, a) && s.conn == Stop
    ensures a in {Reading(ResolveWorks), Reading(ChosenChecksStop), Ending(FailedChecksStop), Ending(Wake)} ==>
              Apply(s, a) == s.(reader := AtLoop)
    ensures a == Reading(ReadState) ==> Apply(s, a) == s.(reader := ReaderDone, socket := false)
    ensures a == Writing(Look) ==> Apply(s, a) == s.(writer := WriterDone)
    ensures a == Writing(WakeStopped) ==> Apply(s, a) == s.(writer := Looking)
    ensures a == Writing(CheckState) ==> Apply(s, a) == s.(writer := Looking, discarded := Apply(s, a).discarded)
  {
  }

  // ---- The theorems -----------------------------------------------------------------------------------

  /** At every point of every interleaving the queue holds at most `m_send_queue_size` + 1 data packets,
      although the size is checked outside the queue's lock. */
  lemma QueueIsBounded(limit: nat, t: State)
    requires Reachable(limit, t)
    ensures |Ids(t.queue)| <= limit + 1
  {
    ReachableInv(limit, t);
  }

  /** In every interleaving data leaves the queue in acceptance order, each packet at most once; what is still
      queued comes after what was popped. */
  lemma WriterKeepsOrder(limit: nat, t: State)
    requires Reachable(limit, t)
    ensures Increasing(Ids(t.popped), t.accepted)
    ensures Increasing(Ids(t.popped) + Ids(t.queue), t.accepted)
  {
    ReachableInv(limit, t);
    Dropped(Ids(t.popped), Ids(t.queue), t.accepted);
    assert Ids(t.popped) + [] == Ids(t.popped);
  }

  /** Whenever the client mutex is free, DISCONNECTED holds exactly when there is no connection; and a CONNACK with
      code 0 has been read on the newest socket of a CONNECTED client exactly unless a recovery branch carried
      CONNECTED over and the client is not just about to be told of a new one. */
  lemma ClientStates(limit: nat, t: State)
    requires Reachable(limit, t)
    ensures MutexFree(t) ==> (t.client == Disconnected <==> !t.live)
    ensures t.client == Connected && !t.carried ==> t.connack
    ensures MutexFree(t) && t.client == Connected ==> (t.connack <==> !t.carried || ConnackRead(t.reader))
    ensures t.carried ==> t.recovered
  {
    ReachableInv(limit, t);
    hide QueueInv, ConnectInv, Guarded, WireGuarded;
  }

  /** connectionStateChange never runs for a client that is DISCONNECTED, nor without a connection. */
  lemma NotificationsFindAConnection(limit: nat, t: State)
    requires Reachable(limit, t)
    requires Enabled(t, Session(TellUp)) || Enabled(t, Ending(TellDown))
    ensures t.live && t.client != Disconnected
  {
    ReachableInv(limit, t);
  }

  /** The queue is empty from the moment the old one is cleared until CONNECT is pushed, so nothing can overtake
      it from behind, unless a recovery branch carried CONNECTED over. */
  lemma QueueEmptyBeforeConnect(limit: nat, t: State)
    requires Reachable(limit, t) && BeforeGreeting(t)
    ensures t.queue == [] || t.carried
  {
    ReachableInv(limit, t);
    hide QueueInv, ConnectInv, Guarded, WireGuarded;
  }

  /** A packet that is its socket's CONNECT was popped after the socket was opened and not thrown away, and if it
      is the first, no other packet was taken up before it. */
  lemma ConnectHasNoExcuse(limit: nat, t: State, i: nat)
    requires Reachable(limit, t) && i < |t.wire| && t.wire[i].packet == Connect(t.wire[i].socket)
    ensures t.wire[i].popped == t.wire[i].socket && t.wire[i].socket !in t.discarded
    ensures FirstOnSocket(t.wire, i) ==> t.wire[i].socket !in t.early
  {
    ReachableInv(limit, t);
    hide Exclusive, QueueInv, Places, Greeted, Closed, Answered, WireInv, QueueNumbered, HandNumbered;
    hide Sessions, Guarded, WireGuarded;
    assert EntryNumbered(t, t.wire[i]);
  }

  /** The first packet on a socket is CONNECT, in every interleaving, recovery included, exactly when it was popped
      after the socket was opened, the writer took up no other packet before CONNECT was popped, and CONNECT was
      not thrown away on STOP. */
  lemma ConnectComesFirst(limit: nat, t: State, i: nat)
    requires Reachable(limit, t) && i < |t.wire| && FirstOnSocket(t.wire, i)
    ensures var e := t.wire[i];
            e.packet == Connect(e.socket) <==>
            e.popped == e.socket && e.socket !in t.early && e.socket !in t.discarded
  {
    ReachableInv(limit, t);
    hide Exclusive, QueueInv, Places, Greeted, Closed, Answered, Numbered, Overtaken;
    hide Sessions, Guarded, WireGuarded;
    assert FirstExplained(t, t.wire[i]);
    if t.wire[i].packet == Connect(t.wire[i].socket) {
      ConnectHasNoExcuse(limit, t, i);
    }
  }

  /** Without a recovery branch only a ping can be taken up before CONNECT. */
  lemma OnlyPingsOvertake(limit: nat, t: State, i: nat)
    requires Reachable(limit, t) && !t.recovered && i < |t.wire| && FirstOnSocket(t.wire, i)
    requires t.wire[i].popped == t.wire[i].socket && t.wire[i].socket !in t.discarded
    ensures t.wire[i].packet == if t.wire[i].socket in t.early then Ping else Connect(t.wire[i].socket)
  {
    ReachableInv(limit, t);
    ConnectComesFirst(limit, t, i);
    hide Exclusive, QueueInv, ConnectInv, Sessions, Guarded;
    assert FirstGuarded(t, t.wire[i]);
  }

  /** With pop and write as one step, no packet taken up early and no disconnect, it is always CONNECT. */
  lemma ConnectComesFirstPlain(limit: nat, t: State, i: nat)
    requires Reachable(limit, t) && i < |t.wire| && FirstOnSocket(t.wire, i)
    requires t.wire[i].popped == t.wire[i].socket && t.early == {} && t.discarded == {}
    ensures t.wire[i].packet == Connect(t.wire[i].socket)
  {
    ConnectComesFirst(limit, t, i);
  }
}
