/** The send queue and the connection's life as atomic steps of three parties that share them: the
    application (whoever holds the client mutex), the reader thread and the writer thread.
    Every read and every write of a shared field is a step of its own. */
module SendProtocol {

  datatype ClientState = Disconnected | Connecting | Connected

  datatype ConnState = Resolving | Dialing | Authenticating | Up | Backoff | SocketError | Stop

  /** CONNECT carries the number of the socket it greets, data the order in which it was accepted. */
  datatype Packet = Connect(socket: nat) | Ping | Data(id: nat)

  /** Where the application stands; every value but Idle holds the client mutex. */
  datatype App = Idle | Locked | Checked | Closing | Joining | Rejoining

  /** Where the reader stands: at the head of its loop, or before the step the name says. */
  datatype Reader =
    | AtLoop | InResolve | SetDialing
    | InDial | Chosen | SetAuthenticating | PushConnect
    | InRecv | SetUp | NotifyUp | Flush | FlushChecked | SelfJoin
    | RecvFailed | SetSocketError | CloseSocket
    | SetBackoff | NotifyDown | ClearQueue
    | Asleep | SetResolving | ReaderDone

  datatype Writer =
    | Looking | Popping | Waiting
    | Holding(packet: Packet, popped: nat) | Sending(packet: Packet, popped: nat)
    | SetError | CloseAfterError | WriterDone

  /** History of the newest socket's CONNECT: not pushed, in the queue, popped, or never to come. */
  datatype Greeting = Fresh | Queued | Taken | Lost

  /** One packet written to socket number `socket`, popped when `popped` sockets had been opened. */
  datatype Sent = Sent(socket: nat, packet: Packet, popped: nat)

  datatype State = State(
    limit: nat,               // m_send_queue_size
    client: ClientState,      // Impl::m_state
    app: App,
    live: bool,               // m_connection != nullptr
    conn: ConnState,          // Connection::m_state
    reader: Reader,
    writer: Writer,
    queue: seq<Packet>,       // m_send_queue
    socket: bool,             // m_socket != INVALID_SOCKET
    // History, read by no step:
    sockets: nat,              // sockets that became m_socket so far
    accepted: nat,            // data packets accepted so far
    greeting: Greeting,
    popped: seq<Packet>,
    wire: seq<Sent>,
    connack: bool,            // CONNACK code 0 read since the last connect, drop or new socket
    recovered: bool,          // a recovery branch was taken
    carried: bool,            // CONNECTED is left over from a connection that a recovery branch replaced
    early: set<nat>,          // sockets on which the writer took up another packet before CONNECT was popped
    discarded: set<nat>       // sockets whose CONNECT was thrown away because of STOP
  )

  datatype AppStep =
    | Lock | Unlock | Begin | Close | RequestStop | Joined | CheckSize | Push | Recover | Rejoined

  datatype ReaderStep =
    | ReadState | ResolveFails | ResolveWorks | StoreDialing
    | DialWaits | DialFails | DialConnects | ChosenChecksStop | StoreAuthenticating | QueueConnect

  datatype SessionStep =
    | RecvOther | RecvPings | RecvFails | RecvConnack | StoreUp | TellUp
    | FlushChecks | FlushPushes | FlushEnds | FlushRefused

  datatype EndingStep =
    | FailedChecksStop | StoreError | CloseIt | StoreBackoff | TellDown | EmptyQueue | Wake | StoreResolving

  datatype WriterStep =
    | Look | Pop | Wait | WakeStopped | CheckState | Put | PutFails | WriterStoresError | WriterCloses

  datatype Action =
    | Application(app: AppStep)
    | Reading(reader: ReaderStep)
    | Session(session: SessionStep)
    | Ending(ending: EndingStep)
    | Writing(writer: WriterStep)

  function Init(limit: nat): State {
    State(limit, Disconnected, Idle, false, Stop, ReaderDone, WriterDone, [], false,
          0, 0, Lost, [], [], false, false, false, {}, {})
  }

  predicate ReaderHoldsMutex(s: State) {
    s.reader.Flush? || s.reader.FlushChecked? || s.reader.SelfJoin?
  }

  /** Nobody holds the client mutex. */
  predicate MutexFree(s: State) {
    s.app.Idle? && !ReaderHoldsMutex(s)
  }

  predicate Authorised(c: ConnState) {
    c.Authenticating? || c.Up?
  }

  /** A new Connection object: its threads start at the head of their loops. */
  function Started(s: State): State {
    s.(live := true, conn := Resolving, reader := AtLoop, writer := Looking, queue := [], socket := false,
       greeting := Lost, connack := false, app := Idle)
  }

  function Accept(s: State): State {
    s.(queue := s.queue + [Data(s.accepted)], accepted := s.accepted + 1)
  }

  predicate AppEnabled(s: State, a: AppStep) {
    match a
    case Lock => MutexFree(s)
    case Unlock => s.app.Locked?
    case Begin => s.app.Locked? && s.client.Disconnected?
    case Close => s.app.Locked? && !s.client.Disconnected?
    case RequestStop => s.app.Closing?
    case Joined => s.app.Joining? && s.reader.ReaderDone? && s.writer.WriterDone?
    case CheckSize => s.app.Locked? && s.client.Connected? && |s.queue| <= s.limit
    case Push => s.app.Checked?
    case Recover => s.app.Locked? && s.client.Connected? && |s.queue| > s.limit
    case Rejoined => s.app.Rejoining? && s.reader.ReaderDone? && s.writer.WriterDone?
  }

  /** connect, disconnect, and the sends of publish, subscribe and unsubscribe, under the client mutex.
      A refused publish is Unlock; a refused subscribe or unsubscribe is Recover. */
  function ApplyApp(s: State, a: AppStep): State {
    match a
    case Lock => s.(app := Locked)
    case Unlock => s.(app := Idle)
    case Begin => Started(s).(client := Connecting, carried := false)
    case Close => s.(client := Disconnected, app := Closing)
    case RequestStop => s.(conn := Stop, app := Joining)
    case Joined => s.(live := false, queue := [], greeting := Lost, app := Idle)
    case CheckSize => s.(app := Checked)
    case Push => Accept(s).(app := Idle)
    case Recover => s.(conn := Stop, app := Rejoining, recovered := true, carried := true)
    case Rejoined => Started(s)
  }

  predicate ReaderEnabled(s: State, a: ReaderStep) {
    match a
    case ReadState => s.reader.AtLoop?
    case ResolveFails => s.reader.InResolve?
    case ResolveWorks => s.reader.InResolve?
    case StoreDialing => s.reader.SetDialing?
    case DialWaits => s.reader.InDial?
    case DialFails => s.reader.InDial?
    case DialConnects => s.reader.InDial?
    case ChosenChecksStop => s.reader.Chosen?
    case StoreAuthenticating => s.reader.SetAuthenticating?
    case QueueConnect => s.reader.PushConnect?
  }

  /** The switch at the head of runRead. */
  function Dispatch(c: ConnState): Reader {
    match c
    case Resolving => InResolve
    case Dialing => InDial
    case Authenticating => InRecv
    case Up => InRecv
    case Backoff => Asleep
    case SocketError => SetBackoff
    case Stop => ReaderDone
  }

  /** resolve() forgets the socket, STOP closes it. */
  predicate DropsSocket(c: ConnState) {
    c.Resolving? || c.Stop?
  }

  /** The reader from the head of its loop to the CONNECT it pushes. */
  function ApplyReader(s: State, a: ReaderStep): State {
    match a
    case ReadState => s.(reader := Dispatch(s.conn), socket := s.socket && !DropsSocket(s.conn))
    case ResolveFails => s.(conn := Backoff, reader := AtLoop)
    case ResolveWorks => s.(reader := if !s.conn.Stop? then SetDialing else AtLoop)
    case StoreDialing => s.(conn := Dialing, reader := AtLoop)
    case DialWaits => s.(reader := AtLoop)
    case DialFails => s.(conn := Backoff, reader := AtLoop)
    case DialConnects =>
      s.(socket := true, sockets := s.sockets + 1, greeting := Fresh, connack := false, reader := Chosen)
    case ChosenChecksStop => s.(reader := if !s.conn.Stop? then SetAuthenticating else AtLoop)
    case StoreAuthenticating => s.(conn := Authenticating, reader := PushConnect)
    case QueueConnect => s.(queue := [Connect(s.sockets)] + s.queue, greeting := Queued, reader := AtLoop)
  }

  predicate SessionEnabled(s: State, a: SessionStep) {
    match a
    case RecvOther => s.reader.InRecv?
    case RecvPings => s.reader.InRecv?
    case RecvFails => s.reader.InRecv?
    case RecvConnack => s.reader.InRecv?
    case StoreUp => s.reader.SetUp?
    case TellUp => s.reader.NotifyUp? && MutexFree(s)
    case FlushChecks => s.reader.Flush? && |s.queue| <= s.limit
    case FlushPushes => s.reader.FlushChecked?
    case FlushEnds => s.reader.Flush?
    case FlushRefused => s.reader.Flush? && |s.queue| > s.limit
  }

  /** The reader in recvLoop, and in connectionStateChange(true) with the client mutex held. FlushEnds is the end
      of the flush or a refused publish; FlushRefused is a refused SUBSCRIBE, whose recovery makes the reader
      join itself. */
  function ApplySession(s: State, a: SessionStep): State {
    match a
    case RecvOther => s.(reader := AtLoop)
    case RecvPings => s.(queue := [Ping] + s.queue)
    case RecvFails => s.(reader := RecvFailed)
    case RecvConnack => s.(connack := true, reader := SetUp)
    case StoreUp => s.(conn := Up, reader := NotifyUp)
    case TellUp => s.(client := Connected, carried := false, reader := Flush)
    case FlushChecks => s.(reader := FlushChecked)
    case FlushPushes => Accept(s).(reader := Flush)
    case FlushEnds => s.(reader := AtLoop)
    case FlushRefused => s.(conn := Stop, reader := SelfJoin, recovered := true, carried := true)
  }

  predicate EndingEnabled(s: State, a: EndingStep) {
    match a
    case FailedChecksStop => s.reader.RecvFailed?
    case StoreError => s.reader.SetSocketError?
    case CloseIt => s.reader.CloseSocket?
    case StoreBackoff => s.reader.SetBackoff?
    case TellDown => s.reader.NotifyDown? && MutexFree(s)
    case EmptyQueue => s.reader.ClearQueue?
    case Wake => s.reader.Asleep?
    case StoreResolving => s.reader.SetResolving?
  }

  /** The reader from a failed recvLoop through SOCKET_ERROR and BACKOFF. */
  function ApplyEnding(s: State, a: EndingStep): State {
    match a
    case FailedChecksStop => s.(reader := if s.conn.Stop? then AtLoop else SetSocketError)
    case StoreError => s.(conn := SocketError, reader := CloseSocket)
    case CloseIt => s.(socket := false, reader := AtLoop)
    case StoreBackoff => s.(conn := Backoff, reader := NotifyDown)
    case TellDown => s.(client := Connecting, carried := false, connack := false, reader := ClearQueue)
    case EmptyQueue => s.(queue := [], greeting := if s.greeting.Queued? then Lost else s.greeting, reader := AtLoop)
    case Wake => s.(reader := if s.conn.Stop? then AtLoop else SetResolving)
    case StoreResolving => s.(conn := Resolving, reader := AtLoop)
  }

  predicate WriterEnabled(s: State, a: WriterStep) {
    match a
    case Look => s.writer.Looking? && (Authorised(s.conn) || s.conn.Stop?)
    case Pop => (s.writer.Popping? || (s.writer.Waiting? && !s.conn.Stop?)) && s.queue != []
    case Wait => s.writer.Popping? && s.queue == []
    case WakeStopped => s.writer.Waiting? && s.conn.Stop?
    case CheckState => s.writer.Holding?
    case Put => s.writer.Sending? && s.socket
    case PutFails => s.writer.Sending?
    case WriterStoresError => s.writer.SetError?
    case WriterCloses => s.writer.CloseAfterError?
  }

  /** The newest socket's CONNECT is still to be popped. */
  predicate Pending(s: State) {
    s.greeting.Fresh? || s.greeting.Queued?
  }

  /** The writer has popped another packet on the newest socket, before its CONNECT. */
  predicate PassesConnect(s: State, w: Writer)
    requires w.Holding?
  {
    Pending(s) && w.popped == s.sockets && w.packet != Connect(s.sockets)
  }

  /** runWrite, popSendQueueBlocking, sendPacket and socketError. */
  function ApplyWriter(s: State, a: WriterStep): State
    requires WriterEnabled(s, a)
  {
    match a
    case Look => s.(writer := if s.conn.Stop? then WriterDone else Popping)
    case Pop =>
      s.(queue := s.queue[1..], popped := s.popped + [s.queue[0]], writer := Holding(s.queue[0], s.sockets),
         greeting := if s.queue[0] == Connect(s.sockets) then Taken else s.greeting)
    case Wait => s.(writer := Waiting)
    case WakeStopped => s.(writer := Looking)
    case CheckState =>
      var w := s.writer;
      if Authorised(s.conn) then
        s.(writer := Sending(w.packet, w.popped),
           early := if PassesConnect(s, w) then s.early + {s.sockets} else s.early)
      else
        s.(writer := Looking,
           discarded :=
             if s.conn.Stop? && w.packet == Connect(s.sockets) then s.discarded + {s.sockets} else s.discarded)
    case Put => s.(writer := Looking, wire := s.wire + [Sent(s.sockets, s.writer.packet, s.writer.popped)])
    case PutFails => s.(writer := SetError)
    case WriterStoresError => s.(conn := SocketError, writer := CloseAfterError)
    case WriterCloses => s.(socket := false, writer := Looking)
  }

  predicate Enabled(s: State, a: Action) {
    match a
    case Application(x) => AppEnabled(s, x)
    case Reading(x) => ReaderEnabled(s, x)
    case Session(x) => SessionEnabled(s, x)
    case Ending(x) => EndingEnabled(s, x)
    case Writing(x) => WriterEnabled(s, x)
  }

  function Apply(s: State, a: Action): State
    requires Enabled(s, a)
  {
    match a
    case Application(x) => ApplyApp(s, x)
    case Reading(x) => ApplyReader(s, x)
    case Session(x) => ApplySession(s, x)
    case Ending(x) => ApplyEnding(s, x)
    case Writing(x) => ApplyWriter(s, x)
  }

  datatype Outcome = Reached(state: State) | Stuck

  /** Taking the actions one after the other; Stuck when one is not enabled. */
  function Run(s: State, run: seq<Action>): Outcome
    decreases |run|
  {
    if run == [] then Reached(s)
    else if Enabled(s, run[0]) then Run(Apply(s, run[0]), run[1..])
    else Stuck
  }

  /** `t` is reached from a fresh client with this send-queue size, in some interleaving. */
  ghost predicate Reachable(limit: nat, t: State) {
    exists run :: Run(Init(limit), run) == Reached(t)
  }
}
