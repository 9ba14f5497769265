/**
  The one controlling client, shared by the TCP thread, the timeout thread and the caller of stop.

  The steps are the assignments and calls of robot_protocol.c one by one: inside client_mutex each field is
  written in a step of its own, and the unlocked reads and writes happen between them. An event that its thread
  cannot perform now changes nothing, so every list of events is a legal schedule.
 */
module Session {

  /** The fields of client_info_t that the session protocol decides by. */
  datatype Client = Client(socket: nat, connected: bool, lastCommand: int, udpPort: nat, udpRegistered: bool)

  /** client_info_t after memset. */
  const NOBODY: Client := Client(0, false, 0, 0, false)

  /** The record of a client that has just been given control. */
  function Admitted(socket: nat, now: int): Client {
    Client(socket, true, now, 0, false)
  }

  datatype Thread = Tcp | Timeout | Stopper

  /** The next step of the thread that holds client_mutex. */
  datatype Section =
    // add_client
    | AddCheck(socket: nat)
    | AddFields(socket: nat)
    | AddConnect
    | AddPort
    | AddFlag
    | AddCallback
    | AddLeave(socket: nat, added: bool)
    // remove_client
    | RemoveCheck
    | RemoveCallback
    | RemoveClose
    | RemoveDisconnect
    | RemoveFlag
    | RemoveZero
    | RemoveLeave
    // storing a registered port
    | StorePort(port: nat, session: nat)
    | StoreFlag(port: nat, session: nat)
    | StoreLeave
    // the timeout thread's check
    | IdleCheck(now: int, seen: real)
    | IdleLeave(expired: bool, session: nat, last: real, seen: real)
    // robot_protocol_stop
    | StopCheck
    | StopClose
    | StopDisconnect
    | StopZero
    | StopLeave

  datatype Lock = Free | Held(holder: Thread, at: Section)

  /** What a frame asks for, as far as the client record is concerned. */
  datatype Frame = Registration(port: nat) | BadVersion | Other

  datatype TcpThread =
    | TcpTop
    | Adding(socket: nat)
    | Rejected(socket: nat)
    | Polling
    | Reading
    | ReadingPayload
    | GotFrame(frame: Frame, session: nat)
    | Storing(port: nat, session: nat)
    | Replying(closing: bool)
    | TcpRemoving
    | TcpInside
    | TcpDone

  datatype TimeoutThread =
    | TimeoutTop
    | Checking(now: int, seen: real)
    | TimeoutRemoving(session: nat, last: real, seen: real)
    | TimeoutInside
    | TimeoutDone

  /** A recv or a send: its socket, the socket it belongs to, and whether a removal of the client was completed since.
      A header belongs to the socket that was polled, payload and response to the one the header came from. */
  datatype Transfer = Transfer(socket: nat, own: nat, removed: bool)

  datatype StopCaller = Running | Joining | Locking | StopInside | Stopped

  /**
    Shared memory and the threads, then the history: how many sockets were accepted (numbered from 1), which of
    them got control, how often each was closed, the callbacks made, the number of the current session, the
    session whose frame set the port, the real time of the last command, whether stop closed a client, the
    number of completed removals, the socket last polled and the removals before that, the socket of the last
    header and the removals before it, the reads of headers, the recvs of payload pieces, the responses, and the
    last command and the clock reading that the timeout thread's last expiry went by.
   */
  datatype State = State(
    running: bool, clock: real, timeoutMs: nat, client: Client, lock: Lock,
    tcp: TcpThread, timeout: TimeoutThread, stop: StopCaller,
    accepted: nat, admitted: set<nat>, closed: multiset<nat>, connects: nat, disconnects: nat,
    session: nat, portSession: nat, lastReal: real, tornDown: bool,
    removals: nat, pollSocket: nat, pollRemovals: nat, frameSocket: nat, frameRemovals: nat,
    headers: seq<Transfer>, received: seq<Transfer>, sent: seq<Transfer>, checkLast: real, checkSeen: real)

  /** What the environment gives the TCP thread where it asks. */
  datatype Input =
    | Nothing
    | Incoming
    | BadDescriptor
    | ServerError
    | Readable
    | NoFrame
    | PartialHeader
    | Oversized
    | HeaderRead
    | Piece
    | FrameRead(frame: Frame)

  datatype Event = TcpStep(input: Input) | TimeoutStep | StopStep | Pass(seconds: real)

  function Init(timeoutMs: nat): State {
    State(true, 0.0, timeoutMs, NOBODY, Free, TcpTop, TimeoutTop, Running,
          0, {}, multiset{}, 0, 0, 0, 0, 0.0, false, 0, 0, 0, 0, 0, [], [], [], 0.0, 0.0)
  }

  function Step(s: State, e: Event): State {
    match e
    case TcpStep(input) =>
      if s.tcp.TcpInside? then if s.lock.Held? && s.lock.holder.Tcp? then Inside(s) else s else TcpMove(s, input)
    case TimeoutStep =>
      if s.timeout.TimeoutInside? then if s.lock.Held? && s.lock.holder.Timeout? then Inside(s) else s
      else TimeoutMove(s)
    case StopStep =>
      if s.stop.StopInside? then if s.lock.Held? && s.lock.holder.Stopper? then Inside(s) else s else StopMove(s)
    case Pass(seconds) => if seconds < 0.0 then s else s.(clock := s.clock + seconds)
  }

  /** tcp_thread_func outside the mutex. */
  function TcpMove(s: State, input: Input): State {
    match s.tcp
    case TcpTop =>
      if !s.running then s.(tcp := TcpDone)
      else if input.Incoming? then s.(accepted := s.accepted + 1, tcp := Adding(s.accepted + 1))
      else if input.BadDescriptor? then if s.client.connected then s.(tcp := TcpRemoving) else s
      else if input.ServerError? then s.(tcp := TcpDone)
      else if input.Readable? then s.(tcp := Polling)
      else s
    case Adding(socket) =>
      if s.lock.Free? then s.(tcp := TcpInside, lock := Held(Tcp, AddCheck(socket))) else s
    case Rejected(socket) => s.(closed := s.closed + multiset{socket}, tcp := Polling)
    case Polling => if s.client.connected && input.Readable? then Polled(s).(tcp := Reading) else s.(tcp := TcpTop)
    case Reading =>
      if input.NoFrame? then WithFrame(s).(tcp := TcpRemoving)
      else if input.PartialHeader? then WithFrame(s).(tcp := TcpTop)
      else if input.Oversized? then WithFrame(s).(tcp := Replying(false))
      else if input.HeaderRead? then WithFrame(s).(tcp := ReadingPayload)
      else s
    case ReadingPayload =>
      if input.NoFrame? then s.(tcp := TcpRemoving)
      else if input.Piece? then s.(received := s.received + [Now(s)])
      else if input.FrameRead? then
        s.(tcp := GotFrame(input.frame, if s.client.connected then s.session else 0))
      else s
    case GotFrame(frame, session) =>
      var touched := s.(client := s.client.(lastCommand := s.clock.Floor), lastReal := s.clock);
      (match frame
       case Registration(port) => touched.(tcp := if port > 0 then Storing(port, session) else Replying(false))
       case BadVersion => touched.(tcp := Replying(true))
       case Other => touched.(tcp := Replying(false)))
    case Storing(port, session) =>
      if s.lock.Free? then s.(tcp := TcpInside, lock := Held(Tcp, StorePort(port, session))) else s
    case Replying(closing) =>
      s.(sent := s.sent + [Now(s)], tcp := if closing then TcpRemoving else TcpTop)
    case TcpRemoving =>
      if s.lock.Free? then s.(tcp := TcpInside, lock := Held(Tcp, RemoveCheck)) else s
    case TcpInside => s
    case TcpDone => s
  }

  /** A transfer over the socket that the record shows. */
  function Now(s: State): Transfer {
    Transfer(s.client.socket, s.frameSocket, s.removals != s.frameRemovals)
  }

  /** The client's socket was found readable. */
  function Polled(s: State): State {
    s.(pollSocket := s.client.socket, pollRemovals := s.removals)
  }

  /** read_header reads from the socket that the record shows when it is called. */
  function WithFrame(s: State): State {
    s.(frameSocket := s.client.socket, frameRemovals := s.removals,
       headers := s.headers + [Transfer(s.client.socket, s.pollSocket, s.removals != s.pollRemovals)])
  }

  /** timeout_thread_func outside the mutex. */
  function TimeoutMove(s: State): State {
    match s.timeout
    case TimeoutTop =>
      if !s.running then s.(timeout := TimeoutDone) else s.(timeout := Checking(s.clock.Floor, s.clock))
    case Checking(now, seen) =>
      if s.lock.Free? then s.(timeout := TimeoutInside, lock := Held(Timeout, IdleCheck(now, seen))) else s
    case TimeoutRemoving(_, _, _) =>
      if s.lock.Free? then s.(timeout := TimeoutInside, lock := Held(Timeout, RemoveCheck)) else s
    case TimeoutInside => s
    case TimeoutDone => s
  }

  /** robot_protocol_stop outside the mutex. */
  function StopMove(s: State): State {
    match s.stop
    case Running => s.(running := false, stop := Joining)
    case Joining => if s.tcp.TcpDone? && s.timeout.TimeoutDone? then s.(stop := Locking) else s
    case Locking => if s.lock.Free? then s.(stop := StopInside, lock := Held(Stopper, StopCheck)) else s
    case StopInside => s
    case Stopped => s
  }

  /** The comparison of idle_time with timeout_seconds. */
  predicate Expired(now: int, lastCommand: int, timeoutMs: nat) {
    (now - lastCommand) as real > timeoutMs as real / 1000.0
  }

  /** One step of the thread inside the mutex. */
  function Inside(s: State): State
    requires s.lock.Held?
  {
    var c := s.client;
    match s.lock.at
    case AddCheck(socket) => At(s, if c.connected then AddLeave(socket, false) else AddFields(socket))
    case AddFields(socket) =>
      At(s.(client := c.(socket := socket, lastCommand := s.clock.Floor), lastReal := s.clock), AddConnect)
    case AddConnect =>
      At(s.(client := c.(connected := true), session := s.session + 1, admitted := s.admitted + {c.socket}), AddPort)
    case AddPort => At(s.(client := c.(udpPort := 0)), AddFlag)
    case AddFlag => At(s.(client := c.(udpRegistered := false)), AddCallback)
    case AddCallback => At(s.(connects := s.connects + 1), AddLeave(c.socket, true))
    case AddLeave(socket, added) => s.(lock := Free, tcp := if added then Polling else Rejected(socket))

    case RemoveCheck => At(s, if c.connected then RemoveCallback else RemoveLeave)
    case RemoveCallback => At(s.(disconnects := s.disconnects + 1), RemoveClose)
    case RemoveClose => At(s.(closed := s.closed + multiset{c.socket}), RemoveDisconnect)
    case RemoveDisconnect => At(s.(client := c.(connected := false)), RemoveFlag)
    case RemoveFlag => At(s.(client := c.(udpRegistered := false)), RemoveZero)
    case RemoveZero => At(s.(client := NOBODY, removals := s.removals + 1), RemoveLeave)
    case RemoveLeave =>
      if s.lock.holder.Timeout? then s.(lock := Free, timeout := TimeoutTop) else s.(lock := Free, tcp := TcpTop)

    case StorePort(port, session) =>
      At(s.(client := c.(udpPort := port), portSession := session), StoreFlag(port, session))
    case StoreFlag(port, session) => At(s.(client := c.(udpRegistered := true)), StoreLeave)
    case StoreLeave => s.(lock := Free, tcp := Replying(false))

    case IdleCheck(now, seen) =>
      At(s, IdleLeave(c.connected && Expired(now, c.lastCommand, s.timeoutMs), s.session, s.lastReal, seen))
    case IdleLeave(expired, session, last, seen) =>
      if expired then
        s.(lock := Free, timeout := TimeoutRemoving(session, last, seen), checkLast := last, checkSeen := seen)
      else s.(lock := Free, timeout := TimeoutTop)

    case StopCheck => At(s, if c.connected then StopClose else StopLeave)
    case StopClose => At(s.(closed := s.closed + multiset{c.socket}), StopDisconnect)
    case StopDisconnect => At(s.(client := c.(connected := false), tornDown := true), StopZero)
    case StopZero => At(s.(client := NOBODY), StopLeave)
    case StopLeave => s.(lock := Free, stop := Stopped)
  }

  function At(s: State, at: Section): State
    requires s.lock.Held?
  {
    s.(lock := s.lock.(at := at))
  }

  function Run(s: State, schedule: seq<Event>): State
    decreases |schedule|
  {
    if schedule == [] then s else Run(Step(s, schedule[0]), schedule[1..])
  }

  // ---- Which thread may be where ----

  predicate AtFrame(t: TcpThread) {
    t.Reading? || t.ReadingPayload? || t.GotFrame?
  }

  /** The TCP thread has not read a frame in this turn of its loop. */
  predicate BeforeFrame(t: TcpThread) {
    t.TcpTop? || t.Adding? || t.Rejected? || t.Polling?
  }

  predicate IsAdd(at: Section) {
    at.AddCheck? || at.AddFields? || at.AddConnect? || at.AddPort? || at.AddFlag? || at.AddCallback? || at.AddLeave?
  }

  predicate IsRemove(at: Section) {
    at.RemoveCheck? || at.RemoveCallback? || at.RemoveClose? || at.RemoveDisconnect? || at.RemoveFlag?
    || at.RemoveZero? || at.RemoveLeave?
  }

  predicate IsStore(at: Section) {
    at.StorePort? || at.StoreFlag? || at.StoreLeave?
  }

  predicate IsIdle(at: Section) {
    at.IdleCheck? || at.IdleLeave?
  }

  predicate IsStop(at: Section) {
    at.StopCheck? || at.StopClose? || at.StopDisconnect? || at.StopZero? || at.StopLeave?
  }

  ghost predicate Places(s: State) {
    && (s.tcp.TcpInside? <==> s.lock.Held? && s.lock.holder.Tcp?)
    && (s.timeout.TimeoutInside? <==> s.lock.Held? && s.lock.holder.Timeout?)
    && (s.stop.StopInside? <==> s.lock.Held? && s.lock.holder.Stopper?)
    && (s.lock.Held? ==>
          match s.lock.holder
          case Tcp => IsAdd(s.lock.at) || IsRemove(s.lock.at) || IsStore(s.lock.at)
          case Timeout => IsIdle(s.lock.at) || IsRemove(s.lock.at)
          case Stopper => IsStop(s.lock.at))
    && (s.running <==> s.stop.Running?)
    && (s.stop.Locking? || s.stop.StopInside? || s.stop.Stopped? ==> s.tcp.TcpDone? && s.timeout.TimeoutDone?)
    && (s.tornDown ==> s.stop.StopInside? || s.stop.Stopped?)
    && (s.stop.Stopped? ==> !s.client.connected)
  }

  /** What the flag says at each point inside the mutex. */
  ghost predicate ConnectedOk(s: State) {
    s.lock.Held? ==>
      match s.lock.at
      case AddFields(_) => !s.client.connected
      case AddConnect => !s.client.connected
      case AddPort => s.client.connected
      case AddFlag => s.client.connected
      case AddCallback => s.client.connected
      case AddLeave(_, _) => s.client.connected
      case RemoveCallback => s.client.connected
      case RemoveClose => s.client.connected
      case RemoveDisconnect => s.client.connected
      case RemoveFlag => !s.client.connected
      case RemoveZero => !s.client.connected
      case RemoveLeave => !s.client.connected
      case StopClose => s.client.connected && !s.tornDown
      case StopDisconnect => s.client.connected && !s.tornDown
      case StopZero => !s.client.connected && s.tornDown
      case StopLeave => !s.client.connected
      case StopCheck => !s.tornDown
      case _ => true
  }

  ghost predicate LockAt(s: State, p: Section -> bool) {
    s.lock.Held? && p(s.lock.at)
  }

  function One(b: bool): int {
    if b then 1 else 0
  }

  /** A session has begun but its connection callback has not been made. */
  predicate Announcing(at: Section) {
    at.AddPort? || at.AddFlag? || at.AddCallback?
  }

  /** A session's disconnection callback has been made but it still reads as connected. */
  predicate Leaving(at: Section) {
    at.RemoveClose? || at.RemoveDisconnect?
  }

  ghost predicate CallbacksOk(s: State) {
    s.connects as int == s.disconnects + One(s.client.connected) + One(s.tornDown)
                         - One(LockAt(s, Announcing)) - One(LockAt(s, Leaving))
  }

  /** The socket that the TCP thread has accepted and not yet handed over or closed; 0 if there is none. */
  function Carried(s: State): nat {
    match s.tcp
    case Adding(socket) => socket
    case Rejected(socket) => socket
    case TcpInside =>
      if s.lock.Free? then 0
      else
        (match s.lock.at
         case AddCheck(socket) => socket
         case AddFields(socket) => socket
         case AddLeave(socket, added) => if added then 0 else socket
         case _ => 0)
    case _ => 0
  }

  predicate Carrying(s: State) {
    || s.tcp.Adding? || s.tcp.Rejected?
    || (s.tcp.TcpInside? && s.lock.Held?
        && (s.lock.at.AddCheck? || s.lock.at.AddFields? || (s.lock.at.AddLeave? && !s.lock.at.added)))
  }

  /** The client record owns an open socket. */
  predicate OwnsSocket(s: State) {
    if s.client.connected then !(s.lock.Held? && (s.lock.at.RemoveDisconnect? || s.lock.at.StopDisconnect?))
    else s.lock.Held? && s.lock.at.AddConnect?
  }

  predicate Open(s: State, socket: nat) {
    socket > 0 && (socket == Carried(s) || (OwnsSocket(s) && socket == s.client.socket))
  }

  /** What the record of accepted, controlling and closed sockets says of socket k. */
  ghost predicate SocketOk(s: State, k: nat) {
    && s.closed[k] == (if 1 <= k <= s.accepted && !Open(s, k) then 1 else 0)
    && (k in s.admitted ==> 1 <= k <= s.accepted)
    && (k in s.admitted && s.closed[k] == 0 ==> s.client.connected && k == s.client.socket)
  }

  /** The socket carried and the socket owned are accepted ones, and not the same. */
  ghost predicate HandsOk(s: State) {
    && Carried(s) <= s.accepted && Carried(s) !in s.admitted && (Carrying(s) ==> Carried(s) > 0)
    && (OwnsSocket(s) ==> 1 <= s.client.socket <= s.accepted && s.client.socket != Carried(s))
    && (s.client.connected ==> s.client.socket in s.admitted)
    && (s.lock.Held? && s.lock.at.AddConnect? ==> s.client.socket !in s.admitted)
    && (s.lock.Held? && s.lock.at.AddLeave? && s.lock.at.added ==> s.lock.at.socket == s.client.socket)
  }

  ghost predicate SocketsOk(s: State) {
    HandsOk(s) && forall k: nat :: SocketOk(s, k)
  }

  // ---- Registration ----

  /** Between connected = true and udp_port_registered = false in add_client. */
  predicate Unreset(at: Section) {
    at.AddPort? || at.AddFlag?
  }

  ghost predicate RegistrationOk(s: State) {
    && s.portSession <= s.session
    && (s.client.connected && s.client.udpRegistered && !LockAt(s, Unreset) ==>
          s.client.udpPort > 0 && s.portSession == s.session)
    && (LockAt(s, Unreset) ==> s.portSession < s.session)
    && (match s.tcp
        case GotFrame(_, session) => FromClient(s, session)
        case Storing(port, session) => FromClient(s, session) && port > 0
        case _ => true)
    && (s.lock.Held? ==>
          match s.lock.at
          case StorePort(port, session) => FromClient(s, session) && port > 0
          case StoreFlag(port, session) =>
            FromClient(s, session) && port > 0 && s.client.udpPort == port && s.portSession == session
          case _ => true)
  }

  /** A frame read in `session` is, if a client is connected at all, one of the present client's. */
  predicate FromClient(s: State, session: nat) {
    session <= s.session && (s.client.connected ==> session == s.session)
  }

  // ---- Responses ----

  /** The TCP thread has read a header and not yet answered the frame. */
  predicate HasFrame(s: State) {
    || s.tcp.ReadingPayload? || s.tcp.GotFrame? || s.tcp.Storing? || s.tcp.Replying?
    || (s.tcp.TcpInside? && s.lock.Held? && IsStore(s.lock.at))
  }

  ghost predicate TransferOk(t: Transfer) {
    t.socket == if t.removed then 0 else t.own
  }

  ghost predicate RepliesOk(s: State) {
    && s.frameRemovals <= s.removals
    && (HasFrame(s) ==> s.client.socket == if s.removals == s.frameRemovals then s.frameSocket else 0)
    && s.pollRemovals <= s.removals
    && (s.tcp.Reading? ==>
          s.pollSocket > 0 && s.client.socket == if s.removals == s.pollRemovals then s.pollSocket else 0)
    && (forall t :: t in s.headers ==> TransferOk(t) && t.own > 0)
    && (forall t :: t in s.received ==> TransferOk(t))
    && (forall t :: t in s.sent ==> TransferOk(t))
  }

  // ---- Time ----

  /** More than floor(timeout_ms / 1000) seconds of real time between two moments. */
  predicate LongSilence(last: real, now: real, timeoutMs: nat) {
    now - last > (timeoutMs / 1000) as real
  }

  lemma IdleBound(seen: real, last: real, timeoutMs: nat)
    ensures Expired(seen.Floor, last.Floor, timeoutMs) ==> LongSilence(last, seen, timeoutMs)
    ensures seen - last >= (timeoutMs / 1000 + 1) as real ==> Expired(seen.Floor, last.Floor, timeoutMs)
  {
    var d, f := seen.Floor - last.Floor, timeoutMs / 1000;
    assert Expired(seen.Floor, last.Floor, timeoutMs) <==> d as real * 1000.0 > timeoutMs as real;
    assert 1000 * f <= timeoutMs < 1000 * f + 1000;
    assert Expired(seen.Floor, last.Floor, timeoutMs) <==> d >= f + 1;
  }

  /** The last command is still the one that the check saw, or came after the check's clock reading. */
  predicate SameOrLater(s: State, last: real, seen: real) {
    s.lastReal == last || seen <= s.lastReal
  }

  /** What the expiry that the timeout thread acts on still says of the client's silence. */
  ghost predicate CheckOk(s: State) {
    && LongSilence(s.checkLast, s.checkSeen, s.timeoutMs) && s.checkSeen <= s.clock
    && SameOrLater(s, s.checkLast, s.checkSeen)
  }

  /** The timeout thread is inside remove_client. */
  predicate TimeoutRemoves(s: State) {
    s.lock.Held? && s.lock.holder.Timeout? && IsRemove(s.lock.at)
  }

  ghost predicate TimeOk(s: State) {
    && s.lastReal <= s.clock
    && (TimeoutRemoves(s) ==> CheckOk(s))
    && (s.client.connected || (s.lock.Held? && s.lock.at.AddConnect?) ==> s.client.lastCommand == s.lastReal.Floor)
    && (match s.timeout
        case Checking(now, seen) => now == seen.Floor && seen <= s.clock
        case TimeoutRemoving(session, last, seen) =>
          last == s.checkLast && seen == s.checkSeen && CheckOk(s)
        case _ => true)
    && (s.lock.Held? ==>
          match s.lock.at
          case IdleCheck(now, seen) => now == seen.Floor && seen <= s.clock
          case IdleLeave(expired, session, last, seen) =>
            seen <= s.clock && (expired ==> LongSilence(last, seen, s.timeoutMs) && SameOrLater(s, last, seen))
          case _ => true)
  }

  // ---- Every step keeps all of it ----

  ghost predicate Good(s: State) {
    Places(s) && ConnectedOk(s) && CallbacksOk(s) && SocketsOk(s) && RegistrationOk(s) && TimeOk(s) && RepliesOk(s)
  }

  lemma PlacesInTcp(s: State, input: Input)
    requires Places(s) && ConnectedOk(s)
    ensures Places(TcpMove(s, input)) && ConnectedOk(TcpMove(s, input))
  {
    if BeforeFrame(s.tcp) {
      PlacesBeforeFrame(s, input);
    } else if AtFrame(s.tcp) {
      PlacesAtFrame(s, input);
    } else {
      PlacesAfterFrame(s, input);
    }
  }

  lemma PlacesBeforeFrame(s: State, input: Input)
    requires Places(s) && ConnectedOk(s) && BeforeFrame(s.tcp)
    ensures Places(TcpMove(s, input)) && ConnectedOk(TcpMove(s, input))
  {
  }

  lemma PlacesAtFrame(s: State, input: Input)
    requires Places(s) && ConnectedOk(s) && AtFrame(s.tcp)
    ensures Places(TcpMove(s, input)) && ConnectedOk(TcpMove(s, input))
  {
  }

  lemma PlacesAfterFrame(s: State, input: Input)
    requires Places(s) && ConnectedOk(s) && !BeforeFrame(s.tcp) && !AtFrame(s.tcp)
    ensures Places(TcpMove(s, input)) && ConnectedOk(TcpMove(s, input))
  {
  }

  lemma PlacesInOthers(s: State)
    requires Places(s) && ConnectedOk(s)
    ensures Places(TimeoutMove(s)) && ConnectedOk(TimeoutMove(s))
    ensures Places(StopMove(s)) && ConnectedOk(StopMove(s))
  {
  }

  lemma PlacesInside(s: State)
    requires Places(s) && ConnectedOk(s) && s.lock.Held?
    ensures Places(Inside(s)) && ConnectedOk(Inside(s))
  {
    if IsAdd(s.lock.at) {
      PlacesInsideAdd(s);
    } else if IsRemove(s.lock.at) {
      PlacesInsideRemove(s);
    } else {
      PlacesInsideOther(s);
    }
  }

  lemma PlacesInsideAdd(s: State)
    requires Places(s) && ConnectedOk(s) && s.lock.Held? && IsAdd(s.lock.at)
    ensures Places(Inside(s)) && ConnectedOk(Inside(s))
  {
  }

  lemma PlacesInsideRemove(s: State)
    requires Places(s) && ConnectedOk(s) && s.lock.Held? && IsRemove(s.lock.at)
    ensures Places(Inside(s)) && ConnectedOk(Inside(s))
  {
  }

  lemma PlacesInsideOther(s: State)
    requires Places(s) && ConnectedOk(s) && s.lock.Held? && !IsAdd(s.lock.at) && !IsRemove(s.lock.at)
    ensures Places(Inside(s)) && ConnectedOk(Inside(s))
  {
  }

  lemma CallbacksInTcp(s: State, input: Input)
    requires Places(s) && ConnectedOk(s) && CallbacksOk(s)
    ensures CallbacksOk(TcpMove(s, input))
  {
    if BeforeFrame(s.tcp) {
      CallbacksBeforeFrame(s, input);
    } else if AtFrame(s.tcp) {
      CallbacksAtFrame(s, input);
    } else {
      CallbacksAfterFrame(s, input);
    }
  }

  lemma CallbacksBeforeFrame(s: State, input: Input)
    requires Places(s) && ConnectedOk(s) && CallbacksOk(s) && BeforeFrame(s.tcp)
    ensures CallbacksOk(TcpMove(s, input))
  {
  }

  lemma CallbacksAtFrame(s: State, input: Input)
    requires Places(s) && ConnectedOk(s) && CallbacksOk(s) && AtFrame(s.tcp)
    ensures CallbacksOk(TcpMove(s, input))
  {
  }

  lemma CallbacksAfterFrame(s: State, input: Input)
    requires Places(s) && ConnectedOk(s) && CallbacksOk(s) && !BeforeFrame(s.tcp) && !AtFrame(s.tcp)
    ensures CallbacksOk(TcpMove(s, input))
  {
  }

  lemma CallbacksInOthers(s: State)
    requires Places(s) && ConnectedOk(s) && CallbacksOk(s)
    ensures CallbacksOk(TimeoutMove(s))
    ensures CallbacksOk(StopMove(s))
  {
  }

  lemma CallbacksInside(s: State)
    requires Places(s) && ConnectedOk(s) && CallbacksOk(s) && s.lock.Held?
    ensures CallbacksOk(Inside(s))
  {
    if IsAdd(s.lock.at) {
      CallbacksInsideAdd(s);
    } else if IsRemove(s.lock.at) {
      CallbacksInsideRemove(s);
    } else {
      CallbacksInsideOther(s);
    }
  }

  lemma CallbacksInsideAdd(s: State)
    requires Places(s) && ConnectedOk(s) && CallbacksOk(s) && s.lock.Held? && IsAdd(s.lock.at)
    ensures CallbacksOk(Inside(s))
  {
  }

  lemma CallbacksInsideRemove(s: State)
    requires Places(s) && ConnectedOk(s) && CallbacksOk(s) && s.lock.Held? && IsRemove(s.lock.at)
    ensures CallbacksOk(Inside(s))
  {
  }

  lemma CallbacksInsideOther(s: State)
    requires Places(s) && ConnectedOk(s) && CallbacksOk(s) && s.lock.Held? && !IsAdd(s.lock.at) && !IsRemove(s.lock.at)
    ensures CallbacksOk(Inside(s))
  {
  }

  lemma HandsInTcp(s: State, input: Input)
    requires Places(s) && ConnectedOk(s) && SocketsOk(s)
    ensures HandsOk(TcpMove(s, input))
  {
    if BeforeFrame(s.tcp) {
      HandsBeforeFrame(s, input);
    } else if AtFrame(s.tcp) {
      HandsAtFrame(s, input);
    } else {
      HandsAfterFrame(s, input);
    }
  }

  lemma HandsBeforeFrame(s: State, input: Input)
    requires Places(s) && ConnectedOk(s) && SocketsOk(s) && BeforeFrame(s.tcp)
    ensures HandsOk(TcpMove(s, input))
  {
    assert SocketOk(s, 0) && SocketOk(s, s.accepted + 1);
  }

  lemma HandsAtFrame(s: State, input: Input)
    requires Places(s) && ConnectedOk(s) && SocketsOk(s) && AtFrame(s.tcp)
    ensures HandsOk(TcpMove(s, input))
  {
    assert SocketOk(s, 0) && SocketOk(s, s.accepted + 1);
  }

  lemma HandsAfterFrame(s: State, input: Input)
    requires Places(s) && ConnectedOk(s) && SocketsOk(s) && !BeforeFrame(s.tcp) && !AtFrame(s.tcp)
    ensures HandsOk(TcpMove(s, input))
  {
    assert SocketOk(s, 0) && SocketOk(s, s.accepted + 1);
  }

  lemma HandsInOthers(s: State)
    requires Places(s) && ConnectedOk(s) && SocketsOk(s)
    ensures HandsOk(TimeoutMove(s))
    ensures HandsOk(StopMove(s))
  {
  }

  lemma HandsInside(s: State)
    requires Places(s) && ConnectedOk(s) && SocketsOk(s) && s.lock.Held?
    ensures HandsOk(Inside(s))
  {
    if IsAdd(s.lock.at) {
      HandsInsideAdd(s);
    } else if IsRemove(s.lock.at) {
      HandsInsideRemove(s);
    } else {
      HandsInsideOther(s);
    }
  }

  lemma HandsInsideAdd(s: State)
    requires Places(s) && ConnectedOk(s) && SocketsOk(s) && s.lock.Held? && IsAdd(s.lock.at)
    ensures HandsOk(Inside(s))
  {
    assert SocketOk(s, 0) && SocketOk(s, s.accepted + 1);
  }

  lemma HandsInsideRemove(s: State)
    requires Places(s) && ConnectedOk(s) && SocketsOk(s) && s.lock.Held? && IsRemove(s.lock.at)
    ensures HandsOk(Inside(s))
  {
    assert SocketOk(s, 0) && SocketOk(s, s.accepted + 1);
  }

  lemma HandsInsideOther(s: State)
    requires Places(s) && ConnectedOk(s) && SocketsOk(s) && s.lock.Held? && !IsAdd(s.lock.at) && !IsRemove(s.lock.at)
    ensures HandsOk(Inside(s))
  {
    assert SocketOk(s, 0) && SocketOk(s, s.accepted + 1);
  }

  lemma RegistrationInTcp(s: State, input: Input)
    requires Places(s) && ConnectedOk(s) && RegistrationOk(s)
    ensures RegistrationOk(TcpMove(s, input))
  {
    if BeforeFrame(s.tcp) {
      RegistrationBeforeFrame(s, input);
    } else if AtFrame(s.tcp) {
      RegistrationAtFrame(s, input);
    } else {
      RegistrationAfterFrame(s, input);
    }
  }

  lemma RegistrationBeforeFrame(s: State, input: Input)
    requires Places(s) && ConnectedOk(s) && RegistrationOk(s) && BeforeFrame(s.tcp)
    ensures RegistrationOk(TcpMove(s, input))
  {
  }

  lemma RegistrationAtFrame(s: State, input: Input)
    requires Places(s) && ConnectedOk(s) && RegistrationOk(s) && AtFrame(s.tcp)
    ensures RegistrationOk(TcpMove(s, input))
  {
    if s.tcp.Reading? {
      RegistrationInReading(s, input);
    } else {
      RegistrationWithHeader(s, input);
    }
  }

  lemma RegistrationInReading(s: State, input: Input)
    requires Places(s) && ConnectedOk(s) && RegistrationOk(s) && AtFrame(s.tcp)
    requires s.tcp.Reading?
    ensures RegistrationOk(TcpMove(s, input))
  {
  }

  lemma RegistrationWithHeader(s: State, input: Input)
    requires Places(s) && ConnectedOk(s) && RegistrationOk(s) && AtFrame(s.tcp)
    requires !(s.tcp.Reading?)
    ensures RegistrationOk(TcpMove(s, input))
  {
  }

  lemma RegistrationAfterFrame(s: State, input: Input)
    requires Places(s) && ConnectedOk(s) && RegistrationOk(s) && !BeforeFrame(s.tcp) && !AtFrame(s.tcp)
    ensures RegistrationOk(TcpMove(s, input))
  {
  }

  lemma RegistrationInTimeout(s: State)
    requires Places(s) && ConnectedOk(s) && RegistrationOk(s)
    ensures RegistrationOk(TimeoutMove(s))
  {
  }

  lemma RegistrationInStop(s: State)
    requires Places(s) && ConnectedOk(s) && RegistrationOk(s)
    ensures RegistrationOk(StopMove(s))
  {
  }

  lemma RegistrationInside(s: State)
    requires Places(s) && ConnectedOk(s) && RegistrationOk(s) && s.lock.Held?
    ensures RegistrationOk(Inside(s))
  {
    if IsAdd(s.lock.at) {
      RegistrationInsideAdd(s);
    } else if IsRemove(s.lock.at) {
      RegistrationInsideRemove(s);
    } else {
      RegistrationInsideOther(s);
    }
  }

  lemma RegistrationInsideAdd(s: State)
    requires Places(s) && ConnectedOk(s) && RegistrationOk(s) && s.lock.Held? && IsAdd(s.lock.at)
    ensures RegistrationOk(Inside(s))
  {
  }

  lemma RegistrationInsideRemove(s: State)
    requires Places(s) && ConnectedOk(s) && RegistrationOk(s) && s.lock.Held? && IsRemove(s.lock.at)
    ensures RegistrationOk(Inside(s))
  {
  }

  lemma RegistrationInsideOther(s: State)
    requires Places(s) && ConnectedOk(s) && RegistrationOk(s) && s.lock.Held?
    requires !IsAdd(s.lock.at) && !IsRemove(s.lock.at)
    ensures RegistrationOk(Inside(s))
  {
  }

  lemma RepliesInTcp(s: State, input: Input)
    requires Places(s) && RepliesOk(s)
    requires s.client.connected ==> s.client.socket > 0
    ensures RepliesOk(TcpMove(s, input))
  {
    if BeforeFrame(s.tcp) {
      RepliesBeforeFrame(s, input);
    } else if AtFrame(s.tcp) {
      RepliesAtFrame(s, input);
    } else {
      RepliesAfterFrame(s, input);
    }
  }

  lemma RepliesBeforeFrame(s: State, input: Input)
    requires Places(s) && RepliesOk(s) && BeforeFrame(s.tcp)
    requires s.client.connected ==> s.client.socket > 0
    ensures RepliesOk(TcpMove(s, input))
  {
  }

  lemma RepliesAtFrame(s: State, input: Input)
    requires Places(s) && RepliesOk(s) && AtFrame(s.tcp)
    ensures RepliesOk(TcpMove(s, input))
  {
  }

  lemma RepliesAfterFrame(s: State, input: Input)
    requires Places(s) && RepliesOk(s) && !BeforeFrame(s.tcp) && !AtFrame(s.tcp)
    ensures RepliesOk(TcpMove(s, input))
  {
  }

  lemma RepliesInOthers(s: State)
    requires Places(s) && RepliesOk(s)
    ensures RepliesOk(TimeoutMove(s)) && RepliesOk(StopMove(s))
  {
  }

  lemma RepliesInside(s: State)
    requires Places(s) && RepliesOk(s) && s.lock.Held?
    ensures RepliesOk(Inside(s))
  {
    if IsAdd(s.lock.at) {
      RepliesInsideAdd(s);
    } else if IsRemove(s.lock.at) {
      RepliesInsideRemove(s);
    } else {
      RepliesInsideOther(s);
    }
  }

  lemma RepliesInsideAdd(s: State)
    requires Places(s) && RepliesOk(s) && s.lock.Held? && IsAdd(s.lock.at)
    ensures RepliesOk(Inside(s))
  {
  }

  lemma RepliesInsideRemove(s: State)
    requires Places(s) && RepliesOk(s) && s.lock.Held? && IsRemove(s.lock.at)
    ensures RepliesOk(Inside(s))
  {
  }

  lemma RepliesInsideOther(s: State)
    requires Places(s) && RepliesOk(s) && s.lock.Held? && !IsAdd(s.lock.at) && !IsRemove(s.lock.at)
    ensures RepliesOk(Inside(s))
  {
    if IsStore(s.lock.at) {
      RepliesInsideStore(s);
    } else {
      RepliesInsideCheck(s);
    }
  }

  lemma RepliesInsideStore(s: State)
    requires Places(s) && RepliesOk(s) && s.lock.Held? && !IsAdd(s.lock.at) && !IsRemove(s.lock.at)
    requires IsStore(s.lock.at)
    ensures RepliesOk(Inside(s))
  {
  }

  lemma RepliesInsideCheck(s: State)
    requires Places(s) && RepliesOk(s) && s.lock.Held? && !IsAdd(s.lock.at) && !IsRemove(s.lock.at)
    requires !(IsStore(s.lock.at))
    ensures RepliesOk(Inside(s))
  {
  }

  lemma TimeInTcp(s: State, input: Input)
    requires Places(s) && ConnectedOk(s) && TimeOk(s)
    ensures TimeOk(TcpMove(s, input))
  {
    if BeforeFrame(s.tcp) {
      TimeBeforeFrame(s, input);
    } else if AtFrame(s.tcp) {
      TimeAtFrame(s, input);
    } else {
      TimeAfterFrame(s, input);
    }
  }

  lemma TimeBeforeFrame(s: State, input: Input)
    requires Places(s) && ConnectedOk(s) && TimeOk(s) && BeforeFrame(s.tcp)
    ensures TimeOk(TcpMove(s, input))
  {
  }

  lemma TimeAtFrame(s: State, input: Input)
    requires Places(s) && ConnectedOk(s) && TimeOk(s) && AtFrame(s.tcp)
    ensures TimeOk(TcpMove(s, input))
  {
    if s.tcp.Reading? {
      TimeInReading(s, input);
    } else {
      TimeWithHeader(s, input);
    }
  }

  lemma TimeWithHeader(s: State, input: Input)
    requires Places(s) && ConnectedOk(s) && TimeOk(s) && (s.tcp.ReadingPayload? || s.tcp.GotFrame?)
    ensures TimeOk(TcpMove(s, input))
  {
  }

  lemma TimeInReading(s: State, input: Input)
    requires Places(s) && ConnectedOk(s) && TimeOk(s) && s.tcp.Reading?
    ensures TimeOk(TcpMove(s, input))
  {
  }

  lemma TimeAfterFrame(s: State, input: Input)
    requires Places(s) && ConnectedOk(s) && TimeOk(s) && !BeforeFrame(s.tcp) && !AtFrame(s.tcp)
    ensures TimeOk(TcpMove(s, input))
  {
  }

  lemma TimeInOthers(s: State)
    requires Places(s) && ConnectedOk(s) && TimeOk(s)
    ensures TimeOk(TimeoutMove(s))
    ensures TimeOk(StopMove(s))
  {
  }

  lemma TimeInside(s: State)
    requires Places(s) && ConnectedOk(s) && TimeOk(s) && s.lock.Held?
    ensures TimeOk(Inside(s))
  {
    if IsAdd(s.lock.at) {
      TimeInsideAdd(s);
    } else if IsRemove(s.lock.at) {
      TimeInsideRemove(s);
    } else {
      TimeInsideOther(s);
    }
  }

  lemma TimeInsideAdd(s: State)
    requires Places(s) && ConnectedOk(s) && TimeOk(s) && s.lock.Held? && IsAdd(s.lock.at)
    ensures TimeOk(Inside(s))
  {
  }

  lemma TimeInsideRemove(s: State)
    requires Places(s) && ConnectedOk(s) && TimeOk(s) && s.lock.Held? && IsRemove(s.lock.at)
    ensures TimeOk(Inside(s))
  {
  }

  lemma TimeInsideOther(s: State)
    requires Places(s) && ConnectedOk(s) && TimeOk(s) && s.lock.Held?
    requires !IsAdd(s.lock.at) && !IsRemove(s.lock.at)
    ensures TimeOk(Inside(s))
  {
    if s.lock.at.IdleCheck? {
      IdleBound(s.lock.at.seen, s.lastReal, s.timeoutMs);
    }
  }

  lemma SocketInTcp(s: State, input: Input, k: nat)
    requires Places(s) && ConnectedOk(s) && HandsOk(s) && SocketOk(s, k) && SocketOk(s, s.accepted + 1)
    ensures SocketOk(TcpMove(s, input), k)
  {
    if BeforeFrame(s.tcp) {
      SocketBeforeFrame(s, input, k);
    } else if AtFrame(s.tcp) {
      SocketAtFrame(s, input, k);
    } else {
      SocketAfterFrame(s, input, k);
    }
  }

  lemma SocketBeforeFrame(s: State, input: Input, k: nat)
    requires Places(s) && ConnectedOk(s) && HandsOk(s) && SocketOk(s, k)
    requires SocketOk(s, s.accepted + 1) && BeforeFrame(s.tcp)
    ensures SocketOk(TcpMove(s, input), k)
  {
  }

  lemma SocketAtFrame(s: State, input: Input, k: nat)
    requires Places(s) && ConnectedOk(s) && HandsOk(s) && SocketOk(s, k)
    requires SocketOk(s, s.accepted + 1) && AtFrame(s.tcp)
    ensures SocketOk(TcpMove(s, input), k)
  {
    if s.tcp.Reading? {
      SocketInReading(s, input, k);
    } else {
      SocketWithHeader(s, input, k);
    }
  }

  lemma SocketInReading(s: State, input: Input, k: nat)
    requires Places(s) && ConnectedOk(s) && HandsOk(s) && SocketOk(s, k)
    requires SocketOk(s, s.accepted + 1) && AtFrame(s.tcp)
    requires s.tcp.Reading?
    ensures SocketOk(TcpMove(s, input), k)
  {
  }

  lemma SocketWithHeader(s: State, input: Input, k: nat)
    requires Places(s) && ConnectedOk(s) && HandsOk(s) && SocketOk(s, k)
    requires SocketOk(s, s.accepted + 1) && AtFrame(s.tcp)
    requires !(s.tcp.Reading?)
    ensures SocketOk(TcpMove(s, input), k)
  {
  }

  lemma SocketAfterFrame(s: State, input: Input, k: nat)
    requires Places(s) && ConnectedOk(s) && HandsOk(s) && SocketOk(s, k) && SocketOk(s, s.accepted + 1)
    requires !BeforeFrame(s.tcp) && !AtFrame(s.tcp)
    ensures SocketOk(TcpMove(s, input), k)
  {
  }

  lemma SocketInOthers(s: State, k: nat)
    requires Places(s) && ConnectedOk(s) && HandsOk(s) && SocketOk(s, k)
    ensures SocketOk(TimeoutMove(s), k)
    ensures SocketOk(StopMove(s), k)
  {
  }

  lemma SocketInside(s: State, k: nat)
    requires Places(s) && ConnectedOk(s) && HandsOk(s) && SocketOk(s, k) && s.lock.Held?
    ensures SocketOk(Inside(s), k)
  {
    if IsAdd(s.lock.at) {
      SocketInsideAdd(s, k);
    } else if IsRemove(s.lock.at) {
      SocketInsideRemove(s, k);
    } else {
      SocketInsideOther(s, k);
    }
  }

  lemma SocketInsideAdd(s: State, k: nat)
    requires Places(s) && ConnectedOk(s) && HandsOk(s) && SocketOk(s, k) && s.lock.Held? && IsAdd(s.lock.at)
    ensures SocketOk(Inside(s), k)
  {
  }

  lemma SocketInsideRemove(s: State, k: nat)
    requires Places(s) && ConnectedOk(s) && HandsOk(s) && SocketOk(s, k) && s.lock.Held? && IsRemove(s.lock.at)
    ensures SocketOk(Inside(s), k)
  {
  }

  lemma SocketInsideOther(s: State, k: nat)
    requires Places(s) && ConnectedOk(s) && HandsOk(s) && SocketOk(s, k) && s.lock.Held?
    requires !IsAdd(s.lock.at) && !IsRemove(s.lock.at)
    ensures SocketOk(Inside(s), k)
  {
  }

  lemma GoodInTcp(s: State, input: Input)
    requires Good(s)
    ensures Good(TcpMove(s, input))
  {
    PlacesInTcp(s, input);
    CallbacksInTcp(s, input);
    HandsInTcp(s, input);
    forall k: nat ensures SocketOk(TcpMove(s, input), k) {
      SocketInTcp(s, input, k);
    }
    RegistrationInTcp(s, input);
    TimeInTcp(s, input);
    assert SocketOk(s, s.client.socket);
    RepliesInTcp(s, input);
  }

  lemma GoodInOthers(s: State)
    requires Good(s)
    ensures Good(TimeoutMove(s))
    ensures Good(StopMove(s))
  {
    PlacesInOthers(s);
    CallbacksInOthers(s);
    HandsInOthers(s);
    forall k: nat
      ensures SocketOk(TimeoutMove(s), k)
      ensures SocketOk(StopMove(s), k)
    {
      SocketInOthers(s, k);
    }
    RegistrationInTimeout(s);
    RegistrationInStop(s);
    TimeInOthers(s);
    RepliesInOthers(s);
  }

  lemma GoodInside(s: State)
    requires Good(s) && s.lock.Held?
    ensures Good(Inside(s))
  {
    PlacesInside(s);
    CallbacksInside(s);
    HandsInside(s);
    forall k: nat ensures SocketOk(Inside(s), k) {
      SocketInside(s, k);
    }
    RegistrationInside(s);
    TimeInside(s);
    RepliesInside(s);
  }

  lemma GoodPass(s: State, seconds: real)
    requires Good(s)
    ensures Good(Step(s, Pass(seconds)))
  {
    var s' := Step(s, Pass(seconds));
    PassKeepsPlaces(s, seconds);
    PassKeepsHands(s, seconds);
    PassKeepsTime(s, seconds);
    forall k: nat ensures SocketOk(s', k) {
      assert SocketOk(s, k);
    }
  }

  lemma PassKeepsPlaces(s: State, seconds: real)
    requires Places(s) && ConnectedOk(s) && CallbacksOk(s) && RepliesOk(s)
    ensures var s' := Step(s, Pass(seconds)); Places(s') && ConnectedOk(s') && CallbacksOk(s') && RepliesOk(s')
  {
  }

  lemma PassKeepsHands(s: State, seconds: real)
    requires HandsOk(s) && RegistrationOk(s)
    ensures HandsOk(Step(s, Pass(seconds))) && RegistrationOk(Step(s, Pass(seconds)))
  {
  }

  lemma PassKeepsTime(s: State, seconds: real)
    requires TimeOk(s)
    ensures TimeOk(Step(s, Pass(seconds)))
  {
  }

  lemma GoodStep(s: State, e: Event)
    requires Good(s)
    ensures Good(Step(s, e))
  {
    match e
    case TcpStep(input) =>
      if s.tcp.TcpInside? { GoodInside(s); } else { GoodInTcp(s, input); }
    case TimeoutStep =>
      if s.timeout.TimeoutInside? { GoodInside(s); } else { GoodInOthers(s); }
    case StopStep =>
      if s.stop.StopInside? { GoodInside(s); } else { GoodInOthers(s); }
    case Pass(seconds) => GoodPass(s, seconds);
  }
}
