/** What every schedule of the session protocol keeps, and where its unlocked gaps show. */
module SessionRuns {
  import opened Session

  lemma {:induction false} GoodRun(s: State, schedule: seq<Event>)
    requires Good(s)
    ensures Good(Run(s, schedule))
    decreases |schedule|
  {
    if schedule != [] {
      GoodStep(s, schedule[0]);
      GoodRun(Step(s, schedule[0]), schedule[1..]);
    }
  }

  lemma GoodFromInit(timeoutMs: nat, schedule: seq<Event>)
    ensures Good(Run(Init(timeoutMs), schedule))
  {
    GoodRun(Init(timeoutMs), schedule);
  }

  /**
    On every schedule no accepted socket is closed twice; it is still open exactly while the accepting thread
    carries it or the client record owns it; at most one of those given control is open; once stop has
    returned, every one has been closed once.
   */
  lemma SocketsClosedOnce(timeoutMs: nat, schedule: seq<Event>, k: nat)
    ensures var s := Run(Init(timeoutMs), schedule);
            && s.closed[k] <= 1
            && (s.closed[k] == 0 <==> k == 0 || k > s.accepted || Open(s, k))
            && (s.stop.Stopped? && 1 <= k <= s.accepted ==> s.closed[k] == 1)
            && (forall j :: j in s.admitted && k in s.admitted && s.closed[j] == s.closed[k] == 0 ==> j == k)
  {
    GoodFromInit(timeoutMs, schedule);
    var s := Run(Init(timeoutMs), schedule);
    assert SocketOk(s, k);
    forall j | j in s.admitted ensures SocketOk(s, j) {
    }
  }

  /**
    On every schedule, whenever the mutex is free: connection callbacks minus disconnection callbacks is one
    while a client is connected and zero otherwise, but for one more if stop closed a client.
   */
  lemma CallbacksBalance(timeoutMs: nat, schedule: seq<Event>)
    ensures var s := Run(Init(timeoutMs), schedule);
            && (s.lock.Free? ==> s.connects == s.disconnects + One(s.client.connected) + One(s.tornDown))
            && (s.tornDown ==> !s.running && !s.client.connected)
  {
    GoodFromInit(timeoutMs, schedule);
  }

  /**
    On every schedule: while a client is connected and flagged as registered, the port is positive and comes
    from a frame of that very session, exactly outside the two statements of add_client between setting
    `connected` and clearing `udp_port_registered`.
   */
  lemma RegisteredPortIsThisSessions(timeoutMs: nat, schedule: seq<Event>)
    ensures var s := Run(Init(timeoutMs), schedule);
            s.client.connected && s.client.udpRegistered ==>
              (s.client.udpPort > 0 && s.portSession == s.session <==> !LockAt(s, Unreset))
  {
    GoodFromInit(timeoutMs, schedule);
  }

  /**
    On every schedule the timeout check finds a client expired only after more than floor(timeout_ms / 1000)
    seconds without a command, and always once the check's clock reading is a second past that.
   */
  lemma TimeoutIsExact(timeoutMs: nat, schedule: seq<Event>)
    ensures var s := Run(Init(timeoutMs), schedule);
            s.lock.Held? && s.lock.at.IdleCheck? ==>
              var expired := Inside(s).lock.at.expired;
              && (expired ==> s.client.connected && LongSilence(s.lastReal, s.clock, s.timeoutMs))
              && (s.client.connected && s.lock.at.seen - s.lastReal >= (s.timeoutMs / 1000 + 1) as real ==> expired)
  {
    GoodFromInit(timeoutMs, schedule);
    var s := Run(Init(timeoutMs), schedule);
    if s.lock.Held? && s.lock.at.IdleCheck? {
      IdleBound(s.lock.at.seen, s.lastReal, s.timeoutMs);
    }
  }

  /** The timeout thread has found a client expired and has not yet removed anybody for it. */
  predicate Removing(s: State) {
    s.timeout.TimeoutRemoving? || TimeoutRemoves(s)
  }

  /**
    From the check to the last statement of the removal, on every schedule and in particular where
    `connected = false` is about to be executed: while no more than floor(timeout_ms / 1000) seconds have passed
    since the check read the clock, the client has been silent for longer than that if and only if nobody came
    and no command was handled since; and if so, it has been at any time.
   */
  lemma RemovalAfterSilence(timeoutMs: nat, schedule: seq<Event>)
    ensures var s := Run(Init(timeoutMs), schedule);
            Removing(s) ==>
              && (s.lastReal == s.checkLast ==> LongSilence(s.lastReal, s.clock, s.timeoutMs))
              && (s.clock - s.checkSeen <= (s.timeoutMs / 1000) as real ==>
                    (LongSilence(s.lastReal, s.clock, s.timeoutMs) <==> s.lastReal == s.checkLast))
  {
    GoodFromInit(timeoutMs, schedule);
  }

  /**
    On every schedule: every header was read from the socket that was polled, and every piece of a payload received
    from, and every response sent to, the socket of its header, unless a removal of the client was completed in
    between; then it was descriptor 0.
   */
  lemma TransfersStayHome(timeoutMs: nat, schedule: seq<Event>, t: Transfer)
    requires var s := Run(Init(timeoutMs), schedule); t in s.headers + s.received + s.sent
    ensures t.socket == (if t.removed then 0 else t.own)
    ensures t.own > 0 ==> (t.socket == t.own <==> !t.removed)
    ensures t in Run(Init(timeoutMs), schedule).headers ==> t.own > 0
  {
    GoodFromInit(timeoutMs, schedule);
    assert TransferOk(t);
  }

  // ---- Critical sections that run without interruption ----

  /** n steps of the thread inside the mutex, or fewer if it leaves. */
  function InsideN(s: State, n: nat): State
    decreases n
  {
    if n == 0 || s.lock.Free? then s else InsideN(Inside(s), n - 1)
  }

  lemma InsideOnce(s: State, t: State, n: nat)
    requires n >= 1 && s.lock.Held? && Inside(s) == t
    ensures InsideN(s, n) == InsideN(t, n - 1)
  {
  }

  lemma InsideThree(s: State, s1: State, s2: State, s3: State, n: nat)
    requires n >= 3 && s.lock.Held? && s1.lock.Held? && s2.lock.Held?
    requires Inside(s) == s1 && Inside(s1) == s2 && Inside(s2) == s3
    ensures InsideN(s, n) == InsideN(s3, n - 3)
  {
    InsideOnce(s, s1, n);
    InsideOnce(s1, s2, n - 1);
    InsideOnce(s2, s3, n - 2);
  }

  lemma AddBegins(s: State, socket: nat, n: nat)
    requires s.lock == Held(Tcp, AddCheck(socket)) && !s.client.connected && n >= 3
    ensures InsideN(s, n)
            == InsideN(s.(client := s.client.(socket := socket, lastCommand := s.clock.Floor, connected := true),
                          lastReal := s.clock, session := s.session + 1, admitted := s.admitted + {socket},
                          lock := Held(Tcp, AddPort)), n - 3)
  {
    var s1 := s.(lock := Held(Tcp, AddFields(socket)));
    var s2 := s.(client := s.client.(socket := socket, lastCommand := s.clock.Floor), lastReal := s.clock,
                 lock := Held(Tcp, AddConnect));
    InsideThree(s, s1, s2, Inside(s2), n);
  }

  lemma AddFinishes(s: State, n: nat)
    requires s.lock == Held(Tcp, AddPort) && n >= 4
    ensures InsideN(s, n)
            == s.(client := s.client.(udpPort := 0, udpRegistered := false), lock := Free, tcp := Polling,
                  connects := s.connects + 1)
  {
    var s1 := s.(client := s.client.(udpPort := 0), lock := Held(Tcp, AddFlag));
    var s2 := s.(client := s.client.(udpPort := 0, udpRegistered := false), lock := Held(Tcp, AddCallback));
    var s3 := Inside(s2);
    InsideThree(s, s1, s2, s3, n);
    InsideOnce(s3, Inside(s3), n - 3);
  }

  /** add_client, from its first test to its return. */
  lemma AddRuns(s: State, socket: nat, n: nat)
    requires s.lock == Held(Tcp, AddCheck(socket)) && n >= 7
    ensures InsideN(s, n)
            == if s.client.connected then s.(lock := Free, tcp := Rejected(socket))
               else s.(client := Admitted(socket, s.clock.Floor), lock := Free, tcp := Polling,
                       admitted := s.admitted + {socket}, connects := s.connects + 1,
                       session := s.session + 1, lastReal := s.clock)
  {
    if s.client.connected {
      InsideOnce(s, Inside(s), n);
      InsideOnce(Inside(s), Inside(Inside(s)), n - 1);
    } else {
      AddBegins(s, socket, n);
      AddFinishes(s.(client := s.client.(socket := socket, lastCommand := s.clock.Floor, connected := true),
                     lastReal := s.clock, session := s.session + 1, admitted := s.admitted + {socket},
                     lock := Held(Tcp, AddPort)), n - 3);
    }
  }

  lemma RemoveBegins(s: State, h: Thread, n: nat)
    requires s.lock == Held(h, RemoveCheck) && s.client.connected && n >= 3
    ensures InsideN(s, n)
            == InsideN(s.(closed := s.closed + multiset{s.client.socket}, disconnects := s.disconnects + 1,
                          lock := Held(h, RemoveDisconnect)), n - 3)
  {
    var s1 := s.(lock := Held(h, RemoveCallback));
    var s2 := s.(disconnects := s.disconnects + 1, lock := Held(h, RemoveClose));
    InsideThree(s, s1, s2, Inside(s2), n);
  }

  lemma RemoveClears(s: State, h: Thread, n: nat)
    requires s.lock == Held(h, RemoveDisconnect) && n >= 3
    ensures InsideN(s, n)
            == InsideN(s.(client := NOBODY, removals := s.removals + 1, lock := Held(h, RemoveLeave)), n - 3)
  {
    var s1 := s.(client := s.client.(connected := false), lock := Held(h, RemoveFlag));
    var s2 := s.(client := s.client.(connected := false, udpRegistered := false), lock := Held(h, RemoveZero));
    InsideThree(s, s1, s2, Inside(s2), n);
  }

  lemma RemoveFinishes(s: State, h: Thread, n: nat)
    requires s.lock == Held(h, RemoveDisconnect) && !h.Stopper? && n >= 4
    ensures InsideN(s, n)
            == if h.Tcp? then s.(client := NOBODY, removals := s.removals + 1, lock := Free, tcp := TcpTop)
               else s.(client := NOBODY, removals := s.removals + 1, lock := Free, timeout := TimeoutTop)
  {
    RemoveClears(s, h, n);
    var s3 := s.(client := NOBODY, removals := s.removals + 1, lock := Held(h, RemoveLeave));
    InsideOnce(s3, Inside(s3), n - 3);
  }

  /** remove_client, from its first test to its return. */
  lemma RemoveRuns(s: State, h: Thread, n: nat)
    requires s.lock == Held(h, RemoveCheck) && !h.Stopper? && n >= 7
    ensures var s' := if h.Tcp? then s.(lock := Free, tcp := TcpTop) else s.(lock := Free, timeout := TimeoutTop);
            InsideN(s, n)
            == if !s.client.connected then s'
               else s'.(client := NOBODY, closed := s.closed + multiset{s.client.socket},
                        disconnects := s.disconnects + 1, removals := s.removals + 1)
  {
    if !s.client.connected {
      InsideOnce(s, Inside(s), n);
      InsideOnce(Inside(s), Inside(Inside(s)), n - 1);
    } else {
      RemoveBegins(s, h, n);
      RemoveFinishes(s.(closed := s.closed + multiset{s.client.socket}, disconnects := s.disconnects + 1,
                        lock := Held(h, RemoveDisconnect)), h, n - 3);
    }
  }

  lemma StoreRuns(s: State, port: nat, session: nat, n: nat)
    requires s.lock == Held(Tcp, StorePort(port, session)) && n >= 3
    ensures InsideN(s, n)
            == s.(client := s.client.(udpPort := port, udpRegistered := true), portSession := session,
                  lock := Free, tcp := Replying(false))
  {
    InsideThree(s, Inside(s), Inside(Inside(s)), Inside(Inside(Inside(s))), n);
  }

  /** The timeout thread's check, which leaves the mutex before anybody is removed. */
  lemma IdleRuns(s: State, now: int, seen: real, n: nat)
    requires s.lock == Held(Timeout, IdleCheck(now, seen)) && n >= 2
    ensures var expired := s.client.connected && Expired(now, s.client.lastCommand, s.timeoutMs);
            InsideN(s, n)
            == if expired then s.(lock := Free, timeout := TimeoutRemoving(s.session, s.lastReal, seen),
                                  checkLast := s.lastReal, checkSeen := seen)
               else s.(lock := Free, timeout := TimeoutTop)
  {
    InsideOnce(s, Inside(s), n);
    InsideOnce(Inside(s), Inside(Inside(s)), n - 1);
  }

  lemma StopBegins(s: State, n: nat)
    requires s.lock == Held(Stopper, StopCheck) && s.client.connected && n >= 3
    ensures InsideN(s, n)
            == InsideN(s.(closed := s.closed + multiset{s.client.socket}, client := s.client.(connected := false),
                          tornDown := true, lock := Held(Stopper, StopZero)), n - 3)
  {
    var s1 := s.(lock := Held(Stopper, StopClose));
    var s2 := s.(closed := s.closed + multiset{s.client.socket}, lock := Held(Stopper, StopDisconnect));
    InsideThree(s, s1, s2, Inside(s2), n);
  }

  lemma StopFinishes(s: State, n: nat)
    requires s.lock == Held(Stopper, StopZero) && n >= 2
    ensures InsideN(s, n) == s.(client := NOBODY, lock := Free, stop := Stopped)
  {
    var s1 := s.(client := NOBODY, lock := Held(Stopper, StopLeave));
    InsideOnce(s, s1, n);
    InsideOnce(s1, Inside(s1), n - 1);
  }

  /** The end of robot_protocol_stop: the client is closed without its disconnection callback. */
  lemma StopRuns(s: State, n: nat)
    requires s.lock == Held(Stopper, StopCheck) && n >= 5
    ensures var s' := s.(lock := Free, stop := Stopped);
            InsideN(s, n)
            == if !s.client.connected then s'
               else s'.(client := NOBODY, closed := s.closed + multiset{s.client.socket}, tornDown := true)
  {
    if s.client.connected {
      StopBegins(s, n);
      StopFinishes(s.(closed := s.closed + multiset{s.client.socket}, client := s.client.(connected := false),
                      tornDown := true, lock := Held(Stopper, StopZero)), n - 3);
    } else {
      InsideOnce(s, Inside(s), n);
      InsideOnce(Inside(s), Inside(Inside(s)), n - 1);
    }
  }

  // ---- Reachable oddities ----

  ghost predicate Reaches(s: State, t: State) {
    exists schedule :: Run(s, schedule) == t
  }

  lemma GoodReached(s: State, t: State)
    requires Good(s) && Reaches(s, t)
    ensures Good(t)
  {
    var schedule :| Run(s, schedule) == t;
    GoodRun(s, schedule);
  }

  lemma {:induction false} RunAppend(s: State, a: seq<Event>, b: seq<Event>)
    ensures Run(s, a + b) == Run(Run(s, a), b)
    decreases |a|
  {
    if a == [] {
      assert a + b == b;
    } else {
      assert (a + b)[1..] == a[1..] + b;
      RunAppend(Step(s, a[0]), a[1..], b);
    }
  }

  lemma ReachesThen(s: State, t: State, u: State)
    requires Reaches(s, t) && Reaches(t, u)
    ensures Reaches(s, u)
  {
    var a :| Run(s, a) == t;
    var b :| Run(t, b) == u;
    RunAppend(s, a, b);
  }

  lemma ReachesStep(s: State, e: Event)
    ensures Reaches(s, Step(s, e))
  {
    assert [e][1..] == [];
    assert Run(s, [e]) == Run(Step(s, e), []);
  }

  /** No step of the schedule completes a frame. */
  predicate Frameless(schedule: seq<Event>) {
    forall e :: e in schedule && e.TcpStep? ==> !e.input.FrameRead?
  }

  /** Reached without a frame on the way. */
  ghost predicate Drifts(s: State, t: State) {
    exists schedule :: Frameless(schedule) && Run(s, schedule) == t
  }

  lemma DriftReaches(s: State, t: State)
    requires Drifts(s, t)
    ensures Reaches(s, t)
  {
    var schedule :| Frameless(schedule) && Run(s, schedule) == t;
  }

  lemma DriftsThen(s: State, t: State, u: State)
    requires Drifts(s, t) && Drifts(t, u)
    ensures Drifts(s, u)
  {
    var a :| Frameless(a) && Run(s, a) == t;
    var b :| Frameless(b) && Run(t, b) == u;
    RunAppend(s, a, b);
    assert Frameless(a + b);
  }

  lemma DriftsStep(s: State, e: Event)
    requires e.TcpStep? ==> !e.input.FrameRead?
    ensures Drifts(s, Step(s, e))
  {
    assert [e][1..] == [];
    assert Frameless([e]) && Run(s, [e]) == Run(Step(s, e), []);
  }

  /** Two steps, given the state between and the state after them. */
  lemma DriftsTwo(s: State, e: Event, t: State, f: Event, u: State)
    requires Step(s, e) == t && Step(t, f) == u
    requires !(e.TcpStep? && e.input.FrameRead?) && !(f.TcpStep? && f.input.FrameRead?)
    ensures Drifts(s, u)
  {
    DriftsStep(s, e);
    DriftsStep(t, f);
    DriftsThen(s, t, u);
  }

  /** Whoever is inside may take its n next steps before anyone else moves. */
  lemma {:induction false} DriftsInside(s: State, n: nat)
    requires Places(s) && ConnectedOk(s)
    ensures Drifts(s, InsideN(s, n))
    decreases n
  {
    if n == 0 || s.lock.Free? {
      assert Frameless([]) && Run(s, []) == s;
    } else {
      var e := match s.lock.holder case Tcp => TcpStep(Nothing) case Timeout => TimeoutStep case Stopper => StopStep;
      assert Step(s, e) == Inside(s);
      PlacesInside(s);
      DriftsStep(s, e);
      DriftsInside(Inside(s), n - 1);
      DriftsThen(s, Inside(s), InsideN(s, n));
    }
  }

  lemma ReachesInside(s: State, n: nat)
    requires Places(s) && ConnectedOk(s)
    ensures Reaches(s, InsideN(s, n))
  {
    DriftsInside(s, n);
    DriftReaches(s, InsideN(s, n));
  }

  /** A running server with nobody inside the mutex and the TCP thread at the top of its loop. */
  ghost predicate Quiet(s: State) {
    Places(s) && ConnectedOk(s) && s.running && s.lock.Free? && s.tcp.TcpTop?
  }

  /** A client comes and gets control. */
  lemma Connects(s: State) returns (t: State)
    requires Quiet(s) && !s.client.connected
    ensures Drifts(s, t) && Reaches(s, t) && Places(t) && ConnectedOk(t)
    ensures t == s.(accepted := s.accepted + 1, client := Admitted(s.accepted + 1, s.clock.Floor),
                    tcp := Polling, admitted := s.admitted + {s.accepted + 1}, connects := s.connects + 1,
                    session := s.session + 1, lastReal := s.clock)
  {
    var s1 := Step(s, TcpStep(Incoming));
    var s2 := Step(s1, TcpStep(Nothing));
    var n :| n >= 7;
    t := InsideN(s2, n);
    DriftsStep(s, TcpStep(Incoming));
    DriftsStep(s1, TcpStep(Nothing));
    DriftsThen(s, s1, s2);
    DriftsInside(s2, n);
    DriftsThen(s, s2, t);
    AddRuns(s2, s.accepted + 1, n);
    DriftReaches(s, t);
  }

  /** The timeout thread reads the clock, finds the client expired and is about to remove it. */
  lemma Expires(s: State) returns (t: State)
    requires Places(s) && ConnectedOk(s) && s.running && s.lock.Free? && s.timeout.TimeoutTop? && s.client.connected
    requires Expired(s.clock.Floor, s.client.lastCommand, s.timeoutMs)
    ensures Drifts(s, t) && Reaches(s, t) && Places(t) && ConnectedOk(t)
    ensures t == s.(timeout := TimeoutRemoving(s.session, s.lastReal, s.clock),
                    checkLast := s.lastReal, checkSeen := s.clock)
  {
    var s1 := Step(s, TimeoutStep);
    var s2 := Step(s1, TimeoutStep);
    DriftsStep(s, TimeoutStep);
    DriftsStep(s1, TimeoutStep);
    DriftsThen(s, s1, s2);
    var n: nat :| n >= 2;
    t := InsideN(s2, n);
    IdleRuns(s2, s.clock.Floor, s.clock, n);
    DriftsInside(s2, n);
    DriftsThen(s, s2, t);
    DriftReaches(s, t);
  }

  /** The timeout thread removes whoever is connected. */
  lemma TimesOut(s: State) returns (t: State)
    requires Places(s) && ConnectedOk(s) && s.lock.Free? && s.timeout.TimeoutRemoving? && s.client.connected
    ensures Reaches(s, t) && Places(t) && ConnectedOk(t)
    ensures t == s.(timeout := TimeoutTop, client := NOBODY, closed := s.closed + multiset{s.client.socket},
                    disconnects := s.disconnects + 1, removals := s.removals + 1)
  {
    var s1 := Step(s, TimeoutStep);
    var n :| n >= 7;
    t := InsideN(s1, n);
    ReachesStep(s, TimeoutStep);
    ReachesInside(s1, n);
    ReachesThen(s, s1, t);
    RemoveRuns(s1, Timeout, n);
  }

  /** The connected client's next frame has been read. */
  lemma FrameComes(s: State, frame: Frame) returns (t: State)
    requires Places(s) && ConnectedOk(s) && s.tcp.Polling? && s.client.connected
    ensures Reaches(s, t) && Places(t) && ConnectedOk(t)
    ensures t == WithFrame(Polled(s)).(tcp := GotFrame(frame, s.session))
  {
    var s1 := HeaderComes(s);
    t := Step(s1, TcpStep(FrameRead(frame)));
    ReachesStep(s1, TcpStep(FrameRead(frame)));
    ReachesThen(s, s1, t);
  }

  /** The connected client's next header has been read. */
  lemma HeaderComes(s: State) returns (t: State)
    requires Places(s) && ConnectedOk(s) && s.tcp.Polling? && s.client.connected
    ensures Reaches(s, t) && Places(t) && ConnectedOk(t)
    ensures t == WithFrame(Polled(s)).(tcp := ReadingPayload)
  {
    var s1 := Step(s, TcpStep(Readable));
    t := Step(s1, TcpStep(HeaderRead));
    ReachesStep(s, TcpStep(Readable));
    ReachesStep(s1, TcpStep(HeaderRead));
    ReachesThen(s, s1, t);
  }

  /** A registration whose port is stored and confirmed, whoever is connected by then. */
  lemma PortStored(s: State) returns (t: State)
    requires Places(s) && ConnectedOk(s) && s.lock.Free? && s.tcp.Storing?
    ensures Reaches(s, t) && Places(t) && ConnectedOk(t)
    ensures t == s.(tcp := TcpTop, portSession := s.tcp.session, sent := t.sent,
                    client := s.client.(udpPort := s.tcp.port, udpRegistered := true))
  {
    var s1 := Step(s, TcpStep(Nothing));
    var n :| n >= 3;
    var s2 := InsideN(s1, n);
    ReachesStep(s, TcpStep(Nothing));
    ReachesInside(s1, n);
    ReachesThen(s, s1, s2);
    StoreRuns(s1, s.tcp.port, s.tcp.session, n);
    t := Replies(s2);
    ReachesThen(s, s2, t);
  }

  /** The response is sent, to whatever socket the record shows. */
  lemma Replies(s: State) returns (t: State)
    requires Places(s) && ConnectedOk(s) && s.tcp == Replying(false)
    ensures Reaches(s, t) && Places(t) && ConnectedOk(t)
    ensures t == s.(tcp := TcpTop,
                    sent := s.sent + [Now(s)])
  {
    t := Step(s, TcpStep(Nothing));
    ReachesStep(s, TcpStep(Nothing));
    PlacesInTcp(s, Nothing);
  }

  /** The command that was read is handled. */
  lemma CommandHandled(s: State) returns (t: State)
    requires Places(s) && ConnectedOk(s) && s.tcp.GotFrame? && s.tcp.frame.Other?
    ensures Reaches(s, t) && Places(t) && ConnectedOk(t)
    ensures t == s.(tcp := Replying(false), lastReal := s.clock,
                    client := s.client.(lastCommand := s.clock.Floor))
  {
    t := Step(s, TcpStep(Nothing));
    ReachesStep(s, TcpStep(Nothing));
    PlacesInTcp(s, Nothing);
  }

  /** A newcomer is half added: connected, its registration not yet cleared. */
  lemma HalfAdded(s: State) returns (t: State)
    requires Quiet(s) && !s.client.connected
    ensures Reaches(s, t)
    ensures t.client == s.client.(socket := s.accepted + 1, lastCommand := s.clock.Floor, connected := true)
    ensures t.session == s.session + 1 && t.portSession == s.portSession
  {
    var s1 := Step(s, TcpStep(Incoming));
    var s2 := Step(s1, TcpStep(Nothing));
    var n: nat :| n == 3;
    t := InsideN(s2, n);
    ReachesStep(s, TcpStep(Incoming));
    ReachesStep(s1, TcpStep(Nothing));
    ReachesThen(s, s1, s2);
    ReachesInside(s2, n);
    ReachesThen(s, s2, t);
    AddBegins(s2, s.accepted + 1, n);
  }

  /** A client has connected and been silent for longer than the timeout. */
  lemma SilentClient(timeoutMs: nat) returns (t: State)
    ensures Reaches(Init(timeoutMs), t) && Places(t) && ConnectedOk(t)
    ensures t.running && t.lock.Free? && t.tcp.Polling? && t.timeout.TimeoutTop? && t.client.connected
    ensures t.session == 1 && t.timeoutMs == timeoutMs && t.client.socket == 1
    ensures Expired(t.clock.Floor, t.client.lastCommand, timeoutMs) && t.lastReal < t.clock
  {
    var t1 := Connects(Init(timeoutMs));
    var wait := (timeoutMs / 1000 + 1) as real;
    t := Step(t1, Pass(wait));
    ReachesStep(t1, Pass(wait));
    ReachesThen(Init(timeoutMs), t1, t);
    IdleBound(wait, 0.0, timeoutMs);
  }

  /**
    The gap between the timeout thread's check and its removal: a client that connected in between is removed,
    at the very moment it connected, for another one's silence.
   */
  lemma NewcomerTimedOut(timeoutMs: nat) returns (t: State, u: State)
    ensures Reaches(Init(timeoutMs), t) && Reaches(t, u)
    ensures t.client.connected && t.lastReal == t.clock && t.session == 2
    ensures t.timeout.TimeoutRemoving? && t.timeout.session == 1
    ensures u.clock == t.clock && !u.client.connected && u.closed[t.client.socket] == t.closed[t.client.socket] + 1
  {
    var t1 := SilentClient(timeoutMs);
    var t2 := Expires(t1);
    ReachesThen(Init(timeoutMs), t1, t2);
    var t3 := LeavesByItself(t2);
    ReachesThen(Init(timeoutMs), t2, t3);
    t := Connects(t3);
    ReachesThen(Init(timeoutMs), t3, t);
    u := TimesOut(t);
  }

  /** The TCP thread removes the client it polls, say because it hung up. */
  lemma LeavesByItself(s: State) returns (t: State)
    requires Places(s) && ConnectedOk(s) && s.lock.Free? && s.tcp.Polling? && s.client.connected
    ensures Reaches(s, t) && Places(t) && ConnectedOk(t)
    ensures t == WithFrame(Polled(s)).(tcp := TcpTop, client := NOBODY,
                                       closed := s.closed + multiset{s.client.socket},
                                       disconnects := s.disconnects + 1, removals := s.removals + 1)
  {
    var s1 := Step(s, TcpStep(Readable));
    var s2 := Step(s1, TcpStep(NoFrame));
    var s3 := Step(s2, TcpStep(Nothing));
    var n :| n >= 7;
    t := InsideN(s3, n);
    ReachesStep(s, TcpStep(Readable));
    ReachesStep(s1, TcpStep(NoFrame));
    ReachesStep(s2, TcpStep(Nothing));
    ReachesThen(s, s1, s2);
    ReachesThen(s, s2, s3);
    ReachesInside(s3, n);
    ReachesThen(s, s3, t);
    RemoveRuns(s3, Tcp, n);
  }

  /**
    The window of add_client is real: a frame of session 1 is stored after session 1 was timed out, and the
    next client is for a moment connected, flagged as registered and given session 1's port.
   */
  lemma StalePortInTheWindow(timeoutMs: nat, port: nat) returns (t: State)
    requires port > 0
    ensures Reaches(Init(timeoutMs), t)
    ensures t.client.connected && t.client.udpRegistered && t.client.udpPort == port
    ensures t.session == 2 && t.portSession == 1
  {
    var t1 := SilentClient(timeoutMs);
    var t2 := Expires(t1);
    ReachesThen(Init(timeoutMs), t1, t2);
    var t3 := FrameComes(t2, Registration(port));
    ReachesThen(Init(timeoutMs), t2, t3);
    var t4 := TimesOut(t3);
    ReachesThen(Init(timeoutMs), t3, t4);
    var t5 := Step(t4, TcpStep(Nothing));
    ReachesStep(t4, TcpStep(Nothing));
    ReachesThen(Init(timeoutMs), t4, t5);
    var t6 := PortStored(t5);
    ReachesThen(Init(timeoutMs), t5, t6);
    t := HalfAdded(t6);
    ReachesThen(Init(timeoutMs), t6, t);
  }

  /**
    The same gap for the client itself: a command of its own is handled after the check, and it is removed all
    the same, at the very moment it was heard.
   */
  lemma HeardYetTimedOut(timeoutMs: nat) returns (t: State, u: State)
    ensures Reaches(Init(timeoutMs), t) && Reaches(t, u)
    ensures t.client.connected && t.session == 1 && t.timeout.TimeoutRemoving? && t.timeout.session == 1
    ensures t.lastReal == t.clock && t.client.lastCommand == t.clock.Floor
    ensures u.clock == t.clock && !u.client.connected && u.closed[t.client.socket] == t.closed[t.client.socket] + 1
    ensures u.tcp == Replying(false) && u.frameSocket == 1 && u.removals != u.frameRemovals && u.client.socket == 0
    ensures Places(u) && ConnectedOk(u)
  {
    var t1 := SilentClient(timeoutMs);
    var t2 := Expires(t1);
    ReachesThen(Init(timeoutMs), t1, t2);
    var t3 := FrameComes(t2, Other);
    ReachesThen(Init(timeoutMs), t2, t3);
    t := CommandHandled(t3);
    ReachesThen(Init(timeoutMs), t3, t);
    u := TimesOut(t);
  }

  /** The timeout thread makes the disconnection callback. */
  lemma RemovalBegins(s: State) returns (t: State)
    requires s.timeout.TimeoutRemoving? && s.lock.Free? && s.client.connected
    ensures Drifts(s, t)
    ensures t == s.(timeout := TimeoutInside, lock := Held(Timeout, RemoveClose), disconnects := s.disconnects + 1)
  {
    var s1 := s.(timeout := TimeoutInside, lock := Held(Timeout, RemoveCheck));
    var s2 := s1.(lock := Held(Timeout, RemoveCallback));
    t := s2.(lock := Held(Timeout, RemoveClose), disconnects := s.disconnects + 1);
    DriftsTwo(s, TimeoutStep, s1, TimeoutStep, s2);
    DriftsStep(s2, TimeoutStep);
    DriftsThen(s, s2, t);
  }

  /** And closes the socket. */
  lemma RemovalCloses(s: State) returns (t: State)
    requires s.timeout.TimeoutRemoving? && s.lock.Free? && s.client.connected
    ensures Reaches(s, t)
    ensures t == s.(timeout := TimeoutInside, lock := Held(Timeout, RemoveDisconnect),
                    disconnects := s.disconnects + 1, closed := s.closed + multiset{s.client.socket})
  {
    var s1 := RemovalBegins(s);
    t := Step(s1, TimeoutStep);
    DriftsStep(s1, TimeoutStep);
    DriftsThen(s, s1, t);
    DriftReaches(s, t);
  }

  /**
    The same inside remove_client, where the write of last_command is not locked out: the client has been silent
    until after the timeout thread took the mutex (t), a command of its own is handled just before the removal's
    `connected = false` (u), and that removes it all the same (v), at the very moment it was heard.
   */
  lemma HeardInsideRemoval(timeoutMs: nat) returns (t: State, u: State, v: State)
    ensures Reaches(Init(timeoutMs), t) && Reaches(t, u) && v == Step(u, TimeoutStep)
    ensures t.timeout.TimeoutRemoving? && t.lastReal == t.checkLast
    ensures u.lock == Held(Timeout, RemoveDisconnect) && u.client.connected && u.session == t.session == 1
    ensures u.clock == t.clock && u.lastReal == u.clock && u.lastReal != u.checkLast
    ensures !v.client.connected && v.clock == u.clock
  {
    var t1 := SilentClient(timeoutMs);
    var t2 := Expires(t1);
    ReachesThen(Init(timeoutMs), t1, t2);
    t := FrameComes(t2, Other);
    ReachesThen(Init(timeoutMs), t2, t);
    var t3 := RemovalCloses(t);
    u := Step(t3, TcpStep(Nothing));
    ReachesStep(t3, TcpStep(Nothing));
    ReachesThen(t, t3, u);
    v := Step(u, TimeoutStep);
  }

  /** A client timed out between the poll of its socket and the read: the header is read from descriptor 0. */
  lemma HeaderComesAstray(timeoutMs: nat) returns (t: State)
    ensures Reaches(Init(timeoutMs), t) && t.tcp.ReadingPayload?
    ensures t.headers != [] && t.headers[|t.headers| - 1] == Transfer(0, 1, true)
  {
    var t1 := SilentClient(timeoutMs);
    var t2 := Expires(t1);
    ReachesThen(Init(timeoutMs), t1, t2);
    var t3 := Step(t2, TcpStep(Readable));
    ReachesStep(t2, TcpStep(Readable));
    ReachesThen(Init(timeoutMs), t2, t3);
    PlacesInTcp(t2, Readable);
    var t4 := TimesOut(t3);
    ReachesThen(Init(timeoutMs), t3, t4);
    t := Step(t4, TcpStep(HeaderRead));
    ReachesStep(t4, TcpStep(HeaderRead));
    ReachesThen(Init(timeoutMs), t4, t);
  }

  /** A client timed out while its command is handled is answered on descriptor 0. */
  lemma ReplyGoesAstray(timeoutMs: nat) returns (t: State)
    ensures Reaches(Init(timeoutMs), t)
    ensures t.sent != [] && t.sent[|t.sent| - 1] == Transfer(0, 1, true)
  {
    var t0, t1 := HeardYetTimedOut(timeoutMs);
    ReachesThen(Init(timeoutMs), t0, t1);
    t := Replies(t1);
    ReachesThen(Init(timeoutMs), t1, t);
  }

  /** A client timed out while its frame arrives: the rest of the payload is read from descriptor 0. */
  lemma PayloadComesAstray(timeoutMs: nat) returns (t: State)
    ensures Reaches(Init(timeoutMs), t)
    ensures t.received != [] && t.received[|t.received| - 1] == Transfer(0, 1, true)
  {
    var t1 := SilentClient(timeoutMs);
    var t2 := Expires(t1);
    ReachesThen(Init(timeoutMs), t1, t2);
    var t3 := HeaderComes(t2);
    ReachesThen(Init(timeoutMs), t2, t3);
    var t4 := TimesOut(t3);
    ReachesThen(Init(timeoutMs), t3, t4);
    t := Step(t4, TcpStep(Piece));
    ReachesStep(t4, TcpStep(Piece));
    ReachesThen(Init(timeoutMs), t4, t);
  }
}
