/**
  What each thread's turn does to the client when nobody comes in between, stated by its effect, and what a
  handled frame means for the idle clock whoever comes in between.
 */
module SessionTurns {
  import opened Session
  import opened SessionRuns
  import D = Dispatch
  import Framing

  // ---- The idle clock ----

  /** Every frame that is handled restarts the idle clock, whatever it asks for. */
  lemma HandledRestartsClock(s: State, input: Input)
    requires s.tcp.GotFrame?
    ensures var t := Step(s, TcpStep(input));
            t.client.lastCommand == s.clock.Floor && t.lastReal == s.clock && !t.tcp.GotFrame?
  {
  }

  /** And nothing else does, but for getting control; the zeroed record's value means nothing. */
  lemma OnlyHeardRestartsClock(s: State, e: Event)
    requires Step(s, e).lastReal != s.lastReal
             || (Step(s, e).client.connected && Step(s, e).client.lastCommand != s.client.lastCommand)
    ensures (e.TcpStep? && s.tcp.GotFrame?) || (s.lock.Held? && s.lock.at.AddFields?)
            || s.client.connected != Step(s, e).client.connected
  {
    if e.TcpStep? && !s.tcp.TcpInside? && !s.tcp.GotFrame? {
      MovesKeepClock(s, e.input);
    }
    if s.lock.Held? && !s.lock.at.AddFields? {
      SectionsKeepClock(s);
    }
  }

  lemma MovesKeepClock(s: State, input: Input)
    requires !s.tcp.GotFrame?
    ensures var t := TcpMove(s, input); t.clock == s.clock && t.lastReal == s.lastReal && t.client == s.client
  {
    if !BeforeFrame(s.tcp) {
      LaterMovesKeepClock(s, input);
    }
  }

  lemma LaterMovesKeepClock(s: State, input: Input)
    requires !s.tcp.GotFrame? && !BeforeFrame(s.tcp)
    ensures var t := TcpMove(s, input); t.clock == s.clock && t.lastReal == s.lastReal && t.client == s.client
  {
  }

  lemma SectionsKeepClock(s: State)
    requires s.lock.Held? && !s.lock.at.AddFields?
    ensures Inside(s).lastReal == s.lastReal
    ensures Inside(s).client.connected ==> Inside(s).client.lastCommand == s.client.lastCommand
  {
    if IsAdd(s.lock.at) {
      AddKeepsClock(s);
    }
  }

  lemma AddKeepsClock(s: State)
    requires s.lock.Held? && IsAdd(s.lock.at) && !s.lock.at.AddFields?
    ensures Inside(s).lastReal == s.lastReal && Inside(s).client.lastCommand == s.client.lastCommand
  {
  }

  lemma ClockStays(s: State, e: Event)
    requires !e.Pass?
    ensures Step(s, e).clock == s.clock
  {
    if e.TcpStep? && !s.tcp.TcpInside? && !s.tcp.GotFrame? {
      MovesKeepClock(s, e.input);
    }
    if s.lock.Held? {
      SectionsStay(s);
    }
  }

  lemma SectionsStay(s: State)
    requires s.lock.Held?
    ensures Inside(s).clock == s.clock
  {
  }

  /** Nothing but the passing of time moves the clock, and it can be any later time. */
  lemma ClockMovesOn(s: State, e: Event, later: real)
    requires later >= s.clock
    ensures Step(s, Pass(later - s.clock)) == s.(clock := later)
    ensures if e.Pass? then Step(s, e).clock >= s.clock else Step(s, e).clock == s.clock
  {
    if !e.Pass? {
      ClockStays(s, e);
    }
  }

  lemma LastHeardGrows(s: State, e: Event)
    requires Good(s)
    ensures Step(s, e).lastReal >= s.lastReal
  {
    if e.TcpStep? && !s.tcp.TcpInside? && !s.tcp.GotFrame? {
      MovesKeepClock(s, e.input);
    }
    if s.lock.Held? && !s.lock.at.AddFields? {
      SectionsKeepClock(s);
    }
  }

  lemma {:induction false} LastHeardGrowsInRun(s: State, schedule: seq<Event>)
    requires Good(s)
    ensures Run(s, schedule).lastReal >= s.lastReal
    decreases |schedule|
  {
    if schedule != [] {
      GoodStep(s, schedule[0]);
      LastHeardGrows(s, schedule[0]);
      LastHeardGrowsInRun(Step(s, schedule[0]), schedule[1..]);
    }
  }

  /**
    On every schedule, whatever frame is handled in it and whatever follows: no check finds the client expired whose
    clock reading is at most floor(timeout_ms / 1000) seconds after the frame was handled.
   */
  lemma HeardIsNotExpired(timeoutMs: nat, before: seq<Event>, input: Input, after: seq<Event>)
    requires Run(Init(timeoutMs), before).tcp.GotFrame?
    ensures var s := Run(Init(timeoutMs), before);
            var t := Run(Step(s, TcpStep(input)), after);
            && t == Run(Init(timeoutMs), before + [TcpStep(input)] + after)
            && (t.lock.Held? && t.lock.at.IdleCheck? && t.lock.at.seen - s.clock <= (t.timeoutMs / 1000) as real ==>
                  !Inside(t).lock.at.expired)
  {
    var s := Run(Init(timeoutMs), before);
    var s' := Step(s, TcpStep(input));
    var t := Run(s', after);
    GoodFromInit(timeoutMs, before);
    GoodStep(s, TcpStep(input));
    HandledRestartsClock(s, input);
    LastHeardGrowsInRun(s', after);
    GoodRun(s', after);
    if t.lock.Held? && t.lock.at.IdleCheck? {
      IdleBound(t.lock.at.seen, t.lastReal, t.timeoutMs);
    }
    RunAppend(Init(timeoutMs), before, [TcpStep(input)]);
    RunAppend(Init(timeoutMs), before + [TcpStep(input)], after);
    assert [TcpStep(input)][1..] == [];
    assert Run(s, [TcpStep(input)]) == Run(s', []);
  }

  // ---- The TCP thread's turns ----

  function Next(s: State): State {
    Step(s, TcpStep(Nothing))
  }

  /** The client, if there is one, has been removed: one callback, one close, an empty record. */
  function Gone(s: State): State {
    if s.client.connected
    then s.(client := NOBODY, closed := s.closed + multiset{s.client.socket}, disconnects := s.disconnects + 1,
            removals := s.removals + 1)
    else s
  }

  /** The record after a frame: heard now. */
  function Heard(s: State): Client {
    s.client.(lastCommand := s.clock.Floor)
  }

  lemma RemovalTurn(s: State, n: nat)
    requires s.tcp.TcpRemoving? && s.lock.Free? && n >= 7
    ensures InsideN(Next(s), n) == Gone(s).(tcp := TcpTop)
  {
    RemoveRuns(Next(s), Tcp, n);
  }

  /** Someone connects: control if there is nobody, else the new socket is closed and nothing else changes. */
  lemma AcceptTurn(s: State, n: nat)
    requires s.running && s.tcp.TcpTop? && s.lock.Free? && n >= 7
    ensures var socket := s.accepted + 1;
            var t := InsideN(Next(Step(s, TcpStep(Incoming))), n);
            if s.client.connected
            then Next(t) == s.(accepted := socket, closed := s.closed + multiset{socket}, tcp := Polling)
            else t == s.(accepted := socket, client := Client(socket, true, s.clock.Floor, 0, false), tcp := Polling,
                         admitted := s.admitted + {socket}, connects := s.connects + 1, session := s.session + 1,
                         lastReal := s.clock)
  {
    AddRuns(Next(Step(s, TcpStep(Incoming))), s.accepted + 1, n);
  }

  /** A select that fails on a bad descriptor removes the client; one that fails otherwise, or stop, ends the thread. */
  lemma FailedSelectTurn(s: State, n: nat)
    requires s.tcp.TcpTop? && s.lock.Free? && n >= 7
    ensures s.running && s.client.connected ==>
              InsideN(Next(Step(s, TcpStep(BadDescriptor))), n) == Gone(s).(tcp := TcpTop)
    ensures s.running && !s.client.connected ==> Step(s, TcpStep(BadDescriptor)) == s
    ensures Step(s, TcpStep(ServerError)) == s.(tcp := TcpDone)
    ensures !s.running ==> forall input :: Step(s, TcpStep(input)) == s.(tcp := TcpDone)
  {
    if s.running && s.client.connected {
      RemovalTurn(Step(s, TcpStep(BadDescriptor)), n);
    }
  }

  /** With something to read but no client there is nothing to read from. */
  lemma PollTurn(s: State, input: Input)
    requires s.tcp.Polling?
    ensures s.client.connected && input.Readable? ==>
              Step(s, TcpStep(input)) == s.(tcp := Reading, pollSocket := s.client.socket, pollRemovals := s.removals)
    ensures !s.client.connected || !input.Readable? ==> Step(s, TcpStep(input)) == s.(tcp := TcpTop)
  {
  }

  /** What the sequential thread's verdict on a frame is to the interleaved one. */
  function FrameOf(policy: D.Policy, s: Framing.Served): Frame
    requires s.Message?
  {
    if !D.IsRegistration(s) then Other
    else if D.Closes(policy, s) then BadVersion
    else Registration(if D.Registers(policy, s) then D.UdpPort(s.payload) else 0)
  }

  /** The thread from the read of the header to the top of its loop, alone. */
  function TakeTurn(policy: D.Policy, s: State, served: Framing.Served, n: nat): State {
    match served
    case NoHeader => InsideN(Next(Step(s, TcpStep(NoFrame))), n)
    case Ignored => Step(s, TcpStep(PartialHeader))
    case TooLarge(_) => Next(Step(s, TcpStep(Oversized)))
    case PayloadFailed(_) => InsideN(Next(Step(Step(s, TcpStep(HeaderRead)), TcpStep(NoFrame))), n)
    case Message(_, _) =>
      var frame := FrameOf(policy, served);
      var t := Next(Step(Step(s, TcpStep(HeaderRead)), TcpStep(FrameRead(frame))));
      if frame.Registration? && frame.port > 0 then Next(InsideN(Next(t), n))
      else if frame.BadVersion? then InsideN(Next(Next(t)), n)
      else Next(t)
  }

  /** One more response, on the socket that the record shows. */
  function Answered(s: State): State {
    s.(sent := s.sent + [Transfer(s.client.socket, s.client.socket, false)])
  }

  lemma NoHeaderTurn(s: State, n: nat)
    requires s.tcp.Reading? && s.lock.Free? && n >= 7
    ensures InsideN(Next(Step(s, TcpStep(NoFrame))), n) == Gone(WithFrame(s)).(tcp := TcpTop)
  {
    RemovalTurn(Step(s, TcpStep(NoFrame)), n);
  }

  lemma NoPayloadTurn(s: State, n: nat)
    requires s.tcp.Reading? && s.lock.Free? && n >= 7
    ensures InsideN(Next(Step(Step(s, TcpStep(HeaderRead)), TcpStep(NoFrame))), n)
            == Gone(WithFrame(s)).(tcp := TcpTop)
  {
    var t := WithFrame(s).(tcp := ReadingPayload);
    assert Step(s, TcpStep(HeaderRead)) == t;
    RemovalTurn(Step(t, TcpStep(NoFrame)), n);
  }

  lemma FailedTurns(policy: D.Policy, s: State, served: Framing.Served, n: nat)
    requires s.tcp.Reading? && s.lock.Free? && n >= 7
    requires served.NoHeader? || served.PayloadFailed?
    ensures TakeTurn(policy, s, served, n) == Gone(WithFrame(s)).(tcp := TcpTop)
  {
    if served.NoHeader? {
      NoHeaderTurn(s, n);
    } else {
      NoPayloadTurn(s, n);
    }
  }

  lemma UnhandledTurns(policy: D.Policy, s: State, served: Framing.Served, n: nat)
    requires s.tcp.Reading? && (served.Ignored? || served.TooLarge?)
    ensures TakeTurn(policy, s, served, n)
            == (if served.TooLarge? then Answered(WithFrame(s)) else WithFrame(s)).(tcp := TcpTop)
  {
  }

  lemma HandledTurn(s: State, frame: Frame)
    requires s.tcp.Reading?
    ensures Next(Step(Step(s, TcpStep(HeaderRead)), TcpStep(FrameRead(frame))))
            == WithFrame(s).(client := Heard(s), lastReal := s.clock,
                             tcp := match frame
                                    case Registration(port) =>
                                      if port > 0 then Storing(port, if s.client.connected then s.session else 0)
                                      else Replying(false)
                                    case BadVersion => Replying(true)
                                    case Other => Replying(false))
  {
  }

  lemma PlainTurn(s: State, frame: Frame)
    requires s.tcp.Reading? && (frame.Other? || frame == Registration(0))
    ensures Next(Next(Step(Step(s, TcpStep(HeaderRead)), TcpStep(FrameRead(frame)))))
            == Answered(WithFrame(s)).(client := Heard(s), lastReal := s.clock, tcp := TcpTop)
  {
    HandledTurn(s, frame);
  }

  lemma RegistrationTurn(s: State, port: nat, n: nat)
    requires s.tcp.Reading? && s.lock.Free? && s.client.connected && port > 0 && n >= 3
    ensures var t := Next(Step(Step(s, TcpStep(HeaderRead)), TcpStep(FrameRead(Registration(port)))));
            Next(InsideN(Next(t), n))
            == Answered(WithFrame(s)).(client := Heard(s).(udpPort := port, udpRegistered := true), lastReal := s.clock,
                                       portSession := s.session, tcp := TcpTop)
  {
    HandledTurn(s, Registration(port));
    var t := Next(Step(Step(s, TcpStep(HeaderRead)), TcpStep(FrameRead(Registration(port)))));
    StoreRuns(Next(t), port, s.session, n);
  }

  lemma BadVersionTurn(s: State, n: nat)
    requires s.tcp.Reading? && s.lock.Free? && s.client.connected && n >= 7
    ensures var t := Next(Step(Step(s, TcpStep(HeaderRead)), TcpStep(FrameRead(BadVersion))));
            InsideN(Next(Next(t)), n)
            == Gone(Answered(WithFrame(s))).(lastReal := s.clock, tcp := TcpTop)
  {
    HandledTurn(s, BadVersion);
    var t := Next(Step(Step(s, TcpStep(HeaderRead)), TcpStep(FrameRead(BadVersion))));
    RemovalTurn(Next(t), n);
  }

  /** The client's record after a frame: gone, registered, heard, or as it was. */
  function RecordAfter(policy: D.Policy, s: State, served: Framing.Served): Client {
    if D.Closes(policy, served) then NOBODY
    else if D.Registers(policy, served)
    then Client(s.client.socket, true, s.clock.Floor, D.UdpPort(served.payload), true)
    else if served.Message? then Heard(s)
    else s.client
  }

  ghost predicate Agrees(policy: D.Policy, s: State, served: Framing.Served, t: State) {
    && t.tcp.TcpTop? && t.lock.Free?
    && |t.sent| == |s.sent| + (if D.Accepted(served) then 1 else 0)
    && t.client == RecordAfter(policy, s, served)
    && t.closed == s.closed + (if D.Closes(policy, served) then multiset{s.client.socket} else multiset{})
    && t.disconnects == s.disconnects + (if D.Closes(policy, served) then 1 else 0)
  }

  lemma MessageAgrees(policy: D.Policy, s: State, served: Framing.Served, n: nat)
    requires s.tcp.Reading? && s.lock.Free? && s.client.connected && n >= 7 && served.Message?
    ensures Agrees(policy, s, served, TakeTurn(policy, s, served, n))
  {
    var frame := FrameOf(policy, served);
    if frame.Registration? && frame.port > 0 {
      RegistrationTurn(s, frame.port, n);
    } else if frame.BadVersion? {
      BadVersionTurn(s, n);
    } else {
      PlainAgrees(policy, s, served, n);
    }
  }

  lemma PlainAgrees(policy: D.Policy, s: State, served: Framing.Served, n: nat)
    requires s.tcp.Reading? && s.lock.Free? && s.client.connected && n >= 7 && served.Message?
    requires var frame := FrameOf(policy, served); frame.Other? || frame == Registration(0)
    ensures Agrees(policy, s, served, TakeTurn(policy, s, served, n))
  {
    PlainTurn(s, FrameOf(policy, served));
  }

  /**
    The interleaved thread, left alone, does what the sequential one does with each frame, under every policy: it
    removes the client, registers its port, restarts its clock and sends its response in the same cases.
   */
  lemma TurnAgrees(policy: D.Policy, s: State, served: Framing.Served, n: nat)
    requires s.tcp.Reading? && s.lock.Free? && s.client.connected && n >= 7
    ensures Agrees(policy, s, served, TakeTurn(policy, s, served, n))
  {
    if served.Message? {
      MessageAgrees(policy, s, served, n);
    } else if served.NoHeader? || served.PayloadFailed? {
      FailedTurns(policy, s, served, n);
    } else {
      UnhandledTurns(policy, s, served, n);
    }
  }

  // ---- The timeout thread's turn ----

  /** Alone, the timeout thread removes a client that has been idle for longer than the timeout, and no other. */
  lemma TimeoutTurn(s: State, n: nat)
    requires s.running && s.timeout.TimeoutTop? && s.lock.Free? && n >= 7
    ensures var t := InsideN(Step(Step(s, TimeoutStep), TimeoutStep), n);
            if s.client.connected && (s.clock.Floor - s.client.lastCommand) as real * 1000.0 > s.timeoutMs as real
            then InsideN(Step(t, TimeoutStep), n)
                 == Gone(s).(timeout := TimeoutTop, checkLast := s.lastReal, checkSeen := s.clock)
            else t == s
  {
    var s2 := Step(Step(s, TimeoutStep), TimeoutStep);
    IdleRuns(s2, s.clock.Floor, s.clock, n);
    var t := InsideN(s2, n);
    if t.timeout.TimeoutRemoving? {
      RemoveRuns(Step(t, TimeoutStep), Timeout, n);
    }
  }
}
