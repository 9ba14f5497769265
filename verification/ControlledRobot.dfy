/** The robot under the session protocol: who may move it, and what is left when nobody is connected. */
module ControlledRobot {
  import S = Session
  import SessionRuns
  import R = GoalMachine
  import M = MockRobot
  import opened Wire

  /** `late`: a command that starts motion was handled outside any session, and no callback has been made since. */
  datatype State = State(net: S.State, robot: R.Robot, late: bool)

  /** A step of the server, with the command that it hands over if it handles one; or a progress update. */
  datatype Event = Net(step: S.Event, command: R.Command) | Update(clocks: R.Readings)

  function Init(timeoutMs: nat, num: nat): State {
    State(S.Init(timeoutMs), R.Init(num), false)
  }

  /** The step calls the command handler. */
  predicate Handles(net: S.State, step: S.Event) {
    step.TcpStep? && net.tcp.GotFrame? && net.tcp.frame.Other?
  }

  predicate FromClient(c: R.Command) {
    !c.Disconnect? && !c.Tick?
  }

  /** A client is connected and its disconnection callback has not been made. */
  ghost predicate InSession(net: S.State) {
    net.client.connected && !S.LockAt(net, S.Leaving)
  }

  /** With the robot in this state, the command sets a group in motion. */
  predicate Starts(r: R.Robot, c: R.Command)
    requires r.Valid()
  {
    || (c.TestTrajectory? && r.servo && r.num > 0)
    || (c.SendGoal? && R.Accepts(r, c.payload, c.beyond))
  }

  /** The step hands over, outside any session, a command that starts motion. */
  ghost predicate StartsOutside(s: State, e: Event)
    requires s.robot.Valid()
  {
    e.Net? && Handles(s.net, e.step) && FromClient(e.command) && !InSession(s.net) && Starts(s.robot, e.command)
  }

  ghost function Step(s: State, e: Event): (t: State)
    requires s.robot.Valid()
    ensures t.robot.Valid() && t.robot.num == s.robot.num
  {
    match e
    case Net(step, command) =>
      var net := S.Step(s.net, step);
      var robot :=
        if net.disconnects > s.net.disconnects then R.Step(s.robot, R.Disconnect)
        else if Handles(s.net, step) && FromClient(command) then R.Step(s.robot, command)
        else s.robot;
      State(net, robot, net.disconnects == s.net.disconnects && (s.late || StartsOutside(s, e)))
    case Update(clocks) => s.(robot := R.Step(s.robot, R.Tick(clocks)))
  }

  ghost function Run(s: State, events: seq<Event>): (t: State)
    requires s.robot.Valid()
    ensures t.robot.Valid() && t.robot.num == s.robot.num
    decreases |events|
  {
    if events == [] then s else Run(Step(s, events[0]), events[1..])
  }

  /** Whatever command a handled frame carries is applied to the robot, whether or not the client is still there. */
  lemma CommandReaches(s: State, input: S.Input, kind: byte, payload: R.Payload, inputs: M.Inputs)
    requires s.robot.Valid() && s.net.tcp.GotFrame? && s.net.tcp.frame.Other?
    ensures var c := M.CommandOf(kind, payload, inputs);
            c.Some? ==> Step(s, Net(S.TcpStep(input), c.value)).robot == R.Step(s.robot, c.value)
  {
    assert S.Step(s.net, S.TcpStep(input)).disconnects == s.net.disconnects;
  }

  /** An update ends just the active goals that are due by their own clock reading, and no connection notices. */
  lemma UpdateReaches(s: State, clocks: R.Readings, k: nat)
    requires s.robot.Valid() && k < s.robot.num && s.robot.groups[k].goalId != 0 && s.robot.groups[k].state.Active?
    ensures var t := Step(s, Update(clocks));
            var due := clocks[k] - s.robot.groups[k].startTime >= 1000;
            && t.net == s.net && t.robot.groups[k].state == (if due then R.Succeeded else R.Active)
            && (due ==> !t.robot.groups[k].inMotion && t.robot.groups[k].progress == 1.0)
  {
  }

  /** No group moves and no goal is live. */
  ghost predicate AtRest(r: R.Robot)
    requires r.Valid()
  {
    forall k :: 0 <= k < r.num ==> !r.groups[k].inMotion && !r.groups[k].Live()
  }

  /** Of a robot at rest, just the starting commands make a moving one. */
  lemma OnlyStartingMoves(r: R.Robot, c: R.Command)
    requires r.Valid() && AtRest(r) && FromClient(c)
    ensures AtRest(R.Step(r, c)) <==> !Starts(r, c)
  {
    var r' := R.Step(r, c);
    if c.TestTrajectory? && Starts(r, c) {
      assert r'.groups[0].inMotion;
    } else if c.SendGoal? && Starts(r, c) {
      assert r'.groups[Get32(c.payload, 4)].inMotion;
    }
  }

  ghost predicate Safe(s: State) {
    && S.Good(s.net) && s.robot.Valid()
    && (!s.late && !s.net.tornDown && !InSession(s.net) ==> AtRest(s.robot))
  }

  lemma TcpKeepsSession(net: S.State, input: S.Input)
    requires InSession(net)
    ensures InSession(S.TcpMove(net, input))
  {
    if S.BeforeFrame(net.tcp) {
      PollingKeepsSession(net, input);
    } else if S.AtFrame(net.tcp) {
      FrameKeepsSession(net, input);
    } else {
      ReplyKeepsSession(net, input);
    }
  }

  lemma PollingKeepsSession(net: S.State, input: S.Input)
    requires InSession(net) && S.BeforeFrame(net.tcp)
    ensures InSession(S.TcpMove(net, input))
  {
  }

  lemma FrameKeepsSession(net: S.State, input: S.Input)
    requires InSession(net) && S.AtFrame(net.tcp)
    ensures InSession(S.TcpMove(net, input))
  {
  }

  lemma ReplyKeepsSession(net: S.State, input: S.Input)
    requires InSession(net) && !S.BeforeFrame(net.tcp) && !S.AtFrame(net.tcp)
    ensures InSession(S.TcpMove(net, input))
  {
  }

  lemma OthersKeepSession(net: S.State)
    requires InSession(net)
    ensures InSession(S.TimeoutMove(net)) && InSession(S.StopMove(net))
  {
  }

  lemma SessionEndsInside(net: S.State)
    requires S.Good(net) && InSession(net) && net.lock.Held? && !InSession(S.Inside(net))
    ensures S.Inside(net).disconnects > net.disconnects || S.Inside(net).tornDown
  {
  }

  /** A session ends with a disconnection callback, or by stop. */
  lemma SessionEnds(net: S.State, step: S.Event)
    requires S.Good(net) && InSession(net) && !InSession(S.Step(net, step))
    ensures S.Step(net, step).disconnects > net.disconnects || S.Step(net, step).tornDown
  {
    TcpKeepsSession(net, if step.TcpStep? then step.input else S.Nothing);
    OthersKeepSession(net);
    if net.lock.Held? && !InSession(S.Inside(net)) {
      SessionEndsInside(net);
    }
  }

  lemma TornDownInside(net: S.State)
    requires net.tornDown && net.lock.Held?
    ensures S.Inside(net).tornDown
  {
  }

  /** Outside the mutex the TCP thread makes no disconnection callback and tears nothing down. */
  lemma TcpLeaves(net: S.State, input: S.Input)
    ensures S.TcpMove(net, input).disconnects == net.disconnects && S.TcpMove(net, input).tornDown == net.tornDown
  {
    if S.BeforeFrame(net.tcp) {
      PollingLeaves(net, input);
    } else if S.AtFrame(net.tcp) {
      FrameLeaves(net, input);
    } else {
      ReplyLeaves(net, input);
    }
  }

  lemma PollingLeaves(net: S.State, input: S.Input)
    requires S.BeforeFrame(net.tcp)
    ensures S.TcpMove(net, input).disconnects == net.disconnects && S.TcpMove(net, input).tornDown == net.tornDown
  {
  }

  lemma FrameLeaves(net: S.State, input: S.Input)
    requires S.AtFrame(net.tcp)
    ensures S.TcpMove(net, input).disconnects == net.disconnects && S.TcpMove(net, input).tornDown == net.tornDown
  {
  }

  lemma ReplyLeaves(net: S.State, input: S.Input)
    requires !S.BeforeFrame(net.tcp) && !S.AtFrame(net.tcp)
    ensures S.TcpMove(net, input).disconnects == net.disconnects && S.TcpMove(net, input).tornDown == net.tornDown
  {
  }

  lemma OthersLeave(net: S.State)
    ensures S.TimeoutMove(net).disconnects == S.StopMove(net).disconnects == net.disconnects
    ensures S.TimeoutMove(net).tornDown == S.StopMove(net).tornDown == net.tornDown
  {
  }

  lemma TornDownForGood(net: S.State, step: S.Event)
    requires net.tornDown
    ensures S.Step(net, step).tornDown
  {
    OnlyInsideTearsDown(net, if step.TcpStep? then step.input else S.Nothing);
    if net.lock.Held? {
      TornDownInside(net);
    }
  }

  /** What a step of the server does to the robot's rest, whatever the rest of the state. */
  lemma RestInStep(s: State, step: S.Event, command: R.Command)
    requires s.robot.Valid() && AtRest(s.robot)
    ensures AtRest(Step(s, Net(step, command)).robot)
            || (Handles(s.net, step) && FromClient(command) && Starts(s.robot, command))
  {
    if FromClient(command) {
      OnlyStartingMoves(s.robot, command);
    }
  }

  lemma CallbackMeansRest(s: State, step: S.Event, command: R.Command)
    requires s.robot.Valid() && S.Step(s.net, step).disconnects > s.net.disconnects
    ensures AtRest(Step(s, Net(step, command)).robot)
  {
  }

  lemma CallbacksGrowInside(net: S.State)
    requires net.lock.Held?
    ensures S.Inside(net).disconnects == net.disconnects + if net.lock.at.RemoveCallback? then 1 else 0
  {
    if S.IsAdd(net.lock.at) {
      AddLeaves(net);
    }
  }

  lemma AddLeaves(net: S.State)
    requires net.lock.Held? && S.IsAdd(net.lock.at)
    ensures S.Inside(net).disconnects == net.disconnects
  {
  }

  lemma CallbacksGrow(net: S.State, step: S.Event)
    ensures S.Step(net, step).disconnects >= net.disconnects
    ensures S.Step(net, step).disconnects > net.disconnects ==> net.lock.Held? && net.lock.at.RemoveCallback?
  {
    TcpLeaves(net, if step.TcpStep? then step.input else S.Nothing);
    OthersLeave(net);
    if net.lock.Held? {
      CallbacksGrowInside(net);
    }
  }

  /** Besides a handled frame only the disconnection callback and an update reach the robot. */
  lemma NothingElseReaches(s: State, e: Event)
    requires s.robot.Valid() && Step(s, e).robot != s.robot
    ensures || (e.Net? && Handles(s.net, e.step))
            || (e.Net? && s.net.lock.Held? && s.net.lock.at.RemoveCallback?
                && Step(s, e).robot == R.Step(s.robot, R.Disconnect))
            || (e.Update? && Step(s, e).robot == R.Step(s.robot, R.Tick(e.clocks)))
  {
    if e.Net? {
      CallbacksGrow(s.net, e.step);
    }
  }

  lemma SafeUpdate(s: State, clocks: R.Readings)
    requires Safe(s)
    ensures Safe(Step(s, Update(clocks)))
  {
  }

  /** Outside a session and before stop, a step leaves the robot at rest or sets the flag. */
  lemma RestOrLate(s: State, step: S.Event, command: R.Command)
    requires Safe(s) && !s.net.tornDown && !InSession(S.Step(s.net, step)) && !S.Step(s.net, step).tornDown
    ensures var t := Step(s, Net(step, command)); t.late || AtRest(t.robot)
  {
    if S.Step(s.net, step).disconnects > s.net.disconnects {
      CallbackMeansRest(s, step, command);
    } else {
      CallbacksGrow(s.net, step);
      if InSession(s.net) {
        SessionEnds(s.net, step);
      } else if !s.late {
        RestInStep(s, step, command);
      }
    }
  }

  lemma SafeStep(s: State, e: Event)
    requires Safe(s)
    ensures Safe(Step(s, e))
  {
    match e
    case Net(step, command) =>
      S.GoodStep(s.net, step);
      var net := S.Step(s.net, step);
      if s.net.tornDown {
        TornDownForGood(s.net, step);
      } else if !InSession(net) && !net.tornDown {
        RestOrLate(s, step, command);
      }
    case Update(clocks) => SafeUpdate(s, clocks);
  }

  lemma {:induction false} SafeRun(s: State, events: seq<Event>)
    requires Safe(s)
    ensures Safe(Run(s, events))
    decreases |events|
  {
    if events != [] {
      SafeStep(s, events[0]);
      SafeRun(Step(s, events[0]), events[1..]);
    }
  }

  /**
    On every schedule of the two threads, the stop and the updates: while no client is connected and stop has
    not closed one, nothing moves and no goal is live, unless since the last disconnection callback a command
    that starts motion was handled outside any session.
   */
  lemma NobodyMeansRest(timeoutMs: nat, num: nat, events: seq<Event>)
    ensures var s := Run(Init(timeoutMs, num), events);
            !s.net.client.connected && !s.net.tornDown && !s.late ==> AtRest(s.robot) && !R.IsInMotion(s.robot)
  {
    SessionRuns.GoodFromInit(timeoutMs, []);
    SafeRun(Init(timeoutMs, num), events);
  }

  // ---- Exactly when the robot can be found moving outside a session ----

  /** Outside any session the robot is at rest. */
  ghost predicate Rests(s: State)
    requires s.robot.Valid()
  {
    InSession(s.net) || AtRest(s.robot)
  }

  /** Stop's step that disconnects a client, while the robot moves. */
  ghost predicate ClosesMoving(s: State, e: Event)
    requires s.robot.Valid()
  {
    e.Net? && !s.net.tornDown && S.Step(s.net, e.step).tornDown && !AtRest(s.robot)
  }

  ghost predicate Stirs(s: State, e: Event)
    requires s.robot.Valid()
  {
    StartsOutside(s, e) || ClosesMoving(s, e)
  }

  ghost predicate AlwaysRests(s: State, events: seq<Event>)
    requires s.robot.Valid()
    decreases |events|
  {
    Rests(s) && (events != [] ==> AlwaysRests(Step(s, events[0]), events[1..]))
  }

  ghost predicate SomeStirs(s: State, events: seq<Event>)
    requires s.robot.Valid()
    decreases |events|
  {
    events != [] && (Stirs(s, events[0]) || SomeStirs(Step(s, events[0]), events[1..]))
  }

  /** Handling a command neither ends a session nor begins one. */
  lemma HandlingKeepsSession(net: S.State, input: S.Input)
    requires S.Good(net) && Handles(net, S.TcpStep(input))
    ensures var net' := S.Step(net, S.TcpStep(input));
            && (InSession(net') <==> InSession(net)) && !net.tornDown && !net'.tornDown
            && net'.disconnects == net.disconnects
  {
  }

  lemma OnlyInsideTearsDown(net: S.State, input: S.Input)
    ensures S.TcpMove(net, input).tornDown == net.tornDown
    ensures S.TimeoutMove(net).tornDown == S.StopMove(net).tornDown == net.tornDown
  {
    TcpLeaves(net, input);
    OthersLeave(net);
  }

  lemma TearingDownInside(net: S.State)
    requires net.lock.Held? && !net.tornDown && S.Inside(net).tornDown
    ensures !InSession(S.Inside(net)) && S.Inside(net).disconnects == net.disconnects
  {
  }

  /** Stop's disconnecting step ends the session without a callback. */
  lemma TearingDownEndsSession(net: S.State, step: S.Event)
    requires !net.tornDown && S.Step(net, step).tornDown
    ensures !InSession(S.Step(net, step)) && S.Step(net, step).disconnects == net.disconnects
  {
    OnlyInsideTearsDown(net, if step.TcpStep? then step.input else S.Nothing);
    if net.lock.Held? && !net.tornDown && S.Inside(net).tornDown {
      TearingDownInside(net);
    }
  }

  lemma RestUnlessStirred(s: State, step: S.Event, command: R.Command)
    requires S.Good(s.net) && s.robot.Valid() && Rests(s) && !Stirs(s, Net(step, command))
    ensures Rests(Step(s, Net(step, command)))
  {
    if S.Step(s.net, step).disconnects > s.net.disconnects {
      CallbackMeansRest(s, step, command);
    } else if !InSession(s.net) || AtRest(s.robot) {
      if !InSession(S.Step(s.net, step)) {
        RestOutside(s, step, command);
      }
    } else if !InSession(S.Step(s.net, step)) {
      SessionEnds(s.net, step);
      if s.net.tornDown {
        NeverTornDownInSession(s.net);
      }
    }
  }

  lemma NeverTornDownInSession(net: S.State)
    requires S.Good(net) && InSession(net)
    ensures !net.tornDown
  {
  }

  lemma RestOutside(s: State, step: S.Event, command: R.Command)
    requires S.Good(s.net) && s.robot.Valid() && AtRest(s.robot) && !StartsOutside(s, Net(step, command))
    requires !InSession(S.Step(s.net, step))
    ensures AtRest(Step(s, Net(step, command)).robot)
  {
    RestInStep(s, step, command);
    if Handles(s.net, step) {
      HandlingKeepsSession(s.net, step.input);
    }
  }

  lemma RestStep(s: State, e: Event)
    requires S.Good(s.net) && s.robot.Valid() && Rests(s)
    ensures Rests(Step(s, e)) <==> !Stirs(s, e)
  {
    if StartsOutside(s, e) {
      HandlingKeepsSession(s.net, e.step.input);
      OnlyStartingMoves(s.robot, e.command);
    } else if ClosesMoving(s, e) {
      TearingDownEndsSession(s.net, e.step);
      StillMoving(s, e);
    } else if e.Net? {
      RestUnlessStirred(s, e.step, e.command);
    }
  }

  lemma StillMoving(s: State, e: Event)
    requires S.Good(s.net) && s.robot.Valid() && ClosesMoving(s, e)
    ensures Step(s, e).robot == s.robot
  {
    TearingDownEndsSession(s.net, e.step);
    if Handles(s.net, e.step) {
      HandlingKeepsSession(s.net, e.step.input);
    }
  }

  lemma {:induction false} RestExactly(s: State, events: seq<Event>)
    requires S.Good(s.net) && s.robot.Valid() && Rests(s)
    ensures AlwaysRests(s, events) <==> !SomeStirs(s, events)
    decreases |events|
  {
    if events != [] {
      var t := Step(s, events[0]);
      RestStep(s, events[0]);
      if Rests(t) {
        if events[0].Net? {
          S.GoodStep(s.net, events[0].step);
        }
        RestExactly(t, events[1..]);
      } else {
        assert !AlwaysRests(t, events[1..]);
      }
    }
  }

  /**
    When the robot can be found moving outside a session, exactly: on every schedule it is at rest in each state
    outside a session if and only if no step hands over, outside any session, a command that starts motion, and
    stop disconnects no client while it moves.
   */
  lemma NobodyMeansRestExactly(timeoutMs: nat, num: nat, events: seq<Event>)
    ensures AlwaysRests(Init(timeoutMs, num), events) <==> !SomeStirs(Init(timeoutMs, num), events)
  {
    SessionRuns.GoodFromInit(timeoutMs, []);
    RestExactly(Init(timeoutMs, num), events);
  }

  // ---- Frames handled in one step ----

  /**
    Reading a command frame of the polled client, handling and answering it with nobody in between, wherever the
    other threads are, also inside the mutex; or any other step.
   */
  datatype Turn = Serve(command: R.Command) | Single(e: Event)

  /** What Serve does, step by step. */
  ghost function Served(s: State, command: R.Command): (t: State)
    requires s.robot.Valid()
    ensures t.robot.Valid() && t.robot.num == s.robot.num
  {
    var s1 := Step(s, Net(S.TcpStep(S.Readable), command));
    var s2 := Step(s1, Net(S.TcpStep(S.HeaderRead), command));
    var s3 := Step(s2, Net(S.TcpStep(S.FrameRead(S.Other)), command));
    var s4 := Step(s3, Net(S.TcpStep(S.Nothing), command));
    Step(s4, Net(S.TcpStep(S.Nothing), command))
  }

  ghost function Take(s: State, turn: Turn): (t: State)
    requires s.robot.Valid()
    ensures t.robot.Valid() && t.robot.num == s.robot.num
  {
    match turn
    case Serve(command) =>
      if s.net.tcp.Polling? && s.net.client.connected then Served(s, command) else s
    case Single(e) => if CompletesCommand(s.net, e) then s else Step(s, e)
  }

  /** Only Serve reads commands. */
  predicate CompletesCommand(net: S.State, e: Event) {
    e.Net? && net.tcp.ReadingPayload? && e.step == S.TcpStep(S.FrameRead(S.Other))
  }

  ghost function TakeAll(s: State, turns: seq<Turn>): (t: State)
    requires s.robot.Valid()
    ensures t.robot.Valid() && t.robot.num == s.robot.num
    decreases |turns|
  {
    if turns == [] then s else TakeAll(Take(s, turns[0]), turns[1..])
  }

  /** No command has been read and not yet handled. */
  predicate NonePending(net: S.State) {
    net.tcp.GotFrame? ==> !net.tcp.frame.Other?
  }

  lemma InsideReadsNothing(net: S.State)
    requires net.lock.Held?
    ensures S.Inside(net).tcp == net.tcp || !S.Inside(net).tcp.GotFrame?
  {
    if S.IsAdd(net.lock.at) {
      AddReadsNothing(net);
    }
  }

  lemma AddReadsNothing(net: S.State)
    requires net.lock.Held? && S.IsAdd(net.lock.at)
    ensures S.Inside(net).tcp == net.tcp || !S.Inside(net).tcp.GotFrame?
  {
  }

  lemma MoveReadsFrames(net: S.State, input: S.Input)
    requires !(net.tcp.ReadingPayload? && input == S.FrameRead(S.Other))
    ensures NonePending(net) ==> NonePending(S.TcpMove(net, input))
  {
  }

  lemma OthersReadNothing(net: S.State)
    ensures S.TimeoutMove(net).tcp == S.StopMove(net).tcp == net.tcp
  {
  }

  lemma PendingIsRead(net: S.State, step: S.Event)
    requires NonePending(net) && !(net.tcp.ReadingPayload? && step == S.TcpStep(S.FrameRead(S.Other)))
    ensures NonePending(S.Step(net, step)) && !Handles(net, step)
  {
    OthersReadNothing(net);
    if net.lock.Held? {
      InsideReadsNothing(net);
    }
    if step.TcpStep? {
      MoveReadsFrames(net, step.input);
    }
  }

  /** Serving changes the record only by the time of the command, and hands the command to the robot. */
  lemma ServedRuns(s: State, command: R.Command)
    requires s.robot.Valid() && s.net.tcp.Polling? && s.net.client.connected
    ensures var t := Served(s, command);
            && t.net == S.WithFrame(S.Polled(s.net)).(tcp := S.TcpTop, lastReal := s.net.clock, sent := t.net.sent,
                                            client := s.net.client.(lastCommand := s.net.clock.Floor))
            && t.robot == if FromClient(command) then R.Step(s.robot, command) else s.robot
  {
    var s2 := s.(net := S.WithFrame(S.Polled(s.net)).(tcp := S.ReadingPayload));
    assert Step(Step(s, Net(S.TcpStep(S.Readable), command)), Net(S.TcpStep(S.HeaderRead), command)).net == s2.net;
    var s4 := s2.net.(tcp := S.Replying(false), lastReal := s.net.clock,
                      client := s.net.client.(lastCommand := s.net.clock.Floor));
    assert S.Step(S.Step(s2.net, S.TcpStep(S.FrameRead(S.Other))), S.TcpStep(S.Nothing)) == s4;
  }

  lemma ServedIsGood(s: State, command: R.Command)
    requires S.Good(s.net) && s.robot.Valid()
    ensures S.Good(Served(s, command).net)
  {
    var n1 := S.Step(s.net, S.TcpStep(S.Readable));
    var n2 := S.Step(n1, S.TcpStep(S.HeaderRead));
    var n3 := S.Step(n2, S.TcpStep(S.FrameRead(S.Other)));
    var n4 := S.Step(n3, S.TcpStep(S.Nothing));
    S.GoodStep(s.net, S.TcpStep(S.Readable));
    S.GoodStep(n1, S.TcpStep(S.HeaderRead));
    S.GoodStep(n2, S.TcpStep(S.FrameRead(S.Other)));
    S.GoodStep(n3, S.TcpStep(S.Nothing));
    S.GoodStep(n4, S.TcpStep(S.Nothing));
  }

  /** A starting command is served in the window of remove_client between its callback and `connected = false`. */
  ghost predicate ServesLeaving(s: State, command: R.Command)
    requires s.robot.Valid()
  {
    && s.net.tcp.Polling? && s.net.client.connected && S.LockAt(s.net, S.Leaving)
    && FromClient(command) && Starts(s.robot, command)
  }

  ghost predicate TurnStirs(s: State, turn: Turn)
    requires s.robot.Valid()
  {
    match turn
    case Serve(command) => ServesLeaving(s, command)
    case Single(e) => ClosesMoving(s, e)
  }

  ghost predicate AlwaysRestsInTurns(s: State, turns: seq<Turn>)
    requires s.robot.Valid()
    decreases |turns|
  {
    Rests(s) && (turns != [] ==> AlwaysRestsInTurns(Take(s, turns[0]), turns[1..]))
  }

  ghost predicate SomeTurnStirs(s: State, turns: seq<Turn>)
    requires s.robot.Valid()
    decreases |turns|
  {
    turns != [] && (TurnStirs(s, turns[0]) || SomeTurnStirs(Take(s, turns[0]), turns[1..]))
  }

  lemma ServeRests(s: State, command: R.Command)
    requires s.robot.Valid() && Rests(s)
    ensures Rests(Take(s, Serve(command))) <==> !ServesLeaving(s, command)
    ensures NonePending(s.net) ==> NonePending(Take(s, Serve(command)).net)
  {
    if s.net.tcp.Polling? && s.net.client.connected {
      ServedRuns(s, command);
      if !InSession(s.net) && FromClient(command) {
        OnlyStartingMoves(s.robot, command);
      }
    }
  }

  lemma SingleRests(s: State, e: Event)
    requires S.Good(s.net) && s.robot.Valid() && Rests(s) && NonePending(s.net)
    ensures Rests(Take(s, Single(e))) <==> !ClosesMoving(s, e)
    ensures NonePending(Take(s, Single(e)).net) && S.Good(Take(s, Single(e)).net)
  {
    if CompletesCommand(s.net, e) {
      OnlyInsideTearsDown(s.net, e.step.input);
    } else {
      RestStep(s, e);
      if e.Net? {
        S.GoodStep(s.net, e.step);
        PendingIsRead(s.net, e.step);
      }
    }
  }

  lemma TurnRests(s: State, turn: Turn)
    requires S.Good(s.net) && s.robot.Valid() && Rests(s) && NonePending(s.net)
    ensures Rests(Take(s, turn)) <==> !TurnStirs(s, turn)
    ensures NonePending(Take(s, turn).net) && S.Good(Take(s, turn).net)
  {
    match turn
    case Serve(command) =>
      ServeRests(s, command);
      ServedIsGood(s, command);
    case Single(e) => SingleRests(s, e);
  }

  lemma {:induction false} RestInTurnsExactly(s: State, turns: seq<Turn>)
    requires S.Good(s.net) && s.robot.Valid() && Rests(s) && NonePending(s.net)
    ensures AlwaysRestsInTurns(s, turns) <==> !SomeTurnStirs(s, turns)
    decreases |turns|
  {
    if turns != [] {
      var t := Take(s, turns[0]);
      TurnRests(s, turns[0]);
      if Rests(t) {
        RestInTurnsExactly(t, turns[1..]);
      } else {
        assert !AlwaysRestsInTurns(t, turns[1..]);
      }
    }
  }

  /**
    With frame handling as one step, exactly: on every schedule the robot is at rest in each state outside a session
    if and only if no starting command is served while remove_client is between its callback and
    `connected = false`, and stop disconnects no client while the robot moves.
   */
  lemma NobodyMeansRestInTurns(timeoutMs: nat, num: nat, turns: seq<Turn>)
    ensures AlwaysRestsInTurns(Init(timeoutMs, num), turns) <==> !SomeTurnStirs(Init(timeoutMs, num), turns)
  {
    SessionRuns.GoodFromInit(timeoutMs, []);
    RestInTurnsExactly(Init(timeoutMs, num), turns);
  }
}
