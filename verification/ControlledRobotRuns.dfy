/** Reachable states in which the robot moves with nobody connected: one for each way it can come about. */
module ControlledRobotRuns {
  import S = Session
  import SessionRuns
  import R = GoalMachine
  import opened ControlledRobot

  // ---- Runs, event by event ----

  /** The server's own schedule, with the same command at every step. */
  ghost function Lift(schedule: seq<S.Event>, c: R.Command): seq<Event> {
    if schedule == [] then [] else [Net(schedule[0], c)] + Lift(schedule[1..], c)
  }

  lemma {:induction false} RunAppend(s: State, a: seq<Event>, b: seq<Event>)
    requires s.robot.Valid()
    ensures Run(s, a + b) == Run(Run(s, a), b)
    decreases |a|
  {
    if a == [] {
      assert a + b == b;
    } else {
      assert (a + b)[1..] == a[1..] + b;
      RunAppend(Step(s, a[0]), a[1..], b);
    }
  }

  lemma ServoStays(r: R.Robot, c: R.Command)
    requires r.Valid()
    ensures r.servo ==> R.Step(r, c).servo
  {
  }

  lemma LiftStep(s: State, step: S.Event, c: R.Command)
    requires s.robot.Valid()
    ensures var t := Step(s, Net(step, c));
            && t.net == S.Step(s.net, step) && t.net.disconnects >= s.net.disconnects
            && (s.robot.servo ==> t.robot.servo)
            && (t.net.disconnects == s.net.disconnects && !FromClient(c) ==> t.robot == s.robot)
  {
    CallbacksGrow(s.net, step);
    ServoStays(s.robot, R.Disconnect);
    ServoStays(s.robot, c);
  }

  lemma {:induction false} LiftRuns(s: State, schedule: seq<S.Event>, c: R.Command)
    requires s.robot.Valid()
    ensures var t := Run(s, Lift(schedule, c));
            && t.net == S.Run(s.net, schedule) && t.net.disconnects >= s.net.disconnects
            && (s.robot.servo ==> t.robot.servo)
            && (t.net.disconnects == s.net.disconnects && !FromClient(c) ==> t.robot == s.robot)
    decreases |schedule|
  {
    if schedule != [] {
      var first := Net(schedule[0], c);
      assert ([first] + Lift(schedule[1..], c))[1..] == Lift(schedule[1..], c);
      LiftStep(s, schedule[0], c);
      LiftRuns(Step(s, first), schedule[1..], c);
    }
  }

  ghost predicate Reaches(s: State, t: State)
    requires s.robot.Valid()
  {
    exists events :: Run(s, events) == t
  }

  lemma ReachesStep(s: State, e: Event)
    requires s.robot.Valid()
    ensures Reaches(s, Step(s, e))
  {
    assert [e][1..] == [];
    assert Run(s, [e]) == Run(Step(s, e), []);
  }

  lemma ReachesThen(s: State, t: State, u: State)
    requires s.robot.Valid() && t.robot.Valid() && Reaches(s, t) && Reaches(t, u)
    ensures Reaches(s, u)
  {
    var a :| Run(s, a) == t;
    var b :| Run(t, b) == u;
    RunAppend(s, a, b);
  }

  /** The server goes on to `net`; the robot is not handed any command on the way. */
  lemma ServerGoesOn(s: State, net: S.State) returns (t: State)
    requires s.robot.Valid() && SessionRuns.Reaches(s.net, net)
    ensures t.robot.Valid() && t.robot.num == s.robot.num && Reaches(s, t) && t.net == net
    ensures s.robot.servo ==> t.robot.servo
    ensures net.disconnects == s.net.disconnects ==> t.robot == s.robot
  {
    var schedule :| S.Run(s.net, schedule) == net;
    LiftRuns(s, schedule, R.Disconnect);
    t := Run(s, Lift(schedule, R.Disconnect));
  }

  // ---- Runs, turn by turn ----

  ghost predicate ReachesInTurns(s: State, t: State)
    requires s.robot.Valid()
  {
    exists turns :: TakeAll(s, turns) == t
  }

  lemma {:induction false} TakeAppend(s: State, a: seq<Turn>, b: seq<Turn>)
    requires s.robot.Valid()
    ensures TakeAll(s, a + b) == TakeAll(TakeAll(s, a), b)
    decreases |a|
  {
    if a == [] {
      assert a + b == b;
    } else {
      assert (a + b)[1..] == a[1..] + b;
      TakeAppend(Take(s, a[0]), a[1..], b);
    }
  }

  lemma TurnsThen(s: State, t: State, u: State)
    requires s.robot.Valid() && t.robot.Valid() && ReachesInTurns(s, t) && ReachesInTurns(t, u)
    ensures ReachesInTurns(s, u)
  {
    var a :| TakeAll(s, a) == t;
    var b :| TakeAll(t, b) == u;
    TakeAppend(s, a, b);
  }

  lemma TurnTaken(s: State, turn: Turn)
    requires s.robot.Valid()
    ensures ReachesInTurns(s, Take(s, turn))
  {
    assert [turn][1..] == [];
    assert TakeAll(s, [turn]) == TakeAll(Take(s, turn), []);
  }

  lemma ServedIsReached(s: State, command: R.Command)
    requires s.robot.Valid()
    ensures Reaches(s, Served(s, command))
  {
    var s1 := Step(s, Net(S.TcpStep(S.Readable), command));
    var s2 := Step(s1, Net(S.TcpStep(S.HeaderRead), command));
    var s3 := Step(s2, Net(S.TcpStep(S.FrameRead(S.Other)), command));
    var s4 := Step(s3, Net(S.TcpStep(S.Nothing), command));
    ReachesStep(s, Net(S.TcpStep(S.Readable), command));
    ReachesStep(s1, Net(S.TcpStep(S.HeaderRead), command));
    ReachesThen(s, s1, s2);
    ReachesStep(s2, Net(S.TcpStep(S.FrameRead(S.Other)), command));
    ReachesThen(s, s2, s3);
    ReachesStep(s3, Net(S.TcpStep(S.Nothing), command));
    ReachesThen(s, s3, s4);
    ReachesStep(s4, Net(S.TcpStep(S.Nothing), command));
    ReachesThen(s, s4, Served(s, command));
  }

  lemma {:induction false} TakeAllIsReached(s: State, turns: seq<Turn>)
    requires s.robot.Valid()
    ensures Reaches(s, TakeAll(s, turns))
    decreases |turns|
  {
    assert Run(s, []) == s;
    if turns != [] {
      var t := Take(s, turns[0]);
      if turns[0].Serve? {
        ServedIsReached(s, turns[0].command);
      } else {
        ReachesStep(s, turns[0].e);
      }
      TakeAllIsReached(t, turns[1..]);
      ReachesThen(s, t, TakeAll(s, turns));
    }
  }

  /** Whatever is reached with frames handled in one step is reached event by event. */
  lemma TurnsAreEvents(s: State, t: State)
    requires s.robot.Valid() && ReachesInTurns(s, t)
    ensures Reaches(s, t)
  {
    var turns :| TakeAll(s, turns) == t;
    TakeAllIsReached(s, turns);
  }

  ghost function LiftTurns(schedule: seq<S.Event>): seq<Turn> {
    if schedule == [] then [] else [Single(Net(schedule[0], R.Disconnect))] + LiftTurns(schedule[1..])
  }

  lemma {:induction false} LiftTurnsRuns(s: State, schedule: seq<S.Event>)
    requires s.robot.Valid() && SessionRuns.Frameless(schedule)
    ensures var t := TakeAll(s, LiftTurns(schedule));
            && t.net == S.Run(s.net, schedule) && t.net.disconnects >= s.net.disconnects
            && (s.robot.servo ==> t.robot.servo)
            && (t.net.disconnects == s.net.disconnects ==> t.robot == s.robot)
    decreases |schedule|
  {
    if schedule != [] {
      var first := Single(Net(schedule[0], R.Disconnect));
      assert ([first] + LiftTurns(schedule[1..]))[1..] == LiftTurns(schedule[1..]);
      LiftStep(s, schedule[0], R.Disconnect);
      LiftTurnsRuns(Take(s, first), schedule[1..]);
    }
  }

  /** The server goes on to `net` without a frame; the robot is not handed any command on the way. */
  lemma TurnsGoOn(s: State, net: S.State) returns (t: State)
    requires s.robot.Valid() && SessionRuns.Drifts(s.net, net)
    ensures t.robot.Valid() && t.robot.num == s.robot.num && ReachesInTurns(s, t) && t.net == net
    ensures s.robot.servo ==> t.robot.servo
    ensures net.disconnects == s.net.disconnects ==> t.robot == s.robot
  {
    var schedule :| SessionRuns.Frameless(schedule) && S.Run(s.net, schedule) == net;
    LiftTurnsRuns(s, schedule);
    t := TakeAll(s, LiftTurns(schedule));
  }

  lemma Commanded(s: State, command: R.Command) returns (t: State)
    requires s.robot.Valid() && FromClient(command) && S.Good(s.net)
    requires s.net.tcp.Polling? && s.net.client.connected
    ensures t.robot == R.Step(s.robot, command) && ReachesInTurns(s, t) && S.Good(t.net)
    ensures t.net == S.WithFrame(S.Polled(s.net)).(tcp := S.TcpTop, lastReal := s.net.clock, sent := t.net.sent,
                                         client := s.net.client.(lastCommand := s.net.clock.Floor))
  {
    t := Take(s, Serve(command));
    TurnTaken(s, Serve(command));
    ServedRuns(s, command);
    ServedIsGood(s, command);
  }

  /** A client has connected and switched the servo on. */
  lemma PoweredClient(timeoutMs: nat, num: nat) returns (t: State)
    ensures ReachesInTurns(Init(timeoutMs, num), t) && t.robot.Valid() && t.robot.num == R.Init(num).num
    ensures t.robot.servo && S.Good(t.net)
    ensures t.net.running && t.net.lock.Free? && t.net.client.connected && t.net.tcp.Polling?
    ensures t.net.timeout.TimeoutTop? && t.net.timeoutMs == timeoutMs && t.net.stop.Running? && !t.net.tornDown
    ensures t.net.client.lastCommand == t.net.clock.Floor && t.net.lastReal == t.net.clock
  {
    var s := Init(timeoutMs, num);
    SessionRuns.GoodFromInit(timeoutMs, []);
    var net := SessionRuns.Connects(s.net);
    SessionRuns.GoodReached(s.net, net);
    var t1 := TurnsGoOn(s, net);
    var t2 := Commanded(t1, R.PowerOn);
    TurnsThen(s, t1, t2);
    SessionRuns.DriftsStep(t2.net, S.TcpStep(S.Readable));
    S.GoodStep(t2.net, S.TcpStep(S.Readable));
    t := TurnsGoOn(t2, S.Step(t2.net, S.TcpStep(S.Readable)));
    TurnsThen(s, t2, t);
  }

  /** A client has switched the servo on and then been silent for longer than the timeout. */
  lemma SilentPoweredClient(timeoutMs: nat, num: nat) returns (t: State)
    ensures ReachesInTurns(Init(timeoutMs, num), t) && t.robot.Valid() && t.robot.num == R.Init(num).num
    ensures t.robot.servo && S.Good(t.net) && !t.net.tornDown
    ensures t.net.running && t.net.lock.Free? && t.net.client.connected && t.net.tcp.Polling?
    ensures t.net.timeout.TimeoutTop? && S.Expired(t.net.clock.Floor, t.net.client.lastCommand, t.net.timeoutMs)
  {
    var t1 := PoweredClient(timeoutMs, num);
    var wait := (timeoutMs / 1000 + 1) as real;
    SessionRuns.DriftsStep(t1.net, S.Pass(wait));
    S.GoodStep(t1.net, S.Pass(wait));
    t := TurnsGoOn(t1, S.Step(t1.net, S.Pass(wait)));
    TurnsThen(Init(timeoutMs, num), t1, t);
    S.IdleBound(t.net.clock, t1.net.clock, timeoutMs);
  }

  // ---- A command handled after its session ----

  /** The timeout thread is about to remove a client whose next command has already been read. */
  lemma ReadThenTimedOut(net: S.State) returns (t: S.State)
    requires S.Places(net) && S.ConnectedOk(net) && net.running && net.lock.Free? && net.client.connected
    requires net.tcp.Polling? && net.timeout.TimeoutTop?
    requires S.Expired(net.clock.Floor, net.client.lastCommand, net.timeoutMs)
    ensures SessionRuns.Reaches(net, t)
    ensures t.running && !t.client.connected && t.tcp == S.GotFrame(S.Other, net.session)
  {
    var n1 := SessionRuns.Expires(net);
    var n2 := SessionRuns.FrameComes(n1, S.Other);
    t := SessionRuns.TimesOut(n2);
    SessionRuns.ReachesThen(net, n1, n2);
    SessionRuns.ReachesThen(net, n2, t);
  }

  /** Handling the command that is left over. */
  lemma LateCommandHandled(s: State) returns (t: State)
    requires s.robot.Valid() && s.robot.num >= 1 && s.robot.servo
    requires s.net.running && !s.net.client.connected && s.net.tcp.GotFrame? && s.net.tcp.frame.Other?
    ensures Reaches(s, t) && t.robot.Valid()
    ensures t.net.running && !t.net.client.connected && t.late && R.IsInMotion(t.robot)
  {
    var e := Net(S.TcpStep(S.Nothing), R.TestTrajectory);
    t := Step(s, e);
    ReachesStep(s, e);
    assert t.robot.groups[0].inMotion;
  }

  /**
    A command read before the timeout and handled after it: the server runs, nobody is connected, the
    disconnection callback has been made, and the robot moves.
   */
  lemma LateCommandMoves(timeoutMs: nat, num: nat) returns (t: State)
    requires num >= 1
    ensures Reaches(Init(timeoutMs, num), t) && t.robot.Valid()
    ensures t.net.running && !t.net.client.connected && t.late && R.IsInMotion(t.robot)
  {
    var s := Init(timeoutMs, num);
    var t1 := SilentPoweredClient(timeoutMs, num);
    TurnsAreEvents(s, t1);
    var net := ReadThenTimedOut(t1.net);
    var t2 := ServerGoesOn(t1, net);
    ReachesThen(s, t1, t2);
    t := LateCommandHandled(t2);
    ReachesThen(s, t2, t);
  }

  // ---- A frame handled in one step, inside remove_client ----

  /** The timeout thread has made the disconnection callback and not yet cleared `connected`. */
  lemma HalfRemoved(net: S.State) returns (t: S.State)
    requires S.Good(net) && net.running && net.lock.Free? && net.client.connected
    requires net.tcp.Polling? && net.timeout.TimeoutTop?
    requires S.Expired(net.clock.Floor, net.client.lastCommand, net.timeoutMs)
    ensures SessionRuns.Drifts(net, t)
    ensures t.running && t.client.connected && t.tcp.Polling? && t.lock == S.Held(S.Timeout, S.RemoveClose)
    ensures t.timeout.TimeoutInside? && t.disconnects == net.disconnects + 1 && t.tornDown == net.tornDown
  {
    var n1 := SessionRuns.Expires(net);
    t := SessionRuns.RemovalBegins(n1);
    SessionRuns.DriftsThen(net, n1, t);
  }

  /** The removal goes on until nobody is connected. */
  lemma RemovalGoesOn(net: S.State) returns (t: S.State)
    requires net.lock == S.Held(S.Timeout, S.RemoveClose) && net.timeout.TimeoutInside?
    ensures SessionRuns.Drifts(net, t) && !t.client.connected
    ensures t.running == net.running && t.tornDown == net.tornDown && t.disconnects == net.disconnects
  {
    var n1 := S.Step(net, S.TimeoutStep);
    t := S.Step(n1, S.TimeoutStep);
    SessionRuns.DriftsStep(net, S.TimeoutStep);
    SessionRuns.DriftsStep(n1, S.TimeoutStep);
    SessionRuns.DriftsThen(net, n1, t);
  }

  /**
    A frame read, handled and answered in one go while the timeout thread is inside remove_client, between its
    callback and `connected = false`: the server runs, nobody is connected, stop was never called, and the robot moves.
   */
  lemma FrameDuringRemovalMoves(timeoutMs: nat, num: nat) returns (t: State)
    requires num >= 1
    ensures ReachesInTurns(Init(timeoutMs, num), t) && t.robot.Valid()
    ensures t.net.running && !t.net.client.connected && !t.net.tornDown && R.IsInMotion(t.robot)
  {
    var s := Init(timeoutMs, num);
    var t1 := SilentPoweredClient(timeoutMs, num);
    var half := HalfRemoved(t1.net);
    var t2 := TurnsGoOn(t1, half);
    TurnsThen(s, t1, t2);
    var t3 := Take(t2, Serve(R.TestTrajectory));
    TurnTaken(t2, Serve(R.TestTrajectory));
    TurnsThen(s, t2, t3);
    ServedRuns(t2, R.TestTrajectory);
    assert t3.robot.groups[0].inMotion;
    var removed := RemovalGoesOn(t3.net);
    t := TurnsGoOn(t3, removed);
    TurnsThen(s, t3, t);
  }

  // ---- Stop ----

  lemma StopJoins(net: S.State) returns (t: S.State)
    requires net.running && net.lock.Free? && net.tcp.TcpTop? && net.timeout.TimeoutTop? && net.stop.Running?
    ensures SessionRuns.Drifts(net, t)
    ensures t == net.(running := false, stop := S.Locking, tcp := S.TcpDone, timeout := S.TimeoutDone)
  {
    var n1 := net.(running := false, stop := S.Joining);
    var n2 := n1.(tcp := S.TcpDone);
    var n3 := n2.(timeout := S.TimeoutDone);
    t := n3.(stop := S.Locking);
    SessionRuns.DriftsTwo(net, S.StopStep, n1, S.TcpStep(S.Nothing), n2);
    SessionRuns.DriftsTwo(n2, S.TimeoutStep, n3, S.StopStep, t);
    SessionRuns.DriftsThen(net, n2, t);
  }

  /** Stop joins both threads and closes the client, all without another word to the robot. */
  lemma StopsWith(net: S.State) returns (t: S.State)
    requires S.Good(net) && net.running && net.lock.Free? && net.client.connected
    requires net.tcp.TcpTop? && net.timeout.TimeoutTop? && net.stop.Running?
    ensures SessionRuns.Drifts(net, t) && t.stop.Stopped? && !t.client.connected
    ensures t.disconnects == net.disconnects
  {
    var n1 := StopJoins(net);
    SessionRuns.DriftReaches(net, n1);
    SessionRuns.GoodReached(net, n1);
    S.GoodStep(n1, S.StopStep);
    var n2 := S.Step(n1, S.StopStep);
    SessionRuns.DriftsStep(n1, S.StopStep);
    SessionRuns.DriftsThen(net, n1, n2);
    var n :| n >= 5;
    t := SessionRuns.InsideN(n2, n);
    SessionRuns.StopRuns(n2, n);
    SessionRuns.DriftsInside(n2, n);
    SessionRuns.DriftsThen(net, n2, t);
  }

  /** Stop makes no disconnection callback: a robot that was moving still moves when stop has returned. */
  lemma StopLeavesItMoving(timeoutMs: nat, num: nat) returns (t: State)
    requires num >= 1
    ensures ReachesInTurns(Init(timeoutMs, num), t) && t.robot.Valid()
    ensures t.net.stop.Stopped? && !t.net.client.connected && R.IsInMotion(t.robot)
  {
    var s := Init(timeoutMs, num);
    var t1 := PoweredClient(timeoutMs, num);
    var t2 := Commanded(t1, R.TestTrajectory);
    TurnsThen(s, t1, t2);
    var net := StopsWith(t2.net);
    t := TurnsGoOn(t2, net);
    TurnsThen(s, t2, t);
    assert t.robot.groups[0].inMotion;
  }
}
