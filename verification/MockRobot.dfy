/** The mock robot as its C code keeps it: an array of groups that every operation updates in place. */
module MockRobot {
  import opened Wire
  import opened MoveGoal
  import opened GoalMachine
  import Dispatch

  const MSG_TEST_TRAJECTORY_COMMAND: byte := 0x01
  const MSG_TURN_SERVO_POWER_ON: byte := 0x02
  const MSG_HEARTBEAT: byte := 0x03
  const MSG_TEST_ERROR_COMMAND: byte := 0x07
  const MSG_RESET_ERRORS: byte := 0x0C
  const MSG_MOVE_GOAL: byte := 0x0D
  const MSG_ECHO_TRAJECTORY: byte := 0x0E
  const MSG_SET_MOTION_MODE: byte := 0x0F
  const MSG_IS_IN_MOTION: byte := 0x10
  const MSG_STOP_MOTION: byte := 0x11
  const MSG_GOAL_ACCEPTED: byte := 0x12
  const MSG_GOAL_STATUS: byte := 0x13
  const MSG_CANCEL_GOAL: byte := 0x14
  const MSG_GET_GOAL_STATUS: byte := 0x15
  const MSG_CHECK_GROUP: byte := 0x19
  const MSG_GET_CAPABILITIES: byte := 0x1A

  /** GROUP_ID_ALL */
  const ALL_GROUPS: int := -1

  /** The type and payload of a response context. */
  datatype Reply = Reply(kind: byte, payload: seq<byte>)

  const OK: Reply := Reply(Dispatch.MSG_OK, [])

  /** MSG_ERR_RESPONSE of an int32_t. */
  function Failed(code: int32): Reply {
    Reply(Dispatch.MSG_ERROR, Put32(Unsigned32(code)))
  }

  const FAILED: Reply := Failed(-1)

  /** The bytes of a uint32_t field. */
  type Word = b: seq<byte> | |b| == 4 witness [0, 0, 0, 0]

  /**
    What a message depends on besides the robot and its payload: the word past the payload's end, the id drawn,
    the clock for the goal and for the reply, how a double is laid out, the bytes that the goal status leaves
    unset, the capabilities, and what an echo reads past the end of a copy that is not whole.
   */
  datatype Inputs = Inputs(beyond: uint32, draw: GoalId, now: int, stamp: Dispatch.Stamp,
                           double: real -> Dispatch.Stamp, queueSize: Word, abortCode: Word, abortText: Dispatch.Text,
                           capabilities: Reply, partialEcho: Reply)

  function StateCode(state: GoalState): byte {
    match state
    case Pending => 0
    case Active => 1
    case Succeeded => 2
    case Cancelled => 3
    case Aborted => 4
  }

  /** goal_status_payload_t */
  function Status(g: Group, inputs: Inputs): (b: seq<byte>)
    ensures |b| == 157
  {
    Put32(Unsigned32(g.goalId)) + inputs.queueSize
    + inputs.double(g.progress) + inputs.stamp + inputs.abortCode + [StateCode(g.state)] + inputs.abortText
  }

  function Truth(value: bool): seq<byte> {
    [if value then 1 else 0]
  }

  /** The comparison of a signed index with the number of groups. */
  function CheckGroup(num: nat, payload: Payload): Reply
    requires |payload| == 4
  {
    Reply(MSG_CHECK_GROUP, Truth(Signed32(Get32(payload, 0)) < num))
  }

  /** The reply says whether the group exists exactly when the index is not negative; any negative one is confirmed. */
  lemma CheckGroupIsExact(num: nat, payload: Payload)
    requires |payload| == 4
    ensures var k := Signed32(Get32(payload, 0));
            && (CheckGroup(num, payload) == Reply(MSG_CHECK_GROUP, Truth(0 <= k < num)) <==> k >= 0)
            && (k < 0 ==> CheckGroup(num, payload) == Reply(MSG_CHECK_GROUP, [1]))
  {
    assert [0 as byte] != [1 as byte] by {
      assert [0 as byte][0] != [1 as byte][0];
    }
  }

  /** Group -5 of a robot with any number of groups. */
  lemma NegativeGroupConfirmed(num: nat)
    ensures CheckGroup(num, Put32(Unsigned32(-5))) == Reply(MSG_CHECK_GROUP, [1])
  {
    var payload := Put32(Unsigned32(-5));
    assert payload[0..4] == payload;
    GetPut32(Unsigned32(-5), payload, 0);
    CheckGroupIsExact(num, payload);
  }

  /** What a message and its inputs amount to, if it is one that touches goals, groups or motion. */
  function CommandOf(kind: byte, payload: Payload, inputs: Inputs): Option<Command> {
    if kind == MSG_TURN_SERVO_POWER_ON then Some(PowerOn)
    else if kind == MSG_TEST_TRAJECTORY_COMMAND then Some(TestTrajectory)
    else if kind == MSG_MOVE_GOAL then Some(SendGoal(payload, inputs.beyond, inputs.draw, inputs.now))
    else if kind == MSG_STOP_MOTION && |payload| == 4 then
      var k := Signed32(Get32(payload, 0));
      Some(if k == ALL_GROUPS then StopAll else StopOne(k))
    else if kind == MSG_CANCEL_GOAL && |payload| == 4 then Some(Cancel(Signed32(Get32(payload, 0))))
    else None
  }

  function After(r: Robot, c: Option<Command>): Robot
    requires r.Valid()
  {
    if c.Some? then Step(r, c.value) else r
  }

  // ---- Those definitions, by numbers and bytes ----

  /** Which message has which effect; every other one has none on goals, groups or motion. */
  lemma EffectOf(kind: byte, payload: Payload, inputs: Inputs)
    ensures var c := CommandOf(kind, payload, inputs);
            && (kind == 0x01 ==> c == Some(TestTrajectory))
            && (kind == 0x02 ==> c == Some(PowerOn))
            && (kind == 0x0D ==> c == Some(SendGoal(payload, inputs.beyond, inputs.draw, inputs.now)))
            && (kind == 0x11 && |payload| == 4 && payload == [255, 255, 255, 255] ==> c == Some(StopAll))
            && (kind == 0x11 && |payload| == 4 && payload[1..] == [0, 0, 0] ==> c == Some(StopOne(payload[0] as int)))
            && (kind == 0x14 && |payload| == 4 ==>
                  c.Some? && c.value.Cancel? && Put32(Unsigned32(c.value.goal)) == payload)
            && ((kind == 0x11 || kind == 0x14) && |payload| != 4 ==> c == None)
            && (kind !in {0x01, 0x02, 0x0D, 0x11, 0x14} ==> c == None)
  {
    if |payload| == 4 {
      PutGet32(payload, 0);
      assert payload[0..4] == payload;
      SignBack(Get32(payload, 0));
      if payload[1..] == [0, 0, 0] {
        assert payload[1] == payload[1..][0] && payload[2] == payload[1..][1] && payload[3] == payload[1..][2];
      }
    }
  }

  lemma SignBack(x: uint32)
    ensures Unsigned32(Signed32(x)) == x
  {
  }

  lemma ReplyBytes()
    ensures OK == Reply(0x05, []) && FAILED == Reply(0x06, [255, 255, 255, 255])
    ensures Failed(-42) == Reply(0x06, [214, 255, 255, 255])
    ensures Truth(true) == [1] && Truth(false) == [0]
  {
    assert Unsigned32(-1) == 0xFFFF_FFFF && Unsigned32(-42) == 0xFFFF_FFD6;
  }

  /** The goal status field by field: id, progress and clock, and the state's number behind them. */
  lemma StatusFields(g: Group, inputs: Inputs)
    ensures var b := Status(g, inputs);
            && Signed32(Get32(b, 0)) == g.goalId && b[4..8] == inputs.queueSize
            && b[8..16] == inputs.double(g.progress) && b[16..24] == inputs.stamp
            && b[24..28] == inputs.abortCode && b[29..] == inputs.abortText
            && (g.state.Pending? <==> b[28] == 0) && (g.state.Active? <==> b[28] == 1)
            && (g.state.Succeeded? <==> b[28] == 2) && (g.state.Cancelled? <==> b[28] == 3)
            && (g.state.Aborted? <==> b[28] == 4)
  {
    var b := Status(g, inputs);
    assert b[0..4] == Put32(Unsigned32(g.goalId));
    GetPut32(Unsigned32(g.goalId), b, 0);
  }

  class MockRobot {
    const groups: array<Group>
    var num: nat
    var servo: bool

    ghost function Value(): Robot
      reads this, groups
    {
      Robot(num, servo, groups[..])
    }

    /** mock_robot_init_multi; mock_robot_init is the case of one group. */
    constructor (numGroups: nat)
      ensures fresh(groups) && Value() == Init(numGroups)
    {
      groups := new Group[MAX_GROUPS](i => IDLE);
      num := if numGroups <= MAX_GROUPS then numGroups else MAX_GROUPS;
      servo := false;
    }

    method TurnServoPowerOn()
      requires Value().Valid()
      modifies this`servo
      ensures Value() == Step(old(Value()), PowerOn)
    {
      servo := true;
    }

    method StartTrajectory() returns (rc: int)
      requires Value().Valid()
      modifies groups
      ensures Value() == Step(old(Value()), TestTrajectory)
      ensures rc == if old(servo) then 0 else -1
    {
      if servo {
        groups[0] := groups[0].(trajectoryActive := true);
        groups[0] := groups[0].(inMotion := true);
        rc := 0;
      } else {
        rc := -1;
      }
    }

    method InMotion() returns (moving: bool)
      requires Value().Valid()
      ensures moving <==> IsInMotion(Value())
    {
      var i := 0;
      while i < num
        invariant 0 <= i <= num
        invariant forall k :: 0 <= k < i ==> !groups[k].inMotion
      {
        if groups[i].inMotion {
          return true;
        }
        i := i + 1;
      }
      moving := false;
    }

    /** The in_motion byte of mock_robot_get_robot_status. */
    method MotionStatus() returns (mask: bv8)
      requires Value().Valid()
      ensures forall k :: 0 <= k < 8 ==> (Bit(mask, k) <==> k < num && groups[k].inMotion)
      ensures mask == MotionMask(Value().groups, num)
    {
      mask := 0;
      var g := 0;
      while g < num
        invariant 0 <= g <= num
        invariant mask == MotionMask(groups[..], g)
      {
        if groups[g].inMotion {
          mask := mask | (1 << g);
        }
        g := g + 1;
      }
      MaskSaysMotion(Value());
    }

    method StopMotion() returns (stopped: bool)
      requires Value().Valid()
      modifies groups
      ensures Value() == Step(old(Value()), StopAll)
      ensures stopped <==> StopAllAnswer(old(Value()))
    {
      stopped := false;
      ghost var before := Value();
      var i := 0;
      while i < num
        invariant 0 <= i <= num
        invariant forall k :: 0 <= k < MAX_GROUPS ==>
                    groups[k] == if k < i then Swept(before.groups[k]) else before.groups[k]
        invariant stopped <==> exists k :: 0 <= k < i && before.groups[k].Busy()
      {
        var live := groups[i].goalId != 0 && (groups[i].state.Active? || groups[i].state.Pending?);
        if groups[i].inMotion || live {
          groups[i] := groups[i].(inMotion := false);
          groups[i] := groups[i].(trajectoryActive := false);
          if live {
            groups[i] := groups[i].(state := Aborted);
          }
          stopped := true;
        }
        i := i + 1;
      }
      assert groups[..] == SweptAll(before).groups;
    }

    method StopGroup(group: int) returns (stopped: bool)
      requires Value().Valid()
      modifies groups
      ensures Value() == Step(old(Value()), StopOne(group))
      ensures stopped <==> 0 <= group < num
    {
      if group < 0 || group >= num {
        return false;
      }
      groups[group] := groups[group].(inMotion := false);
      groups[group] := groups[group].(trajectoryActive := false);
      if groups[group].goalId != 0 && (groups[group].state.Active? || groups[group].state.Pending?) {
        groups[group] := groups[group].(state := Aborted);
      }
      stopped := true;
    }

    /** The id of the accepted goal, or -1. The payload has passed the validator. */
    method AcceptGoal(payload: Payload, beyond: uint32, draw: GoalId, now: int) returns (goal: int)
      requires Value().Valid() && FromPayload(payload, beyond)
      modifies groups
      ensures Value() == Step(old(Value()), SendGoal(payload, beyond, draw, now))
      ensures goal == if Accepts(old(Value()), payload, beyond) then draw else -1
    {
      if !servo {
        return -1;
      }
      var k := Get32(payload, 4);
      if k >= num {
        return -1;
      }
      if groups[k].goalId != 0 && (groups[k].state.Pending? || groups[k].state.Active?) {
        return -1;
      }
      var required := CopySize(payload, beyond);
      if groups[k].stored.Some? {
        groups[k] := groups[k].(stored := None, storedSize := 0);
      }
      groups[k] := groups[k].(stored := Some(payload[..required]));
      groups[k] := groups[k].(storedSize := required);
      groups[k] := groups[k].(goalId := draw);
      groups[k] := groups[k].(state := Active);
      groups[k] := groups[k].(progress := 0.0);
      groups[k] := groups[k].(startTime := now);
      groups[k] := groups[k].(trajectoryActive := true);
      groups[k] := groups[k].(inMotion := true);
      goal := draw;
    }

    method FindGroupWithGoal(goal: int) returns (k: nat)
      requires Value().Valid()
      ensures k == Find(Value(), goal)
    {
      k := 0;
      while k < num
        invariant 0 <= k <= num
        invariant forall j :: 0 <= j < k ==> groups[j].goalId != goal
      {
        if groups[k].goalId == goal {
          return;
        }
        k := k + 1;
      }
    }

    method CancelGoal(goal: int) returns (rc: int)
      requires Value().Valid()
      modifies groups
      ensures Value() == Step(old(Value()), Cancel(goal))
      ensures rc == if Cancels(old(Value()), goal) then 0 else -1
    {
      var k := FindGroupWithGoal(goal);
      if k == num {
        return -1;
      }
      if !groups[k].state.Pending? && !groups[k].state.Active? {
        return -1;
      }
      groups[k] := groups[k].(state := Cancelled);
      groups[k] := groups[k].(inMotion := false);
      groups[k] := groups[k].(trajectoryActive := false);
      rc := 0;
    }

    /** Reads the clock anew for each goal that it updates. */
    method UpdateGoalProgress(clocks: Readings)
      requires Value().Valid()
      modifies groups
      ensures Value() == Step(old(Value()), Tick(clocks))
    {
      ghost var before := Value();
      var g := 0;
      while g < num
        invariant 0 <= g <= num
        invariant forall k :: 0 <= k < MAX_GROUPS ==>
                    groups[k] == if k < g then Advanced(before.groups[k], clocks[k]) else before.groups[k]
      {
        if groups[g].goalId != 0 && groups[g].state.Active? {
          var elapsed := clocks[g] - groups[g].startTime;
          groups[g] := groups[g].(progress := elapsed as real / 1000.0);
          if groups[g].progress >= 1.0 {
            groups[g] := groups[g].(progress := 1.0);
            groups[g] := groups[g].(state := Succeeded);
            groups[g] := groups[g].(inMotion := false);
            groups[g] := groups[g].(trajectoryActive := false);
          }
        }
        g := g + 1;
      }
      assert groups[..] == AdvancedAll(before, clocks).groups;
    }

    method EchoTrajectory(group: nat) returns (stored: Option<seq<byte>>)
      requires Value().Valid()
      ensures stored == if group < num then groups[group].stored else None
      ensures group == 0 ==> stored == Echo(Value())
    {
      if group >= num {
        return None;
      }
      stored := groups[group].stored;
    }

    method OnDisconnection()
      requires Value().Valid()
      modifies groups
      ensures Value() == Step(old(Value()), Disconnect)
    {
      var _ := StopMotion();
    }

    /** mock_robot_handle_command: the message's effect, and the reply to each kind of message. */
    method HandleCommand(kind: byte, payload: Payload, inputs: Inputs) returns (reply: Reply)
      requires Value().Valid()
      modifies this`servo, groups
      ensures Value() == After(old(Value()), CommandOf(kind, payload, inputs))
      ensures kind == MSG_TURN_SERVO_POWER_ON || kind == MSG_HEARTBEAT || kind == MSG_RESET_ERRORS ==> reply == OK
      ensures kind == MSG_TEST_TRAJECTORY_COMMAND ==> reply == if old(servo) then OK else FAILED
      ensures kind == MSG_TEST_ERROR_COMMAND ==> reply == Failed(-42)
      ensures kind == MSG_MOVE_GOAL ==>
                reply == if Accepts(old(Value()), payload, inputs.beyond)
                         then Reply(MSG_GOAL_ACCEPTED,
                                    Put32(Unsigned32(inputs.draw)) + Put32(Get32(payload, 8)) + inputs.stamp)
                         else FAILED
      ensures kind == MSG_ECHO_TRAJECTORY && Echo(Value()).None? ==> reply == FAILED
      ensures kind == MSG_ECHO_TRAJECTORY && Echo(Value()).Some? ==>
                reply == if Whole(Echo(Value()).value) then Reply(MSG_ECHO_TRAJECTORY, Echo(Value()).value)
                         else inputs.partialEcho
      ensures kind == MSG_SET_MOTION_MODE ==> reply == if |payload| == 1 then OK else FAILED
      ensures kind == MSG_IS_IN_MOTION ==>
                reply == if |payload| == 0 then Reply(MSG_IS_IN_MOTION, Truth(IsInMotion(Value()))) else FAILED
      ensures kind == MSG_STOP_MOTION && |payload| != 4 ==> reply == FAILED
      ensures kind == MSG_STOP_MOTION && |payload| == 4 ==>
                var k := Signed32(Get32(payload, 0));
                reply == Reply(MSG_STOP_MOTION,
                               Truth(if k == ALL_GROUPS then StopAllAnswer(old(Value())) else 0 <= k < num))
      ensures kind == MSG_CANCEL_GOAL ==>
                reply == if |payload| == 4 && Cancels(old(Value()), Signed32(Get32(payload, 0))) then OK else FAILED
      ensures kind == MSG_GET_GOAL_STATUS ==>
                reply == if |payload| == 4 && Find(Value(), Signed32(Get32(payload, 0))) < num
                         then Reply(MSG_GOAL_STATUS,
                                    Status(groups[Find(Value(), Signed32(Get32(payload, 0)))], inputs))
                         else FAILED
      ensures kind == MSG_CHECK_GROUP ==>
                reply == if |payload| == 4 then CheckGroup(num, payload) else FAILED
      ensures kind == MSG_GET_CAPABILITIES ==> reply == inputs.capabilities
      ensures kind !in KNOWN ==> reply == FAILED
    {
      if kind == MSG_TEST_TRAJECTORY_COMMAND {
        var err := StartTrajectory();
        reply := if err != 0 then FAILED else OK;
      } else if kind == MSG_TURN_SERVO_POWER_ON {
        TurnServoPowerOn();
        reply := OK;
      } else if kind == MSG_HEARTBEAT {
        reply := OK;
      } else if kind == MSG_TEST_ERROR_COMMAND {
        reply := Failed(-42);
      } else if kind == MSG_RESET_ERRORS {
        reply := OK;
      } else if kind == MSG_MOVE_GOAL {
        reply := HandleMoveGoal(payload, inputs);
      } else if kind == MSG_ECHO_TRAJECTORY {
        reply := HandleEcho(inputs);
      } else if kind == MSG_SET_MOTION_MODE {
        reply := if |payload| != 1 then FAILED else OK;
      } else if kind == MSG_IS_IN_MOTION {
        if |payload| != 0 {
          return FAILED;
        }
        var moving := InMotion();
        reply := Reply(MSG_IS_IN_MOTION, Truth(moving));
      } else if kind == MSG_STOP_MOTION {
        if |payload| != 4 {
          return FAILED;
        }
        reply := HandleStop(Signed32(Get32(payload, 0)));
      } else if kind == MSG_CANCEL_GOAL {
        if |payload| != 4 {
          return FAILED;
        }
        var err := CancelGoal(Signed32(Get32(payload, 0)));
        reply := if err != 0 then FAILED else OK;
      } else if kind == MSG_GET_GOAL_STATUS {
        if |payload| != 4 {
          return FAILED;
        }
        var k := FindGroupWithGoal(Signed32(Get32(payload, 0)));
        reply := if k == num then FAILED else Reply(MSG_GOAL_STATUS, Status(groups[k], inputs));
      } else if kind == MSG_CHECK_GROUP {
        reply := if |payload| != 4 then FAILED else CheckGroup(num, payload);
      } else if kind == MSG_GET_CAPABILITIES {
        reply := inputs.capabilities;
      } else {
        reply := FAILED;
      }
    }

    method HandleMoveGoal(payload: Payload, inputs: Inputs) returns (reply: Reply)
      requires Value().Valid()
      modifies groups
      ensures Value() == Step(old(Value()), SendGoal(payload, inputs.beyond, inputs.draw, inputs.now))
      ensures reply == if Accepts(old(Value()), payload, inputs.beyond)
                       then Reply(MSG_GOAL_ACCEPTED,
                                  Put32(Unsigned32(inputs.draw)) + Put32(Get32(payload, 8)) + inputs.stamp)
                       else FAILED
    {
      if !FromPayload(payload, inputs.beyond) {
        return FAILED;
      }
      var goal := AcceptGoal(payload, inputs.beyond, inputs.draw, inputs.now);
      if goal < 0 {
        return FAILED;
      }
      reply := Reply(MSG_GOAL_ACCEPTED, Put32(Unsigned32(goal)) + Put32(Get32(payload, 8)) + inputs.stamp);
    }

    method HandleEcho(inputs: Inputs) returns (reply: Reply)
      requires Value().Valid()
      ensures Echo(Value()).None? ==> reply == FAILED
      ensures Echo(Value()).Some? ==>
                reply == if Whole(Echo(Value()).value) then Reply(MSG_ECHO_TRAJECTORY, Echo(Value()).value)
                         else inputs.partialEcho
    {
      var stored := EchoTrajectory(0);
      if stored.None? {
        return FAILED;
      }
      if !Whole(stored.value) {
        return inputs.partialEcho;
      }
      var size := CalcSize(Get32(stored.value, 8), Get32(stored.value, ToleranceOffset(Get32(stored.value, 8))));
      reply := Reply(MSG_ECHO_TRAJECTORY, stored.value[..size]);
    }

    method HandleStop(group: int) returns (reply: Reply)
      requires Value().Valid()
      modifies groups
      ensures Value() == Step(old(Value()), if group == ALL_GROUPS then StopAll else StopOne(group))
      ensures reply == Reply(MSG_STOP_MOTION,
                             Truth(if group == ALL_GROUPS then StopAllAnswer(old(Value())) else 0 <= group < num))
    {
      var stopped;
      if group == ALL_GROUPS {
        stopped := StopMotion();
      } else {
        stopped := StopGroup(group);
      }
      reply := Reply(MSG_STOP_MOTION, Truth(stopped));
    }
  }

  const KNOWN: set<byte> := {
    MSG_TEST_TRAJECTORY_COMMAND, MSG_TURN_SERVO_POWER_ON, MSG_HEARTBEAT, MSG_TEST_ERROR_COMMAND, MSG_RESET_ERRORS,
    MSG_MOVE_GOAL, MSG_ECHO_TRAJECTORY, MSG_SET_MOTION_MODE, MSG_IS_IN_MOTION, MSG_STOP_MOTION, MSG_CANCEL_GOAL,
    MSG_GET_GOAL_STATUS, MSG_CHECK_GROUP, MSG_GET_CAPABILITIES
  }
}
