/**
  Goals, groups and motion: the state machine of tests/protocol/mock_robot.c over whole runs of commands.

  A command that a state refuses changes nothing, so every list of commands is a run.
 */
module GoalMachine {
  import opened Wire
  import opened MoveGoal

  const MAX_GROUPS: nat := 5

  datatype GoalState = Pending | Active | Succeeded | Cancelled | Aborted

  datatype Group = Group(trajectoryActive: bool, inMotion: bool, stored: Option<seq<byte>>, storedSize: nat,
                         goalId: int32, state: GoalState, progress: real, startTime: int)
  {
    predicate Live() {
      goalId != 0 && (state.Pending? || state.Active?)
    }

    predicate Busy() {
      inMotion || Live()
    }

    predicate Terminal() {
      state.Succeeded? || state.Cancelled? || state.Aborted?
    }
  }

  /** A group after memset. */
  const IDLE: Group := Group(false, false, None, 0, 0, Pending, 0.0, 0)

  datatype Robot = Robot(num: nat, servo: bool, groups: seq<Group>) {
    predicate Valid() {
      num <= MAX_GROUPS == |groups|
    }
  }

  /** What rand() may give a new goal: a positive int32_t. */
  type GoalId = i: int | 0 < i < 0x8000_0000 witness 1

  /** What the framing layer hands over. */
  type Payload = b: seq<byte> | |b| <= MAX_PAYLOAD

  /** The clock as an update reads it, once for each group. */
  type Readings = s: seq<int> | |s| == MAX_GROUPS witness [0, 0, 0, 0, 0]

  /** `beyond` is the word past the payload's end, as in FromPayload; ids and clock readings are inputs. */
  datatype Command =
    | PowerOn
    | TestTrajectory
    | SendGoal(payload: Payload, beyond: uint32, id: GoalId, now: int)
    | Cancel(goal: int)
    | StopOne(group: int)
    | StopAll
    | Disconnect
    | Tick(clocks: Readings)

  function Init(num: nat): (r: Robot)
    ensures r.Valid()
  {
    Robot(Min(num, MAX_GROUPS), false, seq(MAX_GROUPS, i => IDLE))
  }

  // ---- What happens to one group ----

  /** mock_robot_stop_group: unconditional. */
  function Halted(g: Group): Group {
    g.(inMotion := false, trajectoryActive := false, state := if g.Live() then Aborted else g.state)
  }

  /** The body of the loop in mock_robot_stop_motion. */
  function Swept(g: Group): Group {
    if g.Busy() then Halted(g) else g
  }

  /** The body of the loop in mock_robot_update_goal_progress. */
  function Advanced(g: Group, now: int): Group {
    if g.goalId == 0 || !g.state.Active? then g
    else
      var progress := (now - g.startTime) as real / 1000.0;
      if progress >= 1.0 then
        g.(progress := 1.0, state := Succeeded, inMotion := false, trajectoryActive := false)
      else g.(progress := progress)
  }

  // ---- Commands ----

  /** The first group that holds the id, or the number of groups. */
  function Find(r: Robot, id: int): (k: nat)
    requires r.Valid()
    ensures k <= r.num && (k < r.num ==> r.groups[k].goalId == id)
    ensures forall j :: 0 <= j < k ==> r.groups[j].goalId != id
  {
    FindFrom(r, id, 0)
  }

  function FindFrom(r: Robot, id: int, i: nat): (k: nat)
    requires r.Valid() && i <= r.num
    ensures i <= k <= r.num && (k < r.num ==> r.groups[k].goalId == id)
    ensures forall j :: i <= j < k ==> r.groups[j].goalId != id
    decreases r.num - i
  {
    if i == r.num || r.groups[i].goalId == id then i else FindFrom(r, id, i + 1)
  }

  /** Whether a move goal is taken: the payload is sound, the servo is on, the group exists and is free. */
  predicate Accepts(r: Robot, payload: Payload, beyond: uint32)
    requires r.Valid()
  {
    && FromPayload(payload, beyond) && r.servo
    && Get32(payload, 4) < r.num && !r.groups[Get32(payload, 4)].Live()
  }

  predicate Cancels(r: Robot, id: int)
    requires r.Valid()
  {
    Find(r, id) < r.num && (r.groups[Find(r, id)].state.Pending? || r.groups[Find(r, id)].state.Active?)
  }

  function Put(r: Robot, k: nat, g: Group): Robot
    requires r.Valid() && k < MAX_GROUPS
  {
    r.(groups := r.groups[k := g])
  }

  /** Every configured group, given its index. */
  function Each(r: Robot, f: (nat, Group) -> Group): (s: Robot)
    requires r.Valid()
    ensures s.Valid() && s.num == r.num && s.servo == r.servo
    ensures forall k :: 0 <= k < MAX_GROUPS ==> s.groups[k] == if k < r.num then f(k, r.groups[k]) else r.groups[k]
  {
    r.(groups := seq(MAX_GROUPS, k requires 0 <= k < MAX_GROUPS =>
                                   if k < r.num then f(k, r.groups[k]) else r.groups[k]))
  }

  /** The loop of mock_robot_stop_motion. */
  function SweptAll(r: Robot): (s: Robot)
    requires r.Valid()
    ensures s.Valid() && s.num == r.num && s.servo == r.servo
    ensures forall k :: 0 <= k < MAX_GROUPS ==> s.groups[k] == if k < r.num then Swept(r.groups[k]) else r.groups[k]
  {
    Each(r, (k, g) => Swept(g))
  }

  /** The loop of mock_robot_update_goal_progress. */
  function AdvancedAll(r: Robot, clocks: Readings): (s: Robot)
    requires r.Valid()
    ensures s.Valid() && s.num == r.num && s.servo == r.servo
    ensures forall k :: 0 <= k < MAX_GROUPS ==>
              s.groups[k] == if k < r.num then Advanced(r.groups[k], clocks[k]) else r.groups[k]
  {
    Each(r, (k: nat, g: Group) => if k < |clocks| then Advanced(g, clocks[k]) else g)
  }

  function Step(r: Robot, c: Command): (s: Robot)
    requires r.Valid()
    ensures s.Valid() && s.num == r.num
  {
    match c
    case PowerOn => r.(servo := true)
    case TestTrajectory =>
      if r.servo then Put(r, 0, r.groups[0].(trajectoryActive := true, inMotion := true)) else r
    case SendGoal(payload, beyond, id, now) =>
      if Accepts(r, payload, beyond) then
        var copy := StoredCopy(payload, beyond);
        Put(r, Get32(payload, 4), Group(true, true, Some(copy), |copy|, id, Active, 0.0, now))
      else r
    case Cancel(id) =>
      if Cancels(r, id) then
        var k := Find(r, id);
        Put(r, k, r.groups[k].(state := Cancelled, inMotion := false, trajectoryActive := false))
      else r
    case StopOne(k) => if 0 <= k < r.num then Put(r, k, Halted(r.groups[k])) else r
    case StopAll => SweptAll(r)
    case Disconnect => SweptAll(r)
    case Tick(clocks) => AdvancedAll(r, clocks)
  }

  function Run(r: Robot, cs: seq<Command>): (s: Robot)
    requires r.Valid()
    ensures s.Valid() && s.num == r.num
    decreases |cs|
  {
    if cs == [] then r else Run(Step(r, cs[0]), cs[1..])
  }

  // ---- What every run keeps ----

  /** The stored copy of some payload that the validator accepted. */
  ghost predicate Kept(copy: seq<byte>) {
    exists payload: Payload, beyond: uint32 :: FromPayload(payload, beyond) && StoredCopy(payload, beyond) == copy
  }

  ghost predicate GroupOk(r: Robot, k: nat)
    requires r.Valid() && k < MAX_GROUPS
  {
    var g := r.groups[k];
    && g.inMotion == g.trajectoryActive
    && (g.inMotion ==> r.servo && (g.state.Active? || k == 0))
    && g.goalId >= 0
    && (g.goalId == 0 ==> (g.state.Pending? || g.state.Cancelled?) && g.stored.None?)
    && (g.goalId != 0 ==>
          && !g.state.Pending? && k < r.num
          && g.stored.Some? && g.storedSize == |g.stored.value| && Kept(g.stored.value))
    && (g.state.Active? ==> g.inMotion)
  }

  ghost predicate Ok(r: Robot) {
    r.Valid() && forall k :: 0 <= k < MAX_GROUPS ==> GroupOk(r, k)
  }

  lemma OkStep(r: Robot, c: Command)
    requires Ok(r)
    ensures Ok(Step(r, c))
  {
    var s := Step(r, c);
    forall k | 0 <= k < MAX_GROUPS ensures GroupOk(s, k) {
      assert GroupOk(r, k);
    }
  }

  lemma {:induction false} OkRun(r: Robot, cs: seq<Command>)
    requires Ok(r)
    ensures Ok(Run(r, cs))
    decreases |cs|
  {
    if cs != [] {
      OkStep(r, cs[0]);
      OkRun(Step(r, cs[0]), cs[1..]);
    }
  }

  /**
    After every run of commands, in every group: motion and an active trajectory go together; a goal that was
    accepted is never pending; and an active goal means motion, servo power and a stored copy of its payload.
   */
  lemma GroupsAlwaysOk(num: nat, cs: seq<Command>, k: nat)
    requires k < MAX_GROUPS
    ensures var r := Run(Init(num), cs);
            var g := r.groups[k];
            && g.inMotion == g.trajectoryActive
            && (g.goalId != 0 ==> !g.state.Pending? && g.goalId > 0)
            && (g.state.Active? ==> g.goalId != 0 && g.inMotion && r.servo)
            && (g.goalId != 0 ==> g.stored.Some? && g.storedSize == |g.stored.value| && Kept(g.stored.value))
  {
    OkRun(Init(num), cs);
    assert GroupOk(Run(Init(num), cs), k);
  }

  /** A stored copy that holds all that its own counts ask for; the echo reads past the end of any other. */
  predicate Whole(copy: seq<byte>) {
    && |copy| >= HEADER_SIZE
    && ToleranceOffset(Get32(copy, 8)) + 4 <= |copy|
    && |copy| == CalcSize(Get32(copy, 8), Get32(copy, ToleranceOffset(Get32(copy, 8))))
  }

  /**
    Which stored copies have the size their counts ask for: those of payloads whose trajectory count is within
    the validator's bound, and they are whole goals, equal to their own encoding.
   */
  lemma KeptIsGoal(payload: Payload, beyond: uint32)
    ensures FromPayload(payload, beyond) ==>
              var copy, traj := StoredCopy(payload, beyond), Get32(payload, 8);
              && (|copy| == CalcSize(traj, ToleranceWord(payload, beyond)) <==> traj <= MAX_COUNT)
              && (Whole(copy) <==> traj <= MAX_COUNT)
              && (traj <= MAX_COUNT ==>
                    && Complete(payload) && copy == CopyOf(payload) && Complete(copy)
                    && Decode(copy) == Decode(payload) && Decode(copy).Valid() && copy == Encode(Decode(copy)))
  {
    if FromPayload(payload, beyond) {
      var traj := Get32(payload, 8);
      if traj <= MAX_COUNT {
        AcceptedIsComplete(payload, beyond);
        AcceptedIsEncoded(payload, beyond);
        CopyOfEncoded(Decode(payload), payload, beyond);
        EncodedFields(Decode(payload), CopyOf(payload));
      } else {
        assert |StoredCopy(payload, beyond)| <= MAX_PAYLOAD < CalcSize(traj, ToleranceWord(payload, beyond));
      }
    }
  }

  /** The copy a group stores is whole exactly when its own trajectory count is within the bound, after every run. */
  lemma StoredGoalsAreWhole(num: nat, cs: seq<Command>, k: nat)
    requires k < MAX_GROUPS && Run(Init(num), cs).groups[k].stored.Some?
    ensures var copy := Run(Init(num), cs).groups[k].stored.value;
            && (Whole(copy) <==> |copy| >= HEADER_SIZE && Get32(copy, 8) <= MAX_COUNT)
            && (Whole(copy) ==> Complete(copy) && Decode(copy).Valid() && copy == Encode(Decode(copy)))
  {
    GroupsAlwaysOk(num, cs, k);
    OkRun(Init(num), cs);
    assert GroupOk(Run(Init(num), cs), k);
    var copy := Run(Init(num), cs).groups[k].stored.value;
    var payload: Payload, beyond: uint32 :| FromPayload(payload, beyond) && StoredCopy(payload, beyond) == copy;
    KeptIsGoal(payload, beyond);
    if |copy| >= HEADER_SIZE {
      assert copy[8] == payload[8] && copy[9] == payload[9] && copy[10] == payload[10] && copy[11] == payload[11];
    }
  }

  /** A payload of 144 bytes for group 0 with a count of 16,268,816 points. */
  function WrappedPayload(): (b: seq<byte>)
    ensures |b| == 144 && Get32(b, 4) == 0 && Get32(b, 8) == WRAPPED_COUNT
  {
    var b := Put32(0) + Put32(0) + Put32(WRAPPED_COUNT) + seq(132, i => 0);
    assert b[4..8] == Put32(0) && b[8..12] == Put32(WRAPPED_COUNT);
    GetPut32(0, b, 4);
    GetPut32(WRAPPED_COUNT, b, 8);
    b
  }

  /** The other side is reachable: with a zero word past its end that payload is stored, and the copy is not whole. */
  lemma StoredCopyNotWhole(num: nat, id: GoalId, now: int)
    requires num >= 1
    ensures var r := Run(Init(num), [PowerOn, SendGoal(WrappedPayload(), 0, id, now)]);
            && r.groups[0].state == Active && r.groups[0].goalId == id
            && r.groups[0].stored == Some(WrappedPayload()) && r.groups[0].storedSize == 144
            && !Whole(r.groups[0].stored.value)
  {
    var b := WrappedPayload();
    SmallFrameForManyPoints();
    assert ToleranceWord(b, 0) == 0 && FromPayload(b, 0);
    assert CalcSize(WRAPPED_COUNT, 0) == TWO_32 + 144;
    assert StoredCopy(b, 0) == b[..144] == b;
    RunOfTwo(Init(num), PowerOn, SendGoal(b, 0, id, now));
  }

  lemma RunOfTwo(r: Robot, c: Command, d: Command)
    requires r.Valid()
    ensures Run(r, [c, d]) == Step(Step(r, c), d)
  {
    assert [c, d][1..] == [d] && [d][1..] == [];
    assert Run(Step(r, c), [d]) == Run(Step(Step(r, c), d), []);
  }

  /** A group leaves a terminal state only by accepting a new goal, in any state of the robot. */
  lemma TerminalUntilAccepted(r: Robot, c: Command, k: nat)
    requires r.Valid() && k < MAX_GROUPS && r.groups[k].Terminal()
    ensures var g, g' := r.groups[k], Step(r, c).groups[k];
            if c.SendGoal? && Accepts(r, c.payload, c.beyond) && Get32(c.payload, 4) == k
            then g'.state == Active && g'.goalId == c.id
            else g'.state == g.state && g'.goalId == g.goalId && g'.stored == g.stored
  {
  }

  /**
    Who may write what of a group that takes no goal now: id, stored copy and start are left alone, progress is
    written by updates only, and only a test trajectory can set a resting group moving.
   */
  lemma FieldWriters(r: Robot, c: Command, k: nat)
    requires r.Valid() && k < MAX_GROUPS
    requires !(c.SendGoal? && Accepts(r, c.payload, c.beyond) && Get32(c.payload, 4) == k)
    ensures var g, g' := r.groups[k], Step(r, c).groups[k];
            && g'.goalId == g.goalId && g'.stored == g.stored && g'.storedSize == g.storedSize
            && g'.startTime == g.startTime && (g'.progress == g.progress || c.Tick?)
            && (g'.inMotion ==> g.inMotion || (c.TestTrajectory? && r.servo && k == 0))
            && (g'.state == g.state || c.Cancel? || c.StopOne? || c.StopAll? || c.Disconnect? || c.Tick?)
  {
  }

  // ---- A live goal is never displaced ----

  /** In any state and by any command: a group with a live goal keeps the goal, its stored copy and its start. */
  lemma LiveGoalKept(r: Robot, c: Command, k: nat)
    requires r.Valid() && k < MAX_GROUPS && r.groups[k].Live()
    ensures var g, g' := r.groups[k], Step(r, c).groups[k];
            && g'.goalId == g.goalId && g'.stored == g.stored && g'.storedSize == g.storedSize
            && g'.startTime == g.startTime && (g'.state == g.state || g'.Terminal())
  {
  }

  /** The group still holds the goal, and it has come or comes to a terminal state before anything else. */
  predicate FinishesFirst(r: Robot, cs: seq<Command>, k: nat, id: int)
    requires r.Valid() && k < MAX_GROUPS
    decreases |cs|
  {
    && r.groups[k].goalId == id
    && (r.groups[k].Terminal() || (cs != [] && FinishesFirst(Step(r, cs[0]), cs[1..], k, id)))
  }

  /** Over whole runs: a live goal's group gets another id only after the goal has ended. */
  lemma {:induction false} IdChangesAfterTheEnd(r: Robot, cs: seq<Command>, k: nat)
    requires r.Valid() && k < MAX_GROUPS && r.groups[k].Live()
    ensures Run(r, cs).groups[k].goalId == r.groups[k].goalId || FinishesFirst(r, cs, k, r.groups[k].goalId)
    decreases |cs|
  {
    if cs != [] {
      LiveGoalKept(r, cs[0], k);
      if Step(r, cs[0]).groups[k].Live() {
        IdChangesAfterTheEnd(Step(r, cs[0]), cs[1..], k);
      }
    }
  }

  /** A goal is refused without any change: without power, for a missing group, a live one, or a bad payload. */
  lemma GoalRefused(r: Robot, payload: Payload, beyond: uint32, id: GoalId, now: int)
    requires r.Valid()
    requires || !FromPayload(payload, beyond) || !r.servo || Get32(payload, 4) >= r.num
             || r.groups[Get32(payload, 4)].Live()
    ensures Step(r, SendGoal(payload, beyond, id, now)) == r
  {
  }

  /** And accepted otherwise: it is active at once, with nothing done yet. */
  lemma GoalTaken(r: Robot, payload: Payload, beyond: uint32, id: GoalId, now: int)
    requires r.Valid() && r.servo && FromPayload(payload, beyond)
    requires Get32(payload, 4) < r.num && !r.groups[Get32(payload, 4)].Live()
    ensures var g := Step(r, SendGoal(payload, beyond, id, now)).groups[Get32(payload, 4)];
            && g.goalId == id && g.state == Active && g.progress == 0.0 && g.startTime == now
            && g.inMotion && g.trajectoryActive && g.stored.Some? && g.stored.value <= payload
            && g.storedSize == |g.stored.value|
            && |g.stored.value| == CalcSize(Get32(payload, 8), ToleranceWord(payload, beyond)) % TWO_32
  {
  }

  /** Until power is switched on nothing moves and no goal is taken; afterwards power stays on. */
  lemma {:induction false} NothingWithoutPower(r: Robot, cs: seq<Command>, k: nat)
    requires r.Valid() && k < MAX_GROUPS
    ensures r.servo ==> Run(r, cs).servo
    ensures !r.servo && PowerOn !in cs ==> !Run(r, cs).servo
    ensures !r.servo && PowerOn !in cs && !r.groups[k].inMotion && r.groups[k].goalId == 0 ==>
              !Run(r, cs).groups[k].inMotion && Run(r, cs).groups[k].goalId == 0
    decreases |cs|
  {
    if cs != [] {
      NothingWithoutPower(Step(r, cs[0]), cs[1..], k);
    }
  }

  /** So a robot that was just set up does nothing before PowerOn, and a test trajectory moves group 0 after it. */
  lemma FreshRobot(num: nat, cs: seq<Command>, k: nat)
    requires k < MAX_GROUPS
    ensures Init(num).num == (if num <= 5 then num else 5) && !Init(num).servo
    ensures Init(num).groups[k] == Group(false, false, None, 0, 0, Pending, 0.0, 0)
    ensures PowerOn !in cs ==> !Run(Init(num), cs).groups[k].inMotion && Run(Init(num), cs).groups[k].goalId == 0
    ensures Step(Step(Init(num), PowerOn), TestTrajectory).groups[0].inMotion
  {
    NothingWithoutPower(Init(num), cs, k);
  }

  // ---- Stop-all, is-in-motion and the status bit field ----

  predicate IsInMotion(r: Robot)
    requires r.Valid()
  {
    exists k :: 0 <= k < r.num && r.groups[k].inMotion
  }

  /** What mock_robot_stop_motion returns. */
  predicate StopAllAnswer(r: Robot)
    requires r.Valid()
  {
    exists k :: 0 <= k < r.num && r.groups[k].Busy()
  }

  predicate Bit(mask: bv8, k: nat)
    requires k < 8
  {
    (mask >> k) & 1 == 1
  }

  /** The in_motion byte of the robot status, group by group. */
  function MotionMask(groups: seq<Group>, n: nat): bv8
    requires n <= |groups| && n <= 8
  {
    if n == 0 then 0
    else MotionMask(groups, n - 1) | if groups[n - 1].inMotion then 1 << (n - 1) else 0
  }

  lemma SetBit(mask: bv8, k: nat, j: nat)
    requires k < 8 && j < 8
    ensures Bit(mask | (1 << k), j) <==> Bit(mask, j) || j == k
  {
    assert k == 0 || k == 1 || k == 2 || k == 3 || k == 4 || k == 5 || k == 6 || k == 7;
    assert j == 0 || j == 1 || j == 2 || j == 3 || j == 4 || j == 5 || j == 6 || j == 7;
  }

  lemma NoBits(mask: bv8)
    ensures mask == 0 <==> forall j :: 0 <= j < 8 ==> !Bit(mask, j)
  {
    if mask != 0 {
      assert Bit(mask, 0) || Bit(mask, 1) || Bit(mask, 2) || Bit(mask, 3)
          || Bit(mask, 4) || Bit(mask, 5) || Bit(mask, 6) || Bit(mask, 7);
    }
  }

  lemma NoNewBit(mask: bv8)
    ensures mask | 0 == mask
  {
  }

  lemma {:induction false} MaskBits(groups: seq<Group>, n: nat, j: nat)
    requires n <= |groups| && n <= 8 && j < 8
    ensures Bit(MotionMask(groups, n), j) <==> j < n && groups[j].inMotion
    decreases n
  {
    if n > 0 {
      var mask := MotionMask(groups, n - 1);
      MaskBits(groups, n - 1, j);
      SetBit(mask, n - 1, j);
      NoNewBit(mask);
      assert MotionMask(groups, n) == if groups[n - 1].inMotion then mask | (1 << (n - 1)) else mask;
    }
  }

  /**
    After every run: stop-all answers what is-in-motion would have answered; the status byte says so too, group
    by group; and once everything is stopped, or the client has gone, both say that nothing moves.
   */
  lemma MotionReportsAgree(num: nat, cs: seq<Command>, stop: Command)
    requires stop.StopAll? || stop.Disconnect?
    ensures var r := Run(Init(num), cs);
            && (StopAllAnswer(r) <==> IsInMotion(r))
            && (MotionMask(r.groups, r.num) != 0 <==> IsInMotion(r))
            && (forall k :: 0 <= k < 8 ==> (Bit(MotionMask(r.groups, r.num), k) <==> k < r.num && r.groups[k].inMotion))
            && !IsInMotion(Step(r, stop)) && MotionMask(Step(r, stop).groups, r.num) == 0
  {
    OkRun(Init(num), cs);
    var r := Run(Init(num), cs);
    forall k | 0 <= k < r.num ensures r.groups[k].Busy() <==> r.groups[k].inMotion {
      assert GroupOk(r, k);
    }
    MaskSaysMotion(r);
    MaskSaysMotion(Step(r, stop));
  }

  lemma MaskSaysMotion(r: Robot)
    requires r.Valid()
    ensures forall k :: 0 <= k < 8 ==> (Bit(MotionMask(r.groups, r.num), k) <==> k < r.num && r.groups[k].inMotion)
    ensures MotionMask(r.groups, r.num) != 0 <==> IsInMotion(r)
  {
    var mask := MotionMask(r.groups, r.num);
    forall k | 0 <= k < 8 ensures Bit(mask, k) <==> k < r.num && r.groups[k].inMotion {
      MaskBits(r.groups, r.num, k);
    }
    NoBits(mask);
    if IsInMotion(r) {
      var k :| 0 <= k < r.num && r.groups[k].inMotion;
      assert Bit(mask, k);
    }
  }

  // ---- Independence of the groups ----

  /** The commands that are meant for no group in particular. */
  predicate Global(c: Command) {
    c.PowerOn? || c.StopAll? || c.Disconnect? || c.Tick?
  }

  /** The group a command acts on, in the state it arrives in. */
  function Addressee(r: Robot, c: Command): (k: Option<nat>)
    requires r.Valid()
    ensures k.Some? ==> k.value < MAX_GROUPS && !Global(c)
  {
    match c
    case TestTrajectory => Some(0)
    case SendGoal(payload, _, _, _) =>
      if |payload| >= HEADER_SIZE && Get32(payload, 4) < r.num then Some(Get32(payload, 4)) else None
    case Cancel(id) => if Find(r, id) < r.num then Some(Find(r, id)) else None
    case StopOne(k) => if 0 <= k < r.num then Some(k) else None
    case _ => None
  }

  predicate Concerns(r: Robot, c: Command, g: nat)
    requires r.Valid()
  {
    Global(c) || Addressee(r, c) == Some(g)
  }

  /** In any state of the robot, a command for one group leaves every other group as it is. */
  lemma OthersUntouched(r: Robot, c: Command, g: nat)
    requires r.Valid() && g < MAX_GROUPS && !Concerns(r, c, g)
    ensures Step(r, c).groups[g] == r.groups[g]
  {
  }

  /** The commands of a run that are global or reach group g. */
  function Keep(r: Robot, cs: seq<Command>, g: nat): seq<Command>
    requires r.Valid()
    decreases |cs|
  {
    if cs == [] then []
    else (if Concerns(r, cs[0], g) then [cs[0]] else []) + Keep(Step(r, cs[0]), cs[1..], g)
  }

  /** Cancelled although it never held a goal: what a cancel of goal 0 does to a group. */
  predicate CancelledIdle(g: Group) {
    g.goalId == 0 && g.state.Cancelled?
  }

  /** The whole run and the run of group g alone, seen from group g. */
  ghost predicate Alike(whole: Robot, alone: Robot, g: nat) {
    && Ok(whole) && alone.Valid() && alone.num == whole.num && alone.servo == whole.servo && g < whole.num
    && (forall j :: 0 <= j < MAX_GROUPS && j != g ==> alone.groups[j].goalId == 0)
    && alone.groups[g] == if g > 0 && CancelledIdle(whole.groups[g]) then whole.groups[g].(state := Pending)
                          else whole.groups[g]
  }

  /** A cancel that reaches group g in the whole run reaches it alone as well, but for goal 0. */
  lemma CancelAlike(whole: Robot, alone: Robot, id: int, g: nat)
    requires Alike(whole, alone, g) && Find(whole, id) == g
    ensures Find(alone, id) == if id == 0 then 0 else g
  {
    assert alone.groups[g].goalId == id;
  }

  lemma AlikeKept(whole: Robot, alone: Robot, c: Command, g: nat)
    requires Alike(whole, alone, g) && Concerns(whole, c, g)
    ensures Alike(Step(whole, c), Step(alone, c), g)
  {
    OkStep(whole, c);
    assert GroupOk(whole, g);
    if c.Cancel? {
      CancelAlike(whole, alone, c.goal, g);
    }
  }

  lemma AlikeDropped(whole: Robot, alone: Robot, c: Command, g: nat)
    requires Alike(whole, alone, g) && !Concerns(whole, c, g)
    ensures Alike(Step(whole, c), alone, g)
  {
    OkStep(whole, c);
    OthersUntouched(whole, c, g);
  }

  lemma {:induction false} AlikeRun(whole: Robot, alone: Robot, cs: seq<Command>, g: nat)
    requires Alike(whole, alone, g)
    ensures Alike(Run(whole, cs), Run(alone, Keep(whole, cs, g)), g)
    decreases |cs|
  {
    if cs != [] {
      var c, rest := cs[0], Keep(Step(whole, cs[0]), cs[1..], g);
      if Concerns(whole, c, g) {
        assert ([c] + rest)[1..] == rest;
        AlikeKept(whole, alone, c, g);
        AlikeRun(Step(whole, c), Step(alone, c), cs[1..], g);
      } else {
        assert [] + rest == rest;
        AlikeDropped(whole, alone, c, g);
        AlikeRun(Step(whole, c), alone, cs[1..], g);
      }
    }
  }

  lemma IndependentUnlessIdleCancelled(num: nat, cs: seq<Command>, g: nat)
    requires g < Init(num).num
    ensures var whole, alone := Run(Init(num), cs), Run(Init(num), Keep(Init(num), cs, g));
            && whole.servo == alone.servo
            && (whole.groups[g] == alone.groups[g] <==> g == 0 || !CancelledIdle(whole.groups[g]))
  {
    AlikeRun(Init(num), Init(num), cs, g);
  }

  /** Some cancel of goal 0 finds group g, and no goal is accepted by g after it. */
  predicate IdleCancelled(r: Robot, cs: seq<Command>, g: nat)
    requires r.Valid()
    decreases |cs|
  {
    cs != []
    && ((cs[0] == Cancel(0) && Find(r, 0) == g && NoGoalFor(Step(r, cs[0]), cs[1..], g))
        || IdleCancelled(Step(r, cs[0]), cs[1..], g))
  }

  lemma {:induction false} IdleCancelledMeans(r: Robot, cs: seq<Command>, g: nat)
    requires Ok(r) && g < r.num
    ensures CancelledIdle(Run(r, cs).groups[g])
            <==> (CancelledIdle(r.groups[g]) && NoGoalFor(r, cs, g)) || IdleCancelled(r, cs, g)
    decreases |cs|
  {
    if cs != [] {
      var s := Step(r, cs[0]);
      OkStep(r, cs[0]);
      assert GroupOk(r, g);
      IdleCancelledMeans(s, cs[1..], g);
      CancelledIdleStep(r, cs[0], g);
    }
  }

  lemma CancelledIdleStep(r: Robot, c: Command, g: nat)
    requires Ok(r) && g < r.num
    ensures CancelledIdle(Step(r, c).groups[g])
            <==> (CancelledIdle(r.groups[g]) && !AcceptsFor(r, c, g)) || (c == Cancel(0) && Find(r, 0) == g)
  {
    assert GroupOk(r, g);
  }

  /**
    Group independence, exactly: group g ends every run as it ends the run of the commands that concern it, unless
    it is not the first group and a cancel of goal 0 finds it, with no goal accepted by it afterwards.
   */
  lemma GroupIndependence(num: nat, cs: seq<Command>, g: nat)
    requires g < Init(num).num
    ensures var whole, alone := Run(Init(num), cs), Run(Init(num), Keep(Init(num), cs, g));
            && whole.servo == alone.servo
            && (whole.groups[g] == alone.groups[g] <==> g == 0 || !IdleCancelled(Init(num), cs, g))
  {
    IndependentUnlessIdleCancelled(num, cs, g);
    IdleCancelledMeans(Init(num), cs, g);
  }

  lemma {:induction false} NoneCancelsZero(r: Robot, cs: seq<Command>, g: nat)
    requires r.Valid() && forall c :: c in cs && c.Cancel? ==> c.goal != 0
    ensures !IdleCancelled(r, cs, g)
    decreases |cs|
  {
    if cs != [] {
      NoneCancelsZero(Step(r, cs[0]), cs[1..], g);
    }
  }

  /** So with one group, or when no command cancels goal 0, the groups are independent of each other. */
  lemma GroupsAreIndependent(num: nat, cs: seq<Command>, g: nat)
    requires g < Init(num).num
    requires Init(num).num == 1 || forall c :: c in cs && c.Cancel? ==> c.goal != 0
    ensures Run(Init(num), cs).groups[g] == Run(Init(num), Keep(Init(num), cs, g)).groups[g]
  {
    GroupIndependence(num, cs, g);
    if Init(num).num > 1 {
      NoneCancelsZero(Init(num), cs, g);
    }
  }

  /** A goal of one point. */
  ghost function OnePoint(group: uint32): Goal {
    Goal(6, group, [seq(POINT_SIZE, i => 0)], [])
  }

  lemma OnePointIsAccepted(group: uint32, beyond: uint32)
    ensures OnePoint(group).Valid() && |Encode(OnePoint(group))| == 280
    ensures FromPayload(Encode(OnePoint(group)), beyond) && Get32(Encode(OnePoint(group)), 4) == group
  {
    EncodedLength(OnePoint(group));
    EncodeRoundTrip(OnePoint(group), Encode(OnePoint(group)), beyond);
    EncodedFields(OnePoint(group), Encode(OnePoint(group)));
  }

  /** Sending a goal of one point to a free group of a powered robot starts it. */
  lemma OnePointStarts(r: Robot, group: nat, id: GoalId, now: int) returns (c: Command)
    requires r.Valid() && r.servo && group < r.num && !r.groups[group].Live()
    ensures c.SendGoal? && OnePoint(group).Valid() && c.payload == Encode(OnePoint(group)) && c.id == id
    ensures var g := Step(r, c).groups[group]; g.goalId == id && g.state == Active && g.inMotion
    ensures Step(r, c).servo && forall k :: 0 <= k < MAX_GROUPS && k != group ==> Step(r, c).groups[k] == r.groups[k]
  {
    OnePointIsAccepted(group, 0);
    c := SendGoal(Encode(OnePoint(group)), 0, id, now);
  }

  /**
    Goal 0 is really shared: while group 0 runs a goal, cancelling goal 0 reaches group 1, which never had one;
    group 1's own run, which keeps that cancel, leaves it alone.
   */
  lemma GoalZeroIsShared(num: nat, id: GoalId, now: int) returns (cs: seq<Command>)
    requires num >= 2
    ensures |cs| == 3 && cs[0] == PowerOn && cs[2] == Cancel(0)
    ensures cs[1].SendGoal? && OnePoint(0).Valid() && cs[1].payload == Encode(OnePoint(0))
    ensures Run(Init(num), cs).groups[0].goalId == id && Run(Init(num), cs).groups[0].state == Active
    ensures Run(Init(num), cs).groups[1].state == Cancelled
    ensures Run(Init(num), Keep(Init(num), cs, 1)).groups[1].state == Pending
  {
    var r0 := Init(num);
    var r1 := Step(r0, PowerOn);
    var send := OnePointStarts(r1, 0, id, now);
    var r2 := Step(r1, send);
    cs := [PowerOn, send, Cancel(0)];
    assert cs[1..] == [send, Cancel(0)];
    RunOfTwo(r1, send, Cancel(0));
    assert Run(r0, cs) == Step(r2, Cancel(0));
    assert r2.groups[0].goalId == id && r2.groups[1] == IDLE;
    assert Find(r2, 0) == 1;
    AlikeRun(r0, r0, cs, 1);
  }

  /** Cancelling a live goal stops its own group exactly if no earlier group holds the id, even of an old goal. */
  lemma CancelReaches(num: nat, cs: seq<Command>, g: nat)
    requires g < Init(num).num && Run(Init(num), cs).groups[g].Live()
    ensures var r := Run(Init(num), cs);
            var s := Step(r, Cancel(r.groups[g].goalId));
            if forall j :: 0 <= j < g ==> r.groups[j].goalId != r.groups[g].goalId
            then s.groups[g].state == Cancelled && !s.groups[g].inMotion
            else s.groups[g] == r.groups[g]
  {
    var r := Run(Init(num), cs);
    var id := r.groups[g].goalId;
    if forall j :: 0 <= j < g ==> r.groups[j].goalId != id {
      assert Find(r, id) == g;
    }
  }

  /**
    The shield is real: group 0 has held goal `id` and was stopped, group 1 then runs a goal that drew the same id,
    and cancelling it changes nothing at all.
   */
  lemma StaleIdShields(num: nat, id: GoalId, now: int) returns (cs: seq<Command>)
    requires num >= 2
    ensures |cs| == 4 && cs[0] == PowerOn && cs[2] == StopOne(0) && cs[1].SendGoal? && cs[3].SendGoal?
    ensures var r := Run(Init(num), cs);
            && r.groups[0].goalId == id && r.groups[0].state == Aborted
            && r.groups[1].goalId == id && r.groups[1].state == Active && r.groups[1].inMotion
            && Step(r, Cancel(id)) == r
  {
    var r1 := Step(Init(num), PowerOn);
    var first := StoppedHolder(r1, id, now);
    var r3 := Step(Step(r1, first), StopOne(0));
    var second := OnePointStarts(r3, 1, id, now);
    cs := [PowerOn, first, StopOne(0), second];
    RunOfFour(Init(num), PowerOn, first, StopOne(0), second);
    FirstHolderShields(Step(r3, second), id);
  }

  /** Group 0 is given a goal and stopped. */
  lemma StoppedHolder(r: Robot, id: GoalId, now: int) returns (c: Command)
    requires r.Valid() && r.servo && r.num > 0 && !r.groups[0].Live()
    ensures c.SendGoal?
    ensures var s := Step(Step(r, c), StopOne(0));
            && s.servo && s.groups[0].goalId == id && s.groups[0].state == Aborted
            && forall k :: 0 < k < MAX_GROUPS ==> s.groups[k] == r.groups[k]
  {
    c := OnePointStarts(r, 0, id, now);
  }

  lemma RunOfFour(r: Robot, c0: Command, c1: Command, c2: Command, c3: Command)
    requires r.Valid()
    ensures Run(r, [c0, c1, c2, c3]) == Step(Step(Step(Step(r, c0), c1), c2), c3)
  {
    var cs := [c0, c1, c2, c3];
    assert cs[1..][1..] == [c2, c3];
    assert Run(r, cs) == Run(Step(r, c0), cs[1..]) == Run(Step(Step(r, c0), c1), cs[1..][1..]);
    RunOfTwo(Step(Step(r, c0), c1), c2, c3);
  }

  lemma FirstHolderShields(r: Robot, id: int)
    requires r.Valid() && r.num > 0 && r.groups[0].goalId == id && r.groups[0].Terminal()
    ensures Step(r, Cancel(id)) == r
  {
    assert Find(r, id) == 0;
  }

  // ---- Echo ----

  /** What ECHO_TRAJECTORY answers: the stored trajectory of group 0. */
  function Echo(r: Robot): Option<seq<byte>>
    requires r.Valid()
  {
    if r.num == 0 then None else r.groups[0].stored
  }

  predicate AcceptsFor(r: Robot, c: Command, g: nat)
    requires r.Valid()
  {
    c.SendGoal? && Accepts(r, c.payload, c.beyond) && Get32(c.payload, 4) == g
  }

  /** No command of the run is a goal that group g accepts. */
  predicate NoGoalFor(r: Robot, cs: seq<Command>, g: nat)
    requires r.Valid()
    decreases |cs|
  {
    cs == [] || (!AcceptsFor(r, cs[0], g) && NoGoalFor(Step(r, cs[0]), cs[1..], g))
  }

  lemma {:induction false} StoredUntilReplaced(r: Robot, cs: seq<Command>, g: nat)
    requires r.Valid() && g < MAX_GROUPS && NoGoalFor(r, cs, g)
    ensures Run(r, cs).groups[g].stored == r.groups[g].stored
    decreases |cs|
  {
    if cs != [] {
      StoredUntilReplaced(Step(r, cs[0]), cs[1..], g);
    }
  }

  /**
    A goal for group 0, encoded with anything after it and accepted, is echoed as its encoding alone, until
    the group accepts another one.
   */
  lemma GoalIsEchoed(r: Robot, goal: Goal, c: Command, cs: seq<Command>)
    requires r.Valid() && c.SendGoal? && goal.Valid() && Encode(goal) <= c.payload && goal.group == 0
    requires r.servo && r.num > 0 && !r.groups[0].Live()
    requires NoGoalFor(Step(r, c), cs, 0)
    ensures var echoed := Echo(Run(Step(r, c), cs));
            && echoed == Some(Encode(goal)) && Complete(echoed.value) && Decode(echoed.value) == goal
            && FromPayload(echoed.value, c.beyond)
  {
    EncodedFields(goal, c.payload);
    EncodeRoundTrip(goal, c.payload, c.beyond);
    CopyOfEncoded(goal, c.payload, c.beyond);
    KeptIsGoal(c.payload, c.beyond);
    assert AcceptsFor(r, c, 0);
    StoredUntilReplaced(Step(r, c), cs, 0);
  }

  // ---- The life of one goal ----

  /** No command of the run reaches group g, but for the progress updates and power on. */
  predicate LeftAlone(r: Robot, cs: seq<Command>, g: nat)
    requires r.Valid()
    decreases |cs|
  {
    cs == []
    || ((cs[0].Tick? || cs[0].PowerOn? || !Concerns(r, cs[0], g)) && LeftAlone(Step(r, cs[0]), cs[1..], g))
  }

  /** Some update of the run reads, for group g, a clock at least a second after `start`, in milliseconds. */
  predicate Due(cs: seq<Command>, start: int, g: nat)
    requires g < MAX_GROUPS
  {
    cs != [] && ((cs[0].Tick? && cs[0].clocks[g] >= start + 1000) || Due(cs[1..], start, g))
  }

  lemma {:induction false} FinishedStays(r: Robot, cs: seq<Command>, g: nat)
    requires r.Valid() && g < r.num && LeftAlone(r, cs, g) && r.groups[g].state.Succeeded?
    ensures Run(r, cs).groups[g] == r.groups[g]
    decreases |cs|
  {
    if cs != [] {
      FinishedStays(Step(r, cs[0]), cs[1..], g);
    }
  }

  lemma {:induction false} SucceedsWhenDue(r: Robot, cs: seq<Command>, g: nat)
    requires r.Valid() && g < r.num && LeftAlone(r, cs, g)
    requires r.groups[g].goalId != 0 && r.groups[g].state.Active? && r.groups[g].inMotion
    ensures var g', due := Run(r, cs).groups[g], Due(cs, r.groups[g].startTime, g);
            && g'.goalId == r.groups[g].goalId && g'.state == (if due then Succeeded else Active)
            && g'.inMotion == !due && (due ==> g'.progress == 1.0 && !g'.trajectoryActive)
    decreases |cs|
  {
    if cs != [] {
      var s := Step(r, cs[0]);
      if s.groups[g].state.Succeeded? {
        FinishedStays(s, cs[1..], g);
      } else {
        SucceedsWhenDue(s, cs[1..], g);
      }
    }
  }

  /**
    An accepted goal that is left alone succeeds with the first update a second or more after it was accepted,
    and its group moves exactly until then, whatever happens to the other groups.
   */
  lemma GoalSucceedsWhenDue(r: Robot, c: Command, cs: seq<Command>, g: nat)
    requires r.Valid() && g < r.num && AcceptsFor(r, c, g) && LeftAlone(Step(r, c), cs, g)
    ensures var g', due := Run(Step(r, c), cs).groups[g], Due(cs, c.now, g);
            && g'.goalId == c.id && g'.state == (if due then Succeeded else Active)
            && g'.inMotion == !due && (due ==> g'.progress == 1.0)
  {
    SucceedsWhenDue(Step(r, c), cs, g);
  }

  /** The clock that the run's last update reads for group g. */
  function LastReading(cs: seq<Command>, g: nat): Option<int>
    requires g < MAX_GROUPS
  {
    if cs == [] then None
    else if LastReading(cs[1..], g).Some? then LastReading(cs[1..], g)
    else if cs[0].Tick? then Some(cs[0].clocks[g])
    else None
  }

  /** Until it is due, a goal that is left alone reports the time since its start, in seconds, as of the last update. */
  lemma {:induction false} ProgressIsElapsedTime(r: Robot, cs: seq<Command>, g: nat)
    requires r.Valid() && g < r.num && LeftAlone(r, cs, g) && !Due(cs, r.groups[g].startTime, g)
    requires r.groups[g].goalId != 0 && r.groups[g].state.Active?
    ensures var last := LastReading(cs, g);
            Run(r, cs).groups[g].progress
            == if last.Some? then (last.value - r.groups[g].startTime) as real / 1000.0 else r.groups[g].progress
    decreases |cs|
  {
    if cs != [] {
      ProgressIsElapsedTime(Step(r, cs[0]), cs[1..], g);
    }
  }

  /** After any run, each way of stopping group g leaves it at rest and aborts just the goal that was live. */
  lemma StoppingAborts(num: nat, cs: seq<Command>, stop: Command, g: nat)
    requires g < Init(num).num
    requires stop.StopAll? || stop.Disconnect? || stop == StopOne(g)
    ensures var before, after := Run(Init(num), cs).groups[g], Step(Run(Init(num), cs), stop).groups[g];
            && !after.Busy() && !after.trajectoryActive
            && after.state == (if before.Live() then Aborted else before.state)
            && after.goalId == before.goalId && after.stored == before.stored
            && after.storedSize == before.storedSize && after.progress == before.progress
            && after.startTime == before.startTime
  {
    OkRun(Init(num), cs);
    assert GroupOk(Run(Init(num), cs), g);
  }
}
