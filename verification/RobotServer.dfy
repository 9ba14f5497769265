/** The client record as the critical sections of robot_protocol.c change it, one section at a time. */
module RobotServer {
  import opened Session
  import opened SessionRuns

  /** The record and the history of a state of the interleaved model. */
  predicate Same(s: State, record: Client, closed: multiset<nat>, connects: nat, disconnects: nat) {
    s.client == record && s.closed == closed && s.connects == connects && s.disconnects == disconnects
  }

  function ClosedWith(closed: multiset<nat>, record: Client): multiset<nat> {
    closed + if record.connected then multiset{record.socket} else multiset{}
  }

  function Removed(record: Client): Client {
    if record.connected then NOBODY else record
  }

  lemma StopAgrees(record: Client, closed: multiset<nat>, connects: nat, disconnects: nat)
    ensures forall s: State, n: nat | Same(s, record, closed, connects, disconnects)
                                      && s.lock == Held(Stopper, StopCheck) && n >= 5 ::
              Same(InsideN(s, n), Removed(record), ClosedWith(closed, record), connects, disconnects)
  {
    forall s: State, n: nat | Same(s, record, closed, connects, disconnects)
                              && s.lock == Held(Stopper, StopCheck) && n >= 5
      ensures Same(InsideN(s, n), Removed(record), ClosedWith(closed, record), connects, disconnects)
    {
      StopRuns(s, n);
    }
  }

  lemma RemoveAgrees(record: Client, closed: multiset<nat>, connects: nat, disconnects: nat)
    ensures forall s: State, h: Thread, n: nat | Same(s, record, closed, connects, disconnects)
                                                 && s.lock == Held(h, RemoveCheck) && !h.Stopper? && n >= 7 ::
              Same(InsideN(s, n), Removed(record), ClosedWith(closed, record), connects,
                   disconnects + if record.connected then 1 else 0)
  {
    forall s: State, h: Thread, n: nat | Same(s, record, closed, connects, disconnects)
                                         && s.lock == Held(h, RemoveCheck) && !h.Stopper? && n >= 7
      ensures Same(InsideN(s, n), Removed(record), ClosedWith(closed, record), connects,
                   disconnects + if record.connected then 1 else 0)
    {
      RemoveRuns(s, h, n);
    }
  }

  /** robot_server_ctx_t, with the sockets closed and the callbacks made. */
  class RobotServer {
    var running: bool
    var socket: nat
    var connected: bool
    var lastCommand: int
    var udpPort: nat
    var udpRegistered: bool
    var closed: multiset<nat>
    var connects: nat
    var disconnects: nat

    ghost function Record(): Client
      reads this
    {
      Client(socket, connected, lastCommand, udpPort, udpRegistered)
    }

    /** The record and the history agree with a state of the interleaved model. */
    ghost predicate Shows(s: State)
      reads this
    {
      Same(s, Record(), closed, connects, disconnects)
    }

    constructor ()
      ensures Record() == NOBODY && !running && closed == multiset{} && connects == disconnects == 0
    {
      running, socket, connected, lastCommand, udpPort, udpRegistered := false, 0, false, 0, 0, false;
      closed, connects, disconnects := multiset{}, 0, 0;
    }

    /** Returns 0 and gives the socket control, or -1 if somebody has it. The caller closes a rejected socket. */
    method AddClient(socket: nat, now: int) returns (rc: int)
      modifies this
      ensures rc == if old(connected) then -1 else 0
      ensures Record() == if old(connected) then old(Record()) else Admitted(socket, now)
      ensures connects == old(connects) + (if old(connected) then 0 else 1) && disconnects == old(disconnects)
      ensures closed == old(closed) && running == old(running)
      ensures forall s: State, n: nat | old(Shows(s)) && s.lock == Held(Tcp, AddCheck(socket))
                                        && now == s.clock.Floor && n >= 7 ::
                Shows(InsideN(s, n)) && InsideN(s, n).tcp == if rc == 0 then Polling else Rejected(socket)
    {
      ghost var before := Record();
      if connected {
        rc := -1;
      } else {
        this.socket := socket;
        lastCommand := now;
        connected := true;
        udpPort := 0;
        udpRegistered := false;
        connects := connects + 1;
        rc := 0;
      }
      forall s: State, n: nat | old(Shows(s)) && s.lock == Held(Tcp, AddCheck(socket)) && now == s.clock.Floor && n >= 7
        ensures Shows(InsideN(s, n)) && InsideN(s, n).tcp == if rc == 0 then Polling else Rejected(socket)
      {
        AddRuns(s, socket, n);
      }
    }

    /** Accepting a socket: it has control afterwards, or it is closed. */
    method Accept(socket: nat, now: int)
      modifies this
      ensures old(connected) ==> Record() == old(Record()) && closed == old(closed) + multiset{socket}
      ensures !old(connected) ==> Record() == Admitted(socket, now) && closed == old(closed)
      ensures connects == old(connects) + (if old(connected) then 0 else 1) && disconnects == old(disconnects)
    {
      var rc := AddClient(socket, now);
      if rc != 0 {
        closed := closed + multiset{socket};
      }
    }

    method RemoveClient()
      modifies this
      ensures Record() == Removed(old(Record())) && closed == ClosedWith(old(closed), old(Record()))
      ensures disconnects == old(disconnects) + (if old(connected) then 1 else 0) && connects == old(connects)
      ensures running == old(running)
      ensures forall s: State, h: Thread, n: nat | old(Shows(s)) && s.lock == Held(h, RemoveCheck)
                                                   && !h.Stopper? && n >= 7 :: Shows(InsideN(s, n))
    {
      RemoveAgrees(Record(), closed, connects, disconnects);
      if connected {
        disconnects := disconnects + 1;
        closed := closed + multiset{socket};
        connected := false;
        udpRegistered := false;
        socket, connected, lastCommand, udpPort, udpRegistered := 0, false, 0, 0, false;
      }
    }

    /** The timeout thread's critical section. It only decides: the mutex is free again before a removal. */
    method CheckIdle(now: int, timeoutMs: nat) returns (expired: bool)
      ensures expired == (connected && Expired(now, lastCommand, timeoutMs))
      ensures forall s: State, seen: real, n: nat | Shows(s) && s.lock == Held(Timeout, IdleCheck(now, seen))
                                                    && s.timeoutMs == timeoutMs && n >= 2 ::
                Shows(InsideN(s, n)) && InsideN(s, n).timeout.TimeoutRemoving? == expired
    {
      expired := false;
      if connected {
        var idle := (now - lastCommand) as real;
        var limit := timeoutMs as real / 1000.0;
        expired := idle > limit;
      }
      forall s: State, seen: real, n: nat | Shows(s) && s.lock == Held(Timeout, IdleCheck(now, seen))
                                            && s.timeoutMs == timeoutMs && n >= 2
        ensures Shows(InsideN(s, n)) && InsideN(s, n).timeout.TimeoutRemoving? == expired
      {
        IdleRuns(s, now, seen, n);
      }
    }

    /** What the other threads make of the record while the mutex is free. */
    method Interfere(record: Client)
      modifies this`socket, this`connected, this`lastCommand, this`udpPort, this`udpRegistered
      ensures Record() == record
    {
      socket, connected, lastCommand := record.socket, record.connected, record.lastCommand;
      udpPort, udpRegistered := record.udpPort, record.udpRegistered;
    }

    /**
      The timeout thread's loop body. `between` is the record as remove_client finds it, whatever the other threads
      did since the check: that client is removed, whoever it is.
     */
    method CheckTimeout(now: int, timeoutMs: nat, between: Client) returns (expired: bool)
      modifies this
      ensures expired == (old(connected) && Expired(now, old(lastCommand), timeoutMs))
      ensures Record() == if expired then Removed(between) else old(Record())
      ensures closed == if expired then ClosedWith(old(closed), between) else old(closed)
      ensures disconnects == old(disconnects) + (if expired && between.connected then 1 else 0)
      ensures connects == old(connects)
    {
      expired := CheckIdle(now, timeoutMs);
      if expired {
        Interfere(between);
        RemoveClient();
      }
    }

    method StoreUdpPort(port: nat)
      modifies this`udpPort, this`udpRegistered
      ensures Record() == old(Record()).(udpPort := port, udpRegistered := true)
    {
      udpPort := port;
      udpRegistered := true;
    }

    /** robot_protocol_stop after both threads are joined: no disconnection callback is made. */
    method Stop()
      modifies this
      ensures !running && Record() == Removed(old(Record())) && closed == ClosedWith(old(closed), old(Record()))
      ensures connects == old(connects) && disconnects == old(disconnects)
      ensures forall s: State, n: nat | old(Shows(s)) && s.lock == Held(Stopper, StopCheck) && n >= 5 ::
                Shows(InsideN(s, n))
    {
      StopAgrees(Record(), closed, connects, disconnects);
      running := false;
      if connected {
        closed := closed + multiset{socket};
        connected := false;
        socket, connected, lastCommand, udpPort, udpRegistered := 0, false, 0, 0, false;
      }
    }
  }
}
