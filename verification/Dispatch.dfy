/** What the receiving thread answers to each frame, and how the answers read back from the byte stream. */
module Dispatch {
  import opened Wire
  import opened Framing
  import FS = FrameStream

  const PROTOCOL_VERSION: byte := 7

  const MSG_OK: byte := 0x05
  const MSG_ERROR: byte := 0x06
  const MSG_GET_ERROR_INFO: byte := 0x08
  const MSG_REGISTER_UDP_PORT: byte := 0x0B

  type Stamp = s: seq<byte> | |s| == 8 witness [0, 0, 0, 0, 0, 0, 0, 0]

  /** The fixed-size message field of error_payload_t. */
  type Text = s: seq<byte> | |s| == 128 witness seq(128, i => 0)

  /** A command_response_context_t: the header fields that vary, and the payload. */
  datatype Context = Context(kind: byte, stamp: Stamp, payload: seq<byte>)

  type Response = c: Context | |c.payload| < TWO_32 witness Context(MSG_OK, [0, 0, 0, 0, 0, 0, 0, 0], [])

  /** The two sends of send_command_response_context: the header, then the payload if there is one. */
  function Encode(r: Response): (b: seq<byte>)
    ensures |b| == HEADER + |r.payload|
  {
    MAGIC + [PROTOCOL_VERSION, r.kind] + r.stamp + Put32(|r.payload|) + r.payload
  }

  /** The header field by field, as it lies in memory, followed by the payload. */
  lemma EncodedHeader(r: Response)
    ensures var b := Encode(r);
            && b[0] == 0x52 && b[1] == 0x41 && b[2] == 0x49 && b[3] == 0x56 && b[4] == 7 && b[5] == r.kind
            && b[6..14] == r.stamp
            && b[14] as int + 256 * b[15] as int + 65536 * b[16] as int + 16777216 * b[17] as int == |r.payload|
            && b[18..] == r.payload
  {
    var b := Encode(r);
    assert b[14..18] == Put32(|r.payload|);
    assert b[14] == b[14..18][0] && b[15] == b[14..18][1] && b[16] == b[14..18][2] && b[17] == b[14..18][3];
    GetPut32(|r.payload|, b, 14);
  }

  function EncodeAll(rs: seq<Response>): seq<byte> {
    if rs == [] then [] else Encode(rs[0]) + EncodeAll(rs[1..])
  }

  /** What a client reads back, cutting the stream by the length fields alone. */
  function Parse(b: seq<byte>): (r: Option<seq<Response>>)
    decreases |b|
  {
    if b == [] then Some([])
    else if |b| < HEADER || b[..4] != MAGIC || b[4] != PROTOCOL_VERSION then None
    else
      var n := Get32(b, 14);
      if HEADER + n > |b| then None
      else
        var rest := Parse(b[HEADER + n..]);
        if rest.None? then None
        else
          var first: Response := Context(b[5], b[6..14], b[HEADER..HEADER + n]);
          Some([first] + rest.value)
  }

  lemma ParseFirst(r: Response, more: seq<byte>)
    ensures var b := Encode(r) + more;
            && Parse(b) == if Parse(more).None? then None else Some([r] + Parse(more).value)
  {
    var b := Encode(r) + more;
    assert b[14..18] == Put32(|r.payload|);
    GetPut32(|r.payload|, b, 14);
    assert b[..4] == MAGIC && b[4] == PROTOCOL_VERSION && b[5] == r.kind && b[6..14] == r.stamp;
    assert b[HEADER..HEADER + |r.payload|] == r.payload && b[HEADER + |r.payload|..] == more;
  }

  /** The outgoing stream determines the responses, by its own length fields. */
  lemma {:induction false} ParseEncodeAll(rs: seq<Response>)
    ensures Parse(EncodeAll(rs)) == Some(rs)
  {
    if rs != [] {
      ParseEncodeAll(rs[1..]);
      ParseFirst(rs[0], EncodeAll(rs[1..]));
      assert [rs[0]] + rs[1..] == rs;
    }
  }

  lemma {:induction false} EncodeAllAppend(rs: seq<Response>, r: Response)
    ensures EncodeAll(rs + [r]) == EncodeAll(rs) + Encode(r)
  {
    if rs == [] {
      assert [] + [r] == [r];
      assert EncodeAll([r][1..]) == [];
    } else {
      assert (rs + [r])[1..] == rs[1..] + [r];
      EncodeAllAppend(rs[1..], r);
    }
  }

  /** COMMS_VERSION_MISMATCH: 0, 1, 2. */
  datatype Policy = Ignore | Warn | Reject

  /**
    The configured callbacks and the clock. Each callback also gets the number of messages handled before,
    so that its answers may depend on the history. None is a NULL callback or a NULL result.
   */
  datatype Callbacks = Callbacks(
    handleCommand: Option<(nat, seq<byte>, seq<byte>) -> Option<Response>>,
    getErrorInfo: Option<nat -> Option<Response>>,
    mismatchText: byte -> Text,
    clock: nat -> Stamp)

  function Ok(stamp: Stamp): Response {
    Context(MSG_OK, stamp, [])
  }

  /** MSG_ERR_RESPONSE of an error_payload_t with code -1. */
  function Failure(stamp: Stamp, text: Text): Response {
    Context(MSG_ERROR, stamp, Put32(Unsigned32(-1)) + text)
  }

  const NO_TEXT: Text := seq(128, i => 0)

  function UdpPort(payload: seq<byte>): nat
    requires |payload| >= 2
  {
    payload[0] as nat + 256 * payload[1] as nat
  }

  /** A header that read_header accepted and whose payload, if it was asked for, arrived. */
  predicate Accepted(s: Served) {
    s.TooLarge? || s.Message?
  }

  predicate IsRegistration(s: Served) {
    s.Message? && |s.header| == HEADER && s.header[5] == MSG_REGISTER_UDP_PORT
  }

  /** Whether a registration frame's version passes: only the rejecting policy looks. */
  predicate VersionPasses(policy: Policy, payload: seq<byte>) {
    policy == Reject ==> |payload| >= 3 && payload[2] == PROTOCOL_VERSION
  }

  predicate Registers(policy: Policy, s: Served) {
    IsRegistration(s) && |s.payload| >= 2 && VersionPasses(policy, s.payload) && UdpPort(s.payload) > 0
  }

  /** The client is removed after this: no header, a failed payload, or a rejected registration. */
  predicate Closes(policy: Policy, s: Served) {
    Ends(s) || (IsRegistration(s) && |s.payload| >= 2 && !VersionPasses(policy, s.payload))
  }

  /** The response to an accepted header, the n-th message handled. */
  function Answer(policy: Policy, cb: Callbacks, n: nat, s: Served): Response
    requires Accepted(s) && |s.header| == HEADER
  {
    var failed := Failure(cb.clock(n), NO_TEXT);
    if s.TooLarge? then failed
    else if s.header[5] == MSG_REGISTER_UDP_PORT then
      if Registers(policy, s) then Ok(cb.clock(n))
      else if Closes(policy, s) && |s.payload| >= 3 then Failure(cb.clock(n), cb.mismatchText(s.payload[2]))
      else failed
    else
      var r := if s.header[5] == MSG_GET_ERROR_INFO
               then if cb.getErrorInfo.Some? then cb.getErrorInfo.value(n) else None
               else if cb.handleCommand.Some? then cb.handleCommand.value(n, s.header, s.payload) else None;
      if r.Some? then r.value else failed
  }

  // ---- Those definitions, by bytes ----

  /** A registration whose port is accepted: 0x05 without payload; the client stays. */
  ghost predicate Confirmed(policy: Policy, cb: Callbacks, n: nat, header: seq<byte>, payload: seq<byte>)
    requires |header| == HEADER
  {
    var s := Message(header, payload);
    && Registers(policy, s) && !Closes(policy, s)
    && Answer(policy, cb, n, s).kind == 0x05 && Answer(policy, cb, n, s).payload == []
    && Answer(policy, cb, n, s).stamp == cb.clock(n)
  }

  /** A refused one: 0x06 with code -1; `closed` says whether the client is removed. */
  ghost predicate Refused(policy: Policy, cb: Callbacks, n: nat, header: seq<byte>, payload: seq<byte>, closed: bool)
    requires |header| == HEADER
  {
    var s := Message(header, payload);
    && !Registers(policy, s) && Closes(policy, s) == closed
    && Answer(policy, cb, n, s).kind == 0x06 && |Answer(policy, cb, n, s).payload| == 132
    && Answer(policy, cb, n, s).payload[..4] == [255, 255, 255, 255]
    && Answer(policy, cb, n, s).stamp == cb.clock(n)
  }

  lemma FailurePayload(stamp: Stamp, text: Text)
    ensures Failure(stamp, text).kind == 0x06 && Failure(stamp, text).stamp == stamp
    ensures |Failure(stamp, text).payload| == 132
    ensures Failure(stamp, text).payload[..4] == [255, 255, 255, 255] && Failure(stamp, text).payload[4..] == text
  {
    assert Unsigned32(-1) == 0xFFFF_FFFF;
  }

  /**
    What a registration frame comes to, on the policy and the payload's bytes. With two bytes and a port above 0 it is
    confirmed, under the rejecting policy if and only if a third byte is 7; that policy removes the client for any
    other third byte or none. Fewer than two bytes, or port 0, are refused and change nothing.
   */
  lemma RegistrationOutcome(policy: Policy, cb: Callbacks, n: nat, header: seq<byte>, payload: seq<byte>)
    requires |header| == HEADER && header[5] == 0x0B
    ensures |payload| < 2 ==> Refused(policy, cb, n, header, payload, false)
    ensures |payload| >= 2 ==>
              var port := payload[0] as int + 256 * payload[1] as int;
              var versionIs7 := |payload| >= 3 && payload[2] == 7;
              && UdpPort(payload) == port
              && (policy.Reject? && !versionIs7 ==> Refused(policy, cb, n, header, payload, true))
              && ((policy.Reject? ==> versionIs7) && port > 0 ==> Confirmed(policy, cb, n, header, payload))
              && ((policy.Reject? ==> versionIs7) && port == 0 ==> Refused(policy, cb, n, header, payload, false))
    ensures |payload| >= 3 && policy.Reject? && payload[2] != 7 ==>
              Answer(policy, cb, n, Message(header, payload)).payload[4..] == cb.mismatchText(payload[2])
  {
    FailurePayload(cb.clock(n), NO_TEXT);
    if |payload| >= 3 {
      FailurePayload(cb.clock(n), cb.mismatchText(payload[2]));
    }
  }

  /** Port 27655 without a version byte, under each policy. */
  lemma UnversionedRegistration(cb: Callbacks, n: nat, header: seq<byte>)
    requires |header| == HEADER && header[5] == 0x0B
    ensures UdpPort([0x07, 0x6C]) == 27655
    ensures Confirmed(Ignore, cb, n, header, [0x07, 0x6C]) && Confirmed(Warn, cb, n, header, [0x07, 0x6C])
    ensures Refused(Reject, cb, n, header, [0x07, 0x6C], true)
  {
    RegistrationOutcome(Ignore, cb, n, header, [0x07, 0x6C]);
    RegistrationOutcome(Warn, cb, n, header, [0x07, 0x6C]);
    RegistrationOutcome(Reject, cb, n, header, [0x07, 0x6C]);
  }

  /** Any other message: 0x08 asks for the error, the rest goes to the handler, with header and payload; a missing
      callback or result, like an oversized frame, is answered with a failure. None of them removes the client. */
  lemma OtherOutcomes(policy: Policy, cb: Callbacks, n: nat, header: seq<byte>, payload: seq<byte>)
    requires |header| == HEADER && header[5] != 0x0B
    ensures var s, failed := Message(header, payload), Failure(cb.clock(n), NO_TEXT);
            && !Closes(policy, s) && !Registers(policy, s)
            && (header[5] == 0x08 && cb.getErrorInfo.Some? && cb.getErrorInfo.value(n).Some? ==>
                  Answer(policy, cb, n, s) == cb.getErrorInfo.value(n).value)
            && (header[5] == 0x08 && (cb.getErrorInfo.None? || cb.getErrorInfo.value(n).None?) ==>
                  Answer(policy, cb, n, s) == failed)
            && (header[5] != 0x08 && cb.handleCommand.Some? && cb.handleCommand.value(n, header, payload).Some? ==>
                  Answer(policy, cb, n, s) == cb.handleCommand.value(n, header, payload).value)
            && (header[5] != 0x08
                && (cb.handleCommand.None? || cb.handleCommand.value(n, header, payload).None?) ==>
                  Answer(policy, cb, n, s) == failed)
    ensures Answer(policy, cb, n, TooLarge(header)) == Failure(cb.clock(n), NO_TEXT)
  {
  }

  /** What removes the client apart from a registration, and what does not. */
  lemma OtherClosings(policy: Policy, header: seq<byte>)
    ensures Closes(policy, NoHeader) && Closes(policy, PayloadFailed(header))
    ensures !Closes(policy, Ignored) && !Closes(policy, TooLarge(header))
    ensures !Accepted(NoHeader) && !Accepted(PayloadFailed(header)) && !Accepted(Ignored) && Accepted(TooLarge(header))
  {
  }

  ghost predicate WithHeaders(ss: seq<Served>) {
    forall i :: 0 <= i < |ss| && Accepted(ss[i]) ==> |ss[i].header| == HEADER
  }

  /** What the thread serves until the script ends or it removes the client. */
  ghost function Session(policy: Policy, script: Script, errno: bool): (ss: seq<Served>)
    ensures WithHeaders(ss)
    decreases Size(script) + |script|
  {
    if script == [] then []
    else
      var (s, rest, errno') := ServeOnce(script, errno);
      [s] + if Closes(policy, s) then [] else Session(policy, rest, errno')
  }

  /** One answer for each accepted header, in order, and none for anything else. */
  ghost function Answers(policy: Policy, cb: Callbacks, n: nat, ss: seq<Served>): seq<Response>
    requires WithHeaders(ss)
    decreases |ss|
  {
    if ss == [] then []
    else if Accepted(ss[0]) then
      [Answer(policy, cb, n, ss[0])] + Answers(policy, cb, n + 1, ss[1..])
    else Answers(policy, cb, n, ss[1..])
  }

  ghost function Count(ss: seq<Served>): nat {
    if ss == [] then 0 else (if Accepted(ss[0]) then 1 else 0) + Count(ss[1..])
  }

  /** The answer to what was served i-th, if it was accepted, stands behind one answer for each accepted before it. */
  ghost predicate AnsweredInPlace(policy: Policy, cb: Callbacks, n: nat, ss: seq<Served>, rs: seq<Response>, i: nat)
    requires i < |ss| && WithHeaders(ss)
  {
    Accepted(ss[i]) ==>
      var before := Count(ss[..i]);
      before < |rs| && rs[before] == Answer(policy, cb, n + before, ss[i])
  }

  lemma {:induction false} OneAnswerEach(policy: Policy, cb: Callbacks, n: nat, ss: seq<Served>)
    requires WithHeaders(ss)
    ensures |Answers(policy, cb, n, ss)| == Count(ss)
    ensures forall i :: 0 <= i < |ss| ==> AnsweredInPlace(policy, cb, n, ss, Answers(policy, cb, n, ss), i)
    decreases |ss|
  {
    if ss != [] {
      var n' := if Accepted(ss[0]) then n + 1 else n;
      OneAnswerEach(policy, cb, n', ss[1..]);
      forall i | 0 <= i < |ss| ensures AnsweredInPlace(policy, cb, n, ss, Answers(policy, cb, n, ss), i) {
        if i > 0 {
          assert ss[..i][1..] == ss[1..][..i - 1];
          assert AnsweredInPlace(policy, cb, n', ss[1..], Answers(policy, cb, n', ss[1..]), i - 1);
        }
      }
    }
  }

  lemma {:induction false} AnswersAppend(policy: Policy, cb: Callbacks, n: nat, ss: seq<Served>, s: Served)
    requires WithHeaders(ss) && (Accepted(s) ==> |s.header| == HEADER)
    ensures WithHeaders(ss + [s])
    ensures Answers(policy, cb, n, ss + [s])
            == Answers(policy, cb, n, ss) + if Accepted(s) then [Answer(policy, cb, n + Count(ss), s)] else []
    ensures Count(ss + [s]) == Count(ss) + if Accepted(s) then 1 else 0
    decreases |ss|
  {
    if ss == [] {
      assert [] + [s] == [s] && [s][1..] == [];
    } else {
      assert (ss + [s])[1..] == ss[1..] + [s];
      AnswersAppend(policy, cb, if Accepted(ss[0]) then n + 1 else n, ss[1..], s);
    }
  }

  lemma OutGrows(policy: Policy, cb: Callbacks, ss: seq<Served>, s: Served)
    requires WithHeaders(ss) && (Accepted(s) ==> |s.header| == HEADER)
    ensures WithHeaders(ss + [s])
    ensures EncodeAll(Answers(policy, cb, 0, ss + [s]))
            == EncodeAll(Answers(policy, cb, 0, ss))
               + if Accepted(s) then Encode(Answer(policy, cb, Count(ss), s)) else []
    ensures Count(ss + [s]) == Count(ss) + if Accepted(s) then 1 else 0
  {
    AnswersAppend(policy, cb, 0, ss, s);
    EncodeAllMaybe(Answers(policy, cb, 0, ss), if Accepted(s) then [Answer(policy, cb, Count(ss), s)] else []);
  }

  lemma EncodeAllMaybe(rs: seq<Response>, more: seq<Response>)
    requires |more| <= 1
    ensures EncodeAll(rs + more) == EncodeAll(rs) + if more == [] then [] else Encode(more[0])
  {
    if more == [] {
      assert rs + more == rs;
    } else {
      assert more == [more[0]];
      EncodeAllAppend(rs, more[0]);
    }
  }

  lemma SessionGrows(policy: Policy, ss: seq<Served>, script: Script, errno: bool)
    requires script != []
    ensures var (s, rest, errno') := ServeOnce(script, errno);
            ss + Session(policy, script, errno)
            == (ss + [s]) + if Closes(policy, s) then [] else Session(policy, rest, errno')
  {
  }

  // ---- Responses for a list of frames ----

  /** A frame that costs the client its connection: a registration whose version the policy rejects. */
  predicate RejectedVersion(policy: Policy, f: FS.Frame) {
    policy.Reject? && f.Frame? && f.kind == 0x0B && |f.payload| >= 2 && !(|f.payload| >= 3 && f.payload[2] == 7)
  }

  /** The frames through the first one whose version is rejected, or all. */
  function UntilRejected(policy: Policy, fs: seq<FS.Frame>): (r: seq<FS.Frame>)
    ensures r <= fs && ((forall f :: f in fs ==> !RejectedVersion(policy, f)) ==> r == fs)
  {
    if fs == [] then []
    else [fs[0]] + if RejectedVersion(policy, fs[0]) then [] else UntilRejected(policy, fs[1..])
  }

  lemma VerdictCloses(policy: Policy, f: FS.Frame)
    requires f.Valid()
    ensures Closes(policy, FS.Verdict(f)) <==> RejectedVersion(policy, f)
    ensures Accepted(FS.Verdict(f))
  {
    FS.HeaderFields(f);
  }

  lemma {:induction false} SessionServesFrames(policy: Policy, fs: seq<FS.Frame>, script: Script, errno: bool)
    requires FS.AllValid(fs) && FS.Flowing(script) && Bytes(script) == FS.EncodeAll(fs) && FS.HeadersWhole(fs, script)
    ensures FS.AllValid(UntilRejected(policy, fs))
    ensures Session(policy, script, errno) == FS.Messages(UntilRejected(policy, fs))
    decreases |fs|
  {
    if fs == [] {
      assert script != [] ==> Bytes(script) != [];
    } else {
      FS.FirstFrame(fs, script, errno);
      VerdictCloses(policy, fs[0]);
      var rest := FS.Skip(script, HEADER + |fs[0].Body()|);
      SessionServesFrames(policy, fs[1..], rest, errno);
      var more := if RejectedVersion(policy, fs[0]) then [] else UntilRejected(policy, fs[1..]);
      assert ([fs[0]] + more)[1..] == more;
    }
  }

  ghost predicate AllAccepted(ss: seq<Served>) {
    forall i :: 0 <= i < |ss| ==> Accepted(ss[i]) && |ss[i].header| == HEADER
  }

  /** When everything served is accepted, the answers stand side by side with it. */
  lemma {:induction false} AllAnswered(policy: Policy, cb: Callbacks, n: nat, ss: seq<Served>, i: nat)
    requires AllAccepted(ss) && i < |ss|
    ensures WithHeaders(ss) && |Answers(policy, cb, n, ss)| == |ss|
    ensures Answers(policy, cb, n, ss)[i] == Answer(policy, cb, n + i, ss[i])
    decreases |ss|
  {
    if |ss| > 1 {
      AllAnswered(policy, cb, n + 1, ss[1..], if i > 0 then i - 1 else 0);
    } else {
      assert ss[1..] == [];
    }
  }

  lemma VerdictsAccepted(policy: Policy, fs: seq<FS.Frame>)
    requires FS.AllValid(fs)
    ensures AllAccepted(FS.Messages(fs))
  {
    forall i | 0 <= i < |fs| ensures Accepted(FS.Messages(fs)[i]) && |FS.Messages(fs)[i].header| == HEADER {
      VerdictCloses(policy, fs[i]);
    }
  }

  lemma VerdictsAnswered(policy: Policy, cb: Callbacks, fs: seq<FS.Frame>, i: nat)
    requires FS.AllValid(fs)
    ensures WithHeaders(FS.Messages(fs)) && |Answers(policy, cb, 0, FS.Messages(fs))| == |fs|
    ensures i < |fs| ==>
              fs[i].Valid() && Answers(policy, cb, 0, FS.Messages(fs))[i] == Answer(policy, cb, i, FS.Verdict(fs[i]))
  {
    VerdictsAccepted(policy, fs);
    if fs == [] {
      assert Answers(policy, cb, 0, FS.Messages(fs)) == [];
    } else {
      AllAnswered(policy, cb, 0, FS.Messages(fs), if i < |fs| then i else 0);
    }
  }

  /**
    For every list of frames, oversized headers among them, that arrive with their headers whole: as many responses as
    the list is long, or as it takes to the first frame whose version is rejected, and the i-th is the answer to
    the i-th frame.
   */
  lemma EveryFrameAnswered(policy: Policy, cb: Callbacks, fs: seq<FS.Frame>, script: Script, errno: bool, i: nat)
    requires FS.AllValid(fs) && FS.Flowing(script) && Bytes(script) == FS.EncodeAll(fs) && FS.HeadersWhole(fs, script)
    ensures var rs, served := Answers(policy, cb, 0, Session(policy, script, errno)), UntilRejected(policy, fs);
            && |rs| == |served| && (policy != Reject ==> |rs| == |fs|)
            && (i < |served| ==> fs[i].Valid() && rs[i] == Answer(policy, cb, i, FS.Verdict(fs[i])))
  {
    var served := UntilRejected(policy, fs);
    SessionServesFrames(policy, fs, script, errno);
    VerdictsAnswered(policy, cb, served, i);
    if policy != Reject {
      assert served == fs;
    }
  }

  /** What the bytes sent and the count of answers say of what was served. */
  ghost predicate Reported(policy: Policy, cb: Callbacks, served: seq<Served>, out: seq<byte>, answered: nat) {
    && WithHeaders(served)
    && out == EncodeAll(Answers(policy, cb, 0, served)) && answered == Count(served)
  }

  lemma ReportedMore(policy: Policy, cb: Callbacks, served: seq<Served>, s: Served, out: seq<byte>, out': seq<byte>,
                     answered: nat, answered': nat)
    requires Reported(policy, cb, served, out, answered) && (Accepted(s) ==> |s.header| == HEADER)
    requires out' == out + if Accepted(s) then Encode(Answer(policy, cb, answered, s)) else []
    requires answered' == answered + if Accepted(s) then 1 else 0
    ensures Reported(policy, cb, served + [s], out', answered')
  {
    OutGrows(policy, cb, served, s);
  }

  lemma ReportedMeans(policy: Policy, cb: Callbacks, served: seq<Served>, out: seq<byte>, answered: nat)
    requires Reported(policy, cb, served, out, answered)
    ensures Parse(out) == Some(Answers(policy, cb, 0, served))
    ensures answered == Count(served) == |Answers(policy, cb, 0, served)|
    ensures forall i :: 0 <= i < |served| ==> AnsweredInPlace(policy, cb, 0, served, Answers(policy, cb, 0, served), i)
  {
    ParseEncodeAll(Answers(policy, cb, 0, served));
    OneAnswerEach(policy, cb, 0, served);
  }

  /** The thread's view of its client: the bytes sent to it, its registration, and whether it was removed. */
  class ClientThread {
    const policy: Policy
    const callbacks: Callbacks
    var out: seq<byte>
    var open: bool
    var answered: nat
    var udpPort: nat
    var udpRegistered: bool

    constructor (policy: Policy, callbacks: Callbacks)
      ensures this.policy == policy && this.callbacks == callbacks
      ensures out == [] && open && answered == 0 && udpPort == 0 && !udpRegistered
    {
      this.policy, this.callbacks := policy, callbacks;
      out, open, answered, udpPort, udpRegistered := [], true, 0, 0, false;
    }

    method Send(r: Response)
      modifies this`out, this`answered
      ensures out == old(out) + Encode(r) && answered == old(answered) + 1
    {
      out := out + MAGIC + [PROTOCOL_VERSION, r.kind] + r.stamp + Put32(|r.payload|);
      if r.payload != [] {
        out := out + r.payload;
      }
      answered := answered + 1;
    }

    method Register(header: seq<byte>, payload: seq<byte>)
      requires |header| == HEADER && header[5] == MSG_REGISTER_UDP_PORT
      modifies this
      ensures var s := Message(header, payload);
              && out == old(out) + Encode(Answer(policy, callbacks, old(answered), s))
              && answered == old(answered) + 1
              && open == (old(open) && !Closes(policy, s))
              && udpRegistered == (old(udpRegistered) || Registers(policy, s))
              && udpPort == (if Registers(policy, s) then UdpPort(payload) else old(udpPort))
      ensures |payload| >= 2 && payload[0] as int + 256 * payload[1] as int > 0
              && (policy.Reject? ==> |payload| >= 3 && payload[2] == 7) ==>
                && open == old(open) && udpRegistered && udpPort == payload[0] as int + 256 * payload[1] as int
                && out == old(out) + [0x52, 0x41, 0x49, 0x56, 7, 0x05] + callbacks.clock(old(answered)) + [0, 0, 0, 0]
      ensures |payload| >= 2 && policy.Reject? && !(|payload| >= 3 && payload[2] == 7) ==>
                && !open && udpRegistered == old(udpRegistered) && udpPort == old(udpPort)
                && exists text: Text :: out == old(out) + Encode(Failure(callbacks.clock(old(answered)), text))
      ensures |payload| < 2
              || (payload[0] == payload[1] == 0 && (policy.Reject? ==> |payload| >= 3 && payload[2] == 7)) ==>
                && open == old(open) && udpRegistered == old(udpRegistered) && udpPort == old(udpPort)
                && out == old(out) + Encode(Failure(callbacks.clock(old(answered)), NO_TEXT))
    {
      ghost var before := out;
      RegistrationOutcome(policy, callbacks, answered, header, payload);
      var failed := Failure(callbacks.clock(answered), NO_TEXT);
      if |payload| >= 2 {
        if policy != Ignore {
          if |payload| >= 3 {
            if payload[2] != PROTOCOL_VERSION {
              if policy == Reject {
                Send(Failure(callbacks.clock(answered), callbacks.mismatchText(payload[2])));
                open := false;
                return;
              }
            }
          } else if policy == Reject {
            Send(failed);
            open := false;
            return;
          }
        }
        var port := UdpPort(payload);
        if port > 0 {
          udpPort := port;
          udpRegistered := true;
          Send(Ok(callbacks.clock(answered)));
        } else {
          Send(failed);
        }
      } else {
        Send(failed);
      }
    }

    /** The loop body after the frame has been read. */
    method Handle(s: Served)
      requires Accepted(s) ==> |s.header| == HEADER
      modifies this
      ensures out == old(out) + if Accepted(s) then Encode(Answer(policy, callbacks, old(answered), s)) else []
      ensures answered == old(answered) + if Accepted(s) then 1 else 0
      ensures open == (old(open) && !Closes(policy, s))
      ensures udpRegistered == (old(udpRegistered) || Registers(policy, s))
      ensures udpPort == if Registers(policy, s) then UdpPort(s.payload) else old(udpPort)
    {
      match s
      case NoHeader => open := false;
      case Ignored =>
      case TooLarge(_) => Send(Failure(callbacks.clock(answered), NO_TEXT));
      case PayloadFailed(_) => open := false;
      case Message(header, payload) =>
        if header[5] == MSG_REGISTER_UDP_PORT {
          Register(header, payload);
        } else {
          var failed := Failure(callbacks.clock(answered), NO_TEXT);
          var r: Option<Response> := None;
          if header[5] == MSG_GET_ERROR_INFO {
            if callbacks.getErrorInfo.Some? {
              r := callbacks.getErrorInfo.value(answered);
            }
          } else if callbacks.handleCommand.Some? {
            r := callbacks.handleCommand.value(answered, header, payload);
          }
          if r.Some? {
            Send(r.value);
          } else {
            Send(failed);
          }
        }
    }

    /**
      Serving a client to the end: the bytes sent parse, by their own length fields, into exactly one response
      for each accepted header whose payload could be read, in order.
     */
    method ServeClient(connection: Connection) returns (ghost served: seq<Served>)
      requires out == [] && open && answered == 0
      modifies this, connection
      ensures served == Session(policy, old(connection.script), old(connection.errnoAgain))
      ensures Parse(out) == Some(Answers(policy, callbacks, 0, served))
      ensures answered == Count(served) == |Answers(policy, callbacks, 0, served)|
      ensures forall i :: 0 <= i < |served| ==>
                AnsweredInPlace(policy, callbacks, 0, served, Answers(policy, callbacks, 0, served), i)
      ensures open ==> connection.script == []
    {
      served := [];
      ghost var all := Session(policy, connection.script, connection.errnoAgain);
      while open && connection.script != []
        invariant Reported(policy, callbacks, served, out, answered)
        invariant all == served + if open then Session(policy, connection.script, connection.errnoAgain) else []
        decreases Size(connection.script) + |connection.script|, open
      {
        SessionGrows(policy, served, connection.script, connection.errnoAgain);
        ghost var before, count := out, answered;
        var s := connection.ServeNext();
        Handle(s);
        ReportedMore(policy, callbacks, served, s, before, out, count, answered);
        served := served + [s];
      }
      ReportedMeans(policy, callbacks, served, out, answered);
    }
  }
}
