/** Lists of frames sent over a stream, and when the receiving thread recovers exactly that list. */
module FrameStream {
  import opened Wire
  import opened Framing

  /** A frame, or a header alone whose length field is larger than the server takes: no payload goes with it. */
  datatype Frame =
    | Frame(version: byte, kind: byte, stamp: seq<byte>, payload: seq<byte>)
    | Oversized(version: byte, kind: byte, stamp: seq<byte>, length: uint32)
  {
    ghost predicate Valid() {
      |stamp| == 8 && if Frame? then |payload| <= MAX_PAYLOAD else length > MAX_PAYLOAD
    }

    /** The bytes that follow the header. */
    function Body(): seq<byte> {
      if Frame? then payload else []
    }

    ghost function Length(): uint32
      requires Valid()
    {
      if Frame? then |payload| else length
    }
  }

  ghost function HeaderOf(f: Frame): (h: seq<byte>)
    requires f.Valid()
    ensures |h| == HEADER
  {
    MAGIC + [f.version, f.kind] + f.stamp + Put32(f.Length())
  }

  lemma HeaderFields(f: Frame)
    requires f.Valid()
    ensures HeaderOf(f)[..4] == MAGIC && PayloadLength(HeaderOf(f)) == f.Length()
    ensures HeaderOf(f)[4] == f.version && HeaderOf(f)[5] == f.kind && HeaderOf(f)[6..14] == f.stamp
  {
    assert HeaderOf(f)[14..18] == Put32(f.Length());
    GetPut32(f.Length(), HeaderOf(f), 14);
  }

  ghost predicate AllValid(fs: seq<Frame>) {
    forall f :: f in fs ==> f.Valid()
  }

  ghost function EncodeAll(fs: seq<Frame>): seq<byte>
    requires AllValid(fs)
  {
    if fs == [] then [] else HeaderOf(fs[0]) + fs[0].Body() + EncodeAll(fs[1..])
  }

  /** What the thread is to make of a frame: a message with its payload, or a refusal. */
  ghost function Verdict(f: Frame): Served
    requires f.Valid()
  {
    if f.Frame? then Message(HeaderOf(f), f.payload) else TooLarge(HeaderOf(f))
  }

  ghost function Messages(fs: seq<Frame>): (ss: seq<Served>)
    requires AllValid(fs)
    ensures |ss| == |fs| && forall i :: 0 <= i < |fs| ==> ss[i] == Verdict(fs[i])
  {
    if fs == [] then [] else [Verdict(fs[0])] + Messages(fs[1..])
  }

  /** Every recv delivers something: the stream is cut into non-empty pieces, without errors. */
  ghost predicate Flowing(script: Script) {
    forall a :: a in script ==> a.Chunk? && a.data != []
  }

  /** The script after its first n bytes. */
  ghost function Skip(script: Script, n: nat): (rest: Script)
    requires Flowing(script) && n <= |Bytes(script)|
    ensures Flowing(rest) && Bytes(rest) == Bytes(script)[n..]
    decreases |script|
  {
    if n == 0 then script
    else if |script[0].data| <= n then
      assert Flowing(script[1..]);
      Skip(script[1..], n - |script[0].data|)
    else
      SplitChunk(script[0].data, n, script[1..]);
      assert script == [script[0]] + script[1..];
      [Chunk(script[0].data[n..])] + script[1..]
  }

  /** Each frame's header arrives whole: no piece ends inside it. Payloads may be cut anywhere. */
  ghost predicate HeadersWhole(fs: seq<Frame>, script: Script)
    requires AllValid(fs) && Flowing(script) && Bytes(script) == EncodeAll(fs)
    decreases |fs|
  {
    fs != [] ==>
      && script != [] && |script[0].data| >= HEADER
      && HeadersWhole(fs[1..], Skip(script, HEADER + |fs[0].Body()|))
  }

  lemma RecvOfFlowing(script: Script, want: nat)
    requires Flowing(script) && script != [] && want > 0
    ensures var n := Min(want, |script[0].data|);
            && 0 < n <= |Bytes(script)|
            && Recv(script, want) == (Got(Bytes(script)[..n]), Skip(script, n))
  {
    var data, later := script[0].data, script[1..];
    assert Bytes(script) == data + Bytes(later);
    if |data| <= want {
      assert (data + Bytes(later))[..|data|] == data;
      assert Flowing(later);
      assert Skip(script, |data|) == Skip(later, 0) == later;
    } else {
      assert (data + Bytes(later))[..want] == data[..want];
    }
  }

  /** Skipping from inside the first chunk. */
  lemma SkipInsideChunk(script: Script, m: nat, n: nat)
    requires Flowing(script) && 0 < n && m + n <= |Bytes(script)| && script != [] && 0 < m < |script[0].data|
    ensures Skip(Skip(script, m), n) == Skip(script, m + n)
  {
    var data := script[0].data;
    var cut := [Chunk(data[m..])] + script[1..];
    assert Skip(script, m) == cut && cut[1..] == script[1..];
    assert Flowing(script[1..]);
    if |data| > m + n {
      assert data[m..][n..] == data[m + n..];
    }
  }

  lemma {:induction false} SkipSkip(script: Script, m: nat, n: nat)
    requires Flowing(script) && m + n <= |Bytes(script)|
    ensures Skip(Skip(script, m), n) == Skip(script, m + n)
    decreases |script|
  {
    if m > 0 && n > 0 {
      if |script[0].data| <= m {
        assert Flowing(script[1..]);
        SkipSkip(script[1..], m - |script[0].data|, n);
      } else {
        SkipInsideChunk(script, m, n);
      }
    }
  }

  /** However a payload is cut, the loop collects its bytes and leaves the rest. */
  lemma {:induction false} CollectOfFlowing(script: Script, need: nat)
    requires Flowing(script) && need <= |Bytes(script)|
    ensures Collect(script, need) == (Some(Bytes(script)[..need]), Skip(script, need))
    decreases need
  {
    if need > 0 {
      RecvOfFlowing(script, need);
      var n := Min(need, |script[0].data|);
      CollectOfFlowing(Skip(script, n), need - n);
      SkipSkip(script, n, need - n);
      assert Bytes(script)[..need] == Bytes(script)[..n] + Bytes(script)[n..][..need - n];
    }
  }

  /** The hunt's first read: a whole header ends it, and so does a part of one. */
  lemma FirstRead(script: Script, errno: bool, data: seq<byte>, rest: Script)
    requires Recv(script, HEADER) == (Got(data), rest) && data != []
    ensures |data| == HEADER && data[..4] == MAGIC ==> Hunt(script, [], errno) == (Full(data), rest)
    ensures |data| < HEADER ==> Hunt(script, [], errno) == (Short(|data|), rest)
  {
    assert [] + data == data;
  }

  lemma HeaderServed(h: seq<byte>, script: Script, errno: bool)
    requires Flowing(script) && |h| == HEADER && h <= Bytes(script) && h[..4] == MAGIC
    ensures script != []
    ensures Hunt(script, [], errno)
            == if |script[0].data| >= HEADER then (Full(h), Skip(script, HEADER))
               else (Short(|script[0].data|), Skip(script, |script[0].data|))
  {
    assert Bytes(script) != [];
    var n := Min(HEADER, |script[0].data|);
    RecvOfFlowing(script, HEADER);
    if n == HEADER {
      assert Bytes(script)[..n] == h;
    }
    FirstRead(script, errno, Bytes(script)[..n], Skip(script, n));
  }

  lemma FrameServed(f: Frame, more: seq<byte>, script: Script, errno: bool)
    requires f.Valid() && Flowing(script) && Bytes(script) == HeaderOf(f) + f.Body() + more
    ensures script != []
    ensures |script[0].data| >= HEADER ==>
              ServeOnce(script, errno) == (Verdict(f), Skip(script, HEADER + |f.Body()|), errno)
    ensures |script[0].data| < HEADER ==> ServeOnce(script, errno).0 == Ignored
  {
    HeaderFields(f);
    HeaderServed(HeaderOf(f), script, errno);
    if |script[0].data| >= HEADER && f.Frame? {
      PayloadServed(f.payload, HeaderOf(f) + f.payload + more, script);
    }
  }

  lemma PayloadServed(payload: seq<byte>, all: seq<byte>, script: Script)
    requires Flowing(script) && Bytes(script) == all && HEADER + |payload| <= |all|
    requires all[HEADER..HEADER + |payload|] == payload
    ensures Collect(Skip(script, HEADER), |payload|) == (Some(payload), Skip(script, HEADER + |payload|))
  {
    CollectOfFlowing(Skip(script, HEADER), |payload|);
    SkipSkip(script, HEADER, |payload|);
    assert all[HEADER..][..|payload|] == payload;
  }

  lemma AfterBoth(a: seq<byte>, b: seq<byte>, more: seq<byte>)
    ensures (a + b + more)[|a| + |b|..] == more
  {
  }

  lemma ServeStarts(script: Script, errno: bool, s: Served, rest: Script)
    requires script != [] && ServeOnce(script, errno) == (s, rest, errno)
    ensures Serve(script, errno) == [s] + if Ends(s) then [] else Serve(rest, errno)
  {
  }

  /** The first frame of a list: served, with the rest of the script left for the rest of the list, or lost. */
  lemma FirstFrame(fs: seq<Frame>, script: Script, errno: bool)
    requires fs != [] && AllValid(fs) && Flowing(script) && Bytes(script) == EncodeAll(fs)
    ensures script != []
    ensures |script[0].data| >= HEADER ==>
              var rest := Skip(script, HEADER + |fs[0].Body()|);
              && Bytes(rest) == EncodeAll(fs[1..])
              && ServeOnce(script, errno) == (Verdict(fs[0]), rest, errno)
              && Serve(script, errno) == [Verdict(fs[0])] + Serve(rest, errno)
    ensures |script[0].data| < HEADER ==> Serve(script, errno)[0] == Ignored
  {
    var f, more := fs[0], EncodeAll(fs[1..]);
    var n := HEADER + |f.Body()|;
    FrameServed(f, more, script, errno);
    AfterBoth(HeaderOf(f), f.Body(), more);
    if |script[0].data| >= HEADER {
      ServeStarts(script, errno, Verdict(f), Skip(script, n));
    }
  }

  /**
    For every list of frames, oversized headers among them, and every way of cutting their bytes into non-empty
    pieces, the thread serves exactly those frames and refuses exactly those headers, in order, if and only if
    each header arrives whole.
   */
  lemma {:induction false} FramesRecovered(fs: seq<Frame>, script: Script, errno: bool)
    requires AllValid(fs) && Flowing(script) && Bytes(script) == EncodeAll(fs)
    ensures Serve(script, errno) == Messages(fs) <==> HeadersWhole(fs, script)
    decreases |fs|
  {
    if fs == [] {
      assert script != [] ==> Bytes(script) != [];
    } else {
      FirstFrame(fs, script, errno);
      if |script[0].data| >= HEADER {
        var rest := Skip(script, HEADER + |fs[0].Body()|);
        FramesRecovered(fs[1..], rest, errno);
        SameHead(Verdict(fs[0]), Serve(rest, errno), Messages(fs[1..]));
      } else {
        assert Messages(fs)[0] == Verdict(fs[0]) != Ignored;
      }
    }
  }

  lemma SameHead(m: Served, a: seq<Served>, b: seq<Served>)
    ensures [m] + a == [m] + b <==> a == b
  {
    assert ([m] + a)[1..] == a && ([m] + b)[1..] == b;
  }

  /** The bytes that arrive before the first recv that returns nothing. */
  ghost function Prompt(script: Script): seq<byte> {
    if script == [] || script[0].Fail? || script[0].data == [] then [] else script[0].data + Prompt(script[1..])
  }

  lemma RecvOfPrompt(script: Script, want: nat)
    requires want > 0
    ensures var (got, rest) := Recv(script, want);
            if got.Got? && got.data != [] then Prompt(script) == got.data + Prompt(rest) else Prompt(script) == []
  {
    if script != [] && script[0].Chunk? && |script[0].data| > want {
      var cut := [Chunk(script[0].data[want..])] + script[1..];
      assert cut[1..] == script[1..];
      assert script[0].data == script[0].data[..want] + script[0].data[want..];
      assert Prompt(script) == script[0].data[..want] + (script[0].data[want..] + Prompt(script[1..]));
    }
  }

  /**
    For every script of recv results the payload loop returns exactly the bytes asked for, in order, if that many
    arrive before a recv returns nothing; otherwise no payload, so no message is handled.
   */
  lemma {:induction false} PayloadReadExactly(script: Script, need: nat)
    ensures Collect(script, need).0 == if need <= |Prompt(script)| then Some(Prompt(script)[..need]) else None
    decreases need
  {
    if need > 0 {
      var (got, rest) := Recv(script, need);
      RecvOfPrompt(script, need);
      if got.Got? && got.data != [] {
        PayloadReadExactly(rest, need - |got.data|);
        if need <= |Prompt(script)| {
          assert Prompt(script)[..need] == got.data + Prompt(rest)[..need - |got.data|];
        }
      }
    }
  }

  // ---- What becomes of one read of the socket ----

  /** Part of a header is dropped, the client stays; an error that is to be tried again changes nothing. */
  lemma ShortReads(data: seq<byte>, later: Script, errno: bool)
    requires 0 < |data| < HEADER
    ensures ServeOnce([Chunk(data)] + later, errno) == (Ignored, later, errno)
  {
    var script := [Chunk(data)] + later;
    assert script[1..] == later && [] + data == data;
    assert Recv(script, HEADER) == (Got(data), later);
  }

  /** A recv that fails removes the client, unless errno says to try again. */
  lemma FailingReads(again: bool, later: Script, errno: bool)
    ensures ServeOnce([Fail(again)] + later, errno) == (if again then Ignored else NoHeader, later, again)
  {
    var script := [Fail(again)] + later;
    assert script[1..] == later;
    assert Hunt(script, [], errno) == (HeaderRead.Stopped(again), later);
  }

  /** A whole header whose length field is too large is refused, wherever the stream's first 0x52 stands. */
  lemma OversizedRefused(stream: seq<byte>, later: Script, errno: bool, header: seq<byte>, after: seq<byte>)
    requires HeaderFirst(stream, header, after) && PayloadLength(header) > MAX_PAYLOAD
    ensures ServeOnce(Greedy(stream, later), errno) == (TooLarge(header), Greedy(after, later), errno)
    ensures Serve(Greedy(stream, later), errno) == [TooLarge(header)] + Serve(Greedy(after, later), errno)
  {
    GreedyFinds(stream, later, errno, header, after);
    assert Greedy(stream, later) != [];
    ServeStarts(Greedy(stream, later), errno, TooLarge(header), Greedy(after, later));
  }

  /** A whole header whose payload does not arrive costs the client its connection; otherwise the frame is handled. */
  lemma PayloadDecides(header: seq<byte>, later: Script, errno: bool)
    requires |header| == HEADER && header[..4] == MAGIC && PayloadLength(header) <= MAX_PAYLOAD
    ensures var n := PayloadLength(header);
            ServeOnce([Chunk(header)] + later, errno).0
            == if n <= |Prompt(later)| then Message(header, Prompt(later)[..n]) else PayloadFailed(header)
  {
    var script := [Chunk(header)] + later;
    assert script[1..] == later;
    assert Recv(script, HEADER) == (Got(header), later);
    FirstRead(script, errno, header, later);
    PayloadReadExactly(later, PayloadLength(header));
  }

  /** The window's second read asks only for what it lacks: nothing, if it starts with 0x52 but is no header. */
  lemma StuckWindow(window: seq<byte>, later: Script, errno: bool)
    requires |window| == HEADER && window[0] == NEEDLE && window[..4] != MAGIC
    ensures ServeOnce([Chunk(window)] + later, errno) == (if errno then Ignored else NoHeader, later, errno)
  {
    var script := [Chunk(window)] + later;
    assert script[1..] == later && [] + window == window;
    assert Recv(script, HEADER) == (Got(window), later);
    HuntTurn(script, [], errno, window, later);
    assert FirstNeedle(window) == 0 && window[0..] == window;
    assert Recv(later, 0) == (Got([]), later);
    assert Hunt(later, window, errno) == (HeaderRead.Stopped(errno), later);
  }

  /** A refill that comes short is dropped together with what the window held. */
  lemma ShortRefill(window: seq<byte>, data: seq<byte>, later: Script, errno: bool)
    requires |window| == HEADER && window[..4] != MAGIC && 0 < |data| < FirstNeedle(window)
    ensures ServeOnce([Chunk(window), Chunk(data)] + later, errno) == (Ignored, later, errno)
  {
    var script := [Chunk(window), Chunk(data)] + later;
    var rest := [Chunk(data)] + later;
    assert script[1..] == rest && rest[1..] == later && [] + window == window;
    assert Recv(script, HEADER) == (Got(window), rest);
    HuntTurn(script, [], errno, window, rest);
    var kept := window[FirstNeedle(window)..];
    assert Recv(rest, HEADER - |kept|) == (Got(data), later);
    assert Hunt(rest, kept, errno) == (Short(|data|), later);
  }

  // ---- A peer that has closed its end: every recv returns 0 and leaves errno alone ----

  /** Such a read removes the client if and only if errno does not still say "try again" from an earlier call. */
  lemma ClosedPeer(later: Script, errno: bool)
    ensures var (s, rest, errno') := ServeOnce([Chunk([])] + later, errno);
            s == (if errno then Ignored else NoHeader) && rest == later && errno' == errno
  {
    var script := [Chunk([])] + later;
    assert script[1..] == later;
    assert Recv(script, HEADER) == (Got([]), later);
    assert Hunt(script, [], errno) == (HeaderRead.Stopped(errno), later);
  }

  function Zeros(n: nat): Script {
    if n == 0 then [] else [Chunk([])] + Zeros(n - 1)
  }

  function AllIgnored(n: nat): seq<Served> {
    if n == 0 then [] else [Ignored] + AllIgnored(n - 1)
  }

  lemma {:induction false} ZerosServed(n: nat)
    ensures Serve(Zeros(n), true) == AllIgnored(n)
  {
    if n > 0 {
      ClosedPeer(Zeros(n - 1), true);
      ZerosServed(n - 1);
    }
  }

  /**
    After one read that had to be tried again, a peer that closes is never removed by this thread, however often
    it is polled; without that read the first poll removes it.
   */
  lemma ClosedPeerIsNotNoticed(n: nat)
    ensures Serve([Fail(true)] + Zeros(n), false) == [Ignored] + AllIgnored(n)
    ensures n > 0 ==> Serve(Zeros(n), false) == [NoHeader]
  {
    var script := [Fail(true)] + Zeros(n);
    assert script[1..] == Zeros(n);
    assert Hunt(script, [], false) == (HeaderRead.Stopped(true), Zeros(n));
    assert ServeOnce(script, false) == (Ignored, Zeros(n), true);
    ZerosServed(n);
    if n > 0 {
      ClosedPeer(Zeros(n - 1), false);
      assert Serve(Zeros(n), false) == [NoHeader] + [];
    }
  }
}
