/** Frames over a fragmented byte stream: the header hunt, the payload loop and what they recover. */
module Framing {
  import opened Wire

  const HEADER: nat := 18
  const MAGIC: seq<byte> := [0x52, 0x41, 0x49, 0x56]
  const NEEDLE: byte := 0x52

  // ---- recv ----

  /** What a socket delivers next: bytes, or an error that does or does not mean "try again". */
  datatype Arrival = Chunk(data: seq<byte>) | Fail(again: bool)

  type Script = seq<Arrival>

  datatype Received = Got(data: seq<byte>) | Error(again: bool)

  /** One recv of at most `want` bytes. An exhausted script, like a request for no bytes, returns 0. */
  function Recv(script: Script, want: nat): (r: (Received, Script))
    ensures r.0.Got? ==> |r.0.data| <= want
  {
    if want == 0 || script == [] then (Got([]), script)
    else if script[0].Fail? then (Error(script[0].again), script[1..])
    else if |script[0].data| <= want then (Got(script[0].data), script[1..])
    else (Got(script[0].data[..want]), [Chunk(script[0].data[want..])] + script[1..])
  }

  /** The number of bytes a script delivers. */
  function Size(script: Script): nat {
    if script == [] then 0 else (if script[0].Chunk? then |script[0].data| else 0) + Size(script[1..])
  }

  lemma RecvShrinks(script: Script, want: nat)
    ensures var (r, rest) := Recv(script, want);
            && Size(rest) <= Size(script) && |rest| <= |script|
            && (want > 0 && script != [] ==> Size(rest) + |rest| < Size(script) + |script|)
            && (r.Got? ==> Size(rest) + |r.data| == Size(script))
  {
    if want > 0 && script != [] && script[0].Chunk? && |script[0].data| > want {
      assert Recv(script, want).1[1..] == script[1..];
    }
  }

  /** The bytes of the chunks before the first error. */
  ghost function Bytes(script: Script): seq<byte> {
    if script == [] || script[0].Fail? then [] else script[0].data + Bytes(script[1..])
  }

  lemma RecvTakesBytes(script: Script, want: nat)
    ensures var (r, rest) := Recv(script, want);
            r.Got? ==> Bytes(script) == r.data + Bytes(rest)
  {
    if want > 0 && script != [] && script[0].Chunk? && |script[0].data| > want {
      SplitChunk(script[0].data, want, script[1..]);
      assert script == [script[0]] + script[1..];
    }
  }

  lemma RecvMovesBytes(kept: seq<byte>, script: Script, want: nat)
    ensures var (r, rest) := Recv(script, want);
            r.Got? ==> kept + Bytes(script) == (kept + r.data) + Bytes(rest)
  {
    RecvTakesBytes(script, want);
  }

  lemma SplitChunk(data: seq<byte>, want: nat, later: Script)
    requires want <= |data|
    ensures Bytes([Chunk(data)] + later) == data[..want] + Bytes([Chunk(data[want..])] + later)
  {
    assert ([Chunk(data)] + later)[1..] == later;
    assert ([Chunk(data[want..])] + later)[1..] == later;
    assert data + Bytes(later) == data[..want] + (data[want..] + Bytes(later));
  }

  // ---- read_header ----

  /** The outcome of read_header: a header (returns 18), a partial read (returns its length), or no bytes
      (returns 1 if errno says "try again", else -1). */
  datatype HeaderRead = Full(header: seq<byte>) | Short(n: nat) | Stopped(again: bool)

  function ReturnCode(r: HeaderRead): (rc: int) {
    match r
    case Full(_) => HEADER
    case Short(n) => n
    case Stopped(again) => if again then 1 else -1
  }

  /** The index of the first 0x52, or the length if there is none: memchr. */
  function FirstNeedle(s: seq<byte>): (p: nat)
    ensures p <= |s|
    ensures forall q :: 0 <= q < p ==> s[q] != NEEDLE
    ensures p < |s| ==> s[p] == NEEDLE
  {
    if s == [] || s[0] == NEEDLE then 0 else 1 + FirstNeedle(s[1..])
  }

  ghost predicate IsMagic(s: seq<byte>, p: nat) {
    p + 4 <= |s| && s[p..p + 4] == MAGIC
  }

  /** The sliding window: `kept` bytes of it are filled, the rest is asked for in one recv. */
  function Hunt(script: Script, kept: seq<byte>, errno: bool): (r: (HeaderRead, Script))
    requires |kept| <= HEADER
    ensures r.0.Full? ==> |r.0.header| == HEADER
    ensures r.0.Short? ==> 0 < r.0.n < HEADER
    ensures Size(r.1) <= Size(script) && |r.1| <= |script|
    ensures |kept| < HEADER && script != [] ==> Size(r.1) + |r.1| < Size(script) + |script|
    decreases Size(script)
  {
    var want := HEADER - |kept|;
    var (got, rest) := Recv(script, want);
    RecvShrinks(script, want);
    if got.Error? then (Stopped(got.again), rest)
    else if got.data == [] then (Stopped(errno), rest)
    else if |got.data| != want then (Short(|got.data|), rest)
    else
      var window := kept + got.data;
      if window[..4] == MAGIC then (Full(window), rest)
      else Hunt(rest, window[FirstNeedle(window)..], errno)
  }

  /** The states of the window between two reads. */
  ghost predicate Window(kept: seq<byte>) {
    && |kept| <= HEADER
    && (kept != [] ==> kept[0] == NEEDLE)
    && (|kept| == HEADER ==> kept[..4] != MAGIC)
  }

  lemma FirstNeedleSplit(s: seq<byte>, b: nat)
    requires b <= FirstNeedle(s)
    ensures FirstNeedle(s) == b + FirstNeedle(s[b..])
    decreases b
  {
    if b > 0 {
      FirstNeedleSplit(s[1..], b - 1);
      assert s[1..][b - 1..] == s[b..];
    }
  }

  lemma FirstNeedleOf(window: seq<byte>, more: seq<byte>)
    ensures FirstNeedle(window) <= FirstNeedle(window + more)
    ensures FirstNeedle(window) < |window| ==> FirstNeedle(window + more) == FirstNeedle(window)
  {
    assert forall q :: 0 <= q < |window| ==> (window + more)[q] == window[q];
  }

  /** The stream's first 0x52 starts a whole header, followed by `after`. */
  ghost predicate HeaderFirst(stream: seq<byte>, header: seq<byte>, after: seq<byte>) {
    var p := FirstNeedle(stream);
    && p + HEADER <= |stream|
    && header == stream[p..p + HEADER] && header[..4] == MAGIC
    && after == stream[p + HEADER..]
  }

  lemma WindowIsHeader(window: seq<byte>, more: seq<byte>)
    requires |window| == HEADER && window[..4] == MAGIC
    ensures HeaderFirst(window + more, window, more)
  {
    assert window[0] == window[..4][0] == MAGIC[0];
    assert FirstNeedle(window + more) == 0;
  }

  /** One turn of the window, as a statement about the stream: skipping to the first 0x52 loses nothing else. */
  lemma WindowTurns(window: seq<byte>, more: seq<byte>)
    requires |window| == HEADER && window[..4] != MAGIC
    ensures var b := FirstNeedle(window);
            var p := FirstNeedle(window + more);
            && Window(window[b..])
            && window[b..] + more == (window + more)[b..]
            && p == b + FirstNeedle(window[b..] + more)
  {
    var b := FirstNeedle(window);
    FirstNeedleOf(window, more);
    FirstNeedleSplit(window + more, b);
    assert (window + more)[b..] == window[b..] + more;
    assert b == 0 ==> window[b..] == window;
  }

  lemma SliceOfTail(stream: seq<byte>, b: nat, i: nat, j: nat)
    requires b <= |stream| && i <= j <= |stream| - b
    ensures stream[b..][i..j] == stream[b + i..b + j]
  {
  }

  lemma HeaderFirstInTail(stream: seq<byte>, tail: seq<byte>, b: nat, header: seq<byte>, after: seq<byte>)
    requires b <= |stream| && tail == stream[b..] && FirstNeedle(stream) == b + FirstNeedle(tail)
    ensures HeaderFirst(tail, header, after) <==> HeaderFirst(stream, header, after)
  {
    var p := FirstNeedle(tail);
    if p + HEADER <= |tail| {
      SliceOfTail(stream, b, p, p + HEADER);
      SliceOfTail(stream, b, p + HEADER, |tail|);
      assert tail[p + HEADER..] == tail[p + HEADER..|tail|] == stream[b + (p + HEADER)..];
    }
  }

  /** A turn of the window changes neither which header comes first in the stream nor what follows it. */
  lemma TurnKeepsHeader(window: seq<byte>, more: seq<byte>, header: seq<byte>, after: seq<byte>)
    requires |window| == HEADER && window[..4] != MAGIC
    ensures var kept := window[FirstNeedle(window)..];
            Window(kept) && (HeaderFirst(kept + more, header, after) <==> HeaderFirst(window + more, header, after))
  {
    var b := FirstNeedle(window);
    WindowTurns(window, more);
    HeaderFirstInTail(window + more, window[b..] + more, b, header, after);
  }

  /** One turn of the hunt that fills the window. */
  lemma HuntTurn(script: Script, kept: seq<byte>, errno: bool, data: seq<byte>, rest: Script)
    requires |kept| < HEADER && |data| == HEADER - |kept| && Recv(script, HEADER - |kept|) == (Got(data), rest)
    ensures var window := kept + data;
            && |rest| <= |script| && Size(rest) < Size(script)
            && kept + Bytes(script) == window + Bytes(rest)
            && Hunt(script, kept, errno) == if window[..4] == MAGIC then (Full(window), rest)
                                            else Hunt(rest, window[FirstNeedle(window)..], errno)
  {
    RecvShrinks(script, HEADER - |kept|);
    RecvMovesBytes(kept, script, HEADER - |kept|);
  }

  lemma HuntStops(script: Script, kept: seq<byte>, errno: bool)
    requires |kept| <= HEADER
    requires var got := Recv(script, HEADER - |kept|).0; got.Error? || got.data == [] || |got.data| != HEADER - |kept|
    ensures !Hunt(script, kept, errno).0.Full?
  {
  }

  /**
    For every script: a header is only ever returned from the first 0x52 of the stream on, the bytes dropped
    before it contain no 0x52, and exactly the bytes through the header's end have been taken.
   */
  lemma {:induction false} HuntIsSound(script: Script, kept: seq<byte>, errno: bool)
    requires Window(kept)
    ensures var (r, rest) := Hunt(script, kept, errno);
            r.Full? ==> HeaderFirst(kept + Bytes(script), r.header, Bytes(rest))
    decreases Size(script)
  {
    var (got, rest) := Recv(script, HEADER - |kept|);
    if got.Error? || got.data == [] || |got.data| != HEADER - |kept| {
      HuntStops(script, kept, errno);
    } else {
      var window := kept + got.data;
      HuntTurn(script, kept, errno, got.data, rest);
      if window[..4] == MAGIC {
        WindowIsHeader(window, Bytes(rest));
      } else {
        var kept' := window[FirstNeedle(window)..];
        var (r, rest') := Hunt(rest, kept', errno);
        TurnKeepsHeader(window, Bytes(rest), if r.Full? then r.header else [], Bytes(rest'));
        HuntIsSound(rest, kept', errno);
      }
    }
  }

  /** A stream that is all there: every recv gets all it asks for until the bytes run out. */
  function Greedy(stream: seq<byte>, later: Script): Script {
    if stream == [] then later else [Chunk(stream)] + later
  }

  lemma GreedyRecv(stream: seq<byte>, later: Script, want: nat)
    requires 0 < want <= |stream|
    ensures Recv(Greedy(stream, later), want) == (Got(stream[..want]), Greedy(stream[want..], later))
  {
    var script := Greedy(stream, later);
    assert script[1..] == later && script[0].data == stream;
    if |stream| == want {
      assert stream[..want] == stream && stream[want..] == [];
    }
  }

  lemma FullWindowIsNoHeader(kept: seq<byte>, stream: seq<byte>, header: seq<byte>, after: seq<byte>)
    requires Window(kept) && |kept| == HEADER
    ensures !HeaderFirst(kept + stream, header, after)
  {
    assert FirstNeedle(kept + stream) == 0;
    assert (kept + stream)[..HEADER] == kept;
  }

  /** One turn of the hunt on a greedy stream that can fill the window. */
  lemma HuntTurns(stream: seq<byte>, later: Script, kept: seq<byte>, errno: bool)
    requires |kept| < HEADER <= |kept| + |stream|
    ensures var window, more := kept + stream[..HEADER - |kept|], stream[HEADER - |kept|..];
            && kept + stream == window + more
            && Hunt(Greedy(stream, later), kept, errno)
               == if window[..4] == MAGIC then (Full(window), Greedy(more, later))
                  else Hunt(Greedy(more, later), window[FirstNeedle(window)..], errno)
  {
    GreedyRecv(stream, later, HEADER - |kept|);
  }

  /** Of a greedy stream, a header that comes first is found, and the rest is left untouched. */
  lemma {:induction false} HuntIsComplete(
      stream: seq<byte>, later: Script, kept: seq<byte>, errno: bool, header: seq<byte>, after: seq<byte>)
    requires Window(kept) && HeaderFirst(kept + stream, header, after)
    ensures Hunt(Greedy(stream, later), kept, errno) == (Full(header), Greedy(after, later))
    decreases |stream|
  {
    assert |kept| < HEADER by {
      if |kept| == HEADER {
        FullWindowIsNoHeader(kept, stream, header, after);
      }
    }
    HuntTurns(stream, later, kept, errno);
    var window, more := kept + stream[..HEADER - |kept|], stream[HEADER - |kept|..];
    if window[..4] == MAGIC {
      WindowIsHeader(window, more);
    } else {
      TurnKeepsHeader(window, more, header, after);
      HuntIsComplete(more, later, window[FirstNeedle(window)..], errno, header, after);
    }
  }

  lemma BytesOfGreedy(stream: seq<byte>, later: Script)
    requires later == [] || later[0].Fail?
    ensures Bytes(Greedy(stream, later)) == stream
  {
    assert Bytes(later) == [];
    if stream != [] {
      assert Greedy(stream, later)[1..] == later;
    }
  }

  lemma HeadOfSlice(s: seq<byte>, p: nat)
    requires p + HEADER <= |s|
    ensures s[p..p + HEADER][..4] == s[p..p + 4]
  {
  }

  lemma HeaderFirstMeans(stream: seq<byte>, p: nat)
    requires p == FirstNeedle(stream) && p + HEADER <= |stream|
    ensures IsMagic(stream, p) <==> HeaderFirst(stream, stream[p..p + HEADER], stream[p + HEADER..])
  {
    HeadOfSlice(stream, p);
  }

  lemma NoRoomForHeader(stream: seq<byte>, header: seq<byte>, after: seq<byte>)
    requires |stream| < FirstNeedle(stream) + HEADER
    ensures !HeaderFirst(stream, header, after)
  {
  }

  lemma NoEarlierMagic(stream: seq<byte>, q: nat)
    requires q < FirstNeedle(stream)
    ensures !IsMagic(stream, q)
  {
    if q + 4 <= |stream| {
      assert stream[q..q + 4][0] == stream[q];
    }
  }

  lemma GreedyFinds(stream: seq<byte>, later: Script, errno: bool, header: seq<byte>, after: seq<byte>)
    requires HeaderFirst(stream, header, after)
    ensures Hunt(Greedy(stream, later), [], errno) == (Full(header), Greedy(after, later))
  {
    assert [] + stream == stream;
    HuntIsComplete(stream, later, [], errno, header, after);
  }

  lemma GreedyFindsOnly(stream: seq<byte>, later: Script, errno: bool)
    requires later == [] || later[0].Fail?
    ensures var (r, rest) := Hunt(Greedy(stream, later), [], errno);
            r.Full? ==> HeaderFirst(stream, r.header, Bytes(rest))
  {
    BytesOfGreedy(stream, later);
    HuntIsSound(Greedy(stream, later), [], errno);
    assert [] + stream == stream;
  }

  /**
    Resynchronisation: on a stream served greedily, read_header returns 18 exactly when the first 0x52 starts the
    magic number and a whole header follows; then the header is those 18 bytes, everything up to their end
    is consumed, and no discarded position could have begun a frame.
   */
  lemma Resync(stream: seq<byte>, later: Script, errno: bool)
    requires later == [] || later[0].Fail?
    ensures var p := FirstNeedle(stream);
            var (r, rest) := Hunt(Greedy(stream, later), [], errno);
            && (ReturnCode(r) == HEADER <==> p + HEADER <= |stream| && IsMagic(stream, p))
            && (ReturnCode(r) == HEADER ==>
                  && r == Full(stream[p..p + HEADER]) && rest == Greedy(stream[p + HEADER..], later)
                  && forall q :: 0 <= q < p ==> !IsMagic(stream, q))
  {
    GreedyFindsOnly(stream, later, errno);
    var p := FirstNeedle(stream);
    if p + HEADER <= |stream| {
      HeaderFirstMeans(stream, p);
    } else {
      forall header, after ensures !HeaderFirst(stream, header, after) {
        NoRoomForHeader(stream, header, after);
      }
    }
    forall q | 0 <= q < p ensures !IsMagic(stream, q) {
      NoEarlierMagic(stream, q);
    }
    if p + HEADER <= |stream| && IsMagic(stream, p) {
      GreedyFinds(stream, later, errno, stream[p..p + HEADER], stream[p + HEADER..]);
    }
  }

  // ---- The payload loop ----

  /** The bytes the payload loop collects, or None at the first recv that returns nothing. */
  function Collect(script: Script, need: nat): (r: (Option<seq<byte>>, Script))
    ensures r.0.Some? ==> |r.0.value| == need
    ensures Size(r.1) <= Size(script) && |r.1| <= |script|
    decreases need
  {
    if need == 0 then (Some([]), script)
    else
      var (got, rest) := Recv(script, need);
      RecvShrinks(script, need);
      if got.Error? || got.data == [] then (None, rest)
      else
        var (more, rest') := Collect(rest, need - |got.data|);
        if more.None? then (None, rest') else (Some(got.data + more.value), rest')
  }

  /** A collection with the bytes `done` already in place before it. */
  ghost function Prepend(done: seq<byte>, r: (Option<seq<byte>>, Script)): (Option<seq<byte>>, Script) {
    (if r.0.Some? then Some(done + r.0.value) else None, r.1)
  }

  /** The loop's bookkeeping: `done` collected so far, `need` to go on `script`, `all` in the end. */
  ghost predicate Collecting(done: seq<byte>, script: Script, need: nat, all: (Option<seq<byte>>, Script)) {
    Prepend(done, Collect(script, need)) == all
  }

  lemma CollectStarts(script: Script, need: nat)
    ensures Collecting([], script, need, Collect(script, need))
  {
    var r := Collect(script, need).0;
    assert r.Some? ==> [] + r.value == r.value;
  }

  lemma CollectStep(script: Script, need: nat, done: seq<byte>, all: (Option<seq<byte>>, Script))
    requires need > 0 && Collecting(done, script, need, all)
    ensures var (got, rest) := Recv(script, need);
            if got.Got? && got.data != [] then Collecting(done + got.data, rest, need - |got.data|, all)
            else all == (None, rest)
  {
    var (got, rest) := Recv(script, need);
    if got.Got? && got.data != [] {
      var (more, rest') := Collect(rest, need - |got.data|);
      if more.Some? {
        assert done + (got.data + more.value) == (done + got.data) + more.value;
      }
    }
  }

  /** One turn of the loop: a recv that returned n, and left `rest`. */
  lemma CollectPiece(script: Script, need: nat, done: seq<byte>, all: (Option<seq<byte>>, Script), n: int, rest: Script)
    requires need > 0 && Collecting(done, script, need, all)
    requires Recv(script, need).1 == rest
    requires n == if Recv(script, need).0.Error? then -1 else |Recv(script, need).0.data|
    ensures n <= 0 ==> all == (None, rest)
    ensures n > 0 ==> 0 < n <= need && Collecting(done + Recv(script, need).0.data, rest, need - n, all)
  {
    CollectStep(script, need, done, all);
  }

  lemma CollectEnds(done: seq<byte>, script: Script, all: (Option<seq<byte>>, Script))
    requires Collecting(done, script, 0, all)
    ensures all == (Some(done), script)
  {
    assert done + [] == done;
  }

  // ---- One frame ----

  /** What the receiving thread makes of one readable event of its client. */
  datatype Served =
    | NoHeader
    | Ignored
    | TooLarge(header: seq<byte>)
    | PayloadFailed(header: seq<byte>)
    | Message(header: seq<byte>, payload: seq<byte>)

  function PayloadLength(header: seq<byte>): uint32
    requires |header| == HEADER
  {
    Get32(header, 14)
  }

  /** Also returns what errno says afterwards, while the client stays. */
  function ServeOnce(script: Script, errno: bool): (r: (Served, Script, bool))
    ensures script != [] ==> Size(r.1) + |r.1| < Size(script) + |script|
    ensures r.0.TooLarge? || r.0.PayloadFailed? || r.0.Message? ==> |r.0.header| == HEADER
    ensures r.0.Message? ==> |r.0.payload| == PayloadLength(r.0.header) <= MAX_PAYLOAD
  {
    var (read, rest) := Hunt(script, [], errno);
    var errno' := if read.Stopped? then read.again else errno;
    if ReturnCode(read) <= 0 then (NoHeader, rest, errno')
    else if !read.Full? then (Ignored, rest, errno')
    else if PayloadLength(read.header) > MAX_PAYLOAD then (TooLarge(read.header), rest, errno')
    else
      var (payload, rest') := Collect(rest, PayloadLength(read.header));
      if payload.None? then (PayloadFailed(read.header), rest', errno')
      else (Message(read.header, payload.value), rest', errno')
  }

  /** The client is removed, and the thread stops serving it, after these. */
  predicate Ends(s: Served) {
    s.NoHeader? || s.PayloadFailed?
  }

  function Serve(script: Script, errno: bool): seq<Served>
    decreases Size(script) + |script|
  {
    if script == [] then []
    else
      var (s, rest, errno') := ServeOnce(script, errno);
      [s] + if Ends(s) then [] else Serve(rest, errno')
  }

  /** A connected client's socket; `errno` is what the thread's errno says when a call does not set it. */
  class Connection {
    var script: Script
    var errnoAgain: bool

    constructor (script: Script, errnoAgain: bool)
      ensures this.script == script && this.errnoAgain == errnoAgain
    {
      this.script, this.errnoAgain := script, errnoAgain;
    }

    /** platform_recv: negative on an error, else the number of bytes placed at into[at..]. */
    method Receive(into: array<byte>, at: nat, want: nat) returns (n: int)
      requires at + want <= into.Length
      modifies this, into
      ensures var (r, rest) := Recv(old(script), want);
              && script == rest
              && errnoAgain == (if r.Error? then r.again else old(errnoAgain))
              && n == (if r.Error? then -1 else |r.data|)
              && (r.Error? ==> into[..] == old(into[..]))
              && (r.Got? ==> into[..at + |r.data|] == old(into[..at]) + r.data)
              && (r.Got? ==> forall i :: at + |r.data| <= i < into.Length ==> into[i] == old(into[i]))
    {
      var (r, rest) := Recv(script, want);
      script := rest;
      match r
      case Error(again) =>
        errnoAgain := again;
        n := -1;
      case Got(data) =>
        forall i | 0 <= i < |data| {
          into[at + i] := data[i];
        }
        n := |data|;
    }

    static method HasMagic(header: array<byte>) returns (yes: bool)
      requires header.Length == HEADER
      ensures yes == (header[..4] == MAGIC)
    {
      assert header[..4] == [header[0], header[1], header[2], header[3]];
      yes := header[0] == 0x52 && header[1] == 0x41 && header[2] == 0x49 && header[3] == 0x56;
    }

    /** With a full window: either it is a header, or its bytes from the first 0x52 on move to the front. */
    static method Slide(header: array<byte>) returns (found: bool, offset: nat)
      requires header.Length == HEADER
      modifies header
      ensures found == (old(header[..])[..4] == MAGIC)
      ensures found ==> header[..] == old(header[..])
      ensures !found ==> offset == HEADER - FirstNeedle(old(header[..]))
      ensures !found ==> header[..offset] == old(header[..])[FirstNeedle(old(header[..]))..]
    {
      offset := 0;
      found := HasMagic(header);
      assert header[..4] == header[..][..4];
      if !found {
        var begin := FirstNeedle(header[..]);
        if begin < HEADER {
          forall i | 0 <= i < HEADER - begin {
            header[i] := header[begin + i];
          }
          offset := HEADER - begin;
        }
      }
    }

    method ReadHeader(header: array<byte>) returns (rc: int)
      requires header.Length == HEADER
      modifies this, header
      ensures var (r, rest) := Hunt(old(script), [], old(errnoAgain));
              && script == rest && rc == ReturnCode(r)
              && (r.Full? ==> header[..] == r.header)
              && errnoAgain == if r.Stopped? then r.again else old(errnoAgain)
    {
      var offset := 0;
      var toRead := HEADER;
      ghost var goal := Hunt(script, [], errnoAgain);
      ghost var kept: seq<byte> := [];
      while true
        invariant 0 <= offset <= HEADER && toRead == HEADER - offset && errnoAgain == old(errnoAgain)
        invariant kept == header[..offset] && goal == Hunt(script, kept, errnoAgain)
        decreases Size(script)
      {
        ghost var before := script;
        RecvShrinks(before, toRead);
        var n := Receive(header, offset, toRead);
        if n <= 0 {
          return if errnoAgain then 1 else -1;
        }
        if n != toRead {
          return n;
        }
        ghost var window := kept + Recv(before, toRead).0.data;
        assert header[..] == window;
        var found;
        found, offset := Slide(header);
        if found {
          return HEADER;
        }
        kept := window[FirstNeedle(window)..];
        toRead := HEADER - offset;
      }
    }

    /** One turn of the payload loop: n further bytes in place, or nothing more to come. */
    method ReceivePiece(payload: array<byte>, received: uint32, ghost all: (Option<seq<byte>>, Script)) returns (n: int)
      requires received < payload.Length
      requires Collecting(payload[..received], script, payload.Length - received, all)
      modifies this, payload
      ensures n <= 0 ==> all == (None, script)
      ensures n > 0 ==>
                && errnoAgain == old(errnoAgain) && received + n <= payload.Length
                && Collecting(payload[..received + n], script, payload.Length - received - n, all)
    {
      ghost var before, done := script, payload[..received];
      n := Receive(payload, received, payload.Length - received);
      CollectPiece(before, payload.Length - received, done, all, n, script);
      if n > 0 {
        assert payload[..received + n] == done + Recv(before, payload.Length - received).0.data;
      }
    }

    /** The payload loop; the count never leaves 0..length, so its uint32_t never wraps. */
    method ReadPayload(payload: array<byte>) returns (ok: bool)
      requires payload.Length < TWO_32
      modifies this, payload
      ensures var (r, rest) := Collect(old(script), payload.Length);
              script == rest && ok == r.Some? && (ok ==> payload[..] == r.value && errnoAgain == old(errnoAgain))
    {
      var received: uint32 := 0;
      ghost var all := Collect(script, payload.Length);
      CollectStarts(script, payload.Length);
      assert payload[..0] == [];
      while received < payload.Length
        invariant received <= payload.Length && errnoAgain == old(errnoAgain)
        invariant Collecting(payload[..received], script, payload.Length - received, all)
      {
        var n := ReceivePiece(payload, received, all);
        if n <= 0 {
          return false;
        }
        received := received + n;
      }
      CollectEnds(payload[..received], script, all);
      assert payload[..] == payload[..received];
      ok := true;
    }

    /** One pass of the thread's loop body up to the handler. */
    method ServeNext() returns (s: Served)
      modifies this
      ensures var (s', rest, errno') := ServeOnce(old(script), old(errnoAgain));
              s == s' && script == rest && (!Ends(s) ==> errnoAgain == errno')
    {
      var header := new byte[HEADER];
      var rc := ReadHeader(header);
      if rc <= 0 {
        return NoHeader;
      }
      if rc != HEADER {
        return Ignored;
      }
      var length := PayloadLength(header[..]);
      if length > MAX_PAYLOAD {
        return TooLarge(header[..]);
      }
      var payload := new byte[length](i => 0);
      var ok := ReadPayload(payload);
      if !ok {
        return PayloadFailed(header[..]);
      }
      s := Message(header[..], payload[..]);
    }
  }
}
