/** The variable-length move goal: its layout, its validator and its deep copy. */
module MoveGoal {
  import opened Wire

  const POINT_SIZE: nat := 264
  const TOLERANCE_SIZE: nat := 256
  const HEADER_SIZE: nat := 12

  /** MOVE_GOAL_CALC_SIZE, before any truncation. */
  function CalcSize(traj: nat, tol: nat): nat {
    HEADER_SIZE + traj * POINT_SIZE + 4 + tol * TOLERANCE_SIZE
  }

  /** The offset of the tolerance count (MOVE_GOAL_GET_TOLERANCE_SIZE_PTR). */
  function ToleranceOffset(traj: nat): nat {
    HEADER_SIZE + traj * POINT_SIZE
  }

  /** The largest trajectory count whose payload with as many tolerances still has a 32-bit size. */
  const MAX_COUNT: nat := 8_259_552

  // ---- The validator's arithmetic ----

  /**
    The decisions of move_goal_from_payload on the payload size, the trajectory count and the word found at
    the tolerance count's place. Sums are 64 bits wide and cut to 32 bits where they are assigned to uint32_t;
    the `+ sizeof(uint32_t)` of the second check is not assigned and keeps its width.
   */
  predicate Decide(size: uint32, traj: uint32, tol: uint32) {
    && size >= HEADER_SIZE
    && traj != 0
    && (var sizeToTol := ToleranceOffset(traj) % TWO_32;
        size >= sizeToTol + 4)
    && (tol == 0 || tol == traj)
    && (var required := CalcSize(traj, tol) % TWO_32;
        size >= required)
  }

  /** What the wire format asks for, in unbounded arithmetic. */
  predicate WellSized(size: uint32, traj: uint32, tol: uint32) {
    traj != 0 && (tol == 0 || tol == traj) && size >= CalcSize(traj, tol)
  }

  ghost predicate Exact(traj: uint32) {
    forall size: uint32, tol: uint32 :: Decide(size, traj, tol) <==> WellSized(size, traj, tol)
  }

  lemma SmallCountsAreExact(size: uint32, traj: uint32, tol: uint32)
    requires traj <= MAX_COUNT
    ensures Decide(size, traj, tol) <==> WellSized(size, traj, tol)
  {
    assert ToleranceOffset(traj) < TWO_32;
    if tol == 0 || tol == traj {
      assert CalcSize(traj, tol) < TWO_32;
    }
  }

  /** Past the bound, a payload that holds the points but not the tolerances passes. */
  lemma MiddleCountsAreNot(traj: uint32)
    requires MAX_COUNT < traj < 16_268_816
    ensures Decide(CalcSize(traj, 0), traj, traj) && !WellSized(CalcSize(traj, 0), traj, traj)
  {
    var required := CalcSize(traj, traj);
    assert TWO_32 <= required < TWO_32 + TWO_32;
    ModOnce(required, TWO_32);
  }

  /** Past 2^32 bytes of points no payload is large enough, yet the largest size passes all but one residue. */
  lemma LargeCounts(traj: uint32)
    requires traj >= 16_268_816
    ensures Exact(traj) <==> CalcSize(traj, 0) % TWO_32 == 0
  {
    var points := ToleranceOffset(traj);
    assert points + 4 == CalcSize(traj, 0);
    forall size: uint32, tol: uint32 ensures !WellSized(size, traj, tol) {
    }
    var low := points % TWO_32;
    AddFour(points);
    if (points + 4) % TWO_32 != 0 {
      assert Decide(0xFFFF_FFFF, traj, 0);
    } else {
      assert low == TWO_32 - 4;
    }
  }

  lemma ModIs(x: nat, q: nat, r: nat)
    requires x == TWO_32 * q + r && r < TWO_32
    ensures x % TWO_32 == r
  {
  }

  lemma AddFour(x: nat)
    requires x % 4 == 0
    ensures x % TWO_32 <= TWO_32 - 4
    ensures (x + 4) % TWO_32 == if x % TWO_32 == TWO_32 - 4 then 0 else x % TWO_32 + 4
  {
    var q, r := x / TWO_32, x % TWO_32;
    assert x == TWO_32 * q + r;
    assert r % 4 == 0;
    if r == TWO_32 - 4 {
      ModIs(x + 4, q + 1, 0);
    } else {
      ModIs(x + 4, q, r + 4);
    }
  }

  /**
    Exactly which trajectory counts the 32-bit validator decides as the format asks, for every payload size
    and every tolerance word: those up to the bound, and the few beyond it whose size is a multiple of 2^32.
   */
  lemma ValidatorExactness(traj: uint32)
    ensures Exact(traj) <==> traj <= MAX_COUNT || CalcSize(traj, 0) % TWO_32 == 0
  {
    if traj <= MAX_COUNT {
      forall size: uint32, tol: uint32 ensures Decide(size, traj, tol) <==> WellSized(size, traj, tol) {
        SmallCountsAreExact(size, traj, tol);
      }
    } else if traj < 16_268_816 {
      MiddleCountsAreNot(traj);
      assert 0 < CalcSize(traj, 0) < TWO_32;
    } else {
      LargeCounts(traj);
    }
  }

  /** The bound is tight: one more point, with as many tolerances, is thought to need 280 bytes. */
  lemma BoundIsTight()
    ensures CalcSize(MAX_COUNT + 1, MAX_COUNT + 1) % TWO_32 == 280
    ensures CalcSize(MAX_COUNT, MAX_COUNT) < TWO_32 <= CalcSize(MAX_COUNT + 1, MAX_COUNT + 1)
  {
  }

  // ---- The same within the payloads that the server receives ----

  lemma LargestPayload()
    ensures MAX_PAYLOAD == CalcSize(200, 200)
  {
  }

  /** The validator decides as the format asks on every payload of at most `limit` bytes. */
  ghost predicate ExactUpTo(traj: uint32, limit: nat) {
    forall size: uint32, tol: uint32 :: size <= limit ==> (Decide(size, traj, tol) <==> WellSized(size, traj, tol))
  }

  /** Past the bound, no payload of a size below the points' own 32-bit size passes; one of that size does. */
  lemma WrappedCounts(traj: uint32, limit: uint32)
    requires traj > MAX_COUNT && HEADER_SIZE <= limit <= CalcSize(MAX_COUNT, 0)
    ensures var wrapped := CalcSize(traj, 0) % TWO_32;
            ExactUpTo(traj, limit) <==> wrapped == 0 || wrapped > limit
  {
    var wrapped := CalcSize(traj, 0) % TWO_32;
    AddFour(ToleranceOffset(traj));
    forall size: uint32, tol: uint32 | size <= limit ensures !WellSized(size, traj, tol) {
      assert CalcSize(traj, tol) >= CalcSize(traj, 0) > limit;
    }
    if wrapped != 0 && wrapped <= limit {
      var size: uint32 := if wrapped < HEADER_SIZE then HEADER_SIZE else wrapped;
      assert Decide(size, traj, 0);
    } else {
      forall size: uint32, tol: uint32 | size <= limit ensures !Decide(size, traj, tol) {
      }
    }
  }

  /**
    Exactly which trajectory counts are decided as the format asks on every payload that the server takes:
    those up to the bound, and those whose wrapped size is 0 or too large for it.
   */
  lemma ReceivedExactness(traj: uint32)
    ensures ExactUpTo(traj, MAX_PAYLOAD)
            <==> traj <= MAX_COUNT || CalcSize(traj, 0) % TWO_32 == 0 || CalcSize(traj, 0) % TWO_32 > MAX_PAYLOAD
  {
    if traj <= MAX_COUNT {
      forall size: uint32, tol: uint32 ensures Decide(size, traj, tol) <==> WellSized(size, traj, tol) {
        SmallCountsAreExact(size, traj, tol);
      }
    } else {
      LargestPayload();
      WrappedCounts(traj, MAX_PAYLOAD);
    }
  }

  /** A frame that the server takes: 144 bytes are accepted for a count of 16,268,816 points. */
  const WRAPPED_COUNT: uint32 := 16_268_816

  lemma SmallFrameForManyPoints()
    ensures Decide(144, WRAPPED_COUNT, 0) && !WellSized(144, WRAPPED_COUNT, 0)
    ensures !ExactUpTo(WRAPPED_COUNT, MAX_PAYLOAD)
  {
    assert CalcSize(WRAPPED_COUNT, 0) == TWO_32 + 144;
    assert Decide(144, WRAPPED_COUNT, 0);
  }

  // ---- Payload bytes ----

  /** move_goal_from_payload on the bytes of a payload. `beyond` is the word read when the tolerance count's
      place lies past the payload's end, which only counts above the bound can bring about. */
  predicate FromPayload(data: seq<byte>, beyond: uint32)
    requires |data| < TWO_32
  {
    && |data| >= HEADER_SIZE
    && var traj := Get32(data, 8);
       var at := ToleranceOffset(traj);
       Decide(|data|, traj, if at + 4 <= |data| then Get32(data, at) else beyond)
  }

  /** A goal as the format describes it; points and tolerances are opaque blocks of their packed size. */
  datatype Goal = Goal(axes: uint32, group: uint32, trajectory: seq<seq<byte>>, tolerances: seq<seq<byte>>) {
    ghost predicate Valid() {
      && 0 < |trajectory| <= MAX_COUNT
      && (forall p :: p in trajectory ==> |p| == POINT_SIZE)
      && (tolerances == [] || |tolerances| == |trajectory|)
      && (forall t :: t in tolerances ==> |t| == TOLERANCE_SIZE)
    }
  }

  ghost function Encode(g: Goal): (b: seq<byte>)
    requires g.Valid()
  {
    Put32(g.axes) + Put32(g.group) + Put32(|g.trajectory|) + Flatten(g.trajectory)
    + Put32(|g.tolerances|) + Flatten(g.tolerances)
  }

  /** `count` consecutive blocks of `width` bytes from `at` on: the typed pointers of the access macros. */
  ghost function Blocks(b: seq<byte>, at: nat, width: nat, count: nat): (r: seq<seq<byte>>)
    requires at + Span(count, width) <= |b|
    ensures |r| == count
    decreases count
  {
    if count == 0 then [] else [b[at..at + width]] + Blocks(b, at + width, width, count - 1)
  }

  /** Whether the payload's own counts fit the payload's length. */
  ghost predicate Complete(b: seq<byte>) {
    && |b| >= HEADER_SIZE
    && (var at := ToleranceOffset(Get32(b, 8));
        && at + 4 <= |b| && at + 4 + Get32(b, at) * TOLERANCE_SIZE <= |b|)
  }

  ghost function Decode(b: seq<byte>): Goal
    requires Complete(b)
  {
    var traj := Get32(b, 8);
    var at := ToleranceOffset(traj);
    SpanIsProduct(traj, POINT_SIZE);
    SpanIsProduct(Get32(b, at), TOLERANCE_SIZE);
    Goal(Get32(b, 0), Get32(b, 4), Blocks(b, HEADER_SIZE, POINT_SIZE, traj),
         Blocks(b, at + 4, TOLERANCE_SIZE, Get32(b, at)))
  }

  /** The number of bytes a payload's own counts ask for, as move_goal_deep_copy computes it. */
  function RequiredSize(b: seq<byte>): (n: nat)
    requires |b| >= HEADER_SIZE && ToleranceOffset(Get32(b, 8)) + 4 <= |b|
    ensures n < TWO_32
  {
    CalcSize(Get32(b, 8), Get32(b, ToleranceOffset(Get32(b, 8)))) % TWO_32
  }

  /** The first block of a flattened list, and the rest, in place. */
  lemma FirstBlock(b: seq<byte>, at: nat, first: seq<byte>, rest: seq<byte>)
    requires at + |first| + |rest| <= |b| && b[at..at + |first| + |rest|] == first + rest
    ensures b[at..at + |first|] == first && b[at + |first|..at + |first| + |rest|] == rest
  {
    var whole := b[at..at + |first| + |rest|];
    assert whole[..|first|] == first && whole[|first|..] == rest;
  }

  lemma {:induction false} BlocksOfFlatten(b: seq<byte>, at: nat, blocks: seq<seq<byte>>, width: nat)
    requires forall c :: c in blocks ==> |c| == width
    requires at + |Flatten(blocks)| <= |b| && b[at..at + |Flatten(blocks)|] == Flatten(blocks)
    ensures at + Span(|blocks|, width) <= |b| && Blocks(b, at, width, |blocks|) == blocks
    decreases |blocks|
  {
    if blocks != [] {
      var first, rest := blocks[0], blocks[1..];
      FirstBlock(b, at, first, Flatten(rest));
      BlocksOfFlatten(b, at + width, rest, width);
      assert [first] + rest == blocks;
    }
  }

  lemma Cut(b: seq<byte>, i: nat, j: nat, k: nat)
    requires i <= j <= k <= |b|
    ensures b[i..k] == b[i..j] + b[j..k]
  {
  }

  lemma FlattenOne(first: seq<byte>, rest: seq<seq<byte>>)
    ensures Flatten([first] + rest) == first + Flatten(rest)
  {
    assert ([first] + rest)[1..] == rest;
  }

  lemma {:induction false} BlockWidths(b: seq<byte>, at: nat, width: nat, count: nat)
    requires at + Span(count, width) <= |b|
    ensures forall c :: c in Blocks(b, at, width, count) ==> |c| == width
    decreases count
  {
    if count > 0 {
      BlockWidths(b, at + width, width, count - 1);
    }
  }

  lemma {:induction false} FlattenOfBlocks(b: seq<byte>, at: nat, width: nat, count: nat)
    requires at + Span(count, width) <= |b|
    ensures Flatten(Blocks(b, at, width, count)) == b[at..at + Span(count, width)]
    decreases count
  {
    if count > 0 {
      FlattenOfBlocks(b, at + width, width, count - 1);
      FlattenOne(b[at..at + width], Blocks(b, at + width, width, count - 1));
      Cut(b, at, at + width, at + Span(count, width));
    }
  }

  /** Six pieces laid end to end, the first three and the fifth of four bytes each. */
  lemma SixParts(b: seq<byte>, p0: seq<byte>, p1: seq<byte>, p2: seq<byte>, p3: seq<byte>, p4: seq<byte>, p5: seq<byte>)
    requires |p0| == |p1| == |p2| == |p4| == 4
    requires p0 + p1 + p2 + p3 + p4 + p5 <= b
    ensures var at := 12 + |p3|;
            && b[0..4] == p0 && b[4..8] == p1 && b[8..12] == p2 && b[12..at] == p3
            && b[at..at + 4] == p4 && b[at + 4..at + 4 + |p5|] == p5
  {
    var e := p0 + p1 + p2 + p3 + p4 + p5;
    assert e == b[..|e|];
    assert forall i, j | 0 <= i <= j <= |e| :: b[i..j] == e[i..j];
    assert e[0..4] == p0 && e[4..8] == p1 && e[8..12] == p2 && e[12..12 + |p3|] == p3;
  }

  lemma EncodedLength(g: Goal)
    requires g.Valid()
    ensures |Flatten(g.trajectory)| == |g.trajectory| * POINT_SIZE
    ensures |Flatten(g.tolerances)| == |g.tolerances| * TOLERANCE_SIZE
    ensures |Encode(g)| == CalcSize(|g.trajectory|, |g.tolerances|)
  {
    FlattenUniform(g.trajectory, POINT_SIZE);
    FlattenUniform(g.tolerances, TOLERANCE_SIZE);
    SpanIsProduct(|g.trajectory|, POINT_SIZE);
    SpanIsProduct(|g.tolerances|, TOLERANCE_SIZE);
  }

  lemma Words(b: seq<byte>, at: nat, w0: uint32, w1: uint32, w2: uint32, w3: uint32)
    requires 12 <= at && at + 4 <= |b|
    requires b[0..4] == Put32(w0) && b[4..8] == Put32(w1) && b[8..12] == Put32(w2) && b[at..at + 4] == Put32(w3)
    ensures Get32(b, 0) == w0 && Get32(b, 4) == w1 && Get32(b, 8) == w2 && Get32(b, at) == w3
  {
    GetPut32(w0, b, 0);
    GetPut32(w1, b, 4);
    GetPut32(w2, b, 8);
    GetPut32(w3, b, at);
  }

  lemma EncodedParts(g: Goal, b: seq<byte>)
    requires g.Valid() && Encode(g) <= b
    ensures var at, points, tolerances := ToleranceOffset(|g.trajectory|), Flatten(g.trajectory), Flatten(g.tolerances);
            && at == 12 + |points| && |Encode(g)| == at + 4 + |tolerances|
            && b[0..4] == Put32(g.axes) && b[4..8] == Put32(g.group) && b[8..12] == Put32(|g.trajectory|)
            && b[12..at] == points && b[at..at + 4] == Put32(|g.tolerances|)
            && b[at + 4..at + 4 + |tolerances|] == tolerances
  {
    EncodedLength(g);
    SixParts(b, Put32(g.axes), Put32(g.group), Put32(|g.trajectory|), Flatten(g.trajectory),
             Put32(|g.tolerances|), Flatten(g.tolerances));
  }

  /** The length and the fields of an encoded goal, whatever follows it. */
  lemma EncodedFields(g: Goal, b: seq<byte>)
    requires g.Valid() && Encode(g) <= b
    ensures var n, m := |g.trajectory|, |g.tolerances|;
            var at := ToleranceOffset(n);
            && |Encode(g)| == at + 4 + |Flatten(g.tolerances)| == CalcSize(n, m)
            && Get32(b, 0) == g.axes && Get32(b, 4) == g.group && Get32(b, 8) == n && Get32(b, at) == m
            && at == 12 + |Flatten(g.trajectory)| && b[12..at] == Flatten(g.trajectory)
            && b[at + 4..at + 4 + |Flatten(g.tolerances)|] == Flatten(g.tolerances)
  {
    EncodedLength(g);
    EncodedParts(g, b);
    Words(b, ToleranceOffset(|g.trajectory|), g.axes, g.group, |g.trajectory|, |g.tolerances|);
  }

  lemma BlocksAt(b: seq<byte>, at: nat, blocks: seq<seq<byte>>, width: nat, end: nat)
    requires forall c :: c in blocks ==> |c| == width
    requires at <= end <= |b| && b[at..end] == Flatten(blocks)
    ensures at + Span(|blocks|, width) == end && Blocks(b, at, width, |blocks|) == blocks
  {
    FlattenUniform(blocks, width);
    BlocksOfFlatten(b, at, blocks, width);
  }

  lemma PointsDecoded(g: Goal, b: seq<byte>)
    requires g.Valid() && Encode(g) <= b
    ensures HEADER_SIZE + Span(|g.trajectory|, POINT_SIZE) == ToleranceOffset(|g.trajectory|) <= |b|
    ensures Blocks(b, HEADER_SIZE, POINT_SIZE, |g.trajectory|) == g.trajectory
  {
    EncodedFields(g, b);
    BlocksAt(b, HEADER_SIZE, g.trajectory, POINT_SIZE, ToleranceOffset(|g.trajectory|));
  }

  lemma TolerancesDecoded(g: Goal, b: seq<byte>)
    requires g.Valid() && Encode(g) <= b
    ensures var at, m := ToleranceOffset(|g.trajectory|) + 4, |g.tolerances|;
            && at + Span(m, TOLERANCE_SIZE) == CalcSize(|g.trajectory|, m) <= |b|
            && Blocks(b, at, TOLERANCE_SIZE, m) == g.tolerances
  {
    EncodedFields(g, b);
    var at := ToleranceOffset(|g.trajectory|) + 4;
    BlocksAt(b, at, g.tolerances, TOLERANCE_SIZE, CalcSize(|g.trajectory|, |g.tolerances|));
  }

  /** Whatever follows it, an encoded goal decodes to itself. */
  lemma DecodeEncode(g: Goal, b: seq<byte>)
    requires g.Valid() && Encode(g) <= b
    ensures Complete(b) && Decode(b) == g
  {
    EncodedFields(g, b);
    PointsDecoded(g, b);
    TolerancesDecoded(g, b);
  }

  /** The validator's verdict within the bound, in terms of the bytes alone. */
  lemma AcceptedIsComplete(data: seq<byte>, beyond: uint32)
    requires |data| < TWO_32 && |data| >= HEADER_SIZE && Get32(data, 8) <= MAX_COUNT
    ensures FromPayload(data, beyond) <==>
              && Complete(data) && Get32(data, 8) > 0
              && (var tol := Get32(data, ToleranceOffset(Get32(data, 8))); tol == 0 || tol == Get32(data, 8))
    ensures FromPayload(data, beyond) ==>
              RequiredSize(data) == CalcSize(Get32(data, 8), Get32(data, ToleranceOffset(Get32(data, 8))))
  {
    var traj := Get32(data, 8);
    var at := ToleranceOffset(traj);
    SmallCountsAreExact(|data|, traj, if at + 4 <= |data| then Get32(data, at) else beyond);
  }

  /** Any encoded goal, with anything after it, passes the validator and decodes to itself. */
  lemma EncodeRoundTrip(g: Goal, b: seq<byte>, beyond: uint32)
    requires g.Valid() && Encode(g) <= b && |b| < TWO_32
    ensures FromPayload(b, beyond) && Complete(b) && Decode(b) == g
    ensures RequiredSize(b) == |Encode(g)| == CalcSize(|g.trajectory|, |g.tolerances|)
    ensures b[..RequiredSize(b)] == Encode(g)
  {
    EncodedFields(g, b);
    DecodeEncode(g, b);
    AcceptedIsComplete(b, beyond);
  }

  lemma BlocksCover(b: seq<byte>, at: nat, width: nat, count: nat, end: nat)
    requires end == at + count * width && end <= |b|
    ensures at + Span(count, width) == end
    ensures Flatten(Blocks(b, at, width, count)) == b[at..end]
    ensures forall c :: c in Blocks(b, at, width, count) ==> |c| == width
  {
    SpanIsProduct(count, width);
    FlattenOfBlocks(b, at, width, count);
    BlockWidths(b, at, width, count);
  }

  /** What decoding a complete payload's two arrays leaves of its bytes: all of them. */
  lemma DecodedParts(b: seq<byte>)
    requires Complete(b) && Get32(b, 8) <= MAX_COUNT
    ensures var g, traj := Decode(b), Get32(b, 8);
            var at := ToleranceOffset(traj);
            var tol := Get32(b, at);
            && |g.trajectory| == traj && |g.tolerances| == tol
            && Flatten(g.trajectory) == b[12..at] && Flatten(g.tolerances) == b[at + 4..CalcSize(traj, tol)]
            && (forall p :: p in g.trajectory ==> |p| == POINT_SIZE)
            && (forall t :: t in g.tolerances ==> |t| == TOLERANCE_SIZE)
  {
    var traj := Get32(b, 8);
    var at := ToleranceOffset(traj);
    var tol := Get32(b, at);
    BlocksCover(b, HEADER_SIZE, POINT_SIZE, traj, at);
    BlocksCover(b, at + 4, TOLERANCE_SIZE, tol, CalcSize(traj, tol));
    var points, tolerances := Blocks(b, HEADER_SIZE, POINT_SIZE, traj), Blocks(b, at + 4, TOLERANCE_SIZE, tol);
    assert Decode(b) == Goal(Get32(b, 0), Get32(b, 4), points, tolerances);
  }

  lemma DecodedWords(b: seq<byte>)
    requires Complete(b)
    ensures var g, at := Decode(b), ToleranceOffset(Get32(b, 8));
            && Put32(g.axes) == b[0..4] && Put32(g.group) == b[4..8]
            && Put32(|g.trajectory|) == b[8..12] && Put32(|g.tolerances|) == b[at..at + 4]
  {
    PutGet32(b, 0);
    PutGet32(b, 4);
    PutGet32(b, 8);
    PutGet32(b, ToleranceOffset(Get32(b, 8)));
  }

  lemma JoinSix(b: seq<byte>, at: nat, n: nat)
    requires 12 <= at && at + 4 <= n <= |b|
    ensures b[0..4] + b[4..8] + b[8..12] + b[12..at] + b[at..at + 4] + b[at + 4..n] == b[..n]
  {
  }

  /** Conversely every payload the validator accepts, within the bound, starts with an encoded goal. */
  lemma AcceptedIsEncoded(data: seq<byte>, beyond: uint32)
    requires |data| < TWO_32 && FromPayload(data, beyond) && Get32(data, 8) <= MAX_COUNT
    ensures Complete(data) && Decode(data).Valid()
    ensures RequiredSize(data) == |Encode(Decode(data))| && Encode(Decode(data)) <= data
  {
    AcceptedIsComplete(data, beyond);
    DecodedParts(data);
    DecodedWords(data);
    JoinSix(data, ToleranceOffset(Get32(data, 8)), RequiredSize(data));
    EncodingOf(Decode(data), data[..RequiredSize(data)]);
  }

  lemma EncodingOf(g: Goal, e: seq<byte>)
    requires g.Valid()
    requires Put32(g.axes) + Put32(g.group) + Put32(|g.trajectory|) + Flatten(g.trajectory)
             + Put32(|g.tolerances|) + Flatten(g.tolerances) == e
    ensures Encode(g) == e
  {
  }

  // ---- Deep copy ----

  /** The bytes a deep copy takes from its source. */
  ghost function CopyOf(src: seq<byte>): seq<byte>
    requires Complete(src)
  {
    src[..RequiredSize(src)]
  }

  /** The word found at the tolerance count's place, whether it lies in the payload or past its end. */
  function ToleranceWord(data: seq<byte>, beyond: uint32): uint32
    requires |data| >= HEADER_SIZE
  {
    var at := ToleranceOffset(Get32(data, 8));
    if at + 4 <= |data| then Get32(data, at) else beyond
  }

  /** How many bytes a deep copy takes, in the 32 bits that hold its size. */
  function CopySize(data: seq<byte>, beyond: uint32): (n: nat)
    requires |data| >= HEADER_SIZE
    ensures Complete(data) ==> n == |CopyOf(data)|
    ensures |data| < TWO_32 && FromPayload(data, beyond) ==> n <= |data|
  {
    CalcSize(Get32(data, 8), ToleranceWord(data, beyond)) % TWO_32
  }

  /** The bytes that a deep copy takes of an accepted payload. */
  function StoredCopy(data: seq<byte>, beyond: uint32): seq<byte>
    requires |data| < TWO_32 && FromPayload(data, beyond)
  {
    data[..CopySize(data, beyond)]
  }

  /**
    move_goal_deep_copy into a caller's buffer, of any goal whose bytes can be read, whole or not; `copied` is
    whether the result is not NULL.
   */
  method DeepCopy(src: array<byte>, beyond: uint32, dest: array<byte>, destSize: nat) returns (copied: bool)
    requires src != dest && destSize <= dest.Length && src.Length >= HEADER_SIZE
    requires destSize >= CopySize(src[..], beyond) ==> CopySize(src[..], beyond) <= src.Length
    modifies dest
    ensures copied == (destSize >= CopySize(src[..], beyond))
    ensures copied ==>
              var n := CopySize(src[..], beyond); dest[..] == src[..n] + old(dest[..])[n..]
    ensures copied && Complete(src[..]) ==>
              dest[..] == CopyOf(src[..]) + old(dest[..])[|CopyOf(src[..])|..]
    ensures !copied ==> dest[..] == old(dest[..])
  {
    var required := CopySize(src[..], beyond);
    if destSize < required {
      return false;
    }
    assert src[..][..required] == src[..required];
    forall i | 0 <= i < required {
      dest[i] := src[i];
    }
    copied := true;
  }

  /** A goal, encoded and with anything appended, is copied as its encoding alone; a copy of that is itself. */
  lemma CopyOfEncoded(g: Goal, b: seq<byte>, beyond: uint32)
    requires g.Valid() && Encode(g) <= b && |b| < TWO_32
    ensures Complete(b) && CopyOf(b) == Encode(g) && |CopyOf(b)| == CalcSize(|g.trajectory|, |g.tolerances|)
    ensures FromPayload(CopyOf(b), beyond) && Complete(CopyOf(b))
    ensures Decode(CopyOf(b)) == g && CopyOf(CopyOf(b)) == CopyOf(b)
  {
    EncodeRoundTrip(g, b, beyond);
    EncodeRoundTrip(g, Encode(g), beyond);
  }

  /** The same for every accepted payload: its copy means what it means, and copying it again changes nothing. */
  lemma CopyOfAccepted(data: seq<byte>, beyond: uint32)
    requires |data| < TWO_32 && FromPayload(data, beyond) && Get32(data, 8) <= MAX_COUNT
    ensures Complete(data) && FromPayload(CopyOf(data), beyond) && Complete(CopyOf(data))
    ensures Decode(CopyOf(data)) == Decode(data) && CopyOf(CopyOf(data)) == CopyOf(data)
    ensures |CopyOf(data)| == CalcSize(Get32(data, 8), Get32(data, ToleranceOffset(Get32(data, 8))))
  {
    AcceptedIsComplete(data, beyond);
    AcceptedIsEncoded(data, beyond);
    CopyOfEncoded(Decode(data), data, beyond);
  }
}
