/**
 * The closed-loop seek of `Idasen::move_to_target`: validate the target,
 * read the height once (only logged), then loop reading the height and
 * writing Stop, Up or Down until the height is within 100 units of the
 * target. The 200 ms sleep between rounds is not modelled.
 */
module Controller {
  import opened Basics
  import opened Protocol
  import opened Session

  /** Within this distance (1 cm) the target counts as reached. */
  const TOLERANCE: int := 100

  /** What one round of the loop does with the height it read. */
  datatype Decision =
    | Arrived   // equal to the target: return at once, no Stop
    | Settle    // within tolerance: write Stop and finish
    | Raise     // below the target: write Up
    | Lower     // above the target: write Down
    | Overflow(reason: string)  // `target - current` or its `abs` overflows `i16`: a panic

  /**
   * The comparisons of one round, in the order the source makes them:
   * `cmp` first, then the `i16` subtraction, then `abs() <= 100`.
   */
  function Decide(target: int, current: int): Decision {
    var delta := target - current;
    if delta == 0 then Arrived
    else if delta < -0x8000 || delta > 0x7FFF then Overflow("attempt to subtract with overflow")
    else if delta == -0x8000 then Overflow("attempt to negate with overflow")
    else if -TOLERANCE <= delta <= TOLERANCE then Settle
    else if delta > 0 then Raise
    else Lower
  }

  /** The command a moving decision writes. */
  function CommandFor(d: Decision): Command
    requires d.Settle? || d.Raise? || d.Lower?
  {
    match d
    case Settle => Stop
    case Raise => Up
    case Lower => Down
  }

  /** A seek's result, the requests it sent and the parts of the two scripts left over. */
  datatype Trace = Trace(result: Result<(), Error>, ops: seq<GattOp>, repliesLeft: seq<Reply>, acksLeft: seq<Ack>)

  function Prepend(pre: seq<GattOp>, t: Trace): Trace {
    t.(ops := pre + t.ops)
  }

  lemma AppendAssoc(a: seq<GattOp>, b: seq<GattOp>, c: seq<GattOp>)
    ensures (a + b) + c == a + (b + c)
  {
  }

  lemma PrependPrepend(pre: seq<GattOp>, more: seq<GattOp>, t: Trace)
    ensures Prepend(pre, Prepend(more, t)) == Prepend(pre + more, t)
  {
    assert pre + (more + t.ops) == (pre + more) + t.ops;
  }

  /** The `while !position_reached` loop, from the state given by the two scripts. */
  function SeekLoop(target: int, b: Binding, replies: seq<Reply>, acks: seq<Ack>): Trace
    decreases |replies|
  {
    var reply := NextReply(replies);
    var read := ReadReq(b.position, reply);
    match SampleOfReply(reply)
    case Err(e) => Trace(Err(e), [read], Rest(replies), acks)
    case Ok(ps) =>
      var d := Decide(target, AsI16(ps.position));
      if d.Arrived? then Trace(Ok(()), [read], Rest(replies), acks)
      else if d.Overflow? then Trace(Err(Panic(d.reason)), [read], Rest(replies), acks)
      else
        var ack := NextAck(acks);
        var write := WriteReq(b.control, Payload(CommandFor(d)), WithoutResponse, ack);
        if ack.Failed? then Trace(Err(BtlePlugError(ack.error)), [read, write], Rest(replies), Rest(acks))
        else if d.Settle? then Trace(Ok(()), [read, write], Rest(replies), Rest(acks))
        else Prepend([read, write], SeekLoop(target, b, Rest(replies), Rest(acks)))
  }

  /** What `move_to_target` does: the range check, the initial read, then the loop. */
  function MoveToTargetSpec(target: u16, b: Binding, replies: seq<Reply>, acks: seq<Ack>): Trace {
    if !InHeightRange(target) then Trace(Err(PositionNotInRange), [], replies, acks)
    else
      var reply := NextReply(replies);
      var read := ReadReq(b.position, reply);
      match SampleOfReply(reply)
      case Err(e) => Trace(Err(e), [read], Rest(replies), acks)
      case Ok(_) => Prepend([read], SeekLoop(target, b, Rest(replies), acks))
  }

  /** How one round of the loop ends: another round, or `move_to_target` returns. */
  datatype RoundOutcome = Continue | Finished(result: Result<(), Error>)

  /**
   * One round of the loop body: read the height, decide, and write the
   * command; `round` is what this round sent. The round that finishes the
   * loop covers both the early `return`s and `position_reached = true`.
   */
  method SeekRound(desk: Peripheral, b: Binding, target: u16) returns (out: RoundOutcome, ghost round: seq<GattOp>)
    modifies desk`replies, desk`acks, desk`log
    ensures desk.log == old(desk.log) + round && |desk.replies| <= |old(desk.replies)|
    ensures var t := SeekLoop(target, b, old(desk.replies), old(desk.acks));
      match out
      case Continue =>
        |desk.replies| < |old(desk.replies)| && t == Prepend(round, SeekLoop(target, b, desk.replies, desk.acks))
      case Finished(r) => t == Trace(r, round, desk.replies, desk.acks)
  {
    ghost var read := ReadReq(b.position, NextReply(desk.replies));
    var current := Position(desk, b);
    if current.Err? {
      return Finished(Err(current.error)), [read];
    }
    var d := Decide(target, AsI16(current.value));
    if d.Arrived? {
      return Finished(Ok(())), [read];
    }
    if d.Overflow? {
      return Finished(Err(Panic(d.reason))), [read];
    }
    var a := SendCommand(desk, b, CommandFor(d));
    round := [read, WriteReq(b.control, Payload(CommandFor(d)), WithoutResponse, a)];
    if a.Failed? {
      out := Finished(Err(BtlePlugError(a.error)));
    } else if d.Settle? {
      out := Finished(Ok(()));
    } else {
      out := Continue;
    }
  }

  /**
   * `move_to_target` on a bound desk. The loop runs while the last round's
   * outcome is `Continue`, which is `!position_reached` in the source.
   */
  method MoveToTarget(desk: Peripheral, b: Binding, target: u16) returns (r: Result<(), Error>)
    modifies desk`replies, desk`acks, desk`log
    ensures var t := MoveToTargetSpec(target, b, old(desk.replies), old(desk.acks));
      r == t.result && desk.log == old(desk.log) + t.ops &&
      desk.replies == t.repliesLeft && desk.acks == t.acksLeft
  {
    if !(MIN_HEIGHT <= target <= MAX_HEIGHT) {
      return Err(PositionNotInRange);
    }
    ghost var spec := MoveToTargetSpec(target, b, old(desk.replies), old(desk.acks));
    // `last_position` is read once and used only for logging
    var lastPosition := Position(desk, b);
    if lastPosition.Err? {
      return Err(lastPosition.error);
    }
    ghost var ops := [ReadReq(b.position, NextReply(old(desk.replies)))];
    var outcome := Continue;
    while outcome.Continue?
      invariant desk.log == old(desk.log) + ops
      invariant outcome.Continue? ==> spec == Prepend(ops, SeekLoop(target, b, desk.replies, desk.acks))
      invariant outcome.Finished? ==> spec == Trace(outcome.result, ops, desk.replies, desk.acks)
      decreases |desk.replies| + (if outcome.Continue? then 1 else 0)
    {
      ghost var round;
      outcome, round := SeekRound(desk, b, target);
      if outcome.Continue? {
        PrependPrepend(ops, round, SeekLoop(target, b, desk.replies, desk.acks));
      }
      AppendAssoc(old(desk.log), ops, round);
      ops := ops + round;
    }
    return outcome.result;
  }

  // ---- The log of a seek ----

  /** `op` is a read whose reply decodes. */
  predicate GoodRead(op: GattOp) {
    op.ReadReq? && SampleOfReply(op.reply).Ok?
  }

  /** The height a good read reports, as the loop sees it (cast to `i16`). */
  function ReadingOf(op: GattOp): int
    requires GoodRead(op)
  {
    AsI16(SampleOfReply(op.reply).value.position)
  }

  predicate IsWriteOf(op: GattOp, cmd: Command) {
    op.WriteReq? && op.payload == Payload(cmd)
  }

  /** The command written after reading `v`: Up above, Down below, Stop within tolerance. */
  predicate Commanded(target: int, v: int, payload: seq<byte>) {
    var d := target - v;
    (payload == Payload(Up) <==> TOLERANCE < d) &&
    (payload == Payload(Down) <==> d < -TOLERANCE) &&
    (payload == Payload(Stop) <==> d != 0 && -TOLERANCE <= d <= TOLERANCE)
  }

  /** Requests go to the right characteristic: reads to position, writes (without response) to control. */
  predicate OnBinding(ops: seq<GattOp>, b: Binding) {
    forall i :: 0 <= i < |ops| ==>
      (ops[i].ReadReq? && ops[i].c == b.position) ||
      (ops[i].WriteReq? && ops[i].c == b.control && ops[i].mode == WithoutResponse)
  }

  /** Each write follows a good read and is the command that reading calls for. */
  predicate WritesFollowReadings(ops: seq<GattOp>, target: int) {
    forall i :: 0 <= i < |ops| && ops[i].WriteReq? ==>
      i > 0 && GoodRead(ops[i - 1]) && Commanded(target, ReadingOf(ops[i - 1]), ops[i].payload)
  }

  /** Only the last request may have failed, and only the last may be a Stop. */
  predicate AbortsAndStopsLast(ops: seq<GattOp>) {
    forall i :: 0 <= i < |ops| - 1 ==> Succeeded(ops[i]) && !IsWriteOf(ops[i], Stop)
  }

  /** The log shape `SeekLoopShape` establishes. */
  predicate SeekShape(ops: seq<GattOp>, b: Binding, target: int) {
    |ops| >= 1 && ops[0].ReadReq? && OnBinding(ops, b) &&
    WritesFollowReadings(ops, target) && AbortsAndStopsLast(ops) &&
    forall i :: 0 <= i < |ops| - 1 && ops[i].ReadReq? ==> ops[i + 1].WriteReq?
  }

  /** A moving decision writes the command the reading calls for. */
  lemma DecisionCommanded(target: int, v: int)
    requires var d := Decide(target, v); !d.Arrived? && !d.Overflow?
    ensures Commanded(target, v, Payload(CommandFor(Decide(target, v))))
  {
    var c := CommandFor(Decide(target, v));
    PayloadInjective(c, Up);
    PayloadInjective(c, Down);
    PayloadInjective(c, Stop);
  }

  /** A good read and an acknowledged Up or Down in front of a seek log keep its shape. */
  lemma SeekShapeCons(target: int, b: Binding, read: GattOp, write: GattOp, rest: seq<GattOp>)
    requires read.ReadReq? && read.c == b.position && GoodRead(read)
    requires write.WriteReq? && write.c == b.control && write.mode == WithoutResponse && write.ack.Done?
    requires Commanded(target, ReadingOf(read), write.payload) && !IsWriteOf(write, Stop)
    requires SeekShape(rest, b, target)
    ensures SeekShape([read, write] + rest, b, target)
  {
    var ops := [read, write] + rest;
    assert forall i :: 2 <= i < |ops| ==> ops[i] == rest[i - 2];
  }

  /** The shape of the loop's log, which the lemmas below lift to the whole seek. */
  lemma {:induction false} SeekLoopShape(target: int, b: Binding, replies: seq<Reply>, acks: seq<Ack>)
    ensures SeekShape(SeekLoop(target, b, replies, acks).ops, b, target)
    decreases |replies|
  {
    var t := SeekLoop(target, b, replies, acks);
    var reply := NextReply(replies);
    var read := ReadReq(b.position, reply);
    if SampleOfReply(reply).Ok? {
      var v := AsI16(SampleOfReply(reply).value.position);
      var d := Decide(target, v);
      assert GoodRead(read) && ReadingOf(read) == v;
      if !d.Arrived? && !d.Overflow? {
        var ack := NextAck(acks);
        var write := WriteReq(b.control, Payload(CommandFor(d)), WithoutResponse, ack);
        DecisionCommanded(target, v);
        if ack.Done? && !d.Settle? {
          SeekLoopShape(target, b, Rest(replies), Rest(acks));
          PayloadInjective(CommandFor(d), Stop);
          SeekShapeCons(target, b, read, write, SeekLoop(target, b, Rest(replies), Rest(acks)).ops);
        }
      }
    }
  }

  /** How a seek log ends, as `SeekLoopEnd` states it. */
  predicate SeekEnd(t: Trace, target: int) {
    |t.ops| >= 1 &&
    (forall i :: 0 <= i < |t.ops| && GoodRead(t.ops[i]) && ReadingOf(t.ops[i]) == target ==>
      i == |t.ops| - 1 && t.result == Ok(())) &&
    var last := t.ops[|t.ops| - 1];
    (t.result.Ok? <==>
      (GoodRead(last) && ReadingOf(last) == target) || (IsWriteOf(last, Stop) && Succeeded(last))) &&
    (t.result.Err? && t.result.error.BtlePlugError? ==> !Succeeded(last) && FailureOf(last) == t.result.error.cause) &&
    (!Succeeded(last) ==> t.result == Err(BtlePlugError(FailureOf(last))))
  }

  /** A read off the target and a write in front of a seek keep how it ends. */
  lemma SeekEndCons(target: int, read: GattOp, write: GattOp, u: Trace)
    requires GoodRead(read) && ReadingOf(read) != target && write.WriteReq?
    requires SeekEnd(u, target)
    ensures SeekEnd(Prepend([read, write], u), target)
  {
    var ops := [read, write] + u.ops;
    assert forall i :: 2 <= i < |ops| ==> ops[i] == u.ops[i - 2];
    assert ops[|ops| - 1] == u.ops[|u.ops| - 1];
  }

  /** How the loop ends: its result in terms of its last request. */
  lemma {:induction false} SeekLoopEnd(target: int, b: Binding, replies: seq<Reply>, acks: seq<Ack>)
    ensures SeekEnd(SeekLoop(target, b, replies, acks), target)
    decreases |replies|
  {
    var reply := NextReply(replies);
    var read := ReadReq(b.position, reply);
    if SampleOfReply(reply).Ok? {
      var v := AsI16(SampleOfReply(reply).value.position);
      var d := Decide(target, v);
      assert GoodRead(read) && ReadingOf(read) == v;
      if !d.Arrived? && !d.Overflow? {
        var ack := NextAck(acks);
        var write := WriteReq(b.control, Payload(CommandFor(d)), WithoutResponse, ack);
        PayloadInjective(CommandFor(d), Stop);
        if ack.Done? && !d.Settle? {
          SeekLoopEnd(target, b, Rest(replies), Rest(acks));
          SeekEndCons(target, read, write, SeekLoop(target, b, Rest(replies), Rest(acks)));
        }
      }
    }
  }

  // ---- Properties of the whole seek ----

  /** A target outside `[MIN_HEIGHT, MAX_HEIGHT]` fails with `PositionNotInRange` before any request. */
  lemma MoveToTargetOutOfRange(target: u16, b: Binding, replies: seq<Reply>, acks: seq<Ack>)
    requires !InHeightRange(target)
    ensures MoveToTargetSpec(target, b, replies, acks) == Trace(Err(PositionNotInRange), [], replies, acks)
  {
  }

  /**
   * The shape of every seek's log: an initial read whose value only feeds
   * logging, so the loop's own read follows it; reads of position and
   * writes to control only; every write preceded by a good read and being
   * the command that reading calls for (Up, Down, or Stop within
   * tolerance); every loop reading that is not the last request followed
   * by exactly one write; the log stops at the first failure and at the
   * first Stop.
   */
  lemma MoveToTargetLog(target: u16, b: Binding, replies: seq<Reply>, acks: seq<Ack>)
    ensures var t := MoveToTargetSpec(target, b, replies, acks);
      (InHeightRange(target) ==> |t.ops| >= 1 && t.ops[0] == ReadReq(b.position, NextReply(replies))) &&
      OnBinding(t.ops, b) && WritesFollowReadings(t.ops, target) && AbortsAndStopsLast(t.ops)
    ensures var t := MoveToTargetSpec(target, b, replies, acks);
      forall i :: 1 <= i < |t.ops| - 1 && t.ops[i].ReadReq? ==> t.ops[i + 1].WriteReq?
    ensures var t := MoveToTargetSpec(target, b, replies, acks);
      |t.ops| >= 2 ==> t.ops[1].ReadReq?
  {
    var t := MoveToTargetSpec(target, b, replies, acks);
    if InHeightRange(target) && SampleOfReply(NextReply(replies)).Ok? {
      var u := SeekLoop(target, b, Rest(replies), acks);
      SeekLoopShape(target, b, Rest(replies), acks);
      assert forall i :: 1 <= i < |t.ops| ==> t.ops[i] == u.ops[i - 1];
    }
  }

  /**
   * A loop reading equal to the target ends the seek at once with `Ok` and
   * no Stop; otherwise `Ok` means the last reading was within tolerance and
   * a Stop was written and acknowledged.
   */
  lemma MoveToTargetSuccess(target: u16, b: Binding, replies: seq<Reply>, acks: seq<Ack>)
    ensures var t := MoveToTargetSpec(target, b, replies, acks);
      forall i :: 1 <= i < |t.ops| && GoodRead(t.ops[i]) && ReadingOf(t.ops[i]) == target ==>
        i == |t.ops| - 1 && t.result == Ok(())
    ensures var t := MoveToTargetSpec(target, b, replies, acks);
      t.result.Ok? <==>
        InHeightRange(target) && |t.ops| >= 2 &&
        ((GoodRead(t.ops[|t.ops| - 1]) && ReadingOf(t.ops[|t.ops| - 1]) == target) ||
         (IsWriteOf(t.ops[|t.ops| - 1], Stop) && Succeeded(t.ops[|t.ops| - 1])))
  {
    var t := MoveToTargetSpec(target, b, replies, acks);
    if InHeightRange(target) && SampleOfReply(NextReply(replies)).Ok? {
      var u := SeekLoop(target, b, Rest(replies), acks);
      SeekLoopEnd(target, b, Rest(replies), acks);
      assert forall i :: 1 <= i < |t.ops| ==> t.ops[i] == u.ops[i - 1];
      assert t.ops[|t.ops| - 1] == u.ops[|u.ops| - 1];
    }
  }

  /**
   * A read or write error ends the seek and is returned unchanged: a transport
   * error result is the last request's error, and when the last request (the
   * initial read, a loop read, or a Stop, Up or Down write) failed, its error
   * is the result.
   */
  lemma MoveToTargetTransportError(target: u16, b: Binding, replies: seq<Reply>, acks: seq<Ack>)
    ensures var t := MoveToTargetSpec(target, b, replies, acks);
      t.result.Err? && t.result.error.BtlePlugError? ==>
        |t.ops| >= 1 && !Succeeded(t.ops[|t.ops| - 1]) && FailureOf(t.ops[|t.ops| - 1]) == t.result.error.cause
    ensures var t := MoveToTargetSpec(target, b, replies, acks);
      |t.ops| >= 1 && !Succeeded(t.ops[|t.ops| - 1]) ==> t.result == Err(BtlePlugError(FailureOf(t.ops[|t.ops| - 1])))
  {
    var t := MoveToTargetSpec(target, b, replies, acks);
    if InHeightRange(target) && SampleOfReply(NextReply(replies)).Ok? {
      var u := SeekLoop(target, b, Rest(replies), acks);
      SeekLoopEnd(target, b, Rest(replies), acks);
      assert t.ops[|t.ops| - 1] == u.ops[|u.ops| - 1];
    }
  }

  // ---- Convergence against a desk that moves towards the target ----

  function Dist(a: int, b: int): nat {
    if a >= b then a - b else b - a
  }

  /** One round of a desk that moves `step` units towards the target, stopping at its end stops. */
  function NextHeight(target: int, p: int, step: int): int {
    if target > p then (if p + step > MAX_HEIGHT then MAX_HEIGHT else p + step)
    else (if p - step < MIN_HEIGHT then MIN_HEIGHT else p - step)
  }

  /**
   * The heights such a desk reports to the loop, one per round, until one
   * is within tolerance. A step of at most twice the tolerance never jumps
   * over the tolerance window.
   */
  function Trajectory(target: int, p: int, step: int): (ps: seq<int>)
    requires InHeightRange(target) && InHeightRange(p) && 0 < step <= 2 * TOLERANCE
    ensures |ps| >= 1 && ps[0] == p
    ensures forall i :: 0 <= i < |ps| ==> InHeightRange(ps[i])
    ensures Dist(target, ps[|ps| - 1]) <= TOLERANCE
    ensures forall i :: 0 <= i < |ps| - 1 ==> Dist(target, ps[i]) > TOLERANCE
    decreases Dist(target, p)
  {
    if Dist(target, p) <= TOLERANCE then [p]
    else
      NextHeightFacts(target, p, step);
      [p] + Trajectory(target, NextHeight(target, p, step), step)
  }

  /** A round stays in range and either lands within tolerance or closes the distance by a full step. */
  lemma NextHeightFacts(target: int, p: int, step: int)
    requires InHeightRange(target) && InHeightRange(p) && 0 < step <= 2 * TOLERANCE
    requires Dist(target, p) > TOLERANCE
    ensures InHeightRange(NextHeight(target, p, step))
    ensures Dist(target, NextHeight(target, p, step)) < Dist(target, p)
    ensures Dist(target, NextHeight(target, p, step)) <= TOLERANCE ||
            Dist(target, NextHeight(target, p, step)) == Dist(target, p) - step
  {
  }

  lemma StepArith(n: int, step: int, d1: int, d: int)
    requires (n - 1) * step < d1 + step && d1 == d - step
    ensures n * step < d + step
  {
    assert n * step == (n - 1) * step + step;
  }

  /** Each round before the last closes the distance by a full step, so there are at most ceil(distance / step) of them. */
  lemma {:induction false} TrajectoryBound(target: int, p: int, step: int)
    requires InHeightRange(target) && InHeightRange(p) && 0 < step <= 2 * TOLERANCE
    ensures (|Trajectory(target, p, step)| - 1) * step < Dist(target, p) + step
    decreases Dist(target, p)
  {
    if Dist(target, p) > TOLERANCE {
      var next := NextHeight(target, p, step);
      NextHeightFacts(target, p, step);
      var n := |Trajectory(target, next, step)|;
      assert |Trajectory(target, p, step)| - 1 == n;
      if Dist(target, next) > TOLERANCE {
        TrajectoryBound(target, next, step);
        StepArith(n, step, Dist(target, next), Dist(target, p));
      } else {
        assert n == 1;
      }
    }
  }

  /** The reply the desk gives when it stands at height `h` (speed 0). */
  function HeightReply(h: int): (r: Reply)
    requires InHeightRange(h)
    ensures SampleOfReply(r) == Ok(PositionSpeed(h, 0))
  {
    DecodeEncode(PositionSpeed(h, 0));
    Bytes(PositionSpeedToBytes(PositionSpeed(h, 0)))
  }

  function HeightReplies(ps: seq<int>): (rs: seq<Reply>)
    requires forall i :: 0 <= i < |ps| ==> InHeightRange(ps[i])
    ensures |rs| == |ps|
  {
    if ps == [] then [] else [HeightReply(ps[0])] + HeightReplies(ps[1..])
  }

  /** The number of Up and Down writes in a log. */
  function Moves(ops: seq<GattOp>): nat {
    if ops == [] then 0
    else (if IsWriteOf(ops[0], Up) || IsWriteOf(ops[0], Down) then 1 else 0) + Moves(ops[1..])
  }

  lemma MovesRound(read: GattOp, write: GattOp, rest: seq<GattOp>)
    requires read.ReadReq?
    ensures Moves([read, write] + rest) == (if IsWriteOf(write, Up) || IsWriteOf(write, Down) then 1 else 0) + Moves(rest)
  {
    assert ([read, write] + rest)[1..] == [write] + rest;
    assert ([write] + rest)[1..] == rest;
  }

  /** Between two heights of the desk's range the subtraction cannot overflow. */
  lemma DecideInRange(target: int, h: int)
    requires InHeightRange(target) && InHeightRange(h)
    ensures Decide(target, h) ==
      if h == target then Arrived
      else if Dist(target, h) <= TOLERANCE then Settle
      else if target > h then Raise
      else Lower
  {
  }

  /**
   * A height above 0x7FFF wraps to a negative `i16` in the loop: depending
   * on how far above, the round panics on the subtraction or drives the
   * desk Up.
   */
  lemma DecideHighReading(target: u16, h: u16)
    requires InHeightRange(target) && h >= 0x8000
    ensures Decide(target, AsI16(h)) ==
      if h <= target + 0x8000 then Overflow("attempt to subtract with overflow") else Raise
  {
  }

  /** One moving round of the loop, unfolded. */
  lemma SeekLoopMoveRound(target: int, b: Binding, replies: seq<Reply>, acks: seq<Ack>, h: int)
    requires SampleOfReply(NextReply(replies)).Ok? && AsI16(SampleOfReply(NextReply(replies)).value.position) == h
    requires (Decide(target, h).Raise? || Decide(target, h).Lower?) && NextAck(acks).Done?
    ensures SeekLoop(target, b, replies, acks) ==
      Prepend([ReadReq(b.position, NextReply(replies)),
               WriteReq(b.control, Payload(CommandFor(Decide(target, h))), WithoutResponse, Done)],
              SeekLoop(target, b, Rest(replies), Rest(acks)))
  {
  }

  /** The last round of the loop when the reading is within tolerance and any Stop is acknowledged. */
  lemma SeekLoopFinalRound(target: int, b: Binding, replies: seq<Reply>, acks: seq<Ack>, h: int)
    requires InHeightRange(target) && InHeightRange(h) && Dist(target, h) <= TOLERANCE
    requires SampleOfReply(NextReply(replies)).Ok? && AsI16(SampleOfReply(NextReply(replies)).value.position) == h
    requires NextAck(acks).Done?
    ensures var t := SeekLoop(target, b, replies, acks);
      t.result == Ok(()) && t.repliesLeft == Rest(replies) && Moves(t.ops) == 0
  {
    var t := SeekLoop(target, b, replies, acks);
    if h != target {
      PayloadInjective(Stop, Up);
      PayloadInjective(Stop, Down);
      assert t.ops[1..][1..] == [];
    } else {
      assert t.ops[1..] == [];
    }
  }

  /** All acks of the script are `Done`, and there are at least `n` of them. */
  predicate AllDone(acks: seq<Ack>, n: nat) {
    |acks| >= n && forall i :: 0 <= i < |acks| ==> acks[i] == Done
  }

  /**
   * Heights a desk reports while it approaches the target: all in range,
   * the last within tolerance and every earlier one outside it.
   */
  predicate Approaches(target: int, hs: seq<int>) {
    |hs| >= 1 && (forall i :: 0 <= i < |hs| ==> InHeightRange(hs[i])) &&
    Dist(target, hs[|hs| - 1]) <= TOLERANCE &&
    forall i :: 0 <= i < |hs| - 1 ==> Dist(target, hs[i]) > TOLERANCE
  }

  /** The inductive step of `SeekLoopConverges`: one Up or Down round in front of a converging rest. */
  lemma SeekLoopConvergesStep(target: u16, b: Binding, hs: seq<int>, acks: seq<Ack>)
    requires InHeightRange(target) && Approaches(target, hs) && |hs| >= 2 && AllDone(acks, |hs|)
    requires var u := SeekLoop(target, b, HeightReplies(hs[1..]), Rest(acks));
      u.result == Ok(()) && u.repliesLeft == [] && Moves(u.ops) == |hs| - 2
    ensures var t := SeekLoop(target, b, HeightReplies(hs), acks);
      t.result == Ok(()) && t.repliesLeft == [] && Moves(t.ops) == |hs| - 1
  {
    var h := hs[0];
    var replies := HeightReplies(hs);
    assert replies == [HeightReply(h)] + HeightReplies(hs[1..]);
    assert NextReply(replies) == HeightReply(h);
    assert Rest(replies) == HeightReplies(hs[1..]);
    assert AsI16(h) == h;
    assert NextAck(acks) == Done;
    assert Dist(target, h) > TOLERANCE;
    DecideInRange(target, h);
    var u := SeekLoop(target, b, Rest(replies), Rest(acks));
    var cmd := CommandFor(Decide(target, h));
    var write := WriteReq(b.control, Payload(cmd), WithoutResponse, Done);
    SeekLoopMoveRound(target, b, replies, acks, h);
    MovesRound(ReadReq(b.position, HeightReply(h)), write, u.ops);
    assert cmd == Up || cmd == Down;
  }

  /**
   * Against a desk that reports heights approaching the target and
   * acknowledges every write, the loop ends `Ok` after reading all of them,
   * with one Up or Down write per reading before the last.
   */
  lemma {:induction false} SeekLoopConverges(target: u16, b: Binding, hs: seq<int>, acks: seq<Ack>)
    requires InHeightRange(target) && Approaches(target, hs) && AllDone(acks, |hs|)
    ensures var t := SeekLoop(target, b, HeightReplies(hs), acks);
      t.result == Ok(()) && t.repliesLeft == [] && Moves(t.ops) == |hs| - 1
    decreases |hs|
  {
    if |hs| >= 2 {
      forall i | 0 <= i < |hs| - 1 ensures hs[1..][i] == hs[i + 1] { }
      assert Approaches(target, hs[1..]);
      forall i | 0 <= i < |Rest(acks)| ensures Rest(acks)[i] == acks[i + 1] { }
      SeekLoopConverges(target, b, hs[1..], Rest(acks));
      SeekLoopConvergesStep(target, b, hs, acks);
    } else {
      var replies := HeightReplies(hs);
      assert replies == [HeightReply(hs[0])];
      assert NextReply(replies) == HeightReply(hs[0]);
      assert AsI16(hs[0]) == hs[0];
      assert NextAck(acks) == Done;
      SeekLoopFinalRound(target, b, replies, acks, hs[0]);
    }
  }

  /**
   * The whole seek against a desk that reports approaching heights, the
   * first of them to both the initial read and the first loop read.
   */
  lemma MoveToTargetApproach(target: u16, b: Binding, p: int, hs: seq<int>, acks: seq<Ack>)
    requires InHeightRange(target) && Approaches(target, hs) && hs[0] == p && AllDone(acks, |hs|)
    ensures var t := MoveToTargetSpec(target, b, [HeightReply(p)] + HeightReplies(hs), acks);
      t.result == Ok(()) && t.repliesLeft == [] && Moves(t.ops) == |hs| - 1
  {
    var replies := [HeightReply(p)] + HeightReplies(hs);
    assert NextReply(replies) == HeightReply(p);
    assert Rest(replies) == HeightReplies(hs);
    SeekLoopConverges(target, b, hs, acks);
    var u := SeekLoop(target, b, HeightReplies(hs), acks);
    var t := MoveToTargetSpec(target, b, replies, acks);
    assert t.ops == [ReadReq(b.position, HeightReply(p))] + u.ops;
    assert t.ops[1..] == u.ops;
  }

  /**
   * The whole seek against a desk that moves `step <= 200` units per round
   * towards the target and acknowledges every write: `Ok`, with one Up or
   * Down write per trajectory height before the last (at most
   * ceil(|start - target| / step) of them, by `TrajectoryBound`), and the
   * last height read within 100 units of the target.
   */
  lemma MoveToTargetConverges(target: u16, b: Binding, p: int, step: int, acks: seq<Ack>)
    requires InHeightRange(target) && InHeightRange(p) && 0 < step <= 2 * TOLERANCE
    requires AllDone(acks, |Trajectory(target, p, step)|)
    ensures var traj := Trajectory(target, p, step);
      var t := MoveToTargetSpec(target, b, [HeightReply(p)] + HeightReplies(traj), acks);
      t.result == Ok(()) && t.repliesLeft == [] && Moves(t.ops) == |traj| - 1 &&
      Dist(target, traj[|traj| - 1]) <= TOLERANCE
  {
    var traj := Trajectory(target, p, step);
    assert Approaches(target, traj);
    MoveToTargetApproach(target, b, p, traj, acks);
  }

}
