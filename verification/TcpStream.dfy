/**
 * The retry loops over `send` and `recv` as functions of a schedule of short
 * transfers, interrupts and failures, the exchange of many messages between
 * two ends with unrelated schedules, and what is left after a failure.
 */
module TcpStream {
  import opened Bytes
  import opened TcpFrame

  /** What one `send` or `recv` call does; `Chunk` names how much the kernel is ready to move. */
  datatype Event = Chunk(size: nat) | Interrupted | Failed

  /** A schedule of calls. When it is used up, the next call fails. */
  type Plan = seq<Event>

  datatype Progress = Progress(moved: nat, plan: Plan, ok: bool)

  function Min(a: nat, b: nat): nat {
    if a < b then a else b
  }

  /**
   * A retry loop that wants `want` bytes of which `avail` exist: an interrupt
   * is tried again, a failure or a call that moves nothing ends the loop.
   */
  function Transfer(plan: Plan, want: nat, avail: nat): (p: Progress)
    ensures p.moved <= want && p.moved <= avail && (p.ok <==> p.moved == want)
    decreases |plan|
  {
    if want == 0 then Progress(0, plan, true)
    else if plan == [] then Progress(0, [], false)
    else
      match plan[0]
      case Interrupted => Transfer(plan[1..], want, avail)
      case Failed => Progress(0, plan[1..], false)
      case Chunk(size) =>
        var k := Min(size, Min(want, avail));
        if k == 0 then Progress(0, plan[1..], false)
        else
          var p := Transfer(plan[1..], want - k, avail - k);
          p.(moved := p.moved + k)
  }

  /** What a schedule can move before its first failure. */
  function Capacity(plan: Plan): nat {
    if plan == [] then 0
    else
      match plan[0]
      case Interrupted => Capacity(plan[1..])
      case Failed => 0
      case Chunk(size) => if size == 0 then 0 else size + Capacity(plan[1..])
  }

  /** How often a schedule makes progress before its first failure. */
  function Turns(plan: Plan): nat {
    if plan == [] then 0
    else
      match plan[0]
      case Interrupted => Turns(plan[1..])
      case Failed => 0
      case Chunk(size) => if size == 0 then 0 else 1 + Turns(plan[1..])
  }

  /** A retry loop moves what is wanted, existing and schedulable, and succeeds when that is all. */
  lemma {:induction false} TransferMoves(plan: Plan, want: nat, avail: nat)
    ensures var p := Transfer(plan, want, avail);
            && p.moved == Min(want, Min(Capacity(plan), avail))
            && |p.plan| <= |plan|
    decreases |plan|
  {
    if want > 0 && plan != [] {
      match plan[0]
      case Interrupted => TransferMoves(plan[1..], want, avail);
      case Failed =>
      case Chunk(size) =>
        var k := Min(size, Min(want, avail));
        if k > 0 {
          TransferMoves(plan[1..], want - k, avail - k);
        }
    }
  }

  /** Where enough bytes exist, how many more there are does not matter. */
  lemma {:induction false} TransferFits(plan: Plan, want: nat, avail: nat)
    requires want <= avail
    ensures Transfer(plan, want, avail) == Transfer(plan, want, want)
    decreases |plan|
  {
    if want > 0 && plan != [] {
      match plan[0]
      case Interrupted => TransferFits(plan[1..], want, avail);
      case Failed =>
      case Chunk(size) =>
        var k := Min(size, want);
        TransferFits(plan[1..], want - k, avail - k);
    }
  }

  /** One turn per byte is enough, and no more turns than bytes are used up. */
  lemma {:induction false} TurnsSuffice(plan: Plan, want: nat)
    requires want <= Turns(plan)
    ensures Transfer(plan, want, want).ok
    ensures Turns(plan) <= Turns(Transfer(plan, want, want).plan) + want
    decreases |plan|
  {
    if want > 0 && plan != [] {
      match plan[0]
      case Interrupted => TurnsSuffice(plan[1..], want);
      case Failed =>
      case Chunk(size) => TurnsSuffice(plan[1..], want - Min(size, want));
    }
  }

  /** A schedule in which no call fails and every call that returns has moved something. */
  predicate Steady(plan: Plan) {
    forall i :: 0 <= i < |plan| ==> plan[i] != Failed && plan[i] != Chunk(0)
  }

  /** On such a schedule a loop ends early only by using it up. */
  lemma {:induction false} SteadySuffices(plan: Plan, want: nat)
    requires Steady(plan)
    ensures var p := Transfer(plan, want, want);
            Steady(p.plan) && (p.ok || p.plan == [])
    decreases |plan|
  {
    if want > 0 && plan != [] {
      assert plan[0] != Failed && plan[0] != Chunk(0);
      match plan[0]
      case Interrupted => SteadySuffices(plan[1..], want);
      case Chunk(size) => SteadySuffices(plan[1..], want - Min(size, want));
    }
  }

  /** The outcome of one `send` or `recv` call. */
  datatype CallResult = Moved(size: nat) | Eintr | Error

  function Attempt(plan: Plan, want: nat, avail: nat): (CallResult, Plan) {
    if plan == [] then (Error, [])
    else
      match plan[0]
      case Interrupted => (Eintr, plan[1..])
      case Failed => (Error, plan[1..])
      case Chunk(size) => (Moved(Min(size, Min(want, avail))), plan[1..])
  }

  /** One turn of a retry loop. */
  lemma TransferTurn(plan: Plan, want: nat, avail: nat)
    requires want > 0
    ensures var (r, rest) := Attempt(plan, want, avail);
            var p := Transfer(plan, want, avail);
            && (r == Error || r == Moved(0) ==> p == Progress(0, rest, false))
            && (r == Eintr ==> |rest| < |plan| && p == Transfer(rest, want, avail))
            && (r.Moved? && r.size > 0 ==>
                  && r.size <= want && r.size <= avail
                  && var q := Transfer(rest, want - r.size, avail - r.size);
                     p == Progress(r.size + q.moved, q.plan, q.ok))
  {}

  lemma TransferNothing(plan: Plan, avail: nat)
    ensures Transfer(plan, 0, avail) == Progress(0, plan, true)
  {}

  // ----- reading one frame

  /** `read` from a stream: status, buffer, bytes consumed, schedule left. */
  datatype Reading = Reading(ok: bool, buf: seq<byte>, consumed: nat, plan: Plan)

  function ReadFrame(plan: Plan, stream: seq<byte>): (r: Reading)
    ensures r.consumed <= |stream|
  {
    var head := Transfer(plan, HEADER_SIZE, |stream|);
    if !head.ok then Reading(false, [], head.moved, head.plan)
    else
      var size := Field(stream, 8);
      if size > MAX_MESSAGE then Reading(false, [], HEADER_SIZE, head.plan)
      else
        var body := Transfer(head.plan, size, |stream| - HEADER_SIZE);
        if !body.ok then Reading(false, [], HEADER_SIZE + body.moved, body.plan)
        else Reading(true, stream[..HEADER_SIZE + size], HEADER_SIZE + size, body.plan)
  }

  /** Two schedules that both succeed on one stream read the same buffer and leave the same remainder. */
  lemma ChunkingIndependence(p1: Plan, p2: Plan, stream: seq<byte>)
    requires ReadFrame(p1, stream).ok && ReadFrame(p2, stream).ok
    ensures ReadFrame(p1, stream).buf == ReadFrame(p2, stream).buf
    ensures ReadFrame(p1, stream).consumed == ReadFrame(p2, stream).consumed == |ReadFrame(p1, stream).buf|
    ensures ReadFrame(p1, stream).buf <= stream
  {
    hide Field;
  }

  /**
   * After a successful read, decoding cannot find the buffer too short, can
   * fail only on the transport type, and its size sum fits 32 bits.
   */
  lemma ReadThenDecode(plan: Plan, stream: seq<byte>)
    requires ReadFrame(plan, stream).ok
    ensures var buf := ReadFrame(plan, stream).buf;
            && |buf| == HEADER_SIZE + Field(buf, 8)
            && DecodeFrame(buf).status
               == (if Field(buf, 4) == TRANSPORT_TCP then Success else InvalidMsgField)
            && (HEADER_SIZE + Field(buf, 8)) % 0x1_0000_0000 == HEADER_SIZE + Field(buf, 8)
  {
    hide Word;
  }

  lemma FrameFields(msg: seq<byte>)
    requires |msg| < 0x1_0000_0000
    ensures |Frame(msg)| == HEADER_SIZE + |msg|
    ensures Field(Frame(msg), 4) == TRANSPORT_TCP && Field(Frame(msg), 8) == |msg|
    ensures Frame(msg)[HEADER_SIZE..] == msg
  {
    hide Word, Split, Field, Header;
    HeaderFields(COMMAND_NORMAL, TRANSPORT_TCP, |msg|, msg);
  }

  lemma FieldOfPrefix(buf: seq<byte>, stream: seq<byte>, at: nat)
    requires at + 4 <= |buf| && buf <= stream
    ensures Field(stream, at) == Field(buf, at)
  {}

  /** The schedule left after receiving a frame with `size` bytes of payload, if the schedule lets it through. */
  function Receives(plan: Plan, size: nat): Option<Plan> {
    var head := Transfer(plan, HEADER_SIZE, HEADER_SIZE);
    var body := Transfer(head.plan, size, size);
    if head.ok && size <= MAX_MESSAGE && body.ok then Some(body.plan) else None
  }

  /** The schedule left after sending such a frame, if the schedule lets it through. */
  function Sends(plan: Plan, size: nat): Option<Plan> {
    var p := Transfer(plan, HEADER_SIZE + size, HEADER_SIZE + size);
    if p.ok then Some(p.plan) else None
  }

  /** Reading at a frame boundary takes exactly one frame when the schedule lets it through, and otherwise less. */
  lemma ReadOneFrame(plan: Plan, msg: seq<byte>, rest: seq<byte>)
    requires |msg| < 0x1_0000_0000
    ensures var r := ReadFrame(plan, Frame(msg) + rest);
            && (r.ok <==> Receives(plan, |msg|).Some?)
            && (r.ok ==>
                  r.buf == Frame(msg) && r.consumed == |Frame(msg)| && Receives(plan, |msg|) == Some(r.plan))
            && (!r.ok ==> r.consumed < |Frame(msg)|)
  {
    hide Frame, Field, Transfer;
    var stream := Frame(msg) + rest;
    FrameFields(msg);
    FieldOfPrefix(Frame(msg), stream, 8);
    var head := Transfer(plan, HEADER_SIZE, |stream|);
    TransferFits(plan, HEADER_SIZE, |stream|);
    TransferFits(head.plan, |msg|, |stream| - HEADER_SIZE);
    assert stream[..HEADER_SIZE + |msg|] == Frame(msg);
  }

  /** A frame cut short is never read. */
  lemma ReadCutFrame(plan: Plan, msg: seq<byte>, part: seq<byte>)
    requires |msg| < 0x1_0000_0000 && part < Frame(msg)
    ensures !ReadFrame(plan, part).ok
  {
    hide Frame, Field, Transfer;
    FrameFields(msg);
    if |part| >= HEADER_SIZE {
      FieldOfPrefix(part, Frame(msg), 8);
    }
  }

  // ----- many messages

  function Frames(msgs: seq<seq<byte>>): seq<byte> {
    if msgs == [] then [] else Frame(msgs[0]) + Frames(msgs[1..])
  }

  predicate Sendable(msgs: seq<seq<byte>>) {
    forall i :: 0 <= i < |msgs| ==> |msgs[i]| < 0x1_0000_0000
  }

  function Sizes(msgs: seq<seq<byte>>): seq<nat> {
    seq(|msgs|, i requires 0 <= i < |msgs| => |msgs[i]|)
  }

  /** How many frames of these sizes a schedule lets out one after another. */
  function Sent(plan: Plan, sizes: seq<nat>): (n: nat)
    ensures n <= |sizes|
    decreases |sizes|
  {
    if sizes == [] then 0
    else
      match Sends(plan, sizes[0])
      case None => 0
      case Some(rest) => 1 + Sent(rest, sizes[1..])
  }

  /** How many frames of these sizes a schedule lets in one after another. */
  function Delivered(plan: Plan, sizes: seq<nat>): (n: nat)
    ensures n <= |sizes|
    decreases |sizes|
  {
    if sizes == [] then 0
    else
      match Receives(plan, sizes[0])
      case None => 0
      case Some(rest) => 1 + Delivered(rest, sizes[1..])
  }

  /**
   * What a sender leaves on the wire that encodes and writes until its first
   * failure, and its schedule from then on.
   */
  datatype Sending = Sending(wire: seq<byte>, count: nat, plan: Plan)

  function SendMessages(plan: Plan, msgs: seq<seq<byte>>): (s: Sending)
    ensures s.count <= |msgs|
    decreases |msgs|
  {
    if msgs == [] then Sending([], 0, plan)
    else
      var frame := Frame(msgs[0]);
      var p := Transfer(plan, |frame|, |frame|);
      if !p.ok then Sending(frame[..p.moved], 0, p.plan)
      else
        var s := SendMessages(p.plan, msgs[1..]);
        Sending(frame + s.wire, 1 + s.count, s.plan)
  }

  lemma FrameLength(msg: seq<byte>)
    ensures |Frame(msg)| == HEADER_SIZE + |msg|
  {
    hide Split;
    SplitLength(COMMAND_NORMAL);
    SplitLength(TRANSPORT_TCP);
    SplitLength(|msg| % 0x1_0000_0000);
  }

  lemma SizesTail(msgs: seq<seq<byte>>, n: nat)
    requires 0 < |msgs| && n < |msgs|
    ensures |Sizes(msgs)| == |msgs| && Sizes(msgs)[0] == |msgs[0]| && Sizes(msgs)[1..] == Sizes(msgs[1..])
    ensures Sizes(msgs)[..n + 1][0] == |msgs[0]|
    ensures Sizes(msgs)[..n + 1][1..] == Sizes(msgs[1..])[..n]
  {}

  /**
   * On the wire: as many whole frames as the schedule lets out, and of the
   * first message that failed a proper part of its frame.
   */
  lemma {:induction false} SentFrames(plan: Plan, msgs: seq<seq<byte>>)
    ensures var s := SendMessages(plan, msgs);
            && s.count == Sent(plan, Sizes(msgs))
            && Frames(msgs[..s.count]) <= s.wire
            && (s.count == |msgs| ==> s.wire == Frames(msgs))
            && (s.count < |msgs| ==> s.wire[|Frames(msgs[..s.count])|..] < Frame(msgs[s.count]))
    decreases |msgs|
  {
    hide Frame, Frames, Sizes, Transfer;
    FramesOfNone();
    if msgs == [] {
      SizesNone();
    } else {
      var frame := Frame(msgs[0]);
      var p := Transfer(plan, |frame|, |frame|);
      FrameLength(msgs[0]);
      SizesTail(msgs, 0);
      if p.ok {
        SentFrames(p.plan, msgs[1..]);
        var s := SendMessages(p.plan, msgs[1..]);
        SentStep(msgs, s.count, s.wire);
      }
    }
  }

  /** What the later messages have left on the wire, behind the frame of the first. */
  lemma SentStep(msgs: seq<seq<byte>>, count: nat, wire: seq<byte>)
    requires msgs != [] && count <= |msgs| - 1
    requires Frames(msgs[1..][..count]) <= wire
    ensures var sent := Frame(msgs[0]) + Frames(msgs[1..][..count]);
            && Frames(msgs[..1 + count]) == sent
            && sent <= Frame(msgs[0]) + wire
            && (Frame(msgs[0]) + wire)[|sent|..] == wire[|Frames(msgs[1..][..count])|..]
    ensures Frames(msgs) == Frame(msgs[0]) + Frames(msgs[1..])
  {
    hide Frame, Frames;
    FramesCons(msgs[0], msgs[1..][..count]);
    assert [msgs[0]] + msgs[1..][..count] == msgs[..1 + count];
    FramesCons(msgs[0], msgs[1..]);
    assert [msgs[0]] + msgs[1..] == msgs;
  }

  lemma SizesNone()
    ensures Sizes([]) == []
  {}

  /**
   * What a receiver gets that reads and decodes up to `limit` messages or its
   * first failure: the messages, the bytes lost to a failed last attempt, and
   * what is left in the stream.
   */
  datatype Receiving = Receiving(msgs: seq<seq<byte>>, lost: seq<byte>, rest: seq<byte>, plan: Plan)

  function ReceiveMessages(plan: Plan, stream: seq<byte>, limit: nat): Receiving
    decreases limit
  {
    if limit == 0 then Receiving([], [], stream, plan)
    else
      var r := ReadFrame(plan, stream);
      if !r.ok || DecodeFrame(r.buf).status != Success then
        Receiving([], stream[..r.consumed], stream[r.consumed..], r.plan)
      else
        var more := ReceiveMessages(r.plan, stream[r.consumed..], limit - 1);
        more.(msgs := [DecodeFrame(r.buf).message] + more.msgs)
  }

  /** One receive call at the boundary in front of a complete frame. */
  lemma ReceiveOne(plan: Plan, msg: seq<byte>, tail: seq<byte>, limit: nat)
    requires |msg| < 0x1_0000_0000 && limit > 0
    ensures var r := ReceiveMessages(plan, Frame(msg) + tail, limit);
            match Receives(plan, |msg|)
            case Some(rest) =>
              var more := ReceiveMessages(rest, tail, limit - 1);
              r == more.(msgs := [msg] + more.msgs)
            case None =>
              r.msgs == [] && r.lost < Frame(msg) && r.lost + r.rest == Frame(msg) + tail
  {
    hide Frame, DecodeFrame, ReadFrame, Receives;
    var stream, read := Frame(msg) + tail, ReadFrame(plan, Frame(msg) + tail);
    ReadOneFrame(plan, msg, tail);
    DecodeOfFrame(msg, []);
    assert Frame(msg) + [] == Frame(msg);
    assert stream[|Frame(msg)|..] == tail;
    if !read.ok {
      assert stream[..read.consumed] == Frame(msg)[..read.consumed];
    }
  }

  /** One receive call in front of a part of a frame. */
  lemma ReceivePart(plan: Plan, msg: seq<byte>, part: seq<byte>, limit: nat)
    requires |msg| < 0x1_0000_0000 && part < Frame(msg)
    ensures var r := ReceiveMessages(plan, part, limit);
            r.msgs == [] && r.lost < Frame(msg) && r.lost + r.rest == part
  {
    hide Frame, DecodeFrame, ReadFrame;
    if limit > 0 {
      ReadCutFrame(plan, msg, part);
    }
  }

  lemma ReceiveNothing(plan: Plan, limit: nat)
    ensures var r := ReceiveMessages(plan, [], limit);
            r.msgs == [] && r.lost == [] && r.rest == []
  {
    hide DecodeFrame;
  }

  /**
   * Whatever the two schedules do, the receiver gets a prefix of what was
   * sent, in order, and it has taken from the stream exactly those frames and,
   * when it failed inside the next one, a proper part of that.
   */
  lemma {:induction false} ReceivedIsPrefix(sendPlan: Plan, recvPlan: Plan, msgs: seq<seq<byte>>, limit: nat)
    requires Sendable(msgs)
    ensures var s := SendMessages(sendPlan, msgs);
            var r := ReceiveMessages(recvPlan, s.wire, limit);
            && |r.msgs| <= |msgs|
            && r.msgs == msgs[..|r.msgs|]
            && s.wire == Frames(r.msgs) + (r.lost + r.rest)
            && (|r.msgs| < |msgs| ==> r.lost < Frame(msgs[|r.msgs|]))
            && (|r.msgs| == |msgs| ==> r.lost == [] && r.rest == [])
    decreases |msgs|, limit
  {
    hide Frame, ReceiveMessages, Receives, Transfer, Frames;
    var s := SendMessages(sendPlan, msgs);
    FramesOfNone();
    if limit == 0 {
      ReceiveNone(recvPlan, s.wire);
      if msgs != [] {
        FrameLength(msgs[0]);
      }
    } else if msgs == [] {
      ReceiveNothing(recvPlan, limit);
    } else {
      var frame := Frame(msgs[0]);
      var p := Transfer(sendPlan, |frame|, |frame|);
      if !p.ok {
        ReceivePart(recvPlan, msgs[0], s.wire, limit);
      } else {
        var tail := SendMessages(p.plan, msgs[1..]).wire;
        ReceiveOne(recvPlan, msgs[0], tail, limit);
        match Receives(recvPlan, |msgs[0]|)
        case None =>
        case Some(rest) =>
          ReceivedIsPrefix(p.plan, rest, msgs[1..], limit - 1);
          PrefixStep(msgs, ReceiveMessages(rest, tail, limit - 1), tail);
      }
    }
  }

  lemma ReceiveNone(plan: Plan, stream: seq<byte>)
    ensures ReceiveMessages(plan, stream, 0) == Receiving([], [], stream, plan)
  {}

  lemma PrefixStep(msgs: seq<seq<byte>>, more: Receiving, tail: seq<byte>)
    requires msgs != [] && |more.msgs| <= |msgs| - 1
    requires more.msgs == msgs[1..][..|more.msgs|]
    requires tail == Frames(more.msgs) + (more.lost + more.rest)
    ensures [msgs[0]] + more.msgs == msgs[..1 + |more.msgs|]
    ensures Frame(msgs[0]) + tail == Frames([msgs[0]] + more.msgs) + (more.lost + more.rest)
  {
    hide Frame, Frames;
    FramesCons(msgs[0], more.msgs);
    Reassociate(Frame(msgs[0]), Frames(more.msgs), more.lost + more.rest);
  }

  /**
   * How much arrives, exactly: as many messages as the receiver's schedule
   * lets in of those that the sender's schedule let out.
   */
  lemma {:induction false} ReceivedCount(sendPlan: Plan, recvPlan: Plan, msgs: seq<seq<byte>>, limit: nat)
    requires Sendable(msgs)
    ensures var s := SendMessages(sendPlan, msgs);
            |ReceiveMessages(recvPlan, s.wire, limit).msgs|
            == Delivered(recvPlan, Sizes(msgs)[..Min(s.count, limit)])
    decreases |msgs|, limit
  {
    hide Frame, ReceiveMessages, Receives, Transfer;
    var s := SendMessages(sendPlan, msgs);
    if limit == 0 {
      ReceiveNone(recvPlan, s.wire);
    } else if msgs == [] {
      ReceiveNothing(recvPlan, limit);
    } else {
      var frame := Frame(msgs[0]);
      var p := Transfer(sendPlan, |frame|, |frame|);
      if !p.ok {
        ReceivePart(recvPlan, msgs[0], s.wire, limit);
      } else {
        var tail := SendMessages(p.plan, msgs[1..]);
        ReceiveOne(recvPlan, msgs[0], tail.wire, limit);
        var n := Min(tail.count, limit - 1);
        SizesTail(msgs, n);
        assert Min(s.count, limit) == n + 1;
        match Receives(recvPlan, |msgs[0]|)
        case None =>
          assert Delivered(recvPlan, Sizes(msgs)[..n + 1]) == 0;
        case Some(rest) =>
          assert Delivered(recvPlan, Sizes(msgs)[..n + 1]) == 1 + Delivered(rest, Sizes(msgs[1..])[..n]);
          ReceivedCount(p.plan, rest, msgs[1..], limit - 1);
      }
    }
  }

  /**
   * All messages arrive if and only if the sender's schedule lets all their
   * frames out and the receiver's lets all of them in, however they are cut;
   * then no byte is lost and none is left.
   */
  lemma EverythingArrives(sendPlan: Plan, recvPlan: Plan, msgs: seq<seq<byte>>)
    requires Sendable(msgs)
    ensures var r := ReceiveMessages(recvPlan, SendMessages(sendPlan, msgs).wire, |msgs|);
            && (r.msgs == msgs <==>
                  Sent(sendPlan, Sizes(msgs)) == |msgs| && Delivered(recvPlan, Sizes(msgs)) == |msgs|)
            && (r.msgs == msgs ==> r.lost == [] && r.rest == [])
  {
    hide ReceiveMessages, SendMessages, Sent, Delivered, Frames, Frame;
    var s := SendMessages(sendPlan, msgs);
    SentFrames(sendPlan, msgs);
    ReceivedCount(sendPlan, recvPlan, msgs, |msgs|);
    ReceivedIsPrefix(sendPlan, recvPlan, msgs, |msgs|);
    assert s.count == |msgs| ==> Sizes(msgs)[..|msgs|] == Sizes(msgs);
  }

  /** Schedules with a progressing call for each byte let everything through that the receiver allows. */
  lemma {:induction false} TurnsDeliver(plan: Plan, msgs: seq<seq<byte>>)
    requires forall i :: 0 <= i < |msgs| ==> |msgs[i]| <= MAX_MESSAGE
    requires |Frames(msgs)| <= Turns(plan)
    ensures Sent(plan, Sizes(msgs)) == |msgs| && Delivered(plan, Sizes(msgs)) == |msgs|
    decreases |msgs|
  {
    hide Frame, Transfer, Turns;
    if msgs != [] {
      var size := |msgs[0]|;
      FrameLength(msgs[0]);
      SizesTail(msgs, 0);
      TurnsSuffice(plan, HEADER_SIZE + size);
      TurnsDeliver(Transfer(plan, HEADER_SIZE + size, HEADER_SIZE + size).plan, msgs[1..]);
      var head := Transfer(plan, HEADER_SIZE, HEADER_SIZE);
      TurnsSuffice(plan, HEADER_SIZE);
      TurnsSuffice(head.plan, size);
      TurnsDeliver(Transfer(head.plan, size, size).plan, msgs[1..]);
    }
  }

  /** On steady schedules, a sender stops early only by using its schedule up. */
  lemma {:induction false} SteadySending(plan: Plan, msgs: seq<seq<byte>>)
    requires Steady(plan)
    ensures var s := SendMessages(plan, msgs);
            s.count == |msgs| || s.plan == []
    decreases |msgs|
  {
    hide Frame, Transfer, Steady;
    if msgs != [] {
      var frame := Frame(msgs[0]);
      SteadySuffices(plan, |frame|);
      SteadySending(Transfer(plan, |frame|, |frame|).plan, msgs[1..]);
    }
  }

  /** On steady schedules, a receiver of messages it allows stops early only by using its schedule up. */
  lemma {:induction false} SteadyReceiving(plan: Plan, msgs: seq<seq<byte>>)
    requires forall i :: 0 <= i < |msgs| ==> |msgs[i]| <= MAX_MESSAGE
    requires Steady(plan)
    ensures var r := ReceiveMessages(plan, Frames(msgs), |msgs|);
            r.msgs == msgs || r.plan == []
    decreases |msgs|
  {
    hide Frame, Transfer, Steady, DecodeFrame, ReadFrame, Receives;
    if msgs != [] {
      var size, tail := |msgs[0]|, Frames(msgs[1..]);
      ReceiveOne(plan, msgs[0], tail, |msgs|);
      SteadyFrame(plan, msgs[0], tail);
      match Receives(plan, size)
      case None =>
      case Some(rest) =>
        SteadyReceiving(rest, msgs[1..]);
        assert [msgs[0]] + msgs[1..] == msgs;
    }
  }

  lemma SteadyFrame(plan: Plan, msg: seq<byte>, tail: seq<byte>)
    requires |msg| <= MAX_MESSAGE && Steady(plan)
    ensures match Receives(plan, |msg|)
            case None => !ReadFrame(plan, Frame(msg) + tail).ok && ReadFrame(plan, Frame(msg) + tail).plan == []
            case Some(rest) => Steady(rest)
  {
    hide Frame, Transfer, Steady, Field;
    var stream, head := Frame(msg) + tail, Transfer(plan, HEADER_SIZE, HEADER_SIZE);
    FrameFields(msg);
    FieldOfPrefix(Frame(msg), stream, 8);
    TransferFits(plan, HEADER_SIZE, |stream|);
    TransferFits(head.plan, |msg|, |stream| - HEADER_SIZE);
    SteadySuffices(plan, HEADER_SIZE);
    SteadySuffices(head.plan, |msg|);
  }

  /**
   * On any stream, well formed or not, two receivers with unrelated schedules
   * agree: one has got a prefix of what the other has, and after equally many
   * messages both face the same bytes.
   */
  lemma {:induction false} ReceiversAgree(p1: Plan, p2: Plan, stream: seq<byte>, limit: nat)
    ensures var r1, r2 := ReceiveMessages(p1, stream, limit), ReceiveMessages(p2, stream, limit);
            && (|r1.msgs| <= |r2.msgs| ==> r1.msgs <= r2.msgs)
            && (|r2.msgs| <= |r1.msgs| ==> r2.msgs <= r1.msgs)
            && (|r1.msgs| == |r2.msgs| ==> r1.lost + r1.rest == r2.lost + r2.rest)
    decreases limit
  {
    hide DecodeFrame, ReadFrame;
    if limit > 0 {
      var r1, r2 := ReadFrame(p1, stream), ReadFrame(p2, stream);
      if r1.ok && r2.ok {
        ChunkingIndependence(p1, p2, stream);
        ReceiversAgree(r1.plan, r2.plan, stream[r1.consumed..], limit - 1);
      }
    }
  }

  lemma FramesOfNone()
    ensures Frames([]) == []
  {}

  lemma FramesCons(msg: seq<byte>, msgs: seq<seq<byte>>)
    ensures Frames([msg] + msgs) == Frame(msg) + Frames(msgs)
  {
    assert ([msg] + msgs)[1..] == msgs;
  }

  /** Messages of up to 65536 bytes are let in by schedules with enough turns, longer ones by none. */
  lemma MessageLimit(plan: Plan, size: nat)
    ensures Receives(plan, size).Some? ==> size <= 65536
    ensures size <= 65536 && 12 + size <= Turns(plan) ==> Receives(plan, size).Some?
  {
    hide Transfer, Turns;
    if 12 + size <= Turns(plan) {
      TurnsSuffice(plan, HEADER_SIZE);
      TurnsSuffice(Transfer(plan, HEADER_SIZE, HEADER_SIZE).plan, size);
    }
  }

  // ----- after a failure

  // The socket stays open when a read or write has failed, and a transport that
  // is initialised again goes on with it.

  /** Position `at` of the frames of `msgs` is in front of one of them, or behind all. */
  ghost predicate AtBoundary(msgs: seq<seq<byte>>, at: nat) {
    exists n :: 0 <= n <= |msgs| && |Frames(msgs[..n])| == at
  }

  lemma {:induction false} FramesGrow(msgs: seq<seq<byte>>, n: nat, m: nat)
    requires n < m <= |msgs|
    ensures |Frames(msgs[..n])| + |Frame(msgs[n])| <= |Frames(msgs[..m])|
    decreases n
  {
    hide Frame, Frames;
    FramesCons(msgs[0], msgs[1..][..m - 1]);
    assert [msgs[0]] + msgs[1..][..m - 1] == msgs[..m];
    if n == 0 {
      FramesOfNone();
      assert msgs[..0] == [];
    } else {
      FramesCons(msgs[0], msgs[1..][..n - 1]);
      assert [msgs[0]] + msgs[1..][..n - 1] == msgs[..n];
      FramesGrow(msgs[1..], n - 1, m - 1);
    }
  }

  /** So much of the frame of message number `n` behind those in front is at a boundary only when it is nothing. */
  lemma BoundaryIs(msgs: seq<seq<byte>>, n: nat, part: nat)
    requires n <= |msgs|
    requires n == |msgs| ==> part == 0
    requires n < |msgs| ==> part < |Frame(msgs[n])|
    ensures AtBoundary(msgs, |Frames(msgs[..n])| + part) <==> part == 0
  {
    hide Frame, Frames;
    if AtBoundary(msgs, |Frames(msgs[..n])| + part) && part > 0 {
      var m :| 0 <= m <= |msgs| && |Frames(msgs[..m])| == |Frames(msgs[..n])| + part;
      if m > n {
        FramesGrow(msgs, n, m);
      } else if m < n {
        FramesGrow(msgs, m, n);
      }
      assert false;
    }
  }

  /** A receiver that has failed goes on at the boundary of a frame exactly when it has lost nothing. */
  lemma ReceiverBoundary(sendPlan: Plan, recvPlan: Plan, msgs: seq<seq<byte>>, limit: nat)
    requires Sendable(msgs)
    ensures var s := SendMessages(sendPlan, msgs);
            var r := ReceiveMessages(recvPlan, s.wire, limit);
            && |r.rest| <= |s.wire|
            && (AtBoundary(msgs, |s.wire| - |r.rest|) <==> r.lost == [])
  {
    hide Frame, Frames, ReceiveMessages, SendMessages, AtBoundary;
    ReceivedIsPrefix(sendPlan, recvPlan, msgs, limit);
    var r := ReceiveMessages(recvPlan, SendMessages(sendPlan, msgs).wire, limit);
    BoundaryIs(msgs, |r.msgs|, |r.lost|);
  }

  /** So does a sender exactly when its wire holds whole frames. */
  lemma SenderBoundary(plan: Plan, msgs: seq<seq<byte>>)
    ensures var s := SendMessages(plan, msgs);
            AtBoundary(msgs, |s.wire|) <==> s.wire == Frames(msgs[..s.count])
  {
    hide Frame, Frames, SendMessages, AtBoundary;
    SentFrames(plan, msgs);
    var s := SendMessages(plan, msgs);
    var whole := Frames(msgs[..s.count]);
    assert msgs[..|msgs|] == msgs;
    assert s.wire == whole + s.wire[|whole|..];
    BoundaryIs(msgs, s.count, |s.wire| - |whole|);
  }

  /** What later messages have left on the wire is what a sender of them alone could have left. */
  lemma {:induction false} LaterMessages(plan: Plan, msgs: seq<seq<byte>>, n: nat) returns (later: Plan)
    requires n <= SendMessages(plan, msgs).count
    ensures SendMessages(plan, msgs).wire == Frames(msgs[..n]) + SendMessages(later, msgs[n..]).wire
    decreases n
  {
    hide Frame, Frames, Transfer, SendMessages;
    FramesOfNone();
    if n == 0 {
      later := plan;
      assert msgs[..0] == [] && msgs[0..] == msgs;
    } else {
      var frame := Frame(msgs[0]);
      var p := Transfer(plan, |frame|, |frame|);
      SentFirst(plan, msgs);
      later := LaterMessages(p.plan, msgs[1..], n - 1);
      LaterStep(msgs, n, SendMessages(later, msgs[n..]).wire);
      assert msgs[1..][n - 1..] == msgs[n..];
    }
  }

  lemma SentFirst(plan: Plan, msgs: seq<seq<byte>>)
    requires SendMessages(plan, msgs).count > 0
    ensures msgs != []
    ensures var p := Transfer(plan, |Frame(msgs[0])|, |Frame(msgs[0])|);
            var s := SendMessages(p.plan, msgs[1..]);
            && SendMessages(plan, msgs).wire == Frame(msgs[0]) + s.wire
            && SendMessages(plan, msgs).count == 1 + s.count
  {
    hide Frame, Transfer;
  }

  lemma LaterStep(msgs: seq<seq<byte>>, n: nat, wire: seq<byte>)
    requires 0 < n <= |msgs|
    ensures Frame(msgs[0]) + (Frames(msgs[1..][..n - 1]) + wire) == Frames(msgs[..n]) + wire
  {
    hide Frame, Frames;
    FramesCons(msgs[0], msgs[1..][..n - 1]);
    assert [msgs[0]] + msgs[1..][..n - 1] == msgs[..n];
    Reassociate(Frame(msgs[0]), Frames(msgs[1..][..n - 1]), wire);
  }

  lemma {:induction false} CountedIsSent(sendPlan: Plan, recvPlan: Plan, msgs: seq<seq<byte>>, limit: nat)
    requires Sendable(msgs)
    ensures var s := SendMessages(sendPlan, msgs);
            |ReceiveMessages(recvPlan, s.wire, limit).msgs| <= s.count
  {
    hide ReceiveMessages, SendMessages, Delivered, Sizes;
    SizesLength(msgs);
    ReceivedCount(sendPlan, recvPlan, msgs, limit);
  }

  lemma SizesLength(msgs: seq<seq<byte>>)
    ensures |Sizes(msgs)| == |msgs|
  {}

  /** A receiver that has lost nothing and tries again gets the next of the messages sent, and no others. */
  lemma NextAttempt(sendPlan: Plan, recvPlan: Plan, msgs: seq<seq<byte>>, limit: nat, again: Plan, more: nat)
    requires Sendable(msgs)
    requires ReceiveMessages(recvPlan, SendMessages(sendPlan, msgs).wire, limit).lost == []
    ensures var r := ReceiveMessages(recvPlan, SendMessages(sendPlan, msgs).wire, limit);
            r.msgs + ReceiveMessages(again, r.rest, more).msgs <= msgs
  {
    hide ReceiveMessages, SendMessages, Frames, Frame;
    var s := SendMessages(sendPlan, msgs);
    var r := ReceiveMessages(recvPlan, s.wire, limit);
    var n := |r.msgs|;
    ReceivedIsPrefix(sendPlan, recvPlan, msgs, limit);
    CountedIsSent(sendPlan, recvPlan, msgs, limit);
    var later := LaterMessages(sendPlan, msgs, n);
    assert r.rest == SendMessages(later, msgs[n..]).wire by {
      assert s.wire[|Frames(msgs[..n])|..] == r.rest;
    }
    ReceivedIsPrefix(later, again, msgs[n..], more);
    assert msgs == msgs[..n] + msgs[n..];
  }

  /** A receiver that has lost part of a frame can get a message next that nobody sent: here [7]. */
  lemma MisreadAfterLoss()
    ensures var sent := Frame([7]);
            var first := ReceiveMessages([Chunk(12), Failed], Frame(sent), 1);
            var second := ReceiveMessages([Chunk(12), Chunk(1)], first.rest, 1);
            first.msgs == [] && |first.lost| == 12 && second.msgs == [[7]] && [7] != sent
  {
    hide Frame, DecodeFrame;
    var sent := Frame([7]);
    FrameFields([7]);
    FrameFields(sent);
    DecodeOfFrame([7], []);
    assert sent + [] == sent;
    HeaderThenFailure(sent);
    assert Transfer([Chunk(12), Chunk(1)], 12, 13) == Progress(12, [Chunk(1)], true);
    assert Transfer([Chunk(1)], 1, 1) == Progress(1, [], true);
  }

  lemma HeaderThenFailure(msg: seq<byte>)
    requires 0 < |msg| <= MAX_MESSAGE
    ensures var r := ReceiveMessages([Chunk(12), Failed], Frame(msg), 1);
            r.msgs == [] && |r.lost| == 12 && r.rest == msg
  {
    hide Frame;
    FrameFields(msg);
    var stream := Frame(msg);
    assert Transfer([Chunk(12), Failed], 12, |stream|) == Progress(12, [Failed], true);
    assert Transfer([Failed], |msg|, |msg|) == Progress(0, [], false);
  }

  /** So can the receiver of a sender that goes on after part of a frame: here [0, 0]. */
  lemma MisreadAfterPartialSend()
    ensures var first := SendMessages([Chunk(12), Failed], [[1, 2]]);
            var second := SendMessages([Chunk(13)], [[7]]);
            && first.count == 0 && second.count == 1
            && ReceiveMessages([Chunk(12), Chunk(2)], first.wire + second.wire, 1).msgs == [[0, 0]]
  {
    hide Frame, SendMessages, ReceiveMessages, Split;
    PartialSend();
    HeaderOfTwo();
    DeliverTwo(Frame([7])[2..]);
  }

  /** The header of a message of two bytes makes a frame with the first two of the next header. */
  lemma HeaderOfTwo()
    ensures |Frame([1, 2])| == 14 && |Frame([7])| == 13
    ensures Frame([1, 2])[..12] + Frame([7]) == Frame([0, 0]) + Frame([7])[2..]
  {
    hide Split;
    HeaderLength(2);
    HeaderLength(1);
    CommandBytes();
    var h, f := Header(COMMAND_NORMAL, TRANSPORT_TCP, 2), Frame([7]);
    assert Frame([1, 2])[..12] == h;
    assert f[..2] == [0, 0] && f == f[..2] + f[2..];
    Reassociate(h, f[..2], f[2..]);
  }

  lemma HeaderLength(size: word)
    ensures |Header(COMMAND_NORMAL, TRANSPORT_TCP, size)| == 12
  {
    hide Split;
    SplitLength(COMMAND_NORMAL);
    SplitLength(TRANSPORT_TCP);
    SplitLength(size);
  }

  lemma CommandBytes()
    ensures Split(COMMAND_NORMAL) == [0, 0, 0, 1]
  {}

  lemma PartialSend()
    ensures SendMessages([Chunk(12), Failed], [[1, 2]]) == Sending(Frame([1, 2])[..12], 0, [])
    ensures SendMessages([Chunk(13)], [[7]]).wire == Frame([7]) && SendMessages([Chunk(13)], [[7]]).count == 1
  {
    hide Frame;
    FrameLength([1, 2]);
    FrameLength([7]);
    assert Transfer([Chunk(12), Failed], 14, 14) == Progress(12, [], false) by {
      assert Transfer([Failed], 2, 2) == Progress(0, [], false);
    }
    assert Transfer([Chunk(13)], 13, 13) == Progress(13, [], true);
    assert SendMessages([], [[7]][1..]).count == 0;
  }

  lemma DeliverTwo(tail: seq<byte>)
    ensures ReceiveMessages([Chunk(12), Chunk(2)], Frame([0, 0]) + tail, 1).msgs == [[0, 0]]
  {
    hide Frame, ReceiveMessages;
    assert Transfer([Chunk(12), Chunk(2)], 12, 12) == Progress(12, [Chunk(2)], true);
    assert Transfer([Chunk(2)], 2, 2) == Progress(2, [], true);
    ReceiveOne([Chunk(12), Chunk(2)], [0, 0], tail, 1);
    ReceiveNone([], tail);
  }
}
