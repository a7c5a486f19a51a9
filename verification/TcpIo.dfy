/**
 * The TCP transport as objects: a socket that follows a schedule, the I/O
 * class with its retry loops, the message codec, and the two device
 * callbacks that compose them.
 */
module TcpIo {
  import opened Bytes
  import opened TcpFrame
  import opened TcpStream

  /** `after` is `before` with `data` written over it from `at` on. */
  ghost predicate Patched(before: seq<byte>, after: seq<byte>, at: nat, data: seq<byte>)
    requires at + |data| <= |before|
  {
    after == before[..at] + data + before[at + |data|..]
  }

  /** A connected stream socket: what was accepted for sending, and what is still to arrive. */
  class Socket {
    var isOpen: bool
    var wire: seq<byte>
    var stream: seq<byte>
    var sendPlan: Plan
    var recvPlan: Plan

    method Send(data: seq<byte>) returns (r: CallResult)
      modifies this`wire, this`sendPlan
      ensures (r, sendPlan) == Attempt(old(sendPlan), |data|, |data|)
      ensures r.Moved? ==> r.size <= |data| && wire == old(wire) + data[..r.size]
      ensures !r.Moved? ==> wire == old(wire)
    {
      var attempt := Attempt(sendPlan, |data|, |data|);
      r, sendPlan := attempt.0, attempt.1;
      if r.Moved? {
        wire := wire + data[..r.size];
      }
    }

    /** Receives at most `want` bytes into `buf`, starting at `at`. */
    method Recv(buf: array<byte>, at: nat, want: nat) returns (r: CallResult)
      requires at + want <= buf.Length
      modifies this`stream, this`recvPlan, buf
      ensures (r, recvPlan) == Attempt(old(recvPlan), want, |old(stream)|)
      ensures r.Moved? ==> r.size <= want && r.size <= |old(stream)|
      ensures r.Moved? ==> stream == old(stream)[r.size..]
      ensures r.Moved? ==> Patched(old(buf[..]), buf[..], at, old(stream)[..r.size])
      ensures !r.Moved? ==> stream == old(stream) && buf[..] == old(buf[..])
    {
      var attempt := Attempt(recvPlan, want, |stream|);
      r, recvPlan := attempt.0, attempt.1;
      if r.Moved? {
        forall k | 0 <= k < r.size {
          buf[at + k] := stream[k];
        }
        stream := stream[r.size..];
      }
    }
  }

  lemma PatchedMore(before: seq<byte>, now: seq<byte>, after: seq<byte>, at: nat, stream: seq<byte>,
                    received: nat, size: nat)
    requires at + received + size <= |before| && received + size <= |stream|
    requires |now| == |before| && Patched(before, now, at, stream[..received])
    requires Patched(now, after, at + received, stream[received..][..size])
    ensures Patched(before, after, at, stream[..received + size])
    ensures stream[received..][size..] == stream[received + size..]
  {
    var first, second, tail := stream[..received], stream[received..][..size], before[at + received..];
    PatchedTwice(now, after, before[..at], first, tail, second);
    assert tail[size..] == before[at + received + size..];
    assert stream[..received + size] == first + second;
  }

  /** Writing over the part behind what was written last. */
  lemma PatchedTwice(now: seq<byte>, after: seq<byte>, head: seq<byte>, first: seq<byte>, tail: seq<byte>,
                     second: seq<byte>)
    requires now == head + first + tail && |second| <= |tail|
    requires var at := |head| + |first|;
             after == now[..at] + second + now[at + |second|..]
    ensures after == head + (first + second) + tail[|second|..]
  {
    var at := |head| + |first|;
    assert now[..at] == head + first;
    assert now[at + |second|..] == tail[|second|..];
    Reassociate(head, first, second);
  }

  lemma WireMore(wire: seq<byte>, buf: seq<byte>, n: nat, size: nat)
    requires n + size <= |buf|
    ensures wire + buf[..n] + buf[n..][..size] == wire + buf[..n + size]
  {
    assert buf[..n + size] == buf[..n] + buf[n..][..size];
    Reassociate(wire, buf[..n], buf[n..][..size]);
  }

  lemma PatchedNothing(buf: seq<byte>, at: nat, stream: seq<byte>)
    requires at <= |buf|
    ensures Patched(buf, buf, at, stream[..0]) && stream[0..] == stream
  {}

  lemma PatchedMeans(before: seq<byte>, after: seq<byte>, at: nat, data: seq<byte>)
    requires at + |data| <= |before| && Patched(before, after, at, data)
    ensures |after| == |before| && after[..at] == before[..at] && after[at..at + |data|] == data
  {}

  /** What a receive loop starts from, and where it is to put how many bytes. */
  datatype Filling = Filling(plan: Plan, stream: seq<byte>, buf: seq<byte>, at: nat, want: nat)

  /** The loop has come to its end: the bytes it received are in place, and no others have changed. */
  ghost predicate Filled(f: Filling, ok: bool, plan: Plan, stream: seq<byte>, buf: seq<byte>) {
    var p := Transfer(f.plan, f.want, |f.stream|);
    && f.at + f.want <= |f.buf|
    && ok == p.ok
    && plan == p.plan
    && stream == f.stream[p.moved..]
    && Patched(f.buf, buf, f.at, f.stream[..p.moved])
  }

  /** The loop has received so many bytes and has the rest of its transfer in front of it. */
  ghost predicate FillingNow(f: Filling, received: nat, plan: Plan, stream: seq<byte>, buf: seq<byte>) {
    && f.at + f.want <= |f.buf|
    && received <= f.want && received <= |f.stream|
    && stream == f.stream[received..]
    && Patched(f.buf, buf, f.at, f.stream[..received])
    && var p := Transfer(plan, f.want - received, |f.stream| - received);
       Transfer(f.plan, f.want, |f.stream|) == Progress(received + p.moved, p.plan, p.ok)
  }

  lemma FillStart(f: Filling)
    requires f.at + f.want <= |f.buf|
    ensures FillingNow(f, 0, f.plan, f.stream, f.buf)
  {
    hide Transfer, Patched;
    PatchedNothing(f.buf, f.at, f.stream);
  }

  lemma FillTurn(f: Filling, received: nat, plan: Plan, stream: seq<byte>, buf: seq<byte>,
                 r: CallResult, plan': Plan, stream': seq<byte>, buf': seq<byte>)
    requires received < f.want && FillingNow(f, received, plan, stream, buf)
    requires (r, plan') == Attempt(plan, f.want - received, |stream|)
    requires r.Moved? ==>
               && r.size <= f.want - received && r.size <= |stream| && stream' == stream[r.size..]
               && |buf| == |f.buf|
               && Patched(buf, buf', f.at + received, stream[..r.size])
    requires !r.Moved? ==> stream' == stream && buf' == buf
    ensures r.Eintr? ==> |plan'| < |plan| && FillingNow(f, received, plan', stream', buf')
    ensures r.Error? ==> Filled(f, false, plan', stream', buf')
    ensures r.Moved? && r.size == 0 ==> Filled(f, false, plan', stream', buf')
    ensures r.Moved? && r.size > 0 ==> FillingNow(f, received + r.size, plan', stream', buf')
  {
    hide Transfer, Attempt, Patched;
    TransferTurn(plan, f.want - received, |stream|);
    if r.Moved? {
      PatchedMore(f.buf, buf, buf', f.at, f.stream, received, r.size);
    }
  }

  lemma FillEnd(f: Filling, plan: Plan, stream: seq<byte>, buf: seq<byte>)
    requires FillingNow(f, f.want, plan, stream, buf)
    ensures Filled(f, true, plan, stream, buf)
  {
    hide Transfer, Patched;
    TransferNothing(plan, |f.stream| - f.want);
  }

  class TcpIoClass {
    const socket: Socket

    constructor (socket: Socket)
      ensures this.socket == socket
    {
      this.socket := socket;
    }

    /** Sends the whole buffer; on failure a proper part of it has been sent. */
    method Write(buf: seq<byte>) returns (status: Status)
      modifies socket`wire, socket`sendPlan
      ensures !socket.isOpen ==>
                status == SendFail && socket.wire == old(socket.wire) && socket.sendPlan == old(socket.sendPlan)
      ensures socket.isOpen ==>
                && var p := Transfer(old(socket.sendPlan), |buf|, |buf|);
                && p.moved <= |buf|
                && socket.wire == old(socket.wire) + buf[..p.moved]
                && socket.sendPlan == p.plan
                && (status == Success <==> p.moved == |buf|)
                && (status == Success || status == SendFail)
    {
      hide Transfer, Attempt;
      if !socket.isOpen {
        return SendFail;
      }
      var totalSent := 0;
      while totalSent < |buf|
        invariant 0 <= totalSent <= |buf|
        invariant socket.wire == old(socket.wire) + buf[..totalSent]
        invariant var p := Transfer(socket.sendPlan, |buf| - totalSent, |buf| - totalSent);
                  Transfer(old(socket.sendPlan), |buf|, |buf|) == Progress(totalSent + p.moved, p.plan, p.ok)
        decreases |buf| - totalSent, |socket.sendPlan|
      {
        TransferTurn(socket.sendPlan, |buf| - totalSent, |buf| - totalSent);
        var sent := socket.Send(buf[totalSent..]);
        if sent.Eintr? {
          continue;
        }
        if sent.Error? {
          return SendFail;
        }
        if sent.size == 0 {
          return SendFail;
        }
        WireMore(old(socket.wire), buf, totalSent, sent.size);
        totalSent := totalSent + sent.size;
      }
      TransferNothing(socket.sendPlan, 0);
      assert buf[..totalSent] == buf;
      return Success;
    }

    /** The retry loop of `Read`, run once for the header and once for the payload. */
    method Fill(buf: array<byte>, at: nat, want: nat) returns (ok: bool)
      requires at + want <= buf.Length
      modifies socket`stream, socket`recvPlan, buf
      ensures Filled(Filling(old(socket.recvPlan), old(socket.stream), old(buf[..]), at, want), ok,
                     socket.recvPlan, socket.stream, buf[..])
    {
      hide *;
      ghost var plan0, stream0, buf0 := socket.recvPlan, socket.stream, buf[..];
      ghost var f := Filling(plan0, stream0, buf0, at, want);
      FillStart(f);
      var received := 0;
      while received < want
        invariant received <= want && FillingNow(f, received, socket.recvPlan, socket.stream, buf[..])
        decreases want - received, |socket.recvPlan|
      {
        ghost var plan, stream, before := socket.recvPlan, socket.stream, buf[..];
        var r := socket.Recv(buf, at + received, want - received);
        FillTurn(f, received, plan, stream, before, r, socket.recvPlan, socket.stream, buf[..]);
        if r.Eintr? {
          continue;
        }
        if r.Error? {
          return false;
        }
        if r.size == 0 {
          return false;
        }
        received := received + r.size;
      }
      FillEnd(f, socket.recvPlan, socket.stream, buf[..]);
      return true;
    }

    /** Reads one frame: the header, then as many bytes as its size field says. */
    method Read() returns (status: Status, buf: seq<byte>)
      modifies socket`stream, socket`recvPlan
      ensures !socket.isOpen ==>
                && status == ReceiveFail && buf == []
                && socket.stream == old(socket.stream) && socket.recvPlan == old(socket.recvPlan)
      ensures socket.isOpen ==>
                && var r := ReadFrame(old(socket.recvPlan), old(socket.stream));
                && r.consumed <= |old(socket.stream)|
                && status == (if r.ok then Success else ReceiveFail)
                && buf == r.buf
                && socket.stream == old(socket.stream)[r.consumed..]
                && socket.recvPlan == r.plan
    {
      hide Transfer, Word, ReadFrame, Field, Patched;
      if !socket.isOpen {
        return ReceiveFail, [];
      }
      ghost var stream0 := socket.stream;
      ReadFrameCases(socket.recvPlan, stream0);
      var headerBuf := NewBuffer([], HEADER_SIZE);
      ghost var blank := headerBuf[..];
      var ok := Fill(headerBuf, 0, HEADER_SIZE);
      if !ok {
        return ReceiveFail, [];
      }
      PatchedMeans(blank, headerBuf[..], 0, stream0[..HEADER_SIZE]);
      SizeField(headerBuf[..], stream0);
      var msgLen := Word(headerBuf[8], headerBuf[9], headerBuf[10], headerBuf[11]);
      if msgLen > MAX_MESSAGE {
        return ReceiveFail, [];
      }
      var whole := NewBuffer(headerBuf[..], HEADER_SIZE + msgLen);
      blank := whole[..];
      ok := Fill(whole, HEADER_SIZE, msgLen);
      if !ok {
        return ReceiveFail, [];
      }
      PatchedMeans(blank, whole[..], HEADER_SIZE, stream0[HEADER_SIZE..][..msgLen]);
      WholeFrame(whole[..], stream0, msgLen);
      return Success, whole[..];
    }
  }

  /** A buffer of `size` bytes that starts with `head`. */
  method NewBuffer(head: seq<byte>, size: nat) returns (buf: array<byte>)
    requires |head| <= size
    ensures fresh(buf) && buf.Length == size && buf[..|head|] == head
  {
    buf := new byte[size](k => if 0 <= k < |head| then head[k] else 0);
  }

  lemma ReadFrameCases(plan: Plan, stream: seq<byte>)
    ensures var r := ReadFrame(plan, stream);
            var head := Transfer(plan, HEADER_SIZE, |stream|);
            && (!head.ok ==> head.moved <= |stream| && r == Reading(false, [], head.moved, head.plan))
            && (head.ok ==>
                  && HEADER_SIZE <= |stream|
                  && var size := Field(stream, 8);
                     var body := Transfer(head.plan, size, |stream| - HEADER_SIZE);
                     && body.moved <= |stream| - HEADER_SIZE
                     && (body.ok ==> body.moved == size)
                     && r == if size > MAX_MESSAGE then Reading(false, [], HEADER_SIZE, head.plan)
                             else if !body.ok then Reading(false, [], HEADER_SIZE + body.moved, body.plan)
                             else Reading(true, stream[..HEADER_SIZE + size], HEADER_SIZE + size, body.plan))
  {
    hide Field, Transfer;
  }

  lemma SizeField(head: seq<byte>, stream: seq<byte>)
    requires |head| == HEADER_SIZE && head <= stream
    ensures Word(head[8], head[9], head[10], head[11]) == Field(stream, 8)
  {}

  lemma WholeFrame(whole: seq<byte>, stream: seq<byte>, size: nat)
    requires HEADER_SIZE + size <= |stream| && |whole| == HEADER_SIZE + size
    requires whole[..HEADER_SIZE] == stream[..HEADER_SIZE]
    requires whole[HEADER_SIZE..HEADER_SIZE + size] == stream[HEADER_SIZE..][..size]
    ensures whole == stream[..HEADER_SIZE + size]
  {
    assert whole == whole[..HEADER_SIZE] + whole[HEADER_SIZE..HEADER_SIZE + size];
    assert stream[..HEADER_SIZE + size] == stream[..HEADER_SIZE] + stream[HEADER_SIZE..][..size];
  }

  /** Three words written one behind another. */
  lemma ThreeWords(s0: seq<byte>, s1: seq<byte>, s2: seq<byte>, s3: seq<byte>, a: seq<byte>, b: seq<byte>, c: seq<byte>)
    requires |a| == 4 && |b| == 4 && |c| == 4 && HEADER_SIZE <= |s0|
    requires s1 == s0[..0] + a + s0[4..]
    requires s2 == s1[..4] + b + s1[8..]
    requires s3 == s2[..8] + c + s2[12..]
    ensures s3[..HEADER_SIZE] == a + b + c
  {
    assert s1[..4] == a;
    assert s2[..8] == a + b;
  }

  /** The codec: a frame written by index, and a buffer read by fields. */
  class TcpMessageTransport {
    /** Writes one header field, most significant byte first. */
    method PutWord(buf: array<byte>, at: nat, v: word)
      requires at + 4 <= buf.Length
      modifies buf
      ensures buf[..] == old(buf[..at]) + Split(v) + old(buf[at + 4..])
    {
      buf[at] := v / 16777216;
      buf[at + 1] := v / 65536 % 256;
      buf[at + 2] := v / 256 % 256;
      buf[at + 3] := v % 256;
    }

    method Encode(msg: seq<byte>) returns (buf: array<byte>)
      ensures fresh(buf) && buf[..] == Frame(msg)
    {
      hide Split;
      var command, transportType, size := COMMAND_NORMAL, TRANSPORT_TCP, |msg| % 0x1_0000_0000;
      SplitLength(command);
      SplitLength(transportType);
      SplitLength(size);
      buf := NewBuffer([], HEADER_SIZE + |msg|);
      ghost var s0 := buf[..];
      PutWord(buf, 0, command);
      ghost var s1 := buf[..];
      PutWord(buf, 4, transportType);
      ghost var s2 := buf[..];
      PutWord(buf, 8, size);
      ThreeWords(s0, s1, s2, buf[..], Split(command), Split(transportType), Split(size));
      PutMessage(buf, msg);
    }

    method PutMessage(buf: array<byte>, msg: seq<byte>)
      requires buf.Length == HEADER_SIZE + |msg|
      modifies buf
      ensures buf[..] == old(buf[..HEADER_SIZE]) + msg
    {
      forall k | 0 <= k < |msg| {
        buf[HEADER_SIZE + k] := msg[k];
      }
    }

    method Decode(buf: seq<byte>) returns (status: Status, message: seq<byte>)
      ensures Decoded(status, message) == DecodeFrame(buf)
    {
      if |buf| < HEADER_SIZE {
        return BufferTooSmall, [];
      }
      var headerTransportType := Word(buf[4], buf[5], buf[6], buf[7]);
      var headerSize := Word(buf[8], buf[9], buf[10], buf[11]);
      if headerTransportType != TRANSPORT_TCP {
        return InvalidMsgField, [];
      }
      if |buf| < HEADER_SIZE + headerSize {
        return BufferTooSmall, [];
      }
      return Success, buf[HEADER_SIZE..HEADER_SIZE + headerSize];
    }
  }

  class SpdmTcpTransport {
    const tcpIo: TcpIoClass
    const tcpTransport: TcpMessageTransport

    constructor (tcpIo: TcpIoClass)
      ensures this.tcpIo == tcpIo
    {
      this.tcpIo := tcpIo;
      tcpTransport := new TcpMessageTransport;
    }

    /** The send callback: one message, as one frame, or a proper part of it and a failure. */
    method DeviceSendMessage(message: seq<byte>) returns (status: Status)
      modifies tcpIo.socket`wire, tcpIo.socket`sendPlan
      ensures status == Success || status == SendFail
      ensures !tcpIo.socket.isOpen ==> status == SendFail && tcpIo.socket.wire == old(tcpIo.socket.wire)
      ensures tcpIo.socket.isOpen ==>
                && var s := SendMessages(old(tcpIo.socket.sendPlan), [message]);
                && tcpIo.socket.wire == old(tcpIo.socket.wire) + s.wire
                && tcpIo.socket.sendPlan == s.plan
                && (status == Success <==> s.count == 1)
                && (status == Success ==> s.wire == Frame(message))
    {
      hide Frame, Transfer, SendMessages;
      var tcpMessage := tcpTransport.Encode(message);
      SendOne(tcpIo.socket.sendPlan, message);
      var sendStatus := tcpIo.Write(tcpMessage[..]);
      if sendStatus != Success {
        return SendFail;
      }
      return Success;
    }

    /**
     * The receive callback: one message of the stream, or a failure, after
     * which the bytes of the failed attempt are gone.
     */
    method DeviceReceiveMessage() returns (status: Status, message: seq<byte>)
      modifies tcpIo.socket`stream, tcpIo.socket`recvPlan
      ensures status == Success || status == ReceiveFail
      ensures !tcpIo.socket.isOpen ==> status == ReceiveFail && tcpIo.socket.stream == old(tcpIo.socket.stream)
      ensures tcpIo.socket.isOpen ==>
                && var r := ReceiveMessages(old(tcpIo.socket.recvPlan), old(tcpIo.socket.stream), 1);
                && r.msgs == (if status == Success then [message] else [])
                && tcpIo.socket.stream == r.rest
                && tcpIo.socket.recvPlan == r.plan
    {
      hide DecodeFrame, ReadFrame, ReceiveMessages;
      ReceiveFirst(tcpIo.socket.recvPlan, tcpIo.socket.stream);
      var readStatus, tcpMessage := tcpIo.Read();
      if readStatus != Success {
        return ReceiveFail, [];
      }
      var decodeStatus, decoded := tcpTransport.Decode(tcpMessage);
      if decodeStatus != Success {
        return ReceiveFail, [];
      }
      return Success, decoded;
    }

    /** Messages sent one after another until the first failure. */
    method SendAll(messages: seq<seq<byte>>) returns (count: nat)
      modifies tcpIo.socket`wire, tcpIo.socket`sendPlan
      ensures !tcpIo.socket.isOpen ==> count == 0 && tcpIo.socket.wire == old(tcpIo.socket.wire)
      ensures tcpIo.socket.isOpen ==>
                && var s := SendMessages(old(tcpIo.socket.sendPlan), messages);
                && tcpIo.socket.wire == old(tcpIo.socket.wire) + s.wire
                && tcpIo.socket.sendPlan == s.plan
                && count == s.count
    {
      hide *;
      ghost var plan0, wire0 := tcpIo.socket.sendPlan, tcpIo.socket.wire;
      ghost var before: seq<byte> := [];
      count := 0;
      assert messages[0..] == messages;
      AfterNone(SendMessages(plan0, messages));
      while count < |messages|
        invariant 0 <= count <= |messages|
        invariant !tcpIo.socket.isOpen ==> count == 0 && tcpIo.socket.wire == wire0
        invariant tcpIo.socket.isOpen ==> tcpIo.socket.wire == wire0 + before
        invariant tcpIo.socket.isOpen ==>
                    SendMessages(plan0, messages)
                      == After(before, count, SendMessages(tcpIo.socket.sendPlan, messages[count..]))
      {
        ghost var s := SendMessages(tcpIo.socket.sendPlan, [messages[count]]);
        SendNext(tcpIo.socket.sendPlan, messages, count);
        AfterAfter(before, count, s.wire, s.count, SendMessages(s.plan, messages[count + 1..]));
        AfterLast(before, count, s);
        Reassociate(wire0, before, s.wire);
        var status := DeviceSendMessage(messages[count]);
        if status != Success {
          return;
        }
        before := before + s.wire;
        count := count + 1;
      }
      SendNothing(tcpIo.socket.sendPlan);
      assert messages[count..] == [];
      AfterLast(before, count, SendMessages(tcpIo.socket.sendPlan, []));
    }

    /** At most `limit` messages received one after another until the first failure. */
    method ReceiveAll(limit: nat) returns (messages: seq<seq<byte>>)
      modifies tcpIo.socket`stream, tcpIo.socket`recvPlan
      ensures !tcpIo.socket.isOpen ==> messages == [] && tcpIo.socket.stream == old(tcpIo.socket.stream)
      ensures tcpIo.socket.isOpen ==>
                && var r := ReceiveMessages(old(tcpIo.socket.recvPlan), old(tcpIo.socket.stream), limit);
                && messages == r.msgs
                && tcpIo.socket.stream == r.rest
                && tcpIo.socket.recvPlan == r.plan
    {
      hide ReceiveMessages;
      ghost var plan0, stream0 := tcpIo.socket.recvPlan, tcpIo.socket.stream;
      messages := [];
      while |messages| < limit
        invariant |messages| <= limit
        invariant !tcpIo.socket.isOpen ==> messages == [] && tcpIo.socket.stream == stream0
        invariant tcpIo.socket.isOpen ==>
                    var more := ReceiveMessages(tcpIo.socket.recvPlan, tcpIo.socket.stream, limit - |messages|);
                    ReceiveMessages(plan0, stream0, limit) == more.(msgs := messages + more.msgs)
      {
        ReceiveStep(tcpIo.socket.recvPlan, tcpIo.socket.stream, limit - |messages|);
        var status, message := DeviceReceiveMessage();
        if status != Success {
          return;
        }
        messages := messages + [message];
      }
      ReceiveNone(tcpIo.socket.recvPlan, tcpIo.socket.stream);
    }
  }

  lemma SendOne(plan: Plan, msg: seq<byte>)
    ensures var p := Transfer(plan, |Frame(msg)|, |Frame(msg)|);
            var s := SendMessages(plan, [msg]);
            && p.moved <= |Frame(msg)|
            && s.wire == Frame(msg)[..p.moved]
            && s.plan == p.plan
            && s.count == (if p.moved == |Frame(msg)| then 1 else 0)
  {
    hide Frame, Transfer;
    var p := Transfer(plan, |Frame(msg)|, |Frame(msg)|);
    assert SendMessages(p.plan, [msg][1..]) == Sending([], 0, p.plan);
  }

  lemma ReceiveFirst(plan: Plan, stream: seq<byte>)
    ensures var read := ReadFrame(plan, stream);
            var decoded := DecodeFrame(read.buf);
            ReceiveMessages(plan, stream, 1)
            == if !read.ok || decoded.status != Success
               then Receiving([], stream[..read.consumed], stream[read.consumed..], read.plan)
               else Receiving([decoded.message], [], stream[read.consumed..], read.plan)
  {}

  /** A sending that `count` messages, leaving `before` on the wire, came in front of. */
  ghost function After(before: seq<byte>, count: nat, s: Sending): Sending {
    Sending(before + s.wire, count + s.count, s.plan)
  }

  lemma SendNothing(plan: Plan)
    ensures SendMessages(plan, []) == Sending([], 0, plan)
  {}

  lemma AfterNone(s: Sending)
    ensures After([], 0, s) == s
  {}

  lemma AfterAfter(before: seq<byte>, count: nat, wire: seq<byte>, more: nat, s: Sending)
    ensures After(before, count, After(wire, more, s)) == After(before + wire, count + more, s)
  {
    Reassociate(before, wire, s.wire);
  }

  lemma AfterLast(before: seq<byte>, count: nat, s: Sending)
    ensures After(before, count, s).wire == before + s.wire
    ensures After(before, count, s).count == count + s.count && After(before, count, s).plan == s.plan
    ensures s.wire == [] ==> After(before, count, s).wire == before
  {}

  /** Sending several messages is sending the next, then the others if that worked. */
  lemma SendNext(plan: Plan, msgs: seq<seq<byte>>, i: nat)
    requires i < |msgs|
    ensures var s := SendMessages(plan, [msgs[i]]);
            && s.count <= 1
            && SendMessages(plan, msgs[i..])
               == (if s.count == 1 then After(s.wire, s.count, SendMessages(s.plan, msgs[i + 1..])) else s)
  {
    hide Frame, Transfer;
    SendOne(plan, msgs[i]);
    assert msgs[i..][1..] == msgs[i + 1..];
  }

  /** Receiving several messages is receiving the first, then the others if that worked. */
  lemma ReceiveStep(plan: Plan, stream: seq<byte>, limit: nat)
    requires limit > 0
    ensures var r := ReceiveMessages(plan, stream, 1);
            && |r.msgs| <= 1
            && ReceiveMessages(plan, stream, limit)
               == if r.msgs == [] then r
                  else var more := ReceiveMessages(r.plan, r.rest, limit - 1);
                       more.(msgs := r.msgs + more.msgs)
  {
    hide DecodeFrame, ReadFrame;
  }
}
