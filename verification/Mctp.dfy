/**
 * The MCTP transport. Its header has two bytes, the socket takes the third,
 * the message type, off on sending and puts one back on receiving.
 */
module Mctp {
  import opened Bytes
  import opened TcpFrame

  const MCTP_TYPE_SPDM := 5
  const MCTP_TAG_OWNER := 8

  datatype Datagram = Datagram(address: byte, payload: seq<byte>)

  /** A datagram socket; each flag says whether the next call of that kind succeeds. */
  class DatagramSocket {
    var isOpen: bool
    var sent: seq<Datagram>
    var inbox: seq<Datagram>
    var sendOk: bool
    var peekOk: bool
    var recvOk: bool
  }

  // ----- what travels

  /** The buffer the code hands to the socket. */
  function Packet(eid: byte, msg: seq<byte>): seq<byte> {
    [MCTP_TAG_OWNER, eid] + msg
  }

  /** The buffer the code makes of a received payload. */
  function Arrived(d: Datagram): seq<byte> {
    [1, d.address, MCTP_TYPE_SPDM] + d.payload
  }

  function DecodePacket(eid: byte, buf: seq<byte>): Decoded {
    if |buf| < 2 then Decoded(BufferTooSmall, [])
    else if buf[1] != eid then Decoded(InvalidMsgField, [])
    else Decoded(Success, buf[2..])
  }

  /**
   * A message sent to `eid` and answered back unchanged from `source` decodes
   * exactly when the source is that endpoint, and to itself exactly when it
   * was an SPDM message: the type byte never travels.
   */
  lemma Loopback(eid: byte, source: byte, msg: seq<byte>)
    requires msg != []
    ensures Packet(eid, msg)[3..] == msg[1..]
    ensures var d := DecodePacket(eid, Arrived(Datagram(source, Packet(eid, msg)[3..])));
            && (d.status == Success <==> source == eid)
            && (source != eid ==> d == Decoded(InvalidMsgField, []))
            && (d == Decoded(Success, msg) <==> source == eid && msg[0] == 5)
    ensures Packet(eid, msg)[0] == 8 && Packet(eid, msg)[1] == eid
    ensures Arrived(Datagram(source, msg[1..]))[..3] == [1, source, 5]
  {
    assert Packet(eid, msg)[3..] == msg[1..];
    var buf := Arrived(Datagram(source, msg[1..]));
    assert buf[2..] == [MCTP_TYPE_SPDM] + msg[1..];
    assert msg == [msg[0]] + msg[1..];
    assert buf[2..] == msg ==> buf[2..][0] == msg[0];
  }

  // ----- the objects

  class MctpMessageTransport {
    method Encode(eid: byte, msg: seq<byte>) returns (buf: array<byte>)
      ensures fresh(buf) && buf[..] == Packet(eid, msg)
    {
      buf := new byte[2 + |msg|](_ => 0);
      buf[0] := MCTP_TAG_OWNER;
      buf[1] := eid;
      forall k | 0 <= k < |msg| {
        buf[2 + k] := msg[k];
      }
    }

    method Decode(eid: byte, buf: seq<byte>) returns (status: Status, message: seq<byte>)
      ensures Decoded(status, message) == DecodePacket(eid, buf)
    {
      if |buf| < 2 {
        return BufferTooSmall, [];
      }
      if buf[1] != eid {
        return InvalidMsgField, [];
      }
      return Success, buf[2..];
    }
  }

  class MctpIoClass {
    const socket: DatagramSocket

    constructor (socket: DatagramSocket)
      ensures this.socket == socket
    {
      this.socket := socket;
    }

    /** Sends the buffer without its first three bytes to the endpoint named by the second. */
    method WriteToSocket(buf: seq<byte>) returns (status: Status)
      requires 3 <= |buf|
      modifies socket`sent
      ensures status == if old(socket.isOpen && socket.sendOk) then Success else SendFail
      ensures socket.sent == old(socket.sent) + (if status == Success then [Datagram(buf[1], buf[3..])] else [])
    {
      if !socket.isOpen {
        return SendFail;
      }
      var eid: byte := if |buf| > 1 then buf[1] else 0;
      if !socket.sendOk {
        return SendFail;
      }
      socket.sent := socket.sent + [Datagram(eid, buf[3..])];
      return Success;
    }

    /** Takes the next datagram and puts three bytes in front of it. */
    method ReadFromSocket() returns (status: Status, buf: seq<byte>)
      modifies socket`inbox
      ensures status == Success <==> old(socket.isOpen && socket.peekOk && socket.recvOk && socket.inbox != [])
      ensures status == Success ==>
                buf == Arrived(old(socket.inbox)[0]) && socket.inbox == old(socket.inbox)[1..]
      ensures status != Success ==> status == ReceiveFail && socket.inbox == old(socket.inbox)
    {
      buf := [];
      if !socket.isOpen {
        return ReceiveFail, buf;
      }
      if !socket.peekOk || socket.inbox == [] {
        return ReceiveFail, buf;
      }
      var address: byte := 0;
      buf := seq(|socket.inbox[0].payload|, _ => 0);
      var received := socket.recvOk;
      if received {
        address := socket.inbox[0].address;
        buf := socket.inbox[0].payload;
        socket.inbox := socket.inbox[1..];
      }
      buf := [1, address, MCTP_TYPE_SPDM] + buf;
      if !received {
        return ReceiveFail, buf;
      }
      return Success, buf;
    }
  }
}
