/**
 * The frame of a message on a byte stream: twelve bytes of header, most
 * significant byte first, and the message. What the codec of the TCP
 * transport makes of every message and of every buffer.
 */
module TcpFrame {
  import opened Bytes

  const HEADER_SIZE := 12
  const MAX_MESSAGE := 65536
  const COMMAND_NORMAL := 1
  const TRANSPORT_TCP := 3

  type word = x: int | 0 <= x < 0x1_0000_0000

  // ----- the frame

  /** Four bytes, most significant first. */
  function Split(v: word): seq<byte> {
    [v / 16777216, v / 65536 % 256, v / 256 % 256, v % 256]
  }

  lemma SplitLength(v: word)
    ensures |Split(v)| == 4
  {}

  function Word(a: byte, b: byte, c: byte, d: byte): word {
    a * 16777216 + b * 65536 + c * 256 + d
  }

  lemma Quotient(q: nat, r: nat)
    ensures r < 256 ==> (q * 256 + r) / 256 == q && (q * 256 + r) % 256 == r
    ensures r < 65536 ==> (q * 65536 + r) / 65536 == q
    ensures r < 16777216 ==> (q * 16777216 + r) / 16777216 == q
  {}

  lemma SplitOfWord(a: byte, b: byte, c: byte, d: byte)
    ensures Split(Word(a, b, c, d)) == [a, b, c, d]
  {
    Quotient(a * 65536 + b * 256 + c, d);
    Quotient(a * 256 + b, c * 256 + d);
    Quotient(a, b * 65536 + c * 256 + d);
    Quotient(a * 256 + b, c);
    Quotient(a, b);
  }

  lemma WordOfSplit(v: word)
    ensures Word(v / 16777216, v / 65536 % 256, v / 256 % 256, v % 256) == v
  {
    var low := v % 16777216;
    var lower := low % 65536;
    var a, b, c, d := v / 16777216, low / 65536, lower / 256, lower % 256;
    assert Word(a, b, c, d) == v;
    SplitOfWord(a, b, c, d);
    assert Split(v) == [v / 16777216, v / 65536 % 256, v / 256 % 256, v % 256];
  }

  /** The header word that starts at byte `at`. */
  function Field(buf: seq<byte>, at: nat): word
    requires at + 4 <= |buf|
  {
    Word(buf[at], buf[at + 1], buf[at + 2], buf[at + 3])
  }

  function Header(command: word, transport: word, size: word): seq<byte> {
    Split(command) + Split(transport) + Split(size)
  }

  /** The frame of a message; the size field keeps 32 bits of its length. */
  function Frame(msg: seq<byte>): seq<byte> {
    Header(COMMAND_NORMAL, TRANSPORT_TCP, |msg| % 0x1_0000_0000) + msg
  }

  lemma HeaderFields(command: word, transport: word, size: word, tail: seq<byte>)
    ensures var buf := Header(command, transport, size) + tail;
            && |Header(command, transport, size)| == HEADER_SIZE
            && Field(buf, 0) == command && Field(buf, 4) == transport && Field(buf, 8) == size
            && buf[HEADER_SIZE..] == tail
  {
    hide Word;
    WordOfSplit(command);
    WordOfSplit(transport);
    WordOfSplit(size);
  }

  lemma HeaderOfFields(buf: seq<byte>)
    requires HEADER_SIZE <= |buf|
    ensures buf == Header(Field(buf, 0), Field(buf, 4), Field(buf, 8)) + buf[HEADER_SIZE..]
  {
    hide Word, Split;
    SplitOfWord(buf[0], buf[1], buf[2], buf[3]);
    SplitOfWord(buf[4], buf[5], buf[6], buf[7]);
    SplitOfWord(buf[8], buf[9], buf[10], buf[11]);
  }

  // ----- decoding

  datatype Status = Success | BufferTooSmall | InvalidMsgField | SendFail | ReceiveFail

  datatype Decoded = Decoded(status: Status, message: seq<byte>)

  /** What `decode` reports for a buffer. */
  function DecodeFrame(buf: seq<byte>): Decoded {
    if |buf| < HEADER_SIZE then Decoded(BufferTooSmall, [])
    else if Field(buf, 4) != TRANSPORT_TCP then Decoded(InvalidMsgField, [])
    else if |buf| < HEADER_SIZE + Field(buf, 8) then Decoded(BufferTooSmall, [])
    else Decoded(Success, buf[HEADER_SIZE..HEADER_SIZE + Field(buf, 8)])
  }

  /**
   * Exactly the buffers that start with a TCP header for `msg` and then
   * `msg` decode to `msg`: any command, and any trailing bytes.
   */
  lemma DecodesTo(buf: seq<byte>, msg: seq<byte>)
    ensures DecodeFrame(buf) == Decoded(Success, msg) <==>
              && HEADER_SIZE <= |buf|
              && |msg| < 0x1_0000_0000
              && Header(Field(buf, 0), TRANSPORT_TCP, |msg|) + msg <= buf
  {
    hide Header, Field;
    if |buf| >= HEADER_SIZE {
      HeaderOfFields(buf);
      if DecodeFrame(buf) == Decoded(Success, msg) {
        assert |msg| == Field(buf, 8);
        assert buf[HEADER_SIZE..] == msg + buf[HEADER_SIZE + |msg|..];
        PrefixOf(Header(Field(buf, 0), TRANSPORT_TCP, |msg|), msg, buf[HEADER_SIZE + |msg|..]);
      }
      if |msg| < 0x1_0000_0000 && Header(Field(buf, 0), TRANSPORT_TCP, |msg|) + msg <= buf {
        var h := Header(Field(buf, 0), TRANSPORT_TCP, |msg|);
        var tail := buf[|h| + |msg|..];
        SplitPrefix(h, msg, buf);
        HeaderFields(Field(buf, 0), TRANSPORT_TCP, |msg|, msg + tail);
        assert buf[HEADER_SIZE..HEADER_SIZE + |msg|] == (msg + tail)[..|msg|];
      }
    }
  }

  lemma PrefixOf(h: seq<byte>, m: seq<byte>, tail: seq<byte>)
    ensures h + m <= h + (m + tail)
  {}

  lemma SplitPrefix(h: seq<byte>, m: seq<byte>, buf: seq<byte>)
    requires h + m <= buf
    ensures buf == h + (m + buf[|h| + |m|..])
  {}

  lemma DecodeOfFrame(msg: seq<byte>, tail: seq<byte>)
    requires |msg| < 0x1_0000_0000
    ensures DecodeFrame(Frame(msg) + tail) == Decoded(Success, msg)
  {
    hide Header, Field;
    HeaderFields(COMMAND_NORMAL, TRANSPORT_TCP, |msg|, msg + tail);
    Reassociate(Header(COMMAND_NORMAL, TRANSPORT_TCP, |msg|), msg, tail);
    assert (msg + tail)[..|msg|] == msg;
    var buf := Frame(msg) + tail;
    assert buf[HEADER_SIZE..HEADER_SIZE + |msg|] == buf[HEADER_SIZE..][..|msg|];
  }

  // ----- the numbers of the wire format

  lemma FieldIsBigEndian(buf: seq<byte>, at: nat)
    requires at + 4 <= |buf|
    ensures Field(buf, at) == BigEndian(buf[at..at + 4])
  {
    var s := buf[at..at + 4];
    assert s[..3][..2] == s[..2] && s[..2][..1] == s[..1] && s[..1][..0] == [];
    assert BigEndian(s[..1]) == s[0];
    assert BigEndian(s[..2]) == BigEndian(s[..1]) * 256 + s[1];
    assert BigEndian(s[..3]) == BigEndian(s[..2]) * 256 + s[2];
  }

  /** A frame is command 1, transport type 3 and the length, in four bytes each, and the message. */
  lemma FrameNumbers(msg: seq<byte>)
    requires |msg| < 0x1_0000_0000
    ensures |Frame(msg)| == 12 + |msg|
    ensures BigEndian(Frame(msg)[0..4]) == 1
    ensures BigEndian(Frame(msg)[4..8]) == 3
    ensures BigEndian(Frame(msg)[8..12]) == |msg|
    ensures Frame(msg)[12..] == msg
  {
    hide Header, Field, BigEndian;
    HeaderFields(COMMAND_NORMAL, TRANSPORT_TCP, |msg|, msg);
    FieldIsBigEndian(Frame(msg), 0);
    FieldIsBigEndian(Frame(msg), 4);
    FieldIsBigEndian(Frame(msg), 8);
  }

  /** Decoding, by the numbers in the buffer. */
  lemma DecodeNumbers(buf: seq<byte>)
    ensures DecodeFrame(buf)
         == if |buf| < 12 then Decoded(BufferTooSmall, [])
            else if BigEndian(buf[4..8]) != 3 then Decoded(InvalidMsgField, [])
            else if |buf| < 12 + BigEndian(buf[8..12]) then Decoded(BufferTooSmall, [])
            else Decoded(Success, buf[12..12 + BigEndian(buf[8..12])])
  {
    hide Field, BigEndian;
    if |buf| >= 12 {
      FieldIsBigEndian(buf, 4);
      FieldIsBigEndian(buf, 8);
    }
  }

  lemma BigEndianExample()
    ensures BigEndian([0x12, 0x34, 0x56, 0x78]) == 0x12345678
  {
    assert [0x12, 0x34, 0x56, 0x78][..3] == [0x12, 0x34, 0x56];
    assert [0x12, 0x34, 0x56][..2] == [0x12, 0x34];
    assert [0x12, 0x34][..1] == [0x12];
    assert BigEndian([0x12]) == BigEndian([]) * 256 + 0x12;
  }
}
