/**
 * Base64 (RFC 4648, section 4): a recursive specification, a strict decoder,
 * and the index loop of `base64Encode` proved against the specification.
 */
module Base64 {
  import opened Bytes

  const UPPER := "ABCDEFGHIJKLMNOPQRSTUVWXYZ"
  const LOWER := "abcdefghijklmnopqrstuvwxyz"
  const TABLE := UPPER + LOWER + "0123456789+/"

  type sextet = v: int | 0 <= v < 64

  /** Table 1 of RFC 4648, as ranges of characters. */
  function Digit(v: sextet): char {
    if v < 26 then (v + 65) as char
    else if v < 52 then (v + 71) as char
    else if v < 62 then (v - 4) as char
    else if v == 62 then '+' else '/'
  }

  predicate IsDigit(c: char) {
    'A' <= c <= 'Z' || 'a' <= c <= 'z' || '0' <= c <= '9' || c == '+' || c == '/'
  }

  function Value(c: char): sextet
    requires IsDigit(c)
  {
    if 'A' <= c <= 'Z' then c as int - 65
    else if 'a' <= c <= 'z' then c as int - 71
    else if '0' <= c <= '9' then c as int + 4
    else if c == '+' then 62 else 63
  }

  // The four sextets of a 24-bit group, cut out of its three bytes.
  function First(x: byte): sextet { x / 4 }
  function Second(x: byte, y: byte): sextet { x % 4 * 16 + y / 16 }
  function Third(y: byte, z: byte): sextet { y % 16 * 4 + z / 64 }
  function Fourth(z: byte): sextet { z % 64 }

  /** The bytes of `b` cut into sextets, a short last group filled up with zero bits. */
  function Cut(b: seq<byte>): seq<sextet> {
    if |b| == 0 then []
    else if |b| == 1 then [First(b[0]), Second(b[0], 0)]
    else if |b| == 2 then [First(b[0]), Second(b[0], b[1]), Third(b[1], 0)]
    else [First(b[0]), Second(b[0], b[1]), Third(b[1], b[2]), Fourth(b[2])] + Cut(b[3..])
  }

  function Digits(v: seq<sextet>): string {
    seq(|v|, i requires 0 <= i < |v| => Digit(v[i]))
  }

  function Padding(n: nat): string {
    if n % 3 == 1 then "==" else if n % 3 == 2 then "=" else ""
  }

  function Encode(b: seq<byte>): string {
    Digits(Cut(b)) + Padding(|b|)
  }

  // The three bytes of a group, put together from its sextets.
  function Byte0(v0: sextet, v1: sextet): byte { v0 * 4 + v1 / 16 }
  function Byte1(v1: sextet, v2: sextet): byte { v1 % 16 * 16 + v2 / 4 }
  function Byte2(v2: sextet, v3: sextet): byte { v2 % 4 * 64 + v3 }

  /** The inverse of `Cut`; the filling bits of a short last group must be zero (RFC 4648, section 3.5). */
  function Join(v: seq<sextet>): Option<seq<byte>> {
    if |v| == 0 then Some([])
    else if |v| == 1 then None
    else if |v| == 2 then
      if v[1] % 16 == 0 then Some([Byte0(v[0], v[1])]) else None
    else if |v| == 3 then
      if v[2] % 4 == 0 then Some([Byte0(v[0], v[1]), Byte1(v[1], v[2])]) else None
    else
      match Join(v[4..])
      case None => None
      case Some(rest) => Some([Byte0(v[0], v[1]), Byte1(v[1], v[2]), Byte2(v[2], v[3])] + rest)
  }

  predicate Alphabetic(s: string) {
    forall i :: 0 <= i < |s| ==> IsDigit(s[i])
  }

  function Values(s: string): seq<sextet>
    requires Alphabetic(s)
  {
    seq(|s|, i requires 0 <= i < |s| => Value(s[i]))
  }

  /** How many padding characters, at most two, a text ends with. */
  function PadLength(s: string): nat
    ensures PadLength(s) <= |s|
  {
    if |s| == 0 || s[|s| - 1] != '=' then 0
    else if |s| == 1 || s[|s| - 2] != '=' then 1 else 2
  }

  /** The bytes of a text without its padding. */
  function DecodeBody(body: string): Option<seq<byte>> {
    if Alphabetic(body) then Join(Values(body)) else None
  }

  /** The strict decoder. */
  function Decode(s: string): Option<seq<byte>> {
    if |s| % 4 == 0 then DecodeBody(s[..|s| - PadLength(s)]) else None
  }

  lemma DigitValue(v: sextet)
    ensures IsDigit(Digit(v)) && Value(Digit(v)) == v && Digit(v) != '=' && Digit(v) != '-' && Digit(v) != '\n'
  {}

  lemma ValueDigit(c: char)
    requires IsDigit(c)
    ensures Digit(Value(c)) == c
  {}

  lemma TableIsAlphabet(v: sextet)
    ensures |TABLE| == 64 && TABLE[v] == Digit(v)
  {
  }

  /** A quotient and a remainder are found again. */
  lemma Digit4(q: nat, r: nat)
    requires r < 4
    ensures (q * 4 + r) / 4 == q && (q * 4 + r) % 4 == r
  {}

  lemma Digit16(q: nat, r: nat)
    requires r < 16
    ensures (q * 16 + r) / 16 == q && (q * 16 + r) % 16 == r
  {}

  lemma Digit64(q: nat, r: nat)
    requires r < 64
    ensures (q * 64 + r) / 64 == q && (q * 64 + r) % 64 == r
  {}

  lemma SecondParts(x: byte, y: byte)
    ensures Second(x, y) / 16 == x % 4 && Second(x, y) % 16 == y / 16
  {
    Digit16(x % 4, y / 16);
  }

  lemma ThirdParts(y: byte, z: byte)
    ensures Third(y, z) / 4 == y % 16 && Third(y, z) % 4 == z / 64
  {
    Digit4(y % 16, z / 64);
  }

  lemma BytesOfSextets(x: byte, y: byte, z: byte)
    ensures Byte0(First(x), Second(x, y)) == x
    ensures Byte1(Second(x, y), Third(y, z)) == y
    ensures Byte2(Third(y, z), Fourth(z)) == z
    ensures Second(x, 0) % 16 == 0 && Third(y, 0) % 4 == 0
  {
    hide Second, Third;
    SecondParts(x, y);
    ThirdParts(y, z);
    SecondParts(x, 0);
    ThirdParts(y, 0);
  }

  lemma SextetsOfBytes(v0: sextet, v1: sextet, v2: sextet, v3: sextet)
    ensures First(Byte0(v0, v1)) == v0
    ensures Second(Byte0(v0, v1), Byte1(v1, v2)) == v1
    ensures Third(Byte1(v1, v2), Byte2(v2, v3)) == v2
    ensures Fourth(Byte2(v2, v3)) == v3
    ensures (v1 % 16 == 0 ==> Byte1(v1, 0) == 0) && (v2 % 4 == 0 ==> Byte2(v2, 0) == 0)
  {
    Digit4(v0, v1 / 16);
    Digit16(v1 % 16, v2 / 4);
    Digit64(v2 % 4, v3);
  }

  lemma {:induction false} JoinCut(b: seq<byte>)
    ensures Join(Cut(b)) == Some(b)
  {
    hide First, Second, Third, Fourth, Byte0, Byte1, Byte2;
    if |b| == 0 {
    } else if |b| == 1 {
      BytesOfSextets(b[0], 0, 0);
      assert b == [b[0]];
    } else if |b| == 2 {
      BytesOfSextets(b[0], b[1], 0);
      assert b == [b[0], b[1]];
    } else {
      BytesOfSextets(b[0], b[1], b[2]);
      JoinCut(b[3..]);
      assert Cut(b)[4..] == Cut(b[3..]);
      assert b == [b[0], b[1], b[2]] + b[3..];
    }
  }

  lemma {:induction false} CutJoin(v: seq<sextet>)
    requires Join(v).Some?
    ensures Cut(Join(v).value) == v
  {
    hide First, Second, Third, Fourth, Byte0, Byte1, Byte2;
    if |v| == 0 {
    } else if |v| == 2 {
      SextetsOfBytes(v[0], v[1], 0, 0);
      assert v == [v[0], v[1]];
    } else if |v| == 3 {
      SextetsOfBytes(v[0], v[1], v[2], 0);
      assert v == [v[0], v[1], v[2]];
    } else {
      SextetsOfBytes(v[0], v[1], v[2], v[3]);
      CutJoin(v[4..]);
      assert Join(v).value[3..] == Join(v[4..]).value;
      assert v == [v[0], v[1], v[2], v[3]] + v[4..];
    }
  }

  lemma CutMore(b: seq<byte>)
    requires |b| >= 3
    ensures |Cut(b)| == 4 + |Cut(b[3..])|
  {
    hide First, Second, Third, Fourth;
  }

  lemma CutFew(b: seq<byte>)
    requires |b| < 3
    ensures |Cut(b)| == (if |b| == 0 then 0 else |b| + 1)
  {
    hide First, Second, Third, Fourth;
  }

  /** Three bytes more are one group more and leave the padding as it is. */
  lemma GroupMore(n: nat)
    requires n >= 3
    ensures (n + 2) / 3 == 1 + (n - 3 + 2) / 3 && |Padding(n)| == |Padding(n - 3)|
  {}

  lemma GroupFew(n: nat)
    requires n < 3
    ensures (if n == 0 then 0 else n + 1) + |Padding(n)| == 4 * ((n + 2) / 3)
  {}

  lemma {:induction false} CutLength(b: seq<byte>)
    ensures |Cut(b)| + |Padding(|b|)| == 4 * ((|b| + 2) / 3)
  {
    hide *;
    if |b| >= 3 {
      CutMore(b);
      CutLength(b[3..]);
      GroupMore(|b|);
    } else {
      CutFew(b);
      GroupFew(|b|);
    }
  }

  lemma ValuesDigits(v: seq<sextet>)
    ensures Alphabetic(Digits(v)) && Values(Digits(v)) == v
  {
    forall i | 0 <= i < |v| ensures IsDigit(Digits(v)[i]) && Value(Digits(v)[i]) == v[i] {
      DigitValue(v[i]);
    }
  }

  lemma DigitsValues(s: string)
    requires Alphabetic(s)
    ensures Digits(Values(s)) == s
  {
    forall i | 0 <= i < |s| ensures Digits(Values(s))[i] == s[i] {
      ValueDigit(s[i]);
    }
  }

  lemma PadLengthOf(t: string, p: string)
    requires Alphabetic(t) && (p == "" || p == "=" || p == "==")
    ensures PadLength(t + p) == |p| && (t + p)[..|t|] == t
  {
    hide Digit, Value;
  }

  lemma EncodeLength(b: seq<byte>)
    ensures |Encode(b)| == 4 * ((|b| + 2) / 3)
  {
    hide Cut;
    CutLength(b);
  }

  /** Every byte string survives a round trip through the encoder. */
  lemma DecodeEncode(b: seq<byte>)
    ensures Decode(Encode(b)) == Some(b)
  {
    hide Cut, Join, Digits, Digit, Value, Values, Alphabetic, PadLength;
    EncodeLength(b);
    ValuesDigits(Cut(b));
    PadLengthOf(Digits(Cut(b)), Padding(|b|));
    JoinCut(b);
  }

  /** How many bytes that many sextets stand for. */
  function BytesFor(n: nat): nat {
    if n == 0 then 0 else if n < 4 then n - 1 else 3 + BytesFor(n - 4)
  }

  lemma {:induction false} BytesForGroups(q: nat, r: nat)
    requires r < 4
    ensures BytesFor(4 * q + r) == 3 * q + (if r == 0 then 0 else r - 1)
  {
    if q > 0 {
      BytesForGroups(q - 1, r);
      assert 4 * q + r - 4 == 4 * (q - 1) + r;
    }
  }

  lemma Digit3(q: nat, r: nat)
    requires r < 3
    ensures (3 * q + r) % 3 == r
  {}

  lemma BytesForRemainder(n: nat)
    ensures BytesFor(n) % 3 == (if n % 4 == 0 then 0 else n % 4 - 1)
  {
    hide BytesFor;
    var q, r := n / 4, n % 4;
    assert n == 4 * q + r;
    BytesForGroups(q, r);
    Digit3(q, if r == 0 then 0 else r - 1);
  }

  lemma {:induction false} JoinLength(v: seq<sextet>)
    requires Join(v).Some?
    ensures |Join(v).value| == BytesFor(|v|)
  {
    hide Byte0, Byte1, Byte2;
    if |v| >= 4 {
      JoinLength(v[4..]);
    }
  }

  /** What the strict decoder accepts is exactly what the encoder prints. */
  lemma EncodeDecode(s: string, b: seq<byte>)
    requires Decode(s) == Some(b)
    ensures Encode(b) == s
  {
    hide Cut, Join, Digit, Value;
    var body := s[..|s| - PadLength(s)];
    CutJoin(Values(body));
    JoinLength(Values(body));
    BytesForRemainder(|body|);
    DigitsValues(body);
    assert s == body + s[|body|..];
    if PadLength(s) == 2 {
      assert s[|body|..] == "==";
    } else if PadLength(s) == 1 {
      assert s[|body|..] == "=";
    }
  }

  lemma EncodeInjective(a: seq<byte>, b: seq<byte>)
    requires Encode(a) == Encode(b)
    ensures a == b
  {
    DecodeEncode(a);
    DecodeEncode(b);
  }

  /** No printed character is a line break or a dash. */
  lemma EncodeCharacters(b: seq<byte>)
    ensures forall c :: c in Encode(b) ==> IsDigit(c) || c == '='
  {
    ValuesDigits(Cut(b));
  }

  /** Three bytes as one 24-bit word, and the shift-and-mask the code cuts it with. */
  function Pack(x: byte, y: byte, z: byte): nat {
    x as nat * 65536 + y as nat * 256 + z as nat
  }

  function Sextet(n: nat, k: nat): sextet
    requires k < 4
  {
    (match k case 0 => n / 262144 case 1 => n / 4096 case 2 => n / 64 case _ => n) % 64
  }

  lemma Quotients(x: byte, y: byte, z: byte)
    ensures Pack(x, y, z) / 262144 == x / 4
    ensures Pack(x, y, z) / 4096 == x / 4 * 64 + Second(x, y)
    ensures Pack(x, y, z) / 64 == (x * 16 + y / 16) * 64 + Third(y, z)
    ensures Pack(x, y, z) % 64 == z % 64
  {
    var n := Pack(x, y, z);
    assert n == x / 4 * 262144 + (x % 4 * 65536 + y * 256 + z);
    assert n == (x / 4 * 64 + Second(x, y)) * 4096 + (y % 16 * 256 + z);
    assert n == ((x * 16 + y / 16) * 64 + Third(y, z)) * 64 + z % 64;
  }

  lemma ShiftAndMask(x: byte, y: byte, z: byte)
    ensures Sextet(Pack(x, y, z), 0) == First(x)
    ensures Sextet(Pack(x, y, z), 1) == Second(x, y)
    ensures Sextet(Pack(x, y, z), 2) == Third(y, z)
    ensures Sextet(Pack(x, y, z), 3) == Fourth(z)
  {
    hide Pack, Second, Third;
    Quotients(x, y, z);
    Digit64(x / 4, Second(x, y));
    Digit64(x * 16 + y / 16, Third(y, z));
  }

  /** The table character the code appends for sextet k. */
  function TableChar(n: nat, k: nat): char
    requires k < 4
  {
    TABLE[Sextet(n, k)]
  }

  lemma TableChars(x: byte, y: byte, z: byte)
    ensures TableChar(Pack(x, y, z), 0) == Digit(First(x))
    ensures TableChar(Pack(x, y, z), 1) == Digit(Second(x, y))
    ensures TableChar(Pack(x, y, z), 2) == Digit(Third(y, z))
    ensures TableChar(Pack(x, y, z), 3) == Digit(Fourth(z))
  {
    hide Digit, Pack, Sextet, First, Second, Third, Fourth;
    ShiftAndMask(x, y, z);
    TableIsAlphabet(First(x));
    TableIsAlphabet(Second(x, y));
    TableIsAlphabet(Third(y, z));
    TableIsAlphabet(Fourth(z));
  }

  lemma EncodeGroup(x: byte, y: byte, z: byte, rest: seq<byte>)
    ensures Encode([x, y, z] + rest)
         == [Digit(First(x)), Digit(Second(x, y)), Digit(Third(y, z)), Digit(Fourth(z))] + Encode(rest)
  {
    hide First, Second, Third, Fourth, Digit;
    var b := [x, y, z] + rest;
    assert b[3..] == rest;
    assert Padding(|b|) == Padding(|rest|) by { hide Cut; }
    var group := [First(x), Second(x, y), Third(y, z), Fourth(z)];
    assert Digits(group + Cut(rest)) == Digits(group) + Digits(Cut(rest)) by { hide Cut, Padding; }
  }

  lemma GroupStep(data: seq<byte>, i: nat, before: string)
    requires i + 2 < |data|
    ensures var n := Pack(data[i], data[i + 1], data[i + 2]);
            before + Encode(data[i..])
            == before + [TableChar(n, 0), TableChar(n, 1), TableChar(n, 2), TableChar(n, 3)]
               + Encode(data[i + 3..])
  {
    hide *;
    TableChars(data[i], data[i + 1], data[i + 2]);
    EncodeGroup(data[i], data[i + 1], data[i + 2], data[i + 3..]);
    assert data[i..] == [data[i], data[i + 1], data[i + 2]] + data[i + 3..];
  }

  lemma TailOne(data: seq<byte>, i: nat, before: string)
    requires i + 1 == |data|
    ensures var n := Pack(data[i], 0, 0);
            before + Encode(data[i..]) == before + [TableChar(n, 0)] + [TableChar(n, 1), '=', '=']
  {
    hide First, Second, Third, Fourth, Digit, TableChar;
    TableChars(data[i], 0, 0);
    assert data[i..] == [data[i]];
  }

  /** The first digit of a two-byte tail is printed before the second byte is read. */
  lemma TailTwo(data: seq<byte>, i: nat, before: string)
    requires i + 2 == |data|
    ensures var n0 := Pack(data[i], 0, 0);
            var n := n0 + data[i + 1] as nat * 256;
            before + Encode(data[i..])
            == before + [TableChar(n0, 0)] + [TableChar(n, 1), TableChar(n, 2), '=']
  {
    hide First, Second, Third, Fourth, Digit, TableChar;
    TableChars(data[i], 0, 0);
    TableChars(data[i], data[i + 1], 0);
    assert data[i..] == [data[i], data[i + 1]];
    assert Pack(data[i], data[i + 1], 0) == Pack(data[i], 0, 0) + data[i + 1] as nat * 256;
  }

  lemma EncodeEmpty()
    ensures Encode([]) == ""
  {}

  /** `base64Encode`: whole groups in a loop, then the one- or two-byte tail. */
  method Base64Encode(data: seq<byte>) returns (base64: string)
    ensures base64 == Encode(data)
  {
    hide *;
    EncodeEmpty();
    base64 := "";
    var i := 0;
    while i + 2 < |data|
      invariant 0 <= i <= |data|
      invariant base64 + Encode(data[i..]) == Encode(data)
    {
      ghost var before := base64;
      var n := Pack(data[i], data[i + 1], data[i + 2]);
      base64 := base64 + [TableChar(n, 0), TableChar(n, 1), TableChar(n, 2), TableChar(n, 3)];
      assert base64 + Encode(data[i + 3..]) == before + Encode(data[i..]) by { GroupStep(data, i, before); }
      i := i + 3;
    }
    if i < |data| {
      ghost var before := base64;
      var n := Pack(data[i], 0, 0);
      base64 := base64 + [TableChar(n, 0)];
      if i + 1 < |data| {
        n := n + data[i + 1] as nat * 256;
        base64 := base64 + [TableChar(n, 1), TableChar(n, 2), '='];
        assert base64 == before + Encode(data[i..]) by { TailTwo(data, i, before); }
      } else {
        base64 := base64 + [TableChar(n, 1), '=', '='];
        assert base64 == before + Encode(data[i..]) by { TailOne(data, i, before); }
      }
    } else {
      assert data[i..] == [];
    }
  }

  /** Texts of section 10 of RFC 4648. */
  lemma TestVectors()
    ensures Encode([0x66]) == "Zg=="
    ensures Encode([0x66, 0x6f]) == "Zm8="
    ensures Encode([0x66, 0x6f, 0x6f]) == "Zm9v"
    ensures Encode([0x66, 0x6f, 0x6f, 0x62, 0x61, 0x72]) == "Zm9v" + "YmFy"
  {
    hide Encode;
    ShortVectors();
    GroupText(0x66, 0x6f, 0x6f, [], "Zm9v");
    GroupText(0x62, 0x61, 0x72, [], "YmFy");
    GroupText(0x66, 0x6f, 0x6f, [0x62, 0x61, 0x72], "Zm9v");
    EncodeEmpty();
    assert [0x66, 0x6f, 0x6f] + [] == [0x66, 0x6f, 0x6f];
    assert [0x62, 0x61, 0x72] + [] == [0x62, 0x61, 0x72];
    assert [0x66, 0x6f, 0x6f] + [0x62, 0x61, 0x72] == [0x66, 0x6f, 0x6f, 0x62, 0x61, 0x72];
  }

  lemma ShortVectors()
    ensures Encode([0x66]) == "Zg=="
    ensures Encode([0x66, 0x6f]) == "Zm8="
  {}

  lemma GroupText(x: byte, y: byte, z: byte, rest: seq<byte>, text: string)
    requires text == [Digit(First(x)), Digit(Second(x, y)), Digit(Third(y, z)), Digit(Fourth(z))]
    ensures Encode([x, y, z] + rest) == text + Encode(rest)
  {
    hide Encode, Digit, First, Second, Third, Fourth;
    EncodeGroup(x, y, z, rest);
  }

  /** The digits of the 64 values are the table of the code. */
  lemma DigitsAreTable()
    ensures Digits(seq(64, v requires 0 <= v < 64 => v)) == TABLE
  {
    hide Digit;
    forall v: sextet ensures TABLE[v] == Digit(v) && |TABLE| == 64 {
      TableIsAlphabet(v);
    }
    TableIsAlphabet(0);
  }
}
