/**
 * A chain of DER certificates: definite-length SEQUENCEs one after another
 * (ITU-T X.690, sections 8.1.3 and 10.1), found one by one by their index.
 */
module DerChain {
  import opened Bytes

  const SEQUENCE_TAG := 0x30

  /** `n` when that many bytes are there. */
  function Fits(d: seq<byte>, n: nat): Option<nat> {
    if n <= |d| then Some(n) else None
  }

  /**
   * The encoded length, header included, of the SEQUENCE at the front of `d`.
   * The indefinite form, the reserved length octet 255 and lengths not in the
   * fewest octets are refused.
   */
  function TlvLength(d: seq<byte>): (r: Option<nat>)
    ensures r.Some? ==> 2 <= r.value <= |d|
  {
    if |d| < 2 || d[0] != SEQUENCE_TAG then None
    else if d[1] < 128 then Fits(d, 2 + d[1])
    else
      var k: nat := d[1] - 128;
      if k == 0 || k == 127 || |d| < 2 + k || d[2] == 0 || (k == 1 && d[2] < 128) then None
      else Fits(d, 2 + k + BigEndian(d[2..2 + k]))
  }

  /** The library call of the chain loop: certificate number `index`, found by walking from the start. */
  function GetCert(d: seq<byte>, index: nat): Option<seq<byte>> {
    match TlvLength(d)
    case None => None
    case Some(n) => if index == 0 then Some(d[..n]) else GetCert(d[n..], index - 1)
  }

  /** All certificates of a chain, up to the first bytes that are not one. */
  function Certs(d: seq<byte>): seq<seq<byte>>
    decreases |d|
  {
    match TlvLength(d)
    case None => []
    case Some(n) => [d[..n]] + Certs(d[n..])
  }

  /** What is left behind the last certificate. */
  function Rest(d: seq<byte>): seq<byte>
    decreases |d|
  {
    match TlvLength(d)
    case None => d
    case Some(n) => Rest(d[n..])
  }

  predicate IsCert(c: seq<byte>) {
    TlvLength(c) == Some(|c|)
  }

  /** A complete certificate is recognised whatever follows it. */
  lemma TlvPrefix(c: seq<byte>, rest: seq<byte>)
    requires IsCert(c)
    ensures TlvLength(c + rest) == Some(|c|)
  {
    hide BigEndian;
    var k: nat := if c[1] < 128 then 0 else c[1] - 128;
    if c[1] >= 128 {
      assert (c + rest)[2..2 + k] == c[2..2 + k];
    }
  }

  /** Cutting a certificate off the front leaves a complete certificate. */
  lemma TlvTaken(d: seq<byte>)
    requires TlvLength(d).Some?
    ensures IsCert(d[..TlvLength(d).value])
  {
    hide BigEndian;
    var n := TlvLength(d).value;
    var k: nat := if d[1] < 128 then 0 else d[1] - 128;
    if d[1] >= 128 {
      assert d[..n][2..2 + k] == d[2..2 + k];
    }
  }

  /** Looking certificates up by index gives the list, and nothing past its end. */
  lemma {:induction false} GetCertIsNth(d: seq<byte>, index: nat)
    ensures GetCert(d, index) == if index < |Certs(d)| then Some(Certs(d)[index]) else None
    decreases index
  {
    hide TlvLength;
    if TlvLength(d).Some? && index > 0 {
      GetCertIsNth(d[TlvLength(d).value..], index - 1);
    }
  }

  /** The certificates tile a prefix of the input, and what follows is not a certificate. */
  lemma {:induction false} CertsTile(d: seq<byte>)
    ensures Flatten(Certs(d)) + Rest(d) == d
    ensures TlvLength(Rest(d)).None?
    decreases |d|
  {
    hide TlvLength, Flatten;
    if TlvLength(d).Some? {
      var n := TlvLength(d).value;
      CertsTile(d[n..]);
      FlattenCons(d[..n], Certs(d[n..]));
      Reassociate(d[..n], Flatten(Certs(d[n..])), Rest(d));
    } else {
      FlattenNone<byte>();
    }
  }

  lemma {:induction false} CertsAreCerts(d: seq<byte>)
    ensures forall i :: 0 <= i < |Certs(d)| ==> IsCert(Certs(d)[i])
    decreases |d|
  {
    hide TlvLength, IsCert;
    if TlvLength(d).Some? {
      CertsAreCerts(d[TlvLength(d).value..]);
      TlvTaken(d);
    }
  }

  /** Concatenated certificates are found again, up to trailing bytes that start none. */
  lemma {:induction false} CertsOfFlatten(cs: seq<seq<byte>>, junk: seq<byte>)
    requires forall i :: 0 <= i < |cs| ==> IsCert(cs[i])
    requires TlvLength(junk).None?
    ensures Certs(Flatten(cs) + junk) == cs
    ensures Rest(Flatten(cs) + junk) == junk
    decreases |cs|
  {
    hide TlvLength;
    if cs == [] {
      assert Flatten(cs) + junk == junk;
    } else {
      var d, tail := Flatten(cs) + junk, Flatten(cs[1..]) + junk;
      assert d == cs[0] + tail;
      TlvPrefix(cs[0], tail);
      assert d[|cs[0]|..] == tail && d[..|cs[0]|] == cs[0];
      CertsOfFlatten(cs[1..], junk);
    }
  }

  /** The sum of the lengths of the first `index` certificates. */
  function Offset(d: seq<byte>, index: nat): nat
    requires index <= |Certs(d)|
  {
    |Flatten(Certs(d)[..index])|
  }

  /** The offset grows by each certificate, and reaches the input's end only past the last one. */
  lemma OffsetStep(d: seq<byte>, index: nat)
    requires index <= |Certs(d)|
    ensures Offset(d, index) <= |d|
    ensures index < |Certs(d)| ==>
              && Offset(d, index + 1) == Offset(d, index) + |Certs(d)[index]|
              && Offset(d, index) < Offset(d, index + 1)
    ensures index < |Certs(d)| ==> Offset(d, index) < |d|
  {
    hide TlvLength;
    var cs := Certs(d);
    CertsTile(d);
    CertsAreCerts(d);
    assert cs == cs[..index] + cs[index..];
    FlattenAppend(cs[..index], cs[index..]);
    if index < |cs| {
      assert IsCert(cs[index]);
      assert cs[..index + 1] == cs[..index] + [cs[index]];
      FlattenSnoc(cs[..index], cs[index]);
      assert Flatten(cs[index..]) == cs[index] + Flatten(cs[index + 1..]);
    }
  }

  // ----- the encoder

  /** The length octets of X.690: one for a length below 128, otherwise a count and the fewest octets. */
  function LengthOctets(n: nat): seq<byte>
    requires Encodable(n)
  {
    if n < 128 then [n] else [128 + |Octets(n)|] + Octets(n)
  }

  /** The first octet leaves room for a count of at most 126. */
  predicate Encodable(n: nat) {
    |Octets(n)| <= 126
  }

  /** The encoding of a SEQUENCE with this content. */
  function Sequence(content: seq<byte>): seq<byte>
    requires Encodable(|content|)
  {
    [SEQUENCE_TAG] + LengthOctets(|content|) + content
  }

  lemma LengthOctetsExamples()
    ensures Encodable(127) && LengthOctets(127) == [0x7f]
    ensures Encodable(128) && LengthOctets(128) == [0x81, 0x80]
    ensures Encodable(256) && LengthOctets(256) == [0x82, 0x01, 0x00]
    ensures Encodable(70000) && LengthOctets(70000) == [0x83, 0x01, 0x11, 0x70]
  {
    assert Octets(1) == [1] && Octets(256) == Octets(1) + [0];
    assert Octets(273) == Octets(1) + [0x11] && Octets(70000) == Octets(273) + [0x70];
  }

  /** The walker finds the length an encoder has written, whatever follows the content. */
  lemma LengthOfSequence(content: seq<byte>, rest: seq<byte>)
    requires Encodable(|content|)
    ensures TlvLength(Sequence(content) + rest) == Some(|Sequence(content)|)
    ensures |Sequence(content)| == 1 + |LengthOctets(|content|)| + |content|
  {
    hide BigEndian, Octets, TlvLength;
    var n := |content|;
    OctetsFewest(n);
    if n < 128 {
      Reassociate([SEQUENCE_TAG] + [n], content, rest);
      ShortForm(n, content + rest);
    } else {
      BigEndianOctets(n);
      var count: byte := 128 + |Octets(n)|;
      Reassociate([SEQUENCE_TAG], [count], Octets(n));
      assert [SEQUENCE_TAG] + [count] == [SEQUENCE_TAG, count];
      Reassociate([SEQUENCE_TAG, count] + Octets(n), content, rest);
      LongForm(count, Octets(n), content + rest);
    }
  }

  lemma ShortForm(n: byte, tail: seq<byte>)
    requires n < 128 && n <= |tail|
    ensures TlvLength([SEQUENCE_TAG] + [n] + tail) == Some(2 + n)
  {}

  lemma LongForm(count: byte, octets: seq<byte>, tail: seq<byte>)
    requires count == 128 + |octets| && 0 < |octets| <= 126
    requires octets[0] != 0 && (|octets| == 1 ==> octets[0] >= 128)
    requires BigEndian(octets) <= |tail|
    ensures TlvLength([SEQUENCE_TAG, count] + octets + tail) == Some(2 + |octets| + BigEndian(octets))
  {
    hide BigEndian, TlvLength;
    LongParts([SEQUENCE_TAG, count], octets, tail);
    LongFormIs([SEQUENCE_TAG, count] + octets + tail, count, octets);
  }

  lemma LongFormIs(d: seq<byte>, count: byte, octets: seq<byte>)
    requires count == 128 + |octets| && 0 < |octets| <= 126
    requires octets[0] != 0 && (|octets| == 1 ==> octets[0] >= 128)
    requires 2 + |octets| + BigEndian(octets) <= |d|
    requires d[0] == SEQUENCE_TAG && d[1] == count && d[2] == octets[0] && d[2..2 + |octets|] == octets
    ensures TlvLength(d) == Some(2 + |octets| + BigEndian(octets))
  {
    hide BigEndian;
  }

  lemma LongParts(head: seq<byte>, octets: seq<byte>, tail: seq<byte>)
    requires |head| == 2 && octets != []
    ensures var d := head + octets + tail;
            && |d| == 2 + |octets| + |tail|
            && d[0] == head[0] && d[1] == head[1] && d[2] == octets[0]
            && d[2..2 + |octets|] == octets
  {}

  /** The certificates of the walker are exactly the SEQUENCEs of the encoder. */
  lemma CertIsSequence(c: seq<byte>)
    ensures IsCert(c) <==> exists content: seq<byte> :: Encodable(|content|) && c == Sequence(content)
  {
    hide BigEndian, Octets;
    if IsCert(c) {
      var _ := ContentOf(c);
    }
    if content: seq<byte> :| Encodable(|content|) && c == Sequence(content) {
      LengthOfSequence(content, []);
      assert Sequence(content) + [] == c;
    }
  }

  lemma ContentOf(c: seq<byte>) returns (content: seq<byte>)
    requires IsCert(c)
    ensures Encodable(|content|) && c == Sequence(content)
  {
    hide BigEndian, Octets;
    if c[1] < 128 {
      content := c[2..];
      OctetsFewest(c[1]);
    } else {
      var k: nat := c[1] - 128;
      var s := c[2..2 + k];
      content := c[2 + k..];
      OctetsOfBigEndian(s);
      OctetsFewest(|content|);
      assert c == [c[0]] + ([c[1]] + s) + content;
    }
  }

  function Sequences(contents: seq<seq<byte>>): seq<seq<byte>>
    requires forall i :: 0 <= i < |contents| ==> Encodable(|contents[i]|)
  {
    seq(|contents|, i requires 0 <= i < |contents| => Sequence(contents[i]))
  }

  /** Encoded contents put one behind another are found again, whatever undecodable bytes follow. */
  lemma CertsOfSequences(contents: seq<seq<byte>>, junk: seq<byte>)
    requires forall i :: 0 <= i < |contents| ==> Encodable(|contents[i]|)
    requires TlvLength(junk).None?
    ensures Certs(Flatten(Sequences(contents)) + junk) == Sequences(contents)
  {
    hide TlvLength, LengthOctets, Encodable, Flatten;
    forall i | 0 <= i < |contents| ensures IsCert(Sequences(contents)[i]) {
      LengthOfSequence(contents[i], []);
      assert Sequence(contents[i]) + [] == Sequence(contents[i]);
    }
    CertsOfFlatten(Sequences(contents), junk);
  }
}
