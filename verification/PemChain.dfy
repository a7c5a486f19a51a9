/**
 * Certificate chains as text (RFC 7468): the printed form, a parser for the
 * strict grammar of section 3, with its three line ends and the certificate
 * label of section 5 read out of the text, and the proof that the two are
 * inverse to each other.
 */
module PemChain {
  import opened Bytes
  import opened Base64

  const BEGIN := "-----BEGIN CERTIFICATE-----"
  const END := "-----END CERTIFICATE-----"

  // ----- the printed form

  /** `base64` with a line break behind every 64 characters and behind the last ones. */
  function WrapLines(base64: string): string {
    if base64 == "" then ""
    else if |base64| <= 64 then base64 + "\n"
    else base64[..64] + "\n" + WrapLines(base64[64..])
  }

  function PemOf(cert: seq<byte>): string {
    BEGIN + "\n" + WrapLines(Encode(cert)) + END + "\n"
  }

  function Print(certs: seq<seq<byte>>): string {
    if certs == [] then "" else PemOf(certs[0]) + Print(certs[1..])
  }

  // ----- the same as a list of lines

  function Unlines(lines: seq<string>): string {
    if lines == [] then "" else lines[0] + "\n" + Unlines(lines[1..])
  }

  function Fold64(base64: string): seq<string> {
    if base64 == "" then []
    else if |base64| <= 64 then [base64]
    else [base64[..64]] + Fold64(base64[64..])
  }

  function CertLines(cert: seq<byte>): seq<string> {
    [BEGIN] + Fold64(Encode(cert)) + [END]
  }

  function ChainLines(certs: seq<seq<byte>>): seq<string> {
    if certs == [] then [] else CertLines(certs[0]) + ChainLines(certs[1..])
  }

  // ----- the strict parser

  predicate IsBreak(c: char) {
    c == '\r' || c == '\n'
  }

  /** The index of the first character that breaks a line, or the length of the text. */
  function LineEnd(text: string): (k: nat)
    ensures k <= |text| && (forall i :: 0 <= i < k ==> !IsBreak(text[i])) && (k < |text| ==> IsBreak(text[k]))
  {
    if text == "" || IsBreak(text[0]) then 0 else 1 + LineEnd(text[1..])
  }

  /** Where the line end at index `k` is over: it is CR, LF, or CR and LF together. */
  function NextLine(text: string, k: nat): (n: nat)
    requires k < |text|
    ensures k < n <= |text|
  {
    if text[k] == '\r' && k + 1 < |text| && text[k + 1] == '\n' then k + 2 else k + 1
  }

  /** The lines of a text in which every line is terminated. */
  function Lines(text: string): Option<seq<string>>
    decreases |text|
  {
    if text == "" then Some([])
    else
      var k := LineEnd(text);
      if k == |text| then None
      else
        match Lines(text[NextLine(text, k)..])
        case None => None
        case Some(rest) => Some([text[..k]] + rest)
  }

  predicate IsLabelChar(c: char) {
    '!' <= c <= '~' && c != '-'
  }

  /** Whether a character may stand there in a label: a hyphen or space only between two others. */
  predicate FitsLabel(name: string, i: nat)
    requires i < |name|
  {
    if name[i] == '-' || name[i] == ' '
    then 0 < i && i + 1 < |name| && IsLabelChar(name[i - 1]) && IsLabelChar(name[i + 1])
    else IsLabelChar(name[i])
  }

  predicate IsLabel(name: string) {
    forall i :: 0 <= i < |name| ==> FitsLabel(name, i)
  }

  const DASHES := "-----"

  /** The label of an encapsulation boundary, which begins with this word. */
  function LabelOf(line: string, word: string): Option<string> {
    var head := DASHES + word + " ";
    if head <= line && |line| >= |head| + 5 && line[|line| - 5..] == DASHES && IsLabel(line[|head|..|line| - 5])
    then Some(line[|head|..|line| - 5]) else None
  }

  /** The index of the first line that ends a block, or the number of lines. */
  function EndLine(lines: seq<string>): (k: nat)
    ensures k <= |lines| && (k < |lines| ==> LabelOf(lines[k], "END").Some?)
  {
    if lines == [] || LabelOf(lines[0], "END").Some? then 0 else 1 + EndLine(lines[1..])
  }

  /** Full lines of 64 characters and a last one of at most 64. */
  predicate StrictBody(body: seq<string>) {
    if body == [] then false
    else if |body| == 1 then 1 <= |body[0]| <= 64
    else |body[0]| == 64 && StrictBody(body[1..])
  }

  /** A block of any kind: the label at both of its ends, and what is encoded between them. */
  datatype Block = Block(name: string, content: seq<byte>)

  function ParseLines(lines: seq<string>): Option<seq<Block>>
    decreases |lines|
  {
    if lines == [] then Some([])
    else
      match LabelOf(lines[0], "BEGIN")
      case None => None
      case Some(name) =>
        var k := 1 + EndLine(lines[1..]);
        if k == |lines| || LabelOf(lines[k], "END") != Some(name) || !StrictBody(lines[1..k]) then None
        else
          match (Decode(Flatten(lines[1..k])), ParseLines(lines[k + 1..]))
          case (Some(content), Some(rest)) => Some([Block(name, content)] + rest)
          case _ => None
  }

  predicate AllCertificates(blocks: seq<Block>) {
    forall i :: 0 <= i < |blocks| ==> blocks[i].name == "CERTIFICATE"
  }

  function Contents(blocks: seq<Block>): seq<seq<byte>> {
    seq(|blocks|, i requires 0 <= i < |blocks| => blocks[i].content)
  }

  /** The certificates of a text that holds nothing else. */
  function Parse(text: string): Option<seq<seq<byte>>> {
    match Lines(text)
    case None => None
    case Some(lines) =>
      match ParseLines(lines)
      case None => None
      case Some(blocks) => if AllCertificates(blocks) then Some(Contents(blocks)) else None
  }

  // ----- labels

  /** A boundary is dashes, the word, its name, and dashes. */
  lemma LabelIs(line: string, word: string, name: string)
    ensures LabelOf(line, word) == Some(name) <==>
              IsLabel(name) && line == DASHES + word + " " + name + DASHES
  {
    hide IsLabel;
    var head := DASHES + word + " ";
    if LabelOf(line, word) == Some(name) {
      assert line == head + line[|head|..|line| - 5] + line[|line| - 5..];
    }
    if line == head + name + DASHES {
      assert line[|head|..|line| - 5] == name;
    }
  }

  /** The two lines the printer writes are the boundaries of a certificate, and the only ones. */
  lemma CertificateBoundaries(line: string)
    ensures LabelOf(line, "BEGIN") == Some("CERTIFICATE") <==> line == BEGIN
    ensures LabelOf(line, "END") == Some("CERTIFICATE") <==> line == END
  {
    hide *;
    LabelIs(line, "BEGIN", "CERTIFICATE");
    LabelIs(line, "END", "CERTIFICATE");
    CertificateLabel();
    BeginText();
    EndText();
  }

  lemma BeginText()
    ensures BEGIN == DASHES + "BEGIN" + " " + "CERTIFICATE" + DASHES
  {}

  lemma EndText()
    ensures END == DASHES + "END" + " " + "CERTIFICATE" + DASHES
  {}

  lemma CertificateLabel()
    ensures IsLabel("CERTIFICATE")
  {}

  lemma LabelHasDash(line: string)
    ensures LabelOf(line, "END").Some? ==> '-' in line
  {
    hide IsLabel;
    var head := DASHES + "END" + " ";
    if head <= line {
      assert line[0] == head[0];
    }
  }

  // ----- printing is printing lines

  lemma {:induction false} UnlinesAppend(a: seq<string>, b: seq<string>)
    ensures Unlines(a + b) == Unlines(a) + Unlines(b)
  {
    if a == [] {
      assert a + b == b;
    } else {
      UnlinesAppend(a[1..], b);
      assert (a + b)[1..] == a[1..] + b;
      Reassociate(a[0] + "\n", Unlines(a[1..]), Unlines(b));
    }
  }

  lemma {:induction false} WrapIsFold(base64: string)
    ensures Unlines(Fold64(base64)) == WrapLines(base64)
    decreases |base64|
  {
    if |base64| > 64 {
      WrapIsFold(base64[64..]);
    }
  }

  lemma PemIsLines(cert: seq<byte>)
    ensures Unlines(CertLines(cert)) == PemOf(cert)
  {
    hide Encode, Fold64, WrapLines, BEGIN, END;
    var body := Fold64(Encode(cert));
    WrapIsFold(Encode(cert));
    UnlinesAppend([BEGIN] + body, [END]);
    UnlinesAppend([BEGIN], body);
  }

  lemma {:induction false} PrintIsLines(certs: seq<seq<byte>>)
    ensures Unlines(ChainLines(certs)) == Print(certs)
  {
    hide CertLines, PemOf;
    if certs != [] {
      PrintIsLines(certs[1..]);
      PemIsLines(certs[0]);
      UnlinesAppend(CertLines(certs[0]), ChainLines(certs[1..]));
    }
  }

  // ----- lines and text

  predicate OneLine(line: string) {
    forall i :: 0 <= i < |line| ==> !IsBreak(line[i])
  }

  predicate NoBreaks(lines: seq<string>) {
    forall i :: 0 <= i < |lines| ==> OneLine(lines[i])
  }

  lemma {:induction false} LineEndOf(line: string, rest: string)
    requires OneLine(line)
    ensures LineEnd(line + "\n" + rest) == |line|
  {
    if line == "" {
    } else {
      LineEndOf(line[1..], rest);
      assert (line + "\n" + rest)[1..] == line[1..] + "\n" + rest;
    }
  }

  lemma LinesCons(line: string, rest: string)
    requires OneLine(line) && Lines(rest).Some?
    ensures Lines(line + "\n" + rest) == Some([line] + Lines(rest).value)
  {
    hide LineEnd, IsBreak;
    var text := line + "\n" + rest;
    LineEndOf(line, rest);
    assert text[|line|] == '\n';
    assert text[..|line|] == line && text[|line| + 1..] == rest;
  }

  lemma {:induction false} LinesOfUnlines(lines: seq<string>)
    requires NoBreaks(lines)
    ensures Lines(Unlines(lines)) == Some(lines)
  {
    hide Lines;
    if lines == [] {
      LinesOfNothing();
    } else {
      LinesOfUnlines(lines[1..]);
      LinesCons(lines[0], Unlines(lines[1..]));
      assert lines == [lines[0]] + lines[1..];
    }
  }

  lemma LinesOfNothing()
    ensures Lines("") == Some([])
  {}

  lemma UnlinesCons(line: string, lines: seq<string>)
    ensures Unlines([line] + lines) == line + "\n" + Unlines(lines)
  {
    assert ([line] + lines)[1..] == lines;
  }

  /** Without carriage returns, the lines of a text make up the text again. */
  lemma {:induction false} UnlinesOfLines(text: string)
    requires Lines(text).Some?
    ensures '\r' !in text ==> Unlines(Lines(text).value) == text
    decreases |text|
  {
    hide Unlines, LineEnd;
    if text == "" {
      UnlinesOfNothing();
    } else {
      var k := LineEnd(text);
      var n := NextLine(text, k);
      UnlinesOfLines(text[n..]);
      UnlinesCons(text[..k], Lines(text[n..]).value);
      if '\r' !in text {
        assert text[k] == '\n' && n == k + 1;
        SplitAtBreak(text, k);
      }
    }
  }

  lemma {:induction false} UnlinesCharacters(lines: seq<string>)
    requires forall i :: 0 <= i < |lines| ==> '\r' !in lines[i]
    ensures '\r' !in Unlines(lines)
  {
    if lines != [] {
      UnlinesCharacters(lines[1..]);
    }
  }

  lemma SplitAtBreak(text: string, k: nat)
    requires k < |text| && text[k] == '\n'
    ensures text == text[..k] + "\n" + text[k + 1..]
  {}

  lemma UnlinesOfNothing()
    ensures Unlines([]) == ""
  {}

  // ----- folding

  lemma {:induction false} FoldIsStrict(base64: string)
    requires base64 != ""
    ensures StrictBody(Fold64(base64)) && Flatten(Fold64(base64)) == base64
    decreases |base64|
  {
    hide Flatten;
    if |base64| > 64 {
      FoldIsStrict(base64[64..]);
      FlattenCons(base64[..64], Fold64(base64[64..]));
      assert Fold64(base64)[1..] == Fold64(base64[64..]);
    } else {
      FlattenSingle(base64);
    }
  }

  lemma {:induction false} StrictIsFold(body: seq<string>)
    requires StrictBody(body)
    ensures Fold64(Flatten(body)) == body
    decreases |body|
  {
    hide Flatten;
    if |body| == 1 {
      FlattenSingle(body[0]);
      assert body == [body[0]];
    } else {
      StrictIsFold(body[1..]);
      FlattenNonempty(body[1..]);
      FlattenCons(body[0], body[1..]);
      var text := Flatten(body);
      assert body == [body[0]] + body[1..];
      assert text[64..] == Flatten(body[1..]) && text[..64] == body[0];
    }
  }

  lemma {:induction false} FlattenNonempty(body: seq<string>)
    requires StrictBody(body)
    ensures Flatten(body) != ""
  {}

  lemma {:induction false} FoldCharacters(base64: string)
    ensures forall i, c :: 0 <= i < |Fold64(base64)| && c in Fold64(base64)[i] ==> c in base64
    decreases |base64|
  {
    if |base64| > 64 {
      FoldCharacters(base64[64..]);
      assert base64 == base64[..64] + base64[64..];
    }
  }

  // ----- the two directions

  lemma BodyLines(cert: seq<byte>)
    requires cert != []
    ensures StrictBody(Fold64(Encode(cert))) && Flatten(Fold64(Encode(cert))) == Encode(cert)
    ensures NoBreaks(Fold64(Encode(cert))) && NoEnd(Fold64(Encode(cert)))
  {
    hide Encode, Fold64, StrictBody, Flatten, LabelOf;
    var lines := Fold64(Encode(cert));
    EncodeLength(cert);
    FoldIsStrict(Encode(cert));
    EncodeCharacters(cert);
    FoldCharacters(Encode(cert));
    forall i | 0 <= i < |lines| ensures OneLine(lines[i]) && LabelOf(lines[i], "END").None? {
      assert forall c :: c in lines[i] ==> IsDigit(c) || c == '=';
      assert forall k :: 0 <= k < |lines[i]| ==> lines[i][k] in lines[i];
      LabelHasDash(lines[i]);
    }
  }

  predicate NoEnd(body: seq<string>) {
    forall i :: 0 <= i < |body| ==> LabelOf(body[i], "END").None?
  }

  lemma {:induction false} EndLineOf(body: seq<string>, rest: seq<string>)
    requires NoEnd(body)
    ensures EndLine(body + [END] + rest) == |body|
  {
    hide LabelOf;
    if body == [] {
      CertificateBoundaries(END);
    } else {
      EndLineOf(body[1..], rest);
      assert (body + [END] + rest)[1..] == body[1..] + [END] + rest;
    }
  }

  lemma Sections(first: string, body: seq<string>, last: string, rest: seq<string>)
    ensures var lines := [first] + body + [last] + rest;
            && lines[0] == first
            && lines[1..] == body + [last] + rest
            && lines[1..1 + |body|] == body
            && lines[|body| + 2..] == rest
  {}

  function Certificates(certs: seq<seq<byte>>): seq<Block> {
    seq(|certs|, i requires 0 <= i < |certs| => Block("CERTIFICATE", certs[i]))
  }

  lemma ParseCertLines(cert: seq<byte>, rest: seq<string>)
    requires cert != [] && ParseLines(rest).Some?
    ensures ParseLines(CertLines(cert) + rest) == Some([Block("CERTIFICATE", cert)] + ParseLines(rest).value)
  {
    hide Encode, Decode, Fold64, StrictBody, Flatten, EndLine, LabelOf, BEGIN, END;
    var lines, body := CertLines(cert) + rest, Fold64(Encode(cert));
    BodyLines(cert);
    EndLineOf(body, rest);
    Sections(BEGIN, body, END, rest);
    CertificateBoundaries(BEGIN);
    CertificateBoundaries(END);
    DecodeEncode(cert);
  }

  lemma {:induction false} ParseChainLines(certs: seq<seq<byte>>)
    requires forall i :: 0 <= i < |certs| ==> certs[i] != []
    ensures ParseLines(ChainLines(certs)) == Some(Certificates(certs))
  {
    hide ParseLines, CertLines;
    if certs == [] {
      ParseNoLines();
    } else {
      ParseChainLines(certs[1..]);
      ParseCertLines(certs[0], ChainLines(certs[1..]));
      assert Certificates(certs) == [Block("CERTIFICATE", certs[0])] + Certificates(certs[1..]);
    }
  }

  lemma ParseNoLines()
    ensures ParseLines([]) == Some([])
  {}

  lemma {:induction false} ChainNoBreaks(certs: seq<seq<byte>>)
    requires forall i :: 0 <= i < |certs| ==> certs[i] != []
    ensures NoBreaks(ChainLines(certs))
  {
    hide Encode, Fold64, StrictBody, Flatten;
    if certs != [] {
      ChainNoBreaks(certs[1..]);
      BodyLines(certs[0]);
      assert OneLine(BEGIN) && OneLine(END);
    }
  }

  lemma ChainCons(cert: seq<byte>, certs: seq<seq<byte>>)
    ensures ChainLines([cert] + certs) == CertLines(cert) + ChainLines(certs)
  {
    assert ([cert] + certs)[1..] == certs;
  }

  /** What the parser has found in front when it accepts some lines. */
  lemma ParsedFirst(lines: seq<string>) returns (k: nat, first: Block)
    requires ParseLines(lines).Some? && lines != []
    ensures 0 < k < |lines| && StrictBody(lines[1..k]) && Decode(Flatten(lines[1..k])) == Some(first.content)
    ensures LabelOf(lines[0], "BEGIN") == LabelOf(lines[k], "END") == Some(first.name)
    ensures ParseLines(lines[k + 1..]).Some?
    ensures ParseLines(lines).value == [first] + ParseLines(lines[k + 1..]).value
  {
    hide Decode, Flatten, StrictBody, LabelOf;
    k := 1 + EndLine(lines[1..]);
    first := ParseLines(lines).value[0];
  }

  lemma LinesOfBody(body: seq<string>, cert: seq<byte>)
    requires StrictBody(body) && Decode(Flatten(body)) == Some(cert)
    ensures CertLines(cert) == [BEGIN] + body + [END] && cert != []
  {
    hide Encode, Decode, Fold64, Flatten, StrictBody, BEGIN, END;
    StrictIsFold(body);
    FlattenNonempty(body);
    EncodeDecode(Flatten(body), cert);
    EncodeLength(cert);
  }

  lemma CutLines(lines: seq<string>, k: nat)
    requires 0 < k < |lines|
    ensures lines == [lines[0]] + lines[1..k] + [lines[k]] + lines[k + 1..]
  {}

  lemma FirstContent(first: Block, rest: seq<Block>)
    requires AllCertificates([first] + rest)
    ensures first.name == "CERTIFICATE" && AllCertificates(rest)
    ensures Contents([first] + rest) == [first.content] + Contents(rest)
  {
    assert ([first] + rest)[0] == first;
    assert forall i :: 0 <= i < |rest| ==> rest[i] == ([first] + rest)[i + 1];
  }

  lemma {:induction false} ChainLinesOfParsed(lines: seq<string>)
    requires ParseLines(lines).Some? && AllCertificates(ParseLines(lines).value)
    ensures var certs := Contents(ParseLines(lines).value);
            ChainLines(certs) == lines && forall i :: 0 <= i < |certs| ==> certs[i] != []
    decreases |lines|
  {
    hide *;
    if lines == [] {
      ChainOfNone();
      ParseNoLines();
      NoContents();
    } else {
      var k, first := ParsedFirst(lines);
      var rest := ParseLines(lines[k + 1..]).value;
      FirstContent(first, rest);
      ChainLinesOfParsed(lines[k + 1..]);
      LinesOfBody(lines[1..k], first.content);
      CertificateBoundaries(lines[0]);
      CertificateBoundaries(lines[k]);
      ChainCons(first.content, Contents(rest));
      CutLines(lines, k);
    }
  }

  lemma NoContents()
    ensures Contents([]) == []
  {}

  lemma ChainOfNone()
    ensures ChainLines([]) == []
  {}

  /** What the strict parser reads out of a printed chain is the chain. */
  lemma ParsePrint(certs: seq<seq<byte>>)
    requires forall i :: 0 <= i < |certs| ==> certs[i] != []
    ensures Parse(Print(certs)) == Some(certs)
  {
    hide ChainLines, ParseLines, Print, Lines, Unlines;
    PrintIsLines(certs);
    ParseChainLines(certs);
    ChainNoBreaks(certs);
    LinesOfUnlines(ChainLines(certs));
    assert Contents(Certificates(certs)) == certs;
  }

  /**
   * A text the strict parser accepts is the printed form of what it reads,
   * character by character, exactly when it ends its lines with LF alone.
   */
  lemma PrintParse(text: string)
    requires Parse(text).Some?
    ensures Print(Parse(text).value) == text <==> '\r' !in text
  {
    hide ChainLines, ParseLines, Print, Lines, Unlines, NoBreaks;
    UnlinesOfLines(text);
    ChainLinesOfParsed(Lines(text).value);
    PrintIsLines(Parse(text).value);
    ChainNoBreaks(Parse(text).value);
    NoReturns(ChainLines(Parse(text).value));
  }

  lemma NoReturns(lines: seq<string>)
    requires NoBreaks(lines)
    ensures '\r' !in Unlines(lines)
  {
    hide Unlines;
    forall i | 0 <= i < |lines| ensures '\r' !in lines[i] {
      assert OneLine(lines[i]);
      assert forall k :: 0 <= k < |lines[i]| ==> lines[i][k] != '\r';
    }
    UnlinesCharacters(lines);
  }
}
