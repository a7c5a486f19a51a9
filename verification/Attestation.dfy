/**
 * The `ComponentIntegrity` object: validation of measurement indices, the
 * certificate chain as PEM, the collected measurements as base64, and the
 * D-Bus method that joins them.
 */
module Attestation {
  import opened Bytes
  import opened Base64
  import opened SpdmCalls
  import opened SpdmObjects
  import S = SessionSpec
  import DerChain
  import PemChain

  // ----- what a request means

  predicate Distinct(s: seq<nat>) {
    forall i, j :: 0 <= i < j < |s| ==> s[i] != s[j]
  }

  predicate Regular(idx: nat) {
    1 <= idx <= 254
  }

  predicate AllRegular(s: seq<nat>) {
    forall i :: 0 <= i < |s| ==> Regular(s[i])
  }

  /** The requests the service accepts. */
  predicate Acceptable(indices: seq<nat>) {
    indices == [] || indices == [0] || indices == [255] || (AllRegular(indices) && Distinct(indices))
  }

  /** An empty request asks for all measurements. */
  function Effective(indices: seq<nat>): seq<nat> {
    if indices == [] then [255] else indices
  }

  /** The device calls for a list of indices. */
  function Requests(ctx: nat, indices: seq<nat>, slot: nat): seq<Op> {
    seq(|indices|, i requires 0 <= i < |indices| => GetMeasurement(ctx, indices[i] % 256, slot % 256))
  }

  predicate AllAnswered(script: Script, start: nat, count: nat) {
    forall i :: start <= i < start + count ==> script(i).ok
  }

  /** What the device's replies contribute: index 0 nothing, any other index its content. */
  function Contributions(script: Script, start: nat, indices: seq<nat>): seq<seq<byte>> {
    seq(|indices|, i requires 0 <= i < |indices| => if indices[i] == 0 then [] else script(start + i).content)
  }

  /** A chain long enough for its length, reserved and root-hash fields. */
  predicate HasChain(reply: Reply) {
    reply.ok && 4 + reply.hashSize <= |reply.bytes|
  }

  /** The DER certificates behind these fields. */
  function Chain(reply: Reply): seq<seq<byte>>
    requires HasChain(reply)
  {
    DerChain.Certs(reply.bytes[4 + reply.hashSize..])
  }

  /** When, and only when, the service method answers a request. */
  predicate Served(script: Script, base: nat, indices: seq<nat>) {
    && Acceptable(indices)
    && script(base).ok
    && script(base + 1).ok
    && HasChain(script(base + 2))
    && Chain(script(base + 2)) != []
    && AllAnswered(script, base + 3, |Effective(indices)|)
  }

  /** The calls in front of the measurements. */
  function OpeningCalls(ctx: nat, slot: nat): seq<Op> {
    [InitConnection(ctx), GetDigest(ctx), GetCertificate(ctx, slot % 256)]
  }

  const NOTHING := ("", "")

  /** What the service method does on a context: its calls, and the two texts it answers with. */
  function Serve(script: Script, trace: Trace, ctx: nat, indices: seq<nat>, slot: nat): S.Done<(string, string)> {
    if !Acceptable(indices) || ctx == 0 then S.Done(trace, NOTHING)
    else
      var asked := S.CallAll(script, trace, OpeningCalls(ctx, slot));
      var chain := script(|trace| + 2);
      if !asked.value || !HasChain(chain) then S.Done(asked.trace, NOTHING)
      else
        var measured := S.CallAll(script, asked.trace, Requests(ctx, Effective(indices), slot));
        if !measured.value || Chain(chain) == [] then S.Done(measured.trace, NOTHING)
        else
          var collected := Flatten(Contributions(script, |trace| + 3, Effective(indices)));
          S.Done(measured.trace, (PemChain.Print(Chain(chain)), Encode(collected)))
  }

  // ----- making calls

  /** Calls made until one fails: all of them when all are answered, otherwise up to the first that is not. */
  lemma {:induction false} CallAllAnswered(script: Script, trace: Trace, ops: seq<Op>)
    ensures var done := S.CallAll(script, trace, ops);
            && (done.value <==> AllAnswered(script, |trace|, |ops|))
            && (done.value ==> |done.trace| == |trace| + |ops|)
            && (!done.value ==> |trace| < |done.trace| <= |trace| + |ops| && !script(|done.trace| - 1).ok)
    decreases |ops|
  {
    hide Ask, Answer, AllAnswered;
    AnsweredNone(script, |trace|);
    if ops != [] {
      AnsweredFirst(script, trace, |ops|, ops[0]);
      if Answer(script, trace).ok {
        CallAllAnswered(script, Ask(script, trace, ops[0]), ops[1..]);
      }
    }
  }

  lemma AnsweredNone(script: Script, start: nat)
    ensures AllAnswered(script, start, 0)
  {}

  lemma AnsweredFirst(script: Script, trace: Trace, count: nat, op: Op)
    requires count > 0
    ensures AllAnswered(script, |trace|, count) <==>
              Answer(script, trace).ok && AllAnswered(script, |trace| + 1, count - 1)
    ensures Answer(script, trace) == script(|trace|) && |Ask(script, trace, op)| == |trace| + 1
  {
    assert Answer(script, trace) == script(|trace|);
  }

  lemma {:induction false} CallAllSnoc(script: Script, trace: Trace, ops: seq<Op>, op: Op)
    ensures var first := S.CallAll(script, trace, ops);
            S.CallAll(script, trace, ops + [op])
            == if !first.value then first
               else S.Done(Ask(script, first.trace, op), Answer(script, first.trace).ok)
    decreases |ops|
  {
    hide Ask, Answer;
    if ops == [] {
      assert ops + [op] == [op];
    } else {
      assert (ops + [op])[1..] == ops[1..] + [op];
      CallAllSnoc(script, Ask(script, trace, ops[0]), ops[1..], op);
    }
  }

  // ----- counting

  function Elements(s: seq<nat>): set<nat> {
    set x | x in s
  }

  function UpTo(n: nat): (r: set<nat>)
    ensures forall x :: x in r <==> 1 <= x <= n
    ensures |r| == n
  {
    if n == 0 then {} else UpTo(n - 1) + {n}
  }

  lemma {:induction false} DistinctCount(s: seq<nat>)
    ensures |Elements(s)| <= |s|
    ensures |Elements(s)| == |s| <==> Distinct(s)
  {
    if s != [] {
      var init, last := s[..|s| - 1], s[|s| - 1];
      DistinctCount(init);
      assert s == init + [last];
      assert Elements(s) == Elements(init) + {last};
      if last in init {
        assert Elements(s) == Elements(init);
        var i :| 0 <= i < |init| && init[i] == last;
        assert s[i] == s[|s| - 1];
      } else {
        assert |Elements(s)| == |Elements(init)| + 1;
        assert Distinct(init) ==> Distinct(s);
        assert Distinct(s) ==> Distinct(init) by {
          assert forall i :: 0 <= i < |init| ==> init[i] == s[i];
        }
      }
    } else {
      assert Elements(s) == {};
    }
  }

  lemma SubsetCount(a: set<nat>, b: set<nat>)
    requires a <= b
    ensures |a| <= |b|
  {
    assert b == a + (b - a);
  }

  /** At most 254 indices fit into an accepted request. */
  lemma AcceptedCount(indices: seq<nat>)
    requires Acceptable(indices)
    ensures 1 <= |Effective(indices)| <= 254
    ensures forall i :: 0 <= i < |Effective(indices)| ==> Effective(indices)[i] <= 255
  {
    if AllRegular(indices) && Distinct(indices) {
      DistinctCount(indices);
      assert forall x :: x in indices ==> Regular(x);
      SubsetCount(Elements(indices), UpTo(254));
    }
  }

  lemma {:induction false} FlattenBound(parts: seq<seq<byte>>)
    requires forall i :: 0 <= i < |parts| ==> |parts[i]| <= BUFFER_SIZE
    ensures |Flatten(parts)| <= |parts| * 4096
  {
    if parts != [] {
      FlattenBound(parts[1..]);
      assert |parts| * 4096 == |parts[1..]| * 4096 + 4096;
    }
  }

  /** The narrowing to eight bits loses nothing on an accepted index. */
  lemma RequestsExact(ctx: nat, indices: seq<nat>, slot: nat, i: nat)
    requires Acceptable(indices) && i < |Effective(indices)|
    ensures Requests(ctx, Effective(indices), slot)[i] == GetMeasurement(ctx, Effective(indices)[i], slot % 256)
  {
    AcceptedCount(indices);
  }

  /**
   * It does lose something of the slot, which is not validated: the slot asked
   * for is the one requested exactly when that is below 256, and a request for
   * slot 256 is answered as one for slot 0.
   */
  lemma SlotNarrowing(script: Script, trace: Trace, ctx: nat, indices: seq<nat>, slot: nat)
    ensures OpeningCalls(ctx, slot)[2] == GetCertificate(ctx, slot) <==> slot < 256
    ensures Serve(script, trace, ctx, indices, slot) == Serve(script, trace, ctx, indices, slot % 256)
    ensures Serve(script, trace, ctx, indices, 256) == Serve(script, trace, ctx, indices, 0)
  {
    hide Acceptable, HasChain, Chain, Flatten, Encode, S.CallAll;
    assert slot % 256 % 256 == slot % 256;
    assert Requests(ctx, Effective(indices), slot) == Requests(ctx, Effective(indices), slot % 256);
    assert Requests(ctx, Effective(indices), 256) == Requests(ctx, Effective(indices), 0);
  }

  /** The base64 text of an accepted request has at most 4 * ceil(254 * 4096 / 3) characters. */
  lemma ResultBound(script: Script, start: nat, indices: seq<nat>)
    requires Acceptable(indices)
    ensures |Encode(Flatten(Contributions(script, start, Effective(indices))))| <= LONGEST
  {
    hide Encode, Flatten;
    var parts := Contributions(script, start, Effective(indices));
    AcceptedCount(indices);
    FlattenBound(parts);
    EncodeLength(Flatten(parts));
  }

  const LONGEST := 4 * ((254 * 4096 + 2) / 3)

  /** What the service method answers, and when. */
  lemma ServeMeans(script: Script, trace: Trace, ctx: nat, indices: seq<nat>, slot: nat)
    ensures var base, done := |trace|, Serve(script, trace, ctx, indices, slot);
            && (done.value != NOTHING <==> ctx != 0 && Served(script, base, indices))
            && (ctx == 0 || !Acceptable(indices) ==> done.trace == trace)
            && (done.value != NOTHING ==>
                  && HasChain(script(base + 2))
                  && done.value.0 != ""
                  && PemChain.Parse(done.value.0) == Some(Chain(script(base + 2)))
                  && Decode(done.value.1) == Some(Flatten(Contributions(script, base + 3, Effective(indices))))
                  && |done.value.1| <= LONGEST)
  {
    hide Acceptable, HasChain, Chain, Flatten, Encode, Decode, PemChain.Parse, PemChain.Print, S.CallAll, AllAnswered,
         Contributions, Effective;
    if ctx != 0 && Acceptable(indices) {
      var base := |trace|;
      var asked := S.CallAll(script, trace, OpeningCalls(ctx, slot));
      CallAllAnswered(script, trace, OpeningCalls(ctx, slot));
      ThreeAnswered(script, base);
      ChainAnswered(script(base + 2));
      if asked.value {
        CallAllAnswered(script, asked.trace, Requests(ctx, Effective(indices), slot));
        DecodeEncode(Flatten(Contributions(script, base + 3, Effective(indices))));
        ResultBound(script, base + 3, indices);
      }
    }
  }

  lemma ThreeAnswered(script: Script, base: nat)
    ensures AllAnswered(script, base, 3) <==> script(base).ok && script(base + 1).ok && script(base + 2).ok
  {
    if script(base).ok && script(base + 1).ok && script(base + 2).ok {
      forall i | base <= i < base + 3 ensures script(i).ok {
        assert i == base || i == base + 1 || i == base + 2;
      }
    }
  }

  lemma ChainAnswered(reply: Reply)
    ensures HasChain(reply) ==> reply.ok
    ensures HasChain(reply) ==> PemChain.Parse(PemChain.Print(Chain(reply))) == Some(Chain(reply))
    ensures HasChain(reply) && Chain(reply) != [] ==> PemChain.Print(Chain(reply)) != ""
  {
    hide PemChain.Parse, PemChain.Print, DerChain.Certs;
    if HasChain(reply) {
      CertsNonempty(reply.bytes[4 + reply.hashSize..]);
      PemChain.ParsePrint(Chain(reply));
      PrintEmpty(Chain(reply));
    }
  }

  // ----- one turn of the printing loop

  lemma PrintNothing()
    ensures PemChain.Print([]) == ""
  {}

  lemma WrapNothing()
    ensures PemChain.WrapLines("") == ""
  {}

  lemma OffsetNothing(d: seq<byte>)
    ensures DerChain.Offset(d, 0) == 0
  {}

  lemma WrapCases(text: string)
    ensures 0 < |text| <= 64 ==> PemChain.WrapLines(text) == text + "\n"
    ensures |text| > 64 ==> PemChain.WrapLines(text) == text[..64] + "\n" + PemChain.WrapLines(text[64..])
  {}

  lemma WrapStep(base64: string, j: nat, before: string)
    requires j < |base64|
    ensures var k := if j + 64 < |base64| then j + 64 else |base64|;
            before + PemChain.WrapLines(base64[j..])
            == before + base64[j..k] + "\n" + (if k == j + 64 then PemChain.WrapLines(base64[k..]) else "")
  {
    hide PemChain.WrapLines;
    var text := base64[j..];
    WrapCases(text);
    WrapNothing();
    if j + 64 < |base64| {
      assert text[..64] == base64[j..j + 64] && text[64..] == base64[j + 64..];
    } else {
      assert text == base64[j..|base64|];
      assert j + 64 == |base64| ==> base64[j + 64..] == "";
    }
  }

  lemma {:induction false} PrintAppend(a: seq<seq<byte>>, c: seq<byte>)
    ensures PemChain.Print(a + [c]) == PemChain.Print(a) + PemChain.PemOf(c)
  {
    hide PemChain.PemOf;
    if a == [] {
      assert PemChain.Print([c]) == PemChain.PemOf(c) + PemChain.Print([]);
      assert [] + [c] == [c];
    } else {
      PrintAppend(a[1..], c);
      assert (a + [c])[1..] == a[1..] + [c];
      Reassociate(PemChain.PemOf(a[0]), PemChain.Print(a[1..]), PemChain.PemOf(c));
    }
  }

  lemma PrintSnoc(certs: seq<seq<byte>>, index: nat)
    requires index < |certs|
    ensures PemChain.Print(certs[..index + 1])
         == PemChain.Print(certs[..index])
            + (PemChain.BEGIN + "\n" + PemChain.WrapLines(Encode(certs[index])) + PemChain.END + "\n")
  {
    hide PemChain.Print, Encode, PemChain.WrapLines;
    PrintAppend(certs[..index], certs[index]);
    assert certs[..index + 1] == certs[..index] + [certs[index]];
  }

  lemma CertsNonempty(d: seq<byte>)
    ensures forall i :: 0 <= i < |DerChain.Certs(d)| ==> DerChain.Certs(d)[i] != []
  {
    DerChain.CertsAreCerts(d);
  }

  // ----- one turn of the collecting loop

  lemma EffectiveIs(indices: seq<nat>, wanted: seq<nat>)
    requires wanted == if |indices| == 0 then [255] else indices
    ensures wanted == Effective(indices)
  {}

  lemma CollectNothing(script: Script, trace: Trace, ctx: nat, wanted: seq<nat>, slot: nat)
    ensures |Requests(ctx, wanted, slot)| == |wanted| == |Contributions(script, |trace|, wanted)|
    ensures S.CallAll(script, trace, Requests(ctx, wanted, slot)[..0]) == S.Done(trace, true)
    ensures Flatten(Contributions(script, |trace|, wanted)[..0]) == []
  {}

  lemma CollectStep(script: Script, trace: Trace, ctx: nat, wanted: seq<nat>, slot: nat, k: nat, now: Trace)
    requires k < |wanted|
    ensures |Requests(ctx, wanted, slot)| == |wanted| == |Contributions(script, |trace|, wanted)|
    requires S.CallAll(script, trace, Requests(ctx, wanted, slot)[..k]) == S.Done(now, true)
    ensures var op := GetMeasurement(ctx, wanted[k] % 256, slot % 256);
            S.CallAll(script, trace, Requests(ctx, wanted, slot)[..k + 1])
            == S.Done(Ask(script, now, op), Answer(script, now).ok)
    ensures Flatten(Contributions(script, |trace|, wanted)[..k + 1])
         == Flatten(Contributions(script, |trace|, wanted)[..k])
            + (if wanted[k] == 0 then [] else Answer(script, now).content)
  {
    hide Flatten, S.CallAll, AllAnswered;
    var parts, ops := Contributions(script, |trace|, wanted), Requests(ctx, wanted, slot);
    CallAllAnswered(script, trace, ops[..k]);
    CallAllSnoc(script, trace, ops[..k], ops[k]);
    assert ops[..k + 1] == ops[..k] + [ops[k]];
    FlattenSnoc(parts[..k], parts[k]);
    assert parts[..k + 1] == parts[..k] + [parts[k]];
  }

  /** A call that fails is the last one made. */
  lemma {:induction false} CallAllStops(script: Script, trace: Trace, ops: seq<Op>, k: nat)
    requires k <= |ops| && !S.CallAll(script, trace, ops[..k]).value
    ensures S.CallAll(script, trace, ops) == S.CallAll(script, trace, ops[..k])
    decreases k
  {
    hide Ask, Answer;
    if k > 0 && Answer(script, trace).ok {
      assert ops[..k][1..] == ops[1..][..k - 1];
      CallAllStops(script, Ask(script, trace, ops[0]), ops[1..], k - 1);
    }
  }

  lemma CollectEverything(script: Script, trace: Trace, ctx: nat, wanted: seq<nat>, slot: nat)
    ensures |Requests(ctx, wanted, slot)| == |wanted| == |Contributions(script, |trace|, wanted)|
    ensures Requests(ctx, wanted, slot)[..|wanted|] == Requests(ctx, wanted, slot)
    ensures Contributions(script, |trace|, wanted)[..|wanted|] == Contributions(script, |trace|, wanted)
  {}

  lemma PrintEmpty(certs: seq<seq<byte>>)
    ensures PemChain.Print(certs) == "" <==> certs == []
  {
    if certs != [] {
      assert |PemChain.PemOf(certs[0])| >= 1;
    }
  }

  /**
   * Contents encoded as SEQUENCEs and put one behind another, then walked and
   * printed, parse back to those SEQUENCEs, whatever undecodable bytes follow.
   */
  lemma ChainRoundTrip(contents: seq<seq<byte>>, junk: seq<byte>)
    requires forall i :: 0 <= i < |contents| ==> DerChain.Encodable(|contents[i]|)
    requires DerChain.TlvLength(junk).None?
    ensures var certs := DerChain.Sequences(contents);
            PemChain.Parse(PemChain.Print(DerChain.Certs(Flatten(certs) + junk))) == Some(certs)
  {
    hide PemChain.Parse, PemChain.Print, Flatten, DerChain.Certs, DerChain.Encodable, DerChain.TlvLength,
         DerChain.LengthOctets;
    DerChain.CertsOfSequences(contents, junk);
    PemChain.ParsePrint(DerChain.Sequences(contents));
  }

  /**
   * A reply of four bytes, the root hash, certificates and undecodable bytes
   * holds exactly these certificates, and they are what the text parses to.
   */
  lemma ChainOf(reply: Reply, head: seq<byte>, hash: seq<byte>, certs: seq<seq<byte>>, junk: seq<byte>)
    requires reply.ok && |head| == 4 && |hash| == reply.hashSize
    requires forall i :: 0 <= i < |certs| ==> DerChain.IsCert(certs[i])
    requires DerChain.TlvLength(junk).None?
    requires reply.bytes == head + hash + Flatten(certs) + junk
    ensures HasChain(reply) && Chain(reply) == certs
    ensures PemChain.Parse(PemChain.Print(Chain(reply))) == Some(certs)
    ensures certs != [] ==> Chain(reply)[|Chain(reply)| - 1] == certs[|certs| - 1]
  {
    hide *;
    ChainOfJoined(reply, head, hash, Flatten(certs), junk);
    DerChain.CertsOfFlatten(certs, junk);
    PrintedParses(Flatten(certs) + junk);
  }

  lemma ChainOfJoined(reply: Reply, head: seq<byte>, hash: seq<byte>, certs: seq<byte>, junk: seq<byte>)
    requires reply.ok && |head| == 4 && |hash| == reply.hashSize && reply.bytes == head + hash + certs + junk
    ensures HasChain(reply) && Chain(reply) == DerChain.Certs(certs + junk)
  {
    hide *;
    Reassociate(head + hash, certs, junk);
    ChainBytes(reply, head, hash, certs + junk);
  }

  lemma PrintedParses(der: seq<byte>)
    ensures PemChain.Parse(PemChain.Print(DerChain.Certs(der))) == Some(DerChain.Certs(der))
  {
    hide *;
    CertsNonempty(der);
    PemChain.ParsePrint(DerChain.Certs(der));
  }

  lemma ChainBytes(reply: Reply, head: seq<byte>, hash: seq<byte>, der: seq<byte>)
    requires reply.ok && |head| == 4 && |hash| == reply.hashSize && reply.bytes == head + hash + der
    ensures HasChain(reply) && Chain(reply) == DerChain.Certs(der)
  {
    hide DerChain.Certs;
    assert reply.bytes[4 + reply.hashSize..] == der;
  }

  /** So it is for a request that is served. */
  lemma ServedChain(script: Script, trace: Trace, ctx: nat, indices: seq<nat>, slot: nat,
                    head: seq<byte>, hash: seq<byte>, certs: seq<seq<byte>>, junk: seq<byte>)
    requires var reply := script(|trace| + 2);
             && reply.ok && |head| == 4 && |hash| == reply.hashSize
             && reply.bytes == head + hash + Flatten(certs) + junk
    requires forall i :: 0 <= i < |certs| ==> DerChain.IsCert(certs[i])
    requires DerChain.TlvLength(junk).None?
    ensures var texts := Serve(script, trace, ctx, indices, slot).value;
            texts != NOTHING ==> PemChain.Parse(texts.0) == Some(certs)
  {
    hide Serve, Served, Flatten, PemChain.Parse, PemChain.Print, DerChain.TlvLength, Chain, HasChain;
    ServeMeans(script, trace, ctx, indices, slot);
    ChainOf(script(|trace| + 2), head, hash, certs, junk);
  }

  /** Index 0 collects nothing, no index asks for everything, and other indices collect all that is replied. */
  lemma CollectedIs(script: Script, start: nat, indices: seq<nat>)
    ensures Flatten(Contributions(script, start, [0])) == []
    ensures Effective([]) == [255] && Flatten(Contributions(script, start, [255])) == script(start).content
    ensures AllRegular(indices) && indices != [] ==>
              && Effective(indices) == indices
              && Contributions(script, start, indices)
                 == seq(|indices|, i requires 0 <= i < |indices| => script(start + i).content)
  {
    FlattenSingle<byte>([]);
    FlattenSingle(script(start).content);
    assert Contributions(script, start, [0]) == [[]];
    assert Contributions(script, start, [255]) == [script(start).content];
    assert forall i :: 0 <= i < |indices| && Regular(indices[i]) ==> indices[i] != 0;
  }

  // ----- the service object

  datatype Error = InvalidArgument | RuntimeError

  datatype Result<+T> = Success(value: T) | Failure(error: Error) {
    predicate IsFailure() {
      Failure?
    }

    function PropagateFailure<U>(): Result<U>
      requires Failure?
    {
      Failure(error)
    }

    function Extract(): T
      requires Success?
    {
      value
    }
  }

  lemma SlotsCount(slots: Slots)
    ensures |slots| <= 8
  {
    SubsetCount(slots, {0, 1, 2, 3, 4, 5, 6, 7});
  }

  class ComponentIntegrity {
    const transport: Transport?

    constructor (transport: Transport?)
      ensures this.transport == transport
    {
      this.transport := transport;
    }

    /** The context of the transport, null when there is no transport. */
    ghost function Context(): nat
      reads transport
    {
      if transport == null then 0 else transport.spdmContext
    }

    predicate IsConnectable()
      reads transport
      ensures IsConnectable() <==> Context() != 0
      ensures IsConnectable() ==> transport != null
    {
      transport != null && transport.spdmContext != 0
    }

    method ValidateSpecialValueCombinations(indices: seq<nat>) returns (r: Result<()>)
      ensures r.Success? <==>
                && !(0 in indices && 255 in indices)
                && (0 in indices || 255 in indices ==> forall i :: 0 <= i < |indices| ==> !Regular(indices[i]))
      ensures r.Failure? ==> r.error == InvalidArgument
    {
      var hasZero, has255, hasRegular := false, false, false;
      for k := 0 to |indices|
        invariant hasZero <==> 0 in indices[..k]
        invariant has255 <==> 255 in indices[..k]
        invariant hasRegular <==> exists i :: 0 <= i < k && Regular(indices[i])
      {
        if indices[k] == 0 {
          hasZero := true;
        } else if indices[k] == 255 {
          has255 := true;
        } else if indices[k] >= 1 && indices[k] <= 254 {
          hasRegular := true;
        }
      }
      assert indices[..|indices|] == indices;
      if hasZero && has255 {
        return Failure(InvalidArgument);
      }
      if hasZero && hasRegular {
        return Failure(InvalidArgument);
      }
      if has255 && hasRegular {
        return Failure(InvalidArgument);
      }
      return Success(());
    }

    method ValidateRegularIndices(indices: seq<nat>) returns (r: Result<()>)
      ensures r.Success? <==> AllRegular(indices)
      ensures r.Failure? ==> r.error == InvalidArgument
    {
      for k := 0 to |indices|
        invariant AllRegular(indices[..k])
      {
        if indices[k] < 1 || indices[k] > 254 {
          return Failure(InvalidArgument);
        }
      }
      assert indices[..|indices|] == indices;
      return Success(());
    }

    method CheckForDuplicateIndices(indices: seq<nat>) returns (r: Result<()>)
      ensures r.Success? <==> Distinct(indices)
      ensures r.Failure? ==> r.error == InvalidArgument
    {
      DistinctCount(indices);
      var unique := Elements(indices);
      if |unique| != |indices| {
        return Failure(InvalidArgument);
      }
      return Success(());
    }

    method ValidateMeasurementIndices(indices: seq<nat>) returns (r: Result<()>)
      ensures r.Success? <==> Acceptable(indices)
      ensures r.Failure? ==> r.error == InvalidArgument
    {
      if |indices| == 0 {
        return Success(());
      }
      if |indices| == 1 {
        if indices[0] == 0 {
          return Success(());
        } else if indices[0] == 255 {
          return Success(());
        }
      }
      var _ :- ValidateSpecialValueCombinations(indices);
      var _ :- ValidateRegularIndices(indices);
      var _ :- CheckForDuplicateIndices(indices);
      return Success(());
    }

    method InitializeSpdmConnection(lib: Libspdm) returns (r: Result<()>)
      modifies lib
      ensures S.Connect(lib.script, old(lib.trace), Context()) == S.Done(lib.trace, r.Success?)
      ensures r.Failure? ==> r.error == RuntimeError
    {
      if transport == null {
        return Failure(RuntimeError);
      }
      if transport.spdmContext == 0 {
        return Failure(RuntimeError);
      }
      var reply := lib.Call(InitConnection(transport.spdmContext));
      return if reply.ok then Success(()) else Failure(RuntimeError);
    }

    /** The slots with a certificate, their digests, and the size of these: 48 bytes each, never cut off. */
    method GetCertificateDigests(lib: Libspdm) returns (r: Result<(Slots, seq<byte>, nat)>)
      modifies lib
      ensures Context() == 0 ==> r == Failure(RuntimeError) && lib.trace == old(lib.trace)
      ensures Context() != 0 ==>
                && lib.trace == Ask(lib.script, old(lib.trace), GetDigest(Context()))
                && var reply := Answer(lib.script, old(lib.trace));
                   r == if reply.ok then Success((reply.slots, reply.bytes, 48 * |reply.slots|))
                     else Failure(RuntimeError)
    {
      if !IsConnectable() {
        return Failure(RuntimeError);
      }
      var reply := lib.Call(GetDigest(transport.spdmContext));
      if !reply.ok {
        return Failure(RuntimeError);
      }
      var totalDigestSize := |reply.slots| * 48;
      SlotsCount(reply.slots);
      totalDigestSize := if totalDigestSize < 8 * 48 then totalDigestSize else 8 * 48;
      return Success((reply.slots, reply.bytes, totalDigestSize));
    }

    /** `derCertsToPem`: one PEM block per certificate, and the last certificate. */
    method DerCertsToPem(derCerts: seq<byte>) returns (pemChain: string, lastCert: seq<byte>)
      ensures PemChain.Parse(pemChain) == Some(DerChain.Certs(derCerts))
      ensures pemChain == PemChain.Print(DerChain.Certs(derCerts))
      ensures DerChain.Certs(derCerts) != [] ==>
                lastCert == DerChain.Certs(derCerts)[|DerChain.Certs(derCerts)| - 1]
      ensures DerChain.Certs(derCerts) == [] ==> pemChain == "" && lastCert == []
    {
      hide *;
      ghost var certs := DerChain.Certs(derCerts);
      PrintNothing();
      OffsetNothing(derCerts);
      pemChain, lastCert := "", [];
      var index, currentCertLen := 0, 0;
      while currentCertLen < |derCerts|
        invariant 0 <= index <= |certs|
        invariant currentCertLen == DerChain.Offset(derCerts, index)
        invariant pemChain == PemChain.Print(certs[..index])
        invariant lastCert == if index == 0 then [] else certs[index - 1]
        decreases |derCerts| - currentCertLen
      {
        DerChain.GetCertIsNth(derCerts, index);
        DerChain.OffsetStep(derCerts, index);
        var ret := DerChain.GetCert(derCerts, index);
        if ret.None? {
          break;
        }
        var cert := ret.value;
        lastCert := cert;

        var base64 := "";
        var i := 0;
        EncodeEmpty();
        while i + 2 < |cert|
          invariant 0 <= i <= |cert|
          invariant base64 + Encode(cert[i..]) == Encode(cert)
        {
          ghost var before := base64;
          var n := Pack(cert[i], cert[i + 1], cert[i + 2]);
          base64 := base64 + [TableChar(n, 0), TableChar(n, 1), TableChar(n, 2), TableChar(n, 3)];
          assert base64 + Encode(cert[i + 3..]) == before + Encode(cert[i..]) by { GroupStep(cert, i, before); }
          i := i + 3;
        }
        if i < |cert| {
          ghost var before := base64;
          var n := Pack(cert[i], 0, 0);
          base64 := base64 + [TableChar(n, 0)];
          if i + 1 < |cert| {
            n := n + cert[i + 1] as nat * 256;
            base64 := base64 + [TableChar(n, 1), TableChar(n, 2), '='];
            assert base64 == before + Encode(cert[i..]) by { TailTwo(cert, i, before); }
          } else {
            base64 := base64 + [TableChar(n, 1), '=', '='];
            assert base64 == before + Encode(cert[i..]) by { TailOne(cert, i, before); }
          }
        } else {
          assert cert[i..] == [];
        }
        assert base64 == Encode(cert);

        var base64Lines := "";
        var j := 0;
        assert base64[0..] == base64;
        while j < |base64|
          invariant 0 <= j
          invariant j <= |base64| ==> base64Lines + PemChain.WrapLines(base64[j..]) == PemChain.WrapLines(base64)
          invariant j > |base64| ==> base64Lines == PemChain.WrapLines(base64)
        {
          WrapStep(base64, j, base64Lines);
          base64Lines := base64Lines + base64[j..if j + 64 < |base64| then j + 64 else |base64|] + "\n";
          j := j + 64;
        }
        WrapNothing();
        assert j == |base64| ==> base64[j..] == "";
        var pem := PemChain.BEGIN + "\n" + base64Lines + PemChain.END + "\n";
        PrintSnoc(certs, index);
        pemChain := pemChain + pem;
        index := index + 1;
        currentCertLen := currentCertLen + |cert|;
      }
      DerChain.OffsetStep(derCerts, index);
      assert index == |certs|;
      assert certs[..index] == certs;
      CertsNonempty(derCerts);
      PemChain.ParsePrint(certs);
    }

    /** `getCertificate`: the PEM chain, the raw chain and the leaf of one slot. */
    method GetCertificate(lib: Libspdm, slotId: nat) returns (r: Result<(string, seq<byte>, seq<byte>)>)
      modifies lib
      ensures Context() == 0 ==> r == Failure(RuntimeError) && lib.trace == old(lib.trace)
      ensures r.Failure? ==> r.error == RuntimeError
      ensures Context() != 0 ==>
                && lib.trace == Ask(lib.script, old(lib.trace), SpdmCalls.GetCertificate(Context(), slotId % 256))
                && var reply := Answer(lib.script, old(lib.trace));
                   && (r.Success? <==> HasChain(reply))
                   && (r.Success? ==>
                         && r.value.0 == PemChain.Print(Chain(reply))
                         && PemChain.Parse(r.value.0) == Some(Chain(reply))
                         && r.value.1 == reply.bytes
                         && r.value.2 == if Chain(reply) == [] then [] else Chain(reply)[|Chain(reply)| - 1])
    {
      hide Ask, Answer, PemChain.Print, PemChain.Parse, DerChain.Certs;
      if !IsConnectable() {
        return Failure(RuntimeError);
      }
      var reply := lib.Call(SpdmCalls.GetCertificate(transport.spdmContext, slotId % 256));
      if !reply.ok {
        return Failure(RuntimeError);
      }
      var certChain := reply.bytes;
      if |certChain| < 4 + reply.hashSize {
        return Failure(RuntimeError);
      }
      var derCerts := certChain[4 + reply.hashSize..];
      var pemChain, leafCert := DerCertsToPem(derCerts);
      return Success((pemChain, certChain, leafCert));
    }

    /** The content of one measurement, and how many blocks it has. */
    method GetSingleMeasurement(lib: Libspdm, measurementIndex: nat, slotId: nat) returns (r: Result<(Content, nat)>)
      requires transport != null
      modifies lib
      ensures lib.trace
           == Ask(lib.script, old(lib.trace), GetMeasurement(Context(), measurementIndex % 256, slotId % 256))
      ensures var reply := Answer(lib.script, old(lib.trace));
              r == if reply.ok then Success((reply.content, reply.blocks)) else Failure(RuntimeError)
    {
      var reply := lib.Call(GetMeasurement(transport.spdmContext, measurementIndex % 256, slotId % 256));
      return if reply.ok then Success((reply.content, reply.blocks)) else Failure(RuntimeError);
    }

    /** The number of blocks is only logged. */
    method ProcessMeasurementData(measurementIndex: nat, measurementData: seq<byte>, allMeasurements: seq<byte>,
                                  numberOfBlocks: nat)
      returns (collected: seq<byte>)
      ensures collected == allMeasurements + (if measurementIndex == 0 then [] else measurementData)
    {
      collected := allMeasurements;
      if measurementIndex == 0 {
        // only the number of blocks was asked for
      } else {
        collected := collected + measurementData;
      }
    }

    /**
     * `getSignedMeasurements`: one request per index, stopping at the first
     * refusal. The nonce has no part in it: the source only logs its length.
     */
    method GetSignedMeasurements(lib: Libspdm, measurementIndices: seq<nat>, nonce: string, slotId: nat)
      returns (r: Result<string>)
      modifies lib
      ensures Context() == 0 ==> r == Failure(RuntimeError) && lib.trace == old(lib.trace)
      ensures r.Failure? ==> r.error == RuntimeError
      ensures Context() != 0 ==>
                var wanted := Effective(measurementIndices);
                && S.CallAll(lib.script, old(lib.trace), Requests(Context(), wanted, slotId))
                  == S.Done(lib.trace, r.Success?)
                && (r.Success? ==>
                      && r.value == Encode(Flatten(Contributions(lib.script, |old(lib.trace)|, wanted)))
                      && Decode(r.value) == Some(Flatten(Contributions(lib.script, |old(lib.trace)|, wanted)))
                      && (Acceptable(measurementIndices) ==> |r.value| <= LONGEST))
    {
      hide *;
      var connectable := IsConnectable();
      if !connectable {
        return Failure(RuntimeError);
      }
      var indicesToProcess := measurementIndices;
      if |indicesToProcess| == 0 {
        indicesToProcess := [255];
      }
      EffectiveIs(measurementIndices, indicesToProcess);
      ghost var trace0, ctx := lib.trace, Context();
      var allMeasurements := [];
      CollectNothing(lib.script, trace0, ctx, indicesToProcess, slotId);
      for k := 0 to |indicesToProcess|
        invariant S.CallAll(lib.script, trace0, Requests(ctx, indicesToProcess, slotId)[..k]) == S.Done(lib.trace, true)
        invariant allMeasurements == Flatten(Contributions(lib.script, |trace0|, indicesToProcess)[..k])
      {
        var idx := indicesToProcess[k];
        CollectStep(lib.script, trace0, ctx, indicesToProcess, slotId, k, lib.trace);
        var reply := GetSingleMeasurement(lib, idx, slotId);
        if reply.Failure? {
          CallAllStops(lib.script, trace0, Requests(ctx, indicesToProcess, slotId), k + 1);
          return Failure(reply.error);
        }
        allMeasurements := ProcessMeasurementData(idx, reply.value.0, allMeasurements, reply.value.1);
      }
      CollectEverything(lib.script, trace0, ctx, indicesToProcess, slotId);
      var base64Measurement := Base64Encode(allMeasurements);
      DecodeEncode(allMeasurements);
      if Acceptable(measurementIndices) {
        ResultBound(lib.script, |trace0|, measurementIndices);
      }
      return Success(base64Measurement);
    }

    /**
     * The D-Bus method: both texts, or two empty ones when any step throws.
     * A request that is not acceptable never reaches the device, and no nonce
     * ever does.
     */
    method MethodCall(lib: Libspdm, measurementIndices: seq<nat>, nonce: string, slotId: nat)
      returns (certPem: string, signedMeas: string)
      modifies lib
      ensures Serve(lib.script, old(lib.trace), Context(), measurementIndices, slotId)
           == S.Done(lib.trace, (certPem, signedMeas))
      ensures var base := |old(lib.trace)|;
              && ((certPem, signedMeas) != NOTHING <==>
                    Context() != 0 && Served(lib.script, base, measurementIndices))
              && (Context() == 0 || !Acceptable(measurementIndices) ==> lib.trace == old(lib.trace))
              && ((certPem, signedMeas) != NOTHING ==>
                    && certPem != ""
                    && PemChain.Parse(certPem) == Some(Chain(lib.script(base + 2)))
                    && Decode(signedMeas)
                       == Some(Flatten(Contributions(lib.script, base + 3, Effective(measurementIndices))))
                    && |signedMeas| <= LONGEST)
    {
      hide *;
      ghost var script, trace0, ctx := lib.script, lib.trace, Context();
      ServeMeans(script, trace0, ctx, measurementIndices, slotId);
      ServeCases(script, trace0, ctx, measurementIndices, slotId);
      ConnectIs(script, trace0, ctx);
      NothingIs();
      certPem, signedMeas := "", "";
      var valid := ValidateMeasurementIndices(measurementIndices);
      if valid.Failure? { return; }
      var connected := InitializeSpdmConnection(lib);
      if connected.Failure? { return; }
      var digests := GetCertificateDigests(lib);
      if digests.Failure? { return; }
      var certificate := GetCertificate(lib, slotId);
      if certificate.Failure? { return; }
      var measurements := GetSignedMeasurements(lib, measurementIndices, nonce, slotId);
      if measurements.Failure? { return; }
      if certificate.value.0 == "" { return; }
      certPem, signedMeas := certificate.value.0, measurements.value;
    }
  }

  lemma NothingIs()
    ensures NOTHING == ("", "")
  {}

  lemma ConnectIs(script: Script, trace: Trace, ctx: nat)
    ensures S.Connect(script, trace, ctx)
         == if ctx == 0 then S.Done(trace, false)
            else S.Done(Ask(script, trace, InitConnection(ctx)), Answer(script, trace).ok)
  {}

  /** The service method call by call. */
  lemma ServeCases(script: Script, trace: Trace, ctx: nat, indices: seq<nat>, slot: nat)
    ensures var t1 := Ask(script, trace, InitConnection(ctx));
            var t2 := Ask(script, t1, GetDigest(ctx));
            var t3 := Ask(script, t2, GetCertificate(ctx, slot % 256));
            var chain := Answer(script, t2);
            var measured := S.CallAll(script, t3, Requests(ctx, Effective(indices), slot));
            && |t3| == |trace| + 3
            && (HasChain(chain) ==> (PemChain.Print(Chain(chain)) == "" <==> Chain(chain) == []))
            && Serve(script, trace, ctx, indices, slot)
               == if !Acceptable(indices) || ctx == 0 then S.Done(trace, NOTHING)
                  else if !Answer(script, trace).ok then S.Done(t1, NOTHING)
                  else if !Answer(script, t1).ok then S.Done(t2, NOTHING)
                  else if !HasChain(chain) then S.Done(t3, NOTHING)
                  else if !measured.value || Chain(chain) == [] then S.Done(measured.trace, NOTHING)
                  else S.Done(measured.trace,
                              (PemChain.Print(Chain(chain)),
                               Encode(Flatten(Contributions(script, |t3|, Effective(indices))))))
  {
    hide Acceptable, Chain, Flatten, Encode, PemChain.Print, Contributions, Effective, Requests;
    var t1 := Ask(script, trace, InitConnection(ctx));
    var t2 := Ask(script, t1, GetDigest(ctx));
    if HasChain(Answer(script, t2)) {
      PrintEmpty(Chain(Answer(script, t2)));
    }
    OpeningCases(script, trace, ctx, slot);
  }

  lemma OpeningCases(script: Script, trace: Trace, ctx: nat, slot: nat)
    ensures var t1 := Ask(script, trace, InitConnection(ctx));
            var t2 := Ask(script, t1, GetDigest(ctx));
            var t3 := Ask(script, t2, GetCertificate(ctx, slot % 256));
            && |t3| == |trace| + 3
            && Answer(script, t2) == script(|trace| + 2)
            && S.CallAll(script, trace, OpeningCalls(ctx, slot))
               == if !Answer(script, trace).ok then S.Done(t1, false)
                  else if !Answer(script, t1).ok then S.Done(t2, false)
                  else S.Done(t3, Answer(script, t2).ok)
  {
    var ops := OpeningCalls(ctx, slot);
    CallAllStep(script, trace, ops, 0);
    CallAllStep(script, Ask(script, trace, ops[0]), ops, 1);
    CallAllStep(script, Ask(script, Ask(script, trace, ops[0]), ops[1]), ops, 2);
    CallAllEnd(script, Ask(script, Ask(script, Ask(script, trace, ops[0]), ops[1]), ops[2]), ops);
  }

  // ----- serving among the daemon's other calls

  lemma OpeningQuiet(ctx: nat, slot: nat)
    ensures forall i :: 0 <= i < |OpeningCalls(ctx, slot)| ==> Quiet(OpeningCalls(ctx, slot)[i])
  {}

  lemma OpeningRequests(trace: Trace, from: nat, ctx: nat, slot: nat)
    requires |trace| == from + |OpeningCalls(ctx, slot)|
    requires forall m :: 0 <= m < |OpeningCalls(ctx, slot)| ==> Did(trace, from + m, OpeningCalls(ctx, slot)[m])
    ensures InRequest(trace, ctx, slot % 256)
  {
    var calls := OpeningCalls(ctx, slot);
    assert Did(trace, from + 0, calls[0]) && Did(trace, from + 1, calls[1]) && Did(trace, from + 2, calls[2]);
  }

  /** Serving a request on a ready context keeps the trace legal and the open sessions open. */
  lemma ServeKept(cfg: Config, script: Script, trace: Trace, ctx: nat, indices: seq<nat>, slot: nat)
    requires Legal(cfg, trace) && Ready(cfg, trace, ctx)
    ensures S.Kept(cfg, trace, Serve(script, trace, ctx, indices, slot).trace)
  {
    hide Acceptable, HasChain, Chain, Flatten, Encode, S.CallAll, Contributions, Effective, Ready, Legal, Open,
         OpeningCalls, InRequest;
    var opening := OpeningCalls(ctx, slot);
    var asked := S.CallAll(script, trace, opening);
    OpeningQuiet(ctx, slot);
    S.CallAllKept(cfg, script, trace, opening);
    if asked.value {
      ReadyLater(cfg, trace, asked.trace, ctx);
      OpeningRequests(asked.trace, |trace|, ctx, slot);
      S.MeasureAllKept(cfg, script, asked.trace, ctx, slot % 256, Requests(ctx, Effective(indices), slot));
    }
  }

  lemma ServeExtends(script: Script, trace: Trace, ctx: nat, indices: seq<nat>, slot: nat)
    ensures S.Unstarted(trace, Serve(script, trace, ctx, indices, slot).trace)
  {
    hide Acceptable, HasChain, Chain, Flatten, Encode, S.CallAll, Contributions, Effective, OpeningCalls, S.Unstarted;
    var opening := OpeningCalls(ctx, slot);
    var asked := S.CallAll(script, trace, opening);
    OpeningQuiet(ctx, slot);
    S.UnstartedNothing(trace);
    S.CallAllExtends(script, trace, opening);
    var ops := Requests(ctx, Effective(indices), slot);
    S.CallAllExtends(script, asked.trace, ops);
    S.UnstartedThrough(trace, asked.trace, S.CallAll(script, asked.trace, ops).trace);
  }
}
