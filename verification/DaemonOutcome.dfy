/**
 * Exactly which calls an event makes, which devices become responders and
 * which sessions open, when some calls fail. Working on a device is a list of
 * calls, each with what is demanded of its reply; the first that is not met
 * ends it. A failure costs the device it befell, and no other.
 */
module DaemonOutcome {
  import opened Bytes
  import opened SpdmAlgorithms
  import opened SpdmCalls
  import opened SpdmObjects
  import Attestation
  import opened DaemonSpec
  import opened DaemonProofs
  import opened DaemonTheorems
  import S = SessionSpec

  // ----- calls and checks

  /** What is demanded of a reply. */
  datatype Check = Succeeds | Ignored | NotEmpty | KnownAlgorithm | HasSlot | LongChain

  predicate Holds(reply: Reply, check: Check) {
    match check
    case Succeeds => reply.ok
    case Ignored => true
    case NotEmpty => reply.bytes != []
    case KnownAlgorithm => reply.ok && IsAlgorithm(reply.algo)
    case HasSlot => reply.ok && 0 in reply.slots
    case LongChain => reply.ok && 4 + reply.hashSize <= |reply.bytes|
  }

  datatype Call = Call(op: Op, check: Check)

  /** How many checks are met before the first that is not, by the replies from position `from` on. */
  function Passed(script: Script, from: nat, calls: seq<Call>): (n: nat)
    ensures n <= |calls|
    decreases |calls|
  {
    if calls == [] || !Holds(script(from), calls[0].check) then 0 else 1 + Passed(script, from + 1, calls[1..])
  }

  /** How many calls are made when that many checks are met: the one that fails is made as well. */
  function Made(passed: nat, calls: seq<Call>): (n: nat)
    requires passed <= |calls|
    ensures n <= |calls|
  {
    if passed < |calls| then passed + 1 else passed
  }

  function Recorded(script: Script, from: nat, calls: seq<Call>): Trace {
    seq(|calls|, k requires 0 <= k < |calls| => Record(calls[k].op, script(from + k)))
  }

  /** The trace after the calls, up to the first whose check is not met. */
  function AfterCalls(script: Script, trace: Trace, calls: seq<Call>): Trace {
    trace + Recorded(script, |trace|, calls[..Made(Passed(script, |trace|, calls), calls)])
  }

  predicate AllPass(script: Script, trace: Trace, calls: seq<Call>) {
    Passed(script, |trace|, calls) == |calls|
  }

  function Calling(ops: seq<Op>, check: Check): seq<Call> {
    seq(|ops|, k requires 0 <= k < |ops| => Call(ops[k], check))
  }

  // ----- what is to be called

  /** A socket unless one is open. */
  function SocketCalls(link: S.Link): seq<Call> {
    if link.isOpen then [] else [Call(OpenSocket, Succeeds)]
  }

  /** A context, a scratch buffer, and what is set up in it. */
  function AllocateCalls(version: nat, from: nat): seq<Call> {
    [Call(AllocContext, Succeeds), Call(AllocScratch(from + 1), Succeeds)]
    + Calling(SetUpCalls(from + 1, version), Ignored)
  }

  /** The context a device gets whose first call is number `from`. */
  function NewContext(link: S.Link, from: nat): nat {
    from + |SocketCalls(link)| + 1
  }

  function InitializeCalls(link: S.Link, from: nat): seq<Call> {
    SocketCalls(link) + AllocateCalls(link.version, from + |SocketCalls(link)|)
  }

  /** Initialising a transport, configuring it, and connecting. */
  function PrepareCalls(link: S.Link, cfg: Config, from: nat): seq<Call> {
    var ctx := NewContext(link, from);
    InitializeCalls(link, from) + Calling(ConfigCalls(cfg, ctx), Succeeds) + [Call(InitConnection(ctx), Succeeds)]
  }

  /** Loading and installing the trust anchor. */
  function AnchorCalls(script: Script, cfg: Config, ctx: nat, from: nat): seq<Call> {
    if cfg.peerRootCertDer != [] then [Call(InstallRoot(ctx, cfg.peerRootCertDer), Succeeds)]
    else if cfg.peerRootCertDerPath != "" then FileCalls(script, ctx, [cfg.peerRootCertDerPath], from)
    else if cfg.peerRootCertBaseDir != "" then
      var dir := AsymAlgoSubdir(script(from).algo);
      var path := [cfg.peerRootCertBaseDir, if dir.Some? then dir.value else "", cfg.peerRootCertFileName];
      [Call(GetAsymAlgo(ctx), KnownAlgorithm)] + FileCalls(script, ctx, path, from + 1)
    else []
  }

  /** Reading a file and installing what was in it. */
  function FileCalls(script: Script, ctx: nat, path: seq<string>, from: nat): seq<Call> {
    [Call(ReadFile(path), NotEmpty), Call(InstallRoot(ctx, script(from).bytes), Succeeds)]
  }

  /** The digests, the certificate, the start, and a heartbeat for the session started. */
  function StartCalls(script: Script, ctx: nat, from: nat): seq<Call> {
    [Call(GetDigest(ctx), HasSlot), Call(GetCertificate(ctx, 0), Succeeds), Call(StartSession(ctx, false, 0), Succeeds),
     Call(SpdmCalls.Heartbeat(ctx, script(from + 2).id), Ignored)]
  }

  function OpenCalls(script: Script, cfg: Config, ctx: nat, from: nat): seq<Call> {
    var anchor := AnchorCalls(script, cfg, ctx, from);
    anchor + StartCalls(script, ctx, from + |anchor|)
  }

  /** Stopping the session of a responder that has one. */
  function StopCall(s: System, i: nat): Call
    requires i < |s.responders| && Active(s, i)
  {
    Call(StopSession(Ctx(s, i), s.responders[i].session.value.id), Ignored)
  }

  /** Measurements asked for on a context. */
  function RequestCalls(ctx: nat, indices: seq<nat>, slot: nat): seq<Call> {
    var wanted := if indices == [] then [255] else indices;
    [Call(InitConnection(ctx), Succeeds),
     Call(GetDigest(ctx), Succeeds),
     Call(GetCertificate(ctx, slot % 256), LongChain)]
    + seq(|wanted|, k requires 0 <= k < |wanted| => Call(GetMeasurement(ctx, wanted[k] % 256, slot % 256), Succeeds))
  }

  // ----- what is to be expected

  /** The responders as an observer sees them, all calls made by then, and the fields of the transports. */
  datatype Expectation = Expectation(view: seq<(Device, bool)>, trace: Trace, links: map<Transport, S.Link>)

  /**
   * The transport of a device that was prepared from call number `from` on, by
   * how many checks were met: how far it got with its socket, its context and
   * its scratch buffer, and what it then noted.
   */
  function LinkAfter(script: Script, cfg: Config, link: S.Link, from: nat): S.Link {
    var passed := Passed(script, from, PrepareCalls(link, cfg, from));
    var socket := |SocketCalls(link)|;
    var first := |InitializeCalls(link, from)|;
    var second := if cfg.version == 0 then first else first + 1;
    if passed < socket then link
    else if passed == socket then link.(ctx := 0, isOpen := true)
    else if passed == socket + 1 then S.Link(0, false, false, link.version, link.flags)
    else
      S.Link(NewContext(link, from), true, true,
             if cfg.version != 0 && first < passed then cfg.version else link.version,
             if second < passed then cfg.requesterCapFlags else link.flags)
  }

  /**
   * Processing devices: one is listed when its own preparation passes, and has
   * a session when its own opening does too.
   */
  function Expected(script: Script, cfg: Config, links: map<Transport, S.Link>, devices: seq<Device>, secure: bool,
                    trace: Trace): Expectation
  {
    if devices == [] then Expectation([], trace, links)
    else
      var before := Expected(script, cfg, links, devices[..|devices| - 1], secure, trace);
      var device := devices[|devices| - 1];
      if device.transport == null then before
      else
        var link, from := LinkOf(before.links, device.transport), |before.trace|;
        var prepare := PrepareCalls(link, cfg, from);
        var opening := if secure then OpenCalls(script, cfg, NewContext(link, from), from + |prepare|) else [];
        var listed := AllPass(script, before.trace, prepare);
        var active := secure && AllPass(script, before.trace, prepare + opening);
        Expectation(before.view + (if listed then [(device, active)] else []),
                    AfterCalls(script, before.trace, prepare + opening),
                    PutLink(before.links, device.transport, LinkAfter(script, cfg, link, from)))
  }

  /** Opening the first sessions: one is open after it was before, or when its own opening passes. */
  function ExpectedOpen(script: Script, cfg: Config, s: System, n: nat): (r: Expectation)
    requires n <= |s.responders|
    ensures |r.view| == n
  {
    if n == 0 then Expectation([], s.trace, s.links)
    else
      var before := ExpectedOpen(script, cfg, s, n - 1);
      var device := s.responders[n - 1].device;
      if Active(s, n - 1) then before.(view := before.view + [(device, true)])
      else
        var opening := OpenCalls(script, cfg, Ctx(s, n - 1), |before.trace|);
        Expectation(before.view + [(device, AllPass(script, before.trace, opening))],
                    AfterCalls(script, before.trace, opening), s.links)
  }

  /** Closing the first sessions: one stop request for each that is active, in order. */
  function ExpectedStops(script: Script, s: System, n: nat): Trace
    requires n <= |s.responders|
  {
    if n == 0 then s.trace
    else
      var before := ExpectedStops(script, s, n - 1);
      if Active(s, n - 1)
      then AfterCalls(script, before, [StopCall(s, n - 1)])
      else before
  }

  // ----- calls follow their list

  /** The later trace has exactly the calls of the list more, up to the first whose check is not met. */
  predicate Follows(script: Script, before: Trace, after: Trace, calls: seq<Call>, success: bool) {
    after == AfterCalls(script, before, calls) && (success <==> AllPass(script, before, calls))
  }

  lemma {:induction false} PassedAppend(script: Script, from: nat, a: seq<Call>, b: seq<Call>)
    ensures Passed(script, from, a + b)
         == if Passed(script, from, a) < |a| then Passed(script, from, a) else |a| + Passed(script, from + |a|, b)
    decreases |a|
  {
    hide Holds;
    if a == [] {
      assert a + b == b;
    } else {
      assert (a + b)[1..] == a[1..] + b;
      PassedAppend(script, from + 1, a[1..], b);
    }
  }

  lemma RecordedAppend(script: Script, from: nat, a: seq<Call>, b: seq<Call>)
    ensures Recorded(script, from, a + b) == Recorded(script, from, a) + Recorded(script, from + |a|, b)
  {}

  lemma FollowsFailed(script: Script, a: Trace, b: Trace, first: seq<Call>, second: seq<Call>)
    requires Follows(script, a, b, first, false)
    ensures Follows(script, a, b, first + second, false)
  {
    hide Passed, Recorded;
    PassedAppend(script, |a|, first, second);
    var n := Made(Passed(script, |a|, first), first);
    assert (first + second)[..n] == first[..n];
  }

  lemma FollowsThrough(script: Script, a: Trace, b: Trace, c: Trace, first: seq<Call>, second: seq<Call>, success: bool)
    requires Follows(script, a, b, first, true) && Follows(script, b, c, second, success)
    ensures Follows(script, a, c, first + second, success)
  {
    hide Passed, Recorded;
    PassedAppend(script, |a|, first, second);
    PassedLength(script, a, b, first);
    var n := Made(Passed(script, |b|, second), second);
    assert (first + second)[..|first| + n] == first + second[..n];
    RecordedAppend(script, |a|, first, second[..n]);
    Reassociate(a, Recorded(script, |a|, first), Recorded(script, |b|, second[..n]));
  }

  lemma PassedLength(script: Script, a: Trace, b: Trace, calls: seq<Call>)
    requires Follows(script, a, b, calls, true)
    ensures b == a + Recorded(script, |a|, calls) && |b| == |a| + |calls|
  {
    hide Passed;
    assert calls[..|calls|] == calls;
  }

  lemma FollowsNothing(script: Script, trace: Trace)
    ensures Follows(script, trace, trace, [], true)
  {
    assert Recorded(script, |trace|, []) == [];
  }

  lemma AskFollows(script: Script, trace: Trace, op: Op, check: Check)
    ensures Follows(script, trace, Ask(script, trace, op), [Call(op, check)], Holds(Answer(script, trace), check))
  {
    hide Holds;
    var calls := [Call(op, check)];
    assert calls[1..] == [] && calls[..1] == calls;
    assert Passed(script, |trace| + 1, []) == 0;
    assert Recorded(script, |trace|, calls) == [Record(op, script(|trace|))];
  }

  lemma CallingFirst(ops: seq<Op>, check: Check)
    requires ops != []
    ensures Calling(ops, check) == [Call(ops[0], check)] + Calling(ops[1..], check)
  {}

  lemma CallingNone(check: Check)
    ensures Calling([], check) == []
  {}

  lemma {:induction false} AskAllFollows(script: Script, trace: Trace, ops: seq<Op>)
    ensures Follows(script, trace, S.AskAll(script, trace, ops), Calling(ops, Ignored), true)
    decreases |ops|
  {
    hide Follows, Calling, Ask;
    if ops == [] {
      FollowsNothing(script, trace);
      CallingNone(Ignored);
    } else {
      var next := Ask(script, trace, ops[0]);
      AskFollows(script, trace, ops[0], Ignored);
      AskAllFollows(script, next, ops[1..]);
      CallingFirst(ops, Ignored);
      FollowsThrough(script, trace, next, S.AskAll(script, trace, ops), [Call(ops[0], Ignored)],
                     Calling(ops[1..], Ignored), true);
    }
  }

  lemma {:induction false} CallAllFollows(script: Script, trace: Trace, ops: seq<Op>)
    ensures var done := S.CallAll(script, trace, ops);
            Follows(script, trace, done.trace, Calling(ops, Succeeds), done.value)
    decreases |ops|
  {
    hide Follows, Calling, Ask, Answer;
    if ops == [] {
      FollowsNothing(script, trace);
      CallingNone(Succeeds);
    } else {
      var next, first, rest := Ask(script, trace, ops[0]), [Call(ops[0], Succeeds)], Calling(ops[1..], Succeeds);
      AskFollows(script, trace, ops[0], Succeeds);
      CallingFirst(ops, Succeeds);
      if Answer(script, trace).ok {
        CallAllFollows(script, next, ops[1..]);
        var done := S.CallAll(script, trace, ops);
        FollowsThrough(script, trace, next, done.trace, first, rest, done.value);
      } else {
        FollowsFailed(script, trace, next, first, rest);
      }
    }
  }

  lemma InitializeFollows(script: Script, trace: Trace, link: S.Link)
    ensures var done := S.Initialize(script, trace, link);
            && Follows(script, trace, done.trace, InitializeCalls(link, |trace|), done.value.1)
            && (done.value.1 ==> done.value.0.ctx == NewContext(link, |trace|))
  {
    hide Follows, AllocateCalls, Answer, S.AskAll, SetUpCalls;
    var done := S.Initialize(script, trace, link);
    var allocate := AllocateCalls(link.version, |trace| + |SocketCalls(link)|);
    FollowsNothing(script, trace);
    AskFollows(script, trace, OpenSocket, Succeeds);
    if !link.isOpen && !Answer(script, trace).ok {
      FollowsFailed(script, trace, done.trace, SocketCalls(link), allocate);
    } else {
      var t1 := if link.isOpen then trace else Ask(script, trace, OpenSocket);
      AllocateFollows(script, t1, link.version);
      FollowsThrough(script, trace, t1, done.trace, SocketCalls(link), allocate, done.value.1);
    }
  }

  /** Allocating and setting up a context, once there is a socket. */
  lemma AllocateFollows(script: Script, trace: Trace, version: nat)
    ensures var t2 := Ask(script, trace, AllocContext);
            var t3 := Ask(script, t2, AllocScratch(|t2|));
            var calls := AllocateCalls(version, |trace|);
            && |t2| == |trace| + 1
            && if !Answer(script, trace).ok then Follows(script, trace, t2, calls, false)
               else if !Answer(script, t2).ok then Follows(script, trace, t3, calls, false)
               else Follows(script, trace, S.AskAll(script, t3, SetUpCalls(|t2|, version)), calls, true)
  {
    hide Follows, Calling, Answer, S.AskAll, SetUpCalls;
    var t2 := Ask(script, trace, AllocContext);
    var t3 := Ask(script, t2, AllocScratch(|t2|));
    var c1, c2 := [Call(AllocContext, Succeeds)], [Call(AllocScratch(|t2|), Succeeds)];
    var setUp := Calling(SetUpCalls(|t2|, version), Ignored);
    assert AllocateCalls(version, |trace|) == c1 + (c2 + setUp);
    AskFollows(script, trace, AllocContext, Succeeds);
    if !Answer(script, trace).ok {
      FollowsFailed(script, trace, t2, c1, c2 + setUp);
    } else {
      AskFollows(script, t2, AllocScratch(|t2|), Succeeds);
      if !Answer(script, t2).ok {
        FollowsFailed(script, t2, t3, c2, setUp);
        FollowsThrough(script, trace, t2, t3, c1, c2 + setUp, false);
      } else {
        var t4 := S.AskAll(script, t3, SetUpCalls(|t2|, version));
        AskAllFollows(script, t3, SetUpCalls(|t2|, version));
        FollowsThrough(script, t2, t3, t4, c2, setUp, true);
        FollowsThrough(script, trace, t2, t4, c1, c2 + setUp, true);
      }
    }
  }

  /** Preparing a device: where its calls end, and whether it is connected. */
  function Prepared(script: Script, trace: Trace, link: S.Link, cfg: Config): (Trace, bool) {
    var init := S.Initialize(script, trace, link);
    var applied := S.ApplyConfig(script, init.trace, init.value.0, cfg);
    var connected := S.Connect(script, applied.trace, init.value.0.ctx);
    if !init.value.1 then (init.trace, false)
    else if !applied.value.1 then (applied.trace, false)
    else (connected.trace, connected.value)
  }

  lemma PrepareFollows(script: Script, trace: Trace, link: S.Link, cfg: Config)
    ensures var (after, connected) := Prepared(script, trace, link, cfg);
            Follows(script, trace, after, PrepareCalls(link, cfg, |trace|), connected)
    ensures var init := S.Initialize(script, trace, link);
            init.value.1 ==>
              && init.value.0.ctx == NewContext(link, |trace|)
              && S.ApplyConfig(script, init.trace, init.value.0, cfg).value.0.ctx == NewContext(link, |trace|)
  {
    hide Follows, Calling, Ask, Answer, S.Initialize, S.ConfigureAll, S.CallAll, ConfigCalls, InitializeCalls;
    var init := S.Initialize(script, trace, link);
    var applied := S.ApplyConfig(script, init.trace, init.value.0, cfg);
    var ctx := NewContext(link, |trace|);
    var first, config, last :=
      InitializeCalls(link, |trace|), Calling(ConfigCalls(cfg, ctx), Succeeds), [Call(InitConnection(ctx), Succeeds)];
    Reassociate(first, config, last);
    InitializeFollows(script, trace, link);
    if !init.value.1 {
      FollowsFailed(script, trace, init.trace, first, config + last);
    } else {
      CallAllFollows(script, init.trace, ConfigCalls(cfg, ctx));
      S.ConfigureIsCalling(script, init.trace, init.value.0, ConfigCalls(cfg, ctx));
      FollowsThrough(script, trace, init.trace, applied.trace, first, config, applied.value.1);
      if !applied.value.1 {
        FollowsFailed(script, trace, applied.trace, first + config, last);
      } else {
        AskFollows(script, applied.trace, InitConnection(ctx), Succeeds);
        var connected := S.Connect(script, applied.trace, ctx);
        FollowsThrough(script, trace, applied.trace, connected.trace, first + config, last, connected.value);
      }
    }
  }

  lemma AnchorFollows(script: Script, trace: Trace, ctx: nat, cfg: Config)
    requires ctx != 0
    ensures var done := S.InstallPeerRoot(script, trace, ctx, cfg);
            Follows(script, trace, done.trace, AnchorCalls(script, cfg, ctx, |trace|), done.value)
  {
    hide Follows, FileCalls, Answer, AsymAlgoSubdir, IsAlgorithm;
    if cfg.peerRootCertDer != [] {
      AskFollows(script, trace, InstallRoot(ctx, cfg.peerRootCertDer), Succeeds);
    } else if cfg.peerRootCertDerPath != "" {
      FileFollows(script, trace, ctx, [cfg.peerRootCertDerPath]);
    } else if cfg.peerRootCertBaseDir != "" {
      FolderFollows(script, trace, ctx, cfg);
    } else {
      FollowsNothing(script, trace);
    }
  }

  lemma FolderFollows(script: Script, trace: Trace, ctx: nat, cfg: Config)
    requires ctx != 0
    requires cfg.peerRootCertDer == [] && cfg.peerRootCertDerPath == "" && cfg.peerRootCertBaseDir != ""
    ensures var done := S.InstallPeerRoot(script, trace, ctx, cfg);
            Follows(script, trace, done.trace, AnchorCalls(script, cfg, ctx, |trace|), done.value)
  {
    hide Follows, FileCalls, Ask, AsymAlgoSubdir, IsAlgorithm;
    var t1, reply := Ask(script, trace, GetAsymAlgo(ctx)), Answer(script, trace);
    var first := [Call(GetAsymAlgo(ctx), KnownAlgorithm)];
    var dir := AsymAlgoSubdir(reply.algo);
    var path := [cfg.peerRootCertBaseDir, if dir.Some? then dir.value else "", cfg.peerRootCertFileName];
    AskFollows(script, trace, GetAsymAlgo(ctx), KnownAlgorithm);
    AlgorithmOfFolder(reply.algo);
    S.NoAlgorithm();
    S.AskLength(script, trace, GetAsymAlgo(ctx));
    if !reply.ok || dir.None? {
      FollowsFailed(script, trace, t1, first, FileCalls(script, ctx, path, |trace| + 1));
    } else {
      var done := S.InstallPeerRoot(script, trace, ctx, cfg);
      FileFollows(script, t1, ctx, path);
      FollowsThrough(script, trace, t1, done.trace, first, FileCalls(script, ctx, path, |trace| + 1), done.value);
    }
  }

  /** Loading a file and installing what was in it. */
  lemma FileFollows(script: Script, trace: Trace, ctx: nat, path: seq<string>)
    ensures var file := S.LoadFile(script, trace, path);
            var calls := FileCalls(script, ctx, path, |trace|);
            match file.value
            case None => Follows(script, trace, file.trace, calls, false)
            case Some(cert) =>
              var after := Ask(script, file.trace, InstallRoot(ctx, cert));
              Follows(script, trace, after, calls, Answer(script, file.trace).ok)
  {
    hide Follows, Ask;
    var file := S.LoadFile(script, trace, path);
    var first := [Call(ReadFile(path), NotEmpty)];
    var second := [Call(InstallRoot(ctx, script(|trace|).bytes), Succeeds)];
    AskFollows(script, trace, ReadFile(path), NotEmpty);
    assert FileCalls(script, ctx, path, |trace|) == first + second;
    match file.value
    case None => FollowsFailed(script, trace, file.trace, first, second);
    case Some(cert) =>
      var after := Ask(script, file.trace, InstallRoot(ctx, cert));
      AskFollows(script, file.trace, InstallRoot(ctx, cert), Succeeds);
      FollowsThrough(script, trace, file.trace, after, first, second, Answer(script, file.trace).ok);
  }

  /** Fetching the certificate, starting the session, and greeting it. */
  lemma StartFollows(script: Script, trace: Trace, ctx: nat, s: S.Session)
    requires ctx != 0 && !s.active
    ensures var done := S.Start(script, trace, ctx, s, 0, false);
            var after := if done.value.1 then S.SendHeartbeat(script, done.trace, ctx, done.value.0).trace
                         else done.trace;
            && done.value.1 == done.value.0.active
            && Follows(script, trace, after, StartCalls(script, ctx, |trace|), done.value.1)
  {
    hide Follows, Passed, Answer;
    var t1 := Ask(script, trace, GetDigest(ctx));
    var t2 := Ask(script, t1, GetCertificate(ctx, 0));
    var t3 := Ask(script, t2, StartSession(ctx, false, 0));
    var heartbeat := SpdmCalls.Heartbeat(ctx, Answer(script, t2).id);
    var c1, c2 := [Call(GetDigest(ctx), HasSlot)], [Call(GetCertificate(ctx, 0), Succeeds)];
    var c3, c4 := [Call(StartSession(ctx, false, 0), Succeeds)], [Call(heartbeat, Ignored)];
    AnswerIs(script, t2);
    assert StartCalls(script, ctx, |trace|) == c1 + (c2 + (c3 + c4));
    AskFollows(script, trace, GetDigest(ctx), HasSlot);
    if !Holds(Answer(script, trace), HasSlot) {
      FollowsFailed(script, trace, t1, c1, c2 + (c3 + c4));
    } else {
      AskFollows(script, t1, GetCertificate(ctx, 0), Succeeds);
      if !Answer(script, t1).ok {
        FollowsFailed(script, t1, t2, c2, c3 + c4);
        FollowsThrough(script, trace, t1, t2, c1, c2 + (c3 + c4), false);
      } else {
        AskFollows(script, t2, StartSession(ctx, false, 0), Succeeds);
        if !Answer(script, t2).ok {
          FollowsFailed(script, t2, t3, c3, c4);
          FollowsThrough(script, t1, t2, t3, c2, c3 + c4, false);
          FollowsThrough(script, trace, t1, t3, c1, c2 + (c3 + c4), false);
        } else {
          var t4 := Ask(script, t3, heartbeat);
          AskFollows(script, t3, heartbeat, Ignored);
          FollowsThrough(script, t2, t3, t4, c3, c4, true);
          FollowsThrough(script, t1, t2, t4, c2, c3 + c4, true);
          FollowsThrough(script, trace, t1, t4, c1, c2 + (c3 + c4), true);
        }
      }
    }
  }

  lemma AnswerIs(script: Script, trace: Trace)
    ensures Answer(script, trace) == script(|trace|)
  {}

  /** Opening a session passes its checks exactly when the session is active afterwards. */
  lemma OpenFollows(script: Script, trace: Trace, cfg: Config, ctx: nat, session: Option<S.Session>)
    requires ctx != 0 && !S.IsActive(session)
    ensures Follows(script, trace, S.OpenAndGreet(script, trace, cfg, ctx, session, 0),
                    OpenCalls(script, cfg, ctx, |trace|),
                    S.IsActive(S.OpenSecure(script, trace, cfg, ctx, session, 0).value.0))
  {
    hide Follows, AnchorCalls, StartCalls, S.InstallPeerRoot, S.Start, S.SendHeartbeat;
    var installed := S.InstallPeerRoot(script, trace, ctx, cfg);
    var anchor := AnchorCalls(script, cfg, ctx, |trace|);
    AnchorFollows(script, trace, ctx, cfg);
    if !installed.value {
      FollowsFailed(script, trace, installed.trace, anchor, StartCalls(script, ctx, |trace| + |anchor|));
    } else {
      var s := if session.Some? then session.value else S.NO_SESSION;
      PassedLength(script, trace, installed.trace, anchor);
      StartFollows(script, installed.trace, ctx, s);
      FollowsThrough(script, trace, installed.trace, S.OpenAndGreet(script, trace, cfg, ctx, session, 0), anchor,
                     StartCalls(script, ctx, |trace| + |anchor|),
                     S.Start(script, installed.trace, ctx, s, 0, false).value.1);
    }
  }

  // ----- one responder, one device

  lemma OpenAtExactly(script: Script, cfg: Config, s: System, i: nat)
    requires i < |s.responders| && Ctx(s, i) != 0
    ensures var after, opening := OpenAt(script, cfg, s, i), OpenCalls(script, cfg, Ctx(s, i), |s.trace|);
            && after.links == s.links
            && |after.responders| == |s.responders|
            && View(after) == View(s)[i := (s.responders[i].device, Active(s, i) || AllPass(script, s.trace, opening))]
            && after.trace == (if Active(s, i) then s.trace else AfterCalls(script, s.trace, opening))
  {
    hide AllPass, AfterCalls, OpenCalls, S.OpenSecure, S.OpenAndGreet;
    if !Active(s, i) {
      OpenFollows(script, s.trace, cfg, Ctx(s, i), s.responders[i].session);
    }
  }

  /**
   * What a device adds to the list: nothing when its own preparation fails, its
   * session when its own opening passes.
   */
  lemma AddDeviceExactly(script: Script, cfg: Config, s: System, device: Device, secure: bool)
    requires device.transport != null
    ensures var after, link := AddDevice(script, cfg, s, device, secure), LinkOf(s.links, device.transport);
            var from := |s.trace|;
            var prepare := PrepareCalls(link, cfg, from);
            var opening := if secure then OpenCalls(script, cfg, NewContext(link, from), from + |prepare|) else [];
            && View(after)
               == View(s) + (if AllPass(script, s.trace, prepare)
                             then [(device, secure && AllPass(script, s.trace, prepare + opening))] else [])
            && after.trace == AfterCalls(script, s.trace, prepare + opening)
            && after.links == PutLink(s.links, device.transport, LinkAfter(script, cfg, link, from))
  {
    hide AllPass, AfterCalls, OpenCalls, PrepareCalls, NewContext, LinkAfter, PutLink, S.OpenSecure, S.OpenAndGreet,
         S.Initialize, S.ApplyConfig, S.Connect, OpenAt;
    var link, from := LinkOf(s.links, device.transport), |s.trace|;
    var prepare, ctx := PrepareCalls(link, cfg, from), NewContext(link, from);
    var opening := if secure then OpenCalls(script, cfg, ctx, from + |prepare|) else [];
    var (prepared, connected) := Prepared(script, s.trace, link, cfg);
    PrepareFollows(script, s.trace, link, cfg);
    LinkFollows(script, cfg, s.trace, link);
    if !connected {
      FollowsFailed(script, s.trace, prepared, prepare, opening);
    } else {
      var init := S.Initialize(script, s.trace, link);
      var applied := S.ApplyConfig(script, init.trace, init.value.0, cfg);
      var added := DaemonSpec.System(PutLink(s.links, device.transport, applied.value.0), prepared,
                                     s.responders + [Responder(device, None)]);
      PassedLength(script, s.trace, prepared, prepare);
      NewContextPositive(link, from);
      PutLinkIs(s.links, device.transport, applied.value.0);
      assert View(added) == View(s) + [(device, false)];
      if secure {
        OpenAtExactly(script, cfg, added, |s.responders|);
        var active := AllPass(script, prepared, opening);
        FollowsThrough(script, s.trace, prepared, AfterCalls(script, prepared, opening), prepare, opening, active);
        assert View(added)[|s.responders| := (device, active)] == View(s) + [(device, active)];
      } else {
        assert prepare + opening == prepare;
      }
    }
  }

  lemma PutLinkIs(links: map<Transport, S.Link>, t: Transport, link: S.Link)
    ensures LinkOf(PutLink(links, t, link), t) == link
  {}

  lemma NewContextPositive(link: S.Link, from: nat)
    ensures NewContext(link, from) > from
  {}

  /** The transport after preparing a device. */
  lemma LinkFollows(script: Script, cfg: Config, trace: Trace, link: S.Link)
    ensures var init := S.Initialize(script, trace, link);
            LinkAfter(script, cfg, link, |trace|)
            == if init.value.1 then S.ApplyConfig(script, init.trace, init.value.0, cfg).value.0 else init.value.0
  {
    hide Passed, Calling, Ask, Answer, S.Initialize, S.ApplyConfig, ConfigCalls, AllocateCalls, AfterCalls, AllPass;
    var init := S.Initialize(script, trace, link);
    var from, ctx := |trace|, NewContext(link, |trace|);
    var first, config, last :=
      InitializeCalls(link, from), Calling(ConfigCalls(cfg, ctx), Succeeds), [Call(InitConnection(ctx), Succeeds)];
    Reassociate(first, config, last);
    PassedAppend(script, from, first, config + last);
    InitializeFollows(script, trace, link);
    InitializePassed(script, trace, link);
    if init.value.1 {
      PassedLength(script, trace, init.trace, first);
      ConfigPassed(script, cfg, init.trace, init.value.0, last);
    }
  }

  /** Which check of an initialisation was not met, and the transport after it. */
  lemma InitializePassed(script: Script, trace: Trace, link: S.Link)
    ensures var done := S.Initialize(script, trace, link);
            var passed := Passed(script, |trace|, InitializeCalls(link, |trace|));
            var socket := |SocketCalls(link)|;
            && |InitializeCalls(link, |trace|)| >= socket + 2
            && (done.value.1 ==>
                  && passed == |InitializeCalls(link, |trace|)|
                  && done.value.0 == S.Link(NewContext(link, |trace|), true, true, link.version, link.flags))
            && (!done.value.1 ==>
                  && passed <= socket + 1
                  && done.value.0 == if passed < socket then link
                                     else if passed == socket then link.(ctx := 0, isOpen := true)
                                     else S.Link(0, false, false, link.version, link.flags))
  {
    hide Passed, AllocateCalls, Answer, S.AskAll, SetUpCalls, AfterCalls;
    var t1 := if link.isOpen then trace else Ask(script, trace, OpenSocket);
    var allocate := AllocateCalls(link.version, |t1|);
    InitializeFollows(script, trace, link);
    PassedAppend(script, |trace|, SocketCalls(link), allocate);
    SocketPassed(script, trace, link);
    AllocatePassed(script, t1, link.version);
    assert InitializeCalls(link, |trace|) == SocketCalls(link) + allocate;
  }

  lemma SocketPassed(script: Script, trace: Trace, link: S.Link)
    ensures Passed(script, |trace|, SocketCalls(link))
         == if link.isOpen || !Answer(script, trace).ok then 0 else 1
  {
    assert SocketCalls(link) != [] ==> SocketCalls(link)[1..] == [];
  }

  lemma AllocatePassed(script: Script, trace: Trace, version: nat)
    ensures var t2 := Ask(script, trace, AllocContext);
            var passed := Passed(script, |trace|, AllocateCalls(version, |trace|));
            && |AllocateCalls(version, |trace|)| >= 2
            && (!Answer(script, trace).ok ==> passed == 0)
            && (Answer(script, trace).ok && !Answer(script, t2).ok ==> passed == 1)
            && (Answer(script, trace).ok && Answer(script, t2).ok ==> passed >= 2)
  {
    hide SetUpCalls, Calling;
    var calls := AllocateCalls(version, |trace|);
    assert calls[1..][0] == calls[1] && calls[1..][1..] == calls[2..];
  }

  /** How far a configuration got, and the transport after it. */
  lemma ConfigPassed(script: Script, cfg: Config, trace: Trace, link: S.Link, last: seq<Call>)
    requires link.ctx != 0
    ensures var passed := Passed(script, |trace|, Calling(ConfigCalls(cfg, link.ctx), Succeeds) + last);
            S.ApplyConfig(script, trace, link, cfg).value.0
            == link.(version := if cfg.version != 0 && 0 < passed then cfg.version else link.version,
                     flags := if passed > 1 || (passed == 1 && cfg.version == 0) then cfg.requesterCapFlags
                              else link.flags)
  {
    hide S.ApplyConfig, S.CallAll, AlgorithmCalls, Passed, Calling, ConfigCalls;
    ApplySteps(script, trace, link, cfg);
    ConfigChecks(cfg, link.ctx, last);
    PassedTwo(script, |trace|, Calling(ConfigCalls(cfg, link.ctx), Succeeds) + last);
  }

  lemma ConfigChecks(cfg: Config, ctx: nat, last: seq<Call>)
    ensures var calls := Calling(ConfigCalls(cfg, ctx), Succeeds) + last;
            |calls| >= 2 && calls[0].check == Succeeds && calls[1].check == Succeeds
  {}

  lemma PassedTwo(script: Script, from: nat, calls: seq<Call>)
    requires |calls| >= 2 && calls[0].check == Succeeds && calls[1].check == Succeeds
    ensures var passed := Passed(script, from, calls);
            && (!script(from).ok ==> passed == 0)
            && (script(from).ok && !script(from + 1).ok ==> passed == 1)
            && (script(from).ok && script(from + 1).ok ==> passed >= 2)
  {
    assert calls[1..][0] == calls[1];
  }

  // ----- loops

  lemma {:induction false} AddFirstExactly(script: Script, cfg: Config, s: System, devices: seq<Device>,
                                           secure: bool, n: nat)
    requires s.responders == [] && n <= |devices|
    ensures var after := AddFirst(script, cfg, s, devices, secure, n);
            Expectation(View(after), after.trace, after.links)
            == Expected(script, cfg, s.links, devices[..n], secure, s.trace)
  {
    hide AddDevice, AllPass, AfterCalls, OpenCalls, PrepareCalls, NewContext, LinkOf, PutLink, LinkAfter;
    if n > 0 {
      var before, device := AddFirst(script, cfg, s, devices, secure, n - 1), devices[n - 1];
      AddFirstExactly(script, cfg, s, devices, secure, n - 1);
      assert devices[..n][..n - 1] == devices[..n - 1];
      if device.transport == null {
        NoTransport(script, cfg, before, device, secure);
      } else {
        AddDeviceExactly(script, cfg, before, device, secure);
      }
    }
  }

  lemma NoTransport(script: Script, cfg: Config, s: System, device: Device, secure: bool)
    requires device.transport == null
    ensures AddDevice(script, cfg, s, device, secure) == s
  {}

  lemma CloseAtExactly(script: Script, s: System, i: nat)
    requires i < |s.responders|
    ensures var after := CloseAt(script, s, i);
            && after.links == s.links
            && View(after) == View(s)[i := (s.responders[i].device, false)]
            && after.trace
               == (if Active(s, i)
                   then AfterCalls(script, s.trace, [StopCall(s, i)])
                   else s.trace)
  {
    hide AfterCalls, AllPass, Ctx;
    if Active(s, i) {
      AskFollows(script, s.trace, StopSession(Ctx(s, i), s.responders[i].session.value.id), Ignored);
    }
  }

  lemma {:induction false} CloseFirstExactly(script: Script, s: System, n: nat)
    requires n <= |s.responders|
    ensures var after := CloseFirst(script, s, n);
            && after.links == s.links
            && after.trace == ExpectedStops(script, s, n)
            && (forall i :: n <= i < |s.responders| ==> after.responders[i] == s.responders[i])
            && View(after) == seq(|s.responders|, i requires 0 <= i < |s.responders| =>
                                (s.responders[i].device, i >= n && Active(s, i)))
  {
    hide CloseAt, AfterCalls, LinkOf;
    if n > 0 {
      var before := CloseFirst(script, s, n - 1);
      CloseFirstExactly(script, s, n - 1);
      CloseAtExactly(script, before, n - 1);
      CloseAtOthers(script, before, n - 1);
      assert View(before)[n - 1] == (s.responders[n - 1].device, Active(s, n - 1));
    }
  }

  lemma CloseAtOthers(script: Script, s: System, i: nat)
    requires i < |s.responders|
    ensures forall j :: 0 <= j < |s.responders| && j != i ==> CloseAt(script, s, i).responders[j] == s.responders[j]
  {}

  /** Closing makes one call for each active session. */
  lemma {:induction false} StopsCounted(script: Script, s: System, n: nat)
    requires n <= |s.responders|
    ensures |ExpectedStops(script, s, n)| == |s.trace| + ActiveCount(s, n)
  {
    hide AfterCalls, Ctx;
    if n > 0 {
      StopsCounted(script, s, n - 1);
      if Active(s, n - 1) {
        var op := StopSession(Ctx(s, n - 1), s.responders[n - 1].session.value.id);
        var before := ExpectedStops(script, s, n - 1);
        AskFollows(script, before, op, Ignored);
        S.AskLength(script, before, op);
        assert AfterCalls(script, before, [Call(op, Ignored)]) == Ask(script, before, op);
      }
    }
  }

  lemma {:induction false} NoStops(script: Script, s: System, n: nat)
    requires n <= |s.responders| && NoneActive(s)
    ensures ExpectedStops(script, s, n) == s.trace
  {
    if n > 0 {
      NoStops(script, s, n - 1);
    }
  }

  lemma TearDownExactly(script: Script, s: System)
    ensures var after := TearDown(script, s);
            && after.links == s.links && after.responders == []
            && after.trace == ExpectedStops(script, s, |s.responders|)
  {
    hide CloseFirst, ExpectedStops;
    var closed := CloseFirst(script, s, |s.responders|);
    CloseFirstExactly(script, s, |s.responders|);
    forall i | 0 <= i < |closed.responders| ensures !Active(closed, i) {
      assert View(closed)[i].1 == Active(closed, i);
    }
    NoStops(script, closed, |closed.responders|);
    CloseFirstExactly(script, closed, |closed.responders|);
  }

  /**
   * After processing, responders, sessions, calls and transports are exactly
   * what each device's own replies make them.
   */
  lemma ProcessExactly(script: Script, cfg: Config, s: System, devices: seq<Device>, secure: bool)
    ensures var after := Process(script, cfg, s, devices, secure);
            Expectation(View(after), after.trace, after.links)
            == Expected(script, cfg, s.links, devices, secure, ExpectedStops(script, s, |s.responders|))
  {
    hide TearDown, AddFirst, Expected, ExpectedStops;
    TearDownExactly(script, s);
    AddFirstExactly(script, cfg, TearDown(script, s), devices, secure, |devices|);
    assert devices[..|devices|] == devices;
  }

  /** After opening, the sessions are exactly those open before and those whose own calls passed. */
  lemma {:induction false} OpenFirstExactly(script: Script, cfg: Config, s: System, n: nat)
    requires SystemInv(cfg, s) && n <= |s.responders|
    ensures var after, expected := OpenFirst(script, cfg, s, n), ExpectedOpen(script, cfg, s, n);
            && |after.responders| == |s.responders| && after.links == s.links
            && View(after) == expected.view + View(s)[n..]
            && after.trace == expected.trace && expected.links == s.links
            && Devices(after) == Devices(s)
            && (forall i :: n <= i < |s.responders| ==> after.responders[i] == s.responders[i])
  {
    hide OpenAt, SystemInv, AllPass, AfterCalls, OpenCalls, View, Ctx, Devices;
    ViewLength(s);
    if n == 0 {
      assert View(s)[0..] == View(s);
    } else {
      var before := OpenFirst(script, cfg, s, n - 1);
      OpenFirstExactly(script, cfg, s, n - 1);
      OpenFirstKeeps(cfg, script, s, n - 1);
      ContextOfResponder(cfg, before, n - 1);
      ViewLength(before);
      OpenAtExactly(script, cfg, before, n - 1);
      OpenAtKeeps(cfg, script, before, n - 1);
      DevicesSame(before, OpenFirst(script, cfg, s, n), n - 1);
      SameContext(before, s, n - 1);
      var done, left := ExpectedOpen(script, cfg, s, n - 1).view, View(s)[n - 1..];
      assert left[1..] == View(s)[n..];
      ReplaceFirst(done, left, (before.responders[n - 1].device, true));
      ReplaceFirst(done, left, (before.responders[n - 1].device, false));
    }
  }

  lemma SameContext(a: System, b: System, i: nat)
    requires i < |a.responders| && i < |b.responders|
    requires a.links == b.links && a.responders[i] == b.responders[i]
    ensures Ctx(a, i) == Ctx(b, i) && Active(a, i) == Active(b, i)
  {}

  lemma ViewLength(s: System)
    ensures |View(s)| == |s.responders|
    ensures forall i :: 0 <= i < |s.responders| ==> View(s)[i] == (s.responders[i].device, Active(s, i))
  {}

  lemma ReplaceFirst<T>(a: seq<T>, b: seq<T>, x: T)
    requires b != []
    ensures (a + b)[|a|] == b[0]
    ensures (a + b)[|a| := x] == (a + [x]) + b[1..]
  {}

  // ----- requests

  /** Serving a request makes the calls of its list, up to the first whose check is not met. */
  lemma ServeFollows(script: Script, trace: Trace, ctx: nat, indices: seq<nat>, slot: nat)
    ensures Attestation.Serve(script, trace, ctx, indices, slot).trace
         == if ctx == 0 || !Attestation.Acceptable(indices) then trace
            else AfterCalls(script, trace, RequestCalls(ctx, indices, slot))
  {
    hide Attestation.Acceptable, Attestation.Chain, Attestation.Contributions, Attestation.Effective, Follows,
         AfterCalls, S.CallAll, Ask, Attestation.Requests, Calling, Attestation.HasChain;
    if ctx != 0 && Attestation.Acceptable(indices) {
      var wanted := Attestation.Effective(indices);
      var measure := Calling(Attestation.Requests(ctx, wanted, slot), Succeeds);
      Attestation.ServeCases(script, trace, ctx, indices, slot);
      RequestOrder(ctx, indices, slot);
      ChainCheck(script(|trace| + 2));
      var c1, c2 := [Call(InitConnection(ctx), Succeeds)], [Call(GetDigest(ctx), Succeeds)];
      var c3 := [Call(GetCertificate(ctx, slot % 256), LongChain)];
      var t1 := Ask(script, trace, InitConnection(ctx));
      var t2 := Ask(script, t1, GetDigest(ctx));
      var t3 := Ask(script, t2, GetCertificate(ctx, slot % 256));
      AskFollows(script, trace, InitConnection(ctx), Succeeds);
      AskFollows(script, t1, GetDigest(ctx), Succeeds);
      AskFollows(script, t2, GetCertificate(ctx, slot % 256), LongChain);
      S.AskLength(script, trace, InitConnection(ctx));
      S.AskLength(script, t1, GetDigest(ctx));
      if !Answer(script, trace).ok {
        FollowsFailed(script, trace, t1, c1, c2 + (c3 + measure));
        FollowsIs(script, trace, t1, c1 + (c2 + (c3 + measure)), false);
      } else if !Answer(script, t1).ok {
        FollowsFailed(script, t1, t2, c2, c3 + measure);
        FollowsThrough(script, trace, t1, t2, c1, c2 + (c3 + measure), false);
        FollowsIs(script, trace, t2, c1 + (c2 + (c3 + measure)), false);
      } else if !Holds(Answer(script, t2), LongChain) {
        FollowsFailed(script, t2, t3, c3, measure);
        FollowsThrough(script, t1, t2, t3, c2, c3 + measure, false);
        FollowsThrough(script, trace, t1, t3, c1, c2 + (c3 + measure), false);
        FollowsIs(script, trace, t3, c1 + (c2 + (c3 + measure)), false);
      } else {
        CallAllFollows(script, t3, Attestation.Requests(ctx, wanted, slot));
        var measured := S.CallAll(script, t3, Attestation.Requests(ctx, wanted, slot));
        FollowsThrough(script, t2, t3, measured.trace, c3, measure, measured.value);
        FollowsThrough(script, t1, t2, measured.trace, c2, c3 + measure, measured.value);
        FollowsThrough(script, trace, t1, measured.trace, c1, c2 + (c3 + measure), measured.value);
        FollowsIs(script, trace, measured.trace, c1 + (c2 + (c3 + measure)), measured.value);
      }
    }
  }

  lemma FollowsIs(script: Script, before: Trace, after: Trace, calls: seq<Call>, success: bool)
    requires Follows(script, before, after, calls, success)
    ensures after == AfterCalls(script, before, calls)
  {
    hide AfterCalls;
  }

  lemma ChainCheck(reply: Reply)
    ensures Holds(reply, LongChain) <==> Attestation.HasChain(reply)
  {}

  lemma RequestOrder(ctx: nat, indices: seq<nat>, slot: nat)
    ensures RequestCalls(ctx, indices, slot)
         == [Call(InitConnection(ctx), Succeeds)]
            + ([Call(GetDigest(ctx), Succeeds)]
               + ([Call(GetCertificate(ctx, slot % 256), LongChain)]
                  + Calling(Attestation.Requests(ctx, Attestation.Effective(indices), slot), Succeeds)))
  {
    var wanted := Attestation.Effective(indices);
    var measure := Calling(Attestation.Requests(ctx, wanted, slot), Succeeds);
    assert measure == seq(|wanted|, k requires 0 <= k < |wanted| =>
                        Call(GetMeasurement(ctx, wanted[k] % 256, slot % 256), Succeeds));
  }

  // ----- events

  /** The responders, sessions, calls and transports after an event. */
  function ExpectedNext(script: Script, cfg: Config, d: State, e: Event): Expectation {
    var s := d.system;
    var n, same := |s.responders|, Expectation(View(s), s.trace, s.links);
    match e
    case Discovered(devices) =>
      if d.enabled then Expected(script, cfg, s.links, devices, d.secure, ExpectedStops(script, s, n))
      else same.(view := [])
    case SetEnabled(value) =>
      if value == d.enabled then same
      else if value then Expected(script, cfg, s.links, d.devices, d.secure, s.trace)
      else same.(view := [], trace := ExpectedStops(script, s, n))
    case SetSecure(value) =>
      if !d.enabled || value == d.secure then same
      else if value then ExpectedOpen(script, cfg, s, n)
      else same.(view := Closed(View(s)), trace := ExpectedStops(script, s, n))
    case Measure(i, indices, _, slot) =>
      if i < n && Attestation.Acceptable(indices)
      then same.(trace := AfterCalls(script, s.trace, RequestCalls(Ctx(s, i), indices, slot)))
      else same
  }

  /** The same responders without sessions. */
  function Closed(view: seq<(Device, bool)>): seq<(Device, bool)> {
    seq(|view|, i requires 0 <= i < |view| => (view[i].0, false))
  }

  /**
   * Whatever fails, an event leads to exactly the responders, sessions, calls
   * and transports that are to be expected: a failure has no effect beyond the
   * device it befell.
   */
  lemma StepExactly(script: Script, cfg: Config, d: State, e: Event)
    requires DaemonInv(cfg, d) && Discoverable(e)
    ensures var after := Step(script, cfg, d, e).system;
            Expectation(View(after), after.trace, after.links) == ExpectedNext(script, cfg, d, e)
  {
    hide SystemInv, Process, TearDown, OpenFirst, CloseFirst, ServeAt, Expected, ExpectedOpen, ExpectedStops,
         IsSubsequence, AfterCalls, RequestCalls, Attestation.Acceptable, LinkOf;
    var s := d.system;
    match e
    case Discovered(devices) =>
      ProcessExactly(script, cfg, s, devices, d.secure);
    case SetEnabled(value) =>
      ProcessExactly(script, cfg, s, d.devices, d.secure);
      TearDownExactly(script, s);
      if s.responders == [] {
        NoStops(script, s, 0);
      }
    case SetSecure(value) =>
      OpenFirstExactly(script, cfg, s, |s.responders|);
      CloseFirstExactly(script, s, |s.responders|);
    case Measure(i, indices, _, slot) =>
      if i < |s.responders| {
        ServeAtSame(script, s, i, indices, slot);
        ServeAtCalls(script, cfg, s, i, indices, slot);
      }
  }

  lemma ServeAtCalls(script: Script, cfg: Config, s: System, i: nat, indices: seq<nat>, slot: nat)
    requires SystemInv(cfg, s) && i < |s.responders|
    ensures ServeAt(script, s, i, indices, slot).trace
         == if Attestation.Acceptable(indices) then AfterCalls(script, s.trace, RequestCalls(Ctx(s, i), indices, slot))
            else s.trace
  {
    hide SystemInv, Attestation.Serve, Attestation.Acceptable, AfterCalls, RequestCalls, Ctx;
    ContextOfResponder(cfg, s, i);
    ServeFollows(script, s.trace, Ctx(s, i), indices, slot);
  }

  /** So it is at every point of every run. */
  lemma RunExactly(script: Script, cfg: Config, start: State, events: seq<Event>, e: Event)
    requires Initial(start) && AllDiscoverable(events) && Discoverable(e)
    ensures var after := Run(script, cfg, start, events + [e]).system;
            Expectation(View(after), after.trace, after.links)
            == ExpectedNext(script, cfg, Run(script, cfg, start, events), e)
  {
    hide Run, Step, DaemonInv, ExpectedNext, View;
    InitialInv(cfg, start);
    RunKeeps(cfg, script, start, events);
    RunOne(script, cfg, start, events, e);
    StepExactly(script, cfg, Run(script, cfg, start, events), e);
  }

  /** The end stops each active session, in order, and nothing else. */
  lemma ShutdownExactly(script: Script, d: State)
    ensures var after := Shutdown(script, d).system;
            after.responders == [] && after.trace == ExpectedStops(script, d.system, |d.system.responders|)
  {
    hide CloseFirst, ExpectedStops;
    CloseFirstExactly(script, d.system, |d.system.responders|);
  }

  // ----- what a request is asked of

  /**
   * A request to a responder goes to that responder's own device: every call
   * it makes names the responder's context, the first connects, the second
   * asks for the digests, the third fetches the certificate, and the others
   * are the measurements in the order asked for.
   */
  lemma RequestGoesToItsDevice(script: Script, cfg: Config, start: State, events: seq<Event>, i: nat, indices: seq<nat>,
                               nonce: string, slot: nat, k: nat)
    requires Initial(start) && AllDiscoverable(events)
    requires i < |Run(script, cfg, start, events).system.responders|
    ensures var d := Run(script, cfg, start, events);
            var after := Step(script, cfg, d, Measure(i, indices, nonce, slot)).system.trace;
            var base, ctx, wanted := |d.system.trace|, Ctx(d.system, i), if indices == [] then [255] else indices;
            && d.system.trace <= after && |after| <= base + 3 + |wanted|
            && (Attestation.Acceptable(indices) <==> base < |after|)
            && (base + k < |after| ==>
                  after[base + k]
                  == Record(if k == 0 then InitConnection(ctx)
                            else if k == 1 then GetDigest(ctx)
                            else if k == 2 then GetCertificate(ctx, slot % 256)
                            else GetMeasurement(ctx, wanted[k - 3] % 256, slot % 256),
                            script(base + k)))
  {
    hide Run, Step, SystemInv, AfterCalls, RequestCalls, Attestation.Acceptable, Ctx, IsSubsequence;
    InitialInv(cfg, start);
    RunKeeps(cfg, script, start, events);
    var d := Run(script, cfg, start, events);
    MeasureCalls(script, cfg, d, i, indices, nonce, slot);
    RequestMade(script, d.system.trace, Ctx(d.system, i), indices, slot, k);
  }

  lemma MeasureCalls(script: Script, cfg: Config, d: State, i: nat, indices: seq<nat>, nonce: string, slot: nat)
    requires SystemInv(cfg, d.system) && i < |d.system.responders|
    ensures Step(script, cfg, d, Measure(i, indices, nonce, slot)).system.trace
         == if Attestation.Acceptable(indices)
            then AfterCalls(script, d.system.trace, RequestCalls(Ctx(d.system, i), indices, slot))
            else d.system.trace
  {
    hide SystemInv, AfterCalls, RequestCalls, Attestation.Acceptable, Ctx, ServeAt;
    ServeAtCalls(script, cfg, d.system, i, indices, slot);
  }

  lemma RequestMade(script: Script, trace: Trace, ctx: nat, indices: seq<nat>, slot: nat, k: nat)
    ensures var after := AfterCalls(script, trace, RequestCalls(ctx, indices, slot));
            var base, wanted := |trace|, if indices == [] then [255] else indices;
            && trace <= after && base < |after| <= base + 3 + |wanted|
            && (base + k < |after| ==>
                  after[base + k]
                  == Record(if k == 0 then InitConnection(ctx)
                            else if k == 1 then GetDigest(ctx)
                            else if k == 2 then GetCertificate(ctx, slot % 256)
                            else GetMeasurement(ctx, wanted[k - 3] % 256, slot % 256),
                            script(base + k)))
  {
    hide AfterCalls, RequestCalls;
    RequestCallsAt(ctx, indices, slot, k);
    AfterCallsAt(script, trace, RequestCalls(ctx, indices, slot), k);
  }

  lemma RequestCallsAt(ctx: nat, indices: seq<nat>, slot: nat, k: nat)
    ensures var calls, wanted := RequestCalls(ctx, indices, slot), if indices == [] then [255] else indices;
            && |calls| == 3 + |wanted|
            && (k < |calls| ==>
                  calls[k].op == if k == 0 then InitConnection(ctx)
                                 else if k == 1 then GetDigest(ctx)
                                 else if k == 2 then GetCertificate(ctx, slot % 256)
                                 else GetMeasurement(ctx, wanted[k - 3] % 256, slot % 256))
  {}

  /** The records behind a trace are those of the calls. */
  lemma AfterCallsAt(script: Script, trace: Trace, calls: seq<Call>, k: nat)
    ensures var after := AfterCalls(script, trace, calls);
            && trace <= after && |after| <= |trace| + |calls|
            && (calls != [] ==> |trace| < |after|)
            && (|trace| + k < |after| ==> k < |calls| && after[|trace| + k] == Record(calls[k].op, script(|trace| + k)))
  {
    hide Passed;
  }

  // ----- sockets

  /** Calls that open no socket. */
  predicate Unsocketed(calls: seq<Call>) {
    forall k :: 0 <= k < |calls| ==> calls[k].op != OpenSocket
  }

  lemma UnsocketedAppend(a: seq<Call>, b: seq<Call>)
    requires Unsocketed(a) && Unsocketed(b)
    ensures Unsocketed(a + b)
  {}

  lemma UnsocketedCalling(ops: seq<Op>, check: Check)
    requires forall k :: 0 <= k < |ops| ==> ops[k] != OpenSocket
    ensures Unsocketed(Calling(ops, check))
  {}

  /** Preparing a device whose socket is open opens none, nor does opening its session. */
  lemma PreparedUnsocketed(script: Script, cfg: Config, link: S.Link, ctx: nat, from: nat, at: nat)
    requires link.isOpen
    ensures Unsocketed(PrepareCalls(link, cfg, from)) && Unsocketed(OpenCalls(script, cfg, ctx, at))
  {
    hide Calling, ConfigCalls, SetUpCalls, AsymAlgoSubdir, Unsocketed;
    var made := NewContext(link, from);
    S.SetUpQuiet(from + 1, link.version);
    SetUpUnsocketed(from + 1, link.version);
    ConfigUnsocketed(cfg, made);
    ShortUnsocketed(script, cfg, ctx, at, made);
    UnsocketedCalling(SetUpCalls(from + 1, link.version), Ignored);
    UnsocketedCalling(ConfigCalls(cfg, made), Succeeds);
    var alloc := [Call(AllocContext, Succeeds), Call(AllocScratch(from + 1), Succeeds)];
    UnsocketedAppend(alloc, Calling(SetUpCalls(from + 1, link.version), Ignored));
    assert InitializeCalls(link, from) == AllocateCalls(link.version, from);
    UnsocketedAppend(InitializeCalls(link, from), Calling(ConfigCalls(cfg, made), Succeeds));
    UnsocketedAppend(InitializeCalls(link, from) + Calling(ConfigCalls(cfg, made), Succeeds),
                     [Call(InitConnection(made), Succeeds)]);
  }

  lemma SetUpUnsocketed(ctx: nat, version: nat)
    ensures forall k :: 0 <= k < |SetUpCalls(ctx, version)| ==> SetUpCalls(ctx, version)[k] != OpenSocket
  {}

  lemma ConfigUnsocketed(cfg: Config, ctx: nat)
    ensures forall k :: 0 <= k < |ConfigCalls(cfg, ctx)| ==> ConfigCalls(cfg, ctx)[k] != OpenSocket
  {}

  lemma ShortUnsocketed(script: Script, cfg: Config, ctx: nat, at: nat, made: nat)
    ensures Unsocketed(OpenCalls(script, cfg, ctx, at))
    ensures Unsocketed([Call(InitConnection(made), Succeeds)])
    ensures forall from :: Unsocketed([Call(AllocContext, Succeeds), Call(AllocScratch(from), Succeeds)])
  {
    hide AsymAlgoSubdir;
  }

  /** The records of a list of calls name its operations. */
  lemma AfterUnsocketed(script: Script, trace: Trace, calls: seq<Call>)
    requires Unsocketed(calls)
    ensures var after := AfterCalls(script, trace, calls);
            trace <= after && forall k :: |trace| <= k < |after| ==> after[k].op != OpenSocket
  {
    hide Passed;
  }

  /** Processing devices whose sockets are all open opens none. */
  lemma {:induction false} ExpectedUnsocketed(script: Script, cfg: Config, links: map<Transport, S.Link>,
                                              devices: seq<Device>, secure: bool, trace: Trace)
    requires DistinctTransports(devices)
    requires forall k :: 0 <= k < |devices| && devices[k].transport != null ==>
      LinkOf(links, devices[k].transport).isOpen
    ensures var after := Expected(script, cfg, links, devices, secure, trace).trace;
            trace <= after && forall k :: |trace| <= k < |after| ==> after[k].op != OpenSocket
    ensures forall t: Transport :: (forall k :: 0 <= k < |devices| ==> devices[k].transport != t) ==>
              LinkOf(Expected(script, cfg, links, devices, secure, trace).links, t) == LinkOf(links, t)
    decreases |devices|
  {
    hide AfterCalls, AllPass, PrepareCalls, OpenCalls, LinkAfter, NewContext, Unsocketed;
    if devices != [] {
      var init, device := devices[..|devices| - 1], devices[|devices| - 1];
      ExpectedUnsocketed(script, cfg, links, init, secure, trace);
      var before := Expected(script, cfg, links, init, secure, trace);
      if device.transport != null {
        assert forall k :: 0 <= k < |init| ==> init[k].transport != device.transport by {
          assert forall k :: 0 <= k < |init| ==> init[k] == devices[k];
        }
        var link, from := LinkOf(before.links, device.transport), |before.trace|;
        var prepare, ctx := PrepareCalls(link, cfg, from), NewContext(link, from);
        PreparedUnsocketed(script, cfg, link, ctx, from, from + |prepare|);
        var opening := if secure then OpenCalls(script, cfg, ctx, from + |prepare|) else [];
        NoneUnsocketed();
        UnsocketedAppend(prepare, opening);
        AfterUnsocketed(script, before.trace, prepare + opening);
      }
    }
  }

  lemma NoneUnsocketed()
    ensures Unsocketed([])
  {}

  lemma {:induction false} StopsUnsocketed(script: Script, s: System, n: nat)
    requires n <= |s.responders|
    ensures var after := ExpectedStops(script, s, n);
            s.trace <= after && forall k :: |s.trace| <= k < |after| ==> after[k].op != OpenSocket
  {
    hide AfterCalls, Ctx;
    if n > 0 {
      StopsUnsocketed(script, s, n - 1);
      if Active(s, n - 1) {
        AfterUnsocketed(script, ExpectedStops(script, s, n - 1), [StopCall(s, n - 1)]);
      }
    }
  }

  /**
   * At every point of every run, the transport of each responder is open, has
   * a scratch buffer, and notes the configuration; and discovering the
   * responders' devices again opens no socket.
   */
  lemma SocketsStayOpen(script: Script, cfg: Config, start: State, events: seq<Event>, devices: seq<Device>)
    requires Initial(start) && AllDiscoverable(events) && DistinctTransports(devices)
    ensures var s := Run(script, cfg, start, events).system;
            forall i :: 0 <= i < |s.responders| ==>
              var link := LinkOf(s.links, s.responders[i].device.transport);
              && link.isOpen && link.scratch && link.flags == cfg.requesterCapFlags
              && link.version == (if cfg.version == 0 then 0x11 else cfg.version)
    ensures var d := Run(script, cfg, start, events);
            (forall k :: 0 <= k < |devices| && devices[k].transport != null ==> devices[k] in Devices(d.system)) ==>
              var after := Step(script, cfg, d, Discovered(devices)).system.trace;
              d.system.trace <= after && forall k :: |d.system.trace| <= k < |after| ==> after[k].op != OpenSocket
  {
    hide Run, Step, Legal, ContextsValid, RespondersReady, SessionsMatch, Expected, ExpectedStops, IsSubsequence,
      LinkOf;
    InitialInv(cfg, start);
    RunKeeps(cfg, script, start, events);
    var d := Run(script, cfg, start, events);
    var s := d.system;
    if forall k :: 0 <= k < |devices| && devices[k].transport != null ==> devices[k] in Devices(s) {
      StepExactly(script, cfg, d, Discovered(devices));
      StopsUnsocketed(script, s, |s.responders|);
      forall k | 0 <= k < |devices| && devices[k].transport != null
        ensures LinkOf(s.links, devices[k].transport).isOpen
      {
        var i :| 0 <= i < |Devices(s)| && Devices(s)[i] == devices[k];
        assert InUse(cfg, LinkOf(s.links, s.responders[i].device.transport));
      }
      ExpectedUnsocketed(script, cfg, s.links, devices, d.secure, ExpectedStops(script, s, |s.responders|));
    }
  }
}
