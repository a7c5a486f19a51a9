/**
 * What each step on one device does to the trace of calls: initialising the
 * transport, configuring it, connecting, opening, using and closing a
 * session. The classes of `SpdmObjects` are proved against these functions.
 */
module SessionSpec {
  import opened Bytes
  import opened SpdmCalls
  import opened SpdmAlgorithms

  /** A trace after some calls, and what they came to. */
  datatype Done<+T> = Done(trace: Trace, value: T)

  datatype Session = Session(active: bool, id: nat, period: nat)

  const NO_SESSION := Session(false, 0, 0)

  // ----- libspdm_tcp_transport.cpp

  /** The fields of a transport: context, scratch buffer, socket, and what was configured last. */
  datatype Link = Link(ctx: nat, scratch: bool, isOpen: bool, version: nat, flags: nat)

  const NEW_LINK := Link(0, false, false, 0x11, 0)

  /** The trace after some calls whose replies are ignored. */
  function AskAll(script: Script, trace: Trace, ops: seq<Op>): Trace
    decreases |ops|
  {
    if ops == [] then trace else AskAll(script, Ask(script, trace, ops[0]), ops[1..])
  }

  /**
   * The transport and whether it was initialised. A socket that is open is
   * kept; without one the old context stays; cleaning up closes it.
   */
  function Initialize(script: Script, trace: Trace, link: Link): Done<(Link, bool)> {
    if !link.isOpen && !Answer(script, trace).ok then Done(Ask(script, trace, OpenSocket), (link, false))
    else
      var t1 := if link.isOpen then trace else Ask(script, trace, OpenSocket);
      var t2 := Ask(script, t1, AllocContext);
      if !Answer(script, t1).ok then Done(t2, (link.(ctx := 0, isOpen := true), false))
      else
        var t3 := Ask(script, t2, AllocScratch(|t2|));
        if !Answer(script, t2).ok then Done(t3, (link.(ctx := 0, scratch := false, isOpen := false), false))
        else
          Done(AskAll(script, t3, SetUpCalls(|t2|, link.version)),
               (link.(ctx := |t2|, scratch := true, isOpen := true), true))
  }

  // ----- spdm_session_config.cpp

  /** Calls made one after another until one fails. */
  function CallAll(script: Script, trace: Trace, ops: seq<Op>): Done<bool>
    decreases |ops|
  {
    if ops == [] then Done(trace, true)
    else if !Answer(script, trace).ok then Done(Ask(script, trace, ops[0]), false)
    else CallAll(script, Ask(script, trace, ops[0]), ops[1..])
  }

  /** What the transport keeps a note of when a call has succeeded. */
  function Noted(link: Link, op: Op): Link {
    match op
    case SetData(_, key, value) =>
      if key == SpdmVersion then link.(version := value / 256)
      else if key == CapabilityFlags then link.(flags := value)
      else link
    case _ => link
  }

  /** Calls made one after another until one fails, each noted when it has succeeded. */
  function ConfigureAll(script: Script, trace: Trace, link: Link, ops: seq<Op>): Done<(Link, bool)>
    decreases |ops|
  {
    if ops == [] then Done(trace, (link, true))
    else if !Answer(script, trace).ok then Done(Ask(script, trace, ops[0]), (link, false))
    else ConfigureAll(script, Ask(script, trace, ops[0]), Noted(link, ops[0]), ops[1..])
  }

  function ApplyConfig(script: Script, trace: Trace, link: Link, cfg: Config): Done<(Link, bool)> {
    if link.ctx == 0 then Done(trace, (link, false)) else ConfigureAll(script, trace, link, ConfigCalls(cfg, link.ctx))
  }

  /** The trust anchor: the first non-empty source, or nothing when it cannot be loaded or none is named. */
  function LoadRoot(script: Script, trace: Trace, ctx: nat, cfg: Config): Done<Option<seq<byte>>> {
    if cfg.peerRootCertDer != [] then Done(trace, Some(cfg.peerRootCertDer))
    else if cfg.peerRootCertDerPath != "" then LoadFile(script, trace, [cfg.peerRootCertDerPath])
    else if cfg.peerRootCertBaseDir != "" then
      var t1 := Ask(script, trace, GetAsymAlgo(ctx));
      var algo := if Answer(script, trace).ok then Answer(script, trace).algo else 0;
      match AsymAlgoSubdir(algo)
      case None => Done(t1, None)
      case Some(dir) => LoadFile(script, t1, [cfg.peerRootCertBaseDir, dir, cfg.peerRootCertFileName])
    else Done(trace, None)
  }

  function LoadFile(script: Script, trace: Trace, path: seq<string>): Done<Option<seq<byte>>> {
    var data := Answer(script, trace).bytes;
    Done(Ask(script, trace, ReadFile(path)), if data == [] then None else Some(data))
  }

  function InstallPeerRoot(script: Script, trace: Trace, ctx: nat, cfg: Config): Done<bool> {
    if ctx == 0 then Done(trace, false)
    else
      var root := LoadRoot(script, trace, ctx, cfg);
      match root.value
      case None => Done(root.trace, !NamesAnchor(cfg))
      case Some(cert) =>
        Done(Ask(script, root.trace, InstallRoot(ctx, cert)), Answer(script, root.trace).ok)
  }

  // ----- component_integrity_dbus.cpp

  function Connect(script: Script, trace: Trace, ctx: nat): Done<bool> {
    if ctx == 0 then Done(trace, false)
    else Done(Ask(script, trace, InitConnection(ctx)), Answer(script, trace).ok)
  }

  // ----- spdm_session.cpp

  function FetchPeerCert(script: Script, trace: Trace, ctx: nat, slot: nat): Done<bool> {
    var t1 := Ask(script, trace, GetDigest(ctx));
    var digest := Answer(script, trace);
    if !digest.ok || slot !in digest.slots then Done(t1, false)
    else Done(Ask(script, t1, GetCertificate(ctx, slot)), Answer(script, t1).ok)
  }

  function Start(script: Script, trace: Trace, ctx: nat, s: Session, slot: nat, usePsk: bool): Done<(Session, bool)> {
    if ctx == 0 then Done(trace, (s, false))
    else if s.active then Done(trace, (s, true))
    else
      var fetched := if usePsk then Done(trace, true) else FetchPeerCert(script, trace, ctx, slot);
      if !fetched.value then Done(fetched.trace, (s, false))
      else
        var after := Ask(script, fetched.trace, StartSession(ctx, usePsk, slot));
        var reply := Answer(script, fetched.trace);
        if reply.ok then Done(after, (Session(true, reply.id, reply.period), true))
        else Done(after, (s.(period := 0), false))
  }

  function Stop(script: Script, trace: Trace, ctx: nat, s: Session): Done<(Session, bool)> {
    if !s.active then Done(trace, (s, true))
    else Done(Ask(script, trace, StopSession(ctx, s.id)), (s.(active := false), Answer(script, trace).ok))
  }

  function SendHeartbeat(script: Script, trace: Trace, ctx: nat, s: Session): Done<bool> {
    if !s.active then Done(trace, false)
    else Done(Ask(script, trace, SpdmCalls.Heartbeat(ctx, s.id)), Answer(script, trace).ok)
  }

  // ----- spdm_dbus_responder.cpp

  /** Opening: install the trust anchor, make the session object, start it unless it is active. */
  function OpenSecure(script: Script, trace: Trace, cfg: Config, ctx: nat, session: Option<Session>, slot: nat)
    : Done<(Option<Session>, bool)>
  {
    var installed := InstallPeerRoot(script, trace, ctx, cfg);
    if !installed.value then Done(installed.trace, (session, false))
    else
      var s := if session.Some? then session.value else NO_SESSION;
      var started := Start(script, installed.trace, ctx, s, slot, false);
      Done(started.trace, (Some(started.value.0), started.value.1))
  }

  /** The trace of opening a session, with the heartbeat that follows when it worked. */
  function OpenAndGreet(script: Script, trace: Trace, cfg: Config, ctx: nat, session: Option<Session>, slot: nat)
    : Trace
  {
    var done := OpenSecure(script, trace, cfg, ctx, session, slot);
    if done.value.1 && done.value.0.Some? then SendHeartbeat(script, done.trace, ctx, done.value.0.value).trace
    else done.trace
  }

  predicate IsActive(session: Option<Session>) {
    session.Some? && session.value.active
  }

  // ----- how the steps keep a legal trace

  /** The trace is still legal and longer, and the same sessions are open. */
  predicate Kept(cfg: Config, before: Trace, after: Trace) {
    Legal(cfg, before) ==> Legal(cfg, after) && Open(after) == Open(before) && before <= after
  }

  lemma AskKept(cfg: Config, script: Script, trace: Trace, op: Op)
    requires Legal(cfg, trace) && Harmless(cfg, trace, op)
    ensures Kept(cfg, trace, Ask(script, trace, op)) && |Ask(script, trace, op)| == |trace| + 1
    ensures Answer(script, trace).ok ==> Did(Ask(script, trace, op), |trace|, op)
    ensures Ask(script, trace, op)[|trace|] == Record(op, Answer(script, trace))
  {
    hide Legal, Open, Ask, Answer, Harmless;
    HarmlessAsk(cfg, script, trace, op);
    AskSteps(script, trace, op);
  }

  lemma {:induction false} AskAllKept(cfg: Config, script: Script, trace: Trace, ops: seq<Op>)
    requires Legal(cfg, trace)
    requires forall i :: 0 <= i < |ops| ==> Quiet(ops[i])
    ensures var after := AskAll(script, trace, ops);
            && Kept(cfg, trace, after)
            && |after| == |trace| + |ops|
            && forall m :: 0 <= m < |ops| ==> after[|trace| + m].op == ops[m]
    decreases |ops|
  {
    hide Legal, Open, Ask, Answer;
    if ops != [] {
      var next := Ask(script, trace, ops[0]);
      AskKept(cfg, script, trace, ops[0]);
      AskAllKept(cfg, script, next, ops[1..]);
      var after := AskAll(script, next, ops[1..]);
      forall m | 0 <= m < |ops| ensures after[|trace| + m].op == ops[m] {
        if m > 0 {
          assert after[|next| + (m - 1)].op == ops[1..][m - 1];
        }
      }
    }
  }

  lemma SetUpQuiet(ctx: nat, version: nat)
    ensures var ops := SetUpCalls(ctx, version);
            && (forall i :: 0 <= i < |ops| ==> Quiet(ops[i]))
            && |ops| == (if version == 0 then 4 else 5)
            && ops[0].SetData? && (ops[0].key == SpdmVersion <==> version != 0)
  {}

  /** Allocating and setting up a context, once there is a socket. */
  lemma AllocateKept(cfg: Config, script: Script, trace: Trace, version: nat)
    requires Legal(cfg, trace)
    ensures var t2 := Ask(script, trace, AllocContext);
            var t3 := Ask(script, t2, AllocScratch(|t2|));
            var t4 := AskAll(script, t3, SetUpCalls(|t2|, version));
            && Kept(cfg, trace, t2) && Kept(cfg, trace, t3) && Kept(cfg, trace, t4)
            && |t2| == |trace| + 1
            && (Answer(script, trace).ok && Answer(script, t2).ok ==>
                  && Did(t4, |t2| - 1, AllocContext)
                  && Did(t4, |t2|, AllocScratch(|t2|))
                  && |t2| + 1 < |t4| == SetUpEnd(t4, |t2|))
  {
    hide Legal, Open, Ask, Answer, SetUpCalls, AskAll;
    var t2 := Ask(script, trace, AllocContext);
    AskKept(cfg, script, trace, AllocContext);
    var t3 := Ask(script, t2, AllocScratch(|t2|));
    AskKept(cfg, script, t2, AllocScratch(|t2|));
    SetUpQuiet(|t2|, version);
    AskAllKept(cfg, script, t3, SetUpCalls(|t2|, version));
    assert AskAll(script, t3, SetUpCalls(|t2|, version))[|t3| + 0].op == SetUpCalls(|t2|, version)[0];
  }

  lemma InitializeKept(cfg: Config, script: Script, trace: Trace, link: Link)
    requires Legal(cfg, trace)
    ensures var done := Initialize(script, trace, link);
            var ctx := done.value.0.ctx;
            && Kept(cfg, trace, done.trace)
            && (done.value.1 ==>
                  && |trace| < ctx <= |done.trace|
                  && Did(done.trace, ctx - 1, AllocContext)
                  && Did(done.trace, ctx, AllocScratch(ctx))
                  && ctx + 1 < |done.trace| == SetUpEnd(done.trace, ctx))
            && (!done.value.1 ==> ctx == link.ctx || ctx == 0)
  {
    hide Legal, Open, Ask, Answer, SetUpCalls, AskAll, Did, SetUpEnd;
    AskKept(cfg, script, trace, OpenSocket);
    AllocateKept(cfg, script, if link.isOpen then trace else Ask(script, trace, OpenSocket), link.version);
  }

  /**
   * The transport after every outcome, by the last call made: an open socket
   * and a scratch buffer after a success; as it was without a socket; an open
   * socket but no context after a failed allocation; nothing at all after a
   * failed scratch buffer.
   */
  lemma InitializeLink(script: Script, trace: Trace, link: Link)
    ensures var done := Initialize(script, trace, link);
            var (after, ok) := done.value;
            && trace < done.trace
            && after.version == link.version && after.flags == link.flags
            && (ok ==> after.ctx != 0 && after.scratch && after.isOpen)
            && (!ok ==>
                  && var last := done.trace[|done.trace| - 1];
                  && !last.reply.ok
                  && (last.op == OpenSocket ==> !link.isOpen && after == link)
                  && (last.op == AllocContext ==> after == link.(ctx := 0, isOpen := true))
                  && (last.op != OpenSocket && last.op != AllocContext ==>
                        last.op.AllocScratch? && after == Link(0, false, false, link.version, link.flags)))
  {
    hide SetUpCalls, AskAll;
    var t1 := if link.isOpen then trace else Ask(script, trace, OpenSocket);
    var t2 := Ask(script, t1, AllocContext);
    var t3 := Ask(script, t2, AllocScratch(|t2|));
    AskAllLonger(script, t3, SetUpCalls(|t2|, link.version));
  }

  lemma {:induction false} AskAllLonger(script: Script, trace: Trace, ops: seq<Op>)
    ensures trace <= AskAll(script, trace, ops)
    decreases |ops|
  {
    if ops != [] {
      AskAllLonger(script, Ask(script, trace, ops[0]), ops[1..]);
    }
  }

  lemma {:induction false} CallAllKept(cfg: Config, script: Script, trace: Trace, ops: seq<Op>)
    requires Legal(cfg, trace)
    requires forall i :: 0 <= i < |ops| ==> Quiet(ops[i])
    ensures var done := CallAll(script, trace, ops);
            && Kept(cfg, trace, done.trace)
            && (done.value ==>
                  && |done.trace| == |trace| + |ops|
                  && forall m :: 0 <= m < |ops| ==> Did(done.trace, |trace| + m, ops[m]))
    decreases |ops|
  {
    hide Legal, Open, Ask, Answer, InRequest, Ready;
    if ops != [] {
      var next := Ask(script, trace, ops[0]);
      AskKept(cfg, script, trace, ops[0]);
      if Answer(script, trace).ok {
        CallAllKept(cfg, script, next, ops[1..]);
        var done := CallAll(script, next, ops[1..]);
        if done.value {
          forall m | 0 <= m < |ops| ensures Did(done.trace, |trace| + m, ops[m]) {
            if m > 0 {
              assert Did(done.trace, |next| + (m - 1), ops[1..][m - 1]);
            }
          }
        }
      }
    }
  }

  /** Measurements asked one after another inside a request keep the trace legal and the open sessions open. */
  lemma {:induction false} MeasureAllKept(cfg: Config, script: Script, trace: Trace, ctx: nat, slot: nat, ops: seq<Op>)
    requires Legal(cfg, trace) && Ready(cfg, trace, ctx) && InRequest(trace, ctx, slot)
    requires forall i :: 0 <= i < |ops| ==> ops[i].GetMeasurement? && ops[i].ctx == ctx && ops[i].slot == slot
    ensures Kept(cfg, trace, CallAll(script, trace, ops).trace)
    decreases |ops|
  {
    hide Legal, Open, Ask, Answer, InRequest, Ready;
    if ops != [] {
      var next := Ask(script, trace, ops[0]);
      AskKept(cfg, script, trace, ops[0]);
      if Answer(script, trace).ok {
        ReadyLater(cfg, trace, next, ctx);
        StillInRequest(script, trace, ops[0], ctx, slot);
        MeasureAllKept(cfg, script, next, ctx, slot, ops[1..]);
      }
    }
  }

  lemma StillInRequest(script: Script, trace: Trace, op: Op, ctx: nat, slot: nat)
    requires InRequest(trace, ctx, slot) && Answer(script, trace).ok
    requires op.GetMeasurement? && op.ctx == ctx && op.slot == slot
    ensures InRequest(Ask(script, trace, op), ctx, slot)
  {
    hide RequestedAt;
    assert Ask(script, trace, op)[..|trace|] == trace;
  }

  /** Noting what has succeeded changes neither the calls nor the context. */
  lemma {:induction false} ConfigureIsCalling(script: Script, trace: Trace, link: Link, ops: seq<Op>)
    ensures var done, calls := ConfigureAll(script, trace, link, ops), CallAll(script, trace, ops);
            && done.trace == calls.trace && done.value.1 == calls.value
            && done.value.0.ctx == link.ctx && done.value.0.isOpen == link.isOpen
    decreases |ops|
  {
    hide Ask, Answer;
    if ops != [] && Answer(script, trace).ok {
      ConfigureIsCalling(script, Ask(script, trace, ops[0]), Noted(link, ops[0]), ops[1..]);
    }
  }

  lemma ConfigQuiet(cfg: Config, ctx: nat)
    ensures forall i :: 0 <= i < |ConfigCalls(cfg, ctx)| ==> Quiet(ConfigCalls(cfg, ctx)[i])
  {}

  /** Initialise, configure and connect: when all succeed the context is ready, and otherwise nothing was harmed. */
  lemma PrepareKept(cfg: Config, script: Script, trace: Trace, link: Link)
    requires Legal(cfg, trace)
    ensures var init := Initialize(script, trace, link);
            var ctx := init.value.0.ctx;
            var applied := ApplyConfig(script, init.trace, init.value.0, cfg);
            var connected := Connect(script, applied.trace, ctx);
            && Kept(cfg, trace, init.trace) && Kept(cfg, trace, applied.trace) && Kept(cfg, trace, connected.trace)
            && |trace| <= |init.trace| <= |applied.trace| <= |connected.trace|
            && applied.value.0.ctx == ctx
            && (init.value.1 ==> |trace| < ctx <= |init.trace|)
            && (!init.value.1 ==> ctx == link.ctx || ctx == 0)
            && (init.value.1 && applied.value.1 && connected.value ==> Ready(cfg, connected.trace, ctx))
  {
    hide Legal, Open, Ask, Answer, Initialize, ConfigCalls, ConfigureAll, CallAll;
    InitializeKept(cfg, script, trace, link);
    var init := Initialize(script, trace, link);
    var c := init.value.0.ctx;
    ConfigQuiet(cfg, c);
    CallAllKept(cfg, script, init.trace, ConfigCalls(cfg, c));
    ConfigureIsCalling(script, init.trace, init.value.0, ConfigCalls(cfg, c));
    var applied := ApplyConfig(script, init.trace, init.value.0, cfg);
    AskKept(cfg, script, applied.trace, InitConnection(c));
  }

  lemma LoadKept(cfg: Config, script: Script, trace: Trace, ctx: nat)
    requires Legal(cfg, trace)
    ensures var root := LoadRoot(script, trace, ctx, cfg);
            && Kept(cfg, trace, root.trace)
            && (root.value.Some? ==> NamesAnchor(cfg))
            && (root.value.Some? ==> LoadedBefore(cfg, root.trace, |root.trace|, ctx, root.value.value))
  {
    hide Legal, Open, Ask, Answer, AsymAlgoSubdir, LoadedBefore, LoadFile, ReadAt;
    var root := LoadRoot(script, trace, ctx, cfg);
    if cfg.peerRootCertDer != [] {
      LoadedDirectly(cfg, root.trace, |root.trace|, ctx);
    } else if cfg.peerRootCertDerPath != "" {
      FileKept(cfg, script, trace, [cfg.peerRootCertDerPath]);
      LoadedDirectly(cfg, root.trace, |root.trace|, ctx);
    } else if cfg.peerRootCertBaseDir != "" {
      FolderKept(cfg, script, trace, ctx);
    }
  }

  lemma FileKept(cfg: Config, script: Script, trace: Trace, path: seq<string>)
    requires Legal(cfg, trace)
    ensures var file := LoadFile(script, trace, path);
            && Kept(cfg, trace, file.trace) && |file.trace| == |trace| + 1 && trace <= file.trace
            && (file.value.Some? ==> ReadAt(file.trace, |file.trace| - 1, path, file.value.value))
  {
    hide Legal, Open, Ask, Answer;
    AskKept(cfg, script, trace, ReadFile(path));
  }

  lemma FolderKept(cfg: Config, script: Script, trace: Trace, ctx: nat)
    requires Legal(cfg, trace)
    requires cfg.peerRootCertDer == [] && cfg.peerRootCertDerPath == "" && cfg.peerRootCertBaseDir != ""
    ensures var root := LoadRoot(script, trace, ctx, cfg);
            && Kept(cfg, trace, root.trace)
            && (root.value.Some? ==> LoadedBefore(cfg, root.trace, |root.trace|, ctx, root.value.value))
  {
    hide Legal, Open, Ask, Answer, AsymAlgoSubdir, LoadedBefore, LoadFile, ReadAt;
    var t1 := Ask(script, trace, GetAsymAlgo(ctx));
    AskKept(cfg, script, trace, GetAsymAlgo(ctx));
    NoAlgorithm();
    var dir := AsymAlgoSubdir(if Answer(script, trace).ok then Answer(script, trace).algo else 0);
    if dir.Some? {
      var path := [cfg.peerRootCertBaseDir, dir.value, cfg.peerRootCertFileName];
      var file := LoadFile(script, t1, path);
      FileKept(cfg, script, t1, path);
      if file.value.Some? {
        LoadedFromFolder(cfg, file.trace, |file.trace|, ctx, dir.value);
      }
    }
  }

  lemma LoadedDirectly(cfg: Config, trace: Trace, i: int, ctx: nat)
    requires cfg.peerRootCertDer != [] || cfg.peerRootCertDerPath != ""
    ensures forall cert ::
              (if cfg.peerRootCertDer != [] then cert == cfg.peerRootCertDer
               else ReadAt(trace, i - 1, [cfg.peerRootCertDerPath], cert))
              ==> LoadedBefore(cfg, trace, i, ctx, cert)
  {}

  lemma LoadedFromFolder(cfg: Config, trace: Trace, i: int, ctx: nat, dir: string)
    requires cfg.peerRootCertDer == [] && cfg.peerRootCertDerPath == ""
    requires Did(trace, i - 2, GetAsymAlgo(ctx)) && AsymAlgoSubdir(trace[i - 2].reply.algo) == Some(dir)
    ensures forall cert :: ReadAt(trace, i - 1, [cfg.peerRootCertBaseDir, dir, cfg.peerRootCertFileName], cert)
              ==> LoadedBefore(cfg, trace, i, ctx, cert)
  {
    hide AsymAlgoSubdir, AsymMask, Folder, ReadAt;
    AlgorithmOfFolder(trace[i - 2].reply.algo);
    var a: AsymAlgorithm :| AsymMask(a) == trace[i - 2].reply.algo;
    FolderOfAlgorithm(a);
  }

  lemma AskLength(script: Script, trace: Trace, op: Op)
    ensures |Ask(script, trace, op)| == |trace| + 1
  {}

  lemma NoAlgorithm()
    ensures AsymAlgoSubdir(0).None?
  {}

  lemma InstallKept(cfg: Config, script: Script, trace: Trace, ctx: nat)
    requires Legal(cfg, trace)
    ensures var done := InstallPeerRoot(script, trace, ctx, cfg);
            && Kept(cfg, trace, done.trace)
            && (done.value && NamesAnchor(cfg) ==> AnchoredAt(cfg, done.trace, |done.trace| - 1, ctx))
  {
    hide Legal, Open, Ask, Answer, LoadRoot, LoadedBefore;
    if ctx != 0 {
      LoadKept(cfg, script, trace, ctx);
      var root := LoadRoot(script, trace, ctx, cfg);
      if root.value.Some? {
        var cert := root.value.value;
        AskKept(cfg, script, root.trace, InstallRoot(ctx, cert));
        LoadedLater(cfg, root.trace, Ask(script, root.trace, InstallRoot(ctx, cert)), |root.trace|, ctx, cert);
      }
    }
  }

  lemma FetchKept(cfg: Config, script: Script, trace: Trace, ctx: nat, slot: nat)
    requires Legal(cfg, trace)
    ensures var done := FetchPeerCert(script, trace, ctx, slot);
            && Kept(cfg, trace, done.trace)
            && (done.value ==> |done.trace| == |trace| + 2 && CertifiedAt(done.trace, |trace|, ctx, slot))
  {
    hide Legal, Open, Ask, Answer;
    AskKept(cfg, script, trace, GetDigest(ctx));
    var t1 := Ask(script, trace, GetDigest(ctx));
    AskKept(cfg, script, t1, GetCertificate(ctx, slot));
  }

  /** Starting on a ready, anchored context without a session opens exactly that session, or nothing. */
  lemma StartKept(cfg: Config, script: Script, trace: Trace, ctx: nat, s: Session, slot: nat, usePsk: bool)
    requires Legal(cfg, trace) && Ready(cfg, trace, ctx) && ctx !in Open(trace) && !s.active
    requires NamesAnchor(cfg) ==> AnchoredAt(cfg, trace, |trace| - 1, ctx)
    ensures var done := Start(script, trace, ctx, s, slot, usePsk);
            var after := done.value.0;
            && Legal(cfg, done.trace) && trace <= done.trace
            && Open(done.trace)
               == (if after.active then Open(trace)[ctx := Opened(after.id, after.period)] else Open(trace))
            && done.value.1 == after.active
  {
    hide Legal, Open, Ask, Answer, Ready, AnchoredAt, CertifiedAt, FetchPeerCert;
    if ctx != 0 {
      FetchKept(cfg, script, trace, ctx, slot);
      var fetched := if usePsk then Done(trace, true) else FetchPeerCert(script, trace, ctx, slot);
      if fetched.value {
        ReadyLater(cfg, trace, fetched.trace, ctx);
        if NamesAnchor(cfg) {
          AnchoredLater(cfg, trace, fetched.trace, |trace| - 1, ctx);
        }
        SessionAsk(cfg, script, fetched.trace, StartSession(ctx, usePsk, slot));
      }
    }
  }

  /** What a start does, by the last of its calls: only a successful start makes a session, with what was replied. */
  lemma StartMeans(script: Script, trace: Trace, ctx: nat, s: Session, slot: nat, usePsk: bool)
    ensures var done := Start(script, trace, ctx, s, slot, usePsk);
            && (ctx == 0 || s.active ==> done == Done(trace, (s, ctx != 0)))
            && (ctx != 0 && !s.active ==>
                  && |trace| < |done.trace| <= |trace| + 3
                  && (usePsk ==> |done.trace| == |trace| + 1)
                  && var last := done.trace[|done.trace| - 1];
                     if last.op == StartSession(ctx, usePsk, slot) && last.reply.ok
                     then done.value == (Session(true, last.reply.id, last.reply.period), true)
                     else !done.value.0.active && done.value.0.id == s.id && !done.value.1)
  {}

  /** The status of a stop is that of its reply, and without a session there is no call. */
  lemma StopMeans(script: Script, trace: Trace, ctx: nat, s: Session)
    ensures var done := Stop(script, trace, ctx, s);
            if s.active
            then && |done.trace| == |trace| + 1
                 && var last := done.trace[|trace|];
                    && last.op == StopSession(ctx, s.id)
                    && done.value == (Session(false, s.id, s.period), last.reply.ok)
            else done == Done(trace, (s, true))
  {}

  /** The status of a heartbeat is that of its reply, and without a session it is an error. */
  lemma HeartbeatMeans(script: Script, trace: Trace, ctx: nat, s: Session)
    ensures var done := SendHeartbeat(script, trace, ctx, s);
            if s.active
            then && |done.trace| == |trace| + 1
                 && done.trace[|trace|].op == SpdmCalls.Heartbeat(ctx, s.id)
                 && done.value == done.trace[|trace|].reply.ok
            else done == Done(trace, false)
  {}

  /** An allowed call keeps legality and changes the open sessions as the call says. */
  lemma SessionAsk(cfg: Config, script: Script, trace: Trace, op: Op)
    requires Legal(cfg, trace) && Allowed(cfg, trace, op)
    ensures var after := Ask(script, trace, op);
            && Legal(cfg, after) && trace <= after
            && Open(after)
               == match op
                  case StartSession(ctx, _, _) =>
                    if Answer(script, trace).ok
                    then Open(trace)[ctx := Opened(Answer(script, trace).id, Answer(script, trace).period)]
                    else Open(trace)
                  case StopSession(ctx, _) => Open(trace) - {ctx}
                  case _ => Open(trace)
  {
    hide Allowed, Ask, Answer;
    AskSteps(script, trace, op);
  }

  lemma StopKept(cfg: Config, script: Script, trace: Trace, ctx: nat, s: Session)
    requires Legal(cfg, trace) && s.active && ctx in Open(trace) && Open(trace)[ctx] == Opened(s.id, s.period)
    ensures var done := Stop(script, trace, ctx, s);
            && Legal(cfg, done.trace) && trace <= done.trace
            && Open(done.trace) == Open(trace) - {ctx}
            && !done.value.0.active
  {
    hide Legal, Open, Ask, Answer;
    SessionAsk(cfg, script, trace, StopSession(ctx, s.id));
  }

  lemma HeartbeatKept(cfg: Config, script: Script, trace: Trace, ctx: nat, s: Session)
    requires Legal(cfg, trace)
    requires s.active ==> ctx in Open(trace) && Open(trace)[ctx] == Opened(s.id, s.period)
    ensures Kept(cfg, trace, SendHeartbeat(script, trace, ctx, s).trace)
  {
    hide Legal, Open, Ask, Answer;
    if s.active {
      SessionAsk(cfg, script, trace, SpdmCalls.Heartbeat(ctx, s.id));
    }
  }

  /** Opening on a ready context without a session opens exactly the session it reports, or nothing. */
  lemma OpenKept(cfg: Config, script: Script, trace: Trace, ctx: nat, session: Option<Session>, slot: nat)
    requires Legal(cfg, trace) && Ready(cfg, trace, ctx) && ctx !in Open(trace) && !IsActive(session)
    ensures var done := OpenSecure(script, trace, cfg, ctx, session, slot);
            var after := done.value.0;
            && Legal(cfg, done.trace) && trace <= done.trace
            && Open(done.trace)
               == (if IsActive(after) then Open(trace)[ctx := Opened(after.value.id, after.value.period)]
                   else Open(trace))
            && done.value.1 == IsActive(after)
  {
    hide Legal, Open, Ready, AnchoredAt, InstallPeerRoot, Start;
    InstallKept(cfg, script, trace, ctx);
    var installed := InstallPeerRoot(script, trace, ctx, cfg);
    if installed.value {
      ReadyLater(cfg, trace, installed.trace, ctx);
      StartKept(cfg, script, installed.trace, ctx, if session.Some? then session.value else NO_SESSION, slot, false);
    }
  }

  // ----- how the steps extend a trace

  /** The longer trace has no further session start. */
  predicate Unstarted(before: Trace, after: Trace) {
    before <= after && forall i :: |before| <= i < |after| ==> !after[i].op.StartSession?
  }

  /** In the longer trace every further session is greeted with a heartbeat as soon as it is started. */
  predicate Greeted(before: Trace, after: Trace) {
    before <= after && forall i :: |before| <= i < |after| && after[i].op.StartSession? && after[i].reply.ok ==>
      i + 1 < |after| && after[i + 1].op == SpdmCalls.Heartbeat(after[i].op.ctx, after[i].reply.id)
  }

  lemma GreetedThrough(a: Trace, b: Trace, c: Trace)
    requires Greeted(a, b) && Greeted(b, c)
    ensures Greeted(a, c)
  {
    forall i | |a| <= i < |b| ensures c[i] == b[i] {}
  }

  lemma AskUnstarted(script: Script, trace: Trace, op: Op)
    requires !op.StartSession?
    ensures Unstarted(trace, Ask(script, trace, op))
  {}

  lemma UnstartedGreeted(a: Trace, b: Trace)
    requires Unstarted(a, b)
    ensures Greeted(a, b)
  {}

  lemma UnstartedThrough(a: Trace, b: Trace, c: Trace)
    requires Unstarted(a, b) && Unstarted(b, c)
    ensures Unstarted(a, c)
  {
    forall i | |a| <= i < |b| ensures c[i] == b[i] {}
  }

  lemma {:induction false} AskAllExtends(script: Script, trace: Trace, ops: seq<Op>)
    requires forall i :: 0 <= i < |ops| ==> !ops[i].StartSession?
    ensures Unstarted(trace, AskAll(script, trace, ops))
    decreases |ops|
  {
    if ops != [] {
      AskAllExtends(script, Ask(script, trace, ops[0]), ops[1..]);
      AskUnstarted(script, trace, ops[0]);
      UnstartedThrough(trace, Ask(script, trace, ops[0]), AskAll(script, trace, ops));
    }
  }

  lemma InitializeExtends(script: Script, trace: Trace, link: Link)
    ensures Unstarted(trace, Initialize(script, trace, link).trace)
  {
    hide Answer, SetUpCalls, AskAll, Ask, Unstarted;
    var t1 := if link.isOpen then trace else Ask(script, trace, OpenSocket);
    var t2 := Ask(script, t1, AllocContext);
    var t3 := Ask(script, t2, AllocScratch(|t2|));
    var t4 := AskAll(script, t3, SetUpCalls(|t2|, link.version));
    UnstartedNothing(trace);
    AskUnstarted(script, trace, OpenSocket);
    AskUnstarted(script, t1, AllocContext);
    UnstartedThrough(trace, t1, t2);
    AskUnstarted(script, t2, AllocScratch(|t2|));
    UnstartedThrough(trace, t2, t3);
    SetUpQuiet(|t2|, link.version);
    AskAllExtends(script, t3, SetUpCalls(|t2|, link.version));
    UnstartedThrough(trace, t3, t4);
  }

  lemma UnstartedNothing(trace: Trace)
    ensures Unstarted(trace, trace)
  {}

  lemma {:induction false} CallAllExtends(script: Script, trace: Trace, ops: seq<Op>)
    requires forall i :: 0 <= i < |ops| ==> !ops[i].StartSession?
    ensures Unstarted(trace, CallAll(script, trace, ops).trace)
    decreases |ops|
  {
    if ops != [] && Answer(script, trace).ok {
      CallAllExtends(script, Ask(script, trace, ops[0]), ops[1..]);
      AskUnstarted(script, trace, ops[0]);
      UnstartedThrough(trace, Ask(script, trace, ops[0]), CallAll(script, trace, ops).trace);
    }
  }

  lemma ConfigExtends(script: Script, trace: Trace, link: Link, cfg: Config)
    ensures Unstarted(trace, ApplyConfig(script, trace, link, cfg).trace)
  {
    hide ConfigCalls, CallAll, ConfigureAll;
    ConfigQuiet(cfg, link.ctx);
    CallAllExtends(script, trace, ConfigCalls(cfg, link.ctx));
    ConfigureIsCalling(script, trace, link, ConfigCalls(cfg, link.ctx));
  }

  lemma ConnectExtends(script: Script, trace: Trace, ctx: nat)
    ensures Unstarted(trace, Connect(script, trace, ctx).trace)
  {}

  lemma LoadExtends(script: Script, trace: Trace, ctx: nat, cfg: Config)
    ensures Unstarted(trace, LoadRoot(script, trace, ctx, cfg).trace)
  {
    hide AsymAlgoSubdir;
  }

  lemma InstallExtends(script: Script, trace: Trace, ctx: nat, cfg: Config)
    ensures Unstarted(trace, InstallPeerRoot(script, trace, ctx, cfg).trace)
  {
    hide AsymAlgoSubdir;
  }

  lemma FetchExtends(script: Script, trace: Trace, ctx: nat, slot: nat)
    ensures Unstarted(trace, FetchPeerCert(script, trace, ctx, slot).trace)
  {}

  lemma StopExtends(script: Script, trace: Trace, ctx: nat, s: Session)
    ensures Unstarted(trace, Stop(script, trace, ctx, s).trace)
  {}

  lemma OpenExtends(script: Script, trace: Trace, cfg: Config, ctx: nat, session: Option<Session>, slot: nat)
    ensures Greeted(trace, OpenAndGreet(script, trace, cfg, ctx, session, slot))
  {
    hide InstallPeerRoot, Start;
    var installed := InstallPeerRoot(script, trace, ctx, cfg);
    InstallExtends(script, trace, ctx, cfg);
    UnstartedGreeted(trace, installed.trace);
    if installed.value {
      StartExtends(script, installed.trace, ctx, if session.Some? then session.value else NO_SESSION, slot);
      GreetedThrough(trace, installed.trace, OpenAndGreet(script, trace, cfg, ctx, session, slot));
    }
  }

  lemma StartExtends(script: Script, trace: Trace, ctx: nat, s: Session, slot: nat)
    ensures var done := Start(script, trace, ctx, s, slot, false);
            Greeted(trace,
                    if done.value.1 then SendHeartbeat(script, done.trace, ctx, done.value.0).trace else done.trace)
  {
    hide FetchPeerCert;
    FetchExtends(script, trace, ctx, slot);
  }

  // ----- when calls succeed

  predicate Usable(reply: Reply) {
    reply.ok && 0 in reply.slots && IsAlgorithm(reply.algo) && reply.bytes != []
  }

  /** From position `from` on, every call succeeds with a usable reply. */
  ghost predicate SucceedsFrom(script: Script, from: nat) {
    forall n: nat :: from <= n ==> Usable(script(n))
  }

  /** What holds of every reply from a trace on. */
  lemma SucceedsNext(script: Script, trace: Trace, op: Op)
    requires SucceedsFrom(script, |trace|)
    ensures Usable(Answer(script, trace)) && SucceedsFrom(script, |Ask(script, trace, op)|)
    ensures |Ask(script, trace, op)| > 0
  {}

  lemma SucceedsLater(script: Script, trace: Trace, later: Trace)
    requires SucceedsFrom(script, |trace|) && trace <= later
    ensures SucceedsFrom(script, |later|)
  {}

  lemma {:induction false} CallAllSucceeds(script: Script, trace: Trace, ops: seq<Op>)
    requires SucceedsFrom(script, |trace|)
    ensures CallAll(script, trace, ops).value
    decreases |ops|
  {
    hide SucceedsFrom, Ask, Answer, AsymAlgoSubdir, IsAlgorithm;
    if ops != [] {
      SucceedsNext(script, trace, ops[0]);
      CallAllSucceeds(script, Ask(script, trace, ops[0]), ops[1..]);
    }
  }

  lemma UsableSubdir(reply: Reply)
    requires Usable(reply)
    ensures AsymAlgoSubdir(reply.algo).Some?
  {
    AlgorithmOfFolder(reply.algo);
  }

  lemma InitializeSucceeds(script: Script, trace: Trace, link: Link)
    requires SucceedsFrom(script, |trace|)
    ensures var done := Initialize(script, trace, link);
            done.value.1 && done.value.0.ctx != 0 && SucceedsFrom(script, |done.trace|)
  {
    hide SucceedsFrom, Unstarted, AskAll, SetUpCalls, Ask, Answer, IsAlgorithm;
    var t1 := if link.isOpen then trace else Ask(script, trace, OpenSocket);
    var t2 := Ask(script, t1, AllocContext);
    SucceedsNext(script, trace, OpenSocket);
    SucceedsNext(script, t1, AllocContext);
    SucceedsNext(script, t2, AllocScratch(|t2|));
    InitializeExtends(script, trace, link);
    SucceedsAfter(script, trace, Initialize(script, trace, link).trace);
  }

  lemma PrepareSucceeds(cfg: Config, script: Script, trace: Trace, link: Link)
    requires SucceedsFrom(script, |trace|)
    ensures var init := Initialize(script, trace, link);
            var ctx := init.value.0.ctx;
            var applied := ApplyConfig(script, init.trace, init.value.0, cfg);
            var connected := Connect(script, applied.trace, ctx);
            && init.value.1 && ctx != 0 && applied.value.1 && applied.value.0.ctx == ctx && connected.value
            && SucceedsFrom(script, |connected.trace|)
  {
    hide SucceedsFrom, Unstarted, ConfigCalls, CallAll, ConfigureAll, Ask, Answer, IsAlgorithm, Initialize;
    InitializeSucceeds(script, trace, link);
    var init := Initialize(script, trace, link);
    var ops := ConfigCalls(cfg, init.value.0.ctx);
    CallAllSucceeds(script, init.trace, ops);
    ConfigureIsCalling(script, init.trace, init.value.0, ops);
    ConfigExtends(script, init.trace, init.value.0, cfg);
    var applied := ApplyConfig(script, init.trace, init.value.0, cfg);
    SucceedsAfter(script, init.trace, applied.trace);
    SucceedsNext(script, applied.trace, InitConnection(init.value.0.ctx));
  }

  lemma SucceedsAfter(script: Script, trace: Trace, later: Trace)
    requires SucceedsFrom(script, |trace|) && Unstarted(trace, later)
    ensures SucceedsFrom(script, |later|)
  {}

  lemma InstallSucceeds(cfg: Config, script: Script, trace: Trace, ctx: nat)
    requires SucceedsFrom(script, |trace|) && ctx != 0
    ensures InstallPeerRoot(script, trace, ctx, cfg).value
  {
    hide SucceedsFrom, Ask, Answer, AsymAlgoSubdir, IsAlgorithm;
    SucceedsNext(script, trace, ReadFile([cfg.peerRootCertDerPath]));
    SucceedsNext(script, trace, GetAsymAlgo(ctx));
    UsableSubdir(Answer(script, trace));
    var t1 := Ask(script, trace, GetAsymAlgo(ctx));
    SucceedsNext(script, t1, OpenSocket);
    var root := LoadRoot(script, trace, ctx, cfg);
    if root.value.Some? {
      LoadExtends(script, trace, ctx, cfg);
      SucceedsAfter(script, trace, root.trace);
      SucceedsNext(script, root.trace, InstallRoot(ctx, root.value.value));
    }
  }

  lemma StartSucceeds(script: Script, trace: Trace, ctx: nat, s: Session)
    requires SucceedsFrom(script, |trace|) && ctx != 0
    ensures var done := Start(script, trace, ctx, s, 0, false);
            done.value.0.active && done.value.1
  {
    hide SucceedsFrom, Ask, Answer, AsymAlgoSubdir, IsAlgorithm;
    var t1 := Ask(script, trace, GetDigest(ctx));
    var t2 := Ask(script, t1, GetCertificate(ctx, 0));
    SucceedsNext(script, trace, GetDigest(ctx));
    SucceedsNext(script, t1, GetCertificate(ctx, 0));
    SucceedsNext(script, t2, StartSession(ctx, false, 0));
  }

  lemma OpenSucceeds(cfg: Config, script: Script, trace: Trace, ctx: nat, session: Option<Session>)
    requires SucceedsFrom(script, |trace|) && ctx != 0
    ensures var done := OpenSecure(script, trace, cfg, ctx, session, 0);
            IsActive(done.value.0) && done.value.1
  {
    hide SucceedsFrom, Unstarted, InstallPeerRoot, Start;
    InstallSucceeds(cfg, script, trace, ctx);
    InstallExtends(script, trace, ctx, cfg);
    var installed := InstallPeerRoot(script, trace, ctx, cfg);
    SucceedsAfter(script, trace, installed.trace);
    StartSucceeds(script, installed.trace, ctx, if session.Some? then session.value else NO_SESSION);
  }
}
