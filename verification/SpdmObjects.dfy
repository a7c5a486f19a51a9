/**
 * The objects of one device: its transport and its secure session. Their
 * methods are proved against the functions of `SessionSpec`.
 */
module SpdmObjects {
  import opened Bytes
  import opened SpdmCalls
  import opened SpdmAlgorithms
  import S = SessionSpec

  /** libspdm and the system, answering every call by a script. */
  class Libspdm {
    const script: Script
    var trace: Trace

    constructor (script: Script)
      ensures this.script == script && trace == []
    {
      this.script, trace := script, [];
    }

    method Call(op: Op) returns (reply: Reply)
      modifies this
      ensures trace == Ask(script, old(trace), op)
      ensures reply == Answer(script, old(trace))
    {
      reply := script(|trace|);
      trace := trace + [Record(op, reply)];
    }
  }

  lemma AskAllStep(script: Script, trace: Trace, ops: seq<Op>, k: nat)
    requires k < |ops|
    ensures S.AskAll(script, trace, ops[k..]) == S.AskAll(script, Ask(script, trace, ops[k]), ops[k + 1..])
  {
    assert ops[k..][1..] == ops[k + 1..];
  }

  lemma AskAllEnd(script: Script, trace: Trace, ops: seq<Op>)
    ensures S.AskAll(script, trace, ops[|ops|..]) == trace
  {}

  /** The calls that set up a context by position, behind an optional version call. */
  lemma SetUpOrder(ctx: nat, version: nat)
    ensures var ops, v := SetUpCalls(ctx, version), if version == 0 then 0 else 1;
            && |ops| == v + 4 && ops[0..] == ops
            && (v == 1 ==> ops[0] == SetData(ctx, SpdmVersion, version * 256))
            && ops[v] == SetData(ctx, CtExponent, 0)
            && ops[v + 1] == SetData(ctx, MeasurementSpec, 0x1)
            && ops[v + 2] == SetData(ctx, BaseAsymAlgo, 0x10 + 0x80 + 0x100)
            && ops[v + 3] == SetData(ctx, BaseHashAlgo, 0x1 + 0x2 + 0x4)
  {}

  class Transport {
    var spdmContext: nat  // 0 is the null pointer
    var hasScratchBuffer: bool
    var isSocketOpen: bool
    var useVersion: nat
    var useRequesterCapabilityFlags: nat

    constructor ()
      ensures Link() == S.NEW_LINK
    {
      spdmContext, hasScratchBuffer, isSocketOpen, useVersion, useRequesterCapabilityFlags := 0, false, false, 0x11, 0;
    }

    ghost function Link(): S.Link
      reads this
    {
      S.Link(spdmContext, hasScratchBuffer, isSocketOpen, useVersion, useRequesterCapabilityFlags)
    }

    method Initialize(lib: Libspdm) returns (ok: bool)
      modifies this, lib
      ensures S.Initialize(lib.script, old(lib.trace), old(Link())) == S.Done(lib.trace, (Link(), ok))
    {
      hide S.AskAll, SetUpCalls;
      ok := CreateSocket(lib);
      if !ok {
        return false;
      }
      ok := AllocateContext(lib);
      if !ok {
        return false;
      }
      ok := SetUpScratchBuffer(lib);
      if !ok {
        CleanupContext();
        return false;
      }
      ConfigureContext(lib);
      return true;
    }

    /** An open socket is used again; otherwise one is opened, if possible. */
    method CreateSocket(lib: Libspdm) returns (ok: bool)
      modifies this`isSocketOpen, lib
      ensures old(isSocketOpen) ==> ok && isSocketOpen && lib.trace == old(lib.trace)
      ensures !old(isSocketOpen) ==>
                && lib.trace == Ask(lib.script, old(lib.trace), OpenSocket)
                && ok == isSocketOpen == Answer(lib.script, old(lib.trace)).ok
    {
      if isSocketOpen {
        return true;
      }
      var reply := lib.Call(OpenSocket);
      isSocketOpen := reply.ok;
      return reply.ok;
    }

    method AllocateContext(lib: Libspdm) returns (ok: bool)
      modifies this`spdmContext, lib
      ensures lib.trace == Ask(lib.script, old(lib.trace), AllocContext)
      ensures ok == Answer(lib.script, old(lib.trace)).ok
      ensures spdmContext == if ok then |lib.trace| else 0
    {
      var reply := lib.Call(AllocContext);
      spdmContext := if reply.ok then |lib.trace| else 0;
      return reply.ok;
    }

    method SetUpScratchBuffer(lib: Libspdm) returns (ok: bool)
      modifies this`hasScratchBuffer, lib
      ensures lib.trace == Ask(lib.script, old(lib.trace), AllocScratch(spdmContext))
      ensures ok == hasScratchBuffer == Answer(lib.script, old(lib.trace)).ok
    {
      var reply := lib.Call(AllocScratch(spdmContext));
      hasScratchBuffer := reply.ok;
      return reply.ok;
    }

    /** The values a context starts with; nothing is made of the replies. */
    method ConfigureContext(lib: Libspdm)
      modifies lib
      ensures lib.trace == S.AskAll(lib.script, old(lib.trace), SetUpCalls(spdmContext, useVersion))
    {
      hide S.AskAll, SetUpCalls, Ask, Answer;
      ghost var ops, v := SetUpCalls(spdmContext, useVersion), if useVersion == 0 then 0 else 1;
      SetUpOrder(spdmContext, useVersion);
      if useVersion != 0 {
        AskAllStep(lib.script, lib.trace, ops, 0);
        var _ := lib.Call(SetData(spdmContext, SpdmVersion, useVersion * 256));
      }
      AskAllStep(lib.script, lib.trace, ops, v);
      var _ := lib.Call(SetData(spdmContext, CtExponent, 0));
      AskAllStep(lib.script, lib.trace, ops, v + 1);
      var _ := lib.Call(SetData(spdmContext, MeasurementSpec, 0x1));
      AskAllStep(lib.script, lib.trace, ops, v + 2);
      var _ := lib.Call(SetData(spdmContext, BaseAsymAlgo, 0x10 + 0x80 + 0x100));
      AskAllStep(lib.script, lib.trace, ops, v + 3);
      var _ := lib.Call(SetData(spdmContext, BaseHashAlgo, 0x1 + 0x2 + 0x4));
      AskAllEnd(lib.script, lib.trace, ops);
    }

    method CleanupContext()
      modifies this`hasScratchBuffer, this`spdmContext, this`isSocketOpen
      ensures spdmContext == 0 && !hasScratchBuffer && !isSocketOpen
    {
      if hasScratchBuffer {
        hasScratchBuffer := false;
      }
      if spdmContext != 0 {
        spdmContext := 0;
      }
      isSocketOpen := false;
    }
  }

  /** `ResponderInfo`; the transport may be missing. */
  datatype Device = Device(objectPath: string, name: string, transport: Transport?)

  // ----- spdm_session_config.cpp

  method SetDataAndCheck(lib: Libspdm, ctx: nat, key: Key, value: nat) returns (ok: bool)
    modifies lib
    ensures lib.trace == Ask(lib.script, old(lib.trace), SetData(ctx, key, value))
    ensures ok == Answer(lib.script, old(lib.trace)).ok
  {
    var reply := lib.Call(SetData(ctx, key, value));
    return reply.ok;
  }

  /** The calls still to make after the first `k` have succeeded. */
  lemma CallAllStep(script: Script, trace: Trace, ops: seq<Op>, k: nat)
    requires k < |ops|
    ensures S.CallAll(script, trace, ops[k..])
         == (if Answer(script, trace).ok then S.CallAll(script, Ask(script, trace, ops[k]), ops[k + 1..])
             else S.Done(Ask(script, trace, ops[k]), false))
  {
    assert ops[k..][1..] == ops[k + 1..];
  }

  lemma CallAllEnd(script: Script, trace: Trace, ops: seq<Op>)
    ensures S.CallAll(script, trace, ops[|ops|..]) == S.Done(trace, true)
    ensures ops[0..] == ops
  {}

  lemma AlgorithmOrder(cfg: Config, ctx: nat)
    ensures var ops := AlgorithmCalls(cfg, ctx);
            && |ops| == 6
            && ops[0] == SetData(ctx, DheNameGroup, cfg.dheGroup)
            && ops[1] == SetData(ctx, AeadCipherSuite, cfg.aeadCipher)
            && ops[2] == SetData(ctx, ReqBaseAsymAlg, cfg.reqAsymAlg)
            && ops[3] == SetData(ctx, SpdmCalls.KeySchedule, cfg.keySchedule)
            && ops[4] == SetData(ctx, SpdmCalls.OtherParamsSupport, cfg.otherParamsSupport)
            && ops[5] == CheckContext(ctx)
  {}

  /** The second half of `ApplySecureSessionConfig`, of which the transport keeps no note. */
  method ApplyAlgorithms(lib: Libspdm, ctx: nat, cfg: Config) returns (ok: bool)
    modifies lib
    ensures S.CallAll(lib.script, old(lib.trace), AlgorithmCalls(cfg, ctx)) == S.Done(lib.trace, ok)
  {
    hide S.CallAll, AlgorithmCalls, Ask, Answer;
    ghost var ops := AlgorithmCalls(cfg, ctx);
    AlgorithmOrder(cfg, ctx);
    CallAllEnd(lib.script, lib.trace, ops);
    CallAllStep(lib.script, lib.trace, ops, 0);
    ok := SetDataAndCheck(lib, ctx, DheNameGroup, cfg.dheGroup);
    if !ok { return false; }
    CallAllStep(lib.script, lib.trace, ops, 1);
    ok := SetDataAndCheck(lib, ctx, AeadCipherSuite, cfg.aeadCipher);
    if !ok { return false; }
    CallAllStep(lib.script, lib.trace, ops, 2);
    ok := SetDataAndCheck(lib, ctx, ReqBaseAsymAlg, cfg.reqAsymAlg);
    if !ok { return false; }
    CallAllStep(lib.script, lib.trace, ops, 3);
    ok := SetDataAndCheck(lib, ctx, SpdmCalls.KeySchedule, cfg.keySchedule);
    if !ok { return false; }
    CallAllStep(lib.script, lib.trace, ops, 4);
    ok := SetDataAndCheck(lib, ctx, SpdmCalls.OtherParamsSupport, cfg.otherParamsSupport);
    if !ok { return false; }
    CallAllStep(lib.script, lib.trace, ops, 5);
    var check := lib.Call(CheckContext(ctx));
    if !check.ok { return false; }
    CallAllEnd(lib.script, lib.trace, ops);
    return true;
  }

  /** Calls of which no note is taken leave the transport as it is. */
  lemma {:induction false} NothingNoted(script: Script, trace: Trace, link: S.Link, ops: seq<Op>)
    requires forall i :: 0 <= i < |ops| ==> S.Noted(link, ops[i]) == link
    ensures var calls := S.CallAll(script, trace, ops);
            S.ConfigureAll(script, trace, link, ops) == S.Done(calls.trace, (link, calls.value))
    decreases |ops|
  {
    hide S.Noted, Ask, Answer;
    if ops != [] && Answer(script, trace).ok {
      assert S.Noted(link, ops[0]) == link;
      NothingNoted(script, Ask(script, trace, ops[0]), link, ops[1..]);
    }
  }

  lemma AlgorithmsNotNoted(script: Script, trace: Trace, link: S.Link, cfg: Config, ctx: nat)
    ensures var ops := AlgorithmCalls(cfg, ctx);
            var calls := S.CallAll(script, trace, ops);
            S.ConfigureAll(script, trace, link, ops) == S.Done(calls.trace, (link, calls.value))
  {
    NothingNoted(script, trace, link, AlgorithmCalls(cfg, ctx));
  }

  lemma ConfigureFirst(script: Script, trace: Trace, link: S.Link, op: Op, ops: seq<Op>)
    ensures S.ConfigureAll(script, trace, link, [op] + ops)
         == (if Answer(script, trace).ok
             then S.ConfigureAll(script, Ask(script, trace, op), S.Noted(link, op), ops)
             else S.Done(Ask(script, trace, op), (link, false)))
  {
    assert ([op] + ops)[1..] == ops;
  }

  /** Configuring a transport: the version if there is one, the flags, then what no note is taken of. */
  lemma ApplySteps(script: Script, trace: Trace, link: S.Link, cfg: Config)
    ensures var ctx := link.ctx;
            var version := SetData(ctx, SpdmVersion, cfg.version * 256);
            var flags := SetData(ctx, CapabilityFlags, cfg.requesterCapFlags);
            var skip := cfg.version == 0;
            var t1 := if skip then trace else Ask(script, trace, version);
            var l1 := if skip then link else link.(version := cfg.version);
            var t2, l2 := Ask(script, t1, flags), l1.(flags := cfg.requesterCapFlags);
            var rest := S.CallAll(script, t2, AlgorithmCalls(cfg, ctx));
            S.ApplyConfig(script, trace, link, cfg)
            == if ctx == 0 then S.Done(trace, (link, false))
               else if !skip && !Answer(script, trace).ok then S.Done(t1, (link, false))
               else if !Answer(script, t1).ok then S.Done(t2, (l1, false))
               else S.Done(rest.trace, (l2, rest.value))
  {
    hide S.ConfigureAll, S.CallAll, AlgorithmCalls, Ask, Answer;
    var ctx := link.ctx;
    var version := SetData(ctx, SpdmVersion, cfg.version * 256);
    var flags := SetData(ctx, CapabilityFlags, cfg.requesterCapFlags);
    var t1, l1 := if cfg.version == 0 then trace else Ask(script, trace, version),
                  if cfg.version == 0 then link else link.(version := cfg.version);
    var rest := AlgorithmCalls(cfg, ctx);
    ConfigureFirst(script, trace, link, version, [flags] + rest);
    ConfigureFirst(script, t1, l1, flags, rest);
    AlgorithmsNotNoted(script, Ask(script, t1, flags), l1.(flags := cfg.requesterCapFlags), cfg, ctx);
    Reassociate([version], [flags], rest);
    assert [] + [flags] == [flags];
  }

  /** The transport after a configuration: what succeeded is noted, and nothing else changes. */
  lemma ConfiguredLink(script: Script, trace: Trace, link: S.Link, cfg: Config)
    ensures var (after, ok) := S.ApplyConfig(script, trace, link, cfg).value;
            && after.ctx == link.ctx && after.scratch == link.scratch && after.isOpen == link.isOpen
            && (after.version == link.version || (cfg.version != 0 && after.version == cfg.version))
            && (ok ==>
                  && after.version == (if cfg.version == 0 then link.version else cfg.version)
                  && after.flags == cfg.requesterCapFlags)
  {
    hide S.ApplyConfig, S.CallAll, AlgorithmCalls, Ask, Answer;
    ApplySteps(script, trace, link, cfg);
  }

  method ApplyVersionConfig(lib: Libspdm, ctx: nat, transport: Transport, version: nat) returns (ok: bool)
    modifies lib, transport`useVersion
    ensures version == 0 ==> ok && lib.trace == old(lib.trace) && transport.Link() == old(transport.Link())
    ensures version != 0 ==>
              && lib.trace == Ask(lib.script, old(lib.trace), SetData(ctx, SpdmVersion, version * 256))
              && ok == Answer(lib.script, old(lib.trace)).ok
              && transport.Link() == (if ok then old(transport.Link()).(version := version) else old(transport.Link()))
  {
    if version == 0 {
      return true;
    }
    var reply := lib.Call(SetData(ctx, SpdmVersion, version * 256));
    if !reply.ok {
      return false;
    }
    transport.useVersion := version;
    return true;
  }

  method ApplySecureSessionConfig(lib: Libspdm, transport: Transport, cfg: Config) returns (ok: bool)
    modifies lib, transport`useVersion, transport`useRequesterCapabilityFlags
    ensures S.ApplyConfig(lib.script, old(lib.trace), old(transport.Link()), cfg)
         == S.Done(lib.trace, (transport.Link(), ok))
  {
    hide S.ApplyConfig, S.CallAll, AlgorithmCalls, Ask, Answer;
    ApplySteps(lib.script, lib.trace, transport.Link(), cfg);
    var ctx := transport.spdmContext;
    if ctx == 0 {
      return false;
    }
    ok := ApplyVersionConfig(lib, ctx, transport, cfg.version);
    if !ok {
      return false;
    }
    ok := SetDataAndCheck(lib, ctx, CapabilityFlags, cfg.requesterCapFlags);
    if !ok {
      return false;
    }
    transport.useRequesterCapabilityFlags := cfg.requesterCapFlags;
    ok := ApplyAlgorithms(lib, ctx, cfg);
  }

  method LoadCertFromFile(lib: Libspdm, path: seq<string>) returns (data: Option<seq<byte>>)
    modifies lib
    ensures S.LoadFile(lib.script, old(lib.trace), path) == S.Done(lib.trace, data)
  {
    var reply := lib.Call(ReadFile(path));
    return if reply.bytes == [] then None else Some(reply.bytes);
  }

  method LoadPeerRootCert(lib: Libspdm, ctx: nat, cfg: Config) returns (cert: Option<seq<byte>>)
    modifies lib
    ensures S.LoadRoot(lib.script, old(lib.trace), ctx, cfg) == S.Done(lib.trace, cert)
  {
    if cfg.peerRootCertDer != [] {
      return Some(cfg.peerRootCertDer);
    }
    if cfg.peerRootCertDerPath != "" {
      cert := LoadCertFromFile(lib, [cfg.peerRootCertDerPath]);
      return;
    }
    if cfg.peerRootCertBaseDir != "" {
      var reply := lib.Call(GetAsymAlgo(ctx));
      var subdir := AsymAlgoSubdir(if reply.ok then reply.algo else 0);
      if subdir.None? {
        return None;
      }
      cert := LoadCertFromFile(lib, [cfg.peerRootCertBaseDir, subdir.value, cfg.peerRootCertFileName]);
      return;
    }
    return None;
  }

  method InstallPeerRootCert(lib: Libspdm, transport: Transport, cfg: Config) returns (ok: bool)
    modifies lib
    ensures S.InstallPeerRoot(lib.script, old(lib.trace), transport.spdmContext, cfg) == S.Done(lib.trace, ok)
  {
    hide S.LoadRoot;
    var ctx := transport.spdmContext;
    if ctx == 0 {
      return false;
    }
    var certResult := LoadPeerRootCert(lib, ctx, cfg);
    if certResult.None? {
      var configAttempted :=
        cfg.peerRootCertDer != [] || cfg.peerRootCertDerPath != "" || cfg.peerRootCertBaseDir != "";
      if configAttempted {
        return false;
      }
      return true;
    }
    var reply := lib.Call(InstallRoot(ctx, certResult.value));
    return reply.ok;
  }

  // ----- spdm_session.cpp

  method FetchPeerCert(lib: Libspdm, ctx: nat, slotId: nat) returns (ok: bool)
    modifies lib
    ensures S.FetchPeerCert(lib.script, old(lib.trace), ctx, slotId) == S.Done(lib.trace, ok)
  {
    var digest := lib.Call(GetDigest(ctx));
    if !digest.ok {
      return false;
    }
    if slotId !in digest.slots {
      return false;
    }
    var certificate := lib.Call(GetCertificate(ctx, slotId));
    return certificate.ok;
  }

  class SpdmSession {
    const transport: Transport
    var id: nat
    var hbPeriod: nat
    var isActive: bool

    constructor (transport: Transport)
      ensures this.transport == transport && State() == S.NO_SESSION
    {
      this.transport := transport;
      id, hbPeriod, isActive := 0, 0, false;
    }

    ghost function State(): S.Session
      reads this
    {
      S.Session(isActive, id, hbPeriod)
    }

    method Start(lib: Libspdm, slotId: nat, usePsk: bool) returns (ok: bool)
      modifies this, lib
      ensures S.Start(lib.script, old(lib.trace), transport.spdmContext, old(State()), slotId, usePsk)
           == S.Done(lib.trace, (State(), ok))
    {
      hide S.FetchPeerCert;
      var ctx := transport.spdmContext;
      if ctx == 0 {
        return false;
      }
      if isActive {
        return true;
      }
      if !usePsk {
        ok := FetchPeerCert(lib, ctx, slotId);
        if !ok {
          return false;
        }
      }
      hbPeriod := 0;
      var reply := lib.Call(StartSession(ctx, usePsk, slotId));
      if !reply.ok {
        return false;
      }
      id, hbPeriod := reply.id, reply.period;
      isActive := true;
      return true;
    }

    method Stop(lib: Libspdm) returns (ok: bool)
      modifies this, lib
      ensures S.Stop(lib.script, old(lib.trace), transport.spdmContext, old(State()))
        == S.Done(lib.trace, (State(), ok))
    {
      if !isActive {
        return true;
      }
      var reply := lib.Call(StopSession(transport.spdmContext, id));
      isActive := false;
      return reply.ok;
    }

    /** The destructor. */
    method Destroy(lib: Libspdm)
      modifies this, lib
      ensures var done := S.Stop(lib.script, old(lib.trace), transport.spdmContext, old(State()));
              lib.trace == done.trace && State() == done.value.0
    {
      if isActive {
        var _ := Stop(lib);
      }
    }

    method Heartbeat(lib: Libspdm) returns (ok: bool)
      modifies lib
      ensures S.SendHeartbeat(lib.script, old(lib.trace), transport.spdmContext, State()) == S.Done(lib.trace, ok)
    {
      if !isActive {
        return false;
      }
      var reply := lib.Call(SpdmCalls.Heartbeat(transport.spdmContext, id));
      return reply.ok;
    }

    /** A key update is sent to the session's own context, and only while it is active. */
    method KeyUpdate(lib: Libspdm) returns (ok: bool)
      modifies lib
      ensures !isActive ==> !ok && lib.trace == old(lib.trace)
      ensures isActive ==>
                && lib.trace == Ask(lib.script, old(lib.trace), SpdmCalls.KeyUpdate(transport.spdmContext, id))
                && ok == Answer(lib.script, old(lib.trace)).ok
    {
      if !isActive {
        return false;
      }
      var reply := lib.Call(SpdmCalls.KeyUpdate(transport.spdmContext, id));
      return reply.ok;
    }
  }
}
