/**
 * The device calls of the requester, a trace of them, and which traces are
 * legal. Every call is answered by a script, so a statement about all
 * scripts is a statement about all behaviours of the devices.
 */
module SpdmCalls {
  import opened Bytes
  import opened SpdmAlgorithms

  // ----- configuration

  /** `SecureSessionConfig`. */
  datatype Config = Config(
    version: nat, requesterCapFlags: nat, dheGroup: nat, aeadCipher: nat, reqAsymAlg: nat,
    keySchedule: nat, otherParamsSupport: nat,
    peerRootCertDer: seq<byte>, peerRootCertDerPath: string,
    peerRootCertBaseDir: string, peerRootCertFileName: string)

  predicate NamesAnchor(cfg: Config) {
    cfg.peerRootCertDer != [] || cfg.peerRootCertDerPath != "" || cfg.peerRootCertBaseDir != ""
  }

  // ----- calls

  datatype Key = SpdmVersion | CapabilityFlags | DheNameGroup | AeadCipherSuite | ReqBaseAsymAlg
               | KeySchedule | OtherParamsSupport
               | CtExponent | MeasurementSpec | BaseAsymAlgo | BaseHashAlgo

  /**
   * A call outside the requester's own code. A context is named by the
   * position, counted from one, of the allocation that made it; 0 is null.
   */
  datatype Op =
    | OpenSocket
    | AllocContext
    | AllocScratch(ctx: nat)
    | SetData(ctx: nat, key: Key, value: nat)
    | CheckContext(ctx: nat)
    | InitConnection(ctx: nat)
    | GetAsymAlgo(ctx: nat)
    | ReadFile(path: seq<string>)
    | InstallRoot(ctx: nat, cert: seq<byte>)
    | GetDigest(ctx: nat)
    | GetCertificate(ctx: nat, slot: nat)
    | GetMeasurement(ctx: nat, operation: nat, slot: nat)
    | StartSession(ctx: nat, usePsk: bool, slot: nat)
    | StopSession(ctx: nat, id: nat)
    | Heartbeat(ctx: nat, id: nat)
    | KeyUpdate(ctx: nat, id: nat)

  /** The slots named by an 8-bit mask. */
  type Slots = s: set<nat> | forall k :: k in s ==> k < 8

  const BUFFER_SIZE := 4096

  /** What the library copies into a 4096-byte measurement buffer. */
  type Content = s: seq<byte> | |s| <= BUFFER_SIZE

  /**
   * A reply: of a digest request the slots, of a session start its identifier
   * and heartbeat period, of a measurement its content and number of blocks,
   * of a certificate request the chain with the size of the negotiated hash.
   */
  datatype Reply = Reply(
    ok: bool, slots: Slots, id: nat, period: nat, algo: nat, bytes: seq<byte>,
    hashSize: nat, content: Content, blocks: nat)

  type Script = nat -> Reply

  datatype Record = Record(op: Op, reply: Reply)

  type Trace = seq<Record>

  /** The trace after one more call. */
  function Ask(script: Script, trace: Trace, op: Op): Trace {
    trace + [Record(op, script(|trace|))]
  }

  /** The reply to the call that would be made next. */
  function Answer(script: Script, trace: Trace): Reply {
    script(|trace|)
  }

  /** The calls that set up a new context, in order; their replies are ignored. */
  function SetUpCalls(ctx: nat, version: nat): seq<Op> {
    (if version == 0 then [] else [SetData(ctx, SpdmVersion, version * 256)])
    + [SetData(ctx, CtExponent, 0),
       SetData(ctx, MeasurementSpec, 0x1),
       SetData(ctx, BaseAsymAlgo, 0x10 + 0x80 + 0x100),
       SetData(ctx, BaseHashAlgo, 0x1 + 0x2 + 0x4)]
  }

  /** The calls that set the algorithms of a context and check it, in order. */
  function AlgorithmCalls(cfg: Config, ctx: nat): seq<Op> {
    [SetData(ctx, DheNameGroup, cfg.dheGroup),
     SetData(ctx, AeadCipherSuite, cfg.aeadCipher),
     SetData(ctx, ReqBaseAsymAlg, cfg.reqAsymAlg),
     SetData(ctx, KeySchedule, cfg.keySchedule),
     SetData(ctx, OtherParamsSupport, cfg.otherParamsSupport),
     CheckContext(ctx)]
  }

  /** The calls that configure a context, in order. */
  function ConfigCalls(cfg: Config, ctx: nat): seq<Op> {
    (if cfg.version == 0 then [] else [SetData(ctx, SpdmVersion, cfg.version * 256)])
    + [SetData(ctx, CapabilityFlags, cfg.requesterCapFlags)]
    + AlgorithmCalls(cfg, ctx)
  }

  // ----- what the calls set

  /** What a configuration says for a key; the version only when there is one, as its major and minor number. */
  function Setting(cfg: Config, key: Key): Option<nat> {
    match key
    case SpdmVersion => if cfg.version == 0 then None else Some(cfg.version * 0x100)
    case CapabilityFlags => Some(cfg.requesterCapFlags)
    case DheNameGroup => Some(cfg.dheGroup)
    case AeadCipherSuite => Some(cfg.aeadCipher)
    case ReqBaseAsymAlg => Some(cfg.reqAsymAlg)
    case KeySchedule => Some(cfg.keySchedule)
    case OtherParamsSupport => Some(cfg.otherParamsSupport)
    case _ => None
  }

  /** What a transport says for a key: the DMTF measurements, and the curves and hashes it supports. */
  function Default(version: nat, key: Key): Option<nat> {
    match key
    case SpdmVersion => if version == 0 then None else Some(version * 0x100)
    case CtExponent => Some(0)
    case MeasurementSpec => Some(Power2(0))
    case BaseAsymAlgo => Some(AsymMask(EcdsaP256) + AsymMask(EcdsaP384) + AsymMask(EcdsaP521))
    case BaseHashAlgo => Some(HashMask(Sha256) + HashMask(Sha384) + HashMask(Sha512))
    case _ => None
  }

  /** What calls on a context set a key to last, if they do. */
  function LastSet(ops: seq<Op>, ctx: nat, key: Key): Option<nat> {
    if ops == [] then None
    else
      var last := ops[|ops| - 1];
      if last.SetData? && last.ctx == ctx && last.key == key then Some(last.value)
      else LastSet(ops[..|ops| - 1], ctx, key)
  }

  lemma LastSetMore(ops: seq<Op>, op: Op, ctx: nat, key: Key)
    ensures LastSet(ops + [op], ctx, key)
         == if op.SetData? && op.ctx == ctx && op.key == key then Some(op.value) else LastSet(ops, ctx, key)
  {
    assert (ops + [op])[..|ops|] == ops;
  }

  lemma LastSetNone(ctx: nat, key: Key)
    ensures LastSet([], ctx, key) == None
  {}

  /** The configuration calls set every key to what the configuration says for it, and check the context last. */
  lemma ConfigSets(cfg: Config, ctx: nat, key: Key)
    ensures LastSet(ConfigCalls(cfg, ctx), ctx, key) == Setting(cfg, key)
    ensures ConfigCalls(cfg, ctx)[|ConfigCalls(cfg, ctx)| - 1] == CheckContext(ctx)
  {
    hide LastSet;
    var o1 := if cfg.version == 0 then [] else [SetData(ctx, SpdmVersion, cfg.version * 256)];
    var o2 := o1 + [SetData(ctx, CapabilityFlags, cfg.requesterCapFlags)];
    var o3 := o2 + [SetData(ctx, DheNameGroup, cfg.dheGroup)];
    var o4 := o3 + [SetData(ctx, AeadCipherSuite, cfg.aeadCipher)];
    var o5 := o4 + [SetData(ctx, ReqBaseAsymAlg, cfg.reqAsymAlg)];
    var o6 := o5 + [SetData(ctx, KeySchedule, cfg.keySchedule)];
    var o7 := o6 + [SetData(ctx, OtherParamsSupport, cfg.otherParamsSupport)];
    LastSetNone(ctx, key);
    LastSetMore([], SetData(ctx, SpdmVersion, cfg.version * 256), ctx, key);
    LastSetMore(o1, SetData(ctx, CapabilityFlags, cfg.requesterCapFlags), ctx, key);
    LastSetMore(o2, SetData(ctx, DheNameGroup, cfg.dheGroup), ctx, key);
    LastSetMore(o3, SetData(ctx, AeadCipherSuite, cfg.aeadCipher), ctx, key);
    LastSetMore(o4, SetData(ctx, ReqBaseAsymAlg, cfg.reqAsymAlg), ctx, key);
    LastSetMore(o5, SetData(ctx, KeySchedule, cfg.keySchedule), ctx, key);
    LastSetMore(o6, SetData(ctx, OtherParamsSupport, cfg.otherParamsSupport), ctx, key);
    LastSetMore(o7, CheckContext(ctx), ctx, key);
    assert [] + [SetData(ctx, SpdmVersion, cfg.version * 256)] == [SetData(ctx, SpdmVersion, cfg.version * 256)];
    assert ConfigCalls(cfg, ctx) == o7 + [CheckContext(ctx)];
  }

  /** The set-up calls set every key to what the transport says for it. */
  lemma SetUpSets(version: nat, ctx: nat, key: Key)
    ensures LastSet(SetUpCalls(ctx, version), ctx, key) == Default(version, key)
  {
    hide LastSet, AsymMask, HashMask;
    Masks();
    var o1 := if version == 0 then [] else [SetData(ctx, SpdmVersion, version * 256)];
    var o2 := o1 + [SetData(ctx, CtExponent, 0)];
    var o3 := o2 + [SetData(ctx, MeasurementSpec, 0x1)];
    var o4 := o3 + [SetData(ctx, BaseAsymAlgo, 0x10 + 0x80 + 0x100)];
    LastSetNone(ctx, key);
    LastSetMore([], SetData(ctx, SpdmVersion, version * 256), ctx, key);
    LastSetMore(o1, SetData(ctx, CtExponent, 0), ctx, key);
    LastSetMore(o2, SetData(ctx, MeasurementSpec, 0x1), ctx, key);
    LastSetMore(o3, SetData(ctx, BaseAsymAlgo, 0x10 + 0x80 + 0x100), ctx, key);
    LastSetMore(o4, SetData(ctx, BaseHashAlgo, 0x1 + 0x2 + 0x4), ctx, key);
    assert [] + [SetData(ctx, SpdmVersion, version * 256)] == [SetData(ctx, SpdmVersion, version * 256)];
    assert SetUpCalls(ctx, version) == o4 + [SetData(ctx, BaseHashAlgo, 0x1 + 0x2 + 0x4)];
  }

  // ----- what a trace says

  /** Call number `i` was `op` and succeeded. */
  predicate Did(trace: Trace, i: int, op: Op) {
    0 <= i < |trace| && trace[i].op == op && trace[i].reply.ok
  }

  /** Where the calls that set up a context end; the version is set only if there is one. */
  function SetUpEnd(trace: Trace, ctx: nat): nat {
    if ctx + 1 < |trace| && trace[ctx + 1].op.SetData? && trace[ctx + 1].op.key == SpdmVersion then ctx + 6 else ctx + 5
  }

  /**
   * The context was initialised, then configured call by call, then connected:
   * all of it successful and in this order.
   */
  predicate Ready(cfg: Config, trace: Trace, ctx: nat) {
    var from := SetUpEnd(trace, ctx);
    && Did(trace, ctx - 1, AllocContext)
    && Did(trace, ctx, AllocScratch(ctx))
    && (forall m :: 0 <= m < |ConfigCalls(cfg, ctx)| ==> Did(trace, from + m, ConfigCalls(cfg, ctx)[m]))
    && Did(trace, from + |ConfigCalls(cfg, ctx)|, InitConnection(ctx))
  }

  /** The calls directly before number `i` loaded `cert` from the first non-empty trust anchor source. */
  predicate LoadedBefore(cfg: Config, trace: Trace, i: int, ctx: nat, cert: seq<byte>) {
    if cfg.peerRootCertDer != [] then cert == cfg.peerRootCertDer
    else if cfg.peerRootCertDerPath != "" then
      ReadAt(trace, i - 1, [cfg.peerRootCertDerPath], cert)
    else
      && Did(trace, i - 2, GetAsymAlgo(ctx))
      && exists a: AsymAlgorithm ::
           && AsymMask(a) == trace[i - 2].reply.algo
           && ReadAt(trace, i - 1, [cfg.peerRootCertBaseDir, Folder(a), cfg.peerRootCertFileName], cert)
  }

  /** Call number `i` read a non-empty file. */
  predicate ReadAt(trace: Trace, i: int, path: seq<string>, data: seq<byte>) {
    0 <= i < |trace| && trace[i].op == ReadFile(path) && trace[i].reply.bytes == data && data != []
  }

  /** Call number `i` installed the first non-empty trust anchor source on the context. */
  predicate AnchoredAt(cfg: Config, trace: Trace, i: int, ctx: nat) {
    && 0 <= i < |trace|
    && trace[i].reply.ok
    && trace[i].op.InstallRoot? && trace[i].op.ctx == ctx
    && LoadedBefore(cfg, trace, i, ctx, trace[i].op.cert)
  }

  /** Calls number `i` and `i + 1` found a certificate in the slot and fetched it. */
  predicate CertifiedAt(trace: Trace, i: int, ctx: nat, slot: nat) {
    && Did(trace, i, GetDigest(ctx))
    && slot in trace[i].reply.slots
    && Did(trace, i + 1, GetCertificate(ctx, slot))
  }

  /** Three calls in a row connected, asked for the digests and fetched the slot's certificate. */
  predicate RequestedAt(trace: Trace, k: int, ctx: nat, slot: nat) {
    && Did(trace, k, InitConnection(ctx))
    && Did(trace, k + 1, GetDigest(ctx))
    && Did(trace, k + 2, GetCertificate(ctx, slot))
  }

  /** The call was a measurement of that context and slot, and was answered. */
  predicate Measured(r: Record, ctx: nat, slot: nat) {
    r.op.GetMeasurement? && r.op.ctx == ctx && r.op.slot == slot && r.reply.ok
  }

  /** The trace ends inside a measurement request: those three calls, and answered measurements since. */
  predicate InRequest(trace: Trace, ctx: nat, slot: nat) {
    || RequestedAt(trace, |trace| - 3, ctx, slot)
    || (trace != [] && Measured(trace[|trace| - 1], ctx, slot) && InRequest(trace[..|trace| - 1], ctx, slot))
  }

  /** What a session is known by, and how often it wants a heartbeat. */
  datatype Opened = Opened(id: nat, period: nat)

  /** The sessions that are open after a trace, by context. */
  function Open(trace: Trace): map<nat, Opened> {
    if trace == [] then map[]
    else
      var before, last := Open(trace[..|trace| - 1]), trace[|trace| - 1];
      match last.op
      case StartSession(ctx, _, _) =>
        if last.reply.ok then before[ctx := Opened(last.reply.id, last.reply.period)] else before
      case StopSession(ctx, _) => before - {ctx}
      case _ => before
  }

  /** Whether a call may follow a trace. */
  predicate Allowed(cfg: Config, trace: Trace, op: Op) {
    match op
    case StartSession(ctx, usePsk, slot) =>
      var start := if usePsk then |trace| else |trace| - 2;
      && ctx !in Open(trace)
      && Ready(cfg, trace, ctx)
      && (!usePsk ==> CertifiedAt(trace, start, ctx, slot))
      && (NamesAnchor(cfg) ==> AnchoredAt(cfg, trace, start - 1, ctx))
    case StopSession(ctx, id) => ctx in Open(trace) && Open(trace)[ctx].id == id
    case Heartbeat(ctx, id) => ctx in Open(trace) && Open(trace)[ctx].id == id
    case KeyUpdate(ctx, id) => ctx in Open(trace) && Open(trace)[ctx].id == id
    case GetMeasurement(ctx, _, slot) => Ready(cfg, trace, ctx) && InRequest(trace, ctx, slot)
    case _ => true
  }

  /** A trace in which every call was allowed when it was made. */
  predicate Legal(cfg: Config, trace: Trace) {
    trace == [] || (Legal(cfg, trace[..|trace| - 1]) && Allowed(cfg, trace[..|trace| - 1], trace[|trace| - 1].op))
  }

  function Starts(trace: Trace): nat {
    if trace == [] then 0
    else Starts(trace[..|trace| - 1])
         + (if trace[|trace| - 1].op.StartSession? && trace[|trace| - 1].reply.ok then 1 else 0)
  }

  function Stops(trace: Trace): nat {
    if trace == [] then 0
    else Stops(trace[..|trace| - 1]) + (if trace[|trace| - 1].op.StopSession? then 1 else 0)
  }

  predicate StartsOn(r: Record, ctx: nat) {
    r.op.StartSession? && r.op.ctx == ctx && r.reply.ok
  }

  predicate StopsOn(r: Record, ctx: nat) {
    r.op.StopSession? && r.op.ctx == ctx
  }

  // ----- appending

  lemma AskSteps(script: Script, trace: Trace, op: Op)
    ensures var after := Ask(script, trace, op);
            && |after| == |trace| + 1 && after[..|trace|] == trace && trace <= after
            && after[|trace|] == Record(op, Answer(script, trace))
  {}

  /** A call that neither starts, stops nor uses a session, nor asks for a measurement. */
  predicate Quiet(op: Op) {
    !op.StartSession? && !op.StopSession? && !op.Heartbeat? && !op.KeyUpdate? && !op.GetMeasurement?
  }

  /** Quiet, or a measurement asked of a ready context inside a request. */
  predicate Harmless(cfg: Config, trace: Trace, op: Op) {
    Quiet(op) || (op.GetMeasurement? && Ready(cfg, trace, op.ctx) && InRequest(trace, op.ctx, op.slot))
  }

  /** A harmless call keeps legality and the open sessions. */
  lemma HarmlessAsk(cfg: Config, script: Script, trace: Trace, op: Op)
    requires Harmless(cfg, trace, op) && Legal(cfg, trace)
    ensures var after := Ask(script, trace, op);
            Legal(cfg, after) && Open(after) == Open(trace) && trace <= after && |after| == |trace| + 1
  {
    hide Allowed, Ready, InRequest;
    AskSteps(script, trace, op);
    HarmlessAllowed(cfg, trace, op);
  }

  lemma HarmlessAllowed(cfg: Config, trace: Trace, op: Op)
    requires Harmless(cfg, trace, op)
    ensures Allowed(cfg, trace, op)
  {
    hide Ready, InRequest;
  }

  lemma ReadyContext(cfg: Config, trace: Trace, ctx: nat)
    requires Ready(cfg, trace, ctx)
    ensures ctx != 0
  {
    hide ConfigCalls;
  }

  lemma ReadyLater(cfg: Config, trace: Trace, later: Trace, ctx: nat)
    requires trace <= later && Ready(cfg, trace, ctx)
    ensures Ready(cfg, later, ctx)
  {
    hide ConfigCalls;
  }

  lemma LoadedLater(cfg: Config, trace: Trace, later: Trace, i: int, ctx: nat, cert: seq<byte>)
    requires i <= |trace| && trace <= later
    requires LoadedBefore(cfg, trace, i, ctx, cert)
    ensures LoadedBefore(cfg, later, i, ctx, cert)
  {
    hide AsymMask, Folder;
  }

  lemma AnchoredLater(cfg: Config, trace: Trace, later: Trace, i: int, ctx: nat)
    requires trace <= later && AnchoredAt(cfg, trace, i, ctx)
    ensures AnchoredAt(cfg, later, i, ctx)
  {
    hide LoadedBefore;
    LoadedLater(cfg, trace, later, i, ctx, trace[i].op.cert);
  }

  // ----- consequences of legality, for every position of a trace

  lemma {:induction false} LegalPrefix(cfg: Config, trace: Trace, n: nat)
    requires Legal(cfg, trace) && n <= |trace|
    ensures Legal(cfg, trace[..n])
    decreases |trace|
  {
    hide Allowed;
    if n < |trace| {
      LegalPrefix(cfg, trace[..|trace| - 1], n);
      assert trace[..|trace| - 1][..n] == trace[..n];
    } else {
      assert trace[..n] == trace;
    }
  }

  /**
   * Every session start in a legal trace comes after the context was
   * initialised, configured and connected in this order, directly after the
   * slot's certificate was found and fetched, and directly after the
   * configured trust anchor was installed, and no session is open on it.
   */
  lemma StartIsPrepared(cfg: Config, trace: Trace, i: nat)
    requires Legal(cfg, trace) && i < |trace| && trace[i].op.StartSession?
    ensures var ctx, slot := trace[i].op.ctx, trace[i].op.slot;
            && Ready(cfg, trace[..i], ctx)
            && ctx !in Open(trace[..i])
            && var start := if trace[i].op.usePsk then i else i - 2;
               && (!trace[i].op.usePsk ==> CertifiedAt(trace[..i], start, ctx, slot))
               && (NamesAnchor(cfg) ==> AnchoredAt(cfg, trace[..i], start - 1, ctx))
  {
    hide Ready, AnchoredAt, CertifiedAt, Open;
    LegalPrefix(cfg, trace, i + 1);
    assert trace[..i + 1][..i] == trace[..i];
  }

  /** An open session was started on its context under its identifier and with its period, and not stopped since. */
  lemma {:induction false} OpenSince(trace: Trace, ctx: nat) returns (j: nat)
    requires ctx in Open(trace)
    ensures j < |trace| && StartsOn(trace[j], ctx)
    ensures Opened(trace[j].reply.id, trace[j].reply.period) == Open(trace)[ctx]
    ensures forall k :: j < k < |trace| ==> !StartsOn(trace[k], ctx) && !StopsOn(trace[k], ctx)
    decreases |trace|
  {
    var last := trace[|trace| - 1];
    if StartsOn(last, ctx) {
      j := |trace| - 1;
    } else {
      j := OpenSince(trace[..|trace| - 1], ctx);
    }
  }

  /** Where the request began inside which a trace ends. */
  lemma RequestStart(trace: Trace, ctx: nat, slot: nat) returns (k: nat)
    requires InRequest(trace, ctx, slot)
    ensures k + 3 <= |trace| && RequestedAt(trace, k, ctx, slot)
    ensures forall m :: k + 3 <= m < |trace| ==> Measured(trace[m], ctx, slot)
    decreases |trace|
  {
    if RequestedAt(trace, |trace| - 3, ctx, slot) {
      k := |trace| - 3;
    } else {
      k := RequestStart(trace[..|trace| - 1], ctx, slot);
    }
  }

  /**
   * Every measurement is asked of a context that was initialised, configured
   * and connected before, and within a request for it: that began by
   * connecting again, asking for the digests and fetching the same slot's
   * certificate, and has only measured since, with every call answered.
   */
  lemma MeasurementIsPrepared(cfg: Config, trace: Trace, i: nat) returns (k: nat)
    requires Legal(cfg, trace) && i < |trace| && trace[i].op.GetMeasurement?
    ensures var ctx, slot := trace[i].op.ctx, trace[i].op.slot;
            && Ready(cfg, trace[..i], ctx)
            && k + 3 <= i && RequestedAt(trace, k, ctx, slot)
            && forall m :: k + 3 <= m < i ==> Measured(trace[m], ctx, slot)
  {
    hide Ready, AnchoredAt, CertifiedAt, Open, InRequest, Measured;
    LegalPrefix(cfg, trace, i + 1);
    assert trace[..i + 1][..i] == trace[..i];
    k := RequestStart(trace[..i], trace[i].op.ctx, trace[i].op.slot);
    forall m | k + 3 <= m < i ensures Measured(trace[m], trace[i].op.ctx, trace[i].op.slot) {
      assert trace[..i][m] == trace[m];
    }
  }

  predicate UsesSession(op: Op) {
    op.StopSession? || op.Heartbeat? || op.KeyUpdate?
  }

  /** Every stop, heartbeat and key update goes to the context its session was started on and is still open on. */
  lemma UseIsFaithful(cfg: Config, trace: Trace, i: nat) returns (j: nat)
    requires Legal(cfg, trace) && i < |trace| && UsesSession(trace[i].op)
    ensures j < i && StartsOn(trace[j], trace[i].op.ctx) && trace[j].reply.id == trace[i].op.id
    ensures forall k :: j < k < i ==> !StartsOn(trace[k], trace[i].op.ctx) && !StopsOn(trace[k], trace[i].op.ctx)
  {
    hide Open, Ready, AnchoredAt, CertifiedAt;
    LegalPrefix(cfg, trace, i + 1);
    assert trace[..i + 1][..i] == trace[..i];
    j := OpenSince(trace[..i], trace[i].op.ctx);
    forall k | j < k < i
      ensures !StartsOn(trace[k], trace[i].op.ctx) && !StopsOn(trace[k], trace[i].op.ctx)
    {
      assert trace[..i][k] == trace[k];
    }
  }

  /** Successful starts minus stop requests is the number of open sessions. */
  lemma {:induction false} Conservation(cfg: Config, trace: Trace)
    requires Legal(cfg, trace)
    ensures Starts(trace) == Stops(trace) + |Open(trace)|
    decreases |trace|
  {
    hide Ready, AnchoredAt, CertifiedAt;
    if trace != [] {
      var init, last := trace[..|trace| - 1], trace[|trace| - 1];
      Conservation(cfg, init);
      match last.op
      case StartSession(ctx, _, _) =>
        MapGrows(Open(init), ctx, Opened(last.reply.id, last.reply.period));
      case StopSession(ctx, _) =>
        MapShrinks(Open(init), ctx);
      case _ =>
    }
  }

  lemma MapGrows(m: map<nat, Opened>, k: nat, v: Opened)
    requires k !in m
    ensures |m[k := v]| == |m| + 1
  {
    assert m[k := v].Keys == m.Keys + {k};
    assert |m[k := v]| == |m[k := v].Keys|;
  }

  lemma MapShrinks(m: map<nat, Opened>, k: nat)
    requires k in m
    ensures |m - {k}| == |m| - 1
  {
    assert (m - {k}).Keys == m.Keys - {k};
    assert |m - {k}| == |(m - {k}).Keys|;
  }

  /** On each context, starts and stops alternate, beginning with a start. */
  lemma Alternation(cfg: Config, trace: Trace, i: nat)
    requires Legal(cfg, trace) && i < |trace|
    ensures trace[i].op.StartSession? ==> trace[i].op.ctx !in Open(trace[..i])
    ensures trace[i].op.StopSession? ==> trace[i].op.ctx in Open(trace[..i])
    ensures Starts(trace[..i]) == Stops(trace[..i]) + |Open(trace[..i])|
  {
    hide Open, Ready, AnchoredAt, CertifiedAt, Starts, Stops;
    LegalPrefix(cfg, trace, i + 1);
    LegalPrefix(cfg, trace, i);
    assert trace[..i + 1][..i] == trace[..i];
    Conservation(cfg, trace[..i]);
  }
}
