/**
 * The daemon's guarantees, for every run: every sequence of events, every
 * configuration and every behaviour of the devices.
 */
module DaemonTheorems {
  import opened Bytes
  import opened SpdmCalls
  import opened SpdmObjects
  import opened DaemonSpec
  import opened DaemonProofs
  import opened DaemonHistory
  import Attestation
  import S = SessionSpec

  /** Without `Enabled` there is no responder, and without both flags no session. */
  lemma PolicySafety(cfg: Config, script: Script, start: State, events: seq<Event>)
    requires Initial(start) && AllDiscoverable(events)
    ensures var d := Run(script, cfg, start, events);
            && (!d.enabled ==> d.system.responders == [])
            && (!(d.enabled && d.secure) ==> Open(d.system.trace) == map[])
            && (forall i :: 0 <= i < |d.system.responders| && Active(d.system, i) ==> d.enabled && d.secure)
  {
    hide Run, SystemInv, Open, IsSubsequence;
    InitialInv(cfg, start);
    RunKeeps(cfg, script, start, events);
    var d := Run(script, cfg, start, events);
    if !(d.enabled && d.secure) {
      DropKeeps(cfg, d.system);
    }
  }

  /**
   * The responders are some of the currently discovered devices, in order and
   * none twice, each on a transport of its own that is initialised,
   * configured and connected.
   */
  lemma AuthoritativeReplace(cfg: Config, script: Script, start: State, events: seq<Event>)
    requires Initial(start) && AllDiscoverable(events)
    ensures var d := Run(script, cfg, start, events);
            && IsSubsequence(Devices(d.system), d.devices)
            && (forall i :: 0 <= i < |d.system.responders| ==>
                  && d.system.responders[i].device.transport != null
                  && Ctx(d.system, i) != 0
                  && Ready(cfg, d.system.trace, Ctx(d.system, i)))
            && (forall i, j :: 0 <= i < j < |d.system.responders| ==>
                  && d.system.responders[i].device.transport != d.system.responders[j].device.transport
                  && Ctx(d.system, i) != Ctx(d.system, j))
  {
    hide Run, Ready, Legal, Open, IsSubsequence;
    InitialInv(cfg, start);
    RunKeeps(cfg, script, start, events);
  }

  /** All calls of a daemon's life: those of its events, then those of its shutdown. */
  function Life(script: Script, cfg: Config, start: State, events: seq<Event>): Trace {
    Shutdown(script, Run(script, cfg, start, events)).system.trace
  }

  /** The calls up to any point of a daemon's life are legal. */
  lemma LifeIsLegal(cfg: Config, script: Script, start: State, events: seq<Event>)
    requires Initial(start) && AllDiscoverable(events)
    ensures Run(script, cfg, start, events).system.trace <= Life(script, cfg, start, events)
    ensures Legal(cfg, Life(script, cfg, start, events))
  {
    hide Run, Legal, Open, ClearResponders, IsSubsequence, ContextsValid, RespondersReady, SessionsMatch, S.Greeted;
    InitialInv(cfg, start);
    RunKeeps(cfg, script, start, events);
    var s := Run(script, cfg, start, events).system;
    ClearKeeps(cfg, script, s);
    ClearExtends(script, s);
    ExtendsLonger(s, ClearResponders(script, s));
  }

  /**
   * Every session start goes to a context that was initialised, configured
   * and connected, in this order; directly before it the slot's certificate
   * was found and fetched, and directly before that the first non-empty trust
   * anchor source was loaded and installed.
   */
  lemma EveryStartIsPrepared(cfg: Config, script: Script, start: State, events: seq<Event>, i: nat)
    requires Initial(start) && AllDiscoverable(events)
    requires i < |Life(script, cfg, start, events)|
    requires Life(script, cfg, start, events)[i].op.StartSession?
    ensures var trace := Life(script, cfg, start, events);
            var ctx, slot := trace[i].op.ctx, trace[i].op.slot;
            var fetched := if trace[i].op.usePsk then i else i - 2;
            && Ready(cfg, trace[..i], ctx)
            && ctx !in Open(trace[..i])
            && (!trace[i].op.usePsk ==> CertifiedAt(trace[..i], fetched, ctx, slot))
            && (NamesAnchor(cfg) ==> AnchoredAt(cfg, trace[..i], fetched - 1, ctx))
  {
    hide Life, Legal, Ready, CertifiedAt, AnchoredAt, Open;
    LifeIsLegal(cfg, script, start, events);
    StartIsPrepared(cfg, Life(script, cfg, start, events), i);
  }

  /**
   * Every stop and heartbeat, those of the shutdown included, goes to the
   * context, and names the identifier, of a session started before and not
   * stopped in between.
   */
  lemma EveryUseIsFaithful(cfg: Config, script: Script, start: State, events: seq<Event>, i: nat) returns (j: nat)
    requires Initial(start) && AllDiscoverable(events)
    requires i < |Life(script, cfg, start, events)|
    requires UsesSession(Life(script, cfg, start, events)[i].op)
    ensures var trace := Life(script, cfg, start, events);
            && j < i && StartsOn(trace[j], trace[i].op.ctx) && trace[j].reply.id == trace[i].op.id
            && forall k :: j < k < i ==> !StartsOn(trace[k], trace[i].op.ctx) && !StopsOn(trace[k], trace[i].op.ctx)
  {
    hide Life, Legal;
    LifeIsLegal(cfg, script, start, events);
    j := UseIsFaithful(cfg, Life(script, cfg, start, events), i);
  }

  /**
   * Every measurement of a run is asked of a context that was initialised,
   * configured and connected before, and within its own request: that began,
   * at call number `k`, by connecting again, asking for the digests and
   * fetching the same slot's certificate, and has only measured since.
   */
  lemma EveryMeasurementIsPrepared(cfg: Config, script: Script, start: State, events: seq<Event>, i: nat)
    returns (k: nat)
    requires Initial(start) && AllDiscoverable(events)
    requires i < |Life(script, cfg, start, events)|
    requires Life(script, cfg, start, events)[i].op.GetMeasurement?
    ensures var trace := Life(script, cfg, start, events);
            var ctx, slot := trace[i].op.ctx, trace[i].op.slot;
            && Ready(cfg, trace[..i], ctx)
            && k + 3 <= i && RequestedAt(trace, k, ctx, slot)
            && forall m :: k + 3 <= m < i ==> Measured(trace[m], ctx, slot)
  {
    hide Life, Legal, Ready, RequestedAt, Measured;
    LifeIsLegal(cfg, script, start, events);
    k := MeasurementIsPrepared(cfg, Life(script, cfg, start, events), i);
  }

  /**
   * A request to a responder listed at any point of a run is answered exactly
   * when it is acceptable and the device's replies serve it; the responders
   * and the open sessions stay as they are.
   */
  lemma RequestsAreServed(cfg: Config, script: Script, start: State, events: seq<Event>, i: nat, indices: seq<nat>,
                          nonce: string, slot: nat)
    requires Initial(start) && AllDiscoverable(events)
    requires i < |Run(script, cfg, start, events).system.responders|
    ensures var d := Run(script, cfg, start, events);
            var after := Step(script, cfg, d, Measure(i, indices, nonce, slot));
            && (Attestation.Serve(script, d.system.trace, Ctx(d.system, i), indices, slot).value != Attestation.NOTHING
                <==> Attestation.Served(script, |d.system.trace|, indices))
            && after.system.responders == d.system.responders
            && Open(after.system.trace) == Open(d.system.trace)
  {
    hide Run, SystemInv, Open, ServeAt, Attestation.Serve, Attestation.Served, Attestation.Acceptable,
         Attestation.Chain, Attestation.Effective, Attestation.Contributions, Attestation.HasChain, IsSubsequence, Ctx;
    InitialInv(cfg, start);
    RunKeeps(cfg, script, start, events);
    var s := Run(script, cfg, start, events).system;
    ContextOfResponder(cfg, s, i);
    Attestation.ServeMeans(script, s.trace, Ctx(s, i), indices, slot);
    ServeAtKeeps(cfg, script, s, i, indices, slot);
    ServeAtSame(script, s, i, indices, slot);
  }

  /** Every session started on any path is sent a heartbeat by the very next call. */
  lemma EverySessionIsGreeted(cfg: Config, script: Script, start: State, events: seq<Event>, i: nat)
    requires Initial(start)
    requires i < |Life(script, cfg, start, events)|
    requires Life(script, cfg, start, events)[i].op.StartSession? && Life(script, cfg, start, events)[i].reply.ok
    ensures var trace := Life(script, cfg, start, events);
            i + 1 < |trace| && trace[i + 1].op == SpdmCalls.Heartbeat(trace[i].op.ctx, trace[i].reply.id)
  {
    hide Run, ClearResponders;
    var d := Run(script, cfg, start, events);
    RunExtends(script, cfg, start, events);
    ClearExtends(script, d.system);
    ExtendsThrough(start.system, d.system, ClearResponders(script, d.system));
  }

  /**
   * At all times, successful starts minus stop requests is the number of
   * active sessions, and after shutdown the two are equal.
   */
  lemma SessionsAreConserved(cfg: Config, script: Script, start: State, events: seq<Event>)
    requires Initial(start) && AllDiscoverable(events)
    ensures var d := Run(script, cfg, start, events);
            Starts(d.system.trace) == Stops(d.system.trace) + ActiveCount(d.system, |d.system.responders|)
    ensures var d := Shutdown(script, Run(script, cfg, start, events));
            && Starts(d.system.trace) == Stops(d.system.trace)
            && Open(d.system.trace) == map[] && d.system.responders == []
  {
    hide Run, Legal, Starts, Stops, Open, ActiveCount, IsSubsequence, ClearResponders, ContextsValid,
         RespondersReady, SessionsMatch;
    InitialInv(cfg, start);
    RunKeeps(cfg, script, start, events);
    var s := Run(script, cfg, start, events).system;
    OpenIsActive(cfg, s);
    Conservation(cfg, s.trace);
    ClearKeeps(cfg, script, s);
    Conservation(cfg, ClearResponders(script, s).trace);
  }

  /**
   * Every active session of a responder is the latest one started on its
   * context: it goes by the identifier and the period of that start's reply,
   * and has not been stopped since.
   */
  lemma ActiveSessionsAreTheirs(cfg: Config, script: Script, start: State, events: seq<Event>, i: nat) returns (j: nat)
    requires Initial(start) && AllDiscoverable(events)
    requires i < |Run(script, cfg, start, events).system.responders|
    requires Active(Run(script, cfg, start, events).system, i)
    ensures var s := Run(script, cfg, start, events).system;
            var session, ctx := s.responders[i].session.value, Ctx(s, i);
            && j < |s.trace| && StartsOn(s.trace[j], ctx)
            && session.id == s.trace[j].reply.id && session.period == s.trace[j].reply.period
            && forall k :: j < k < |s.trace| ==> !StartsOn(s.trace[k], ctx) && !StopsOn(s.trace[k], ctx)
  {
    hide Run, Legal, Open, ContextsValid, RespondersReady, LinksNoted, IsSubsequence, Ctx;
    InitialInv(cfg, start);
    RunKeeps(cfg, script, start, events);
    var s := Run(script, cfg, start, events).system;
    j := OpenSince(s.trace, Ctx(s, i));
  }

  // ----- when calls succeed

  /** The devices that have a transport. */
  function WithTransport(devices: seq<Device>): seq<Device> {
    if devices == [] then []
    else
      var last := devices[|devices| - 1];
      WithTransport(devices[..|devices| - 1]) + (if last.transport == null then [] else [last])
  }

  /** The responders as an observer sees them: which device, and whether a session is active. */
  function View(s: System): seq<(Device, bool)> {
    seq(|s.responders|, i requires 0 <= i < |s.responders| => (s.responders[i].device, Active(s, i)))
  }

  /** What the flags and the discovered devices ask for. */
  function Target(enabled: bool, secure: bool, devices: seq<Device>): seq<(Device, bool)> {
    if !enabled then []
    else
      var kept := WithTransport(devices);
      seq(|kept|, i requires 0 <= i < |kept| => (kept[i], secure))
  }

  predicate AllActive(s: System, active: bool) {
    forall i :: 0 <= i < |s.responders| ==> Active(s, i) == active
  }

  lemma ViewIsTarget(s: System, secure: bool, devices: seq<Device>)
    requires Devices(s) == WithTransport(devices) && AllActive(s, secure)
    ensures View(s) == Target(true, secure, devices)
  {
    hide WithTransport;
    forall i | 0 <= i < |s.responders| ensures View(s)[i] == Target(true, secure, devices)[i] {
      assert s.responders[i].device == Devices(s)[i];
    }
  }

  lemma SucceedsLater(script: Script, before: System, after: System)
    requires S.SucceedsFrom(script, |before.trace|) && Extends(before, after)
    ensures S.SucceedsFrom(script, |after.trace|)
  {
    S.SucceedsLater(script, before.trace, after.trace);
  }

  lemma AddDeviceSucceeds(cfg: Config, script: Script, s: System, device: Device, secure: bool)
    requires S.SucceedsFrom(script, |s.trace|)
    ensures var after := AddDevice(script, cfg, s, device, secure);
            if device.transport == null then after == s
            else && |after.responders| == |s.responders| + 1
                 && after.responders[..|s.responders|] == s.responders
                 && after.responders[|s.responders|].device == device
                 && Active(after, |s.responders|) == secure
  {
    hide S.Initialize, S.ApplyConfig, S.Connect, S.OpenSecure, S.OpenAndGreet, S.SucceedsFrom;
    if device.transport != null {
      var link := LinkOf(s.links, device.transport);
      S.PrepareSucceeds(cfg, script, s.trace, link);
      var init := S.Initialize(script, s.trace, link);
      var ctx := init.value.0.ctx;
      var connected := S.Connect(script, S.ApplyConfig(script, init.trace, init.value.0, cfg).trace, ctx);
      S.OpenSucceeds(cfg, script, connected.trace, ctx, None);
    }
  }

  lemma {:induction false} AddFirstSucceeds(cfg: Config, script: Script, s: System, devices: seq<Device>,
                                            secure: bool, n: nat)
    requires S.SucceedsFrom(script, |s.trace|) && s.responders == [] && n <= |devices|
    ensures var after := AddFirst(script, cfg, s, devices, secure, n);
            Devices(after) == WithTransport(devices[..n]) && AllActive(after, secure)
  {
    hide AddDevice, S.SucceedsFrom, Extends;
    if n == 0 {
      assert Devices(s) == WithTransport(devices[..0]);
    } else {
      AddFirstSucceeds(cfg, script, s, devices, secure, n - 1);
      var before := AddFirst(script, cfg, s, devices, secure, n - 1);
      var device := devices[n - 1];
      AddFirstExtends(script, cfg, s, devices, secure, n - 1);
      SucceedsLater(script, s, before);
      AddDeviceSucceeds(cfg, script, before, device, secure);
      var after := AddFirst(script, cfg, s, devices, secure, n);
      assert devices[..n][..n - 1] == devices[..n - 1];
      if device.transport != null {
        assert Devices(after) == Devices(before) + [device];
        forall i | 0 <= i < |after.responders| ensures Active(after, i) == secure {
          if i < |before.responders| {
            assert Active(before, i) == secure;
            assert after.responders[..|before.responders|][i] == before.responders[i];
          }
        }
      }
    }
  }

  lemma {:induction false} OpenFirstSucceeds(cfg: Config, script: Script, s: System, n: nat)
    requires S.SucceedsFrom(script, |s.trace|) && SystemInv(cfg, s) && n <= |s.responders|
    ensures forall i :: 0 <= i < n ==> Active(OpenFirst(script, cfg, s, n), i)
  {
    hide SystemInv, S.SucceedsFrom, OpenAt, Extends;
    if n > 0 {
      OpenFirstSucceeds(cfg, script, s, n - 1);
      OpenFirstKeeps(cfg, script, s, n - 1);
      var before := OpenFirst(script, cfg, s, n - 1);
      OpenFirstExtends(script, cfg, s, n - 1);
      SucceedsLater(script, s, before);
      OpenAtKeeps(cfg, script, before, n - 1);
      OpenAtSucceeds(cfg, script, before, n - 1);
      var after := OpenFirst(script, cfg, s, n);
      forall i | 0 <= i < n ensures Active(after, i) {
        if i < n - 1 {
          assert Active(before, i) && after.responders[i] == before.responders[i];
        }
      }
    }
  }

  lemma OpenAtSucceeds(cfg: Config, script: Script, s: System, i: nat)
    requires S.SucceedsFrom(script, |s.trace|) && SystemInv(cfg, s) && i < |s.responders|
    ensures Active(OpenAt(script, cfg, s, i), i)
  {
    hide Ready, Legal, SessionsMatch, S.SucceedsFrom, S.OpenSecure, S.OpenAndGreet;
    S.OpenSucceeds(cfg, script, s.trace, Ctx(s, i), s.responders[i].session);
  }

  /** The responders are the devices with a transport, each with a session as the flag says; none while not enabled. */
  predicate OnTarget(d: State) {
    && (d.enabled ==> Devices(d.system) == WithTransport(d.devices) && AllActive(d.system, d.secure))
    && (!d.enabled ==> d.system.responders == [])
  }

  /** After such an event nothing of an earlier failure can be left: it replaces all responders, or there are none. */
  predicate Refreshes(d: State, e: Event) {
    e.Discovered? || !d.enabled
  }

  /** When its calls succeed, one event keeps the responders on target; a processing event brings them there. */
  lemma StepOnTarget(cfg: Config, script: Script, d: State, e: Event)
    requires S.SucceedsFrom(script, |d.system.trace|) && DaemonInv(cfg, d) && Discoverable(e)
    requires OnTarget(d) || Refreshes(d, e)
    ensures OnTarget(Step(script, cfg, d, e))
  {
    hide SystemInv, TearDown, AddFirst, OpenFirst, CloseFirst, ServeAt, IsSubsequence, S.SucceedsFrom, WithTransport;
    StepKeeps(cfg, script, d, e);
    var s := d.system;
    match e
    case Discovered(devices) =>
      ProcessOnTarget(cfg, script, s, devices, d.secure);
    case SetEnabled(value) =>
      ProcessOnTarget(cfg, script, s, d.devices, d.secure);
    case SetSecure(value) =>
      OpenFirstKeeps(cfg, script, s, |s.responders|);
      OpenFirstSucceeds(cfg, script, s, |s.responders|);
      CloseFirstKeeps(cfg, script, s, |s.responders|);
    case Measure(i, indices, _, slot) =>
      if i < |s.responders| {
        ServeAtSame(script, s, i, indices, slot);
      }
  }

  lemma ProcessOnTarget(cfg: Config, script: Script, s: System, devices: seq<Device>, secure: bool)
    requires S.SucceedsFrom(script, |s.trace|) && SystemInv(cfg, s)
    ensures var after := Process(script, cfg, s, devices, secure);
            Devices(after) == WithTransport(devices) && AllActive(after, secure)
  {
    hide SystemInv, TearDown, AddFirst, S.SucceedsFrom, WithTransport, Extends;
    TearDownKeeps(cfg, script, s);
    TearDownExtends(script, s);
    SucceedsLater(script, s, TearDown(script, s));
    AddFirstSucceeds(cfg, script, TearDown(script, s), devices, secure, |devices|);
    assert devices[..|devices|] == devices;
  }

  /** When calls succeed from a state on target, the daemon stays there. */
  lemma {:induction false} RunOnTarget(cfg: Config, script: Script, d: State, events: seq<Event>)
    requires S.SucceedsFrom(script, |d.system.trace|) && DaemonInv(cfg, d) && OnTarget(d)
    requires AllDiscoverable(events)
    ensures OnTarget(Run(script, cfg, d, events))
    decreases |events|
  {
    hide Step, S.SucceedsFrom, DaemonInv, OnTarget, Extends;
    if events != [] {
      var before := events[..|events| - 1];
      RunOnTarget(cfg, script, d, before);
      RunKeeps(cfg, script, d, before);
      RunExtends(script, cfg, d, before);
      SucceedsLater(script, d.system, Run(script, cfg, d, before).system);
      StepOnTarget(cfg, script, Run(script, cfg, d, before), events[|events| - 1]);
    }
  }

  // ----- the latest inputs

  function LatestEnabled(first: bool, events: seq<Event>): bool {
    if events == [] then first
    else
      match events[|events| - 1]
      case SetEnabled(value) => value
      case _ => LatestEnabled(first, events[..|events| - 1])
  }

  function LatestSecure(first: bool, events: seq<Event>): bool {
    if events == [] then first
    else
      match events[|events| - 1]
      case SetSecure(value) => value
      case _ => LatestSecure(first, events[..|events| - 1])
  }

  function LatestDevices(events: seq<Event>): seq<Device> {
    if events == [] then []
    else
      match events[|events| - 1]
      case Discovered(devices) => devices
      case _ => LatestDevices(events[..|events| - 1])
  }

  lemma {:induction false} RunHasLatest(cfg: Config, script: Script, start: State, events: seq<Event>)
    requires start.devices == []
    ensures var d := Run(script, cfg, start, events);
            && d.enabled == LatestEnabled(start.enabled, events)
            && d.secure == LatestSecure(start.secure, events)
            && d.devices == LatestDevices(events)
    decreases |events|
  {
    hide Process, TearDown, OpenFirst, CloseFirst;
    if events != [] {
      RunHasLatest(cfg, script, start, events[..|events| - 1]);
    }
  }

  lemma OnTargetView(d: State)
    requires OnTarget(d)
    ensures View(d.system) == Target(d.enabled, d.secure, d.devices)
  {
    hide WithTransport;
    if d.enabled {
      ViewIsTarget(d.system, d.secure, d.devices);
    }
  }

  lemma InitialOnTarget(d: State)
    requires Initial(d)
    ensures OnTarget(d)
  {
    assert Devices(d.system) == WithTransport(d.devices);
  }

  /**
   * When every device call succeeds, the responders and the activity of their
   * sessions after any events are one function of the latest flags and the
   * latest discovered devices: nothing else of the history matters.
   */
  lemma HistoryIndependence(cfg: Config, script: Script, start: State, events: seq<Event>)
    requires S.SucceedsFrom(script, 0) && Initial(start) && AllDiscoverable(events)
    ensures View(Run(script, cfg, start, events).system)
         == Target(LatestEnabled(start.enabled, events), LatestSecure(start.secure, events), LatestDevices(events))
  {
    hide Run, LatestEnabled, LatestSecure, LatestDevices, S.SucceedsFrom, WithTransport, OnTarget, DaemonInv;
    InitialInv(cfg, start);
    InitialOnTarget(start);
    RunOnTarget(cfg, script, start, events);
    RunHasLatest(cfg, script, start, events);
    OnTargetView(Run(script, cfg, start, events));
  }

  /**
   * Failures leave no lasting mark: whatever has failed before, once calls
   * succeed and a discovery completes or the daemon is off, it is and stays
   * where it would be had nothing ever failed.
   */
  lemma Recovery(cfg: Config, script: Script, start: State, before: seq<Event>, e: Event, after: seq<Event>)
    requires Initial(start) && AllDiscoverable(before + [e] + after)
    requires S.SucceedsFrom(script, |Run(script, cfg, start, before).system.trace|)
    requires Refreshes(Run(script, cfg, start, before), e)
    ensures var events := before + [e] + after;
            View(Run(script, cfg, start, events).system)
            == Target(LatestEnabled(start.enabled, events), LatestSecure(start.secure, events), LatestDevices(events))
  {
    hide Run, Step, LatestEnabled, LatestSecure, LatestDevices, S.SucceedsFrom, WithTransport, OnTarget, DaemonInv,
         Extends;
    var d := Run(script, cfg, start, before);
    var next := Step(script, cfg, d, e);
    SplitDiscoverable(before, e, after);
    InitialInv(cfg, start);
    RunKeeps(cfg, script, start, before);
    StepKeeps(cfg, script, d, e);
    StepOnTarget(cfg, script, d, e);
    StepExtends(script, cfg, d, e);
    SucceedsLater(script, d.system, next.system);
    RunOnTarget(cfg, script, next, after);
    RunOne(script, cfg, start, before, e);
    RunAppend(script, cfg, start, before + [e], after);
    RunHasLatest(cfg, script, start, before + [e] + after);
    OnTargetView(Run(script, cfg, next, after));
  }

  lemma SplitDiscoverable(before: seq<Event>, e: Event, after: seq<Event>)
    requires AllDiscoverable(before + [e] + after)
    ensures AllDiscoverable(before) && Discoverable(e) && AllDiscoverable(after)
  {
    var events := before + [e] + after;
    assert events[|before|] == e;
    assert forall i :: 0 <= i < |before| ==> before[i] == events[i];
    assert forall i :: 0 <= i < |after| ==> after[i] == events[|before| + 1 + i];
  }

  lemma RunOne(script: Script, cfg: Config, d: State, before: seq<Event>, e: Event)
    ensures Run(script, cfg, d, before + [e]) == Step(script, cfg, Run(script, cfg, d, before), e)
  {
    hide Step;
    assert (before + [e])[..|before|] == before;
  }

  // ----- when some calls fail

  lemma {:induction false} SubsequenceWithTransport(a: seq<Device>, devices: seq<Device>)
    requires IsSubsequence(a, devices)
    requires forall i :: 0 <= i < |a| ==> a[i].transport != null
    ensures IsSubsequence(a, WithTransport(devices))
    decreases |devices|
  {
    hide IsSubsequence;
    if a == [] {
      NothingIsSubsequence(WithTransport(devices), a);
    } else {
      SubsequenceCases(a, devices);
      var init, last := devices[..|devices| - 1], devices[|devices| - 1];
      var kept := WithTransport(init);
      assert WithTransport(devices) == if last.transport == null then kept else kept + [last];
      if a[|a| - 1] == last && IsSubsequence(a[..|a| - 1], init) {
        SubsequenceWithTransport(a[..|a| - 1], init);
        SubsequenceGrows(a[..|a| - 1], kept, last);
        assert a[..|a| - 1] + [last] == a;
      } else {
        SubsequenceWithTransport(a, init);
        SubsequenceGrows(a, kept, last);
      }
    }
  }

  /**
   * Whatever fails, the daemon stays below its target: no responder and no
   * session that the latest flags and devices do not ask for.
   */
  lemma StaysBelowTarget(cfg: Config, script: Script, start: State, events: seq<Event>)
    requires Initial(start) && AllDiscoverable(events)
    ensures var s := Run(script, cfg, start, events).system;
            var enabled := LatestEnabled(start.enabled, events);
            && IsSubsequence(Devices(s), if enabled then WithTransport(LatestDevices(events)) else [])
            && (forall i :: 0 <= i < |s.responders| && Active(s, i) ==> LatestSecure(start.secure, events))
  {
    hide Run, Ready, Legal, IsSubsequence, LatestEnabled, LatestSecure, LatestDevices, WithTransport;
    InitialInv(cfg, start);
    RunKeeps(cfg, script, start, events);
    RunHasLatest(cfg, script, start, events);
    var d := Run(script, cfg, start, events);
    forall i | 0 <= i < |d.system.responders| ensures Devices(d.system)[i].transport != null {}
    SubsequenceWithTransport(Devices(d.system), d.devices);
    NoDevices(d.system, []);
  }
}
