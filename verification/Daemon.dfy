/**
 * The daemon object: the policy flags with their change callbacks, the
 * discovery callback, and the loops over devices and responders. Every method
 * is proved to do to the daemon's state what `DaemonSpec` says.
 */
module DaemonObject {
  import opened Bytes
  import opened SpdmCalls
  import opened SpdmObjects
  import opened SpdmResponder
  import Attestation
  import opened DaemonSpec
  import S = SessionSpec

  lemma NullConnects(script: Script, trace: Trace)
    ensures S.Connect(script, trace, 0) == S.Done(trace, false)
  {}

  /** The ways processing a device can go, with the session opened before the responder is appended. */
  lemma AddDeviceCases(script: Script, cfg: Config, s: DaemonSpec.System, device: Device, secure: bool)
    ensures var after := AddDevice(script, cfg, s, device, secure);
            if device.transport == null then after == s
            else
              var t := device.transport;
              var init := S.Initialize(script, s.trace, LinkOf(s.links, t));
              var ctx := init.value.0.ctx;
              var applied := S.ApplyConfig(script, init.trace, init.value.0, cfg);
              var unready := PutLink(s.links, t, init.value.0);
              var links := PutLink(s.links, t, applied.value.0);
              var connected := S.Connect(script, applied.trace, ctx);
              var started := S.OpenSecure(script, connected.trace, cfg, ctx, None, 0);
              var used := S.OpenAndGreet(script, connected.trace, cfg, ctx, None, 0);
              applied.value.0.ctx == ctx
              && after == if !init.value.1 then DaemonSpec.System(unready, init.trace, s.responders)
                          else if !applied.value.1 then DaemonSpec.System(links, applied.trace, s.responders)
                          else if !connected.value then DaemonSpec.System(links, connected.trace, s.responders)
                          else if secure then
                            DaemonSpec.System(links, used, s.responders + [Responder(device, started.value.0)])
                          else DaemonSpec.System(links, connected.trace, s.responders + [Responder(device, None)])
  {
    hide S.Initialize, S.ApplyConfig, S.Connect, S.OpenSecure, S.OpenAndGreet;
    if device.transport != null {
      var init := S.Initialize(script, s.trace, LinkOf(s.links, device.transport));
      AppliedContext(script, init.trace, init.value.0, cfg);
    }
  }

  lemma AppliedContext(script: Script, trace: Trace, link: S.Link, cfg: Config)
    ensures S.ApplyConfig(script, trace, link, cfg).value.0.ctx == link.ctx
  {
    hide S.ConfigureAll, S.CallAll, ConfigCalls;
    S.ConfigureIsCalling(script, trace, link, ConfigCalls(cfg, link.ctx));
  }

  class Daemon {
    const lib: Libspdm
    const sessionCfg: Config
    var enabled: bool
    var secureSessionEnabled: bool
    var discoveredDevices: seq<Device>
    var responders: seq<SPDMDBusResponder>
    ghost var known: set<Transport>  // every transport discovered so far

    /** Every responder and session is one the daemon had before, or new. */
    twostate predicate OwnedOrNew()
      reads this, responders
    {
      && (forall r :: r in Members() ==> r in old(Members()) || fresh(r))
      && (forall s :: s in Sessions() ==> s in old(Sessions()) || fresh(s))
    }

    ghost predicate Valid()
      reads this, responders
    {
      && (forall r :: r in responders ==> r.Valid())
      && (forall r :: r in responders && r.device.transport != null ==> r.device.transport in known)
      && (forall d :: d in discoveredDevices && d.transport != null ==> d.transport in known)
      && (forall i, j :: 0 <= i < j < |responders| ==> responders[i] != responders[j])
      && (forall i, j :: 0 <= i < j < |responders| ==>
            responders[i].session == null || responders[i].session != responders[j].session)
    }

    ghost function Members(): set<SPDMDBusResponder>
      reads this
    {
      set r | r in responders
    }

    ghost function Sessions(): set<SpdmSession>
      reads this, responders
    {
      set r | r in responders && r.session != null :: r.session
    }

    ghost function Links(): map<Transport, S.Link>
      reads this, known
    {
      map t | t in known && t.Link() != S.NEW_LINK :: t.Link()
    }

    ghost function ResponderStates(): seq<Responder>
      reads this, responders, Sessions()
    {
      seq(|responders|, i requires 0 <= i < |responders| reads this, responders, Sessions() =>
        Responder(responders[i].device, responders[i].State()))
    }

    ghost function System(): DaemonSpec.System
      reads this, known, responders, Sessions(), lib
    {
      DaemonSpec.System(Links(), lib.trace, ResponderStates())
    }

    ghost function State(): DaemonSpec.State
      reads this, known, responders, Sessions(), lib
    {
      DaemonSpec.State(enabled, secureSessionEnabled, discoveredDevices, System())
    }

    constructor (lib: Libspdm, cfg: Config, enabled: bool, secure: bool)
      requires lib.trace == []
      ensures this.lib == lib && sessionCfg == cfg && known == {}
      ensures Valid() && Initial(State()) && this.enabled == enabled && secureSessionEnabled == secure
    {
      this.lib, sessionCfg, this.enabled, secureSessionEnabled := lib, cfg, enabled, secure;
      discoveredDevices, responders, known := [], [], {};
    }

    // ----- one responder

    method CloseIfActive(i: nat)
      requires Valid() && i < |responders|
      modifies lib, responders[i].session
      ensures Valid() && System() == CloseAt(lib.script, old(System()), i)
    {
      var r := responders[i];
      if r.SecureSessionActive() {
        var _ := r.CloseSecureSession(lib);
      }
    }

    /** The destructor of one responder. */
    method DestroyResponder(i: nat)
      requires Valid() && i < |responders|
      modifies lib, responders[i].session
      ensures Valid() && System() == CloseAt(lib.script, old(System()), i)
    {
      responders[i].Destroy(lib);
    }

    method OpenIfInactive(i: nat)
      requires Valid() && i < |responders|
      modifies lib, responders[i], responders[i].session
      ensures Valid() && System() == OpenAt(lib.script, sessionCfg, old(System()), i)
      ensures responders[i].session == old(responders[i].session) || fresh(responders[i].session)
    {
      hide S.OpenSecure, S.OpenAndGreet;
      var r := responders[i];
      if !r.SecureSessionActive() {
        r.OpenAndGreet(lib, sessionCfg);
        assert ResponderStates() == old(ResponderStates())[i := Responder(r.device, r.State())];
      }
    }

    /** One turn of the processing loop. */
    method AddResponder(device: Device, secure: bool)
      requires Valid() && (device.transport != null ==> device.transport in known)
      modifies this`responders, lib, device.transport
      ensures Valid() && System() == AddDevice(lib.script, sessionCfg, old(System()), device, secure)
      ensures forall r :: r in responders && r !in old(responders) ==>
        fresh(r) && (r.session == null || fresh(r.session))
    {
      hide S.Initialize, S.ApplyConfig, S.Connect, S.OpenSecure, S.OpenAndGreet, OpenAt, AddDevice;
      ghost var before := System();
      AddDeviceCases(lib.script, sessionCfg, before, device, secure);
      if device.transport != null {
        var ok := PrepareTransport(device.transport);
        if !ok {
          return;
        }
      }
      NullConnects(lib.script, lib.trace);
      Adopt(device, secure);
    }

    /** Appending a responder for the device, if one can be made. */
    method Adopt(device: Device, secure: bool)
      requires Valid() && (device.transport != null ==> device.transport in known)
      modifies this`responders, lib
      ensures Valid() && Links() == old(Links())
      ensures var ctx := if device.transport == null then 0 else device.transport.spdmContext;
              var connected := S.Connect(lib.script, old(lib.trace), ctx);
              if !connected.value then
                ResponderStates() == old(ResponderStates()) && lib.trace == connected.trace
              else if device.transport != null && secure then
                && ResponderStates()
                   == old(ResponderStates())
                      + [Responder(device, S.OpenSecure(lib.script, connected.trace, sessionCfg, ctx, None, 0).value.0)]
                && lib.trace == S.OpenAndGreet(lib.script, connected.trace, sessionCfg, ctx, None, 0)
              else
                && ResponderStates() == old(ResponderStates()) + [Responder(device, None)]
                && lib.trace == connected.trace
      ensures forall r :: r in responders && r !in old(responders) ==>
        fresh(r) && (r.session == null || fresh(r.session))
    {
      hide S.Connect, S.OpenSecure, S.OpenAndGreet;
      var responder := NewResponder(device, secure);
      if responder == null {
        return;
      }
      PushBack(responder);
    }

    method PushBack(responder: SPDMDBusResponder)
      requires Valid() && responder.Valid() && responder !in responders
      requires responder.session == null || responder.session !in Sessions()
      requires responder.device.transport != null ==> responder.device.transport in known
      modifies this`responders
      ensures Valid() && responders == old(responders) + [responder]
      ensures Links() == old(Links())
      ensures ResponderStates() == old(ResponderStates()) + [Responder(responder.device, responder.State())]
    {
      responders := responders + [responder];
    }

    /** A connected responder, with a session if wanted and possible; null stands for the exception. */
    method NewResponder(device: Device, secure: bool) returns (responder: SPDMDBusResponder?)
      modifies lib
      ensures var ctx := if device.transport == null then 0 else device.transport.spdmContext;
              var connected := S.Connect(lib.script, old(lib.trace), ctx);
              && (!connected.value ==> responder == null && lib.trace == connected.trace)
              && (connected.value ==>
                    && responder != null && fresh(responder) && responder.Valid() && responder.device == device
                    && (responder.session == null || fresh(responder.session))
                    && var done := S.OpenSecure(lib.script, connected.trace, sessionCfg, ctx, None, 0);
                       if device.transport != null && secure then
                         && responder.State() == done.value.0
                         && lib.trace == S.OpenAndGreet(lib.script, connected.trace, sessionCfg, ctx, None, 0)
                       else responder.State() == None && lib.trace == connected.trace)
    {
      hide S.Connect, S.OpenSecure, S.OpenAndGreet;
      var made := new SPDMDBusResponder(device);
      var connected := made.componentIntegrity.InitializeSpdmConnection(lib);
      if connected.Failure? {
        return null;
      }
      if device.transport != null && secure {
        made.OpenAndGreet(lib, sessionCfg);
      }
      return made;
    }

    method InitializeAndConfigure(transport: Transport) returns (ok: bool)
      modifies lib, transport
      ensures var init := S.Initialize(lib.script, old(lib.trace), old(transport.Link()));
              && (!init.value.1 ==> !ok && lib.trace == init.trace && transport.Link() == init.value.0)
              && (init.value.1 ==>
                    S.ApplyConfig(lib.script, init.trace, init.value.0, sessionCfg)
                      == S.Done(lib.trace, (transport.Link(), ok)))
    {
      hide S.Initialize, S.ApplyConfig;
      ok := transport.Initialize(lib);
      if !ok {
        return false;
      }
      ok := ApplySecureSessionConfig(lib, transport, sessionCfg);
    }

    /** Changing the fields of one known transport. */
    twostate lemma LinksMoved(transport: Transport)
      requires known == old(known) && transport in known
      requires forall t :: t in known && t != transport ==> t.Link() == old(t.Link())
      ensures Links() == PutLink(old(Links()), transport, transport.Link())
      ensures LinkOf(old(Links()), transport) == old(transport.Link())
    {}

    /** Initialising and configuring the transport of a device. */
    method PrepareTransport(transport: Transport) returns (ok: bool)
      requires Valid() && transport in known
      modifies lib, transport
      ensures Valid() && ResponderStates() == old(ResponderStates())
      ensures Links() == PutLink(old(Links()), transport, transport.Link())
      ensures var init := S.Initialize(lib.script, old(lib.trace), LinkOf(old(Links()), transport));
              && (!init.value.1 ==> !ok && lib.trace == init.trace && transport.Link() == init.value.0)
              && (init.value.1 ==>
                    S.ApplyConfig(lib.script, init.trace, init.value.0, sessionCfg)
                      == S.Done(lib.trace, (transport.Link(), ok)))
    {
      hide S.Initialize, S.ApplyConfig;
      ok := InitializeAndConfigure(transport);
      LinksMoved(transport);
    }

    // ----- loops

    method CloseSessions()
      requires Valid()
      modifies lib, Sessions()
      ensures Valid() && System() == CloseFirst(lib.script, old(System()), |responders|)
    {
      for i := 0 to |responders|
        invariant Valid() && System() == CloseFirst(lib.script, old(System()), i)
      {
        CloseIfActive(i);
      }
    }

    method OpenSessions()
      requires Valid()
      modifies lib, Members(), Sessions()
      ensures Valid() && System() == OpenFirst(lib.script, sessionCfg, old(System()), |responders|)
      ensures OwnedOrNew()
    {
      hide OpenAt;
      for i := 0 to |responders|
        invariant OwnedOrNew()
        invariant Valid() && System() == OpenFirst(lib.script, sessionCfg, old(System()), i)
        invariant forall j :: i <= j < |responders| ==> responders[j].session == old(responders[j].session)
      {
        OpenIfInactive(i);
      }
    }

    /** The destructors of all responders, in order. */
    method DestroyResponders()
      requires Valid()
      modifies lib, Sessions()
      ensures Valid() && System() == CloseFirst(lib.script, old(System()), |responders|)
    {
      for i := 0 to |responders|
        invariant Valid() && System() == CloseFirst(lib.script, old(System()), i)
      {
        DestroyResponder(i);
      }
    }

    /** `responders.clear()`: the destructors, then an empty list. */
    method Clear()
      requires Valid()
      modifies this`responders, lib, Sessions()
      ensures Valid() && responders == [] && System() == ClearResponders(lib.script, old(System()))
    {
      hide CloseFirst;
      DestroyResponders();
      responders := [];
    }

    method TearDownResponders()
      requires Valid()
      modifies this`responders, lib, Sessions()
      ensures Valid() && responders == [] && System() == TearDown(lib.script, old(System()))
    {
      CloseSessions();
      Clear();
    }

    method ProcessDiscoveredDevices(devices: seq<Device>, secure: bool)
      requires Valid() && forall d :: d in devices && d.transport != null ==> d.transport in known
      modifies this`responders, lib, Sessions(), known
      ensures Valid() && System() == Process(lib.script, sessionCfg, old(System()), devices, secure)
      ensures OwnedOrNew()
    {
      hide AddDevice, TearDown;
      TearDownResponders();
      ghost var cleared := System();
      if devices == [] {
        return;
      }
      for k := 0 to |devices|
        invariant Valid() && System() == AddFirst(lib.script, sessionCfg, cleared, devices, secure, k)
        invariant forall r :: r in responders ==> fresh(r) && (r.session == null || fresh(r.session))
      {
        AddResponder(devices[k], secure);
      }
    }

    // ----- events

    /** The discovery callback. New transports come without a context. */
    method OnDiscovered(devices: seq<Device>)
      requires Valid()
      requires forall d :: d in devices && d.transport != null ==>
        d.transport in known || d.transport.Link() == S.NEW_LINK
      modifies this, lib, Sessions(), known, set d | d in devices && d.transport != null :: d.transport
      ensures Valid() && State() == Step(lib.script, sessionCfg, old(State()), Discovered(devices))
      ensures known == old(known) + (set d | d in devices && d.transport != null :: d.transport)
      ensures OwnedOrNew()
    {
      hide Process;
      Store(devices);
      if enabled {
        ProcessDiscoveredDevices(discoveredDevices, secureSessionEnabled);
      }
    }

    method Store(devices: seq<Device>)
      requires Valid()
      requires forall d :: d in devices && d.transport != null ==>
        d.transport in known || d.transport.Link() == S.NEW_LINK
      modifies this`discoveredDevices, this`known
      ensures Valid() && System() == old(System())
      ensures discoveredDevices == devices
      ensures known == old(known) + (set d | d in devices && d.transport != null :: d.transport)
    {
      discoveredDevices := devices;
      known := known + set d | d in devices && d.transport != null :: d.transport;
    }

    /** Writing the `Enabled` property: swap, then tell the callback if the value changed. */
    method SetEnabledProperty(value: bool) returns (same: bool)
      requires Valid()
      modifies this`enabled, this`responders, lib, Sessions(), known
      ensures Valid() && State() == Step(lib.script, sessionCfg, old(State()), SetEnabled(value))
      ensures OwnedOrNew()
      ensures same == (value == old(enabled))
    {
      hide Process, TearDown;
      var oldValue := enabled;
      enabled := value;
      assert System() == old(System());
      if enabled != oldValue {
        EnabledChanged(oldValue, enabled);
      }
      return enabled == oldValue;
    }

    method EnabledChanged(oldValue: bool, newValue: bool)
      requires Valid()
      modifies this`responders, lib, Sessions(), known
      ensures Valid() && OwnedOrNew()
      ensures System() == if !oldValue && newValue
                          then Process(lib.script, sessionCfg, old(System()), discoveredDevices, secureSessionEnabled)
                          else if oldValue && !newValue then TearDown(lib.script, old(System()))
                          else old(System())
    {
      if !oldValue && newValue {
        ProcessDiscoveredDevices(discoveredDevices, secureSessionEnabled);
      } else if oldValue && !newValue {
        TearDownResponders();
      }
    }

    /** Writing the `SecureSessionEnabled` property. */
    method SetSecureSessionEnabledProperty(value: bool) returns (same: bool)
      requires Valid()
      modifies this`secureSessionEnabled, lib, Members(), Sessions()
      ensures Valid() && State() == Step(lib.script, sessionCfg, old(State()), SetSecure(value))
      ensures OwnedOrNew()
      ensures same == (value == old(secureSessionEnabled))
    {
      hide OpenFirst, CloseFirst;
      var oldValue := secureSessionEnabled;
      secureSessionEnabled := value;
      assert System() == old(System());
      if secureSessionEnabled != oldValue {
        SecureSessionEnabledChanged(oldValue, secureSessionEnabled);
      }
      return oldValue == secureSessionEnabled;
    }

    method SecureSessionEnabledChanged(oldValue: bool, newValue: bool)
      requires Valid()
      modifies lib, Members(), Sessions()
      ensures Valid() && OwnedOrNew()
      ensures System() == if oldValue == newValue || !enabled then old(System())
                          else if newValue then OpenFirst(lib.script, sessionCfg, old(System()), |responders|)
                          else CloseFirst(lib.script, old(System()), |responders|)
    {
      if oldValue == newValue {
        return;
      }
      if !enabled {
        return;
      }
      if !oldValue && newValue {
        OpenSessions();
      } else {
        CloseSessions();
      }
    }

    method ServeResponder(i: nat, indices: seq<nat>, nonce: string, slot: nat)
      returns (certPem: string, signedMeas: string)
      requires Valid() && i < |responders|
      modifies lib
      ensures Valid() && System() == ServeAt(lib.script, old(System()), i, indices, slot)
      ensures (certPem, signedMeas)
           == Attestation.Serve(lib.script, old(lib.trace), Ctx(old(System()), i), indices, slot).value
    {
      hide Attestation.Serve, Attestation.Served, Attestation.Acceptable, Attestation.Chain, Attestation.Effective,
           Attestation.Contributions, Attestation.HasChain;
      var r := responders[i];
      assert r.Valid() && System().responders[i].device == r.device;
      assert r.componentIntegrity.Context() == Ctx(System(), i);
      certPem, signedMeas := r.componentIntegrity.MethodCall(lib, indices, nonce, slot);
      assert Links() == old(Links()) && ResponderStates() == old(ResponderStates());
    }

    /** A D-Bus client asks one of the responders for measurements; only a listed one has an object to ask. */
    method ServeRequest(i: nat, indices: seq<nat>, nonce: string, slot: nat)
      returns (certPem: string, signedMeas: string)
      requires Valid()
      modifies lib
      ensures Valid() && State() == Step(lib.script, sessionCfg, old(State()), Measure(i, indices, nonce, slot))
      ensures i >= |responders| ==> certPem == "" && signedMeas == ""
      ensures i < |responders| ==>
                (certPem, signedMeas)
                == Attestation.Serve(lib.script, old(lib.trace), Ctx(old(System()), i), indices, slot).value
    {
      hide Attestation.Serve, ServeAt;
      if i >= |responders| {
        return "", "";
      }
      certPem, signedMeas := ServeResponder(i, indices, nonce, slot);
    }

    /** The end of `main`. */
    method ShutDown()
      requires Valid()
      modifies this`responders, lib, Sessions()
      ensures Valid() && State() == DaemonSpec.Shutdown(lib.script, old(State()))
    {
      hide ClearResponders;
      Clear();
    }

    // ----- the event loop

    /** The transports of the devices an event brings. */
    ghost function Brought(events: seq<Event>): set<Transport> {
      set e, d | e in events && e.Discovered? && d in e.devices && d.transport != null :: d.transport
    }

    /** Everything the daemon may change: nothing but objects it had or has made since. */
    method Handle(e: Event)
      requires Valid()
      requires forall t :: t in Brought([e]) ==> t in known || t.Link() == S.NEW_LINK
      modifies this, lib, Members(), Sessions(), known, Brought([e])
      ensures Valid() && State() == Step(lib.script, sessionCfg, old(State()), e)
      ensures known == old(known) + Brought([e])
      ensures OwnedOrNew()
    {
      hide Step;
      match e
      case Discovered(devices) =>
        OnDiscovered(devices);
      case SetEnabled(value) =>
        var _ := SetEnabledProperty(value);
      case SetSecure(value) =>
        var _ := SetSecureSessionEnabledProperty(value);
      case Measure(i, indices, nonce, slot) =>
        var _, _ := ServeRequest(i, indices, nonce, slot);
    }

    /** The event loop of `main` and what follows it, for any list of events. */
    method HandleAll(events: seq<Event>)
      requires Valid()
      requires forall t :: t in Brought(events) ==> t in known || t.Link() == S.NEW_LINK
      modifies this, lib, Members(), Sessions(), known, Brought(events)
      ensures Valid() && responders == []
      ensures State() == DaemonSpec.Shutdown(lib.script, Run(lib.script, sessionCfg, old(State()), events))
    {
      hide Step;
      for k := 0 to |events|
        invariant Valid() && OwnedOrNew()
        invariant State() == Run(lib.script, sessionCfg, old(State()), events[..k])
        invariant old(known) <= known <= old(known) + Brought(events)
        invariant forall t :: t in Brought(events) ==> t in known || t.Link() == S.NEW_LINK
      {
        assert events[..k + 1][..k] == events[..k];
        assert events[k] in events && Brought([events[k]]) <= Brought(events);
        Handle(events[k]);
      }
      assert events[..|events|] == events;
      ShutDown();
    }
  }
}
