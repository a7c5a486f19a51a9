/**
 * The daemon as a state machine: what each event does to the policy flags,
 * the discovered devices, the responders and the trace of device calls. The
 * class `Daemon` is proved against these functions.
 */
module DaemonSpec {
  import opened Bytes
  import opened SpdmCalls
  import opened SpdmObjects
  import Attestation
  import S = SessionSpec

  datatype Responder = Responder(device: Device, session: Option<S.Session>)

  /** The fields of the known transports, all calls so far, and the responders in order. */
  datatype System = System(links: map<Transport, S.Link>, trace: Trace, responders: seq<Responder>)

  function LinkOf(links: map<Transport, S.Link>, t: Transport?): S.Link {
    if t != null && t in links then links[t] else S.NEW_LINK
  }

  function ContextOf(links: map<Transport, S.Link>, t: Transport?): nat {
    LinkOf(links, t).ctx
  }

  function PutLink(links: map<Transport, S.Link>, t: Transport, link: S.Link): map<Transport, S.Link> {
    if link == S.NEW_LINK then links - {t} else links[t := link]
  }

  /** The context of responder number `i`. */
  function Ctx(s: System, i: nat): nat
    requires i < |s.responders|
  {
    ContextOf(s.links, s.responders[i].device.transport)
  }

  predicate Active(s: System, i: nat)
    requires i < |s.responders|
  {
    S.IsActive(s.responders[i].session)
  }

  function SetSession(s: System, i: nat, session: Option<S.Session>, trace: Trace): System
    requires i < |s.responders|
  {
    s.(trace := trace, responders := s.responders[i := s.responders[i].(session := session)])
  }

  // ----- one responder

  /** Closing the session of one responder if it is active; its destructor does the same. */
  function CloseAt(script: Script, s: System, i: nat): System
    requires i < |s.responders|
  {
    if !Active(s, i) then s
    else
      var done := S.Stop(script, s.trace, Ctx(s, i), s.responders[i].session.value);
      SetSession(s, i, Some(done.value.0), done.trace)
  }

  /** Opening a session for one responder unless it has one, with a heartbeat when that worked. */
  function OpenAt(script: Script, cfg: Config, s: System, i: nat): System
    requires i < |s.responders|
  {
    if Active(s, i) then s
    else
      var done := S.OpenSecure(script, s.trace, cfg, Ctx(s, i), s.responders[i].session, 0);
      SetSession(s, i, done.value.0, S.OpenAndGreet(script, s.trace, cfg, Ctx(s, i), s.responders[i].session, 0))
  }

  /** Processing one discovered device: it becomes a responder when every step up to the connection succeeds. */
  function AddDevice(script: Script, cfg: Config, s: System, device: Device, secure: bool): System {
    if device.transport == null then s
    else
      var t := device.transport;
      var init := S.Initialize(script, s.trace, LinkOf(s.links, t));
      if !init.value.1 then s.(links := PutLink(s.links, t, init.value.0), trace := init.trace)
      else
        var applied := S.ApplyConfig(script, init.trace, init.value.0, cfg);
        var links := PutLink(s.links, t, applied.value.0);
        if !applied.value.1 then s.(links := links, trace := applied.trace)
        else
          var connected := S.Connect(script, applied.trace, init.value.0.ctx);
          if !connected.value then s.(links := links, trace := connected.trace)
          else
            var added := System(links, connected.trace, s.responders + [Responder(device, None)]);
            if secure then OpenAt(script, cfg, added, |s.responders|) else added
  }

  /** Serving a measurement request on one responder. */
  function ServeAt(script: Script, s: System, i: nat, indices: seq<nat>, slot: nat): System
    requires i < |s.responders|
  {
    s.(trace := Attestation.Serve(script, s.trace, Ctx(s, i), indices, slot).trace)
  }

  // ----- loops

  function CloseFirst(script: Script, s: System, n: nat): (r: System)
    requires n <= |s.responders|
    ensures |r.responders| == |s.responders|
  {
    if n == 0 then s else CloseAt(script, CloseFirst(script, s, n - 1), n - 1)
  }

  function OpenFirst(script: Script, cfg: Config, s: System, n: nat): (r: System)
    requires n <= |s.responders|
    ensures |r.responders| == |s.responders|
  {
    if n == 0 then s else OpenAt(script, cfg, OpenFirst(script, cfg, s, n - 1), n - 1)
  }

  function AddFirst(script: Script, cfg: Config, s: System, devices: seq<Device>, secure: bool, n: nat): System
    requires n <= |devices|
  {
    if n == 0 then s
    else AddDevice(script, cfg, AddFirst(script, cfg, s, devices, secure, n - 1), devices[n - 1], secure)
  }

  /** Destroying all responders, in order. */
  function ClearResponders(script: Script, s: System): System {
    CloseFirst(script, s, |s.responders|).(responders := [])
  }

  function TearDown(script: Script, s: System): System {
    ClearResponders(script, CloseFirst(script, s, |s.responders|))
  }

  function Process(script: Script, cfg: Config, s: System, devices: seq<Device>, secure: bool): System {
    AddFirst(script, cfg, TearDown(script, s), devices, secure, |devices|)
  }

  // ----- the daemon

  datatype State = State(enabled: bool, secure: bool, devices: seq<Device>, system: System)

  datatype Event =
    | Discovered(devices: seq<Device>)
    | SetEnabled(value: bool)
    | SetSecure(value: bool)
    | Measure(responder: nat, indices: seq<nat>, nonce: string, slot: nat)

  function Step(script: Script, cfg: Config, d: State, e: Event): State {
    match e
    case Discovered(devices) =>
      var d := d.(devices := devices);
      if d.enabled then d.(system := Process(script, cfg, d.system, devices, d.secure)) else d
    case SetEnabled(value) =>
      if !d.enabled && value then
        d.(enabled := true, system := Process(script, cfg, d.system, d.devices, d.secure))
      else if d.enabled && !value then
        d.(enabled := false, system := TearDown(script, d.system))
      else d
    case SetSecure(value) =>
      if !d.enabled || value == d.secure then d.(secure := value)
      else if value then
        d.(secure := true, system := OpenFirst(script, cfg, d.system, |d.system.responders|))
      else
        d.(secure := false, system := CloseFirst(script, d.system, |d.system.responders|))
    case Measure(i, indices, _, slot) =>
      if i < |d.system.responders| then d.(system := ServeAt(script, d.system, i, indices, slot)) else d
  }

  function Run(script: Script, cfg: Config, d: State, events: seq<Event>): State {
    if events == [] then d
    else Step(script, cfg, Run(script, cfg, d, events[..|events| - 1]), events[|events| - 1])
  }

  /** The end of `main`: the responders are destroyed. */
  function Shutdown(script: Script, d: State): State {
    d.(system := ClearResponders(script, d.system))
  }

  predicate Initial(d: State) {
    d.devices == [] && d.system.responders == [] && d.system.trace == [] && d.system.links == map[]
  }

  /** Distinct devices have distinct transports. */
  predicate DistinctTransports(devices: seq<Device>) {
    forall i, j :: 0 <= i < j < |devices| ==>
      devices[i].transport == null || devices[i].transport != devices[j].transport
  }

  predicate Discoverable(e: Event) {
    e.Discovered? ==> DistinctTransports(e.devices)
  }
}
