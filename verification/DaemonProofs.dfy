/**
 * What every event keeps, whatever the devices answer: the invariant of the
 * daemon and the steps of its proof.
 */
module DaemonProofs {
  import opened Bytes
  import opened SpdmCalls
  import opened SpdmObjects
  import Attestation
  import opened DaemonSpec
  import S = SessionSpec

  // ----- the invariant of the system

  /** Contexts are allocations of the past, and no two transports share one. */
  ghost predicate ContextsValid(s: System) {
    && (forall t :: t in s.links ==> s.links[t].ctx <= |s.trace|)
    && (forall t, u :: t in s.links && u in s.links && t != u && s.links[t].ctx != 0 ==>
          s.links[t].ctx != s.links[u].ctx)
  }

  /** Every responder has a transport of its own whose context is initialised, configured and connected. */
  ghost predicate RespondersReady(cfg: Config, s: System) {
    && (forall i :: 0 <= i < |s.responders| ==>
          && s.responders[i].device.transport != null
          && s.responders[i].device.transport in s.links
          && Ctx(s, i) != 0
          && Ready(cfg, s.trace, Ctx(s, i)))
    && (forall i, j :: 0 <= i < j < |s.responders| ==>
          s.responders[i].device.transport != s.responders[j].device.transport)
  }

  /** What the trace knows of a session. */
  function OpenedAs(session: S.Session): Opened {
    Opened(session.id, session.period)
  }

  /** The sessions the responders hold are exactly the sessions open according to the trace. */
  ghost predicate SessionsMatch(s: System) {
    && (forall i :: 0 <= i < |s.responders| && Active(s, i) ==>
          Ctx(s, i) in Open(s.trace) && Open(s.trace)[Ctx(s, i)] == OpenedAs(s.responders[i].session.value))
    && (forall i :: 0 <= i < |s.responders| && !Active(s, i) ==> Ctx(s, i) !in Open(s.trace))
    && (forall c :: c in Open(s.trace) ==> exists i :: 0 <= i < |s.responders| && Active(s, i) && Ctx(s, i) == c)
  }

  /** The version a transport notes once it has been configured. */
  function VersionOf(cfg: Config): nat {
    if cfg.version == 0 then 0x11 else cfg.version
  }

  /** An open socket, a scratch buffer, and the configuration noted. */
  predicate InUse(cfg: Config, link: S.Link) {
    link.isOpen && link.scratch && link.version == VersionOf(cfg) && link.flags == cfg.requesterCapFlags
  }

  predicate VersionKnown(cfg: Config, link: S.Link) {
    link.version == 0x11 || link.version == VersionOf(cfg)
  }

  /** The transports of all responders are in use, and no transport notes another version. */
  ghost predicate LinksNoted(cfg: Config, s: System) {
    && (forall t :: t in s.links ==> VersionKnown(cfg, s.links[t]))
    && (forall i :: 0 <= i < |s.responders| ==> InUse(cfg, LinkOf(s.links, s.responders[i].device.transport)))
  }

  ghost predicate SystemInv(cfg: Config, s: System) {
    && Legal(cfg, s.trace) && ContextsValid(s) && RespondersReady(cfg, s) && SessionsMatch(s)
    && LinksNoted(cfg, s)
  }

  lemma LinksSame(cfg: Config, s: System, after: System)
    requires LinksNoted(cfg, s) && after.links == s.links && |after.responders| == |s.responders|
    requires forall i :: 0 <= i < |s.responders| ==> after.responders[i].device == s.responders[i].device
    ensures LinksNoted(cfg, after)
  {
    hide InUse, LinkOf;
  }

  lemma ContextsDiffer(cfg: Config, s: System, i: nat, j: nat)
    requires ContextsValid(s) && RespondersReady(cfg, s)
    requires i < |s.responders| && j < |s.responders| && i != j
    ensures Ctx(s, i) != Ctx(s, j)
  {
    hide Ready;
    assert s.responders[i].device.transport != s.responders[j].device.transport;
  }

  /** A longer trace and another session for one responder leave the other parts of the invariant alone. */
  lemma SetSessionReady(cfg: Config, s: System, i: nat, session: Option<S.Session>, trace: Trace)
    requires ContextsValid(s) && RespondersReady(cfg, s) && i < |s.responders| && s.trace <= trace
    ensures ContextsValid(SetSession(s, i, session, trace))
    ensures RespondersReady(cfg, SetSession(s, i, session, trace))
    ensures forall j :: 0 <= j < |s.responders| ==> Ctx(SetSession(s, i, session, trace), j) == Ctx(s, j)
  {
    hide Ready;
    var after := SetSession(s, i, session, trace);
    forall j | 0 <= j < |s.responders| ensures Ready(cfg, trace, Ctx(after, j)) {
      ReadyLater(cfg, s.trace, trace, Ctx(s, j));
    }
  }

  /** Only the session of responder `i` may differ, and no other responder is on its context. */
  ghost predicate OnlySession(s: System, after: System, i: nat)
    requires i < |s.responders|
  {
    && |after.responders| == |s.responders|
    && (forall j :: 0 <= j < |s.responders| ==> Ctx(after, j) == Ctx(s, j))
    && (forall j :: 0 <= j < |s.responders| && j != i ==>
          after.responders[j] == s.responders[j] && Ctx(s, j) != Ctx(s, i))
  }

  /** The open sessions after responder `i` was given a session, or lost the one it had. */
  function OpenWith(s: System, i: nat, session: Option<S.Session>): map<nat, Opened>
    requires i < |s.responders|
  {
    if S.IsActive(session) then Open(s.trace)[Ctx(s, i) := OpenedAs(session.value)] else Open(s.trace) - {Ctx(s, i)}
  }

  lemma SetSessionOnly(cfg: Config, s: System, i: nat, session: Option<S.Session>, trace: Trace)
    requires ContextsValid(s) && RespondersReady(cfg, s) && i < |s.responders| && s.trace <= trace
    ensures OnlySession(s, SetSession(s, i, session, trace), i)
  {
    hide Ready, ContextsValid, RespondersReady, Ctx;
    SetSessionReady(cfg, s, i, session, trace);
    forall j | 0 <= j < |s.responders| && j != i ensures Ctx(s, j) != Ctx(s, i) {
      ContextsDiffer(cfg, s, j, i);
    }
  }

  lemma HeldStayOpen(s: System, after: System, i: nat)
    requires SessionsMatch(s) && i < |s.responders| && OnlySession(s, after, i)
    requires Open(after.trace) == OpenWith(s, i, after.responders[i].session)
    ensures forall j :: 0 <= j < |after.responders| && Active(after, j) ==>
              Ctx(after, j) in Open(after.trace)
              && Open(after.trace)[Ctx(after, j)] == OpenedAs(after.responders[j].session.value)
    ensures forall j :: 0 <= j < |after.responders| && !Active(after, j) ==> Ctx(after, j) !in Open(after.trace)
  {
    hide Open, Ctx;
    forall j | 0 <= j < |after.responders|
      ensures if Active(after, j)
              then Ctx(after, j) in Open(after.trace)
                   && Open(after.trace)[Ctx(after, j)] == OpenedAs(after.responders[j].session.value)
              else Ctx(after, j) !in Open(after.trace)
    {
      if j != i {
        assert Active(after, j) == Active(s, j);
      }
    }
  }

  lemma OpenStayHeld(s: System, after: System, i: nat)
    requires SessionsMatch(s) && i < |s.responders| && OnlySession(s, after, i)
    requires Open(after.trace) == OpenWith(s, i, after.responders[i].session)
    ensures forall c :: c in Open(after.trace) ==>
              exists j :: 0 <= j < |after.responders| && Active(after, j) && Ctx(after, j) == c
  {
    hide Open, Ctx;
    forall c | c in Open(after.trace)
      ensures exists j :: 0 <= j < |after.responders| && Active(after, j) && Ctx(after, j) == c
    {
      if c == Ctx(s, i) {
        assert Active(after, i) && Ctx(after, i) == c;
      } else {
        var j :| 0 <= j < |s.responders| && Active(s, j) && Ctx(s, j) == c;
        assert Active(after, j) && Ctx(after, j) == c;
      }
    }
  }

  /** Giving one responder the session that the longer trace says is open on its context. */
  lemma SetSessionMatches(cfg: Config, s: System, i: nat, session: Option<S.Session>, trace: Trace)
    requires ContextsValid(s) && RespondersReady(cfg, s) && SessionsMatch(s)
    requires i < |s.responders| && s.trace <= trace
    requires Open(trace) == OpenWith(s, i, session)
    ensures SessionsMatch(SetSession(s, i, session, trace))
  {
    hide Open, OpenWith, Ready, ContextsValid, RespondersReady, OnlySession, Ctx;
    var after := SetSession(s, i, session, trace);
    SetSessionOnly(cfg, s, i, session, trace);
    HeldStayOpen(s, after, i);
    OpenStayHeld(s, after, i);
  }

  /** The same devices in the same order, and the same sessions except for responder `i`. */
  predicate SameDevices(s: System, after: System, i: nat) {
    && |after.responders| == |s.responders|
    && (forall j :: 0 <= j < |s.responders| ==> after.responders[j].device == s.responders[j].device)
    && (forall j :: 0 <= j < |s.responders| && j != i ==> after.responders[j] == s.responders[j])
  }

  lemma CloseAtKeeps(cfg: Config, script: Script, s: System, i: nat)
    requires SystemInv(cfg, s) && i < |s.responders|
    ensures SystemInv(cfg, CloseAt(script, s, i)) && !Active(CloseAt(script, s, i), i)
    ensures CloseAt(script, s, i).links == s.links
    ensures SameDevices(s, CloseAt(script, s, i), i)
  {
    hide Legal, Open, Ready, S.Stop, ContextsValid, RespondersReady, LinksNoted;
    LinksSame(cfg, s, CloseAt(script, s, i));
    if Active(s, i) {
      var session := s.responders[i].session.value;
      S.StopKept(cfg, script, s.trace, Ctx(s, i), session);
      var done := S.Stop(script, s.trace, Ctx(s, i), session);
      SetSessionReady(cfg, s, i, Some(done.value.0), done.trace);
      SetSessionMatches(cfg, s, i, Some(done.value.0), done.trace);
    }
  }

  lemma OpenAtKeeps(cfg: Config, script: Script, s: System, i: nat)
    requires SystemInv(cfg, s) && i < |s.responders|
    ensures SystemInv(cfg, OpenAt(script, cfg, s, i))
    ensures OpenAt(script, cfg, s, i).links == s.links
    ensures SameDevices(s, OpenAt(script, cfg, s, i), i)
  {
    hide Legal, Open, Ready, S.OpenSecure, S.SendHeartbeat, ContextsValid, RespondersReady, LinksNoted;
    LinksSame(cfg, s, OpenAt(script, cfg, s, i));
    if !Active(s, i) {
      var ctx := Ctx(s, i);
      ReadyOf(cfg, s, i);
      S.OpenKept(cfg, script, s.trace, ctx, s.responders[i].session, 0);
      var done := S.OpenSecure(script, s.trace, cfg, ctx, s.responders[i].session, 0);
      if done.value.1 {
        S.HeartbeatKept(cfg, script, done.trace, ctx, done.value.0.value);
      }
      var after := OpenAt(script, cfg, s, i);
      SetSessionReady(cfg, s, i, done.value.0, after.trace);
      SetSessionMatches(cfg, s, i, done.value.0, after.trace);
    }
  }

  lemma ContextOfResponder(cfg: Config, s: System, i: nat)
    requires SystemInv(cfg, s) && i < |s.responders|
    ensures Ctx(s, i) != 0
  {
    hide Legal, Ready, ContextsValid, SessionsMatch, LinksNoted;
  }

  lemma ReadyOf(cfg: Config, s: System, i: nat)
    requires RespondersReady(cfg, s) && i < |s.responders|
    ensures Ready(cfg, s.trace, Ctx(s, i))
  {
    hide Ready;
  }

  // ----- processing one device

  predicate Unused(s: System, t: Transport) {
    forall i :: 0 <= i < |s.responders| ==> s.responders[i].device.transport != t
  }

  lemma PutLinkValid(s: System, t: Transport, link: S.Link, trace: Trace)
    requires ContextsValid(s) && s.trace <= trace
    requires link.ctx == 0 || link.ctx == ContextOf(s.links, t) || |s.trace| < link.ctx <= |trace|
    ensures ContextsValid(s.(links := PutLink(s.links, t, link), trace := trace))
  {}

  lemma PutLinkOthers(s: System, t: Transport, link: S.Link, trace: Trace)
    requires Unused(s, t)
    ensures var after := s.(links := PutLink(s.links, t, link), trace := trace);
            forall i :: 0 <= i < |s.responders| ==>
              && Ctx(after, i) == Ctx(s, i)
              && (s.responders[i].device.transport in s.links ==>
                    s.responders[i].device.transport in after.links)
  {}

  lemma PutLinkNoted(cfg: Config, s: System, t: Transport, link: S.Link, trace: Trace)
    requires LinksNoted(cfg, s) && Unused(s, t) && VersionKnown(cfg, link)
    ensures LinksNoted(cfg, s.(links := PutLink(s.links, t, link), trace := trace))
  {
    hide InUse, VersionKnown;
    var after := s.(links := PutLink(s.links, t, link), trace := trace);
    forall i | 0 <= i < |s.responders|
      ensures LinkOf(after.links, s.responders[i].device.transport) == LinkOf(s.links, s.responders[i].device.transport)
    {}
  }

  /** A transport no responder uses may lose its context or get a new one. */
  lemma MoveContext(cfg: Config, s: System, t: Transport, link: S.Link, trace: Trace)
    requires SystemInv(cfg, s) && Unused(s, t) && S.Kept(cfg, s.trace, trace)
    requires link.ctx == 0 || link.ctx == ContextOf(s.links, t) || |s.trace| < link.ctx <= |trace|
    requires VersionKnown(cfg, link)
    ensures SystemInv(cfg, s.(links := PutLink(s.links, t, link), trace := trace))
  {
    hide Legal, Open, Ready, ContextsValid, LinksNoted, PutLink, Ctx;
    PutLinkValid(s, t, link, trace);
    PutLinkNoted(cfg, s, t, link, trace);
    PutLinkOthers(s, t, link, trace);
    LongerKeeps(cfg, s, s.(links := PutLink(s.links, t, link), trace := trace));
  }

  /** Calls that open and close no session keep the invariant, while the responders keep their contexts. */
  lemma LongerKeeps(cfg: Config, s: System, after: System)
    requires SystemInv(cfg, s) && ContextsValid(after) && LinksNoted(cfg, after)
    requires S.Kept(cfg, s.trace, after.trace) && after.responders == s.responders
    requires forall i :: 0 <= i < |s.responders| ==>
               Ctx(after, i) == Ctx(s, i) && s.responders[i].device.transport in after.links
    ensures SystemInv(cfg, after)
  {
    hide Legal, Open, Ready, ContextsValid, LinksNoted, Ctx;
    forall i | 0 <= i < |s.responders| ensures Ready(cfg, after.trace, Ctx(after, i)) {
      ReadyLater(cfg, s.trace, after.trace, Ctx(s, i));
    }
    forall c | c in Open(after.trace)
      ensures exists i :: 0 <= i < |after.responders| && Active(after, i) && Ctx(after, i) == c
    {
      var i :| 0 <= i < |s.responders| && Active(s, i) && Ctx(s, i) == c;
      assert Active(after, i) && Ctx(after, i) == c;
    }
  }

  /** Serving a request on a responder keeps the invariant and changes no responder and no session. */
  lemma ServeAtKeeps(cfg: Config, script: Script, s: System, i: nat, indices: seq<nat>, slot: nat)
    requires SystemInv(cfg, s) && i < |s.responders|
    ensures SystemInv(cfg, ServeAt(script, s, i, indices, slot))
    ensures Open(ServeAt(script, s, i, indices, slot).trace) == Open(s.trace)
  {
    hide Legal, Open, Ready, Ctx, LinksNoted, Attestation.Serve;
    Attestation.ServeKept(cfg, script, s.trace, Ctx(s, i), indices, slot);
    var after := ServeAt(script, s, i, indices, slot);
    SameLinks(s, after);
    LinksSame(cfg, s, after);
    LongerKeeps(cfg, s, after);
  }

  lemma ServeAtSame(script: Script, s: System, i: nat, indices: seq<nat>, slot: nat)
    requires i < |s.responders|
    ensures var after := ServeAt(script, s, i, indices, slot);
            && after.responders == s.responders && after.links == s.links
            && Devices(after) == Devices(s)
            && forall j :: 0 <= j < |s.responders| ==> Active(after, j) == Active(s, j)
  {
    hide Attestation.Serve;
  }

  lemma SameLinks(s: System, after: System)
    requires after.links == s.links && after.responders == s.responders
    ensures forall i :: 0 <= i < |s.responders| ==> Ctx(after, i) == Ctx(s, i)
  {}

  function WithDevice(s: System, device: Device): System {
    s.(responders := s.responders + [Responder(device, None)])
  }

  lemma WithDeviceSame(s: System, device: Device)
    ensures var after, n := WithDevice(s, device), |s.responders|;
            && |after.responders| == n + 1
            && (forall i :: 0 <= i < n ==>
                  && after.responders[i] == s.responders[i]
                  && Ctx(after, i) == Ctx(s, i)
                  && Active(after, i) == Active(s, i))
            && after.responders[n].device == device
            && Ctx(after, n) == ContextOf(s.links, device.transport)
            && !Active(after, n)
  {}

  lemma UnusedContext(cfg: Config, s: System, device: Device)
    requires ContextsValid(s) && RespondersReady(cfg, s)
    requires device.transport != null && device.transport in s.links && Unused(s, device.transport)
    requires ContextOf(s.links, device.transport) != 0
    ensures forall i :: 0 <= i < |s.responders| ==> Ctx(s, i) != ContextOf(s.links, device.transport)
  {
    hide Ready;
  }

  lemma WithDeviceReady(cfg: Config, s: System, device: Device)
    requires RespondersReady(cfg, s)
    requires device.transport != null && device.transport in s.links && Unused(s, device.transport)
    requires Ready(cfg, s.trace, ContextOf(s.links, device.transport))
    ensures RespondersReady(cfg, WithDevice(s, device))
  {
    hide Ready, Ctx;
    WithDeviceSame(s, device);
    ReadyContext(cfg, s.trace, ContextOf(s.links, device.transport));
  }

  lemma WithDeviceMatches(s: System, device: Device)
    requires SessionsMatch(s)
    requires forall i :: 0 <= i < |s.responders| ==> Ctx(s, i) != ContextOf(s.links, device.transport)
    ensures SessionsMatch(WithDevice(s, device))
  {
    hide Open, Ctx, ContextOf;
    var after, ctx := WithDevice(s, device), ContextOf(s.links, device.transport);
    WithDeviceSame(s, device);
    assert ctx !in Open(s.trace);
    forall c | c in Open(s.trace)
      ensures exists i :: 0 <= i < |after.responders| && Active(after, i) && Ctx(after, i) == c
    {
      var i :| 0 <= i < |s.responders| && Active(s, i) && Ctx(s, i) == c;
      assert Active(after, i) && Ctx(after, i) == c;
    }
  }

  /** A device on a ready transport no responder uses becomes a responder without a session. */
  lemma PushKeeps(cfg: Config, s: System, device: Device)
    requires SystemInv(cfg, s)
    requires device.transport != null && device.transport in s.links && Unused(s, device.transport)
    requires Ready(cfg, s.trace, ContextOf(s.links, device.transport))
    requires InUse(cfg, LinkOf(s.links, device.transport))
    ensures SystemInv(cfg, WithDevice(s, device))
  {
    hide Legal, Ready, RespondersReady, SessionsMatch, ContextOf, InUse, VersionKnown;
    ReadyContext(cfg, s.trace, ContextOf(s.links, device.transport));
    UnusedContext(cfg, s, device);
    WithDeviceReady(cfg, s, device);
    WithDeviceMatches(s, device);
  }

  /** Whether processing a device has appended a responder for it, and left the others alone. */
  predicate AddedOrNot(s: System, after: System, device: Device, secure: bool) {
    || after.responders == s.responders
    || (&& |after.responders| == |s.responders| + 1
        && after.responders[..|s.responders|] == s.responders
        && after.responders[|s.responders|].device == device
        && device.transport != null
        && (Active(after, |s.responders|) ==> secure))
  }

  lemma LegalOf(cfg: Config, s: System)
    requires SystemInv(cfg, s)
    ensures Legal(cfg, s.trace)
  {}

  lemma VersionOfLink(cfg: Config, s: System, t: Transport)
    requires SystemInv(cfg, s)
    ensures VersionKnown(cfg, LinkOf(s.links, t))
  {
    hide Legal, ContextsValid, RespondersReady, SessionsMatch;
  }

  lemma AddDeviceKeeps(cfg: Config, script: Script, s: System, device: Device, secure: bool)
    requires SystemInv(cfg, s)
    requires device.transport != null ==> Unused(s, device.transport)
    ensures SystemInv(cfg, AddDevice(script, cfg, s, device, secure))
    ensures AddedOrNot(s, AddDevice(script, cfg, s, device, secure), device, secure)
  {
    hide Legal, Open, Ready, S.Initialize, S.ApplyConfig, S.Connect, SystemInv, S.Kept, OpenAt;
    if device.transport != null {
      var t := device.transport;
      var before := LinkOf(s.links, t);
      LegalOf(cfg, s);
      VersionOfLink(cfg, s, t);
      S.PrepareKept(cfg, script, s.trace, before);
      var init := S.Initialize(script, s.trace, before);
      var applied := S.ApplyConfig(script, init.trace, init.value.0, cfg);
      var connected := S.Connect(script, applied.trace, init.value.0.ctx);
      var links := PutLink(s.links, t, applied.value.0);
      S.InitializeLink(script, s.trace, before);
      ConfiguredLink(script, init.trace, init.value.0, cfg);
      if !init.value.1 {
        MoveContext(cfg, s, t, init.value.0, init.trace);
      } else {
        MoveContext(cfg, s, t, applied.value.0, applied.trace);
        MoveContext(cfg, s, t, applied.value.0, connected.trace);
        if applied.value.1 && connected.value {
          var ready := s.(links := links, trace := connected.trace);
          assert ContextOf(links, t) == init.value.0.ctx;
          PushKeeps(cfg, ready, device);
          var added := System(links, connected.trace, s.responders + [Responder(device, None)]);
          OpenAtKeeps(cfg, script, added, |s.responders|);
        }
      }
    }
  }

  // ----- the loops

  function Devices(s: System): seq<Device> {
    seq(|s.responders|, i requires 0 <= i < |s.responders| => s.responders[i].device)
  }

  predicate NoneActive(s: System) {
    forall i :: 0 <= i < |s.responders| ==> !Active(s, i)
  }

  lemma DevicesSame(s: System, after: System, i: nat)
    requires SameDevices(s, after, i)
    ensures Devices(after) == Devices(s)
  {}

  lemma {:induction false} CloseFirstKeeps(cfg: Config, script: Script, s: System, n: nat)
    requires SystemInv(cfg, s) && n <= |s.responders|
    ensures var after := CloseFirst(script, s, n);
            && SystemInv(cfg, after) && Devices(after) == Devices(s)
            && (forall i :: 0 <= i < n ==> !Active(after, i))
            && (forall i :: n <= i < |s.responders| ==> after.responders[i] == s.responders[i])
  {
    hide SystemInv, CloseAt;
    if n > 0 {
      CloseFirstKeeps(cfg, script, s, n - 1);
      var before := CloseFirst(script, s, n - 1);
      CloseAtKeeps(cfg, script, before, n - 1);
      var after := CloseFirst(script, s, n);
      DevicesSame(before, after, n - 1);
      forall i | 0 <= i < n ensures !Active(after, i) {
        if i < n - 1 {
          assert !Active(before, i) && after.responders[i] == before.responders[i];
        }
      }
    }
  }

  lemma {:induction false} OpenFirstKeeps(cfg: Config, script: Script, s: System, n: nat)
    requires SystemInv(cfg, s) && n <= |s.responders|
    ensures SystemInv(cfg, OpenFirst(script, cfg, s, n)) && Devices(OpenFirst(script, cfg, s, n)) == Devices(s)
  {
    hide SystemInv, OpenAt;
    if n > 0 {
      OpenFirstKeeps(cfg, script, s, n - 1);
      var before := OpenFirst(script, cfg, s, n - 1);
      OpenAtKeeps(cfg, script, before, n - 1);
      DevicesSame(before, OpenFirst(script, cfg, s, n), n - 1);
    }
  }

  /** With no session held, none is open, and the responders can go. */
  lemma DropKeeps(cfg: Config, s: System)
    requires SystemInv(cfg, s) && NoneActive(s)
    ensures SystemInv(cfg, s.(responders := [])) && Open(s.trace) == map[]
  {
    hide Legal, Open, Ready;
    assert forall c :: c !in Open(s.trace);
  }

  lemma ClearKeeps(cfg: Config, script: Script, s: System)
    requires SystemInv(cfg, s)
    ensures var after := ClearResponders(script, s);
            SystemInv(cfg, after) && after.responders == [] && Open(after.trace) == map[]
  {
    hide SystemInv, Open, CloseFirst;
    CloseFirstKeeps(cfg, script, s, |s.responders|);
    DropKeeps(cfg, CloseFirst(script, s, |s.responders|));
  }

  lemma TearDownKeeps(cfg: Config, script: Script, s: System)
    requires SystemInv(cfg, s)
    ensures var after := TearDown(script, s);
            SystemInv(cfg, after) && after.responders == [] && Open(after.trace) == map[]
  {
    hide SystemInv, Open, CloseFirst, ClearResponders;
    CloseFirstKeeps(cfg, script, s, |s.responders|);
    ClearKeeps(cfg, script, CloseFirst(script, s, |s.responders|));
  }

  /** `a` is `b` with some elements left out. */
  predicate IsSubsequence<T(==)>(a: seq<T>, b: seq<T>) {
    || a == []
    || (b != [] && a[|a| - 1] == b[|b| - 1] && IsSubsequence(a[..|a| - 1], b[..|b| - 1]))
    || (b != [] && IsSubsequence(a, b[..|b| - 1]))
  }

  lemma {:induction false} SubsequenceElements<T>(a: seq<T>, b: seq<T>)
    requires IsSubsequence(a, b)
    ensures |a| <= |b| && forall x :: x in a ==> x in b
    decreases |b|
  {
    if a != [] {
      assert a == a[..|a| - 1] + [a[|a| - 1]];
      if a[|a| - 1] == b[|b| - 1] && IsSubsequence(a[..|a| - 1], b[..|b| - 1]) {
        SubsequenceElements(a[..|a| - 1], b[..|b| - 1]);
      } else {
        SubsequenceElements(a, b[..|b| - 1]);
      }
    }
  }

  lemma SubsequenceCases<T>(a: seq<T>, b: seq<T>)
    requires IsSubsequence(a, b) && a != []
    ensures b != []
    ensures IsSubsequence(a, b[..|b| - 1])
         || (a[|a| - 1] == b[|b| - 1] && IsSubsequence(a[..|a| - 1], b[..|b| - 1]))
  {}

  lemma SubsequenceGrows<T>(a: seq<T>, b: seq<T>, x: T)
    requires IsSubsequence(a, b)
    ensures IsSubsequence(a, b + [x]) && IsSubsequence(a + [x], b + [x])
  {
    assert (b + [x])[..|b|] == b && (a + [x])[..|a|] == a;
  }

  predicate ActiveOnlyIf(s: System, secure: bool) {
    secure || NoneActive(s)
  }

  lemma {:induction false} AddFirstKeeps(cfg: Config, script: Script, s: System, devices: seq<Device>,
                                         secure: bool, n: nat)
    requires SystemInv(cfg, s) && s.responders == [] && DistinctTransports(devices) && n <= |devices|
    ensures var after := AddFirst(script, cfg, s, devices, secure, n);
            SystemInv(cfg, after) && IsSubsequence(Devices(after), devices[..n]) && ActiveOnlyIf(after, secure)
  {
    hide SystemInv, AddDevice, IsSubsequence;
    if n == 0 {
      NothingIsSubsequence(devices[..0], Devices(s));
    } else {
      AddFirstKeeps(cfg, script, s, devices, secure, n - 1);
      var before := AddFirst(script, cfg, s, devices, secure, n - 1);
      var device := devices[n - 1];
      SubsequenceElements(Devices(before), devices[..n - 1]);
      forall i | 0 <= i < |before.responders| && device.transport != null
        ensures before.responders[i].device.transport != device.transport
      {
        assert Devices(before)[i] in devices[..n - 1];
      }
      AddDeviceKeeps(cfg, script, before, device, secure);
      var after := AddFirst(script, cfg, s, devices, secure, n);
      SubsequenceGrows(Devices(before), devices[..n - 1], device);
      assert devices[..n] == devices[..n - 1] + [device];
      AddedActive(before, after, device, secure);
      if after.responders == before.responders {
        assert Devices(after) == Devices(before);
      } else {
        assert Devices(after) == Devices(before) + [device];
      }
    }
  }

  lemma NothingIsSubsequence<T>(b: seq<T>, a: seq<T>)
    requires a == []
    ensures IsSubsequence(a, b)
  {}

  lemma AddedActive(before: System, after: System, device: Device, secure: bool)
    requires AddedOrNot(before, after, device, secure)
    requires ActiveOnlyIf(before, secure)
    ensures ActiveOnlyIf(after, secure)
  {
    if !secure {
      forall i | 0 <= i < |after.responders| ensures !Active(after, i) {
        if i < |before.responders| {
          assert !Active(before, i);
          assert after.responders[..|before.responders|][i] == before.responders[i];
        }
      }
    }
  }

  lemma ProcessKeeps(cfg: Config, script: Script, s: System, devices: seq<Device>, secure: bool)
    requires SystemInv(cfg, s) && DistinctTransports(devices)
    ensures var after := Process(script, cfg, s, devices, secure);
            SystemInv(cfg, after) && IsSubsequence(Devices(after), devices) && ActiveOnlyIf(after, secure)
  {
    hide SystemInv, TearDown, AddFirst, IsSubsequence;
    TearDownKeeps(cfg, script, s);
    AddFirstKeeps(cfg, script, TearDown(script, s), devices, secure, |devices|);
    assert devices[..|devices|] == devices;
  }

  // ----- the invariant of the daemon

  ghost predicate DaemonInv(cfg: Config, d: State) {
    && SystemInv(cfg, d.system)
    && (!d.enabled ==> d.system.responders == [])
    && ActiveOnlyIf(d.system, d.secure)
    && IsSubsequence(Devices(d.system), d.devices)
    && DistinctTransports(d.devices)
  }

  lemma InitialInv(cfg: Config, d: State)
    requires Initial(d)
    ensures DaemonInv(cfg, d)
  {}

  lemma StepKeeps(cfg: Config, script: Script, d: State, e: Event)
    requires DaemonInv(cfg, d) && Discoverable(e)
    ensures DaemonInv(cfg, Step(script, cfg, d, e))
  {
    hide SystemInv, Process, TearDown, OpenFirst, CloseFirst, ServeAt, IsSubsequence;
    var s := d.system;
    match e
    case Discovered(devices) =>
      ProcessKeeps(cfg, script, s, devices, d.secure);
      NoDevices(s, devices);
    case SetEnabled(value) =>
      ProcessKeeps(cfg, script, s, d.devices, d.secure);
      TearDownKeeps(cfg, script, s);
      NoDevices(TearDown(script, s), d.devices);
    case SetSecure(value) =>
      OpenFirstKeeps(cfg, script, s, |s.responders|);
      CloseFirstKeeps(cfg, script, s, |s.responders|);
    case Measure(i, indices, _, slot) =>
      if i < |s.responders| {
        ServeAtKeeps(cfg, script, s, i, indices, slot);
        ServeAtSame(script, s, i, indices, slot);
      }
  }

  lemma NoDevices(s: System, devices: seq<Device>)
    ensures s.responders == [] ==> IsSubsequence(Devices(s), devices)
  {}

  ghost predicate AllDiscoverable(events: seq<Event>) {
    forall i :: 0 <= i < |events| ==> Discoverable(events[i])
  }

  lemma {:induction false} RunKeeps(cfg: Config, script: Script, d: State, events: seq<Event>)
    requires DaemonInv(cfg, d) && AllDiscoverable(events)
    ensures DaemonInv(cfg, Run(script, cfg, d, events))
    decreases |events|
  {
    hide DaemonInv, Step;
    if events != [] {
      RunKeeps(cfg, script, d, events[..|events| - 1]);
      StepKeeps(cfg, script, Run(script, cfg, d, events[..|events| - 1]), events[|events| - 1]);
    }
  }

  // ----- counting sessions

  function ActiveCount(s: System, n: nat): nat
    requires n <= |s.responders|
  {
    if n == 0 then 0 else ActiveCount(s, n - 1) + (if Active(s, n - 1) then 1 else 0)
  }

  function ActiveContexts(s: System, n: nat): set<nat>
    requires n <= |s.responders|
  {
    set i | 0 <= i < n && Active(s, i) :: Ctx(s, i)
  }

  lemma {:induction false} ActiveContextsCount(cfg: Config, s: System, n: nat)
    requires ContextsValid(s) && RespondersReady(cfg, s) && n <= |s.responders|
    ensures |ActiveContexts(s, n)| == ActiveCount(s, n)
  {
    hide ContextsValid, RespondersReady, Ctx;
    if n > 0 {
      ActiveContextsCount(cfg, s, n - 1);
      forall i | 0 <= i < n - 1 ensures Ctx(s, i) != Ctx(s, n - 1) {
        ContextsDiffer(cfg, s, i, n - 1);
      }
      if Active(s, n - 1) {
        assert ActiveContexts(s, n) == ActiveContexts(s, n - 1) + {Ctx(s, n - 1)};
      } else {
        assert ActiveContexts(s, n) == ActiveContexts(s, n - 1);
      }
    }
  }

  lemma OpenIsActive(cfg: Config, s: System)
    requires SystemInv(cfg, s)
    ensures |Open(s.trace)| == ActiveCount(s, |s.responders|)
  {
    hide Legal, Open, Ready, Ctx;
    ActiveContextsCount(cfg, s, |s.responders|);
    assert Open(s.trace).Keys == ActiveContexts(s, |s.responders|);
    assert |Open(s.trace)| == |Open(s.trace).Keys|;
  }
}
