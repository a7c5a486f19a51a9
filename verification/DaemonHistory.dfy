/**
 * How events extend the trace of calls, whatever the devices answer: nothing
 * is ever rewritten, and every new session is greeted with a heartbeat.
 */
module DaemonHistory {
  import opened Bytes
  import opened SpdmCalls
  import opened SpdmObjects
  import Attestation
  import opened DaemonSpec
  import S = SessionSpec

  predicate Extends(before: System, after: System) {
    S.Greeted(before.trace, after.trace)
  }

  lemma ExtendsNothing(s: System)
    ensures Extends(s, s)
  {}

  lemma ExtendsThrough(a: System, b: System, c: System)
    requires Extends(a, b) && Extends(b, c)
    ensures Extends(a, c)
  {
    S.GreetedThrough(a.trace, b.trace, c.trace);
  }

  lemma ExtendsLonger(before: System, after: System)
    requires Extends(before, after)
    ensures before.trace <= after.trace
  {}

  lemma CloseAtExtends(script: Script, s: System, i: nat)
    requires i < |s.responders|
    ensures Extends(s, CloseAt(script, s, i))
  {
    hide S.Stop, S.Greeted, S.Unstarted;
    if Active(s, i) {
      var session := s.responders[i].session.value;
      S.StopExtends(script, s.trace, Ctx(s, i), session);
      S.UnstartedGreeted(s.trace, S.Stop(script, s.trace, Ctx(s, i), session).trace);
    } else {
      ExtendsNothing(s);
    }
  }

  lemma OpenAtExtends(script: Script, cfg: Config, s: System, i: nat)
    requires i < |s.responders|
    ensures Extends(s, OpenAt(script, cfg, s, i))
  {
    hide S.OpenSecure, S.OpenAndGreet, S.Greeted;
    if Active(s, i) {
      ExtendsNothing(s);
    } else {
      S.OpenExtends(script, s.trace, cfg, Ctx(s, i), s.responders[i].session, 0);
    }
  }

  lemma AddDeviceExtends(script: Script, cfg: Config, s: System, device: Device, secure: bool)
    ensures Extends(s, AddDevice(script, cfg, s, device, secure))
  {
    hide S.Initialize, S.ApplyConfig, S.Connect, S.Greeted, S.Unstarted, OpenAt;
    if device.transport == null {
      ExtendsNothing(s);
    } else {
      var link := LinkOf(s.links, device.transport);
      var init := S.Initialize(script, s.trace, link);
      var applied := S.ApplyConfig(script, init.trace, init.value.0, cfg);
      var connected := S.Connect(script, applied.trace, init.value.0.ctx);
      S.InitializeExtends(script, s.trace, link);
      S.ConfigExtends(script, init.trace, init.value.0, cfg);
      S.ConnectExtends(script, applied.trace, init.value.0.ctx);
      S.UnstartedThrough(s.trace, init.trace, applied.trace);
      S.UnstartedThrough(s.trace, applied.trace, connected.trace);
      S.UnstartedGreeted(s.trace, init.trace);
      S.UnstartedGreeted(s.trace, applied.trace);
      S.UnstartedGreeted(s.trace, connected.trace);
      if init.value.1 && applied.value.1 && connected.value && secure {
        var links := PutLink(s.links, device.transport, applied.value.0);
        var added := DaemonSpec.System(links, connected.trace, s.responders + [Responder(device, None)]);
        OpenAtExtends(script, cfg, added, |s.responders|);
        ExtendsThrough(s, added, OpenAt(script, cfg, added, |s.responders|));
      }
    }
  }

  lemma ServeAtExtends(script: Script, s: System, i: nat, indices: seq<nat>, slot: nat)
    requires i < |s.responders|
    ensures Extends(s, ServeAt(script, s, i, indices, slot))
  {
    hide Attestation.Serve, S.Greeted, S.Unstarted;
    Attestation.ServeExtends(script, s.trace, Ctx(s, i), indices, slot);
    S.UnstartedGreeted(s.trace, ServeAt(script, s, i, indices, slot).trace);
  }

  lemma {:induction false} CloseFirstExtends(script: Script, s: System, n: nat)
    requires n <= |s.responders|
    ensures Extends(s, CloseFirst(script, s, n))
  {
    hide CloseAt, Extends;
    if n == 0 {
      ExtendsNothing(s);
    } else {
      CloseFirstExtends(script, s, n - 1);
      CloseAtExtends(script, CloseFirst(script, s, n - 1), n - 1);
      ExtendsThrough(s, CloseFirst(script, s, n - 1), CloseFirst(script, s, n));
    }
  }

  lemma {:induction false} OpenFirstExtends(script: Script, cfg: Config, s: System, n: nat)
    requires n <= |s.responders|
    ensures Extends(s, OpenFirst(script, cfg, s, n))
  {
    hide OpenAt, Extends;
    if n == 0 {
      ExtendsNothing(s);
    } else {
      OpenFirstExtends(script, cfg, s, n - 1);
      OpenAtExtends(script, cfg, OpenFirst(script, cfg, s, n - 1), n - 1);
      ExtendsThrough(s, OpenFirst(script, cfg, s, n - 1), OpenFirst(script, cfg, s, n));
    }
  }

  lemma {:induction false} AddFirstExtends(script: Script, cfg: Config, s: System, devices: seq<Device>,
                                           secure: bool, n: nat)
    requires n <= |devices|
    ensures Extends(s, AddFirst(script, cfg, s, devices, secure, n))
  {
    hide AddDevice, Extends;
    if n == 0 {
      ExtendsNothing(s);
    } else {
      var before := AddFirst(script, cfg, s, devices, secure, n - 1);
      AddFirstExtends(script, cfg, s, devices, secure, n - 1);
      AddDeviceExtends(script, cfg, before, devices[n - 1], secure);
      ExtendsThrough(s, before, AddFirst(script, cfg, s, devices, secure, n));
    }
  }

  lemma ClearExtends(script: Script, s: System)
    ensures Extends(s, ClearResponders(script, s))
  {
    hide CloseFirst, S.Greeted;
    CloseFirstExtends(script, s, |s.responders|);
  }

  lemma TearDownExtends(script: Script, s: System)
    ensures Extends(s, TearDown(script, s))
  {
    hide CloseFirst, ClearResponders, Extends;
    var closed := CloseFirst(script, s, |s.responders|);
    CloseFirstExtends(script, s, |s.responders|);
    ClearExtends(script, closed);
    ExtendsThrough(s, closed, TearDown(script, s));
  }

  lemma ProcessExtends(script: Script, cfg: Config, s: System, devices: seq<Device>, secure: bool)
    ensures Extends(s, Process(script, cfg, s, devices, secure))
  {
    hide TearDown, AddFirst, Extends;
    TearDownExtends(script, s);
    AddFirstExtends(script, cfg, TearDown(script, s), devices, secure, |devices|);
    ExtendsThrough(s, TearDown(script, s), Process(script, cfg, s, devices, secure));
  }

  lemma StepExtends(script: Script, cfg: Config, d: State, e: Event)
    ensures Extends(d.system, Step(script, cfg, d, e).system)
  {
    hide Process, TearDown, OpenFirst, CloseFirst, ServeAt, Extends;
    var s := d.system;
    ExtendsNothing(s);
    TearDownExtends(script, s);
    ProcessExtends(script, cfg, s, d.devices, d.secure);
    OpenFirstExtends(script, cfg, s, |s.responders|);
    CloseFirstExtends(script, s, |s.responders|);
    if e.Discovered? {
      ProcessExtends(script, cfg, s, e.devices, d.secure);
    }
    if e.Measure? && e.responder < |s.responders| {
      ServeAtExtends(script, s, e.responder, e.indices, e.slot);
    }
  }

  lemma {:induction false} RunExtends(script: Script, cfg: Config, d: State, events: seq<Event>)
    ensures Extends(d.system, Run(script, cfg, d, events).system)
    decreases |events|
  {
    hide Step, Extends;
    if events == [] {
      ExtendsNothing(d.system);
    } else {
      var before := Run(script, cfg, d, events[..|events| - 1]);
      RunExtends(script, cfg, d, events[..|events| - 1]);
      StepExtends(script, cfg, before, events[|events| - 1]);
      ExtendsThrough(d.system, before.system, Run(script, cfg, d, events).system);
    }
  }

  /** Running two lists of events is running the second from where the first led. */
  lemma {:induction false} RunAppend(script: Script, cfg: Config, d: State, first: seq<Event>, second: seq<Event>)
    ensures Run(script, cfg, d, first + second) == Run(script, cfg, Run(script, cfg, d, first), second)
    decreases |second|
  {
    hide Step;
    if second == [] {
      assert first + second == first;
    } else {
      var init := second[..|second| - 1];
      RunAppend(script, cfg, d, first, init);
      assert (first + second)[..|first + second| - 1] == first + init;
    }
  }
}
