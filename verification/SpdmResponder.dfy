/**
 * The responder of one device on D-Bus: it owns the device's secure session
 * and the object that serves measurement requests.
 */
module SpdmResponder {
  import opened Bytes
  import opened SpdmCalls
  import opened SpdmObjects
  import opened Attestation
  import S = SessionSpec

  class SPDMDBusResponder {
    const device: Device
    const componentIntegrity: ComponentIntegrity
    var session: SpdmSession?

    /** The objects of a responder; the source then connects, and throws when that fails. */
    constructor (device: Device)
      ensures this.device == device && session == null
      ensures componentIntegrity.transport == device.transport
    {
      this.device := device;
      componentIntegrity := new ComponentIntegrity(device.transport);
      session := null;
    }

    ghost predicate Valid()
      reads this
    {
      && componentIntegrity.transport == device.transport
      && (session != null ==> session.transport == device.transport)
    }

    ghost function State(): Option<S.Session>
      reads this, session
    {
      if session == null then None else Some(session.State())
    }

    /** The context of the responder's transport, null when there is no transport. */
    ghost function Context(): nat
      reads device.transport
    {
      if device.transport == null then 0 else device.transport.spdmContext
    }

    predicate SecureSessionActive()
      reads this, session
    {
      session != null && session.isActive
    }

    method OpenSecureSession(lib: Libspdm, cfg: Config, slotId: nat) returns (ok: bool)
      requires Valid()
      modifies this, session, lib
      ensures Valid() && (session == old(session) || (old(session) == null && fresh(session)))
      ensures S.OpenSecure(lib.script, old(lib.trace), cfg, Context(), old(State()), slotId)
           == S.Done(lib.trace, (State(), ok))
    {
      hide S.InstallPeerRoot, S.Start;
      NullContext(lib.script, lib.trace, cfg);
      if device.transport == null {
        return false;
      }
      ok := InstallPeerRootCert(lib, device.transport, cfg);
      if !ok {
        return false;
      }
      if session == null {
        session := new SpdmSession(device.transport);
      }
      ActiveStart(lib.script, lib.trace, session.transport.spdmContext, session.State(), slotId);
      if session.isActive {
        return true;
      }
      ok := session.Start(lib, slotId, false);
    }

    method CloseSecureSession(lib: Libspdm) returns (ok: bool)
      requires Valid()
      modifies session, lib
      ensures session == null ==> ok && lib.trace == old(lib.trace)
      ensures session != null ==>
                S.Stop(lib.script, old(lib.trace), Context(), old(session.State()))
                  == S.Done(lib.trace, (session.State(), ok))
    {
      if session == null {
        return true;
      }
      ok := session.Stop(lib);
    }

    method SendHeartbeat(lib: Libspdm) returns (ok: bool)
      requires Valid()
      modifies lib
      ensures session == null ==> !ok && lib.trace == old(lib.trace)
      ensures session != null ==>
                S.SendHeartbeat(lib.script, old(lib.trace), Context(), session.State()) == S.Done(lib.trace, ok)
    {
      if session == null || !session.isActive {
        return false;
      }
      ok := session.Heartbeat(lib);
    }

    /** Opening the session, and a heartbeat at once when that worked. */
    method OpenAndGreet(lib: Libspdm, cfg: Config)
      requires Valid()
      modifies this, session, lib
      ensures Valid() && (session == old(session) || (old(session) == null && fresh(session)))
      ensures State() == S.OpenSecure(lib.script, old(lib.trace), cfg, Context(), old(State()), 0).value.0
      ensures lib.trace == S.OpenAndGreet(lib.script, old(lib.trace), cfg, Context(), old(State()), 0)
    {
      hide S.OpenSecure, S.SendHeartbeat;
      var ok := OpenSecureSession(lib, cfg, 0);
      if ok {
        var _ := SendHeartbeat(lib);
      }
    }

    /** The destructor, which destroys the session it owns. */
    method Destroy(lib: Libspdm)
      requires Valid()
      modifies session, lib
      ensures session == null ==> lib.trace == old(lib.trace)
      ensures session != null ==>
                && var done := S.Stop(lib.script, old(lib.trace), Context(), old(session.State()));
                   lib.trace == done.trace && session.State() == done.value.0
    {
      if session != null {
        session.Destroy(lib);
      }
    }
  }

  lemma NullContext(script: Script, trace: Trace, cfg: Config)
    ensures S.InstallPeerRoot(script, trace, 0, cfg) == S.Done(trace, false)
  {}

  lemma ActiveStart(script: Script, trace: Trace, ctx: nat, s: S.Session, slot: nat)
    ensures ctx != 0 && s.active ==> S.Start(script, trace, ctx, s, slot, false) == S.Done(trace, (s, true))
  {}
}
