/** The certificate manager as an object whose methods are its critical sections, the Rotate RPC that
    drives it, and the target that is notified (gnoi/cert/manager.go, gnoi/cert/server.go,
    gnoi_target/gnoi_target.go). Every method is tied to the step of the protocol that it takes. */
module CertServer {
  import opened Text
  import opened Certificates

  datatype Kind = Encrypted | Authenticated

  /** The target of gnoi_target.go: its mode and the gRPC server that serves in it. */
  class Target {
    var bootstrapping: bool
    var grpcServer: Option<Kind>
    var starts: nat

    /** The target just before main calls notify for the first time. */
    constructor ()
      ensures !bootstrapping && grpcServer == None && starts == 0
    {
      bootstrapping, grpcServer, starts := false, None, 0;
    }

    /** Once notified, the server is the one for the mode. */
    predicate Serves()
      reads this
    {
      grpcServer == Some(if bootstrapping then Encrypted else Authenticated)
    }

    /** Switches mode when the credentials call for it; a new server starts exactly on a switch. */
    method Notify(certs: nat, caCerts: nat)
      requires Serves() || (grpcServer == None && !bootstrapping && (certs == 0 || caCerts == 0))
      modifies this
      ensures Serves() && (bootstrapping <==> certs == 0 || caCerts == 0)
      ensures grpcServer == Some(if certs == 0 || caCerts == 0 then Encrypted else Authenticated)
      ensures starts == old(starts) + (if bootstrapping != old(bootstrapping) then 1 else 0)
    {
      var hasCredentials := certs != 0 && caCerts != 0;
      if bootstrapping != !hasCredentials {
        if bootstrapping {
          grpcServer := Some(Authenticated);
        } else {
          grpcServer := Some(Encrypted);
        }
        bootstrapping := !bootstrapping;
        starts := starts + 1;
      }
    }
  }

  class Manager {
    var certInfo: map<Id, Info>
    var caBundle: seq<Cert>
    var locks: set<Id>

    // What is outstanding: closures handed out, installs not yet accepted, notifications started.
    var open: map<Id, Ticket>
    var installing: set<Id>
    var pending: nat
    const target: Target

    constructor (target: Target)
      requires target.Serves() && target.bootstrapping
      ensures this.target == target && View() == START
    {
      certInfo, caBundle, locks := map[], [], {};
      open, installing, pending := map[], {}, 0;
      this.target := target;
    }

    ghost function View(): System
      reads this, target
    {
      System(certInfo, caBundle, locks, open, installing, pending, target.bootstrapping)
    }

    /** update: the closures are returned as what they hold on to. */
    method Update(requireExisting: bool, certID: Id, load: Load) returns (r: Result<Option<Ticket>>)
      modifies this`certInfo, this`caBundle, this`locks, this`pending
      ensures View() == Certificates.Update(old(View()), requireExisting, certID, load)
      ensures r.Ok? <==> Loads(old(View()), requireExisting, certID, load)
      ensures r.Ok? && requireExisting ==>
                r.value == Some(Ticket(old(certInfo)[certID], if load.cas == [] then None else Some(old(caBundle))))
    {
      if certID in certInfo && !requireExisting {
        return Err;
      } else if certID !in certInfo && requireExisting {
        return Err;
      }
      if certID in locks {
        return Err;
      }
      locks := locks + {certID};
      if load.pem.None? {
        return Err;
      }
      var oldCertInfo := if certID in certInfo then Some(certInfo[certID]) else None;
      certInfo := certInfo[certID := Info(certID, load.pem.value, load.now)];
      var oldCABundle: Option<seq<Cert>> := None;
      if |load.cas| != 0 {
        var newBundle: seq<Cert> := [];
        for i := 0 to |load.cas|
          invariant forall j :: 0 <= j < i ==> load.cas[j].Some?
          invariant |newBundle| == i && forall j :: 0 <= j < i ==> newBundle[j] == load.cas[j].value
        {
          if load.cas[i].None? {
            return Err;
          }
          newBundle := newBundle + [load.cas[i].value];
        }
        assert newBundle == Bundle(load.cas);
        oldCABundle := Some(caBundle);
        caBundle := newBundle;
      }
      pending := pending + 1;
      return Ok(if oldCertInfo.Some? then Some(Ticket(oldCertInfo.value, oldCABundle)) else None);
    }

    /** The first half of Install; the lock is still held. */
    method InstallLoad(certID: Id, load: Load) returns (ok: bool)
      modifies this
      ensures View() == Apply(old(View()), Step.InstallLoad(certID, load))
      ensures ok <==> Loads(old(View()), false, certID, load)
    {
      var r := Update(false, certID, load);
      ok := r.Ok?;
      if ok {
        installing := installing + {certID};
      }
    }

    /** The accept closure of an install. */
    method InstallAccept(certID: Id)
      requires certID in installing
      modifies this
      ensures View() == Apply(old(View()), Step.InstallAccept(certID))
    {
      locks := locks - {certID};
      installing := installing - {certID};
    }

    method Rotate(certID: Id, load: Load) returns (r: Result<Ticket>)
      modifies this
      ensures View() == Apply(old(View()), RotateLoad(certID, load))
      ensures r.Ok? <==> Loads(old(View()), true, certID, load)
      ensures r.Ok? ==> certID in open && open[certID] == r.value
    {
      var u := Update(true, certID, load);
      if u.Err? {
        return Err;
      }
      open := open[certID := u.value.value];
      return Ok(u.value.value);
    }

    /** The accept closure of a rotation. */
    method Accept(certID: Id)
      requires certID in open
      modifies this
      ensures View() == Apply(old(View()), Step.Accept(certID))
    {
      locks := locks - {certID};
      open := open - {certID};
    }

    /** The rollback closure of a rotation, with what it holds on to. */
    method Rollback(certID: Id, ticket: Ticket)
      requires certID in open && open[certID] == ticket
      modifies this
      ensures View() == Apply(old(View()), Step.Rollback(certID))
    {
      certInfo := certInfo[certID := ticket.held];
      if ticket.heldBundle.Some? {
        caBundle := ticket.heldBundle.value;
      }
      locks := locks - {certID};
      open := open - {certID};
      pending := pending + 1;
    }

    method Revoke(revoke: seq<Id>) returns (revoked: seq<Id>, notRevoked: set<Id>)
      modifies this
      ensures View() == Apply(old(View()), Step.Revoke(revoke))
      ensures (set id | id in revoked) == Revoked(old(View()), revoke)
      ensures forall id :: id in revoked <==> id in revoke && id in old(certInfo) && id !in old(locks)
      ensures forall i, j :: 0 <= i < j < |revoked| ==> revoked[i] != revoked[j]
      ensures forall id :: id in revoke ==> id in revoked || id in notRevoked
      ensures forall id :: id in notRevoked ==> id in revoke && (id !in certInfo || id in locks)
    {
      revoked, notRevoked := [], {};
      for i := 0 to |revoke|
        invariant locks == old(locks) && caBundle == old(caBundle) && pending == old(pending)
        invariant open == old(open) && installing == old(installing)
        invariant (set id | id in revoked) == Revoked(old(View()), revoke[..i])
        invariant forall j, k :: 0 <= j < k < |revoked| ==> revoked[j] != revoked[k]
        invariant certInfo == old(certInfo) - Revoked(old(View()), revoke[..i])
        invariant forall id :: id in revoke[..i] ==> id in revoked || id in notRevoked
        invariant forall id :: id in notRevoked ==> id in revoke && (id !in certInfo || id in locks)
      {
        var certID := revoke[i];
        RevokedSnoc(old(View()), revoke[..i], certID);
        assert revoke[..i + 1] == revoke[..i] + [certID];
        if certID in locks {
          notRevoked := notRevoked + {certID};
        } else if certID in certInfo {
          certInfo := certInfo - {certID};
          revoked := revoked + [certID];
        } else {
          notRevoked := notRevoked + {certID};
        }
      }
      assert revoke[..|revoke|] == revoke;
      RevokedAre(old(View()), revoke, revoked);
      pending := pending + 1;
    }

    /** One notification fires: the notifier gets the counts as they are now. */
    method Notify()
      requires target.Serves()
      modifies this, target
      ensures target.Serves() && View() == Apply(old(View()), Step.Notify)
    {
      if pending > 0 {
        pending := pending - 1;
        target.Notify(|certInfo|, |caBundle|);
      }
    }

    /** A step taken by some other session or by the scheduler. */
    method Take(step: Step)
      requires target.Serves()
      modifies this, target
      ensures target.Serves() && View() == Apply(old(View()), step)
    {
      match step {
        case InstallLoad(id, load) =>
          var _ := InstallLoad(id, load);
        case InstallAccept(id) =>
          if id in installing {
            InstallAccept(id);
          }
        case RotateLoad(id, load) =>
          var _ := Rotate(id, load);
        case Accept(id) =>
          if id in open {
            Accept(id);
          }
        case Rollback(id) =>
          if id in open {
            Rollback(id, open[id]);
          }
        case Abandon(id) =>
          open := open - {id};
        case Revoke(ids) =>
          var _, _ := Revoke(ids);
        case Notify =>
          Notify();
      }
    }

    method TakeAll(steps: seq<Step>)
      requires target.Serves()
      modifies this, target
      ensures target.Serves() && View() == Run(old(View()), steps)
    {
      for i := 0 to |steps|
        invariant target.Serves() && View() == Run(old(View()), steps[..i])
      {
        assert Init(steps[..i + 1]) == steps[..i];
        Take(steps[i]);
      }
      assert steps[..|steps|] == steps;
    }
  }

  lemma RevokedSnoc(s: System, ids: seq<Id>, id: Id)
    ensures Revoked(s, ids + [id]) ==
            Revoked(s, ids) + (if id !in s.locks && id in s.certInfo then {id} else {})
  {
  }

  lemma RevokedAre(s: System, ids: seq<Id>, revoked: seq<Id>)
    requires (set id | id in revoked) == Revoked(s, ids)
    ensures forall id :: id in revoked <==> id in ids && id in s.certInfo && id !in s.locks
  {
    forall id
      ensures id in revoked <==> id in ids && id in s.certInfo && id !in s.locks
    {
      assert id in revoked <==> id in (set x | x in revoked);
      assert id in Revoked(s, ids) <==> id in ids && id !in s.locks && id in s.certInfo;
    }
  }

  // ---------------------------------------------------------------- the Rotate RPC

  /** Messages of a RotateCertificateRequest stream; the booleans say whether the types are the
      supported ones, and the options what the decoder makes of the certificates. */
  datatype Request =
    | GenerateCsr(certID: Id, x509: bool, rsa: bool)
    | LoadCertificate(x509: bool, pem: Option<Cert>, cas: seq<(bool, Option<Cert>)>)
    | FinalizeRotation

  datatype Closing = Accepted | RolledBack

  /** What the stream and the key generator do: messages received (None for an error) and sends. */
  datatype Script = Script(
    first: Option<Request>, csrGenerated: bool, csrSent: bool,
    second: Option<Request>, responseSent: bool, third: Option<Request>)

  predicate AsksForCsr(script: Script) {
    script.first.Some? && script.first.value.GenerateCsr? && script.first.value.x509 && script.first.value.rsa
  }

  predicate SendsLoad(script: Script) {
    && script.second.Some? && script.second.value.LoadCertificate? && script.second.value.x509
    && forall i :: 0 <= i < |script.second.value.cas| ==> script.second.value.cas[i].0
  }

  function LoadOf(script: Script, now: int): Load
    requires SendsLoad(script)
  {
    var cas := script.second.value.cas;
    Load(script.second.value.pem, seq(|cas|, i requires 0 <= i < |cas| => cas[i].1), now)
  }

  /** The exchange gets as far as the call of Manager.Rotate. */
  predicate ReachesLoad(script: Script) {
    AsksForCsr(script) && script.csrGenerated && script.csrSent && SendsLoad(script)
  }

  /** A request for a CSR with an X.509 certificate and an RSA key came in, the CSR was made and sent, and then a load came in,
      all of whose certificates are X.509. */
  predicate Exchanged(script: Script) {
    && script.csrGenerated && script.csrSent
    && (match script.first case Some(GenerateCsr(_, x509, rsa)) => x509 && rsa case _ => false)
    && (match script.second
        case Some(LoadCertificate(x509, _, cas)) => x509 && forall ca :: ca in cas ==> ca.0
        case _ => false)
  }

  lemma ReachesExact(script: Script)
    ensures ReachesLoad(script) <==> Exchanged(script)
  {
    if SendsLoad(script) {
      assert forall ca :: ca in script.second.value.cas ==> ca.0;
    }
    if Exchanged(script) {
      var cas := script.second.value.cas;
      assert forall i :: 0 <= i < |cas| ==> cas[i] in cas;
    }
  }

  /** The steps of one Rotate RPC, with the steps that others take before its load and while it waits. */
  ghost function RpcSteps(s: System, script: Script, now: int, before: seq<Step>, during: seq<Step>): seq<Step> {
    if !ReachesLoad(script) then before
    else
      var id, load := script.first.value.certID, LoadOf(script, now);
      var loaded := before + [RotateLoad(id, load)];
      if !Loads(Run(s, before), true, id, load) then loaded
      else if !script.responseSent then loaded + [Abandon(id)]
      else loaded + during + [if script.third == Some(FinalizeRotation) then Accept(id) else Rollback(id)]
  }

  /** The Rotate RPC among other sessions. Once the response to the load is sent, exactly one closure runs,
      accept if and only if FinalizeRequest arrives; before that, none does. */
  method Rotate(m: Manager, script: Script, now: int, before: seq<Step>, during: seq<Step>)
    returns (ok: bool, answered: bool, closed: seq<Closing>)
    requires m.target.Serves() && Valid(m.View())
    requires AsksForCsr(script) ==>
               forall st :: st in during ==>
                 !Closes(st, script.first.value.certID) && st != Abandon(script.first.value.certID)
    modifies m, m.target
    ensures m.View() == Run(old(m.View()), RpcSteps(old(m.View()), script, now, before, during))
    ensures answered ==> Exchanged(script)
    ensures answered <==>
            && ReachesLoad(script) && script.responseSent
            && Loads(Run(old(m.View()), before), true, script.first.value.certID, LoadOf(script, now))
    ensures closed == if !answered then []
                      else if script.third == Some(FinalizeRotation) then [Accepted] else [RolledBack]
    ensures ok <==> closed == [Accepted]
  {
    ok, answered, closed := false, false, [];
    ReachesExact(script);
    ghost var s := m.View();
    m.TakeAll(before);
    if script.first.None? || !script.first.value.GenerateCsr? {
      return;
    }
    var certID := script.first.value.certID;
    if !script.first.value.x509 || !script.first.value.rsa || !script.csrGenerated || !script.csrSent {
      return;
    }
    if script.second.None? || !script.second.value.LoadCertificate? || !script.second.value.x509 {
      return;
    }
    var pemCACerts: seq<Option<Cert>> := [];
    var cas := script.second.value.cas;
    for i := 0 to |cas|
      invariant forall j :: 0 <= j < i ==> cas[j].0
      invariant |pemCACerts| == i && forall j :: 0 <= j < i ==> pemCACerts[j] == cas[j].1
      invariant m.View() == Run(s, before) && m.target.Serves()
    {
      if !cas[i].0 {
        return;
      }
      pemCACerts := pemCACerts + [cas[i].1];
    }
    var load := Load(script.second.value.pem, pemCACerts, now);
    assert load == LoadOf(script, now);
    RunSnoc(s, before, RotateLoad(certID, load));
    ghost var t := m.View();
    var ticket := m.Rotate(certID, load);
    if ticket.Err? {
      return;
    }
    if !script.responseSent {
      m.Take(Abandon(certID));
      RunSnoc(s, before + [RotateLoad(certID, load)], Abandon(certID));
      return;
    }
    answered := true;
    ghost var loaded := m.View();
    m.TakeAll(during);
    ValidRun(s, before);
    ValidStep(t, RotateLoad(certID, load));
    OpenThroughRun(loaded, during, certID);
    RunConcat(s, before + [RotateLoad(certID, load)], during);
    RunSnoc(s, before + [RotateLoad(certID, load)] + during,
            if script.third == Some(FinalizeRotation) then Accept(certID) else Rollback(certID));
    if script.third.None? || !script.third.value.FinalizeRotation? {
      m.Rollback(certID, ticket.value);
      closed := [RolledBack];
    } else {
      m.Accept(certID);
      closed := [Accepted];
      ok := true;
    }
  }

  // ---------------------------------------------------------------- the Install RPC

  /** The steps of one Install RPC, with the steps that others take before its load and before its accept. */
  ghost function InstallSteps(s: System, script: Script, now: int, before: seq<Step>, during: seq<Step>): seq<Step> {
    if !ReachesLoad(script) then before
    else
      var id, load := script.first.value.certID, LoadOf(script, now);
      var loaded := before + [InstallLoad(id, load)];
      if !Loads(Run(s, before), false, id, load) then loaded else loaded + during + [InstallAccept(id)]
  }

  /** The Install RPC among other sessions: the certificate is accepted as soon as it is loaded, and the client
      is told so only afterwards, if at all. */
  method Install(m: Manager, script: Script, now: int, before: seq<Step>, during: seq<Step>)
    returns (ok: bool, installed: bool)
    requires m.target.Serves() && Valid(m.View())
    requires AsksForCsr(script) ==> InstallAccept(script.first.value.certID) !in during
    modifies m, m.target
    ensures m.View() == Run(old(m.View()), InstallSteps(old(m.View()), script, now, before, during))
    ensures installed ==> Exchanged(script)
    ensures installed <==>
            && ReachesLoad(script)
            && Loads(Run(old(m.View()), before), false, script.first.value.certID, LoadOf(script, now))
    ensures ok <==> installed && script.responseSent
  {
    ok, installed := false, false;
    ReachesExact(script);
    ghost var s := m.View();
    m.TakeAll(before);
    if script.first.None? || !script.first.value.GenerateCsr? {
      return;
    }
    var certID := script.first.value.certID;
    if !script.first.value.x509 || !script.first.value.rsa || !script.csrGenerated || !script.csrSent {
      return;
    }
    if script.second.None? || !script.second.value.LoadCertificate? || !script.second.value.x509 {
      return;
    }
    var pemCACerts: seq<Option<Cert>> := [];
    var cas := script.second.value.cas;
    for i := 0 to |cas|
      invariant forall j :: 0 <= j < i ==> cas[j].0
      invariant |pemCACerts| == i && forall j :: 0 <= j < i ==> pemCACerts[j] == cas[j].1
      invariant m.View() == Run(s, before) && m.target.Serves()
    {
      if !cas[i].0 {
        return;
      }
      pemCACerts := pemCACerts + [cas[i].1];
    }
    var load := Load(script.second.value.pem, pemCACerts, now);
    assert load == LoadOf(script, now);
    RunSnoc(s, before, InstallLoad(certID, load));
    ghost var t := m.View();
    var loaded := m.InstallLoad(certID, load);
    if !loaded {
      return;
    }
    ghost var locked := m.View();
    m.TakeAll(during);
    ValidRun(s, before);
    ValidStep(t, InstallLoad(certID, load));
    InstallingThroughRun(locked, during, certID);
    RunConcat(s, before + [InstallLoad(certID, load)], during);
    RunSnoc(s, before + [InstallLoad(certID, load)] + during, InstallAccept(certID));
    m.InstallAccept(certID);
    installed := true;
    ok := script.responseSent;
  }

  /** An install that is let in leaves its certificate and no lock, whatever others do meanwhile, and also when
      the client never gets the answer. */
  lemma InstallOutcome(s: System, script: Script, now: int, before: seq<Step>, during: seq<Step>)
    requires Valid(s) && ReachesLoad(script)
    requires var id := script.first.value.certID;
             && Loads(Run(s, before), false, id, LoadOf(script, now))
             && InstallAccept(id) !in during
    ensures var id, load := script.first.value.certID, LoadOf(script, now);
            var t := Run(s, InstallSteps(s, script, now, before, during));
            id in t.certInfo && id !in t.locks && t.certInfo[id] == Info(id, load.pem.value, now)
    ensures var id, cas := script.first.value.certID, script.second.value.cas;
            var u, t := Run(s, before), Run(s, InstallSteps(s, script, now, before, during));
            RunKeepsBundle(Apply(u, InstallLoad(id, LoadOf(script, now))), during) ==>
              if cas == [] then t.caBundle == u.caBundle
              else |t.caBundle| == |cas| && forall i :: 0 <= i < |cas| ==> Some(t.caBundle[i]) == cas[i].1
  {
    var id, load := script.first.value.certID, LoadOf(script, now);
    var t := Run(s, before);
    ValidRun(s, before);
    RunSnoc(s, before, InstallLoad(id, load));
    RunConcat(s, before + [InstallLoad(id, load)], during);
    RunSnoc(s, before + [InstallLoad(id, load)] + during, InstallAccept(id));
    ValidStep(t, InstallLoad(id, load));
    var loaded := Apply(t, InstallLoad(id, load));
    InstallingThroughRun(loaded, during, id);
    LoadedBundle(t, false, id, load);
    if RunKeepsBundle(loaded, during) {
      BundleKept(loaded, during);
    }
  }

  /** Seen from the certificate, with others at work all the time: an RPC that rolls back leaves the entry
      that was there when its load began, one that accepts leaves the certificate it was sent. */
  lemma RpcOutcome(s: System, script: Script, now: int, before: seq<Step>, during: seq<Step>)
    requires Valid(s) && ReachesLoad(script) && script.responseSent
    requires var id := script.first.value.certID;
             && Loads(Run(s, before), true, id, LoadOf(script, now))
             && forall st :: st in during ==> !Closes(st, id) && st != Abandon(id)
    ensures var id, load := script.first.value.certID, LoadOf(script, now);
            var t := Run(s, RpcSteps(s, script, now, before, during));
            && id in t.certInfo && id !in t.locks
            && t.certInfo[id] == if script.third == Some(FinalizeRotation) then Info(id, load.pem.value, now)
                                 else Run(s, before).certInfo[id]
    ensures var id, cas := script.first.value.certID, script.second.value.cas;
            var u, t := Run(s, before), Run(s, RpcSteps(s, script, now, before, during));
            RunKeepsBundle(Apply(u, RotateLoad(id, LoadOf(script, now))), during) ==>
              if cas == [] || script.third != Some(FinalizeRotation) then t.caBundle == u.caBundle
              else |t.caBundle| == |cas| && forall i :: 0 <= i < |cas| ==> Some(t.caBundle[i]) == cas[i].1
  {
    hide Run, Valid;
    var id, load := script.first.value.certID, LoadOf(script, now);
    var t := Run(s, before);
    ValidRun(s, before);
    RollbackRestores(t, id, load, during);
    RunSnoc(s, before, RotateLoad(id, load));
    RunConcat(s, before + [RotateLoad(id, load)], during);
    RunSnoc(s, before + [RotateLoad(id, load)] + during,
            if script.third == Some(FinalizeRotation) then Accept(id) else Rollback(id));
    ValidStep(t, RotateLoad(id, load));
    var loaded := Apply(t, RotateLoad(id, load));
    OpenThroughRun(loaded, during, id);
    LoadedBundle(t, true, id, load);
    if RunKeepsBundle(loaded, during) {
      BundleKept(loaded, during);
    }
  }

  /** When the response to the load cannot be sent no closure runs: the new certificate stays, and its id is locked for good. */
  lemma UnsentOutcome(s: System, script: Script, now: int, before: seq<Step>, during: seq<Step>, after: seq<Step>)
    requires Valid(s) && ReachesLoad(script) && !script.responseSent
    requires Loads(Run(s, before), true, script.first.value.certID, LoadOf(script, now))
    ensures var id := script.first.value.certID;
            var t := Run(Run(s, RpcSteps(s, script, now, before, during)), after);
            && id in t.certInfo && t.certInfo[id] == Info(id, script.second.value.pem.value, now)
            && id in t.locks && id !in t.open && id !in t.installing
  {
    var id, load := script.first.value.certID, LoadOf(script, now);
    var u := Run(s, before);
    ValidRun(s, before);
    RunSnoc(s, before, RotateLoad(id, load));
    RunSnoc(s, before + [RotateLoad(id, load)], Abandon(id));
    var t := Apply(Apply(u, RotateLoad(id, load)), Abandon(id));
    assert Stuck(t, id) && t.certInfo[id] == Info(id, load.pem.value, now);
    StuckForever(t, after, id);
    hide Run, Apply, Valid;
  }
}
