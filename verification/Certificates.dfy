/** gnoi/cert/manager.go and gnoi_target/gnoi_target.go: certificates under rotation, as one system
    in which Install, Rotate, accept, rollback, Revoke and notifications on any ids interleave.
    Every critical section of the manager is one step. */
module Certificates {
  import opened Text

  type Id = string
  type Cert = string

  datatype Info = Info(certID: Id, cert: Cert, updated: int)

  /** What the closures of a rotation hold on to: the entry and, if it was replaced, the bundle. */
  datatype Ticket = Ticket(held: Info, heldBundle: Option<seq<Cert>>)

  /** The decoder's answers for a certificate and a CA bundle, and the time of the call. */
  datatype Load = Load(pem: Option<Cert>, cas: seq<Option<Cert>>, now: int)

  /** - open: rotations whose closures are still to be called
      - installing: installs between their load and their accept
      - pending: notifications that were started and have not fired */
  datatype System = System(
    certInfo: map<Id, Info>,
    caBundle: seq<Cert>,
    locks: set<Id>,
    open: map<Id, Ticket>,
    installing: set<Id>,
    pending: nat,
    bootstrapping: bool)

  datatype Step =
    | InstallLoad(id: Id, load: Load)
    | InstallAccept(id: Id)
    | RotateLoad(id: Id, load: Load)
    | Accept(id: Id)
    | Rollback(id: Id)
    | Abandon(id: Id)   // the response to a load could not be sent: its closures are dropped
    | Revoke(ids: seq<Id>)
    | Notify

  // ---------------------------------------------------------------- the steps

  predicate Decodable(cas: seq<Option<Cert>>) {
    forall i :: 0 <= i < |cas| ==> cas[i].Some?
  }

  function Bundle(cas: seq<Option<Cert>>): seq<Cert>
    requires Decodable(cas)
  {
    seq(|cas|, i requires 0 <= i < |cas| => cas[i].value)
  }

  /** update is let in: the id exists exactly when it must, and no operation is in progress on it. */
  predicate Admitted(s: System, requireExisting: bool, id: Id) {
    (id in s.certInfo <==> requireExisting) && id !in s.locks
  }

  /** update goes all the way. */
  predicate Loads(s: System, requireExisting: bool, id: Id, load: Load) {
    Admitted(s, requireExisting, id) && load.pem.Some? && Decodable(load.cas)
  }

  /** What update does to entries, bundle and locks. A certificate that cannot be decoded leaves the lock,
      a CA certificate that cannot be decoded leaves the lock and the new entry. */
  function Update(s: System, requireExisting: bool, id: Id, load: Load): System {
    if !Admitted(s, requireExisting, id) then s
    else if load.pem.None? then s.(locks := s.locks + {id})
    else
      var entered := s.(locks := s.locks + {id},
                        certInfo := s.certInfo[id := Info(id, load.pem.value, load.now)]);
      if !Decodable(load.cas) then entered
      else entered.(caBundle := if load.cas == [] then s.caBundle else Bundle(load.cas),
                    pending := s.pending + 1)
  }

  /** The ids that Revoke takes out: those that exist and are not locked. */
  function Revoked(s: System, ids: seq<Id>): set<Id> {
    set id | id in ids && id !in s.locks && id in s.certInfo
  }

  predicate HasCredentials(s: System) {
    s.certInfo != map[] && s.caBundle != []
  }

  function Apply(s: System, step: Step): System {
    match step
    case InstallLoad(id, load) =>
      var t := Update(s, false, id, load);
      if Loads(s, false, id, load) then t.(installing := s.installing + {id}) else t
    case InstallAccept(id) =>
      if id in s.installing then s.(installing := s.installing - {id}, locks := s.locks - {id}) else s
    case RotateLoad(id, load) =>
      var t := Update(s, true, id, load);
      if Loads(s, true, id, load) then
        t.(open := s.open[id := Ticket(s.certInfo[id], if load.cas == [] then None else Some(s.caBundle))])
      else t
    case Accept(id) =>
      if id in s.open then s.(open := s.open - {id}, locks := s.locks - {id}) else s
    case Rollback(id) =>
      if id !in s.open then s
      else
        s.(certInfo := s.certInfo[id := s.open[id].held],
           caBundle := if s.open[id].heldBundle.Some? then s.open[id].heldBundle.value else s.caBundle,
           open := s.open - {id}, locks := s.locks - {id}, pending := s.pending + 1)
    case Abandon(id) =>
      s.(open := s.open - {id})
    case Revoke(ids) =>
      s.(certInfo := s.certInfo - Revoked(s, ids), pending := s.pending + 1)
    case Notify =>
      if s.pending == 0 then s
      else s.(pending := s.pending - 1, bootstrapping := !HasCredentials(s))
  }

  function Run(s: System, steps: seq<Step>): System {
    if steps == [] then s else Apply(Run(s, Init(steps)), Last(steps))
  }

  lemma RunSnoc(s: System, steps: seq<Step>, step: Step)
    ensures Run(s, steps + [step]) == Apply(Run(s, steps), step)
  {
    assert Init(steps + [step]) == steps;
  }

  /** A target that has just started: no certificates, in bootstrapping mode. */
  const START := System(map[], [], {}, map[], {}, 0, true)

  // ---------------------------------------------------------------- locks

  /** Who is in the middle of an operation holds the lock, and the entry is there. */
  predicate Valid(s: System) {
    && s.open.Keys <= s.locks && s.installing <= s.locks && s.open.Keys !! s.installing
    && s.open.Keys <= s.certInfo.Keys && s.installing <= s.certInfo.Keys
    && (forall id :: id in s.certInfo ==> s.certInfo[id].certID == id)
    && (forall id :: id in s.open ==> s.open[id].held.certID == id)
  }

  lemma ValidLoad(s: System, requireExisting: bool, id: Id, load: Load)
    requires Valid(s)
    ensures Valid(Apply(s, if requireExisting then RotateLoad(id, load) else InstallLoad(id, load)))
  {
  }

  lemma ValidStep(s: System, step: Step)
    requires Valid(s)
    ensures Valid(Apply(s, step))
  {
    match step
    case InstallLoad(id, load) => ValidLoad(s, false, id, load);
    case InstallAccept(id) =>
    case RotateLoad(id, load) => ValidLoad(s, true, id, load);
    case Accept(id) =>
    case Rollback(id) =>
    case Abandon(id) =>
    case Revoke(ids) => assert Revoked(s, ids) !! s.locks;
    case Notify =>
  }

  lemma {:induction false} ValidRun(s: System, steps: seq<Step>)
    requires Valid(s)
    ensures Valid(Run(s, steps))
  {
    if steps != [] {
      ValidRun(s, Init(steps));
      ValidStep(Run(s, Init(steps)), Last(steps));
    }
  }

  /** The steps that end a rotation of id and release its lock. */
  predicate Closes(step: Step, id: Id) {
    step == Accept(id) || step == Rollback(id)
  }

  /** Only its own closure, or giving up on it, changes anything about a rotation that is open. */
  lemma OpenUntouched(s: System, step: Step, id: Id)
    requires Valid(s) && id in s.open && !Closes(step, id) && step != Abandon(id)
    ensures var t := Apply(s, step);
            id in t.open && t.open[id] == s.open[id] && id in t.certInfo && t.certInfo[id] == s.certInfo[id]
  {
    if step.InstallLoad? || step.RotateLoad? || step.Revoke? {
      LockedUntouched(s, step, id);
    }
  }

  /** No load and no revocation touches an id that is locked. */
  lemma LockedUntouched(s: System, step: Step, id: Id)
    requires id in s.certInfo && id in s.locks
    requires step.InstallLoad? || step.RotateLoad? || step.Revoke?
    ensures var t := Apply(s, step);
            && id in t.certInfo && t.certInfo[id] == s.certInfo[id]
            && (id in s.open ==> id in t.open && t.open[id] == s.open[id])
            && (id in s.installing ==> id in t.installing)
  {
    match step
    case InstallLoad(x, load) => UpdateElsewhere(s, false, x, load, id);
    case RotateLoad(x, load) => UpdateElsewhere(s, true, x, load, id);
    case Revoke(ids) =>
  }

  lemma UpdateElsewhere(s: System, requireExisting: bool, x: Id, load: Load, id: Id)
    requires id in s.certInfo && id in s.locks
    ensures var t := Update(s, requireExisting, x, load);
            id in t.certInfo && t.certInfo[id] == s.certInfo[id] && t.open == s.open && t.installing == s.installing
    ensures Loads(s, requireExisting, x, load) ==> x != id
  {
  }

  lemma {:induction false} OpenThroughRun(s: System, steps: seq<Step>, id: Id)
    requires Valid(s) && id in s.open
    requires forall st :: st in steps ==> !Closes(st, id) && st != Abandon(id)
    ensures var t := Run(s, steps);
            id in t.open && t.open[id] == s.open[id] && id in t.certInfo && t.certInfo[id] == s.certInfo[id]
  {
    hide Apply;
    if steps != [] {
      OpenThroughRun(s, Init(steps), id);
      ValidRun(s, Init(steps));
      OpenUntouched(Run(s, Init(steps)), Last(steps), id);
    }
  }

  /** Only its own accept changes anything about an install that is in progress. */
  lemma {:induction false} InstallingThroughRun(s: System, steps: seq<Step>, id: Id)
    requires Valid(s) && id in s.installing
    requires InstallAccept(id) !in steps
    ensures var t := Run(s, steps);
            id in t.installing && id in t.certInfo && t.certInfo[id] == s.certInfo[id]
  {
    if steps != [] {
      assert steps == Init(steps) + [Last(steps)];
      InstallingThroughRun(s, Init(steps), id);
      ValidRun(s, Init(steps));
      InstallingUntouched(Run(s, Init(steps)), Last(steps), id);
    }
  }

  lemma InstallingUntouched(s: System, step: Step, id: Id)
    requires Valid(s) && id in s.installing && step != InstallAccept(id)
    ensures var t := Apply(s, step);
            id in t.installing && id in t.certInfo && t.certInfo[id] == s.certInfo[id]
  {
    if step.InstallLoad? || step.RotateLoad? || step.Revoke? {
      LockedUntouched(s, step, id);
    }
  }

  /** Rolling back puts back exactly the entry held when the rotation began, whatever happened
      in between, and changes no other id. The bundle goes back to what it was when the rotation
      began if the rotation had replaced it, and else stays as it is now. */
  lemma RollbackRestores(s: System, id: Id, load: Load, steps: seq<Step>)
    requires Valid(s) && Loads(s, true, id, load)
    requires forall st :: st in steps ==> !Closes(st, id) && st != Abandon(id)
    ensures var before := Run(Apply(s, RotateLoad(id, load)), steps);
            var after := Apply(before, Rollback(id));
            && id in before.certInfo && before.certInfo[id] == Info(id, load.pem.value, load.now)
            && after.certInfo == before.certInfo[id := s.certInfo[id]]
            && after.locks == before.locks - {id} && id in before.locks
            && after.caBundle == if load.cas == [] then before.caBundle else s.caBundle
  {
    var loaded := Apply(s, RotateLoad(id, load));
    ValidStep(s, RotateLoad(id, load));
    OpenThroughRun(loaded, steps, id);
    ValidRun(loaded, steps);
  }

  /** A load changes nothing exactly when the id is locked, when an install finds an entry, or when a rotation finds none. */
  lemma LoadRefused(s: System, rotate: bool, id: Id, load: Load)
    ensures Apply(s, if rotate then RotateLoad(id, load) else InstallLoad(id, load)) == s
            <==> id in s.locks || (rotate && id !in s.certInfo) || (!rotate && id in s.certInfo)
  {
    if Admitted(s, rotate, id) {
      assert id in Update(s, rotate, id, load).locks;
    }
    hide Decodable;
  }

  /** A load that goes all the way leaves the CA certificates it was sent, and without any the bundle as it was,
      for an install as well as for a rotation. */
  lemma LoadedBundle(s: System, rotate: bool, id: Id, load: Load)
    requires Loads(s, rotate, id, load)
    ensures var t := Apply(s, if rotate then RotateLoad(id, load) else InstallLoad(id, load));
            if load.cas == [] then t.caBundle == s.caBundle
            else |t.caBundle| == |load.cas| && forall i :: 0 <= i < |load.cas| ==> t.caBundle[i] == load.cas[i].value
  {
  }

  /** The step leaves the bundle alone. */
  predicate KeepsBundle(s: System, step: Step) {
    match step
    case InstallLoad(id, load) => load.cas == [] || !Loads(s, false, id, load)
    case RotateLoad(id, load) => load.cas == [] || !Loads(s, true, id, load)
    case Rollback(id) => id !in s.open || s.open[id].heldBundle.None?
    case _ => true
  }

  ghost predicate RunKeepsBundle(s: System, steps: seq<Step>) {
    forall i :: 0 <= i < |steps| ==> KeepsBundle(Run(s, steps[..i]), steps[i])
  }

  lemma {:induction false} BundleKept(s: System, steps: seq<Step>)
    requires RunKeepsBundle(s, steps)
    ensures Run(s, steps).caBundle == s.caBundle
  {
    if steps != [] {
      var front := Init(steps);
      forall i | 0 <= i < |front|
        ensures KeepsBundle(Run(s, front[..i]), front[i])
      {
        assert front[..i] == steps[..i];
      }
      BundleKept(s, front);
      assert KeepsBundle(Run(s, steps[..|steps| - 1]), Last(steps));
    }
  }

  /** If no other load or rollback replaced the bundle in between, it is restored in every case. */
  lemma RollbackRestoresBundle(s: System, id: Id, load: Load, steps: seq<Step>)
    requires Valid(s) && Loads(s, true, id, load)
    requires forall st :: st in steps ==> !Closes(st, id) && st != Abandon(id)
    requires RunKeepsBundle(Apply(s, RotateLoad(id, load)), steps)
    ensures Apply(Run(Apply(s, RotateLoad(id, load)), steps), Rollback(id)).caBundle == s.caBundle
  {
    RollbackRestores(s, id, load, steps);
    BundleKept(Apply(s, RotateLoad(id, load)), steps);
  }

  // ---------------------------------------------------------------- ids do not interfere

  /** Entry, lock and operations on x are the same in both systems. */
  predicate SameAt(s: System, t: System, x: Id) {
    && (x in s.certInfo <==> x in t.certInfo)
    && (x in s.certInfo && x in t.certInfo ==> s.certInfo[x] == t.certInfo[x])
    && (x in s.locks <==> x in t.locks)
    && (x in s.open <==> x in t.open)
    && (x in s.open && x in t.open ==> s.open[x].held == t.open[x].held)
    && (x in s.installing <==> x in t.installing)
  }

  /** The two systems look the same to everyone but id. */
  ghost predicate SameBut(s: System, t: System, id: Id) {
    forall x :: x != id ==> SameAt(s, t, x)
  }

  /** What a step does to ids other than id: nothing when it is a step on id itself. */
  function Without(step: Step, id: Id): seq<Step> {
    match step
    case Revoke(ids) => [Revoke(Drop(ids, id))]
    case Notify => [step]
    case _ => if step.id == id then [] else [step]
  }

  function Drop(ids: seq<Id>, id: Id): seq<Id> {
    if ids == [] then [] else Drop(Init(ids), id) + (if Last(ids) == id then [] else [Last(ids)])
  }

  function WithoutAll(steps: seq<Step>, id: Id): seq<Step> {
    if steps == [] then [] else WithoutAll(Init(steps), id) + Without(Last(steps), id)
  }

  lemma {:induction false} DropMembers(ids: seq<Id>, id: Id)
    ensures forall x :: x in Drop(ids, id) <==> x in ids && x != id
  {
    if ids != [] {
      DropMembers(Init(ids), id);
      assert ids == Init(ids) + [Last(ids)];
    }
  }

  /** A step on id itself is invisible to everyone else. */
  lemma OwnStepInvisible(s: System, step: Step, id: Id)
    requires !step.Revoke? && !step.Notify? && step.id == id
    ensures SameBut(Apply(s, step), s, id)
  {
    match step
    case InstallLoad(x, load) => UpdateInvisible(s, false, x, load);
    case InstallAccept(x) =>
    case RotateLoad(x, load) => UpdateInvisible(s, true, x, load);
    case Accept(x) =>
    case Rollback(x) =>
    case Abandon(x) =>
  }

  lemma UpdateInvisible(s: System, requireExisting: bool, id: Id, load: Load)
    ensures SameBut(Update(s, requireExisting, id, load), s, id)
  {
  }

  /** What a step does to its own id depends only on what is there. */
  lemma StepAt(s: System, t: System, step: Step)
    requires !step.Revoke? && !step.Notify? && SameAt(s, t, step.id)
    ensures SameAt(Apply(s, step), Apply(t, step), step.id)
  {
    var x := step.id;
    match step
    case InstallLoad(id, load) => UpdateAt(s, t, false, id, load);
    case InstallAccept(id) =>
    case RotateLoad(id, load) => UpdateAt(s, t, true, id, load);
    case Accept(id) =>
    case Rollback(id) =>
    case Abandon(id) =>
  }

  lemma UpdateAt(s: System, t: System, requireExisting: bool, id: Id, load: Load)
    requires SameAt(s, t, id)
    ensures Loads(s, requireExisting, id, load) == Loads(t, requireExisting, id, load)
    ensures SameAt(Update(s, requireExisting, id, load), Update(t, requireExisting, id, load), id)
  {
    UpdatedAt(s, requireExisting, id, load);
    UpdatedAt(t, requireExisting, id, load);
    hide Update, Decodable;
  }

  /** What update makes of its id. */
  lemma UpdatedAt(s: System, requireExisting: bool, id: Id, load: Load)
    ensures var u := Update(s, requireExisting, id, load);
            && u.open == s.open && u.installing == s.installing
            && (id in u.locks <==> id in s.locks || Admitted(s, requireExisting, id))
            && At(u.certInfo, id) == if Admitted(s, requireExisting, id) && load.pem.Some?
                                     then Some(Info(id, load.pem.value, load.now)) else At(s.certInfo, id)
  {
    hide Decodable, Bundle;
  }

  /** Any other step does the same in both systems, as far as others can see. */
  lemma OtherStepSame(s: System, t: System, step: Step, id: Id)
    requires SameBut(s, t, id) && !step.Revoke? && !step.Notify? && step.id != id
    ensures SameBut(Apply(s, step), Apply(t, step), id)
  {
    OwnStepInvisible(s, step, step.id);
    OwnStepInvisible(t, step, step.id);
    StepAt(s, t, step);
    forall x | x != id
      ensures SameAt(Apply(s, step), Apply(t, step), x)
    {
      assert SameAt(s, t, x);
      if x != step.id {
        assert SameAt(Apply(s, step), s, x) && SameAt(Apply(t, step), t, x);
      }
      hide Apply;
    }
  }

  lemma RevokeSame(s: System, t: System, ids: seq<Id>, id: Id)
    requires SameBut(s, t, id)
    ensures SameBut(Apply(s, Revoke(ids)), Apply(t, Revoke(Drop(ids, id))), id)
  {
    DropMembers(ids, id);
    var a, b := Revoked(s, ids), Revoked(t, Drop(ids, id));
    forall x | x != id
      ensures SameAt(Apply(s, Revoke(ids)), Apply(t, Revoke(Drop(ids, id))), x)
    {
      assert SameAt(s, t, x);
      assert x in a <==> x in b;
    }
  }

  lemma {:induction false} RunConcat(s: System, a: seq<Step>, b: seq<Step>)
    ensures Run(s, a + b) == Run(Run(s, a), b)
  {
    if b == [] {
      assert a + b == a;
    } else {
      assert Init(a + b) == a + Init(b);
      RunConcat(s, a, Init(b));
    }
  }

  lemma StepSame(s: System, t: System, step: Step, id: Id)
    requires SameBut(s, t, id)
    ensures SameBut(Apply(s, step), Run(t, Without(step, id)), id)
  {
    assert Init([step]) == [] && Run(t, [step]) == Apply(t, step);
    hide SameBut;
    match step {
      case Revoke(ids) =>
        var other := Revoke(Drop(ids, id));
        assert Init([other]) == [] && Run(t, [other]) == Apply(t, other);
        RevokeSame(s, t, ids, id);
      case Notify =>
        NotifySame(s, t, id);
      case _ =>
        if step.id == id {
          OwnStepInvisible(s, step, id);
          SameTrans(Apply(s, step), s, t, id);
          assert Run(t, []) == t;
        } else {
          OtherStepSame(s, t, step, id);
        }
    }
  }

  lemma NotifySame(s: System, t: System, id: Id)
    requires SameBut(s, t, id)
    ensures SameBut(Apply(s, Notify), Apply(t, Notify), id)
  {
    forall x | x != id
      ensures SameAt(Apply(s, Notify), Apply(t, Notify), x)
    {
      assert SameAt(s, t, x);
    }
  }

  lemma SameTrans(s: System, t: System, u: System, id: Id)
    requires SameBut(s, t, id) && SameBut(t, u, id)
    ensures SameBut(s, u, id)
  {
    forall x | x != id
      ensures SameAt(s, u, x)
    {
      assert SameAt(s, t, x) && SameAt(t, u, x);
    }
  }

  /** Ids do not interfere: to everyone but id, a run looks as if no step on id had been taken. */
  lemma {:induction false} IdsDoNotInterfere(s: System, t: System, steps: seq<Step>, id: Id)
    requires SameBut(s, t, id)
    ensures SameBut(Run(s, steps), Run(t, WithoutAll(steps, id)), id)
  {
    if steps != [] {
      var front, last := Init(steps), Last(steps);
      IdsDoNotInterfere(s, t, front, id);
      hide SameBut, Apply;
      StepSame(Run(s, front), Run(t, WithoutAll(front, id)), last, id);
      RunConcat(t, WithoutAll(front, id), Without(last, id));
    }
  }

  // ---------------------------------------------------------------- what goes wrong

  /** A lock that no operation holds any more. */
  predicate Stuck(s: System, id: Id) {
    id in s.locks && id !in s.open && id !in s.installing
  }

  /** A load whose decoding fails locks the id for good: nothing ever changes its entry or lock again. */
  lemma {:induction false} StuckForever(s: System, steps: seq<Step>, id: Id)
    requires Stuck(s, id)
    ensures var t := Run(s, steps);
            && Stuck(t, id) && (id in t.certInfo <==> id in s.certInfo)
            && (id in s.certInfo ==> t.certInfo[id] == s.certInfo[id])
  {
    if steps != [] {
      StuckForever(s, Init(steps), id);
      StuckStep(Run(s, Init(steps)), Last(steps), id);
    }
  }

  lemma StuckStep(s: System, step: Step, id: Id)
    requires Stuck(s, id)
    ensures var t := Apply(s, step);
            && Stuck(t, id) && (id in t.certInfo <==> id in s.certInfo)
            && (id in s.certInfo ==> t.certInfo[id] == s.certInfo[id])
  {
  }

  /** Exactly which loads leave a stuck lock: those that are admitted but cannot be decoded. */
  lemma LoadSticks(s: System, rotate: bool, id: Id, load: Load)
    requires Valid(s) && !Stuck(s, id)
    ensures Stuck(Apply(s, if rotate then RotateLoad(id, load) else InstallLoad(id, load)), id) <==>
            Admitted(s, rotate, id) && !Loads(s, rotate, id, load)
  {
  }

  /** Entries of other ids are safe from a rollback, the bundle is not: when an install on b loads a
      bundle while a rotation of a that did so too is open, rolling back a throws b's bundle away. */
  lemma RollbackDropsBundle(s: System, a: Id, b: Id, la: Load, lb: Load)
    requires Valid(s) && a != b && la.cas != [] && lb.cas != []
    requires Loads(s, true, a, la) && Loads(s, false, b, lb)
    ensures var installed := [InstallLoad(b, lb), InstallAccept(b)];
            && Apply(Run(Apply(s, RotateLoad(a, la)), installed), Rollback(a)).caBundle == s.caBundle
            && Run(s, installed).caBundle == Bundle(lb.cas)
            && b in Apply(Run(Apply(s, RotateLoad(a, la)), installed), Rollback(a)).certInfo
  {
    var installed := [InstallLoad(b, lb), InstallAccept(b)];
    var t := Apply(s, RotateLoad(a, la));
    RollbackRestores(s, a, la, installed);
    TwoSteps(s, InstallLoad(b, lb), InstallAccept(b));
    TwoSteps(t, InstallLoad(b, lb), InstallAccept(b));
    hide Run;
    assert b !in t.certInfo && b !in t.locks;
    assert b in Apply(t, InstallLoad(b, lb)).certInfo;
  }

  lemma TwoSteps(s: System, s0: Step, s1: Step)
    ensures Run(s, [s0, s1]) == Apply(Apply(s, s0), s1)
  {
    hide Apply;
    assert Init([s0, s1]) == [s0] && Init([s0]) == [];
    assert Run(s, [s0]) == Apply(s, s0);
  }

  lemma FourSteps(s: System, s0: Step, s1: Step, s2: Step, s3: Step)
    ensures Run(s, [s0, s1, s2, s3]) == Apply(Apply(Apply(Apply(s, s0), s1), s2), s3)
  {
    hide Apply;
    assert Init([s0, s1, s2, s3]) == [s0, s1, s2] && Init([s0, s1, s2]) == [s0, s1];
    assert Init([s0, s1]) == [s0] && Init([s0]) == [];
    assert Run(s, [s0]) == Apply(s, s0);
    assert Run(s, [s0, s1]) == Apply(Apply(s, s0), s1);
    assert Run(s, [s0, s1, s2]) == Apply(Apply(Apply(s, s0), s1), s2);
  }

  // ---------------------------------------------------------------- the mode of the target

  /** Bootstrapping exactly when certificates or CA certificates are missing. */
  predicate ModeRight(s: System) {
    s.bootstrapping <==> s.certInfo == map[] || s.caBundle == []
  }

  /** The install that brings the first credentials without anybody being notified: its certificate
      is entered, then a CA certificate cannot be decoded, and an old bundle is there. */
  predicate SilentlyProvisions(s: System, step: Step) {
    && step.InstallLoad? && Admitted(s, false, step.id) && step.load.pem.Some? && !Decodable(step.load.cas)
    && s.certInfo == map[] && s.caBundle != []
  }

  ghost predicate NeverSilent(s: System, steps: seq<Step>) {
    forall i :: 0 <= i < |steps| ==> !SilentlyProvisions(Run(s, steps[..i]), steps[i])
  }

  lemma ModeStep(s: System, step: Step)
    requires Valid(s) && (s.pending == 0 ==> ModeRight(s)) && !SilentlyProvisions(s, step)
    ensures Apply(s, step).pending == 0 ==> ModeRight(Apply(s, step))
  {
  }

  /** Mode follows credentials: in every run from a right mode, whenever no notification is pending the
      target is bootstrapping exactly when it has no certificate or no CA certificate. */
  lemma {:induction false} ModeFollowsCredentials(s: System, steps: seq<Step>)
    requires Valid(s) && (s.pending == 0 ==> ModeRight(s)) && NeverSilent(s, steps)
    ensures Run(s, steps).pending == 0 ==> ModeRight(Run(s, steps))
  {
    if steps != [] {
      var front := Init(steps);
      forall i | 0 <= i < |front|
        ensures !SilentlyProvisions(Run(s, front[..i]), front[i])
      {
        assert front[..i] == steps[..i] && front[i] == steps[i];
      }
      ModeFollowsCredentials(s, front);
      ValidRun(s, front);
      assert front == steps[..|steps| - 1];
      ModeStep(Run(s, front), Last(steps));
    }
  }

  /** The condition is exact: with nothing pending and the mode right, a step leaves the mode wrong
      with nothing pending exactly when it provisions silently. */
  lemma ModeStepExact(s: System, step: Step)
    requires Valid(s) && s.pending == 0 && ModeRight(s)
    ensures Apply(s, step).pending == 0 && !ModeRight(Apply(s, step)) <==> SilentlyProvisions(s, step)
  {
    if SilentlyProvisions(s, step) {
      assert step.id in Apply(s, step).certInfo;
    }
  }

  /** An install, its revocation and both notifications leave the bundle and nothing else. */
  lemma BundleLeft()
    ensures var first := Load(Some("cert"), [Some("ca")], 0);
            Run(START, [InstallLoad("a", first), InstallAccept("a"), Revoke(["a"]), Notify, Notify])
            == System(map[], ["ca"], {}, map[], {}, 0, true)
  {
    var first := Load(Some("cert"), [Some("ca")], 0);
    var s0, s1, s2 := InstallLoad("a", first), InstallAccept("a"), Revoke(["a"]);
    FourSteps(START, s0, s1, s2, Notify);
    var four, five := [s0, s1, s2, Notify], [s0, s1, s2, Notify, Notify];
    assert Init(five) == four;
    var accepted := Apply(Apply(START, s0), s1);
    assert Bundle(first.cas) == ["ca"];
    assert Revoked(accepted, ["a"]) == {"a"};
    assert accepted.certInfo - {"a"} == map[];
  }

  /** Once silently provisioned the target stays in the wrong mode until something else notifies it:
      here an operator installs, revokes, and installs again with a broken bundle. */
  lemma SilentlyProvisionedRun()
    ensures var first := Load(Some("cert"), [Some("ca")], 0);
            var broken := Load(Some("cert"), [None], 1);
            var steps := [InstallLoad("a", first), InstallAccept("a"), Revoke(["a"]), Notify, Notify,
                          InstallLoad("b", broken)];
            Run(START, steps).pending == 0 && !ModeRight(Run(START, steps)) && Stuck(Run(START, steps), "b")
  {
    var first, broken := Load(Some("cert"), [Some("ca")], 0), Load(Some("cert"), [None], 1);
    var five := [InstallLoad("a", first), InstallAccept("a"), Revoke(["a"]), Notify, Notify];
    BundleLeft();
    RunSnoc(START, five, InstallLoad("b", broken));
    assert five + [InstallLoad("b", broken)]
        == [InstallLoad("a", first), InstallAccept("a"), Revoke(["a"]), Notify, Notify, InstallLoad("b", broken)];
    hide Run;
    assert !Decodable(broken.cas) by { assert broken.cas[0].None?; }
    assert "b" in Apply(Run(START, five), InstallLoad("b", broken)).certInfo;
  }
}
