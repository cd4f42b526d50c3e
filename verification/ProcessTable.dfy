/**
 The process table an owned process group lives in.

 Between any two actions of the harness the rest of the machine may take any number of steps:
 running processes fork, exit and reap their own zombies, an exit hands the children to init,
 freed pids are given out again, and signals that were sent are delivered late.
 `birth` is a process's identity: it is never given out twice, unlike its pid.
 */
module ProcessTable {

  type Pid = int

  datatype RunState = Running | Stopped | Zombie

  datatype Signal = STOP | CONT | KILL

  /** `stopping` and `doomed`: a STOP, respectively a KILL, was sent and is not delivered yet. */
  datatype Process = Process(
    birth: nat, ppid: Pid, state: RunState, inGroup: bool, stopping: bool, doomed: bool)

  datatype System = System(leader: Pid, harness: Pid, procs: map<Pid, Process>, nextBirth: nat)

  const INIT: Pid := 1

  datatype Event =
    | Fork(parent: Pid, child: Pid)
    | Exit(pid: Pid)
    | Reap(parent: Pid, child: Pid)
    | DeliverStop(pid: Pid)
    | DeliverKill(pid: Pid)

  /** Identities are distinct and not used up; the leader is the child of the harness, which lives outside the group. */
  ghost predicate WellFormed(s: System) {
    && s.leader != INIT && s.leader != s.harness
    && s.harness in s.procs && s.procs[s.harness].state != Zombie && !s.procs[s.harness].inGroup
    && (forall p :: p in s.procs ==> s.procs[p].birth < s.nextBirth)
    && (forall p, q :: p in s.procs && q in s.procs && p != q ==> s.procs[p].birth != s.procs[q].birth)
    && (forall p :: p in s.procs && s.procs[p].state == Zombie ==> !s.procs[p].doomed)
    && s.leader in s.procs
    && s.procs[s.leader].ppid == s.harness
    && s.procs[s.leader].inGroup
  }

  function Orphaned(procs: map<Pid, Process>, dead: Pid): map<Pid, Process> {
    map p | p in procs :: if procs[p].ppid == dead then procs[p].(ppid := INIT) else procs[p]
  }

  function Die(s: System, p: Pid): System
    requires p in s.procs
  {
    s.(procs := Orphaned(s.procs, p)[p := s.procs[p].(state := Zombie, stopping := false, doomed := false)])
  }

  /** Only a running process acts; the harness reaps nobody but the leader, and does not exit. */
  predicate Enabled(s: System, e: Event) {
    match e
    case Fork(p, q) => p in s.procs && s.procs[p].state == Running && q !in s.procs && q > INIT
    case Exit(p) => p in s.procs && s.procs[p].state == Running && p != s.harness && p != INIT
    case Reap(p, q) =>
      && p in s.procs && s.procs[p].state == Running && p != s.harness
      && q in s.procs && s.procs[q].state == Zombie && s.procs[q].ppid == p
    case DeliverStop(p) => p in s.procs && s.procs[p].stopping && s.procs[p].state != Zombie
    case DeliverKill(p) => p in s.procs && s.procs[p].doomed && p != s.harness
  }

  function Apply(s: System, e: Event): System
    requires Enabled(s, e)
  {
    match e
    case Fork(p, q) =>
      s.(procs := s.procs[q := Process(s.nextBirth, p, Running, s.procs[p].inGroup, false, false)],
         nextBirth := s.nextBirth + 1)
    case Exit(p) => Die(s, p)
    case Reap(_, q) => s.(procs := s.procs - {q})
    case DeliverStop(p) => s.(procs := s.procs[p := s.procs[p].(state := Stopped, stopping := false)])
    case DeliverKill(p) => Die(s, p)
  }

  /** The effect of `kill(pid, signal)` at the moment it is sent. A zombie ignores it. */
  function Signalled(s: System, p: Pid, signal: Signal): System
    requires p in s.procs
  {
    var q := s.procs[p];
    if q.state == Zombie then s else
      match signal
      case STOP => s.(procs := s.procs[p := q.(stopping := q.stopping || q.state == Running)])
      case CONT => s.(procs := s.procs[p := q.(stopping := false, state := Running)])
      case KILL => s.(procs := s.procs[p := q.(doomed := true)])
  }

  /** Stopped, with no KILL on its way: it cannot take a step and nobody else will wake it. */
  ghost predicate Held(s: System, p: Pid) {
    p in s.procs && s.procs[p].state == Stopped && !s.procs[p].doomed
  }

  /** Its pid cannot be freed: whoever could reap it is held, or is the harness. */
  ghost predicate Pinned(s: System, p: Pid) {
    p in s.procs && (p == s.leader || Held(s, s.procs[p].ppid))
  }

  predicate Member(s: System, p: Pid) {
    p in s.procs && s.procs[p].inGroup
  }

  predicate LiveMember(s: System, p: Pid) {
    Member(s, p) && s.procs[p].state != Zombie
  }

  /** No member of the group is running, so no member step is enabled. */
  ghost predicate Quiet(s: System) {
    forall p :: Member(s, p) ==> s.procs[p].state != Running
  }

  /** No member has a KILL on its way. */
  ghost predicate Undoomed(s: System) {
    forall p :: Member(s, p) ==> !s.procs[p].doomed
  }

  /** The group is quiet and every live member but the leader has a held parent in the group. */
  ghost predicate Sheltered(s: System) {
    && Quiet(s)
    && forall p :: LiveMember(s, p) && p != s.leader ==> Held(s, s.procs[p].ppid) && Member(s, s.procs[p].ppid)
  }

  /** A live member other than the leader has lost its place in the group's own tree. */
  ghost predicate LiveOrphan(s: System) {
    exists p :: LiveMember(s, p) && p != s.leader && !LiveMember(s, s.procs[p].ppid)
  }

  /** The same process, under the same pid, on the same side of the group boundary. */
  predicate SameProcess(s: System, t: System, p: Pid) {
    && p in s.procs && p in t.procs
    && t.procs[p].birth == s.procs[p].birth && t.procs[p].inGroup == s.procs[p].inGroup
  }

  ghost predicate HeldLasts(s: System, t: System) {
    forall p :: Held(s, p) ==> Held(t, p) && SameProcess(s, t, p)
  }

  ghost predicate PinnedLasts(s: System, t: System) {
    forall p :: Pinned(s, p) ==>
      && SameProcess(s, t, p) && t.procs[p].ppid == s.procs[p].ppid
      && (s.procs[p].state == Zombie ==> t.procs[p].state == Zombie)
  }

  /** The machine sends no KILL of its own into the group. */
  ghost predicate DoomIsOld(s: System, t: System) {
    forall p :: p in t.procs && t.procs[p].doomed ==> SameProcess(s, t, p) && s.procs[p].doomed
  }

  /** A quiet group gains nobody and wakes nobody. */
  ghost predicate QuietLasts(s: System, t: System) {
    Quiet(s) ==>
      && Quiet(t)
      && (forall p :: Member(t, p) ==> SameProcess(s, t, p))
      && (forall p :: LiveMember(t, p) ==> LiveMember(s, p))
  }

  /** What the machine keeps, whatever it does between two actions of the harness. */
  ghost predicate Rely(s: System, t: System) {
    && t.leader == s.leader && t.harness == s.harness && s.nextBirth <= t.nextBirth
    && HeldLasts(s, t) && PinnedLasts(s, t) && DoomIsOld(s, t) && QuietLasts(s, t)
  }

  lemma RelyReflexive(s: System)
    ensures Rely(s, s)
  {}

  lemma RelyTransitive(s: System, t: System, u: System)
    requires Rely(s, t) && Rely(t, u)
    ensures Rely(s, u)
  {
    forall p | Pinned(s, p)
      ensures Pinned(t, p)
    {}
    if Quiet(s) {
      forall p | Member(u, p)
        ensures SameProcess(s, u, p)
      {
        assert SameProcess(t, u, p) && Member(t, p);
      }
    }
  }

  lemma DeathKeepsWellFormed(s: System, p: Pid)
    requires WellFormed(s) && p in s.procs && p != s.harness
    ensures WellFormed(Die(s, p))
  {
    var t := Die(s, p);
    assert t.procs.Keys == s.procs.Keys;
    assert forall q :: q in s.procs ==> t.procs[q].birth == s.procs[q].birth && t.procs[q].inGroup == s.procs[q].inGroup;
    assert forall q :: q in s.procs && q != p ==> t.procs[q].state == s.procs[q].state && t.procs[q].doomed == s.procs[q].doomed;
    assert s.procs[s.leader].ppid != p;
  }

  lemma ForkKeepsWellFormed(s: System, p: Pid, q: Pid)
    requires WellFormed(s) && Enabled(s, Fork(p, q))
    ensures WellFormed(Apply(s, Fork(p, q)))
  {
    var t := Apply(s, Fork(p, q));
    assert forall r :: r in s.procs ==> t.procs[r] == s.procs[r];
  }

  lemma ReapKeepsWellFormed(s: System, p: Pid, q: Pid)
    requires WellFormed(s) && Enabled(s, Reap(p, q))
    ensures WellFormed(Apply(s, Reap(p, q)))
  {
    var t := Apply(s, Reap(p, q));
    assert forall r :: r in t.procs ==> r in s.procs && t.procs[r] == s.procs[r];
    assert q != s.leader && q != s.harness;
  }

  lemma StepKeepsWellFormed(s: System, e: Event)
    requires WellFormed(s) && Enabled(s, e)
    ensures WellFormed(Apply(s, e))
  {
    match e
    case Fork(p, q) => ForkKeepsWellFormed(s, p, q);
    case Exit(p) => DeathKeepsWellFormed(s, p);
    case Reap(p, q) => ReapKeepsWellFormed(s, p, q);
    case DeliverStop(p) => EntryChanges(s, p, Apply(s, e).procs[p]);
    case DeliverKill(p) => DeathKeepsWellFormed(s, p);
  }

  /** A death changes the state of one process and the parent of its children. */
  lemma DeathChanges(s: System, p: Pid)
    requires p in s.procs
    ensures Die(s, p).procs.Keys == s.procs.Keys
    ensures forall q :: q in s.procs ==> SameProcess(s, Die(s, p), q)
    ensures forall q :: q in s.procs && q != p ==>
              Die(s, p).procs[q] == if s.procs[q].ppid == p then s.procs[q].(ppid := INIT) else s.procs[q]
    ensures Die(s, p).procs[p] == s.procs[p].(state := Zombie, stopping := false, doomed := false)
  {}

  lemma DeathKeepsPins(s: System, p: Pid)
    requires WellFormed(s) && p in s.procs && p != s.harness
    requires s.procs[p].state == Running || s.procs[p].doomed
    ensures HeldLasts(s, Die(s, p)) && PinnedLasts(s, Die(s, p))
  {
    var t := Die(s, p);
    DeathChanges(s, p);
    assert !Held(s, p);
    forall q | Pinned(s, q) ensures t.procs[q].ppid == s.procs[q].ppid {
      assert s.procs[q].ppid != p;
    }
  }

  lemma DeathKeepsQuiet(s: System, p: Pid)
    requires p in s.procs
    ensures DoomIsOld(s, Die(s, p)) && QuietLasts(s, Die(s, p))
  {
    var t := Die(s, p);
    DeathChanges(s, p);
    forall q | q in t.procs ensures t.procs[q].doomed ==> s.procs[q].doomed {
      assert q != p ==> t.procs[q].doomed == s.procs[q].doomed;
    }
    forall q | q in t.procs && q != p ensures t.procs[q].state == s.procs[q].state {}
  }

  lemma DeathRelies(s: System, p: Pid)
    requires WellFormed(s) && p in s.procs && p != s.harness
    requires s.procs[p].state == Running || s.procs[p].doomed
    ensures Rely(s, Die(s, p))
  {
    DeathKeepsPins(s, p);
    DeathKeepsQuiet(s, p);
  }

  lemma ForkRelies(s: System, p: Pid, q: Pid)
    requires WellFormed(s) && Enabled(s, Fork(p, q))
    ensures Rely(s, Apply(s, Fork(p, q)))
  {
    var t := Apply(s, Fork(p, q));
    assert forall r :: r in s.procs ==> t.procs[r] == s.procs[r];
    assert HeldLasts(s, t) && PinnedLasts(s, t) && DoomIsOld(s, t);
    assert s.procs[p].inGroup ==> Member(s, p) && !Quiet(s);
    assert QuietLasts(s, t);
  }

  lemma ReapRelies(s: System, p: Pid, q: Pid)
    requires WellFormed(s) && Enabled(s, Reap(p, q))
    ensures Rely(s, Apply(s, Reap(p, q)))
  {
    var t := Apply(s, Reap(p, q));
    assert forall r :: r in t.procs ==> r in s.procs && t.procs[r] == s.procs[r];
    assert !Held(s, q) && !Pinned(s, q);
    assert HeldLasts(s, t) && PinnedLasts(s, t) && DoomIsOld(s, t) && QuietLasts(s, t);
  }

  lemma DeliverStopRelies(s: System, p: Pid)
    requires WellFormed(s) && Enabled(s, DeliverStop(p))
    ensures Rely(s, Apply(s, DeliverStop(p)))
  {
    var t := Apply(s, DeliverStop(p));
    assert forall r :: r in s.procs ==> SameProcess(s, t, r) && t.procs[r].ppid == s.procs[r].ppid;
    assert HeldLasts(s, t) && PinnedLasts(s, t) && DoomIsOld(s, t) && QuietLasts(s, t);
  }

  /** Each single step of the machine keeps `Rely`. */
  lemma StepRelies(s: System, e: Event)
    requires WellFormed(s) && Enabled(s, e)
    ensures Rely(s, Apply(s, e))
  {
    match e
    case Fork(p, q) => ForkRelies(s, p, q);
    case Exit(p) => DeathRelies(s, p);
    case Reap(p, q) => ReapRelies(s, p, q);
    case DeliverStop(p) => DeliverStopRelies(s, p);
    case DeliverKill(p) => DeathRelies(s, p);
  }

  /** A sheltered group stays sheltered, and none of its live members is an orphan. */
  lemma ShelterLasts(s: System, t: System)
    requires Sheltered(s) && Rely(s, t)
    ensures Sheltered(t) && !LiveOrphan(t)
  {
    forall p | LiveMember(t, p) && p != t.leader
      ensures Held(t, t.procs[p].ppid) && Member(t, t.procs[p].ppid)
    {
      assert LiveMember(s, p);
      assert Pinned(s, p);
    }
  }

  lemma UndoomedLasts(s: System, t: System)
    requires Undoomed(s) && Rely(s, t)
    ensures Undoomed(t)
  {
    forall p | Member(t, p)
      ensures !t.procs[p].doomed
    {
      if t.procs[p].doomed {
        assert Member(s, p);
      }
    }
  }

  /** What is on its way to a process, and whether it is stopped, changes nothing about the table. */
  lemma EntryChanges(s: System, p: Pid, q: Process)
    requires WellFormed(s) && p in s.procs && q.birth == s.procs[p].birth && q.ppid == s.procs[p].ppid
    requires q.inGroup == s.procs[p].inGroup && q.state != Zombie && s.procs[p].state != Zombie
    ensures WellFormed(s.(procs := s.procs[p := q]))
  {}

  /** Signalling keeps every identity, parent and group, and whoever is not the target untouched. */
  lemma SignalledKeeps(s: System, p: Pid, signal: Signal)
    requires WellFormed(s) && p in s.procs
    ensures WellFormed(Signalled(s, p, signal))
    ensures forall q :: q in s.procs ==>
              && SameProcess(s, Signalled(s, p, signal), q)
              && Signalled(s, p, signal).procs[q].ppid == s.procs[q].ppid
              && (q != p ==> Signalled(s, p, signal).procs[q] == s.procs[q])
    ensures Signalled(s, p, signal).procs.Keys == s.procs.Keys
  {
    var t := Signalled(s, p, signal);
    if s.procs[p].state != Zombie {
      assert t == s.(procs := s.procs[p := t.procs[p]]);
      EntryChanges(s, p, t.procs[p]);
    }
  }

  // ---- a machine that only delivers signals ---------------------------------------------

  predicate Dies(s: System, p: Pid) {
    p in s.procs && s.procs[p].doomed && p != s.harness
  }

  predicate Stops(s: System, p: Pid) {
    p in s.procs && s.procs[p].stopping && s.procs[p].state != Zombie
  }

  function DeliveredTo(s: System, p: Pid): Process
    requires p in s.procs
  {
    var q := s.procs[p];
    var r := if q.ppid != p && Dies(s, q.ppid) then q.(ppid := INIT) else q;
    if Dies(s, p) then r.(state := Zombie, stopping := false, doomed := false)
    else if Stops(s, p) then r.(state := Stopped, stopping := false)
    else r
  }

  /** The machine after every signal that was sent has arrived, and nothing else has happened. */
  function Delivered(s: System): System {
    s.(procs := map p | p in s.procs :: DeliveredTo(s, p))
  }

  /** Whatever is still on its way was on its way before. */
  ghost predicate NoLaterThan(s: System, t: System) {
    (forall p :: Stops(t, p) ==> Stops(s, p)) && (forall p :: Dies(t, p) ==> Dies(s, p))
  }

  lemma StopCommutes(s: System, p: Pid)
    requires Stops(s, p)
    ensures var t := Apply(s, DeliverStop(p));
            Delivered(t) == Delivered(s) && t.procs.Keys == s.procs.Keys && NoLaterThan(s, t) && !Stops(t, p)
  {
    var t := Apply(s, DeliverStop(p));
    forall q | q in s.procs ensures q in t.procs && DeliveredTo(t, q) == DeliveredTo(s, q) {
      assert Dies(t, s.procs[q].ppid) == Dies(s, s.procs[q].ppid);
    }
  }

  lemma KillCommutes(s: System, p: Pid)
    requires Dies(s, p)
    ensures var t := Apply(s, DeliverKill(p));
            Delivered(t) == Delivered(s) && t.procs.Keys == s.procs.Keys && NoLaterThan(s, t) && !Dies(t, p)
  {
    var t := Apply(s, DeliverKill(p));
    forall q | q in s.procs ensures q in t.procs && DeliveredTo(t, q) == DeliveredTo(s, q) {
      assert t.procs.Keys == s.procs.Keys;
    }
  }

  /** In which order they arrive does not matter. */
  lemma DeliveryCommutes(s: System, e: Event)
    requires Enabled(s, e) && (e.DeliverStop? || e.DeliverKill?)
    ensures Delivered(Apply(s, e)) == Delivered(s) && Apply(s, e).procs.Keys == s.procs.Keys
    ensures NoLaterThan(s, Apply(s, e))
    ensures if e.DeliverStop? then !Stops(Apply(s, e), e.pid) else !Dies(Apply(s, e), e.pid)
  {
    if e.DeliverStop? {
      StopCommutes(s, e.pid);
    } else {
      KillCommutes(s, e.pid);
    }
  }

  lemma NothingPending(s: System)
    requires forall p :: p in s.procs ==> !Stops(s, p) && !Dies(s, p)
    ensures Delivered(s) == s
  {
    assert forall p :: p in s.procs ==> DeliveredTo(s, p) == s.procs[p];
  }

  /** Afterwards nothing is on its way any more. */
  lemma DeliveredOnce(s: System)
    ensures Delivered(Delivered(s)) == Delivered(s)
  {
    NothingPending(Delivered(s));
  }

  function Actor(e: Event): Pid {
    match e
    case Fork(p, _) => p
    case Exit(p) => p
    case Reap(p, _) => p
    case DeliverStop(p) => p
    case DeliverKill(p) => p
  }

  /**
   A sheltered group without pending KILLs stands still: none of its members can act, and whatever
   else happens its live members keep identity, parent and state.
   */
  lemma FrozenGroupStandsStill(s: System, e: Event)
    requires WellFormed(s) && Sheltered(s) && Undoomed(s) && Enabled(s, e)
    ensures e.DeliverStop? || !Member(s, Actor(e))
    ensures forall p :: LiveMember(s, p) ==>
              && p in Apply(s, e).procs
              && Apply(s, e).procs[p].(stopping := false) == s.procs[p].(stopping := false)
  {
    StepRelies(s, e);
    var t := Apply(s, e);
    forall p | LiveMember(s, p)
      ensures p in t.procs && t.procs[p].(stopping := false) == s.procs[p].(stopping := false)
    {
      assert Held(s, p) && Pinned(s, p);
    }
  }
}
