/**
 Freezing and killing an owned process group (`scripts/triage-runtime-e2e.py`).

 The harness sees the group only through atomic inventories and acts on it only through
 `kill(pid, signal)`. Before every one of those primitives the machine takes any number of steps.
 Deadlines are step budgets; `kill` may be refused at any time.
 */
module OwnedGroup {
  import opened Results
  import opened Ordering
  import opened ProcessTable
  import opened Ancestry
  import opened GroupTree

  datatype Refusal =
    | LeaderExited | LeaderMissing | Ambiguous | LostPin | NotStopped | NoProcess
    | NotPermitted | NoCandidate | Changed | Timeout

  datatype SendOutcome = Sent | NoSuchProcess | PermissionDenied

  /** One delivered `kill`: the process the harness meant and the process that was there. */
  datatype Delivery = Delivery(pid: Pid, signal: Signal, meant: nat, hit: nat)

  ghost predicate Exact(log: seq<Delivery>) {
    forall d :: d in log ==> d.meant == d.hit
  }

  ghost function Pids(members: seq<Observed>): set<Pid> {
    set o | o in members :: o.pid
  }

  /** The inventory lists the group exactly as it is, in pid order. */
  ghost predicate Reflects(members: seq<Observed>, s: System) {
    && (forall i, j :: 0 <= i < j < |members| ==> members[i].pid < members[j].pid)
    && (forall o :: o in members ==>
          Member(s, o.pid) && s.procs[o.pid].ppid == o.ppid && s.procs[o.pid].state == o.state)
    && (forall p :: Member(s, p) ==> p in Pids(members))
  }

  predicate Live(o: Observed) {
    o.state != Zombie
  }

  /** A validated inventory: every live member has a depth, one more than its own live parent's. */
  ghost predicate Settled(members: seq<Observed>, s: System) {
    && Reflects(members, s)
    && (forall o :: o in members && Live(o) ==> o.depth.Some?)
    && (forall o :: o in members && Live(o) && o.pid == s.leader ==> o.depth == Some(0))
    && (forall o :: o in members && Live(o) && o.pid != s.leader ==> LiveMember(s, o.ppid))
    && (forall a, b :: a in members && b in members && Live(a) && Live(b) && a.pid != s.leader && a.ppid == b.pid
          ==> a.depth.value == b.depth.value + 1)
  }

  function LookAt(s: System, p: Pid): Observed
    requires p in s.procs
  {
    Observed(p, s.procs[p].ppid, s.procs[p].state, None, false)
  }

  function GroupPids(s: System): seq<Pid> {
    Ascending(set p | p in s.procs && Member(s, p))
  }

  /** What one atomic look at the group lists. */
  function Look(s: System): seq<Observed> {
    var pids := GroupPids(s);
    seq(|pids|, i requires 0 <= i < |pids| => assert pids[i] in pids; LookAt(s, pids[i]))
  }

  lemma LookReflects(s: System)
    ensures Reflects(Look(s), s)
  {
    var pids, members := GroupPids(s), Look(s);
    forall o | o in members
      ensures Member(s, o.pid) && o == LookAt(s, o.pid)
    {
      var j :| 0 <= j < |members| && members[j] == o;
      assert pids[j] in pids;
    }
    forall p | Member(s, p)
      ensures p in Pids(members)
    {
      assert p in pids;
      var j :| 0 <= j < |pids| && pids[j] == p;
      assert members[j].pid == p && members[j] in members;
    }
  }

  // ---- the machine ----------------------------------------------------------------------

  class Machine {
    /** A calm machine does nothing but deliver the signals it was sent, and refuses none. */
    const calm: bool
    var sys: System
    ghost var log: seq<Delivery>
    /** Set once a state is visited in which a live member has lost its place in the group's tree. */
    ghost var orphaned: bool

    ghost predicate Valid()
      reads this
    {
      WellFormed(sys) && Exact(log)
    }

    constructor (s: System, calm: bool)
      requires WellFormed(s)
      ensures Valid() && sys == s && log == [] && !orphaned && this.calm == calm
    {
      this.calm, sys, log, orphaned := calm, s, [], false;
    }

    /** One step of the rest of the machine. */
    method Step(e: Event)
      requires Valid() && Enabled(sys, e)
      modifies this
      ensures Valid() && sys == Apply(old(sys), e) && log == old(log) && Rely(old(sys), sys)
      ensures Sheltered(old(sys)) && !old(orphaned) ==> !orphaned
    {
      StepKeepsWellFormed(sys, e);
      StepRelies(sys, e);
      if Sheltered(sys) {
        ShelterLasts(sys, Apply(sys, e));
      }
      sys := Apply(sys, e);
      orphaned := orphaned || LiveOrphan(sys);
    }

    /** Steps taken one after another keep what each of them keeps. */
    ghost predicate Onwards(start: System, log0: seq<Delivery>, clear: bool)
      reads this
    {
      Valid() && Rely(start, sys) && log == log0 && (Sheltered(start) && clear ==> !orphaned)
    }

    /** A step, and what it keeps of everything since `start`. */
    method StepOn(e: Event, ghost start: System, ghost log0: seq<Delivery>, ghost clear: bool)
      requires Onwards(start, log0, clear) && Enabled(sys, e)
      modifies this
      ensures Onwards(start, log0, clear) && sys == Apply(old(sys), e)
    {
      if Sheltered(start) {
        ShelterLasts(start, sys);
      }
      ghost var before := sys;
      Step(e);
      RelyTransitive(start, before, sys);
    }

    /** Delivers one signal that is on its way. */
    method DeliverOne(e: Event, ghost start: System, ghost log0: seq<Delivery>, ghost clear: bool)
      requires Onwards(start, log0, clear) && Enabled(sys, e) && (e.DeliverStop? || e.DeliverKill?)
      modifies this
      ensures Onwards(start, log0, clear) && Delivered(sys) == Delivered(old(sys)) && sys.procs.Keys == old(sys).procs.Keys
      ensures NoLaterThan(old(sys), sys) && if e.DeliverStop? then !Stops(sys, e.pid) else !Dies(sys, e.pid)
    {
      DeliveryCommutes(sys, e);
      StepOn(e, start, log0, clear);
    }

    /** Delivers what is on its way to one process. */
    method Deliver(p: Pid, ghost start: System, ghost log0: seq<Delivery>, ghost clear: bool)
      requires Onwards(start, log0, clear) && p in sys.procs
      modifies this
      ensures Onwards(start, log0, clear) && Delivered(sys) == Delivered(old(sys)) && sys.procs.Keys == old(sys).procs.Keys
      ensures NoLaterThan(old(sys), sys) && !Stops(sys, p) && !Dies(sys, p)
    {
      if Stops(sys, p) {
        DeliverOne(DeliverStop(p), start, log0, clear);
      }
      if Dies(sys, p) {
        DeliverOne(DeliverKill(p), start, log0, clear);
      }
    }

    /** All signals that were sent arrive, in any order. */
    method DeliverAll()
      requires Valid()
      modifies this
      ensures Valid() && Rely(old(sys), sys) && log == old(log)
      ensures Sheltered(old(sys)) && !old(orphaned) ==> !orphaned
      ensures sys == Delivered(old(sys))
    {
      RelyReflexive(sys);
      var left := sys.procs.Keys;
      while left != {}
        invariant Onwards(old(sys), old(log), !old(orphaned))
        invariant left <= sys.procs.Keys && Delivered(sys) == Delivered(old(sys))
        invariant forall p :: p in sys.procs && p !in left ==> !Stops(sys, p) && !Dies(sys, p)
        decreases left
      {
        var p := Least(left);
        left := left - {p};
        Deliver(p, old(sys), old(log), !old(orphaned));
      }
      NothingPending(sys);
    }

    /** Any number of steps of the rest of the machine; on a calm one, the deliveries. */
    method Interfere()
      requires Valid()
      modifies this
      ensures Valid() && Rely(old(sys), sys) && log == old(log)
      ensures Sheltered(old(sys)) && !old(orphaned) ==> !orphaned
      ensures calm ==> sys == Delivered(old(sys))
    {
      if calm {
        DeliverAll();
        return;
      }
      var steps: nat :| true;
      RelyReflexive(sys);
      for i := 0 to steps
        invariant Onwards(old(sys), old(log), !old(orphaned))
      {
        var e: Event := *;
        if Enabled(sys, e) {
          StepOn(e, old(sys), old(log), !old(orphaned));
        }
      }
    }

    /** `Popen.poll`. The harness refuses as soon as this reports an exit, so the reaping is not modelled. */
    method Poll() returns (exited: bool)
      requires Valid()
      modifies this
      ensures Valid() && Rely(old(sys), sys) && log == old(log)
      ensures Sheltered(old(sys)) && !old(orphaned) ==> !orphaned
      ensures exited <==> sys.procs[sys.leader].state == Zombie
      ensures calm ==> sys == Delivered(old(sys))
    {
      Interfere();
      exited := sys.procs[sys.leader].state == Zombie;
    }

    /** `process_group_members`: one atomic look at the group. */
    method Inventory() returns (members: seq<Observed>)
      requires Valid()
      modifies this
      ensures Valid() && Rely(old(sys), sys) && log == old(log)
      ensures Sheltered(old(sys)) && !old(orphaned) ==> !orphaned
      ensures Reflects(members, sys) && members == Look(sys)
      ensures calm ==> sys == Delivered(old(sys))
    {
      Interfere();
      members := Look(sys);
      LookReflects(sys);
    }

    /** `os.kill`. A zombie takes the signal without effect, or answers that it is gone. */
    method Send(pid: Pid, signal: Signal, ghost meant: nat) returns (o: SendOutcome, ghost before: System)
      requires Valid()
      modifies this
      ensures WellFormed(sys) && WellFormed(before) && Rely(old(sys), before)
      ensures Sheltered(old(sys)) && !old(orphaned) ==> !orphaned
      ensures o == Sent ==>
                && pid in before.procs
                && sys == Signalled(before, pid, signal)
                && log == old(log) + [Delivery(pid, signal, meant, before.procs[pid].birth)]
      ensures o != Sent ==> sys == before && log == old(log)
      ensures o == NoSuchProcess ==> !LiveMember(sys, pid)
      ensures calm ==> before == Delivered(old(sys)) && o != PermissionDenied && (o == Sent <==> pid in before.procs)
    {
      Interfere();
      before := sys;
      var refused: bool := *;
      var odd: bool := *;
      refused, odd := refused && !calm, odd && !calm;
      if refused {
        o := PermissionDenied;
      } else if pid !in sys.procs || (sys.procs[pid].state == Zombie && odd) {
        o := NoSuchProcess;
      } else {
        SignalledKeeps(sys, pid, signal);
        log := log + [Delivery(pid, signal, meant, sys.procs[pid].birth)];
        sys := Signalled(sys, pid, signal);
        o := Sent;
      }
    }
  }

  // ---- validated inventories ------------------------------------------------------------

  method Select(members: seq<Observed>, keep: Observed -> bool) returns (r: seq<Observed>)
    ensures forall o :: o in r <==> o in members && keep(o)
    ensures |r| <= |members|
  {
    r := [];
    for i := 0 to |members|
      invariant forall o :: o in r <==> o in members[..i] && keep(o)
      invariant |r| <= i
    {
      assert members[..i + 1] == members[..i] + [members[i]];
      if keep(members[i]) {
        r := r + [members[i]];
      }
    }
    assert members[..|members|] == members;
  }

  /** The first entry for `pid`, as the `next(...)` lookups find it. */
  method Find(members: seq<Observed>, pid: Pid) returns (r: Option<Observed>)
    ensures r.Some? ==> r.value in members && r.value.pid == pid
    ensures r.None? ==> forall o :: o in members ==> o.pid != pid
  {
    for i := 0 to |members|
      invariant forall j :: 0 <= j < i ==> members[j].pid != pid
    {
      if members[i].pid == pid {
        return Some(members[i]);
      }
    }
    return None;
  }

  predicate ZombieParent(byPid: map<Pid, Observed>, leader: Pid, o: Observed) {
    o.pid != leader && Live(o) && o.ppid in byPid && byPid[o.ppid].state == Zombie
  }

  /** In an inventory with distinct pids, looking a pid up in the dictionary gives its one entry. */
  lemma DictionaryLooksUp(members: seq<Observed>, s: System)
    requires Reflects(members, s)
    ensures forall o :: o in members ==> o.pid in ByPid(members) && ByPid(members)[o.pid] == o
    ensures forall p :: Member(s, p) ==> p in ByPid(members) && ByPid(members)[p].pid == p && ByPid(members)[p] in members
    ensures forall p :: !Duplicated(members, p)
  {
    forall o | o in members
      ensures o.pid in ByPid(members) && ByPid(members)[o.pid] == o
    {
      var i :| 0 <= i < |members| && members[i] == o;
      ByPidFinds(members, i);
    }
    forall p | Member(s, p)
      ensures p in ByPid(members) && ByPid(members)[p].pid == p && ByPid(members)[p] in members
    {
      var o :| o in members && o.pid == p;
    }
  }

  lemma AnnotationReflects(raw: seq<Observed>, members: seq<Observed>, leader: Pid, s: System)
    requires Reflects(raw, s) && |members| == |raw|
    requires forall i :: 0 <= i < |raw| ==> Annotates(raw, leader, raw[i], members[i])
    ensures Reflects(members, s)
    ensures forall o :: o in members ==> o.pid in ByPid(raw) && Bare(o) == Bare(ByPid(raw)[o.pid])
    ensures forall o :: o in members ==> Annotates(raw, leader, ByPid(raw)[o.pid], o)
  {
    DictionaryLooksUp(raw, s);
    forall i | 0 <= i < |raw|
      ensures Bare(members[i]) == Bare(raw[i]) && raw[i] in raw && ByPid(raw)[raw[i].pid] == raw[i]
    {
      assert Annotates(raw, leader, raw[i], members[i]);
    }
    forall o | o in members
      ensures Member(s, o.pid) && s.procs[o.pid].ppid == o.ppid && s.procs[o.pid].state == o.state
    {
      var i :| 0 <= i < |members| && members[i] == o;
      assert raw[i] in raw && Bare(raw[i]) == Bare(o);
    }
    forall p | Member(s, p)
      ensures p in Pids(members)
    {
      assert p in Pids(raw);
      var i :| 0 <= i < |raw| && raw[i].pid == p;
      assert members[i] in members && members[i].pid == p;
    }
  }

  /** An inventory the validation lets through: annotated, nothing invalid, no zombie parents. */
  ghost predicate Unambiguous(raw: seq<Observed>, members: seq<Observed>, s: System) {
    && Reflects(members, s)
    && (forall o :: o in members ==> o.pid in ByPid(raw) && Bare(o) == Bare(ByPid(raw)[o.pid]))
    && (forall o :: o in members && Live(o) ==>
          o.depth.Some? && DepthIs(ByPid(raw), s.leader, o.pid, o.depth.value))
    && (forall o :: o in members ==> !ZombieParent(ByPid(members), s.leader, o))
    && (forall p :: p in ByPid(raw) ==> Member(s, p))
    && Member(s, s.leader)
  }

  lemma LeaderIsAtDepthZero(raw: seq<Observed>, members: seq<Observed>, s: System, o: Observed)
    requires Unambiguous(raw, members, s) && o in members && Live(o) && o.pid == s.leader
    ensures o.depth == Some(0)
  {
    assert DepthIs(ByPid(raw), s.leader, s.leader, 0);
    DepthIsUnique(ByPid(raw), s.leader, s.leader, o.depth.value, 0);
  }

  lemma ParentsAreLive(raw: seq<Observed>, members: seq<Observed>, s: System, o: Observed)
    requires Unambiguous(raw, members, s) && o in members && Live(o) && o.pid != s.leader
    ensures LiveMember(s, o.ppid)
  {
    ParentOfConnected(ByPid(raw), s.leader, o.pid, o.depth.value);
    assert Member(s, o.ppid);
    DictionaryLooksUp(members, s);
    assert !ZombieParent(ByPid(members), s.leader, o);
  }

  lemma DepthsStepByOne(raw: seq<Observed>, members: seq<Observed>, s: System, a: Observed, b: Observed)
    requires Unambiguous(raw, members, s) && a in members && b in members && Live(a) && Live(b)
    requires a.pid != s.leader && a.ppid == b.pid
    ensures a.depth.value == b.depth.value + 1
  {
    DepthFallsByOne(ByPid(raw), s.leader, a.pid, a.depth.value, b.depth.value);
  }

  /** With nothing invalid and no zombie parents, an annotated inventory is settled. */
  lemma UnambiguousIsSettled(raw: seq<Observed>, members: seq<Observed>, s: System)
    requires Unambiguous(raw, members, s)
    ensures Settled(members, s)
  {
    forall o | o in members && Live(o) && o.pid == s.leader ensures o.depth == Some(0) {
      LeaderIsAtDepthZero(raw, members, s, o);
    }
    forall o | o in members && Live(o) && o.pid != s.leader ensures LiveMember(s, o.ppid) {
      ParentsAreLive(raw, members, s, o);
    }
    forall a, b | a in members && b in members && Live(a) && Live(b) && a.pid != s.leader && a.ppid == b.pid
      ensures a.depth.value == b.depth.value + 1
    {
      DepthsStepByOne(raw, members, s, a, b);
    }
  }

  lemma NothingAmbiguousIsSettled(raw: seq<Observed>, members: seq<Observed>, s: System)
    requires Reflects(raw, s) && |members| == |raw|
    requires forall i :: 0 <= i < |raw| ==> Annotates(raw, s.leader, raw[i], members[i])
    requires forall o :: o in members ==> !IsInvalid(raw, o)
    requires forall o :: o in members ==> !ZombieParent(ByPid(members), s.leader, o)
    requires Member(s, s.leader)
    ensures Settled(members, s)
  {
    AnnotationReflects(raw, members, s.leader, s);
    forall o | o in members && Live(o)
      ensures o.depth.Some? && DepthIs(ByPid(raw), s.leader, o.pid, o.depth.value)
    {
      assert !IsInvalid(raw, o);
      assert Annotates(raw, s.leader, ByPid(raw)[o.pid], o);
    }
    ByPidHolds(raw);
    UnambiguousIsSettled(raw, members, s);
  }

  lemma ParentOfConnected(byPid: map<Pid, Observed>, leader: Pid, pid: Pid, k: nat)
    requires pid in byPid && pid != leader && DepthIs(byPid, leader, pid, k)
    ensures byPid[pid].ppid == leader || byPid[pid].ppid in byPid
  {
    assert Ancestor(byPid, leader, pid, 0) == Some(pid);
    assert k > 0;
    assert Ancestor(byPid, leader, pid, 1) == Some(byPid[pid].ppid);
    if k > 1 && byPid[pid].ppid != leader && byPid[pid].ppid !in byPid {
      DeadEndIsDisconnected(byPid, leader, pid, 1, byPid[pid].ppid);
    }
  }

  // ---- when an inventory is accepted ----------------------------------------------------

  /** Every live member of a rooted group resolves to the leader. */
  lemma {:induction false} RootedIsConnected(s: System, rank: map<Pid, nat>, p: Pid)
    requires Ranked(s, rank) && LiveMember(s, p)
    ensures Connected(ByPid(Look(s)), s.leader, p)
    decreases rank[p]
  {
    var byPid := ByPid(Look(s));
    if p == s.leader {
      assert DepthIs(byPid, s.leader, p, 0);
    } else {
      var parent := s.procs[p].ppid;
      RootedIsConnected(s, rank, parent);
      var k: nat :| DepthIs(byPid, s.leader, parent, k);
      LookReflects(s);
      DictionaryLooksUp(Look(s), s);
      ClimbFromParent(byPid, s.leader, p, k);
      assert DepthIs(byPid, s.leader, p, k + 1);
    }
  }

  /** `members` is what the annotation makes of a look at the group. */
  ghost predicate IsAnnotated(s: System, members: seq<Observed>) {
    && |members| == |Look(s)|
    && forall i :: 0 <= i < |members| ==> Annotates(Look(s), s.leader, Look(s)[i], members[i])
  }

  /** A live member of a rooted group has a depth. */
  lemma RootedIsValid(s: System, rank: map<Pid, nat>, o: Observed)
    requires Ranked(s, rank) && Member(s, o.pid) && o.state == s.procs[o.pid].state
    requires o.pid in ByPid(Look(s)) && Annotates(Look(s), s.leader, ByPid(Look(s))[o.pid], o)
    requires ByPid(Look(s))[o.pid].pid == o.pid && !Duplicated(Look(s), o.pid)
    ensures !IsInvalid(Look(s), o)
  {
    if Live(o) {
      RootedIsConnected(s, rank, o.pid);
    }
  }

  /** And no zombie for a parent. */
  lemma RootedHasLiveParents(s: System, rank: map<Pid, nat>, members: seq<Observed>, o: Observed)
    requires Ranked(s, rank) && Reflects(members, s) && o in members
    ensures !ZombieParent(ByPid(members), s.leader, o)
  {
    DictionaryLooksUp(members, s);
    if Live(o) && o.pid != s.leader {
      assert LiveMember(s, o.ppid);
      assert ByPid(members)[o.ppid] in members;
    }
  }

  /** Nothing of a rooted group is ambiguous. */
  lemma RootedIsUnambiguous(s: System, members: seq<Observed>)
    requires Rooted(s) && IsAnnotated(s, members)
    ensures forall o :: o in members ==> !IsInvalid(Look(s), o) && !ZombieParent(ByPid(members), s.leader, o)
  {
    var rank: map<Pid, nat> :| Ranked(s, rank);
    LookReflects(s);
    AnnotationReflects(Look(s), members, s.leader, s);
    DictionaryLooksUp(Look(s), s);
    forall o | o in members
      ensures !IsInvalid(Look(s), o) && !ZombieParent(ByPid(members), s.leader, o)
    {
      RootedIsValid(s, rank, o);
      RootedHasLiveParents(s, rank, members, o);
    }
  }

  /** And what is accepted is a rooted group. */
  lemma SettledIsRooted(members: seq<Observed>, s: System)
    requires Settled(members, s) && LiveMember(s, s.leader)
    ensures Rooted(s)
  {
    DictionaryLooksUp(members, s);
    var rank: map<Pid, nat> := map p | p in s.procs && LiveMember(s, p) :: ByPid(members)[p].depth.value;
    forall p | LiveMember(s, p) && p != s.leader
      ensures LiveMember(s, s.procs[p].ppid) && rank[s.procs[p].ppid] < rank[p]
    {
      assert ByPid(members)[p] in members && ByPid(members)[s.procs[p].ppid] in members;
    }
    assert Ranked(s, rank);
  }

  /** Two accepted inventories of one state are the same. */
  lemma AnnotationIsUnique(s: System, a: seq<Observed>, b: seq<Observed>)
    requires IsAnnotated(s, a) && IsAnnotated(s, b)
    ensures a == b
  {
    forall i | 0 <= i < |a| ensures a[i] == b[i] {
      var raw := Look(s);
      assert Annotates(raw, s.leader, raw[i], a[i]) && Annotates(raw, s.leader, raw[i], b[i]);
      SameAnnotation(raw, s.leader, raw[i], a[i], b[i]);
    }
  }

  lemma SameAnnotation(raw: seq<Observed>, leader: Pid, before: Observed, a: Observed, b: Observed)
    requires Annotates(raw, leader, before, a) && Annotates(raw, leader, before, b)
    ensures a == b
  {
    if a.depth.Some? && b.depth.Some? {
      DepthIsUnique(ByPid(raw), leader, before.pid, a.depth.value, b.depth.value);
    }
    assert Bare(a) == Bare(b);
  }

  lemma SomethingAmbiguous(members: seq<Observed>, invalid: seq<Observed>, unstable: seq<Observed>)
    requires invalid != [] || unstable != []
    ensures exists o :: o in invalid || o in unstable
  {
    if invalid != [] {
      assert invalid[0] in invalid;
    } else {
      assert unstable[0] in unstable;
    }
  }

  /** One observation: an annotated inventory, and whether it is fit to act on. */
  method Observe(m: Machine) returns (r: Result<Option<seq<Observed>>, Refusal>)
    requires m.Valid()
    modifies m
    ensures m.Valid() && Rely(old(m.sys), m.sys) && m.log == old(m.log)
    ensures Sheltered(old(m.sys)) && !old(m.orphaned) ==> !m.orphaned
    ensures r.Ok? && r.value.Some? ==> Settled(r.value.value, m.sys) && IsAnnotated(m.sys, r.value.value)
    ensures r != Err(NoCandidate)
    ensures m.calm ==>
              && m.sys == Delivered(old(m.sys))
              && ((r.Ok? && r.value.Some?) <==> Rooted(m.sys))
  {
    var exited := m.Poll();
    ghost var s1 := m.sys;
    if Sheltered(old(m.sys)) {
      ShelterLasts(old(m.sys), s1);
    }
    if exited {
      return Err(LeaderExited);
    }
    DeliveredOnce(old(m.sys));
    var raw := m.Inventory();
    RelyTransitive(old(m.sys), s1, m.sys);
    r := Assess(m, raw);
  }

  /** What the validation makes of one inventory. */
  method Assess(m: Machine, raw: seq<Observed>) returns (r: Result<Option<seq<Observed>>, Refusal>)
    requires m.Valid() && raw == Look(m.sys)
    ensures r.Ok? && r.value.Some? ==> Settled(r.value.value, m.sys) && IsAnnotated(m.sys, r.value.value)
    ensures r != Err(NoCandidate)
    ensures m.sys.procs[m.sys.leader].state != Zombie ==> ((r.Ok? && r.value.Some?) <==> Rooted(m.sys))
  {
    LookReflects(m.sys);
    var leader := m.sys.leader;
    var members, invalid := AnnotateDepths(raw, leader);
    AnnotationReflects(raw, members, leader, m.sys);
    var found := Find(members, leader);
    if found.None? {
      return Err(LeaderMissing);
    }
    var byPid := ByPid(members);
    var unstable := Select(members, (o: Observed) => ZombieParent(byPid, leader, o));
    if invalid == [] && unstable == [] {
      forall o | o in members
        ensures !IsInvalid(raw, o) && !ZombieParent(byPid, leader, o)
      {
        assert o !in invalid && o !in unstable;
      }
      NothingAmbiguousIsSettled(raw, members, m.sys);
      if LiveMember(m.sys, leader) {
        SettledIsRooted(members, m.sys);
      }
      return Ok(Some(members));
    }
    if Rooted(m.sys) {
      RootedIsUnambiguous(m.sys, members);
      SomethingAmbiguous(members, invalid, unstable);
    }
    return Ok(None);
  }

  /** The observations, at most so many, with all that is known of the accepted one. */
  method AnnotatedMembers(m: Machine, maxObservations: nat := 4) returns (r: Result<seq<Observed>, Refusal>)
    requires m.Valid()
    modifies m
    ensures m.Valid() && Rely(old(m.sys), m.sys) && m.log == old(m.log)
    ensures Sheltered(old(m.sys)) && !old(m.orphaned) ==> !m.orphaned
    ensures r.Ok? ==> Settled(r.value, m.sys) && IsAnnotated(m.sys, r.value)
    ensures r != Err(NoCandidate)
    ensures m.calm && maxObservations > 0 ==> m.sys == Delivered(old(m.sys)) && (r.Ok? <==> Rooted(m.sys))
  {
    RelyReflexive(m.sys);
    DeliveredOnce(m.sys);
    for observation := 0 to maxObservations
      invariant m.Valid() && Rely(old(m.sys), m.sys) && m.log == old(m.log)
      invariant Sheltered(old(m.sys)) && !old(m.orphaned) ==> !m.orphaned
      invariant m.calm ==> m.sys == if observation == 0 then old(m.sys) else Delivered(old(m.sys))
      invariant m.calm && observation > 0 ==> !Rooted(m.sys)
    {
      ghost var s0 := m.sys;
      if Sheltered(old(m.sys)) {
        ShelterLasts(old(m.sys), s0);
      }
      var observed := Observe(m);
      RelyTransitive(old(m.sys), s0, m.sys);
      if observed.Err? {
        return Err(observed.error);
      }
      if observed.value.Some? {
        return Ok(observed.value.value);
      }
    }
    return Err(Ambiguous);
  }

  /**
   `validated_owned_process_group_members`: re-inventory until nothing is ambiguous, or refuse. On a
   calm machine it accepts exactly the groups that are rooted in their live leader.
   */
  method ValidatedMembers(m: Machine, maxObservations: nat := 4) returns (r: Result<seq<Observed>, Refusal>)
    requires m.Valid()
    modifies m
    ensures m.Valid() && Rely(old(m.sys), m.sys) && m.log == old(m.log)
    ensures Sheltered(old(m.sys)) && !old(m.orphaned) ==> !m.orphaned
    ensures r.Ok? ==> Settled(r.value, m.sys)
    ensures r != Err(NoCandidate)
    ensures m.calm && maxObservations > 0 ==> m.sys == Delivered(old(m.sys)) && (r.Ok? <==> Rooted(m.sys))
  {
    r := AnnotatedMembers(m, maxObservations);
  }

  // ---- exact signals --------------------------------------------------------------------

  lemma SignalledUndoomed(s: System, p: Pid, signal: Signal)
    requires p in s.procs && Undoomed(s) && signal != KILL
    ensures Undoomed(Signalled(s, p, signal))
  {}

  /** What a validated inventory says about a signal that is about to be sent. */
  datatype Verdict = Send | Skip | Refuse(why: Refusal)

  /** The state a wait is for. */
  predicate IsQuiescent(s: System, pid: Pid, parent: Option<Pid>, terminal: bool) {
    && Member(s, pid)
    && (s.procs[pid].state == Zombie
        || (!terminal && s.procs[pid].state == Stopped
            && (parent.Some? ==> s.procs[pid].ppid == parent.value && IsStopped(s, parent.value))))
  }

  predicate IsStopped(s: System, p: Pid) {
    Member(s, p) && s.procs[p].state == Stopped
  }

  /** The verdict on a member of a settled group, in the order of the checks. */
  function Judgement(s: System, pid: Pid, requireStopped: bool, requireRunning: bool, parent: Pid): Verdict {
    if !Member(s, pid) then (if IsStopped(s, parent) then Skip else Refuse(LostPin))
    else
      var q := s.procs[pid];
      if q.state == Zombie || (requireRunning && q.state == Stopped) then Skip
      else if requireStopped && q.state != Stopped then Refuse(NotStopped)
      else if q.ppid != parent || !IsStopped(s, parent) then Refuse(LostPin)
      else Send
  }

  /** The checks `signal_exact_owned_group_member` makes on one inventory before `os.kill`. */
  method JudgeTarget(m: Machine, pid: Pid, requireStopped: bool, requireRunning: bool, parent: Pid)
    returns (v: Verdict)
    requires m.Valid()
    modifies m
    ensures m.Valid() && Rely(old(m.sys), m.sys) && m.log == old(m.log)
    ensures Sheltered(old(m.sys)) && !old(m.orphaned) ==> !m.orphaned
    ensures v == Judgement(m.sys, pid, requireStopped, requireRunning, parent) || (v.Refuse? && v.why != NoCandidate)
    ensures m.calm ==>
              && m.sys == Delivered(old(m.sys))
              && (Rooted(m.sys) ==> v == Judgement(m.sys, pid, requireStopped, requireRunning, parent))
  {
    var validated := ValidatedMembers(m);
    if validated.Err? {
      return Refuse(validated.error);
    }
    var member := Find(validated.value, pid);
    var above := Find(validated.value, parent);
    if member.None? {
      return if above.Some? && above.value.state == Stopped then Skip else Refuse(LostPin);
    }
    if member.value.state == Zombie || (requireRunning && member.value.state == Stopped) {
      return Skip;
    }
    if requireStopped && member.value.state != Stopped {
      return Refuse(NotStopped);
    }
    if member.value.ppid != parent || above.None? || above.value.state != Stopped {
      return Refuse(LostPin);
    }
    return Send;
  }

  /** ESRCH for a pinned member is believed only with a zombie to show for it. */
  method JudgeMissing(m: Machine, pid: Pid) returns (r: Result<bool, Refusal>)
    requires m.Valid()
    modifies m
    ensures m.Valid() && Rely(old(m.sys), m.sys) && m.log == old(m.log)
    ensures Sheltered(old(m.sys)) && !old(m.orphaned) ==> !m.orphaned
    ensures r.Ok? ==> !r.value && !LiveMember(m.sys, pid)
    ensures r != Err(NoCandidate)
  {
    var validated := ValidatedMembers(m);
    if validated.Err? {
      return Err(validated.error);
    }
    var member := Find(validated.value, pid);
    return if member.Some? && member.value.state == Zombie then Ok(false) else Err(NoProcess);
  }

  /** Two stretches of interference after one another. */
  lemma RelyOnwards(s: System, t: System, u: System)
    requires Rely(s, t) && Rely(t, u)
    ensures Rely(s, u)
    ensures Sheltered(s) ==> Sheltered(t) && Sheltered(u)
  {
    RelyTransitive(s, t, u);
    if Sheltered(s) {
      ShelterLasts(s, t);
      ShelterLasts(s, u);
    }
  }

  /** One attempt: judge a fresh inventory, `seen`, and signal if it says so; none when it was not permitted. */
  method AttemptExact(m: Machine, pid: Pid, signal: Signal, requireStopped: bool, requireRunning: bool, parent: Pid)
    returns (r: Option<Result<bool, Refusal>>, ghost seen: System, ghost before: System)
    requires m.Valid() && Undoomed(m.sys) && pid != m.sys.leader
    modifies m
    ensures m.Valid() && WellFormed(before) && Rely(old(m.sys), before)
    ensures Sheltered(old(m.sys)) && !old(m.orphaned) ==> !m.orphaned
    ensures r == Some(Ok(true)) ==>
              && Rely(old(m.sys), seen) && Rely(seen, before)
              && Judgement(seen, pid, requireStopped, requireRunning, parent) == Send
              && SameProcess(seen, before, pid) && before.procs[pid].ppid == parent
              && m.sys == Signalled(before, pid, signal)
              && m.log == old(m.log) + [Delivery(pid, signal, seen.procs[pid].birth, before.procs[pid].birth)]
    ensures r != Some(Ok(true)) ==> m.sys == before && m.log == old(m.log)
    ensures r != Some(Err(NoCandidate))
    ensures r == Some(Ok(false)) ==> !Runs(m.sys, pid) && (!requireRunning ==> !LiveMember(m.sys, pid))
    ensures m.calm ==> r.Some?
    ensures m.calm && Rooted(Delivered(old(m.sys))) ==>
              match Judgement(Delivered(old(m.sys)), pid, requireStopped, requireRunning, parent)
              case Send => r == Some(Ok(true)) && before == Delivered(old(m.sys))
              case Skip => r == Some(Ok(false)) && m.sys == Delivered(old(m.sys))
              case Refuse(why) => r == Some(Err(why))
  {
    DeliveredOnce(m.sys);
    var v := JudgeTarget(m, pid, requireStopped, requireRunning, parent);
    seen := m.sys;
    RelyReflexive(seen);
    match v {
      case Skip => return Some(Ok(false)), seen, seen;
      case Refuse(why) => return Some(Err(why)), seen, seen;
      case Send =>
    }
    UndoomedLasts(old(m.sys), seen);
    RelyOnwards(old(m.sys), seen, seen);
    r, before := SendPinned(m, pid, signal, parent);
    RelyOnwards(old(m.sys), seen, before);
  }

  /** The signal itself, to a member under its held parent. */
  method SendPinned(m: Machine, pid: Pid, signal: Signal, parent: Pid)
    returns (r: Option<Result<bool, Refusal>>, ghost before: System)
    requires m.Valid() && Member(m.sys, pid) && m.sys.procs[pid].ppid == parent && Held(m.sys, parent)
    modifies m
    ensures m.Valid() && WellFormed(before) && Rely(old(m.sys), before)
    ensures Sheltered(old(m.sys)) && !old(m.orphaned) ==> !m.orphaned
    ensures r == Some(Ok(true)) ==>
              && SameProcess(old(m.sys), before, pid) && before.procs[pid].ppid == parent
              && m.sys == Signalled(before, pid, signal)
              && m.log == old(m.log) + [Delivery(pid, signal, old(m.sys).procs[pid].birth, before.procs[pid].birth)]
    ensures r != Some(Ok(true)) ==> m.sys == before && m.log == old(m.log)
    ensures r != Some(Err(NoCandidate))
    ensures r == Some(Ok(false)) ==> !LiveMember(m.sys, pid)
    ensures m.calm ==> r.Some?
    ensures m.calm && pid in Delivered(old(m.sys)).procs ==> r == Some(Ok(true)) && before == Delivered(old(m.sys))
  {
    assert Pinned(m.sys, pid);
    var sent;
    sent, before := m.Send(pid, signal, m.sys.procs[pid].birth);
    match sent {
      case Sent => r := Some(Ok(true));
      case PermissionDenied => r := None;
      case NoSuchProcess =>
        ghost var s1 := m.sys;
        if Sheltered(old(m.sys)) {
          ShelterLasts(old(m.sys), s1);
        }
        var missing := JudgeMissing(m, pid);
        RelyTransitive(old(m.sys), s1, m.sys);
        r, before := Some(missing), m.sys;
    }
  }

  /**
   `signal_exact_owned_group_member`: signals a non-leader only while a fresh inventory, `seen`,
   shows its parent stopped, so the signal reaches the very process that inventory showed.
   */
  method SignalExact(m: Machine, pid: Pid, signal: Signal, requireStopped: bool, requireRunning: bool,
                     parent: Pid, patience: nat)
    returns (r: Result<bool, Refusal>, ghost seen: System, ghost before: System)
    requires m.Valid() && Undoomed(m.sys) && pid != m.sys.leader
    modifies m
    ensures m.Valid() && WellFormed(before) && Rely(old(m.sys), before)
    ensures Sheltered(old(m.sys)) && !old(m.orphaned) ==> !m.orphaned
    ensures r.Ok? && r.value ==>
              && Rely(old(m.sys), seen) && Rely(seen, before)
              && Member(seen, pid) && seen.procs[pid].ppid == parent && Held(seen, parent)
              && (requireStopped ==> Held(seen, pid))
              && SameProcess(seen, before, pid) && before.procs[pid].ppid == parent
              && m.sys == Signalled(before, pid, signal)
              && m.log == old(m.log) + [Delivery(pid, signal, seen.procs[pid].birth, before.procs[pid].birth)]
    ensures !(r.Ok? && r.value) ==> m.sys == before && m.log == old(m.log)
    ensures r != Err(NoCandidate)
    ensures r.Ok? && !r.value ==> !Runs(m.sys, pid) && (!requireRunning ==> !LiveMember(m.sys, pid))
    ensures m.calm && patience > 0 && Rooted(Delivered(old(m.sys))) ==>
              match Judgement(Delivered(old(m.sys)), pid, requireStopped, requireRunning, parent)
              case Send => r == Ok(true) && before == Delivered(old(m.sys))
              case Skip => r == Ok(false) && m.sys == Delivered(old(m.sys))
              case Refuse(why) => r == Err(why)
  {
    RelyReflexive(m.sys);
    seen := m.sys;
    var left := patience;
    while left > 0
      invariant m.Valid() && Rely(old(m.sys), m.sys) && m.log == old(m.log)
      invariant Sheltered(old(m.sys)) && !old(m.orphaned) ==> !m.orphaned
      invariant m.calm ==> left == patience && m.sys == old(m.sys)
    {
      left := left - 1;
      ghost var s0 := m.sys;
      UndoomedLasts(old(m.sys), s0);
      var attempt;
      attempt, seen, before := AttemptExact(m, pid, signal, requireStopped, requireRunning, parent);
      RelyOnwards(old(m.sys), s0, before);
      if attempt.Some? {
        if attempt == Some(Ok(true)) {
          RelyOnwards(old(m.sys), s0, seen);
          UndoomedLasts(old(m.sys), seen);
        }
        return attempt.value, seen, before;
      }
    }
    return Err(NotPermitted), seen, m.sys;
  }

  /** `Popen.send_signal`: to the leader, whose pid the harness itself holds. */
  method SignalLeader(m: Machine, signal: Signal) returns (r: Result<(), Refusal>, ghost before: System)
    requires m.Valid()
    modifies m
    ensures m.Valid() && WellFormed(before) && Rely(old(m.sys), before)
    ensures Sheltered(old(m.sys)) && !old(m.orphaned) ==> !m.orphaned
    ensures r.Ok? ==>
              var birth := before.procs[before.leader].birth;
              || (m.sys == before && m.log == old(m.log) && before.procs[before.leader].state == Zombie)
              || (&& m.sys == Signalled(before, before.leader, signal)
                  && m.log == old(m.log) + [Delivery(before.leader, signal, birth, birth)])
    ensures r.Err? ==> m.sys == before && m.log == old(m.log) && r != Err(NoCandidate)
    ensures m.calm && LiveMember(Delivered(old(m.sys)), m.sys.leader) ==>
              r.Ok? && before == Delivered(old(m.sys)) && m.sys == Signalled(before, before.leader, signal)
    ensures old(m.sys).procs[m.sys.leader].state == Zombie ==> r.Ok? && m.log == old(m.log)
  {
    DeliveredOnce(m.sys);
    var exited := m.Poll();
    if exited {
      return Ok(()), m.sys;
    }
    ghost var s1 := m.sys;
    RelyOnwards(old(m.sys), s1, s1) by {
      RelyReflexive(s1);
    }
    r, before := SendToLeader(m, signal);
    RelyOnwards(old(m.sys), s1, before);
  }

  /** The signal itself: the leader's pid is the harness's to free, so nobody else can have it. */
  method SendToLeader(m: Machine, signal: Signal) returns (r: Result<(), Refusal>, ghost before: System)
    requires m.Valid()
    modifies m
    ensures m.Valid() && WellFormed(before) && Rely(old(m.sys), before)
    ensures Sheltered(old(m.sys)) && !old(m.orphaned) ==> !m.orphaned
    ensures r.Ok? ==>
              var birth := before.procs[before.leader].birth;
              && m.sys == Signalled(before, before.leader, signal)
              && m.log == old(m.log) + [Delivery(before.leader, signal, birth, birth)]
    ensures r.Err? ==> m.sys == before && m.log == old(m.log) && r != Err(NoCandidate)
    ensures m.calm ==> r.Ok? && before == Delivered(old(m.sys))
  {
    assert Pinned(m.sys, m.sys.leader);
    var sent;
    sent, before := m.Send(m.sys.leader, signal, m.sys.procs[m.sys.leader].birth);
    r := if sent == Sent then Ok(()) else Err(NotPermitted);
  }

  /** One look of the wait: done, not yet, or lost. */
  method CheckQuiescence(m: Machine, pid: Pid, parent: Option<Pid>, terminal: bool) returns (r: Result<bool, Refusal>)
    requires m.Valid()
    modifies m
    ensures m.Valid() && Rely(old(m.sys), m.sys) && m.log == old(m.log)
    ensures Sheltered(old(m.sys)) && !old(m.orphaned) ==> !m.orphaned
    ensures r != Err(NoCandidate)
    ensures r == Ok(true) ==> IsQuiescent(m.sys, pid, parent, terminal)
    ensures r == Ok(false) ==> !IsQuiescent(m.sys, pid, parent, terminal)
    ensures m.calm ==>
              && m.sys == Delivered(old(m.sys))
              && (Rooted(m.sys) && IsQuiescent(m.sys, pid, parent, terminal) ==> r == Ok(true))
  {
    var validated := ValidatedMembers(m);
    if validated.Err? {
      return Err(validated.error);
    }
    var member := Find(validated.value, pid);
    var above: Option<Observed> := None;
    if parent.Some? {
      above := Find(validated.value, parent.value);
    }
    if member.None? {
      return if above.None? || above.value.state != Stopped then Err(LostPin) else Ok(false);
    }
    if member.value.state == Zombie {
      return Ok(true);
    }
    if parent.Some? && (member.value.ppid != parent.value || above.None? || above.value.state != Stopped) {
      return Err(LostPin);
    }
    return Ok(!terminal && member.value.state == Stopped);
  }

  /** `wait_for_owned_member_quiescence`: until the member is a zombie or, unless `terminal`, stopped. */
  method WaitQuiescence(m: Machine, pid: Pid, parent: Option<Pid>, terminal: bool, patience: nat)
    returns (r: Result<(), Refusal>)
    requires m.Valid()
    modifies m
    ensures m.Valid() && Rely(old(m.sys), m.sys) && m.log == old(m.log)
    ensures Sheltered(old(m.sys)) && !old(m.orphaned) ==> !m.orphaned
    ensures r != Err(NoCandidate)
    ensures r.Ok? ==> Member(m.sys, pid) && m.sys.procs[pid].state != Running
    ensures r.Ok? && terminal ==> m.sys.procs[pid].state == Zombie
    ensures m.calm && patience > 0 && Rooted(Delivered(old(m.sys)))
            && IsQuiescent(Delivered(old(m.sys)), pid, parent, terminal) ==>
              r.Ok? && m.sys == Delivered(old(m.sys))
  {
    RelyReflexive(m.sys);
    ghost var ready := m.calm && Rooted(Delivered(m.sys)) && IsQuiescent(Delivered(m.sys), pid, parent, terminal);
    var left := patience;
    while left > 0
      invariant m.Valid() && Rely(old(m.sys), m.sys) && m.log == old(m.log)
      invariant Sheltered(old(m.sys)) && !old(m.orphaned) ==> !m.orphaned
      invariant ready ==> left == patience && m.sys == old(m.sys)
    {
      left := left - 1;
      ghost var s0 := m.sys;
      if Sheltered(old(m.sys)) { ShelterLasts(old(m.sys), s0); }
      var checked := CheckQuiescence(m, pid, parent, terminal);
      RelyTransitive(old(m.sys), s0, m.sys);
      match checked {
        case Err(why) => return Err(why);
        case Ok(done) =>
          if done {
            return Ok(());
          }
      }
    }
    return Err(Timeout);
  }

  // ---- stopping -------------------------------------------------------------------------

  function Signature(members: seq<Observed>): Mark {
    seq(|members|, i requires 0 <= i < |members| =>
      (members[i].pid, members[i].ppid, members[i].state, members[i].depth))
  }

  function DepthOf(o: Observed): int {
    if o.depth.Some? then o.depth.value else -1
  }

  /** The first candidate by depth, then pid. */
  method Shallowest(ready: seq<Observed>) returns (target: Observed)
    requires ready != []
    ensures target in ready
    ensures forall o :: o in ready ==>
              DepthOf(target) < DepthOf(o) || (DepthOf(target) == DepthOf(o) && target.pid <= o.pid)
  {
    target := ready[0];
    for i := 1 to |ready|
      invariant target in ready
      invariant forall j :: 0 <= j < i ==>
                  DepthOf(target) < DepthOf(ready[j]) || (DepthOf(target) == DepthOf(ready[j]) && target.pid <= ready[j].pid)
    {
      var o := ready[i];
      if DepthOf(o) < DepthOf(target) || (DepthOf(o) == DepthOf(target) && o.pid < target.pid) {
        target := o;
      }
    }
  }

  predicate StopCandidate(byPid: map<Pid, Observed>, leader: Pid, o: Observed) {
    && o.state == Running
    && (o.pid == leader || (o.ppid in byPid && byPid[o.ppid].state == Stopped))
  }

  /** In a settled inventory a shallowest running member can always be stopped next: its parent already is. */
  lemma {:induction false} SomeoneCanBeStopped(members: seq<Observed>, s: System, o: Observed)
    requires Settled(members, s) && o in members && o.state == Running
    ensures exists c :: c in members && DepthOf(c) <= DepthOf(o) && StopCandidate(ByPid(members), s.leader, c)
    decreases DepthOf(o)
  {
    DictionaryLooksUp(members, s);
    if o.pid == s.leader {
      assert StopCandidate(ByPid(members), s.leader, o);
    } else {
      assert LiveMember(s, o.ppid);
      var above := ByPid(members)[o.ppid];
      assert above in members && above.pid == o.ppid && Live(above);
      if above.state == Stopped {
        assert StopCandidate(ByPid(members), s.leader, o);
      } else {
        SomeoneCanBeStopped(members, s, above);
      }
    }
  }

  /** So the selection of the ones to stop next is not empty. */
  lemma CandidateIsSelected(members: seq<Observed>, byPid: map<Pid, Observed>, leader: Pid,
                            running: seq<Observed>, ready: seq<Observed>)
    requires exists c :: c in members && StopCandidate(byPid, leader, c)
    requires forall o :: o in members && o.state == Running ==> o in running
    requires forall o :: o in running && StopCandidate(byPid, leader, o) ==> o in ready
    ensures ready != []
  {
    var c :| c in members && StopCandidate(byPid, leader, c);
    assert c in running && c in ready;
  }

  /** With nobody running, a settled group without a pending KILL is sheltered. */
  lemma NobodyRunningIsSheltered(members: seq<Observed>, s: System)
    requires Settled(members, s) && Undoomed(s)
    requires forall o :: o in members ==> o.state != Running
    ensures Sheltered(s)
  {
    forall p | Member(s, p)
      ensures s.procs[p].state != Running
      ensures s.procs[p].state != Zombie && p != s.leader ==> LiveMember(s, s.procs[p].ppid)
    {
      var o :| o in members && o.pid == p;
    }
  }

  /** Everything sent since is a STOP. */
  ghost predicate OnlyStops(before: seq<Delivery>, after: seq<Delivery>) {
    before <= after && forall i :: |before| <= i < |after| ==> after[i].signal == STOP
  }

  /** The root-only phase: stop the leader and see it stopped before looking at anybody else. */
  method StopLeader(m: Machine, patience: nat) returns (r: Result<(), Refusal>)
    requires m.Valid() && Undoomed(m.sys)
    modifies m
    ensures m.Valid() && Undoomed(m.sys) && OnlyStops(old(m.log), m.log) && m.sys.leader == old(m.sys.leader)
    ensures r != Err(NoCandidate)
    ensures r.Ok? ==> m.sys.procs[m.sys.leader].state == Stopped
    ensures m.calm && patience > 0 && Rooted(old(m.sys)) ==> r.Ok? && IsCalmAfter(old(m.sys), m.sys)
    ensures old(m.sys).procs[m.sys.leader].state == Zombie ==> r == Err(LeaderExited) && m.log == old(m.log)
  {
    ghost var good := m.calm && Rooted(m.sys);
    if Rooted(m.sys) {
      DeliveredKeepsTree(m.sys);
      DeliveredOnce(m.sys);
    }
    var exited := m.Poll();
    UndoomedLasts(old(m.sys), m.sys);
    if exited {
      return Err(LeaderExited);
    }
    ghost var start := m.sys;
    var left := patience;
    while left > 0
      invariant m.Valid() && Undoomed(m.sys) && OnlyStops(old(m.log), m.log) && m.sys.leader == old(m.sys.leader)
      invariant good ==> left == patience && m.sys == start
    {
      left := left - 1;
      var stopped := StopLeaderOnce(m);
      match stopped {
        case Err(why) => return Err(why);
        case Ok(done) =>
          if done {
            return Ok(());
          }
      }
    }
    return Err(Timeout);
  }

  /** The tree stands, nothing is on its way, and nobody runs who did not before. */
  ghost predicate IsCalmAfter(s: System, t: System) {
    Rooted(t) && Delivered(t) == t && Runners(t) <= Runners(s)
  }

  /** A STOP to the leader. */
  method SendStopToLeader(m: Machine) returns (r: Result<(), Refusal>)
    requires m.Valid() && Undoomed(m.sys)
    modifies m
    ensures m.Valid() && Undoomed(m.sys) && OnlyStops(old(m.log), m.log) && m.sys.leader == old(m.sys.leader)
    ensures r != Err(NoCandidate)
    ensures m.calm && LiveMember(Delivered(old(m.sys)), m.sys.leader) ==>
              r.Ok? && m.sys == Signalled(Delivered(old(m.sys)), m.sys.leader, STOP)
  {
    ghost var before;
    r, before := SignalLeader(m, STOP);
    UndoomedLasts(old(m.sys), before);
    if m.sys != before {
      SignalledUndoomed(before, before.leader, STOP);
    }
  }

  /** `poll`, and then the state of the leader. */
  method LookAtLeader(m: Machine) returns (r: Result<bool, Refusal>)
    requires m.Valid()
    modifies m
    ensures m.Valid() && Rely(old(m.sys), m.sys) && m.log == old(m.log)
    ensures r == Ok(true) ==> m.sys.procs[m.sys.leader].state == Stopped
    ensures r.Err? ==> r.error == LeaderExited
    ensures m.calm ==>
              && m.sys == Delivered(old(m.sys))
              && (m.sys.procs[m.sys.leader].state == Stopped ==> r == Ok(true))
    ensures old(m.sys).procs[m.sys.leader].state == Zombie ==> r == Err(LeaderExited)
  {
    DeliveredOnce(m.sys);
    var exited := m.Poll();
    if exited {
      return Err(LeaderExited);
    }
    ghost var s1 := m.sys;
    m.Interfere();
    RelyTransitive(old(m.sys), s1, m.sys);
    return Ok(m.sys.procs[m.sys.leader].state == Stopped);
  }

  /** One round: signal the leader, poll it, and look at its state. */
  method StopLeaderOnce(m: Machine) returns (r: Result<bool, Refusal>)
    requires m.Valid() && Undoomed(m.sys)
    modifies m
    ensures m.Valid() && Undoomed(m.sys) && OnlyStops(old(m.log), m.log) && m.sys.leader == old(m.sys.leader)
    ensures r != Err(NoCandidate)
    ensures r == Ok(true) ==> m.sys.procs[m.sys.leader].state == Stopped
    ensures m.calm && Rooted(old(m.sys)) && Delivered(old(m.sys)) == old(m.sys) ==>
              r == Ok(true) && IsCalmAfter(old(m.sys), m.sys)
  {
    if Rooted(m.sys) && Delivered(m.sys) == m.sys {
      StopTakesEffect(m.sys, m.sys.leader);
    }
    var sent := SendStopToLeader(m);
    if sent.Err? {
      return Err(sent.error);
    }
    ghost var s1 := m.sys;
    r := LookAtLeader(m);
    UndoomedLasts(s1, m.sys);
  }

  /** A settled inventory lists a runner exactly when there is one. */
  lemma RunnersAreListed(members: seq<Observed>, s: System, running: seq<Observed>)
    requires Reflects(members, s) && forall o :: o in running <==> o in members && o.state == Running
    ensures running == [] <==> Runners(s) == {}
    ensures forall o :: o in running ==> Runs(s, o.pid)
  {
    if running != [] {
      assert running[0] in running && running[0].pid in Runners(s);
    }
    forall p | p in Runners(s) ensures running != [] {
      var o :| o in members && o.pid == p;
      assert o in running;
    }
  }

  /** Which candidate it is: the leader, or a member whose listed parent is stopped. */
  lemma CandidateIsReady(members: seq<Observed>, s: System, c: Observed)
    requires Reflects(members, s) && c in members && StopCandidate(ByPid(members), s.leader, c)
    ensures Runs(s, c.pid) && (c.pid != s.leader ==> s.procs[c.pid].ppid == c.ppid && IsStopped(s, c.ppid))
  {
    DictionaryLooksUp(members, s);
    ByPidHolds(members);
  }

  lemma RunnersShrink(s: System, t: System, p: Pid)
    requires Runners(t) <= Runners(s) - {p} && p in Runners(s)
    ensures |Runners(t)| < |Runners(s)|
  {
    SmallerSet(Runners(t), Runners(s) - {p});
  }

  lemma SmallerSet<T>(a: set<T>, b: set<T>)
    requires a <= b
    ensures |a| <= |b|
  {
    assert b == a + (b - a);
  }

  /**
   `stop_owned_process_group`: stops the group top-down until two equal inventories show nobody
   running. On success the group is frozen and every live member has a held parent in it. It sends
   nothing but STOPs, never fails for want of somebody to stop next, and on a calm machine it freezes
   every rooted group if it may look twice more often than members run.
   */
  method StopGroup(m: Machine, patience: nat) returns (r: Result<seq<Observed>, Refusal>)
    requires m.Valid() && Undoomed(m.sys)
    modifies m
    ensures m.Valid() && Undoomed(m.sys) && OnlyStops(old(m.log), m.log) && m.sys.leader == old(m.sys.leader)
    ensures r.Ok? ==> Settled(r.value, m.sys) && Sheltered(m.sys)
    ensures r != Err(NoCandidate)
    ensures m.calm && Rooted(old(m.sys)) && patience >= |Runners(old(m.sys))| + 2 ==>
              r.Ok? && Rooted(m.sys) && Delivered(m.sys) == m.sys
    ensures old(m.sys).procs[m.sys.leader].state == Zombie ==> r == Err(LeaderExited) && m.log == old(m.log)
  {
    ghost var good := m.calm && Rooted(m.sys) && patience >= |Runners(m.sys)| + 2;
    ghost var start := m.sys;
    var rooted := StopLeader(m, patience);
    if rooted.Err? {
      return Err(rooted.error);
    }
    if good {
      SmallerSet(Runners(m.sys), Runners(start));
    }
    var quiesced: Option<Mark> := None;
    var left := patience;
    while left > 0
      invariant m.Valid() && Undoomed(m.sys) && OnlyStops(old(m.log), m.log) && m.sys.leader == old(m.sys.leader)
      invariant good ==> IsOnCourse(m.sys, quiesced) && StillToDo(m.sys, quiesced) <= left
    {
      left := left - 1;
      var round;
      round, quiesced := StopRound(m, quiesced, left);
      match round {
        case Err(why) => return Err(why);
        case Ok(members) =>
          if members.Some? {
            return Ok(members.value);
          }
      }
    }
    return Err(Timeout);
  }

  /** The signature of an inventory in which nobody ran. */
  type Mark = seq<(Pid, Pid, RunState, Option<nat>)>

  /** The mark this state would leave. */
  ghost predicate IsMarkOf(s: System, mark: Mark) {
    exists members :: IsAnnotated(s, members) && mark == Signature(members)
  }

  /** A calm machine with a tree, and a mark, if any, that is the one of this state, in which nobody runs. */
  ghost predicate IsOnCourse(s: System, quiesced: Option<Mark>) {
    Rooted(s) && Delivered(s) == s && (quiesced.Some? ==> Runners(s) == {} && IsMarkOf(s, quiesced.value))
  }

  /** How many more rounds a calm machine needs. */
  ghost function StillToDo(s: System, quiesced: Option<Mark>): nat {
    |Runners(s)| + if quiesced.None? then 2 else 1
  }

  /** One round of the loop: two equal inventories without runners end it, a runner is stopped. */
  method StopRound(m: Machine, quiesced: Option<Mark>, patience: nat)
    returns (r: Result<Option<seq<Observed>>, Refusal>, next: Option<Mark>)
    requires m.Valid() && Undoomed(m.sys)
    modifies m
    ensures m.Valid() && Undoomed(m.sys) && OnlyStops(old(m.log), m.log) && m.sys.leader == old(m.sys.leader)
    ensures r.Ok? && r.value.Some? ==> Settled(r.value.value, m.sys) && Sheltered(m.sys)
    ensures r.Ok? && r.value.Some? ==> quiesced == Some(Signature(r.value.value))
    ensures next.Some? ==> IsMarkOf(m.sys, next.value) && Runners(m.sys) == {}
    ensures r != Err(NoCandidate)
    ensures m.calm && IsOnCourse(old(m.sys), quiesced) && StillToDo(old(m.sys), quiesced) <= patience + 1 ==>
              && r.Ok? && IsOnCourse(m.sys, next)
              && (r.value.None? ==> StillToDo(m.sys, next) < StillToDo(old(m.sys), quiesced))
  {
    next := None;
    var inspected, running := InspectRound(m, quiesced);
    match inspected {
      case Err(why) => return Err(why), None;
      case Ok(members) =>
        if running == [] {
          if quiesced == Some(Signature(members)) {
            return Ok(Some(members)), None;
          }
          return Ok(None), Some(Signature(members));
        }
        RunnersRemain(m.sys);
        var refusal := StopNext(m, members, running, patience);
        return if refusal.Some? then Err(refusal.value) else Ok(None), None;
    }
  }

  lemma RunnersRemain(s: System)
    ensures Runners(s) != {} ==> |Runners(s)| > 0
  {}

  /** The look a round begins with, and who runs in it. */
  method InspectRound(m: Machine, quiesced: Option<Mark>)
    returns (r: Result<seq<Observed>, Refusal>, running: seq<Observed>)
    requires m.Valid() && Undoomed(m.sys)
    modifies m
    ensures m.Valid() && Undoomed(m.sys) && m.log == old(m.log) && m.sys.leader == old(m.sys.leader)
    ensures r != Err(NoCandidate)
    ensures r.Ok? ==>
              && Settled(r.value, m.sys) && IsMarkOf(m.sys, Signature(r.value))
              && (forall o :: o in running <==> o in r.value && o.state == Running)
              && (running == [] ==> Sheltered(m.sys) && Runners(m.sys) == {})
              && (running != [] ==> Runners(m.sys) != {})
    ensures m.calm && IsOnCourse(old(m.sys), quiesced) ==>
              && m.sys == old(m.sys) && r.Ok?
              && (quiesced.Some? ==> quiesced == Some(Signature(r.value)))
  {
    running := [];
    var validated := AnnotatedMembers(m);
    UndoomedLasts(old(m.sys), m.sys);
    if validated.Err? {
      return Err(validated.error), [];
    }
    var members := validated.value;
    running := Select(members, (o: Observed) => o.state == Running);
    RunnersAreListed(members, m.sys, running);
    if running == [] {
      QuietRound(m.sys, members);
    }
    if quiesced.Some? && IsMarkOf(m.sys, quiesced.value) {
      MarkIsUnique(m.sys, members, quiesced.value);
    }
    return Ok(members), running;
  }

  lemma MarkIsUnique(s: System, members: seq<Observed>, mark: Mark)
    requires IsAnnotated(s, members) && IsMarkOf(s, mark)
    ensures mark == Signature(members)
  {
    var others :| IsAnnotated(s, others) && mark == Signature(others);
    AnnotationIsUnique(s, members, others);
  }

  /** A round that finds nobody running has a sheltered group before it. */
  lemma QuietRound(s: System, members: seq<Observed>)
    requires Settled(members, s) && Undoomed(s) && Runners(s) == {}
    ensures Sheltered(s)
  {
    forall o | o in members ensures o.state != Running {
      assert o.pid !in Runners(s);
    }
    NobodyRunningIsSheltered(members, s);
  }

  /** Chooses the first member that can be stopped, and stops it. */
  method StopNext(m: Machine, members: seq<Observed>, running: seq<Observed>, patience: nat)
    returns (refusal: Option<Refusal>)
    requires m.Valid() && Undoomed(m.sys) && Settled(members, m.sys) && running != []
    requires forall o :: o in running <==> o in members && o.state == Running
    modifies m
    ensures m.Valid() && Undoomed(m.sys) && OnlyStops(old(m.log), m.log) && m.sys.leader == old(m.sys.leader)
    ensures refusal != Some(NoCandidate)
    ensures m.calm && patience > 0 && Rooted(old(m.sys)) && Delivered(old(m.sys)) == old(m.sys) ==>
              && refusal.None? && Rooted(m.sys) && Delivered(m.sys) == m.sys
              && |Runners(m.sys)| < |Runners(old(m.sys))|
  {
    var byPid, leader := ByPid(members), m.sys.leader;
    var ready := Select(running, (o: Observed) => StopCandidate(byPid, leader, o));
    assert running[0] in running;
    SomeoneCanBeStopped(members, m.sys, running[0]);
    CandidateIsSelected(members, byPid, leader, running, ready);
    if ready == [] {
      return Some(NoCandidate);
    }
    var target := Shallowest(ready);
    CandidateIsReady(members, m.sys, target);
    ghost var s0 := m.sys;
    refusal := StopOne(m, target, patience);
    if Runners(m.sys) <= Runners(s0) - {target.pid} {
      RunnersShrink(s0, m.sys, target.pid);
    }
  }

  /** A calm machine has taken a runner's STOP. */
  ghost predicate IsCalmWithout(s: System, t: System, p: Pid) {
    Rooted(t) && Delivered(t) == t && Runners(t) <= Runners(s) - {p}
  }

  /**
   One STOP of the main loop: the leader itself, or an exact member under its stopped parent. Without a
   refusal the target does not run any more.
   */
  method StopOne(m: Machine, target: Observed, patience: nat) returns (refusal: Option<Refusal>)
    requires m.Valid() && Undoomed(m.sys)
    modifies m
    ensures m.Valid() && Undoomed(m.sys) && OnlyStops(old(m.log), m.log) && m.sys.leader == old(m.sys.leader)
    ensures refusal != Some(NoCandidate)
    ensures refusal.None? ==> !Runs(m.sys, target.pid)
    ensures m.calm && patience > 0 && Rooted(old(m.sys)) && Delivered(old(m.sys)) == old(m.sys)
            && Runs(old(m.sys), target.pid)
            && (target.pid != m.sys.leader ==>
                  old(m.sys).procs[target.pid].ppid == target.ppid && IsStopped(old(m.sys), target.ppid)) ==>
              refusal.None? && IsCalmWithout(old(m.sys), m.sys, target.pid)
  {
    if target.pid == m.sys.leader {
      refusal := StopLeaderAgain(m, patience);
    } else {
      refusal := StopMember(m, target.pid, target.ppid, patience);
    }
  }

  /** Waits until the member no longer runs. */
  method AwaitStop(m: Machine, pid: Pid, parent: Option<Pid>, patience: nat) returns (refusal: Option<Refusal>)
    requires m.Valid() && Undoomed(m.sys)
    modifies m
    ensures m.Valid() && Undoomed(m.sys) && m.log == old(m.log) && m.sys.leader == old(m.sys.leader)
    ensures refusal != Some(NoCandidate)
    ensures refusal.None? ==> !Runs(m.sys, pid)
    ensures m.calm && patience > 0 && Rooted(Delivered(old(m.sys))) && IsQuiescent(Delivered(old(m.sys)), pid, parent, false) ==>
              refusal.None? && m.sys == Delivered(old(m.sys))
  {
    var waited := WaitQuiescence(m, pid, parent, false, patience);
    UndoomedLasts(old(m.sys), m.sys);
    return if waited.Err? then Some(waited.error) else None;
  }

  /** The leader, once more, after a look at the group. */
  method StopLeaderAgain(m: Machine, patience: nat) returns (refusal: Option<Refusal>)
    requires m.Valid() && Undoomed(m.sys)
    modifies m
    ensures m.Valid() && Undoomed(m.sys) && OnlyStops(old(m.log), m.log) && m.sys.leader == old(m.sys.leader)
    ensures refusal != Some(NoCandidate)
    ensures refusal.None? ==> !Runs(m.sys, m.sys.leader)
    ensures m.calm && patience > 0 && Rooted(old(m.sys)) && Delivered(old(m.sys)) == old(m.sys)
            && Runs(old(m.sys), m.sys.leader) ==>
              refusal.None? && IsCalmWithout(old(m.sys), m.sys, m.sys.leader)
  {
    if Rooted(m.sys) && Delivered(m.sys) == m.sys {
      StopTakesEffect(m.sys, m.sys.leader);
    }
    var running := LeaderStillRuns(m);
    match running {
      case Err(why) => return Some(why);
      case Ok(runs) =>
        if !runs {
          return None;
        }
    }
    var sent := SendStopToLeader(m);
    if sent.Err? {
      return Some(sent.error);
    }
    refusal := AwaitStop(m, m.sys.leader, None, patience);
  }

  /** Whether a fresh inventory shows the leader running. */
  method LeaderStillRuns(m: Machine) returns (r: Result<bool, Refusal>)
    requires m.Valid() && Undoomed(m.sys)
    modifies m
    ensures m.Valid() && Undoomed(m.sys) && m.log == old(m.log) && m.sys.leader == old(m.sys.leader)
    ensures r != Err(NoCandidate)
    ensures r.Ok? ==> LiveMember(m.sys, m.sys.leader) && r.value == Runs(m.sys, m.sys.leader)
    ensures m.calm && Rooted(Delivered(old(m.sys))) ==> r.Ok? && m.sys == Delivered(old(m.sys))
  {
    var current := ValidatedMembers(m);
    UndoomedLasts(old(m.sys), m.sys);
    if current.Err? {
      return Err(current.error);
    }
    var found := Find(current.value, m.sys.leader);
    if found.None? || found.value.state == Zombie {
      return Err(LeaderMissing);
    }
    return Ok(found.value.state == Running);
  }

  /** A STOP to an exact member under its stopped parent; false when it does not run any more. */
  method SendStopToMember(m: Machine, pid: Pid, parent: Pid, patience: nat) returns (r: Result<bool, Refusal>)
    requires m.Valid() && Undoomed(m.sys) && pid != m.sys.leader
    modifies m
    ensures m.Valid() && Undoomed(m.sys) && OnlyStops(old(m.log), m.log) && m.sys.leader == old(m.sys.leader)
    ensures r != Err(NoCandidate)
    ensures r == Ok(false) ==> !Runs(m.sys, pid)
    ensures m.calm && patience > 0 && Rooted(old(m.sys)) && Delivered(old(m.sys)) == old(m.sys)
            && Runs(old(m.sys), pid) && old(m.sys).procs[pid].ppid == parent && IsStopped(old(m.sys), parent) ==>
              r == Ok(true) && m.sys == Signalled(old(m.sys), pid, STOP)
  {
    ghost var seen, before;
    r, seen, before := SignalExact(m, pid, STOP, false, true, parent, patience);
    UndoomedLasts(old(m.sys), before);
    if r == Ok(true) {
      SignalledUndoomed(before, pid, STOP);
    }
  }

  /** An exact member under its stopped parent. */
  method StopMember(m: Machine, pid: Pid, parent: Pid, patience: nat) returns (refusal: Option<Refusal>)
    requires m.Valid() && Undoomed(m.sys) && pid != m.sys.leader
    modifies m
    ensures m.Valid() && Undoomed(m.sys) && OnlyStops(old(m.log), m.log) && m.sys.leader == old(m.sys.leader)
    ensures refusal != Some(NoCandidate)
    ensures refusal.None? ==> !Runs(m.sys, pid)
    ensures m.calm && patience > 0 && Rooted(old(m.sys)) && Delivered(old(m.sys)) == old(m.sys)
            && Runs(old(m.sys), pid) && old(m.sys).procs[pid].ppid == parent && IsStopped(old(m.sys), parent) ==>
              refusal.None? && IsCalmWithout(old(m.sys), m.sys, pid)
  {
    if Rooted(m.sys) && Delivered(m.sys) == m.sys && Runs(m.sys, pid) {
      StopTakesEffect(m.sys, pid);
    }
    var signalled := SendStopToMember(m, pid, parent, patience);
    match signalled {
      case Err(why) => return Some(why);
      case Ok(sent) =>
        if !sent {
          return None;
        }
    }
    refusal := AwaitStop(m, pid, Some(parent), patience);
  }

  // ---- resuming and killing, deepest first ----------------------------------------------

  predicate DeeperFirst(a: Observed, b: Observed) {
    DepthOf(a) > DepthOf(b) || (DepthOf(a) == DepthOf(b) && a.pid <= b.pid)
  }

  ghost predicate DeepestFirstOrder(targets: seq<Observed>) {
    forall i, j :: 0 <= i < j < |targets| ==> DeeperFirst(targets[i], targets[j])
  }

  function Insert(o: Observed, sorted: seq<Observed>): (r: seq<Observed>)
    ensures |r| == |sorted| + 1
    ensures forall x :: x in r <==> x == o || x in sorted
  {
    if sorted == [] || DeeperFirst(o, sorted[0]) then [o] + sorted
    else [sorted[0]] + Insert(o, sorted[1..])
  }

  function DeepestFirst(members: seq<Observed>): (r: seq<Observed>)
    ensures |r| == |members|
    ensures forall x :: x in r <==> x in members
  {
    if members == [] then [] else Insert(members[0], DeepestFirst(members[1..]))
  }

  lemma {:induction false} InsertKeepsOrder(o: Observed, sorted: seq<Observed>)
    requires DeepestFirstOrder(sorted)
    ensures DeepestFirstOrder(Insert(o, sorted))
  {
    if sorted != [] && !DeeperFirst(o, sorted[0]) {
      var tail := sorted[1..];
      InsertKeepsOrder(o, tail);
      var r := Insert(o, tail);
      forall j | 0 <= j < |r| ensures DeeperFirst(sorted[0], r[j]) {
        assert r[j] in r;
        if r[j] in tail {
          var k :| 0 <= k < |tail| && tail[k] == r[j];
          assert sorted[k + 1] == tail[k];
        }
      }
    }
  }

  lemma {:induction false} DeepestFirstSorts(members: seq<Observed>)
    ensures DeepestFirstOrder(DeepestFirst(members))
  {
    if members == [] {
    } else {
      DeepestFirstSorts(members[1..]);
      InsertKeepsOrder(members[0], DeepestFirst(members[1..]));
    }
  }

  ghost predicate DistinctPids(members: seq<Observed>) {
    forall i, j :: 0 <= i < j < |members| ==> members[i].pid != members[j].pid
  }

  function LiveOnly(members: seq<Observed>): (r: seq<Observed>)
    ensures forall o :: o in r <==> o in members && Live(o)
  {
    if members == [] then [] else
      (if Live(members[0]) then [members[0]] else []) + LiveOnly(members[1..])
  }

  /** The members to signal, deepest first. */
  function Targets(members: seq<Observed>): (r: seq<Observed>)
    ensures forall o :: o in r <==> o in members && Live(o)
  {
    DeepestFirst(LiveOnly(members))
  }

  lemma {:induction false} InsertKeepsDistinct(o: Observed, sorted: seq<Observed>)
    requires DistinctPids(sorted) && forall x :: x in sorted ==> x.pid != o.pid
    ensures DistinctPids(Insert(o, sorted))
  {
    if sorted != [] && !DeeperFirst(o, sorted[0]) {
      var tail := sorted[1..];
      InsertKeepsDistinct(o, tail);
      var r := Insert(o, tail);
      forall j | 0 <= j < |r| ensures r[j].pid != sorted[0].pid {
        assert r[j] in r;
        if r[j] in tail {
          var k :| 0 <= k < |tail| && tail[k] == r[j];
          assert sorted[k + 1] == tail[k];
        }
      }
    }
  }

  lemma {:induction false} TargetsAreDistinct(members: seq<Observed>)
    requires DistinctPids(members)
    ensures DistinctPids(LiveOnly(members)) && DistinctPids(DeepestFirst(members))
  {
    if members == [] {
    } else {
      var tail := members[1..];
      TargetsAreDistinct(tail);
      forall x | x in tail ensures x.pid != members[0].pid {
        var k :| 0 <= k < |tail| && tail[k] == x;
        assert members[k + 1] == x;
      }
      InsertKeepsDistinct(members[0], DeepestFirst(tail));
      var kept := LiveOnly(tail);
      forall j | 0 <= j < |kept| ensures kept[j].pid != members[0].pid {
        assert kept[j] in kept && kept[j] in tail;
      }
    }
  }

  /** Distinct pids, and every target but the leader comes before its own parent. */
  ghost predicate ChildrenFirst(targets: seq<Observed>, leader: Pid) {
    && DistinctPids(targets)
    && forall j :: 0 <= j < |targets| && targets[j].pid != leader ==> ComesLater(targets, j, targets[j].ppid)
  }

  ghost predicate ComesLater(targets: seq<Observed>, j: nat, pid: Pid) {
    exists k :: j < k < |targets| && targets[k].pid == pid
  }

  /** Sorting a settled inventory deepest first puts every child before its parent. */
  lemma TargetsPutChildrenFirst(members: seq<Observed>, s: System)
    requires Settled(members, s)
    ensures ChildrenFirst(Targets(members), s.leader)
    ensures forall p :: LiveMember(s, p) ==> exists j :: 0 <= j < |Targets(members)| && Targets(members)[j].pid == p
  {
    var targets := Targets(members);
    TargetsAreDistinct(members);
    TargetsAreDistinct(LiveOnly(members));
    TargetsCoverTheLiving(members, s);
    forall j | 0 <= j < |targets| && targets[j].pid != s.leader
      ensures ComesLater(targets, j, targets[j].ppid)
    {
      ParentComesLater(members, s, j);
    }
  }

  lemma TargetsCoverTheLiving(members: seq<Observed>, s: System)
    requires Settled(members, s)
    ensures forall p :: LiveMember(s, p) ==> exists j :: 0 <= j < |Targets(members)| && Targets(members)[j].pid == p
  {
    var targets := Targets(members);
    forall p | LiveMember(s, p)
      ensures exists j :: 0 <= j < |targets| && targets[j].pid == p
    {
      var o :| o in members && o.pid == p;
      assert o in targets;
    }
  }

  /** The parent of a live non-leader is among the targets, one level up. */
  lemma ParentTarget(members: seq<Observed>, s: System, o: Observed) returns (k: nat)
    requires Settled(members, s) && o in members && Live(o) && o.pid != s.leader
    ensures k < |Targets(members)| && Targets(members)[k].pid == o.ppid
    ensures o.depth.Some? && Targets(members)[k].depth.Some?
    ensures DepthOf(o) == DepthOf(Targets(members)[k]) + 1
  {
    var targets := Targets(members);
    TargetsCoverTheLiving(members, s);
    assert LiveMember(s, o.ppid);
    k :| 0 <= k < |targets| && targets[k].pid == o.ppid;
    assert targets[k] in targets;
  }

  lemma ParentComesLater(members: seq<Observed>, s: System, j: nat)
    requires Settled(members, s) && j < |Targets(members)| && Targets(members)[j].pid != s.leader
    ensures ComesLater(Targets(members), j, Targets(members)[j].ppid)
  {
    assert Targets(members)[j] in Targets(members);
    var k := ParentTarget(members, s, Targets(members)[j]);
    DeepestFirstSorts(LiveOnly(members));
    DeeperComesFirst(Targets(members), j, k);
  }

  lemma DeeperComesFirst(targets: seq<Observed>, j: nat, k: nat)
    requires DeepestFirstOrder(targets) && j < |targets| && k < |targets| && DepthOf(targets[j]) > DepthOf(targets[k])
    ensures j < k
  {
    assert !DeeperFirst(targets[k], targets[j]);
  }

  /** The leader comes last. */
  lemma LeaderIsLast(targets: seq<Observed>, leader: Pid, i: nat)
    requires ChildrenFirst(targets, leader) && i < |targets| && targets[i].pid == leader
    ensures i == |targets| - 1
  {
    var last := |targets| - 1;
    assert targets[last].pid == leader;
  }

  /** From index `i` on, the targets are the processes of `start`, still held, under the same parents. */
  ghost predicate StillHeld(start: System, s: System, targets: seq<Observed>, i: nat) {
    forall j :: i <= j < |targets| ==>
      && Held(s, targets[j].pid) && Member(s, targets[j].pid) && SameProcess(start, s, targets[j].pid)
      && s.procs[targets[j].pid].ppid == targets[j].ppid
  }

  lemma StillHeldLasts(start: System, s: System, t: System, targets: seq<Observed>, i: nat)
    requires Rely(s, t) && ChildrenFirst(targets, s.leader) && StillHeld(start, s, targets, i)
    ensures StillHeld(start, t, targets, i)
  {
    forall j | i <= j < |targets|
      ensures Held(t, targets[j].pid) && SameProcess(s, t, targets[j].pid)
      ensures t.procs[targets[j].pid].ppid == targets[j].ppid
    {
      assert Held(s, targets[j].pid);
      if targets[j].pid != s.leader {
        assert ComesLater(targets, j, targets[j].ppid);
        var k :| j < k < |targets| && targets[k].pid == targets[j].ppid;
        assert Held(s, targets[k].pid);
      }
      assert Pinned(s, targets[j].pid);
    }
  }

  lemma StillHeldAfterSignal(start: System, s: System, signal: Signal, targets: seq<Observed>, i: nat)
    requires ChildrenFirst(targets, s.leader) && StillHeld(start, s, targets, i) && i < |targets|
    ensures StillHeld(start, Signalled(s, targets[i].pid, signal), targets, i + 1)
  {
    var t := Signalled(s, targets[i].pid, signal);
    forall j | i + 1 <= j < |targets|
      ensures Held(t, targets[j].pid) && t.procs[targets[j].pid] == s.procs[targets[j].pid]
    {
      assert targets[j].pid != targets[i].pid;
    }
  }

  /** The deliveries that hit each target's process of `start`, in order. */
  ghost function Deliveries(start: System, targets: seq<Observed>, n: nat, signal: Signal): seq<Delivery>
    requires n <= |targets|
    requires forall j :: 0 <= j < |targets| ==> targets[j].pid in start.procs
  {
    seq(n, j requires 0 <= j < n =>
      Delivery(targets[j].pid, signal, start.procs[targets[j].pid].birth, start.procs[targets[j].pid].birth))
  }

  /** Signal number `i` reached the process of `start` it was meant for. */
  ghost predicate Addressed(start: System, before: System, after: System,
                            oldLog: seq<Delivery>, newLog: seq<Delivery>, pid: Pid, signal: Signal)
  {
    && pid in before.procs && pid in start.procs
    && after == Signalled(before, pid, signal)
    && newLog == oldLog + [Delivery(pid, signal, start.procs[pid].birth, start.procs[pid].birth)]
  }

  /** Signals the leader after one more inventory has shown it stopped. */
  method SignalStoppedLeader(m: Machine, ghost start: System, targets: seq<Observed>, i: nat, signal: Signal)
    returns (r: Result<(), Refusal>, ghost before: System)
    requires m.Valid() && Undoomed(m.sys) && ChildrenFirst(targets, m.sys.leader)
    requires i < |targets| && targets[i].pid == m.sys.leader && StillHeld(start, m.sys, targets, i)
    modifies m
    ensures m.Valid() && WellFormed(before) && Rely(old(m.sys), before)
    ensures Sheltered(old(m.sys)) && !old(m.orphaned) ==> !m.orphaned
    ensures before.leader == m.sys.leader == old(m.sys.leader)
    ensures StillHeld(start, before, targets, i)
    ensures r.Ok? ==> Addressed(start, before, m.sys, old(m.log), m.log, targets[i].pid, signal)
    ensures r.Err? ==> m.sys == before && m.log == old(m.log)
    ensures m.calm && AtRest(old(m.sys)) ==> r.Ok? && before == old(m.sys)
  {
    var validated := ValidatedMembers(m);
    ghost var s1 := m.sys;
    StillHeldLasts(start, old(m.sys), s1, targets, i);
    if validated.Err? {
      return Err(validated.error), s1;
    }
    var leader := Find(validated.value, targets[i].pid);
    if leader.None? || leader.value.state != Stopped {
      return Err(NotStopped), s1;
    }
    r, before := SignalLeader(m, signal);
    RelyOnwards(old(m.sys), s1, before);
    StillHeldLasts(start, s1, before, targets, i);
    assert Held(before, targets[i].pid) && SameProcess(start, before, targets[i].pid);
  }

  /** A target that is still held would be signalled. */
  lemma TargetIsHeld(start: System, s: System, targets: seq<Observed>, i: nat)
    requires i < |targets| && targets[i].pid != s.leader
    requires ChildrenFirst(targets, s.leader) && StillHeld(start, s, targets, i)
    ensures Judgement(s, targets[i].pid, true, false, targets[i].ppid) == Send
  {
    var k := ParentPlace(targets, s.leader, i);
    assert Held(s, targets[k].pid) && Held(s, targets[i].pid);
  }

  method SignalStoppedMember(m: Machine, ghost start: System, targets: seq<Observed>, i: nat, signal: Signal,
                             patience: nat)
    returns (r: Result<(), Refusal>, ghost before: System)
    requires m.Valid() && Undoomed(m.sys) && ChildrenFirst(targets, m.sys.leader)
    requires i < |targets| && targets[i].pid != m.sys.leader && StillHeld(start, m.sys, targets, i)
    modifies m
    ensures m.Valid() && WellFormed(before) && Rely(old(m.sys), before)
    ensures Sheltered(old(m.sys)) && !old(m.orphaned) ==> !m.orphaned
    ensures before.leader == m.sys.leader == old(m.sys.leader)
    ensures StillHeld(start, before, targets, i)
    ensures r.Ok? ==> Addressed(start, before, m.sys, old(m.log), m.log, targets[i].pid, signal)
    ensures r.Err? ==> m.sys == before && m.log == old(m.log)
    ensures m.calm && patience > 0 && AtRest(old(m.sys)) ==> r.Ok? && before == old(m.sys)
  {
    var pid := targets[i].pid;
    TargetIsHeld(start, m.sys, targets, i);
    ghost var seen;
    var signalled;
    signalled, seen, before := SignalExact(m, pid, signal, true, false, targets[i].ppid, patience);
    StillHeldLasts(start, old(m.sys), before, targets, i);
    assert LiveMember(before, pid) && SameProcess(start, before, pid);
    if signalled.Ok? {
      assert signalled.value;
      assert seen.procs[pid].birth == before.procs[pid].birth == start.procs[pid].birth;
      r := Ok(());
    } else {
      r := Err(signalled.error);
    }
  }

  /** Signals target `i` of a settled, stopped group: the leader itself, or an exact member. */
  method SignalTarget(m: Machine, ghost start: System, targets: seq<Observed>, i: nat, signal: Signal, patience: nat)
    returns (r: Result<(), Refusal>, ghost before: System)
    requires m.Valid() && Undoomed(m.sys) && ChildrenFirst(targets, m.sys.leader)
    requires i < |targets| && StillHeld(start, m.sys, targets, i)
    modifies m
    ensures m.Valid() && WellFormed(before) && Rely(old(m.sys), before)
    ensures Sheltered(old(m.sys)) && !old(m.orphaned) ==> !m.orphaned
    ensures before.leader == m.sys.leader == old(m.sys.leader)
    ensures StillHeld(start, before, targets, i)
    ensures r.Ok? ==> Addressed(start, before, m.sys, old(m.log), m.log, targets[i].pid, signal)
    ensures r.Err? ==> m.sys == before && m.log == old(m.log)
    ensures m.calm && patience > 0 && AtRest(old(m.sys)) ==> r.Ok? && before == old(m.sys)
  {
    if targets[i].pid == m.sys.leader {
      r, before := SignalStoppedLeader(m, start, targets, i, signal);
    } else {
      r, before := SignalStoppedMember(m, start, targets, i, signal, patience);
    }
  }

  lemma DeliveriesGrow(start: System, targets: seq<Observed>, i: nat, signal: Signal)
    requires i < |targets|
    requires forall j :: 0 <= j < |targets| ==> targets[j].pid in start.procs
    ensures Deliveries(start, targets, i + 1, signal) == Deliveries(start, targets, i, signal) +
              [Delivery(targets[i].pid, signal, start.procs[targets[i].pid].birth, start.procs[targets[i].pid].birth)]
  {}

  /** A settled inventory without running members: every target is held and the tree is known. */
  lemma TargetsAreHeld(members: seq<Observed>, s: System)
    requires Settled(members, s) && Undoomed(s)
    requires forall o :: o in members ==> o.state != Running
    ensures ChildrenFirst(Targets(members), s.leader)
    ensures StillHeld(s, s, Targets(members), 0)
    ensures forall p :: LiveMember(s, p) ==> exists j :: 0 <= j < |Targets(members)| && Targets(members)[j].pid == p
  {
    TargetsPutChildrenFirst(members, s);
    var targets := Targets(members);
    forall j | 0 <= j < |targets|
      ensures Held(s, targets[j].pid) && Member(s, targets[j].pid) && s.procs[targets[j].pid].ppid == targets[j].ppid
    {
      assert targets[j] in targets;
    }
  }

  /** Target `i` and those after it are the held processes of `start`, and nobody has a KILL coming. */
  ghost predicate ResumePhase(start: System, s: System, targets: seq<Observed>, i: nat) {
    Undoomed(s) && s.leader == start.leader && ChildrenFirst(targets, s.leader) && StillHeld(start, s, targets, i)
  }

  lemma ResumedStep(start: System, s: System, t: System, targets: seq<Observed>, i: nat)
    requires i < |targets| && ResumePhase(start, s, targets, i)
    requires Rely(s, t) && StillHeld(start, t, targets, i)
    ensures ResumePhase(start, Signalled(t, targets[i].pid, CONT), targets, i + 1)
  {
    UndoomedLasts(s, t);
    SignalledUndoomed(t, targets[i].pid, CONT);
    StillHeldAfterSignal(start, t, CONT, targets, i);
  }

  lemma ResumedAtRest(start: System, s: System, targets: seq<Observed>, i: nat)
    requires WellFormed(s) && Undoomed(s) && i < |targets| && StillHeld(start, s, targets, i) && AtRest(s)
    ensures AtRest(Signalled(s, targets[i].pid, CONT))
  {
    ContTakesEffect(s, targets[i].pid);
  }

  /** One CONT. */
  method ResumeOne(m: Machine, ghost start: System, targets: seq<Observed>, i: nat, patience: nat)
    returns (r: Result<(), Refusal>)
    requires m.Valid() && i < |targets| && ResumePhase(start, m.sys, targets, i) && targets[i].pid in start.procs
    modifies m
    ensures m.Valid() && (r.Ok? ==> ResumePhase(start, m.sys, targets, i + 1))
    ensures m.log == old(m.log) + (if r.Ok? then
              [Delivery(targets[i].pid, CONT, start.procs[targets[i].pid].birth, start.procs[targets[i].pid].birth)] else [])
    ensures m.calm && patience > 0 && AtRest(old(m.sys)) ==> r.Ok? && AtRest(m.sys)
  {
    ghost var s0 := m.sys;
    ghost var before;
    r, before := SignalTarget(m, start, targets, i, CONT, patience);
    if r.Ok? {
      ResumedStep(start, s0, before, targets, i);
      UndoomedLasts(s0, before);
      if AtRest(before) {
        ResumedAtRest(start, before, targets, i);
      }
    }
  }

  /** A round of the resuming loop, with the deliveries since `log` counted. */
  method ResumeRound(m: Machine, ghost start: System, targets: seq<Observed>, i: nat, patience: nat, ghost log: seq<Delivery>)
    returns (r: Result<(), Refusal>, ghost n: nat)
    requires m.Valid() && i < |targets| && ResumePhase(start, m.sys, targets, i)
    requires forall j :: 0 <= j < |targets| ==> targets[j].pid in start.procs
    requires m.log == log + Deliveries(start, targets, i, CONT)
    modifies m
    ensures m.Valid() && (r.Ok? ==> n == i + 1 && ResumePhase(start, m.sys, targets, n))
    ensures n <= |targets| && m.log == log + Deliveries(start, targets, n, CONT)
    ensures m.calm && patience > 0 && AtRest(old(m.sys)) ==> r.Ok? && AtRest(m.sys)
  {
    DeliveriesGrow(start, targets, i, CONT);
    r := ResumeOne(m, start, targets, i, patience);
    n := if r.Ok? then i + 1 else i;
  }

  /** The resuming loop: stops at the first refusal, after `n` exact deliveries. */
  method ResumeAll(m: Machine, ghost start: System, targets: seq<Observed>, patience: nat)
    returns (r: Result<(), Refusal>, ghost n: nat)
    requires m.Valid() && ResumePhase(start, m.sys, targets, 0)
    requires forall j :: 0 <= j < |targets| ==> targets[j].pid in start.procs
    modifies m
    ensures m.Valid()
    ensures n <= |targets| && m.log == old(m.log) + Deliveries(start, targets, n, CONT)
    ensures r.Ok? ==> n == |targets|
    ensures m.calm && patience > 0 && AtRest(old(m.sys)) ==> r.Ok?
  {
    ghost var log := m.log;
    n := 0;
    for i := 0 to |targets|
      invariant m.Valid() && ResumePhase(start, m.sys, targets, i)
      invariant m.calm && patience > 0 && AtRest(old(m.sys)) ==> AtRest(m.sys)
      invariant n == i && m.log == log + Deliveries(start, targets, n, CONT)
    {
      r, n := ResumeRound(m, start, targets, i, patience, log);
      if r.Err? {
        return;
      }
    }
    r := Ok(());
  }

  /**
   `continue_owned_process_group`: on success every live member of the inventory `start` was sent one
   CONT, deepest first, and each of those reached the process of that inventory. A calm machine
   resumes every rooted group in which nobody runs.
   */
  method ContinueGroup(m: Machine, patience: nat)
    returns (r: Result<(), Refusal>, ghost start: System, ghost targets: seq<Observed>, ghost n: nat)
    requires m.Valid() && Undoomed(m.sys)
    modifies m
    ensures m.Valid() && Rely(old(m.sys), start)
    ensures forall j :: 0 <= j < |targets| ==> targets[j].pid in start.procs
    ensures n <= |targets| && m.log == old(m.log) + Deliveries(start, targets, n, CONT)
    ensures r.Ok? ==>
              && n == |targets| && ChildrenFirst(targets, start.leader)
              && (forall p :: LiveMember(start, p) ==> exists j :: 0 <= j < |targets| && targets[j].pid == p)
    ensures m.calm && patience > 0 && Rooted(Delivered(old(m.sys))) && Runners(Delivered(old(m.sys))) == {} ==> r.Ok?
  {
    DeliveredOnce(m.sys);
    targets, n := [], 0;
    var validated := ValidatedMembers(m);
    start := m.sys;
    UndoomedLasts(old(m.sys), start);
    if validated.Err? {
      return Err(validated.error), start, [], 0;
    }
    var members := validated.value;
    var unstopped := Select(members, (o: Observed) => o.state == Running);
    RunnersAreListed(members, start, unstopped);
    if unstopped != [] {
      return Err(NotStopped), start, [], 0;
    }
    forall o | o in members ensures o.state != Running {
      assert o !in unstopped;
    }
    TargetsAreHeld(members, start);
    targets := Targets(members);
    r, n := ResumeAll(m, start, Targets(members), patience);
  }

  /** Besides the targets from `i` on, no member is live. */
  ghost predicate OnlyTargetsLive(s: System, targets: seq<Observed>, i: nat) {
    forall p :: LiveMember(s, p) ==> exists j :: i <= j < |targets| && targets[j].pid == p
  }

  lemma OnlyTargetsLiveLasts(s: System, t: System, targets: seq<Observed>, i: nat)
    requires Quiet(s) && Rely(s, t) && OnlyTargetsLive(s, targets, i)
    ensures OnlyTargetsLive(t, targets, i)
  {}

  /** Dooming target `i` takes the shelter from no live member: its own children are already dead. */
  lemma DoomKeepsShelter(start: System, s: System, targets: seq<Observed>, i: nat)
    requires i < |targets| && ChildrenFirst(targets, s.leader) && StillHeld(start, s, targets, i)
    requires Sheltered(s) && OnlyTargetsLive(s, targets, i)
    ensures Sheltered(Signalled(s, targets[i].pid, KILL))
    ensures OnlyTargetsLive(Signalled(s, targets[i].pid, KILL), targets, i)
  {
    var t := Signalled(s, targets[i].pid, KILL);
    forall p | LiveMember(t, p)
      ensures LiveMember(s, p)
      ensures p != t.leader ==> Held(t, t.procs[p].ppid) && Member(t, t.procs[p].ppid)
    {
      assert LiveMember(s, p);
      if p != t.leader {
        ParentStaysHeld(start, s, targets, i, p);
      }
    }
    forall p | Member(t, p) ensures t.procs[p].state != Running {
      assert Member(s, p);
    }
  }

  lemma ParentPlace(targets: seq<Observed>, leader: Pid, j: nat) returns (k: nat)
    requires ChildrenFirst(targets, leader) && j < |targets| && targets[j].pid != leader
    ensures j < k < |targets| && targets[k].pid == targets[j].ppid && DistinctPids(targets)
  {
    assert ComesLater(targets, j, targets[j].ppid);
    k :| j < k < |targets| && targets[k].pid == targets[j].ppid;
  }

  /** A live member's parent is a later target, and so not the one that is doomed now. */
  lemma ParentStaysHeld(start: System, s: System, targets: seq<Observed>, i: nat, p: Pid)
    requires i < |targets| && ChildrenFirst(targets, s.leader) && StillHeld(start, s, targets, i)
    requires OnlyTargetsLive(s, targets, i) && LiveMember(s, p) && p != s.leader
    ensures var t := Signalled(s, targets[i].pid, KILL);
            LiveMember(t, p) ==> Held(t, t.procs[p].ppid) && Member(t, t.procs[p].ppid)
  {
    var j :| i <= j < |targets| && targets[j].pid == p;
    var k := ParentPlace(targets, s.leader, j);
    OtherStaysHeld(start, s, targets, i, k);
    assert s.procs[p].ppid == targets[j].ppid;
  }

  lemma OtherStaysHeld(start: System, s: System, targets: seq<Observed>, i: nat, k: nat)
    requires DistinctPids(targets) && i < k < |targets| && StillHeld(start, s, targets, i)
    ensures var t := Signalled(s, targets[i].pid, KILL);
            Held(t, targets[k].pid) && Member(t, targets[k].pid)
  {
    assert targets[k].pid != targets[i].pid;
    assert Held(s, targets[k].pid);
  }

  /** Once target `i` is seen dead, the rest of the group is as before, one target shorter. */
  lemma DeathLeavesTheRest(s: System, t: System, targets: seq<Observed>, i: nat)
    requires WellFormed(t) && i < |targets| && DistinctPids(targets)
    requires Undoomed(s) && targets[i].pid in s.procs
    requires Rely(Signalled(s, targets[i].pid, KILL), t)
    requires Member(t, targets[i].pid) && t.procs[targets[i].pid].state == Zombie
    requires OnlyTargetsLive(t, targets, i)
    ensures OnlyTargetsLive(t, targets, i + 1) && Undoomed(t)
  {
    var doomed := Signalled(s, targets[i].pid, KILL);
    forall p | LiveMember(t, p)
      ensures exists j :: i + 1 <= j < |targets| && targets[j].pid == p
    {
      var j :| i <= j < |targets| && targets[j].pid == p;
      assert j != i;
    }
    forall p | Member(t, p)
      ensures !t.procs[p].doomed
    {
      if t.procs[p].doomed {
        assert SameProcess(doomed, t, p) && doomed.procs[p].doomed;
        assert p != targets[i].pid;
        assert Member(s, p);
      }
    }
  }

  /** Nobody runs, and nobody is left alive but the leader, whose KILL is on the way. */
  ghost predicate Finished(s: System) {
    && Quiet(s)
    && forall p :: LiveMember(s, p) ==> p == s.leader && s.procs[p].doomed
  }

  /** The group is frozen, and exactly the targets from `i` on are left to kill. */
  ghost predicate KillPhase(start: System, s: System, targets: seq<Observed>, i: nat) {
    && ResumePhase(start, s, targets, i)
    && Sheltered(s) && OnlyTargetsLive(s, targets, i)
  }

  lemma KillPhaseLasts(start: System, s: System, t: System, targets: seq<Observed>, i: nat)
    requires KillPhase(start, s, targets, i) && Rely(s, t)
    ensures KillPhase(start, t, targets, i)
  {
    ShelterLasts(s, t);
    StillHeldLasts(start, s, t, targets, i);
    OnlyTargetsLiveLasts(s, t, targets, i);
    UndoomedLasts(s, t);
  }

  /** The kill phase moves on to the next target once the doomed one is seen dead. */
  lemma KillPhaseAdvances(start: System, s: System, t: System, targets: seq<Observed>, i: nat)
    requires WellFormed(t) && i < |targets| && KillPhase(start, s, targets, i)
    requires Rely(Signalled(s, targets[i].pid, KILL), t)
    requires Member(t, targets[i].pid) && t.procs[targets[i].pid].state == Zombie
    ensures KillPhase(start, t, targets, i + 1)
  {
    DoomLasts(start, s, t, targets, i);
    DeathLeavesTheRest(s, t, targets, i);
  }

  /** What the doomed target's death takes place in. */
  lemma DoomLasts(start: System, s: System, t: System, targets: seq<Observed>, i: nat)
    requires WellFormed(t) && i < |targets| && KillPhase(start, s, targets, i)
    requires Rely(Signalled(s, targets[i].pid, KILL), t)
    ensures Sheltered(t) && StillHeld(start, t, targets, i + 1) && OnlyTargetsLive(t, targets, i)
  {
    var doomed := Signalled(s, targets[i].pid, KILL);
    DoomKeepsShelter(start, s, targets, i);
    StillHeldAfterSignal(start, s, KILL, targets, i);
    ShelterLasts(doomed, t);
    StillHeldLasts(start, doomed, t, targets, i + 1);
    OnlyTargetsLiveLasts(doomed, t, targets, i);
  }

  lemma KillPhaseEnds(start: System, s: System, targets: seq<Observed>, i: nat)
    requires i < |targets| && KillPhase(start, s, targets, i) && targets[i].pid == s.leader
    ensures Finished(Signalled(s, s.leader, KILL))
  {
    var t := Signalled(s, s.leader, KILL);
    DoomKeepsShelter(start, s, targets, i);
    LeaderIsLast(targets, s.leader, i);
    assert Held(s, targets[i].pid);
    forall p | LiveMember(t, p) ensures p == t.leader && t.procs[p].doomed {
      assert LiveMember(s, p);
    }
  }

  /** The look before each KILL: nobody may be live but the targets. */
  method RefuseNewcomers(m: Machine, ghost start: System, targets: seq<Observed>, targetPids: set<Pid>, ghost i: nat)
    returns (r: Result<(), Refusal>)
    requires m.Valid() && !m.orphaned && i < |targets| && KillPhase(start, m.sys, targets, i)
    requires targetPids == Pids(targets)
    modifies m
    ensures m.Valid() && !m.orphaned && m.log == old(m.log) && KillPhase(start, m.sys, targets, i)
    ensures m.sys.leader == old(m.sys.leader)
    ensures m.calm && AtRest(old(m.sys)) ==> r.Ok? && m.sys == old(m.sys)
  {
    ghost var s0 := m.sys;
    var validated := ValidatedMembers(m);
    KillPhaseLasts(start, s0, m.sys, targets, i);
    if validated.Err? {
      return Err(validated.error);
    }
    var unexpected := Select(validated.value, (o: Observed) => Live(o) && o.pid !in targetPids);
    NobodyElseLives(validated.value, m.sys, targets, i);
    assert unexpected != [] ==> unexpected[0] in unexpected;
    return if unexpected != [] then Err(Changed) else Ok(());
  }

  /** Sees target `i` dead after its KILL was sent in `before`. */
  method AwaitDeath(m: Machine, ghost start: System, ghost before: System, targets: seq<Observed>, i: nat, patience: nat)
    returns (r: Result<(), Refusal>)
    requires m.Valid() && !m.orphaned && i < |targets| && KillPhase(start, before, targets, i) && WellFormed(before)
    requires targets[i].pid != before.leader && m.sys == Signalled(before, targets[i].pid, KILL)
    modifies m
    ensures m.Valid() && !m.orphaned && m.log == old(m.log) && m.sys.leader == old(m.sys.leader)
    ensures r.Ok? ==> KillPhase(start, m.sys, targets, i + 1)
    ensures m.calm && patience > 0 && AtRest(before) ==> r.Ok? && AtRest(m.sys)
  {
    DoomKeepsShelter(start, before, targets, i);
    if AtRest(before) {
      TargetDies(start, before, targets, i);
    }
    r := WaitQuiescence(m, targets[i].pid, Some(targets[i].ppid), true, patience);
    if r.Ok? {
      KillPhaseAdvances(start, before, m.sys, targets, i);
    }
  }

  /** After target `i` was sent its KILL: the leader ends the loop, anybody else is awaited. */
  method SeeDead(m: Machine, ghost start: System, ghost before: System, targets: seq<Observed>, i: nat, patience: nat)
    returns (r: Result<(), Refusal>)
    requires m.Valid() && !m.orphaned && i < |targets| && KillPhase(start, before, targets, i) && WellFormed(before)
    requires m.sys == Signalled(before, targets[i].pid, KILL)
    modifies m
    ensures m.Valid() && !m.orphaned && m.log == old(m.log) && m.sys.leader == old(m.sys.leader)
    ensures r.Ok? && targets[i].pid == m.sys.leader ==> Finished(m.sys)
    ensures r.Ok? && targets[i].pid != m.sys.leader ==> KillPhase(start, m.sys, targets, i + 1)
    ensures m.calm && patience > 0 && AtRest(before) ==> r.Ok? && (targets[i].pid != m.sys.leader ==> AtRest(m.sys))
  {
    if targets[i].pid == m.sys.leader {
      KillPhaseEnds(start, before, targets, i);
      return Ok(());
    }
    r := AwaitDeath(m, start, before, targets, i, patience);
  }

  /** One round of the kill loop: re-inventory, refuse newcomers, kill target `i`, see it dead. */
  method KillOne(m: Machine, ghost start: System, targets: seq<Observed>, targetPids: set<Pid>, i: nat, patience: nat)
    returns (r: Result<(), Refusal>, ghost sent: bool)
    requires m.Valid() && !m.orphaned && i < |targets| && KillPhase(start, m.sys, targets, i)
    requires targets[i].pid in start.procs && targetPids == Pids(targets)
    modifies m
    ensures m.Valid() && !m.orphaned && m.sys.leader == old(m.sys.leader)
    ensures m.log == old(m.log) + (if sent then
              [Delivery(targets[i].pid, KILL, start.procs[targets[i].pid].birth, start.procs[targets[i].pid].birth)] else [])
    ensures r.Ok? ==> sent
    ensures r.Ok? && targets[i].pid == m.sys.leader ==> Finished(m.sys)
    ensures r.Ok? && targets[i].pid != m.sys.leader ==> KillPhase(start, m.sys, targets, i + 1)
    ensures m.calm && patience > 0 && AtRest(old(m.sys)) ==> r.Ok? && (targets[i].pid != m.sys.leader ==> AtRest(m.sys))
  {
    sent := false;
    r := RefuseNewcomers(m, start, targets, targetPids, i);
    if r.Err? {
      return;
    }
    ghost var s1 := m.sys;
    ghost var before;
    r, before := SignalTarget(m, start, targets, i, KILL, patience);
    if r.Err? {
      return;
    }
    sent := true;
    KillPhaseLasts(start, s1, before, targets, i);
    r := SeeDead(m, start, before, targets, i, patience);
  }

  /** A round, with the deliveries since `log` counted. */
  method KillRound(m: Machine, ghost start: System, targets: seq<Observed>, targetPids: set<Pid>, i: nat,
                   patience: nat, ghost log: seq<Delivery>)
    returns (r: Result<(), Refusal>, ghost n: nat)
    requires m.Valid() && !m.orphaned && i < |targets| && KillPhase(start, m.sys, targets, i)
    requires targetPids == Pids(targets) && forall j :: 0 <= j < |targets| ==> targets[j].pid in start.procs
    requires m.log == log + Deliveries(start, targets, i, KILL)
    modifies m
    ensures m.Valid() && !m.orphaned && m.sys.leader == old(m.sys.leader)
    ensures n <= |targets| && m.log == log + Deliveries(start, targets, n, KILL)
    ensures r.Ok? ==> n == i + 1
    ensures r.Ok? && targets[i].pid == m.sys.leader ==> n == |targets| && Finished(m.sys)
    ensures r.Ok? && targets[i].pid != m.sys.leader ==> KillPhase(start, m.sys, targets, n)
    ensures m.calm && patience > 0 && AtRest(old(m.sys)) ==> r.Ok? && (targets[i].pid != m.sys.leader ==> AtRest(m.sys))
  {
    LeaderIsLastIfThere(targets, m.sys.leader, i);
    DeliveriesGrow(start, targets, i, KILL);
    ghost var sent;
    r, sent := KillOne(m, start, targets, targetPids, i, patience);
    n := if sent then i + 1 else i;
  }

  lemma LeaderIsLastIfThere(targets: seq<Observed>, leader: Pid, i: nat)
    requires i < |targets| && ChildrenFirst(targets, leader)
    ensures targets[i].pid == leader ==> i + 1 == |targets|
  {
    if targets[i].pid == leader {
      LeaderIsLast(targets, leader, i);
    }
  }

  /** The kill loop over the sorted targets; `n` KILLs were sent. */
  method KillAll(m: Machine, ghost start: System, targets: seq<Observed>, patience: nat)
    returns (r: Result<(), Refusal>, ghost n: nat)
    requires m.Valid() && !m.orphaned && KillPhase(start, m.sys, targets, 0)
    requires forall j :: 0 <= j < |targets| ==> targets[j].pid in start.procs
    modifies m
    ensures m.Valid() && !m.orphaned
    ensures n <= |targets| && m.log == old(m.log) + Deliveries(start, targets, n, KILL)
    ensures r.Ok? ==> n == |targets| && Finished(m.sys)
    ensures m.calm && patience > 0 && AtRest(old(m.sys)) ==> r.Ok?
  {
    var leader := m.sys.leader;
    ghost var log := m.log;
    var targetPids := set o | o in targets :: o.pid;
    n := 0;
    for i := 0 to |targets|
      invariant m.Valid() && !m.orphaned && m.sys.leader == leader
      invariant KillPhase(start, m.sys, targets, i)
      invariant n == i && m.log == log + Deliveries(start, targets, n, KILL)
      invariant m.calm && patience > 0 && AtRest(old(m.sys)) ==> AtRest(m.sys)
    {
      r, n := KillRound(m, start, targets, targetPids, i, patience, log);
      if r.Err? || targets[i].pid == leader {
        return;
      }
    }
    if Rooted(m.sys) {
      LeaderIsLeft(m.sys, targets);
    }
    return Err(LeaderMissing), n;
  }

  /** While the group has a tree, its leader is still to be killed. */
  lemma LeaderIsLeft(s: System, targets: seq<Observed>)
    requires OnlyTargetsLive(s, targets, |targets|)
    ensures !Rooted(s)
  {}

  /** Whoever is live is a later target, and so under a later target. */
  lemma NoLiveChildren(start: System, s: System, targets: seq<Observed>, i: nat)
    requires i < |targets| && KillPhase(start, s, targets, i)
    ensures forall q :: LiveMember(s, q) && q != s.leader ==> s.procs[q].ppid != targets[i].pid
  {
    forall q | LiveMember(s, q) && q != s.leader
      ensures s.procs[q].ppid != targets[i].pid
    {
      var j :| i <= j < |targets| && targets[j].pid == q;
      var k := ParentPlace(targets, s.leader, j);
      assert s.procs[q].ppid == targets[j].ppid;
    }
  }

  /** The target's KILL arrives and nobody else is touched. */
  lemma TargetDies(start: System, s: System, targets: seq<Observed>, i: nat)
    requires WellFormed(s) && i < |targets| && KillPhase(start, s, targets, i)
    requires targets[i].pid != s.leader && AtRest(s)
    ensures var t := Delivered(Signalled(s, targets[i].pid, KILL));
            AtRest(t) && IsQuiescent(t, targets[i].pid, Some(targets[i].ppid), true)
  {
    assert Held(s, targets[i].pid);
    NoLiveChildren(start, s, targets, i);
    KillTakesEffect(s, targets[i].pid);
  }

  /** Nobody but the targets is live. */
  lemma NobodyElseLives(members: seq<Observed>, s: System, targets: seq<Observed>, i: nat)
    requires Reflects(members, s) && OnlyTargetsLive(s, targets, i)
    ensures forall o :: o in members && Live(o) ==> o.pid in Pids(targets)
  {
    forall o | o in members && Live(o) ensures o.pid in Pids(targets) {
      assert LiveMember(s, o.pid);
      var j :| i <= j < |targets| && targets[j].pid == o.pid;
      assert targets[j] in targets;
    }
  }

  /**
   The kill phase, from the frozen fixed point `members` on. Every KILL reaches the frozen process
   it was meant for, deepest first; no live member is ever orphaned on the way; and when the method
   reports success nobody is left alive but the leader, whose KILL is on the way.
   */
  method KillFrozen(m: Machine, members: seq<Observed>, patience: nat)
    returns (r: Result<(), Refusal>, ghost n: nat)
    requires m.Valid() && Undoomed(m.sys) && Settled(members, m.sys) && Sheltered(m.sys) && !m.orphaned
    modifies m
    ensures m.Valid() && !m.orphaned
    ensures forall j :: 0 <= j < |Targets(members)| ==> Targets(members)[j].pid in old(m.sys).procs
    ensures n <= |Targets(members)| && m.log == old(m.log) + Deliveries(old(m.sys), Targets(members), n, KILL)
    ensures r.Ok? ==> n == |Targets(members)| && Finished(m.sys)
    ensures m.calm && patience > 0 && AtRest(old(m.sys)) ==> r.Ok?
  {
    forall o | o in members ensures o.state != Running {
      assert Member(m.sys, o.pid);
    }
    TargetsAreHeld(members, m.sys);
    r, n := KillAll(m, m.sys, Targets(members), patience);
  }

  /**
   `kill_owned_process_group`: freeze, then kill. `frozen` is the state at the fixed point, if it was
   reached, and `n` the length of the log then. Whatever fails after it, the KILLs sent so far are a
   prefix of those to the targets, deepest first, and no live member has been an orphan. On a calm
   machine it kills every rooted group if it may look twice more often than members run.
   */
  method KillGroup(m: Machine, patience: nat)
    returns (r: Result<(), Refusal>, ghost reached: bool, ghost frozen: System, ghost targets: seq<Observed>,
             ghost n: nat, ghost killed: nat)
    requires m.Valid() && Undoomed(m.sys)
    modifies m
    ensures m.Valid() && (r.Ok? ==> reached && killed == |targets| && Finished(m.sys))
    ensures !reached ==> Undoomed(m.sys)
    ensures reached ==>
              && Sheltered(frozen) && ChildrenFirst(targets, frozen.leader)
              && (forall j :: 0 <= j < |targets| ==> LiveMember(frozen, targets[j].pid))
              && (forall p :: LiveMember(frozen, p) ==> exists j :: 0 <= j < |targets| && targets[j].pid == p)
              && killed <= |targets| && n <= |m.log| && m.log[n..] == Deliveries(frozen, targets, killed, KILL)
              && !m.orphaned
    ensures old(m.log) <= m.log && (reached ==> |old(m.log)| <= n)
    ensures m.calm && Rooted(old(m.sys)) && patience >= |Runners(old(m.sys))| + 2 ==> r.Ok?
  {
    reached, targets, n, killed := false, [], 0, 0;
    var stopped := StopGroup(m, patience);
    frozen := m.sys;
    if stopped.Err? {
      return Err(stopped.error), false, frozen, [], 0, 0;
    }
    reached := true;
    m.orphaned := false;
    targets := Targets(stopped.value);
    TargetsPutChildrenFirst(stopped.value, frozen);
    forall j | 0 <= j < |targets| ensures LiveMember(frozen, targets[j].pid) {
      assert targets[j] in targets;
    }
    n := |m.log|;
    r, killed := KillFrozen(m, stopped.value, patience);
  }

  /** After a finished kill the group never comes back to life, whatever the machine does. */
  lemma FinishedLasts(s: System, t: System)
    requires Finished(s) && Rely(s, t)
    ensures Quiet(t)
    ensures forall p :: LiveMember(t, p) ==> p == s.leader && SameProcess(s, t, p)
    ensures forall p :: Member(t, p) ==> SameProcess(s, t, p)
  {
    forall p | LiveMember(t, p)
      ensures p == s.leader
    {
      assert LiveMember(s, p);
    }
  }
}
