/**
 The tree of an owned group, and what a machine that only delivers signals makes of it.
 */
module GroupTree {
  import opened ProcessTable

  /** Every live member hangs from the live leader by live members; `rank` grows downwards. */
  ghost predicate Ranked(s: System, rank: map<Pid, nat>) {
    && LiveMember(s, s.leader)
    && (forall p :: LiveMember(s, p) ==> p in rank)
    && (forall p :: LiveMember(s, p) && p != s.leader ==>
          LiveMember(s, s.procs[p].ppid) && rank[s.procs[p].ppid] < rank[p])
  }

  ghost predicate Rooted(s: System) {
    exists rank: map<Pid, nat> :: Ranked(s, rank)
  }

  /** The tree stands, and nothing is on its way to anybody. */
  ghost predicate AtRest(s: System) {
    Rooted(s) && Delivered(s) == s
  }

  predicate Runs(s: System, p: Pid) {
    Member(s, p) && s.procs[p].state == Running
  }

  ghost function Runners(s: System): set<Pid> {
    set p | p in s.procs && Runs(s, p)
  }

  /** Same live members under the same parents: the same tree. */
  lemma SameTree(s: System, t: System)
    requires Rooted(s) && t.leader == s.leader
    requires forall p :: LiveMember(s, p) <==> LiveMember(t, p)
    requires forall p :: LiveMember(s, p) ==> p in t.procs && t.procs[p].ppid == s.procs[p].ppid
    ensures Rooted(t)
  {
    var rank: map<Pid, nat> :| Ranked(s, rank);
    assert Ranked(t, rank);
  }

  /** What delivering signals does to the live members of a group without a pending KILL. */
  lemma DeliveredStops(s: System, p: Pid)
    requires WellFormed(s) && Rooted(s) && Undoomed(s) && LiveMember(s, p)
    ensures p in Delivered(s).procs
    ensures Delivered(s).procs[p] == if Stops(s, p) then s.procs[p].(state := Stopped, stopping := false) else s.procs[p]
  {
    var rank: map<Pid, nat> :| Ranked(s, rank);
    assert !Dies(s, p) && !Dies(s, s.procs[p].ppid);
    assert Delivered(s).procs[p] == DeliveredTo(s, p);
  }

  /** Delivering signals to a group without a pending KILL only stops members. */
  lemma DeliveredKeepsTree(s: System)
    requires WellFormed(s) && Rooted(s) && Undoomed(s)
    ensures Rooted(Delivered(s)) && Undoomed(Delivered(s))
    ensures Runners(Delivered(s)) <= Runners(s)
  {
    var t := Delivered(s);
    forall p | p in s.procs
      ensures t.procs[p].inGroup == s.procs[p].inGroup
      ensures Member(s, p) ==> !t.procs[p].doomed && (t.procs[p].state == Zombie <==> s.procs[p].state == Zombie)
      ensures Runs(t, p) ==> Runs(s, p)
    {
      assert t.procs[p] == DeliveredTo(s, p);
    }
    forall p | LiveMember(s, p) ensures t.procs[p].ppid == s.procs[p].ppid {
      DeliveredStops(s, p);
    }
    SameTree(s, t);
  }

  /** A STOP or CONT changes no tree. */
  lemma SignalledKeepsTree(s: System, p: Pid, signal: Signal)
    requires WellFormed(s) && Rooted(s) && Undoomed(s) && p in s.procs && signal != KILL
    ensures Rooted(Signalled(s, p, signal)) && Undoomed(Signalled(s, p, signal)) && WellFormed(Signalled(s, p, signal))
    ensures forall q :: LiveMember(s, q) <==> LiveMember(Signalled(s, p, signal), q)
  {
    SignalledKeeps(s, p, signal);
    SameTree(s, Signalled(s, p, signal));
  }

  /** Where nothing is on its way, nobody is about to stop or die. */
  lemma RestIsStill(s: System)
    requires Delivered(s) == s
    ensures forall p :: p in s.procs ==> !Stops(s, p) && !Dies(s, p)
  {
    forall p | p in s.procs ensures !Stops(s, p) && !Dies(s, p) {
      assert s.procs[p] == DeliveredTo(s, p);
    }
  }

  /** A STOP sent to a live process and delivered stops it, and that is all it does. */
  lemma StopSettles(s: System, p: Pid)
    requires Delivered(s) == s && p in s.procs && s.procs[p].state != Zombie
    ensures Delivered(Signalled(s, p, STOP)) == s.(procs := s.procs[p := s.procs[p].(state := Stopped)])
  {
    RestIsStill(s);
    var sent, t := Signalled(s, p, STOP), s.(procs := s.procs[p := s.procs[p].(state := Stopped)]);
    forall q | q in s.procs ensures DeliveredTo(sent, q) == t.procs[q] {
      assert !Dies(sent, q) && !Dies(sent, s.procs[q].ppid) && (q != p ==> !Stops(sent, q));
    }
    assert Delivered(sent).procs == t.procs;
  }

  ghost predicate IsStoppedTree(s: System, t: System, p: Pid) {
    && Rooted(t) && Undoomed(t) && p in s.procs
    && LiveMember(t, p) && t.procs[p].state == Stopped && t.procs[p].ppid == s.procs[p].ppid
    && Runners(t) == Runners(s) - {p}
    && (forall q :: LiveMember(s, q) && s.procs[q].state == Stopped ==> LiveMember(t, q) && t.procs[q].state == Stopped)
  }

  lemma StoppingKeepsTree(s: System, t: System, p: Pid)
    requires Rooted(s) && Undoomed(s) && LiveMember(s, p)
    requires t == s.(procs := s.procs[p := s.procs[p].(state := Stopped)])
    ensures IsStoppedTree(s, t, p)
  {
    forall q | q in s.procs && q != p ensures t.procs[q] == s.procs[q] {}
    SameTree(s, t);
  }

  /** So the member is stopped, the tree stands, and nobody else starts or stops running. */
  lemma StopTakesEffect(s: System, p: Pid)
    requires Rooted(s) && Undoomed(s) && LiveMember(s, p) && Delivered(s) == s
    ensures var t := Delivered(Signalled(s, p, STOP));
            IsStoppedTree(s, t, p) && Delivered(t) == t
  {
    StopSettles(s, p);
    StoppingKeepsTree(s, Delivered(Signalled(s, p, STOP)), p);
    DeliveredOnce(Signalled(s, p, STOP));
  }

  /** A KILL sent to a live process and delivered kills it and orphans its children, and that is all it does. */
  lemma KillSettles(s: System, p: Pid)
    requires Delivered(s) == s && p in s.procs && s.procs[p].state != Zombie && p != s.harness && s.procs[p].ppid != p
    ensures Delivered(Signalled(s, p, KILL)) == Die(s, p)
  {
    RestIsStill(s);
    var sent, t := Signalled(s, p, KILL), Die(s, p);
    forall q | q in s.procs ensures DeliveredTo(sent, q) == t.procs[q] {
      assert !Stops(sent, q) && (Dies(sent, q) <==> q == p) && (Dies(sent, s.procs[q].ppid) <==> s.procs[q].ppid == p);
    }
    assert Delivered(sent).procs == t.procs;
  }

  /** A KILL sent to a live member without live children and delivered leaves a zombie and the rest of the tree. */
  lemma KillTakesEffect(s: System, p: Pid)
    requires Rooted(s) && Delivered(s) == s
    requires LiveMember(s, p) && p != s.leader && p != s.harness
    requires forall q :: LiveMember(s, q) && q != s.leader ==> s.procs[q].ppid != p
    ensures var t := Delivered(Signalled(s, p, KILL));
            Rooted(t) && Delivered(t) == t && Member(t, p) && t.procs[p].state == Zombie
  {
    KillSettles(s, p);
    DeathKeepsTree(s, p);
    DeliveredOnce(Signalled(s, p, KILL));
  }

  lemma DeathKeepsTree(s: System, p: Pid)
    requires Rooted(s) && LiveMember(s, p) && p != s.leader
    requires forall q :: LiveMember(s, q) && q != s.leader ==> s.procs[q].ppid != p
    ensures Rooted(Die(s, p)) && Member(Die(s, p), p) && Die(s, p).procs[p].state == Zombie
  {
    var rank: map<Pid, nat> :| Ranked(s, rank);
    DeathChanges(s, p);
    assert forall q :: LiveMember(Die(s, p), q) ==> LiveMember(s, q) && q != p;
    assert Ranked(Die(s, p), rank);
  }

  /** A CONT to a member of a group at rest is the whole of its effect. */
  lemma ContTakesEffect(s: System, p: Pid)
    requires WellFormed(s) && Rooted(s) && Undoomed(s) && Delivered(s) == s && Member(s, p)
    ensures Rooted(Signalled(s, p, CONT)) && Delivered(Signalled(s, p, CONT)) == Signalled(s, p, CONT)
  {
    var t := Signalled(s, p, CONT);
    SignalledKeepsTree(s, p, CONT);
    forall q | q in t.procs ensures !Stops(t, q) && !Dies(t, q) {
      assert s.procs[q] == DeliveredTo(s, q);
    }
    NothingPending(t);
  }
}
