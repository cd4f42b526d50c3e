/**
 Depths over the PPID tree of an inventoried process group
 (`annotate_owned_process_group_depths`).
 */
module Ancestry {
  import opened Results
  import opened ProcessTable

  /** One line of the process inventory; `depth` is filled in by the annotation. */
  datatype Observed = Observed(
    pid: Pid, ppid: Pid, state: RunState, depth: Option<nat>, topologyError: bool)

  function Bare(o: Observed): Observed {
    o.(depth := None, topologyError := false)
  }

  /** The `by_pid` dictionary: the last entry for a pid wins. */
  function ByPid(members: seq<Observed>): map<Pid, Observed> {
    if members == [] then map[] else
      var last := members[|members| - 1];
      ByPid(members[..|members| - 1])[last.pid := last]
  }

  ghost predicate Duplicated(members: seq<Observed>, pid: Pid) {
    exists i, j :: 0 <= i < j < |members| && members[i].pid == pid && members[j].pid == pid
  }

  /** One of the first `n` entries is for `pid`. */
  ghost predicate Listed(members: seq<Observed>, n: nat, pid: Pid)
    requires n <= |members|
  {
    exists j :: 0 <= j < n && members[j].pid == pid
  }

  /** The `k`-th ancestor along PPID edges, climbing only through group members and never past the leader. */
  function Ancestor(byPid: map<Pid, Observed>, leader: Pid, pid: Pid, k: nat): Option<Pid> {
    if k == 0 then Some(pid) else
      match Ancestor(byPid, leader, pid, k - 1)
      case None => None
      case Some(q) => if q != leader && q in byPid then Some(byPid[q].ppid) else None
  }

  /** The leader is exactly `k` PPID edges above `pid`. */
  ghost predicate DepthIs(byPid: map<Pid, Observed>, leader: Pid, pid: Pid, k: nat) {
    Ancestor(byPid, leader, pid, k) == Some(leader)
  }

  ghost predicate Connected(byPid: map<Pid, Observed>, leader: Pid, pid: Pid) {
    exists k :: DepthIs(byPid, leader, pid, k)
  }

  lemma {:induction false} NoneAbove(byPid: map<Pid, Observed>, leader: Pid, pid: Pid, j: nat, k: nat)
    requires j <= k && Ancestor(byPid, leader, pid, j).None?
    ensures Ancestor(byPid, leader, pid, k).None?
    decreases k
  {
    if j < k {
      NoneAbove(byPid, leader, pid, j, k - 1);
    }
  }

  /** A pid has at most one depth. */
  lemma {:induction false} DepthIsUnique(byPid: map<Pid, Observed>, leader: Pid, pid: Pid, j: nat, k: nat)
    requires DepthIs(byPid, leader, pid, j) && DepthIs(byPid, leader, pid, k)
    ensures j == k
  {
    if j < k {
      NoneAbove(byPid, leader, pid, j + 1, k);
    } else if k < j {
      NoneAbove(byPid, leader, pid, k + 1, j);
    }
  }

  lemma {:induction false} ClimbFromParent(byPid: map<Pid, Observed>, leader: Pid, pid: Pid, k: nat)
    requires pid != leader && pid in byPid
    ensures Ancestor(byPid, leader, pid, k + 1) == Ancestor(byPid, leader, byPid[pid].ppid, k)
  {
    if k == 0 {
      assert Ancestor(byPid, leader, pid, 0) == Some(pid);
    } else {
      ClimbFromParent(byPid, leader, pid, k - 1);
    }
  }

  /** Depths fall by exactly one along a PPID edge. */
  lemma DepthFallsByOne(byPid: map<Pid, Observed>, leader: Pid, pid: Pid, k: nat, above: nat)
    requires pid != leader && pid in byPid
    requires DepthIs(byPid, leader, pid, k) && DepthIs(byPid, leader, byPid[pid].ppid, above)
    ensures k == above + 1
  {
    ClimbFromParent(byPid, leader, pid, above);
    DepthIsUnique(byPid, leader, pid, k, above + 1);
  }

  lemma {:induction false} ClimbRepeats(byPid: map<Pid, Observed>, leader: Pid, pid: Pid, i: nat, j: nat, k: nat)
    requires i <= j <= k && Ancestor(byPid, leader, pid, i) == Ancestor(byPid, leader, pid, j)
    ensures Ancestor(byPid, leader, pid, k) == Ancestor(byPid, leader, pid, k - (j - i))
    decreases k
  {
    if j < k {
      ClimbRepeats(byPid, leader, pid, i, j, k - 1);
      assert Ancestor(byPid, leader, pid, k - 1) == Ancestor(byPid, leader, pid, k - 1 - (j - i));
    }
  }

  /** A climb that comes back to where it has been never reaches the leader. */
  lemma CycleIsDisconnected(byPid: map<Pid, Observed>, leader: Pid, pid: Pid, i: nat, j: nat, q: Pid)
    requires i < j
    requires Ancestor(byPid, leader, pid, i) == Ancestor(byPid, leader, pid, j) == Some(q)
    ensures !Connected(byPid, leader, pid)
  {
    forall k: nat | DepthIs(byPid, leader, pid, k)
      ensures false
    {
      if k < j {
        NoneAbove(byPid, leader, pid, k + 1, j);
      } else {
        ClimbRepeats(byPid, leader, pid, i, j, k);
        DepthIsUnique(byPid, leader, pid, k, k - (j - i));
      }
    }
  }

  lemma DeadEndIsDisconnected(byPid: map<Pid, Observed>, leader: Pid, pid: Pid, j: nat, q: Pid)
    requires Ancestor(byPid, leader, pid, j) == Some(q) && q != leader && q !in byPid
    ensures !Connected(byPid, leader, pid)
  {
    forall k: nat | DepthIs(byPid, leader, pid, k)
      ensures false
    {
      if k < j {
        NoneAbove(byPid, leader, pid, k + 1, j);
      } else if j < k {
        NoneAbove(byPid, leader, pid, j + 1, k);
      }
    }
  }

  lemma {:induction false} ByPidHolds(members: seq<Observed>)
    ensures forall i :: 0 <= i < |members| ==> members[i].pid in ByPid(members)
    ensures forall p :: p in ByPid(members) ==> ByPid(members)[p].pid == p && ByPid(members)[p] in members
  {
    if members == [] {
    } else {
      var init := members[..|members| - 1];
      ByPidHolds(init);
      forall i | 0 <= i < |members| ensures members[i].pid in ByPid(members) {
        if i < |init| {
          assert init[i].pid in ByPid(init);
        }
      }
    }
  }

  /** With distinct pids the dictionary finds each entry under its own pid. */
  lemma ByPidFinds(members: seq<Observed>, i: nat)
    requires i < |members|
    requires forall a, b :: 0 <= a < b < |members| ==> members[a].pid != members[b].pid
    ensures members[i].pid in ByPid(members) && ByPid(members)[members[i].pid] == members[i]
  {
    ByPidHolds(members);
    var found := ByPid(members)[members[i].pid];
    var j :| 0 <= j < |members| && members[j] == found;
  }

  /** What the annotation makes of one entry. */
  ghost predicate Annotates(members: seq<Observed>, leader: Pid, before: Observed, after: Observed) {
    var byPid := ByPid(members);
    && Bare(after) == Bare(before)
    && (after.topologyError <==> after.depth.None?)
    && if Duplicated(members, before.pid) then after.depth.None?
       else match after.depth
         case Some(k) => DepthIs(byPid, leader, before.pid, k)
         case None => !Connected(byPid, leader, before.pid)
  }

  /** The climb of one pid to the leader: its depth, or none when the ancestry does not resolve. */
  method Climb(byPid: map<Pid, Observed>, leader: Pid, pid: Pid) returns (depth: Option<nat>)
    requires pid in byPid && pid != leader
    ensures depth.Some? ==> DepthIs(byPid, leader, pid, depth.value)
    ensures depth.None? ==> !Connected(byPid, leader, pid)
  {
    depth := None;
    var ancestry := [pid];
    var visited: set<Pid> := {};
    var cursor := pid;
    while cursor != leader
      invariant cursor in byPid && cursor != leader
      invariant |ancestry| > 0
      invariant Ancestor(byPid, leader, pid, |ancestry| - 1) == Some(cursor)
      invariant visited <= byPid.Keys
      invariant forall v :: v in visited ==>
                  exists j :: 0 <= j < |ancestry| - 1 && Ancestor(byPid, leader, pid, j) == Some(v)
      decreases byPid.Keys - visited
    {
      if cursor in visited {
        ghost var j :| 0 <= j < |ancestry| - 1 && Ancestor(byPid, leader, pid, j) == Some(cursor);
        CycleIsDisconnected(byPid, leader, pid, j, |ancestry| - 1, cursor);
        return None;
      }
      visited := visited + {cursor};
      var parent := byPid[cursor].ppid;
      ghost var height := |ancestry| - 1;
      ancestry := ancestry + [parent];
      assert Ancestor(byPid, leader, pid, height) == Some(cursor);
      assert Ancestor(byPid, leader, pid, |ancestry| - 1) == Some(parent);
      if parent == leader {
        return Some(|ancestry| - 1);
      }
      if parent !in byPid {
        DeadEndIsDisconnected(byPid, leader, pid, |ancestry| - 1, parent);
        return None;
      }
      cursor := parent;
    }
    assert false;
  }

  /** Which annotated entries make the inventory unusable: a duplicated pid, or a live entry without a depth. */
  ghost predicate IsInvalid(members: seq<Observed>, after: Observed) {
    Duplicated(members, after.pid) || (after.topologyError && after.state != Zombie)
  }

  /**
   `annotate_owned_process_group_depths`, without detached servers: every entry gets its exact depth
   or a topology error, and `invalid` lists exactly the entries that stand in the way of a signal.
   */
  method AnnotateDepths(members: seq<Observed>, leader: Pid)
    returns (annotated: seq<Observed>, invalid: seq<Observed>)
    ensures |annotated| == |members|
    ensures forall i :: 0 <= i < |members| ==> Annotates(members, leader, members[i], annotated[i])
    ensures forall o :: o in invalid <==> o in annotated && IsInvalid(members, o)
  {
    var byPid: map<Pid, Observed> := map[];
    var duplicates: set<Pid> := {};
    for i := 0 to |members|
      invariant byPid == ByPid(members[..i])
      invariant forall p :: p in byPid <==> Listed(members, i, p)
      invariant forall p :: p in duplicates <==> Duplicated(members[..i], p)
    {
      var pid := members[i].pid;
      assert members[..i + 1][..i] == members[..i];
      forall p
        ensures Duplicated(members[..i + 1], p) <==>
                  Duplicated(members[..i], p) || (p == pid && Listed(members, i, p))
      {
        DuplicatedGrows(members, i, p);
      }
      if pid in byPid {
        duplicates := duplicates + {pid};
      }
      byPid := byPid[pid := members[i]];
    }
    assert members[..|members|] == members;
    annotated, invalid := [], [];
    for i := 0 to |members|
      invariant |annotated| == i
      invariant forall j :: 0 <= j < i ==> Annotates(members, leader, members[j], annotated[j])
      invariant forall o :: o in invalid <==> o in annotated && IsInvalid(members, o)
    {
      var member := members[i];
      var after: Observed;
      if member.pid in duplicates {
        after := member.(depth := None, topologyError := true);
        invalid := invalid + [after];
      } else if member.pid == leader {
        assert DepthIs(byPid, leader, leader, 0);
        after := member.(depth := Some(0), topologyError := false);
      } else {
        var depth := Climb(byPid, leader, member.pid);
        after := member.(depth := depth, topologyError := depth.None?);
        if depth.None? && member.state != Zombie {
          invalid := invalid + [after];
        }
      }
      annotated := annotated + [after];
    }
  }

  lemma DuplicatedGrows(members: seq<Observed>, i: nat, p: Pid)
    requires i < |members|
    ensures Duplicated(members[..i + 1], p) <==>
              Duplicated(members[..i], p) || (p == members[i].pid && Listed(members, i, p))
  {
    var small, large := members[..i], members[..i + 1];
    if Duplicated(large, p) {
      var a, b :| 0 <= a < b < |large| && large[a].pid == p && large[b].pid == p;
      if b < i {
        assert small[a].pid == p && small[b].pid == p;
      } else {
        assert members[a].pid == p;
      }
    }
    if Duplicated(small, p) {
      var a, b :| 0 <= a < b < |small| && small[a].pid == p && small[b].pid == p;
      assert large[a].pid == p && large[b].pid == p;
    }
    if p == members[i].pid && Listed(members, i, p) {
      var j :| 0 <= j < i && members[j].pid == p;
      assert large[j].pid == p && large[i].pid == p;
    }
  }
}
