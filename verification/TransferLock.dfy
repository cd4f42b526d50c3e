/**
 `RunTransferLock` (`src/run_triage_cli.rs`): acquiring, adopting and dropping a guard, one system call
 at a time, while every other process and thread takes steps of its own between any two calls.
 */
module TransferLock {
  import opened Results
  import opened LockKernel

  datatype LockError =
    | NoDirectory
    | CannotOpen
    | Owned
    | NotPrivateDescriptor
    | CannotInspect
    | CannotMakePrivate
    | CannotStat
    | CannotInspectFile
    | CannotCanonicalize
    | NotTheCanonicalFile
    | NotOwned

  /** An event that would act on our own descriptor number. */
  predicate Touches(e: Event, mine: Slot) {
    match e
    case Fork(parent, child) => child == mine.pid
    case Exec(pid) => pid == mine.pid
    case Exit(pid) => pid == mine.pid
    case Replace(now, canonical) => false
    case _ => e.slot == mine
  }

  /** What others can and cannot do to a descriptor number that is ours alone. */
  ghost predicate Undisturbed(k: Kernel, k': Kernel, mine: Slot) {
    && (mine in k'.table <==> mine in k.table)
    && (mine in k.table ==> k'.table[mine] == k.table[mine])
    && (mine in k.table && k.table[mine].file in k.locked ==> k.table[mine].file in k'.locked)
    && mine.pid !in k'.forked
    && k.inodes <= k'.inodes
    && (k.replaced ==> k'.replaced)
    && (!k'.replaced && k.path.Some? ==> k'.path == k.path)
    && (!k'.replaced ==> k'.plain == k.plain)
  }

  lemma OthersLeaveMine(k: Kernel, e: Event, mine: Slot)
    requires Inv(k) && Enabled(k, e) && !Touches(e, mine) && mine.pid !in k.forked
    ensures Inv(Apply(k, e)) && Undisturbed(k, Apply(k, e), mine)
  {
    StepKeeps(k, e);
    if mine in k.table && k.table[mine].file in k.locked {
      DescriptorOutlives(k, e, mine);
      LockEndsWithTheLastDescriptor(k, e, k.table[mine].file);
    }
  }

  class Host {
    var k: Kernel
    /** A call failed for a reason of its own: no memory, an interrupted call, a full table. */
    ghost var faulty: bool

    ghost predicate Valid()
      reads this
    {
      Inv(k)
    }

    constructor ()
      ensures Valid() && k.table == map[] && !faulty
    {
      k, faulty := Kernel(map[], [], {}, {}, None, true, false), false;
    }

    /** Anyone else, in this process or another, does anything the kernel allows. */
    method Interfere(mine: Slot)
      requires Valid() && mine.pid !in k.forked
      modifies this`k
      ensures Valid() && Undisturbed(old(k), k, mine)
    {
      var steps: nat :| true;
      while steps > 0
        invariant Valid() && Undisturbed(old(k), k, mine)
      {
        steps := steps - 1;
        var e: Event := *;
        if Enabled(k, e) && !Touches(e, mine) {
          OthersLeaveMine(k, e, mine);
          k := Apply(k, e);
        }
      }
    }

    /** A call of ours: others first, then possibly a fault. */
    method Call(mine: Slot) returns (fails: bool)
      requires Valid() && mine.pid !in k.forked
      modifies this
      ensures Valid() && Undisturbed(old(k), k, mine)
      ensures faulty == (old(faulty) || fails)
    {
      Interfere(mine);
      fails := *;
      faulty := faulty || fails;
    }

    method Take(e: Event)
      requires Valid() && Enabled(k, e)
      modifies this`k
      ensures Valid() && k == Apply(old(k), e)
    {
      StepKeeps(k, e);
      k := Apply(k, e);
    }

    /** `open` with creation and close-on-exec in one call. */
    method OpenLockFile(mine: Slot) returns (ok: bool)
      requires Valid() && mine.pid !in k.forked && mine !in k.table
      modifies this
      ensures Valid() && mine.pid !in k.forked
      ensures ok ==> Has(k, mine, Opening)
      ensures !ok ==> mine !in k.table && faulty
      ensures old(faulty) ==> faulty
      ensures ok ==> faulty == old(faulty)
    {
      var fails := Call(mine);
      if fails {
        return false;
      }
      var ino: nat :| ino !in k.inodes by {
        UnusedInode(k.inodes);
      }
      Take(Open(mine, ino));
      return true;
    }

    /** `flock`, refused when another description holds the lock; `at` is the moment it was decided. */
    method TryLock(mine: Slot) returns (ok: bool, ghost at: Kernel)
      requires Valid() && Has(k, mine, Opening) && mine.pid !in k.forked
      modifies this
      ensures Valid() && mine.pid !in k.forked && (old(faulty) ==> faulty)
      ensures Inv(at) && mine in at.table && at.table[mine] == old(k).table[mine]
      ensures ok ==> Has(k, mine, Guard) && !Contested(at, at.table[mine].file) && k == Apply(at, Lock(mine))
      ensures at.table[mine].file in old(k).locked ==> at.table[mine].file in at.locked
      ensures !at.replaced ==> !old(k).replaced && at.plain == old(k).plain
      ensures !ok ==> Has(k, mine, Opening) && k == at && (faulty || Contested(at, at.table[mine].file))
      ensures ok ==> faulty == old(faulty)
    {
      var fails := Call(mine);
      at := k;
      ok := !fails && !Contested(k, k.table[mine].file);
      if ok {
        Take(Lock(mine));
      }
    }

    /** The drop of a `File`: others may act first, then the descriptor is closed. */
    method CloseFile(mine: Slot) returns (ghost before: Kernel)
      requires Valid() && mine in k.table && mine.pid !in k.forked
      modifies this`k
      ensures Valid() && Inv(before) && mine in before.table && before.table[mine] == old(k).table[mine]
      ensures k == Apply(before, Close(mine)) && mine !in k.table
      ensures k.path == before.path && k.plain == before.plain && k.replaced == before.replaced
      ensures Undisturbed(old(k), before, mine)
    {
      Interfere(mine);
      before := k;
      Take(Close(mine));
    }

    /** `F_GETFD` and then `F_SETFD`: fail on a number that names no descriptor. */
    method MarkPrivate(mine: Slot) returns (error: Option<LockError>)
      requires Valid() && mine.pid !in k.forked && (mine in k.table ==> Has(k, mine, Handed))
      modifies this
      ensures Valid() && mine.pid !in k.forked && (old(faulty) ==> faulty)
      ensures (mine in k.table) == (mine in old(k).table)
      ensures mine in k.table ==> Has(k, mine, Handed) && k.table[mine].file == old(k).table[mine].file
      ensures error.None? ==> mine in k.table && k.table[mine].closeOnExec
      ensures error.Some? ==> error.value in {CannotInspect, CannotMakePrivate} && (faulty || mine !in k.table)
      ensures mine in k.table && k.table[mine].file in old(k).locked ==> k.table[mine].file in k.locked
      ensures error.None? ==> faulty == old(faulty)
    {
      var fails := Call(mine);
      if fails || mine !in k.table {
        return Some(CannotInspect);
      }
      fails := Call(mine);
      if fails {
        return Some(CannotMakePrivate);
      }
      Take(MakePrivate(mine));
      return None;
    }

    /** `symlink_metadata`, the descriptor's own metadata, and `canonicalize`, each at its own time. */
    method BindsCanonicalFile(mine: Slot) returns (error: Option<LockError>)
      requires Valid() && mine.pid !in k.forked && Has(k, mine, Adopted)
      modifies this
      ensures Valid() && mine.pid !in k.forked && Has(k, mine, Adopted) && (old(faulty) ==> faulty)
      ensures k.table[mine] == old(k).table[mine]
      ensures error.None? ==> k.replaced || (k.plain && k.path == Some(k.inodes[k.table[mine].file]))
      ensures error.Some? ==> error.value in {CannotStat, CannotInspectFile, CannotCanonicalize, NotTheCanonicalFile}
      ensures error.Some? ==> faulty || k.replaced || !k.plain || k.path != Some(k.inodes[k.table[mine].file])
      ensures k.table[mine].file in old(k).locked ==> k.table[mine].file in k.locked
      ensures error.None? ==> faulty == old(faulty)
    {
      var fails := Call(mine);
      if fails || k.path.None? {
        return Some(CannotStat);
      }
      var regular, pathInode := k.plain, k.path.value;
      fails := Call(mine);
      if fails {
        return Some(CannotInspectFile);
      }
      var fileInode := k.inodes[k.table[mine].file];
      fails := Call(mine);
      if fails || k.path.None? {
        return Some(CannotCanonicalize);
      }
      if !regular || !k.plain || pathInode != fileInode {
        return Some(NotTheCanonicalFile);
      }
      return None;
    }
  }

  lemma UnusedInode(inodes: seq<nat>)
    ensures exists ino: nat :: ino !in inodes
  {
    var top := Above(inodes);
    assert top !in inodes;
  }

  function Above(inodes: seq<nat>): (top: nat)
    ensures forall ino :: ino in inodes ==> ino < top
  {
    if inodes == [] then 0
    else
      assert forall ino :: ino in inodes ==> ino == inodes[0] || ino in inodes[1..];
      var rest := Above(inodes[1..]);
      if inodes[0] < rest then rest else inodes[0] + 1
  }

  /** `flock` and, if it is refused, the drop of the file; `at` is the moment it was decided. */
  method LockOrClose(h: Host, mine: Slot, refusal: LockError) returns (r: Result<Slot, LockError>, ghost at: Kernel)
    requires h.Valid() && Has(h.k, mine, Opening) && mine.pid !in h.k.forked
    modifies h
    ensures h.Valid() && (old(h.faulty) ==> h.faulty)
    ensures Inv(at) && mine in at.table && at.table[mine] == old(h.k).table[mine]
    ensures at.table[mine].file in old(h.k).locked ==> at.table[mine].file in at.locked
    ensures !at.replaced ==> !old(h.k).replaced && at.plain == old(h.k).plain
    ensures r.Ok? ==> r.value == mine && h.k == Apply(at, Lock(mine)) && Has(h.k, mine, Guard)
                      && h.k.table[mine].file == at.table[mine].file
    ensures r.Err? ==> r.error == refusal && mine !in h.k.table
    ensures r.Err? && !h.faulty ==> Contested(at, at.table[mine].file)
    ensures r.Ok? ==> h.faulty == old(h.faulty)
  {
    var ok;
    ok, at := h.TryLock(mine);
    if !ok {
      ghost var before := h.CloseFile(mine);
      return Err(refusal), at;
    }
    return Ok(mine), at;
  }

  /**
   `acquire`. A guard holds the lock of the file it opened. A refusal leaves no descriptor behind, and
   without a fault it means another description held the lock at that very moment.
   */
  method Acquire(h: Host, mine: Slot) returns (r: Result<Slot, LockError>, ghost at: Kernel)
    requires h.Valid() && mine.pid !in h.k.forked && mine !in h.k.table
    modifies h
    ensures h.Valid()
    ensures r.Ok? ==> r.value == mine && Has(h.k, mine, Guard) && h.k.table[mine].closeOnExec
    ensures r.Ok? ==> h.k.table[mine].file in h.k.locked
    ensures r.Ok? && !h.k.replaced ==> h.k.path == Some(h.k.inodes[h.k.table[mine].file])
    ensures r.Err? ==> mine !in h.k.table
    ensures r.Err? && !h.faulty ==> r.error == Owned
    ensures r == Err(Owned) ==> Inv(at) && Has(at, mine, Opening)
    ensures r == Err(Owned) && !h.faulty ==> Contested(at, at.table[mine].file)
    ensures r.Ok? ==> h.faulty == old(h.faulty)
  {
    at := h.k;
    var fails := h.Call(mine);
    if fails {
      return Err(NoDirectory), at;
    }
    var there := h.OpenLockFile(mine);
    if !there {
      return Err(CannotOpen), at;
    }
    r, at := LockOrClose(h, mine, Owned);
  }

  /** The lock path is not, or no longer, the canonical name of the file a description is open on. */
  ghost predicate AwayFromPath(k: Kernel, file: nat) {
    k.replaced || !k.plain || (file < |k.inodes| && k.path != Some(k.inodes[file]))
  }

  /** The adopted descriptor turns out to be the canonical file, or is closed. */
  method BindOrClose(h: Host, mine: Slot) returns (error: Option<LockError>, ghost at: Kernel)
    requires h.Valid() && mine.pid !in h.k.forked && Has(h.k, mine, Handed) && h.k.table[mine].closeOnExec
    modifies h
    ensures h.Valid() && (old(h.faulty) ==> h.faulty)
    ensures Inv(at) && mine in at.table && at.table[mine].file == old(h.k).table[mine].file
    ensures error.None? ==>
              && Has(h.k, mine, Opening) && mine.pid !in h.k.forked && (h.k.replaced || h.k.plain)
              && h.k.table[mine].file == old(h.k).table[mine].file
              && (h.k.table[mine].file in old(h.k).locked ==> h.k.table[mine].file in h.k.locked)
    ensures error.Some? ==> mine !in h.k.table
    ensures error.Some? ==> error.value in {CannotStat, CannotInspectFile, CannotCanonicalize, NotTheCanonicalFile}
    ensures error.Some? && !h.faulty ==> AwayFromPath(at, at.table[mine].file)
    ensures error.None? ==> h.faulty == old(h.faulty)
  {
    h.Take(Adopt(mine));
    error := h.BindsCanonicalFile(mine);
    at := h.k;
    if error.Some? {
      ghost var before := h.CloseFile(mine);
    } else {
      h.Take(Verify(mine));
    }
  }

  /** From `from_raw_fd` on: whatever is refused now, the descriptor is closed. */
  method AdoptDescriptor(h: Host, mine: Slot) returns (r: Result<Slot, LockError>, ghost at: Kernel)
    requires h.Valid() && mine.pid !in h.k.forked && Has(h.k, mine, Handed) && h.k.table[mine].closeOnExec
    modifies h
    ensures h.Valid() && (old(h.faulty) ==> h.faulty)
    ensures Inv(at) && mine in at.table && at.table[mine].file == old(h.k).table[mine].file
    ensures r.Ok? ==> r.value == mine && Has(h.k, mine, Guard)
                      && h.k.table[mine].file == old(h.k).table[mine].file
                      && (!h.k.replaced ==> h.k.plain)
    ensures r.Err? ==> mine !in h.k.table
    ensures r.Err? ==> r.error in {CannotStat, CannotInspectFile, CannotCanonicalize, NotTheCanonicalFile, NotOwned}
    ensures r == Err(NotOwned) ==> at.table[mine].role == Opening
    ensures r == Err(NotOwned) && !h.faulty ==>
              Contested(at, at.table[mine].file) && at.table[mine].file !in old(h.k).locked
    ensures r.Err? && r.error != NotOwned && !h.faulty ==> AwayFromPath(at, at.table[mine].file)
    ensures r.Ok? ==> h.faulty == old(h.faulty)
  {
    var error;
    error, at := BindOrClose(h, mine);
    if error.Some? {
      return Err(error.value), at;
    }
    r, at := LockOrClose(h, mine, NotOwned);
  }

  /**
   `acquire_inherited`. A guard is the received description itself, now private and holding the lock;
   the file it locks is the one at the lock path. Low numbers and numbers that name nothing are
   refused without closing anything; once adopted, the descriptor goes with any refusal. A description
   that holds the lock is never refused for want of it, even if its giver is gone by then.
   */
  method AcquireInherited(h: Host, mine: Slot) returns (r: Result<Slot, LockError>, ghost at: Kernel)
    requires h.Valid() && mine.pid !in h.k.forked && (mine in h.k.table ==> Has(h.k, mine, Handed))
    modifies h
    ensures h.Valid()
    ensures mine.fd < 3 ==> h.k == old(h.k)
    ensures r == Err(NotPrivateDescriptor) <==> mine.fd < 3
    ensures r.Ok? ==> mine in old(h.k).table && r.value == mine && Has(h.k, mine, Guard)
    ensures r.Ok? ==> h.k.table[mine] == Entry(old(h.k).table[mine].file, true, Guard)
    ensures r.Ok? ==> h.k.table[mine].file in h.k.locked
    ensures r.Ok? && !h.k.replaced ==> h.k.plain && h.k.path == Some(h.k.inodes[h.k.table[mine].file])
    ensures r.Err? && r.error !in {NotPrivateDescriptor, CannotInspect, CannotMakePrivate} ==> mine !in h.k.table
    ensures r == Err(NotOwned) && !h.faulty ==>
              && Has(at, mine, Opening) && mine in old(h.k).table
              && at.table[mine].file == old(h.k).table[mine].file
              && Inv(at) && Contested(at, at.table[mine].file)
              && at.table[mine].file !in old(h.k).locked
    ensures r.Err? && r.error !in {NotPrivateDescriptor, NotOwned} && !h.faulty ==>
              mine !in old(h.k).table || AwayFromPath(at, old(h.k).table[mine].file)
    ensures r.Ok? ==> h.faulty == old(h.faulty)
  {
    at := h.k;
    if mine.fd < 3 {
      return Err(NotPrivateDescriptor), at;
    }
    var error := h.MarkPrivate(mine);
    if error.Some? {
      return Err(error.value), at;
    }
    r, at := AdoptDescriptor(h, mine);
  }

  /** Dropping a guard releases the lock exactly when no other descriptor refers to its description. */
  method DropGuard(h: Host, mine: Slot) returns (ghost before: Kernel)
    requires h.Valid() && Has(h.k, mine, Guard) && mine.pid !in h.k.forked
    modifies h`k
    ensures h.Valid() && mine !in h.k.table
    ensures Inv(before) && Has(before, mine, Guard) && before.table[mine] == old(h.k).table[mine]
    ensures h.k.table == before.table - {mine}
    ensures forall f :: f in h.k.locked <==> f in before.locked && Referenced(h.k.table, f)
    ensures (before.table[mine].file in h.k.locked)
            <==> exists s :: s in before.table && s != mine && before.table[s].file == before.table[mine].file
  {
    before := h.CloseFile(mine);
    forall f | f in before.locked ensures f in h.k.locked <==> Referenced(h.k.table, f) {
      LockEndsWithTheLastDescriptor(before, Close(mine), f);
    }
  }
}
