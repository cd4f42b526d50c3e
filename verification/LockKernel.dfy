/**
 `flock` over open file descriptions, as the run transfer lock uses it (`src/run_triage_cli.rs`):
 descriptor tables of several processes, descriptors copied by fork, dropped by exec unless handed on
 on purpose, and one lock per inode that belongs to a description rather than to a process.
 */
module LockKernel {
  import opened Results

  /**
   What a descriptor stands for: a live guard; a guard under construction, before or after its
   file was checked against the lock path; one received through exec; or a copy in a process
   that has forked and not yet called exec.
   */
  datatype Role = Guard | Opening | Adopted | Handed | Copy

  datatype Slot = Slot(pid: nat, fd: int)

  datatype Entry = Entry(file: nat, closeOnExec: bool, role: Role)

  /**
   `inodes` maps each open file description ever made to the inode it is open on. `path` is the
   inode at the lock path, if any; `plain` says the path is canonical and names a regular file;
   `replaced` records that something put another file at a lock path already in use.
   */
  datatype Kernel = Kernel(
    table: map<Slot, Entry>, inodes: seq<nat>, locked: set<nat>, forked: set<nat>,
    path: Option<nat>, plain: bool, replaced: bool)

  datatype Event =
    | Open(slot: Slot, ino: nat)
    | Verify(slot: Slot)
    | Lock(slot: Slot)
    | Close(slot: Slot)
    | MakePrivate(slot: Slot)
    | Adopt(slot: Slot)
    | Fork(parent: nat, child: nat)
    | Pass(slot: Slot)
    | Exec(pid: nat)
    | Exit(pid: nat)
    | StrangerOpen(slot: Slot, ino: nat)
    | StrangerLock(slot: Slot)
    | Replace(now: Option<nat>, canonical: bool)

  predicate Has(k: Kernel, s: Slot, role: Role) {
    s in k.table && k.table[s].role == role
  }

  predicate Referenced(table: map<Slot, Entry>, file: nat) {
    exists s :: s in table && table[s].file == file
  }

  predicate ProcessFree(k: Kernel, pid: nat) {
    pid !in k.forked && forall s :: s in k.table ==> s.pid != pid
  }

  ghost predicate FilesKnown(k: Kernel) {
    && (forall s :: s in k.table ==> k.table[s].file < |k.inodes|)
    && (forall f :: f in k.locked ==> f < |k.inodes|)
  }

  /** Another description holds the lock on this description's inode: `flock` fails. */
  predicate Contested(k: Kernel, file: nat)
    requires file < |k.inodes|
  {
    exists g :: g in k.locked && g < |k.inodes| && g != file && k.inodes[g] == k.inodes[file]
  }

  /** `flock(LOCK_EX | LOCK_NB)`. */
  function Flock(k: Kernel, s: Slot): Kernel
    requires s in k.table && k.table[s].file < |k.inodes|
  {
    var e := k.table[s];
    if Contested(k, e.file) then k
    else k.(locked := k.locked + {e.file},
            table := if e.role == Opening then k.table[s := e.(role := Guard)] else k.table)
  }

  /** The kernel drops a description, and its lock with it, when its last descriptor goes. */
  function Settle(k: Kernel, table: map<Slot, Entry>): Kernel {
    k.(table := table, locked := set f | f in k.locked && Referenced(table, f))
  }

  /** Opening the path makes the file if there is none, and always a new description. */
  function OpenPath(k: Kernel, s: Slot, ino: nat, closeOnExec: bool, role: Role): Kernel {
    var found := if k.path.Some? then k.path.value else ino;
    k.(table := k.table[s := Entry(|k.inodes|, closeOnExec, role)],
       inodes := k.inodes + [found],
       path := Some(found))
  }

  predicate Enabled(k: Kernel, e: Event)
    requires FilesKnown(k)
  {
    match e
    case Open(s, ino) => s !in k.table && s.pid !in k.forked && (k.path.None? ==> ino !in k.inodes)
    case StrangerOpen(s, ino) => s !in k.table && s.pid !in k.forked && (k.path.None? ==> ino !in k.inodes)
    case Verify(s) => Has(k, s, Adopted) && (k.replaced || k.path == Some(k.inodes[k.table[s].file]))
    case Lock(s) => Has(k, s, Opening)
    case StrangerLock(s) => Has(k, s, Handed)
    case Close(s) => s in k.table
    case MakePrivate(s) => Has(k, s, Handed)
    case Adopt(s) => Has(k, s, Handed) && k.table[s].closeOnExec
    case Fork(parent, child) => parent != child && ProcessFree(k, child)
    case Pass(s) => Has(k, s, Copy)
    case Exec(pid) => pid in k.forked
    case Exit(pid) => true
    case Replace(now, canonical) => true
  }

  function Copies(k: Kernel, parent: nat, child: nat): (r: map<Slot, Entry>) {
    map s | s in (set t | t in k.table && t.pid == parent :: Slot(child, t.fd))
      :: k.table[Slot(parent, s.fd)].(role := Copy)
  }

  function AfterExec(k: Kernel, pid: nat): map<Slot, Entry> {
    map s | s in k.table && (s.pid == pid ==> !k.table[s].closeOnExec)
      :: if s.pid == pid then k.table[s].(role := Handed) else k.table[s]
  }

  function AfterExit(k: Kernel, pid: nat): map<Slot, Entry> {
    map s | s in k.table && s.pid != pid :: k.table[s]
  }

  function WithRole(k: Kernel, s: Slot, role: Role): Kernel
    requires s in k.table
  {
    k.(table := k.table[s := k.table[s].(role := role)])
  }

  function Apply(k: Kernel, e: Event): Kernel
    requires FilesKnown(k) && Enabled(k, e)
  {
    match e
    case Open(s, ino) => OpenPath(k, s, ino, true, Opening)
    case StrangerOpen(s, ino) => OpenPath(k, s, ino, false, Handed)
    case Verify(s) => WithRole(k, s, Opening)
    case Lock(s) => Flock(k, s)
    case StrangerLock(s) => Flock(k, s)
    case Close(s) => Settle(k, k.table - {s})
    case MakePrivate(s) => k.(table := k.table[s := k.table[s].(closeOnExec := true)])
    case Adopt(s) => WithRole(k, s, Adopted)
    case Fork(parent, child) => k.(table := k.table + Copies(k, parent, child), forked := k.forked + {child})
    case Pass(s) => k.(table := k.table[s := k.table[s].(closeOnExec := false)])
    case Exec(pid) => Settle(k, AfterExec(k, pid)).(forked := k.forked - {pid})
    case Exit(pid) => Settle(k, AfterExit(k, pid)).(forked := k.forked - {pid})
    case Replace(now, canonical) => k.(path := now, plain := canonical, replaced := true)
  }

  // ---- what every step keeps ----

  /** At most one description per inode holds the lock, and only while some descriptor refers to it. */
  ghost predicate OneHolder(k: Kernel) {
    && (forall f :: f in k.locked ==> Referenced(k.table, f))
    && (forall f, g :: f in k.locked && g in k.locked && f < |k.inodes| && g < |k.inodes| && k.inodes[f] == k.inodes[g]
                    ==> f == g)
  }

  /** Guards hold the lock; nothing this program opened for itself survives an exec. */
  ghost predicate RolesHold(k: Kernel) {
    forall s :: s in k.table ==>
      var e := k.table[s];
      && (e.role == Guard ==> e.file in k.locked)
      && (e.role in {Guard, Opening, Adopted} ==> e.closeOnExec)
      && (e.role == Copy <==> s.pid in k.forked)
  }

  /** While nobody replaces the file, whatever was checked or opened by path is open on that file. */
  ghost predicate AtPath(k: Kernel) {
    !k.replaced ==> forall s :: Has(k, s, Guard) || Has(k, s, Opening) ==>
                      k.table[s].file < |k.inodes| && k.path == Some(k.inodes[k.table[s].file])
  }

  ghost predicate Inv(k: Kernel) {
    FilesKnown(k) && OneHolder(k) && RolesHold(k) && AtPath(k)
  }

  lemma SameReferences(table: map<Slot, Entry>, table': map<Slot, Entry>)
    requires forall t :: t in table ==> t in table' && table'[t].file == table[t].file
    ensures forall f :: Referenced(table, f) ==> Referenced(table', f)
  {
    forall f | Referenced(table, f) ensures Referenced(table', f) {
      var t :| t in table && table[t].file == f;
      assert t in table' && table'[t].file == f;
    }
  }

  /** A lock that is granted is the only one on its inode. */
  lemma LockedAlone(k: Kernel, file: nat)
    requires FilesKnown(k) && OneHolder(k) && file < |k.inodes| && !Contested(k, file)
    ensures forall f, g :: f in k.locked + {file} && g in k.locked + {file} && k.inodes[f] == k.inodes[g] ==> f == g
  {}

  lemma FlockKeeps(k: Kernel, s: Slot)
    requires Inv(k) && s in k.table && k.table[s].role in {Opening, Handed}
    ensures Inv(Flock(k, s))
  {
    if !Contested(k, k.table[s].file) {
      var k' := Flock(k, s);
      assert forall t :: t in k.table <==> t in k'.table;
      assert forall t :: t in k.table ==> k'.table[t].file == k.table[t].file;
      SameReferences(k.table, k'.table);
      assert Referenced(k'.table, k.table[s].file);
      LockedAlone(k, k.table[s].file);
      assert OneHolder(k');
      assert RolesHold(k');
      forall t | !k'.replaced && (Has(k', t, Guard) || Has(k', t, Opening))
        ensures k'.path == Some(k'.inodes[k'.table[t].file])
      {
        assert Has(k, t, Guard) || Has(k, t, Opening);
      }
    }
  }

  lemma OpenKeeps(k: Kernel, s: Slot, ino: nat, closeOnExec: bool, role: Role)
    requires Inv(k) && s !in k.table && s.pid !in k.forked && (k.path.None? ==> ino !in k.inodes)
    requires (role == Opening && closeOnExec) || role == Handed
    ensures Inv(OpenPath(k, s, ino, closeOnExec, role))
  {
    var k' := OpenPath(k, s, ino, closeOnExec, role);
    SameReferences(k.table, k'.table);
    forall t | !k'.replaced && (Has(k', t, Guard) || Has(k', t, Opening))
      ensures k'.path == Some(k'.inodes[k'.table[t].file])
    {
      assert t == s || Has(k, t, Guard) || Has(k, t, Opening);
    }
  }

  /** A change of one entry's flag or role, to one this program may give it. */
  lemma RelabelKeeps(k: Kernel, s: Slot, e: Entry)
    requires Inv(k) && s in k.table && e.file == k.table[s].file
    requires e.role != Guard && k.table[s].role != Guard && (e.role in {Opening, Adopted} ==> e.closeOnExec)
    requires e.role == Copy <==> k.table[s].role == Copy
    requires e.role == Opening ==> k.replaced || k.path == Some(k.inodes[e.file])
    ensures Inv(k.(table := k.table[s := e]))
  {
    var k' := k.(table := k.table[s := e]);
    SameReferences(k.table, k'.table);
    forall t | !k'.replaced && (Has(k', t, Guard) || Has(k', t, Opening))
      ensures k'.path == Some(k'.inodes[k'.table[t].file])
    {
      assert t == s || Has(k, t, Guard) || Has(k, t, Opening);
    }
  }

  lemma ForkKeeps(k: Kernel, parent: nat, child: nat)
    requires Inv(k) && Enabled(k, Fork(parent, child))
    ensures Inv(Apply(k, Fork(parent, child)))
  {
    var k' := Apply(k, Fork(parent, child));
    SameReferences(k.table, k'.table);
    forall t | !k'.replaced && (Has(k', t, Guard) || Has(k', t, Opening))
      ensures k'.path == Some(k'.inodes[k'.table[t].file])
    {
      assert Has(k, t, Guard) || Has(k, t, Opening);
    }
  }

  /** Exec, exit and close: some descriptors go, some received ones are renamed. */
  lemma RemovalKeeps(k: Kernel, table: map<Slot, Entry>, forked: set<nat>)
    requires Inv(k)
    requires forall s :: s in table ==> s in k.table && table[s].file == k.table[s].file
                                        && (table[s] == k.table[s] || table[s].role == Handed)
    requires forall s :: s in table ==> (table[s].role == Copy <==> s.pid in forked)
    ensures Inv(Settle(k, table).(forked := forked))
  {
    var k' := Settle(k, table).(forked := forked);
    forall t | !k'.replaced && (Has(k', t, Guard) || Has(k', t, Opening))
      ensures k'.path == Some(k'.inodes[k'.table[t].file])
    {
      assert Has(k, t, Guard) || Has(k, t, Opening);
    }
    forall t | t in table && table[t].role == Guard ensures table[t].file in k'.locked {
      assert k.table[t] == table[t];
      assert Referenced(table, table[t].file);
    }
  }

  lemma StepKeeps(k: Kernel, e: Event)
    requires Inv(k) && Enabled(k, e)
    ensures Inv(Apply(k, e))
  {
    match e
    case Open(s, ino) => OpenKeeps(k, s, ino, true, Opening);
    case StrangerOpen(s, ino) => OpenKeeps(k, s, ino, false, Handed);
    case Verify(s) => RelabelKeeps(k, s, k.table[s].(role := Opening));
    case Lock(s) => FlockKeeps(k, s);
    case StrangerLock(s) => FlockKeeps(k, s);
    case Close(s) => RemovalKeeps(k, k.table - {s}, k.forked);
    case MakePrivate(s) => RelabelKeeps(k, s, k.table[s].(closeOnExec := true));
    case Adopt(s) => RelabelKeeps(k, s, k.table[s].(role := Adopted));
    case Fork(parent, child) => ForkKeeps(k, parent, child);
    case Pass(s) => RelabelKeeps(k, s, k.table[s].(closeOnExec := false));
    case Exec(pid) => RemovalKeeps(k, AfterExec(k, pid), k.forked - {pid});
    case Exit(pid) => RemovalKeeps(k, AfterExit(k, pid), k.forked - {pid});
    case Replace(now, canonical) =>
  }

  // ---- whole runs ----

  ghost predicate Runs(k: Kernel, events: seq<Event>)
    requires FilesKnown(k)
    decreases |events|
  {
    events == [] || (Enabled(k, events[0]) && FilesKnown(Apply(k, events[0])) && Runs(Apply(k, events[0]), events[1..]))
  }

  ghost function After(k: Kernel, events: seq<Event>): Kernel
    requires FilesKnown(k) && Runs(k, events)
    decreases |events|
  {
    if events == [] then k else After(Apply(k, events[0]), events[1..])
  }

  predicate Initial(k: Kernel) {
    k.table == map[] && k.inodes == [] && k.locked == {} && k.forked == {} && !k.replaced
  }

  lemma {:induction false} RunKeeps(k: Kernel, events: seq<Event>)
    requires Inv(k) && Runs(k, events)
    ensures Inv(After(k, events))
    decreases |events|
  {
    if events == [] {
    } else {
      StepKeeps(k, events[0]);
      RunKeeps(Apply(k, events[0]), events[1..]);
    }
  }

  lemma {:induction false} ReplacedOnlyByReplace(k: Kernel, events: seq<Event>)
    requires FilesKnown(k) && Runs(k, events) && !k.replaced && forall e :: e in events ==> !e.Replace?
    ensures !After(k, events).replaced
    decreases |events|
  {
    if events == [] {
    } else {
      ReplacedOnlyByReplace(Apply(k, events[0]), events[1..]);
    }
  }

  /**
   Whatever processes open, fork, hand on, lock, close and exit, in any order: two live guards over
   one file are guards over one description, and if nobody replaces the lock file that is all guards.
   */
  lemma LiveGuardsShareOneDescription(k: Kernel, events: seq<Event>, s: Slot, t: Slot)
    requires Initial(k) && Runs(k, events)
    requires Has(After(k, events), s, Guard) && Has(After(k, events), t, Guard)
    ensures var now := After(k, events);
            && Inv(now)
            && (now.inodes[now.table[s].file] == now.inodes[now.table[t].file]
                <==> now.table[s].file == now.table[t].file)
            && ((forall e :: e in events ==> !e.Replace?) ==> now.table[s].file == now.table[t].file)
  {
    RunKeeps(k, events);
    if forall e :: e in events ==> !e.Replace? {
      ReplacedOnlyByReplace(k, events);
    }
  }

  lemma GuardOutlives(k: Kernel, e: Event, s: Slot)
    requires Inv(k) && Enabled(k, e) && Has(k, s, Guard) && e != Close(s) && e != Exit(s.pid)
    ensures s in Apply(k, e).table && Apply(k, e).table[s] == k.table[s]
  {
    assert s.pid !in k.forked;
  }

  /** Nothing but the guard's own release ends it: not a fork, not an exec, not another guard's close. */
  lemma {:induction false} GuardLasts(k: Kernel, events: seq<Event>, s: Slot)
    requires Inv(k) && Runs(k, events) && Has(k, s, Guard)
    requires Close(s) !in events && Exit(s.pid) !in events
    ensures var now := After(k, events);
            s in now.table && now.table[s] == k.table[s] && k.table[s].file in now.locked
    decreases |events|
  {
    if events == [] {
    } else {
      StepKeeps(k, events[0]);
      GuardOutlives(k, events[0], s);
      GuardLasts(Apply(k, events[0]), events[1..], s);
    }
  }

  /** A step takes the lock from a description exactly when it takes away its last descriptor. */
  lemma LockEndsWithTheLastDescriptor(k: Kernel, e: Event, file: nat)
    requires Inv(k) && Enabled(k, e) && file in k.locked
    ensures file in Apply(k, e).locked <==> Referenced(Apply(k, e).table, file)
  {
    StepKeeps(k, e);
    if Referenced(Apply(k, e).table, file) && e.Fork? {
      assert file in k.locked;
    }
  }

  // ---- when an acquire succeeds ----

  /** The lock is free exactly when no descriptor refers to a locked description of that file. */
  lemma FreeExactlyWhenUnheld(k: Kernel, s: Slot)
    requires Inv(k) && s in k.table
    ensures Contested(k, k.table[s].file) <==>
              exists t :: t in k.table && k.table[t].file in k.locked && k.table[t].file != k.table[s].file
                          && k.inodes[k.table[t].file] == k.inodes[k.table[s].file]
  {
    if Contested(k, k.table[s].file) {
      var g :| g in k.locked && g < |k.inodes| && g != k.table[s].file && k.inodes[g] == k.inodes[k.table[s].file];
      assert Referenced(k.table, g);
      var t :| t in k.table && k.table[t].file == g;
    }
  }

  // ---- who keeps the lock ----

  /**
   What the program can check before it acts: it forks only while it holds no descriptor that
   survives exec, and hands on only a descriptor whose description holds the lock.
   */
  predicate Disciplined(k: Kernel, e: Event) {
    match e
    case Fork(parent, child) => forall s :: s in k.table && s.pid == parent ==> k.table[s].closeOnExec
    case Pass(s) => s in k.table && k.table[s].file in k.locked
    case _ => true
  }

  ghost predicate RunsDisciplined(k: Kernel, events: seq<Event>)
    requires FilesKnown(k) && Runs(k, events)
    decreases |events|
  {
    events == [] || (Disciplined(k, events[0]) && RunsDisciplined(Apply(k, events[0]), events[1..]))
  }

  /** The descriptors handed on, or opened by strangers, and neither closed nor gone with their process since. */
  function Received(held: set<Slot>, events: seq<Event>): set<Slot>
    decreases |events|
  {
    if events == [] then held else Received(Track(held, events[0]), events[1..])
  }

  function Track(held: set<Slot>, e: Event): set<Slot> {
    match e
    case Pass(s) => held + {s}
    case StrangerOpen(s, _) => held + {s}
    case Close(s) => held - {s}
    case Exit(pid) => set s | s in held && s.pid != pid
    case _ => held
  }

  /** An own descriptor whose lock was not asked for yet: only marked copies of it are around. */
  ghost predicate Untaken(k: Kernel, s: Slot) {
    && s in k.table && k.table[s].file !in k.locked
    && forall t :: t in k.table && t != s && k.table[t].file == k.table[s].file ==>
                     k.table[t].role == Copy && k.table[t].closeOnExec
  }

  /** Whatever survives exec, or came through it, was handed on; what is being opened is not locked. */
  ghost predicate Accounted(k: Kernel, held: set<Slot>) {
    && (forall s :: s in held ==> s in k.table && (k.table[s].role == Copy ==> !k.table[s].closeOnExec))
    && (forall s :: s in k.table && (k.table[s].role in {Handed, Adopted} || !k.table[s].closeOnExec) ==> s in held)
    && (forall s :: Has(k, s, Opening) && s !in held ==> Untaken(k, s))
  }

  lemma OpensAccounted(k: Kernel, held: set<Slot>, e: Event)
    requires Inv(k) && Accounted(k, held) && Enabled(k, e) && (e.Open? || e.StrangerOpen?)
    ensures Accounted(Apply(k, e), Track(held, e))
  {
    var k' := Apply(k, e);
    forall s | Has(k', s, Opening) && s !in Track(held, e) ensures Untaken(k', s) {
      assert s != e.slot ==> Has(k, s, Opening);
    }
  }

  lemma LocksAccounted(k: Kernel, held: set<Slot>, s: Slot)
    requires Inv(k) && Accounted(k, held) && (Has(k, s, Opening) || Has(k, s, Handed))
    ensures Accounted(Flock(k, s), held)
  {
    var k' := Flock(k, s);
    forall t | Has(k', t, Opening) && t !in held ensures Untaken(k', t) {
      assert Has(k, t, Opening);
    }
  }

  /** A relabelled descriptor was received, and so shares no description with one being opened. */
  lemma RelabelAccounted(k: Kernel, held: set<Slot>, s: Slot, e: Entry, held': set<Slot>)
    requires Inv(k) && Accounted(k, held) && s in k.table && e.file == k.table[s].file
    requires held' == held + {s} && (e.role == Copy ==> !e.closeOnExec)
    requires s in held || (k.table[s].role == Copy && k.table[s].file in k.locked && e.role == Copy)
    ensures Accounted(k.(table := k.table[s := e]), held')
  {
    var k' := k.(table := k.table[s := e]);
    forall t | Has(k', t, Opening) && t !in held' ensures Untaken(k', t) {
      assert Has(k, t, Opening);
    }
  }

  lemma ForkAccounted(k: Kernel, held: set<Slot>, parent: nat, child: nat)
    requires Inv(k) && Accounted(k, held) && Enabled(k, Fork(parent, child)) && Disciplined(k, Fork(parent, child))
    ensures Accounted(Apply(k, Fork(parent, child)), held)
  {
    var k' := Apply(k, Fork(parent, child));
    forall t | Has(k', t, Opening) && t !in held ensures Untaken(k', t) {
      assert Has(k, t, Opening);
    }
  }

  /** Exec, exit and close. */
  lemma RemovalAccounted(k: Kernel, held: set<Slot>, k': Kernel, held': set<Slot>)
    requires Inv(k) && Accounted(k, held) && k'.locked <= k.locked && held' <= held
    requires forall s :: s in k'.table ==>
               && s in k.table && k'.table[s].file == k.table[s].file
               && (k'.table[s] == k.table[s] || (k'.table[s].role == Handed && k.table[s].role == Copy && s in held))
    requires forall s :: s in held ==> (s in held' <==> s in k'.table)
    ensures Accounted(k', held')
  {
    forall t | Has(k', t, Opening) && t !in held' ensures Untaken(k', t) {
      assert Has(k, t, Opening);
    }
  }

  lemma StepAccounted(k: Kernel, held: set<Slot>, e: Event)
    requires Inv(k) && Accounted(k, held) && Enabled(k, e) && Disciplined(k, e)
    ensures Accounted(Apply(k, e), Track(held, e))
  {
    match e
    case Open(s, ino) => OpensAccounted(k, held, e);
    case StrangerOpen(s, ino) => OpensAccounted(k, held, e);
    case Verify(s) => RelabelAccounted(k, held, s, k.table[s].(role := Opening), held);
    case Lock(s) => LocksAccounted(k, held, s);
    case StrangerLock(s) => LocksAccounted(k, held, s);
    case MakePrivate(s) => RelabelAccounted(k, held, s, k.table[s].(closeOnExec := true), held);
    case Adopt(s) => RelabelAccounted(k, held, s, k.table[s].(role := Adopted), held);
    case Pass(s) => RelabelAccounted(k, held, s, k.table[s].(closeOnExec := false), held + {s});
    case Fork(parent, child) => ForkAccounted(k, held, parent, child);
    case Close(s) => RemovalAccounted(k, held, Apply(k, e), Track(held, e));
    case Exec(pid) => RemovalAccounted(k, held, Apply(k, e), held);
    case Exit(pid) => RemovalAccounted(k, held, Apply(k, e), Track(held, e));
    case Replace(now, canonical) =>
      assert forall s, role :: Has(Apply(k, e), s, role) == Has(k, s, role);
      assert forall s :: Untaken(Apply(k, e), s) == Untaken(k, s);
  }

  lemma {:induction false} RunAccounted(k: Kernel, held: set<Slot>, events: seq<Event>)
    requires Inv(k) && Accounted(k, held) && Runs(k, events) && RunsDisciplined(k, events)
    ensures Accounted(After(k, events), Received(held, events))
    decreases |events|
  {
    if events == [] {
    } else {
      StepKeeps(k, events[0]);
      StepAccounted(k, held, events[0]);
      RunAccounted(Apply(k, events[0]), Track(held, events[0]), events[1..]);
    }
  }

  /**
   Whatever children were spawned and whatever was handed on, in a disciplined run the lock is held
   exactly by live guards, by received descriptors still open and, for the moment between fork and
   exec, by a child's copy. So once the guards are dropped and the children run their programs, the
   lock is free if and only if no received descriptor refers to a locked description.
   */
  lemma OnlyGuardsKeepTheLock(k: Kernel, events: seq<Event>)
    requires Initial(k) && Runs(k, events) && RunsDisciplined(k, events)
    ensures var now, received := After(k, events), Received({}, events);
            && (forall s :: s in received ==> s in now.table)
            && (forall f :: f in now.locked ==>
                  exists s :: s in now.table && now.table[s].file == f
                              && (now.table[s].role in {Guard, Copy} || s in received))
            && ((forall s :: !Has(now, s, Guard)) && now.forked == {} ==>
                  (now.locked == {} <==> forall s :: s in received ==> now.table[s].file !in now.locked))
  {
    RunKeeps(k, events);
    RunAccounted(k, {}, events);
    var now, received := After(k, events), Received({}, events);
    forall f | f in now.locked
      ensures exists s :: s in now.table && now.table[s].file == f
                          && (now.table[s].role in {Guard, Copy} || s in received)
    {
      assert Referenced(now.table, f);
      var s :| s in now.table && now.table[s].file == f;
      assert Has(now, s, Opening) && s !in received ==> Untaken(now, s);
    }
    if (forall s :: !Has(now, s, Guard)) && now.forked == {} {
      forall f | f in now.locked ensures exists s :: s in received && now.table[s].file in now.locked {
        var s :| s in now.table && now.table[s].file == f
                 && (now.table[s].role in {Guard, Copy} || s in received);
        assert !Has(now, s, Guard);
      }
    }
  }

  /** An event of a system where descriptors are neither handed on nor opened by strangers. */
  predicate Private(e: Event) {
    !e.Pass? && !e.StrangerOpen?
  }

  /** Such a system is disciplined by itself, and has received nothing: only guards and copies keep its lock. */
  lemma {:induction false} PrivateRunsAreDisciplined(k: Kernel, events: seq<Event>)
    requires Inv(k) && Accounted(k, {}) && Runs(k, events) && forall e :: e in events ==> Private(e)
    ensures RunsDisciplined(k, events) && Received({}, events) == {}
    decreases |events|
  {
    if events == [] {
    } else {
      StepKeeps(k, events[0]);
      assert Private(events[0]);
      assert Disciplined(k, events[0]);
      assert Track({}, events[0]) == {};
      StepAccounted(k, {}, events[0]);
      PrivateRunsAreDisciplined(Apply(k, events[0]), events[1..]);
    }
  }

  /** One acquire: open the path, then ask for the lock. */
  ghost predicate Acquires(k: Kernel, s: Slot, ino: nat)
    requires FilesKnown(k) && Enabled(k, Open(s, ino))
  {
    var opening := Apply(k, Open(s, ino));
    FilesKnown(opening) && Enabled(opening, Lock(s)) && Has(Apply(opening, Lock(s)), s, Guard)
  }

  /** An acquire makes a guard exactly when no locked description is open on the file at the path. */
  lemma AcquiresExactlyWhen(k: Kernel, s: Slot, ino: nat)
    requires Inv(k) && Enabled(k, Open(s, ino))
    ensures Acquires(k, s, ino) <==> forall f :: f in k.locked ==> k.path != Some(k.inodes[f])
  {
    StepKeeps(k, Open(s, ino));
    var opening := Apply(k, Open(s, ino));
    assert opening.table[s].file == |k.inodes| && opening.locked == k.locked;
    assert forall f :: f in k.locked ==> f < |k.inodes| && opening.inodes[f] == k.inodes[f];
    assert k.path.None? ==> forall f :: f in k.locked ==> k.inodes[f] in k.inodes;
    if f :| f in k.locked && k.path == Some(k.inodes[f]) {
      assert Contested(opening, opening.table[s].file);
    }
  }

  /**
   In any run at all: with no guard, no call in progress and no child before its exec, the lock is free
   if and only if no descriptor that came through exec refers to a locked description. From there, any
   process that opens the path and asks for the lock becomes a guard, if and only if no such descriptor
   refers to a locked description of the file at the path.
   */
  lemma QuietSystemHasAFreeLock(k: Kernel, events: seq<Event>)
    requires Initial(k) && Runs(k, events)
    ensures var now := After(k, events);
            (forall s :: s in now.table ==> now.table[s].role !in {Guard, Opening, Adopted}) && now.forked == {} ==>
              && FilesKnown(now)
              && (now.locked == {} <==> forall s :: Has(now, s, Handed) ==> now.table[s].file !in now.locked)
              && forall s, ino :: Enabled(now, Open(s, ino)) ==>
                   (Acquires(now, s, ino)
                    <==> forall t :: Has(now, t, Handed) && now.table[t].file in now.locked ==>
                                       now.path != Some(now.inodes[now.table[t].file]))
  {
    RunKeeps(k, events);
    var now := After(k, events);
    if (forall s :: s in now.table ==> now.table[s].role !in {Guard, Opening, Adopted}) && now.forked == {} {
      forall f | f in now.locked ensures exists s :: Has(now, s, Handed) && now.table[s].file == f {
        assert Referenced(now.table, f);
        var s :| s in now.table && now.table[s].file == f;
        assert Has(now, s, Handed);
      }
      forall s, ino | Enabled(now, Open(s, ino))
        ensures Acquires(now, s, ino)
                <==> forall t :: Has(now, t, Handed) && now.table[t].file in now.locked ==>
                                   now.path != Some(now.inodes[now.table[t].file])
      {
        AcquiresExactlyWhen(now, s, ino);
      }
    }
  }

  /**
   The promise of close-on-exec: in a disciplined run, whatever children it spawned, once every guard is
   dropped, every child runs its program and what was received is closed, the next acquire succeeds.
   */
  lemma NextAcquireSucceeds(k: Kernel, events: seq<Event>, s: Slot, ino: nat)
    requires Initial(k) && Runs(k, events) && RunsDisciplined(k, events)
    requires var now := After(k, events);
             && FilesKnown(now) && Enabled(now, Open(s, ino)) && now.forked == {}
             && (forall t :: !Has(now, t, Guard)) && Received({}, events) == {}
    ensures Acquires(After(k, events), s, ino)
  {
    RunKeeps(k, events);
    OnlyGuardsKeepTheLock(k, events);
    AcquiresExactlyWhen(After(k, events), s, ino);
  }

  // ---- the two conditions are needed ----

  /** A child that runs another program keeps exactly the descriptors not marked close-on-exec. */
  lemma ChildKeepsExactlyUnmarkedDescriptors(k: Kernel, parent: nat, child: nat, fd: int)
    requires Inv(k) && Slot(parent, fd) in k.table && Enabled(k, Fork(parent, child))
    ensures var spawned := Apply(k, Fork(parent, child));
            && Inv(spawned) && Enabled(spawned, Exec(child))
            && (Slot(child, fd) in Apply(spawned, Exec(child)).table <==> !k.table[Slot(parent, fd)].closeOnExec)
            && (!k.table[Slot(parent, fd)].closeOnExec ==>
                  Apply(spawned, Exec(child)).table[Slot(child, fd)]
                  == k.table[Slot(parent, fd)].(role := Handed))
  {
    ForkKeeps(k, parent, child);
    var copies := Copies(k, parent, child);
    assert Slot(parent, fd) in k.table && Slot(child, fd) in copies;
    assert copies[Slot(child, fd)] == k.table[Slot(parent, fd)].(role := Copy);
  }

  lemma DescriptorOutlives(k: Kernel, e: Event, s: Slot)
    requires Inv(k) && Enabled(k, e) && s in k.table && s.pid !in k.forked && e != Close(s) && e != Exit(s.pid)
    ensures s in Apply(k, e).table && Apply(k, e).table[s].file == k.table[s].file && s.pid !in Apply(k, e).forked
  {}

  /**
   Hence a child spawned from a receiver that has not yet made its descriptor private keeps the
   lock, whoever drops a guard: until it closes that descriptor or exits, nobody else can acquire.
   */
  lemma {:induction false} StrayDescriptorKeepsTheLock(k: Kernel, events: seq<Event>, s: Slot)
    requires Inv(k) && Runs(k, events) && s in k.table && s.pid !in k.forked && k.table[s].file in k.locked
    requires Close(s) !in events && Exit(s.pid) !in events
    ensures k.table[s].file in After(k, events).locked
    decreases |events|
  {
    if events == [] {
    } else {
      StepKeeps(k, events[0]);
      DescriptorOutlives(k, events[0], s);
      LockEndsWithTheLastDescriptor(k, events[0], k.table[s].file);
      StrayDescriptorKeepsTheLock(Apply(k, events[0]), events[1..], s);
    }
  }

  /** The events lead from `k` to `now`, leave these received descriptors open, and kept the discipline or not. */
  ghost predicate Reaches(k: Kernel, events: seq<Event>, now: Kernel, received: set<Slot>, disciplined: bool) {
    && FilesKnown(k) && Runs(k, events) && After(k, events) == now && FilesKnown(now)
    && Received({}, events) == received && RunsDisciplined(k, events) == disciplined
  }

  lemma {:induction false} OneMoreEvent(k: Kernel, held: set<Slot>, events: seq<Event>, e: Event)
    requires FilesKnown(k) && Runs(k, events) && FilesKnown(After(k, events)) && Enabled(After(k, events), e)
    requires FilesKnown(Apply(After(k, events), e))
    ensures Runs(k, events + [e]) && After(k, events + [e]) == Apply(After(k, events), e)
    ensures RunsDisciplined(k, events + [e]) <==> RunsDisciplined(k, events) && Disciplined(After(k, events), e)
    ensures Received(held, events + [e]) == Track(Received(held, events), e)
    decreases |events|
  {
    if events == [] {
      assert events + [e] == [e] && [e][1..] == [];
    } else {
      assert (events + [e])[1..] == events[1..] + [e];
      OneMoreEvent(Apply(k, events[0]), Track(held, events[0]), events[1..], e);
    }
  }

  lemma ReachesNext(k: Kernel, events: seq<Event>, now: Kernel, received: set<Slot>, disciplined: bool, e: Event)
    requires Reaches(k, events, now, received, disciplined) && Enabled(now, e) && FilesKnown(Apply(now, e))
    ensures Reaches(k, events + [e], Apply(now, e), Track(received, e), disciplined && Disciplined(now, e))
  {
    OneMoreEvent(k, {}, events, e);
  }

  /** A kernel with one description of one file, and what is left of its lock. */
  function Stage(ino: nat, plain: bool, table: map<Slot, Entry>, locked: set<nat>, forked: set<nat>): Kernel {
    Kernel(table, [ino], locked, forked, Some(ino), plain, false)
  }

  /** The parent opens and locks. */
  lemma OpenAndLock(k: Kernel, ino: nat) returns (events: seq<Event>, found: nat)
    requires Initial(k)
    ensures Reaches(k, events, Stage(found, k.plain, map[Slot(0, 3) := Entry(0, true, Guard)], {0}, {}), {}, true)
  {
    var own := Slot(0, 3);
    var making := Apply(k, Open(own, ino));
    found := making.inodes[0];
    assert making == Stage(found, k.plain, map[own := Entry(0, true, Opening)], {}, {});
    assert !Contested(making, 0);
    assert Apply(making, Lock(own)) == Stage(found, k.plain, map[own := Entry(0, true, Guard)], {0}, {});
    ReachesNext(k, [], k, {}, true, Open(own, ino));
    ReachesNext(k, [] + [Open(own, ino)], making, {}, true, Lock(own));
    events := [] + [Open(own, ino)] + [Lock(own)];
  }

  /** A process forks and its child runs another program: every unmarked descriptor is copied to it. */
  lemma SpawnSteps(k: Kernel, parent: nat, child: nat)
    requires FilesKnown(k) && Enabled(k, Fork(parent, child)) && 0 in k.locked && k.locked == {0} && k.forked == {}
    requires Slot(parent, 3) in k.table && k.table[Slot(parent, 3)] == Entry(0, false, Handed)
    requires forall s :: s in k.table && s.pid == parent ==> s.fd == 3
    ensures var spawned := Apply(k, Fork(parent, child));
            && FilesKnown(spawned) && Enabled(spawned, Exec(child))
            && Apply(spawned, Exec(child)) == k.(table := k.table[Slot(child, 3) := Entry(0, false, Handed)])
  {
    var spawned := Apply(k, Fork(parent, child));
    assert Copies(k, parent, child) == map[Slot(child, 3) := Entry(0, false, Copy)];
    var table := k.table[Slot(child, 3) := Entry(0, false, Handed)];
    assert AfterExec(spawned, child) == table;
    assert table[Slot(child, 3)].file == 0 && Referenced(table, 0);
  }

  /** The stages of a hand-over: after the fork, after the mark was removed, after exec. */
  function Forked(ino: nat, plain: bool): Kernel {
    Stage(ino, plain, map[Slot(0, 3) := Entry(0, true, Guard), Slot(1, 3) := Entry(0, true, Copy)], {0}, {1})
  }

  function Passed(ino: nat, plain: bool): Kernel {
    Stage(ino, plain, map[Slot(0, 3) := Entry(0, true, Guard), Slot(1, 3) := Entry(0, false, Copy)], {0}, {1})
  }

  function HandedOver(ino: nat, plain: bool): Kernel {
    Stage(ino, plain, map[Slot(0, 3) := Entry(0, true, Guard), Slot(1, 3) := Entry(0, false, Handed)], {0}, {})
  }

  lemma ForkStep(ino: nat, plain: bool)
    ensures var now := Stage(ino, plain, map[Slot(0, 3) := Entry(0, true, Guard)], {0}, {});
            Enabled(now, Fork(0, 1)) && Disciplined(now, Fork(0, 1)) && Apply(now, Fork(0, 1)) == Forked(ino, plain)
  {
    var now := Stage(ino, plain, map[Slot(0, 3) := Entry(0, true, Guard)], {0}, {});
    assert Copies(now, 0, 1) == map[Slot(1, 3) := Entry(0, true, Copy)];
  }

  lemma ExecStep(ino: nat, plain: bool)
    ensures FilesKnown(Passed(ino, plain)) && Enabled(Passed(ino, plain), Exec(1))
    ensures Apply(Passed(ino, plain), Exec(1)) == HandedOver(ino, plain)
  {
    var table := HandedOver(ino, plain).table;
    assert AfterExec(Passed(ino, plain), 1) == table;
    assert table[Slot(0, 3)].file == 0 && Referenced(table, 0);
  }

  lemma PassStep(ino: nat, plain: bool)
    ensures FilesKnown(Forked(ino, plain)) && Enabled(Forked(ino, plain), Pass(Slot(1, 3)))
    ensures Disciplined(Forked(ino, plain), Pass(Slot(1, 3)))
    ensures Apply(Forked(ino, plain), Pass(Slot(1, 3))) == Passed(ino, plain)
  {}

  /** It spawns process 1 and hands it the descriptor. */
  lemma HandOver(k: Kernel, before: seq<Event>, ino: nat, plain: bool) returns (events: seq<Event>)
    requires Reaches(k, before, Stage(ino, plain, map[Slot(0, 3) := Entry(0, true, Guard)], {0}, {}), {}, true)
    ensures Reaches(k, events, HandedOver(ino, plain), {Slot(1, 3)}, true)
  {
    ForkStep(ino, plain);
    PassStep(ino, plain);
    ExecStep(ino, plain);
    ReachesNext(k, before, After(k, before), {}, true, Fork(0, 1));
    ReachesNext(k, before + [Fork(0, 1)], Forked(ino, plain), {}, true, Pass(Slot(1, 3)));
    assert Track({}, Pass(Slot(1, 3))) == {Slot(1, 3)};
    ReachesNext(k, before + [Fork(0, 1)] + [Pass(Slot(1, 3))], Passed(ino, plain), {Slot(1, 3)}, true, Exec(1));
    events := before + [Fork(0, 1)] + [Pass(Slot(1, 3))] + [Exec(1)];
  }

  /** The receiver exits and the parent drops its guard, but a third process still has the description. */
  lemma BothGo(k: Kernel, ino: nat, plain: bool)
    requires k == Stage(ino, plain, map[Slot(0, 3) := Entry(0, true, Guard), Slot(1, 3) := Entry(0, false, Handed),
                                        Slot(2, 3) := Entry(0, false, Handed)], {0}, {})
    ensures var gone := Apply(k, Exit(1));
            && FilesKnown(gone) && Enabled(gone, Close(Slot(0, 3)))
            && Apply(gone, Close(Slot(0, 3))) == Stage(ino, plain, map[Slot(2, 3) := Entry(0, false, Handed)], {0}, {})
  {
    var own, stray := Slot(0, 3), Slot(2, 3);
    var table := map[own := Entry(0, true, Guard), stray := Entry(0, false, Handed)];
    assert AfterExit(k, 1) == table;
    assert table[own].file == 0 && Referenced(table, 0);
    var left := map[stray := Entry(0, false, Handed)];
    assert table - {own} == left && left[stray].file == 0 && Referenced(left, 0);
  }

  /**
   The discipline is needed. A receiver that spawns a child before making its descriptor private
   leaves that child a descriptor nobody handed it: from the initial kernel a run reaches a state
   without a guard, without a call in progress and with nothing received left open, where the lock
   is held all the same, and by `StrayDescriptorKeepsTheLock` for as long as that child lives.
   */
  lemma UndisciplinedForkLeavesAStray(k: Kernel, ino: nat) returns (events: seq<Event>)
    requires Initial(k)
    ensures Runs(k, events) && !RunsDisciplined(k, events) && Received({}, events) == {}
    ensures var now := After(k, events);
            Inv(now) && now.table == map[Slot(2, 3) := Entry(0, false, Handed)] && now.forked == {} && now.locked == {0}
  {
    var e1, ino' := OpenAndLock(k, ino);
    var e2 := HandOver(k, e1, ino', k.plain);
    var e3 := SpawnUndisciplined(k, e2, ino');
    events := LeaveTheStray(k, e3, ino');
    RunKeeps(k, events);
  }

  lemma SpawnUndisciplined(k: Kernel, before: seq<Event>, ino: nat) returns (events: seq<Event>)
    requires Reaches(k, before, HandedOver(ino, k.plain), {Slot(1, 3)}, true)
    ensures Reaches(k, events, Stage(ino, k.plain, map[Slot(0, 3) := Entry(0, true, Guard), Slot(1, 3) := Entry(0, false, Handed),
                                                       Slot(2, 3) := Entry(0, false, Handed)], {0}, {}), {Slot(1, 3)}, false)
  {
    var now := After(k, before);
    SpawnSteps(now, 1, 2);
    assert !now.table[Slot(1, 3)].closeOnExec;
    ReachesNext(k, before, now, {Slot(1, 3)}, true, Fork(1, 2));
    ReachesNext(k, before + [Fork(1, 2)], Apply(now, Fork(1, 2)), {Slot(1, 3)}, false, Exec(2));
    events := before + [Fork(1, 2)] + [Exec(2)];
  }

  lemma LeaveTheStray(k: Kernel, before: seq<Event>, ino: nat) returns (events: seq<Event>)
    requires Reaches(k, before, Stage(ino, k.plain, map[Slot(0, 3) := Entry(0, true, Guard), Slot(1, 3) := Entry(0, false, Handed),
                                                        Slot(2, 3) := Entry(0, false, Handed)], {0}, {}), {Slot(1, 3)}, false)
    ensures Reaches(k, events, Stage(ino, k.plain, map[Slot(2, 3) := Entry(0, false, Handed)], {0}, {}), {}, false)
  {
    var now := After(k, before);
    BothGo(now, ino, k.plain);
    assert Track({Slot(1, 3)}, Exit(1)) == {} && Track({}, Close(Slot(0, 3))) == {};
    ReachesNext(k, before, now, {Slot(1, 3)}, false, Exit(1));
    ReachesNext(k, before + [Exit(1)], Apply(now, Exit(1)), {}, false, Close(Slot(0, 3)));
    events := before + [Exit(1)] + [Close(Slot(0, 3))];
  }

  /** If another file takes the lock path, the next acquire makes a second guard beside the first. */
  lemma ReplacingTheFileSplitsTheLock(k: Kernel, s: Slot, t: Slot, other: nat)
    requires Inv(k) && Has(k, s, Guard) && t !in k.table && t.pid !in k.forked && other !in k.inodes
    ensures var replaced := Apply(k, Replace(Some(other), true));
            && Enabled(replaced, Open(t, other))
            && var opening := Apply(replaced, Open(t, other));
            && FilesKnown(opening) && Enabled(opening, Lock(t))
            && var both := Apply(opening, Lock(t));
            && Has(both, s, Guard) && Has(both, t, Guard) && both.table[s].file != both.table[t].file
  {
    var replaced := Apply(k, Replace(Some(other), true));
    StepKeeps(k, Replace(Some(other), true));
    StepKeeps(replaced, Open(t, other));
    var opening := Apply(replaced, Open(t, other));
    assert !Contested(opening, |k.inodes|);
  }
}
