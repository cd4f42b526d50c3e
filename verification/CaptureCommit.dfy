/**
 The capture executor (`src/run_triage_cli.rs`): adopting a half-finished commit, committing a new
 capture, and any number of runs cut short by I/O errors, process deaths and power failures.
 */
module CaptureCommit {
  import opened Results
  import opened TabIdentity
  import opened CaptureDisk
  import opened CaptureProtocol
  import opened Text

  datatype Why = IoError | EmptyDump | MissingDump | Mismatch | Unadoptable(decision: Decision) | NoSource

  /** How a run ends: with a value, with an error, or because the process or the machine died. */
  datatype Run<+T> = Done(value: T) | Failed(why: Why) | Died

  /** What one disk operation can do. */
  datatype Fate = Performed | Refused | Interrupted

  /** Anything can go wrong at any time, or nothing does until the process is killed after some more operations. */
  datatype Weather = Anything | Calm(left: nat)

  function Later(w: Weather): Weather {
    if w.Calm? && w.left > 0 then Calm(w.left - 1) else w
  }

  /** The weather after `n` operations. */
  function Spent(w: Weather, n: nat): Weather {
    if w.Calm? then Calm(if n <= w.left then w.left - n else 0) else w
  }

  /** In calm weather an operation is performed unless the process is killed before it. */
  predicate Obeys(w: Weather, f: Fate) {
    w.Calm? ==> f == if w.left == 0 then Interrupted else Performed
  }

  // ---- the ten operations of an undisturbed capture -------------------------------------

  /** Staging file, scratch file, and what goes into them. */
  datatype Plan = Plan(k: Ino, j: Ino, manifest: seq<Byte>, data: seq<Byte>)

  function Operation(p: Plan, i: nat, d: Disk): Disk {
    match i
    case 0 => CreateFile(d, Staging(p.k))
    case 1 => WriteFile(d, p.k, p.data)
    case 2 => if p.k in d.inodes then SyncFile(d, p.k) else d
    case 3 => CreateFile(d, Scratch(p.j))
    case 4 => WriteFile(d, p.j, p.manifest)
    case 5 => if p.j in d.inodes then SyncFile(d, p.j) else d
    case 6 => Append(d, Move(Scratch(p.j), ManifestFile, p.j))
    case 7 => SyncDirectory(d)
    case 8 => Append(d, Move(Staging(p.k), Destination, p.k))
    case _ => SyncDirectory(d)
  }

  /** `n` of them, from the `i`-th. */
  function After(p: Plan, i: nat, n: nat, d: Disk): Disk {
    if n == 0 then d else Operation(p, i + n - 1, After(p, i, n - 1, d))
  }

  lemma {:induction false} AfterSplits(p: Plan, i: nat, n: nat, m: nat, d: Disk)
    ensures After(p, i, n + m, d) == After(p, i + n, m, After(p, i, n, d))
  {
    if m == 0 {
    } else {
      AfterSplits(p, i, n, m - 1, d);
      var before := After(p, i, n, d);
      assert n + m - 1 == n + (m - 1);
      assert After(p, i, n + m - 1, d) == After(p, i + n, m - 1, before);
      assert After(p, i + n, m, before) == Operation(p, i + n + m - 1, After(p, i + n, m - 1, before));
    }
  }

  /** In calm weather exactly the next `len` operations happen, or as many as the process lives for. */
  predicate Follows(p: Plan, i: nat, len: nat, d: Disk, w: Weather, d': Disk, w': Weather, finished: bool) {
    w.Calm? ==>
      && finished == (w.left >= len)
      && w' == Calm(if finished then w.left - len else 0)
      && d' == After(p, i, if finished then len else w.left, d)
  }

  lemma FollowsOn(p: Plan, i: nat, n: nat, m: nat, len: nat, d: Disk, w: Weather, d1: Disk, w1: Weather,
                  d2: Disk, w2: Weather, finished: bool)
    requires Follows(p, i, n, d, w, d1, w1, true) && Follows(p, i + n, m, d1, w1, d2, w2, finished)
    requires n + m <= len
    ensures finished ==> Follows(p, i, n + m, d, w, d2, w2, true)
    ensures !finished ==> Follows(p, i, len, d, w, d2, w2, false)
  {
    if w.Calm? {
      AfterSplits(p, i, n, if finished then m else w1.left, d);
    }
  }

  lemma OneOperation(p: Plan, i: nat, n: nat, len: nat, d: Disk, w: Weather, d1: Disk, w1: Weather,
                     d2: Disk, w2: Weather, f: Fate)
    requires Follows(p, i, n, d, w, d1, w1, true) && n < len
    requires Obeys(w1, f) && w2 == Later(w1)
    requires w1.Calm? ==> d2 == if f.Performed? then Operation(p, i + n, d1) else d1
    ensures f.Performed? ==> Follows(p, i, n + 1, d, w, d2, w2, true)
    ensures !f.Performed? ==> Follows(p, i, len, d, w, d2, w2, false)
  {
    if w1.Calm? && f.Performed? {
      assert After(p, i + n, 0, d1) == d1;
      assert After(p, i + n, 1, d1) == Operation(p, i + n, d1);
      AfterSplits(p, i, n, 1, d);
    }
  }

  class Directory {
    const codec: Codec
    const ordered: bool
    var disk: Disk
    var weather: Weather
    ghost var books: Books

    /** A directory that holds at most an earlier capture. */
    constructor (ghost req: Request, codec: Codec, ordered: bool, disk: Disk)
      requires Lawful(codec) && disk.pending == []
      requires forall i :: i in disk.inodes ==> i < disk.next
      requires disk.durable.Keys <= {Destination}
      requires Destination in disk.durable ==>
                 disk.durable[Destination] in disk.inodes && disk.inodes[disk.durable[Destination]].stable
      ensures Valid(req) && this.codec == codec && this.ordered == ordered && this.disk == disk && weather.Anything?
      ensures ManifestFile !in Current(disk)
    {
      ghost var initial := InitialBooks(disk);
      InvInitially(codec, req, ordered, disk);
      this.codec, this.ordered, this.disk, this.weather, this.books := codec, ordered, disk, Anything, initial;
    }

    ghost predicate Valid(req: Request)
      reads this
    {
      Lawful(codec) && Inv(codec, req, ordered, disk, books)
    }

    function Now(): View
      reads this
    {
      Current(disk)
    }

    /** A power failure: some of the pending operations and all unsynced contents are lost. */
    method PowerFailure()
      modifies this`disk
      ensures CrashesTo(ordered, old(disk), disk)
    {
      var kept: View := disk.durable;
      var cut: nat :| true;
      assert disk.pending[..0] == [];
      for i := 0 to |disk.pending|
        invariant Survives(ordered, disk.durable, disk.pending[..i], kept)
        invariant ordered && i <= cut ==> kept == Replay(disk.durable, disk.pending[..i])
      {
        assert disk.pending[..i + 1][..i] == disk.pending[..i];
        var keep: bool := *;
        if (ordered && i < cut) || (!ordered && keep) {
          kept := ApplyOp(kept, disk.pending[i]);
        }
      }
      assert disk.pending[..|disk.pending|] == disk.pending;
      var junk: map<Ino, seq<Byte>> := *;
      disk := Disk(kept, [],
        map i | i in disk.inodes :: if disk.inodes[i].stable then disk.inodes[i]
                                    else Inode(if i in junk then junk[i] else [], true),
        disk.next);
    }

    /** Before any operation the process may be killed or the machine may lose power. */
    method MayDie(ghost req: Request) returns (died: bool)
      modifies this`disk, this`weather
      ensures weather == Later(old(weather))
      ensures old(weather).Calm? ==> disk == old(disk) && died == (old(weather).left == 0)
      ensures disk == old(disk) || (died && CrashesTo(ordered, old(disk), disk))
      ensures Inv(codec, req, ordered, old(disk), books) ==> Inv(codec, req, ordered, disk, books)
      ensures !died ==> disk == old(disk)
    {
      died := *;
      var power: bool := *;
      if weather.Calm? {
        died, power := weather.left == 0, false;
      }
      weather := Later(weather);
      if died && power {
        PowerFailure();
        if Inv(codec, req, ordered, old(disk), books) {
          InvCrash(codec, req, ordered, old(disk), books, disk);
        }
      }
    }

    /** `unique_staging_path`: reserves a fresh empty file; its serial is `old(disk).next`. */
    method Reserve(ghost req: Request, scratch: bool) returns (f: Fate, name: Name, ino: Ino)
      requires Valid(req)
      modifies this`disk, this`weather
      ensures Valid(req) && weather == Later(old(weather)) && Obeys(old(weather), f)
      ensures old(weather).Calm? && f.Interrupted? ==> disk == old(disk)
      ensures !f.Interrupted? ==> forall s :: Vacant(codec, old(disk), s) ==> Vacant(codec, disk, s)
      ensures f.Performed? ==>
                && ino == old(disk).next && name == (if scratch then Scratch(ino) else Staging(ino))
                && disk == CreateFile(old(disk), name)
      ensures f.Refused? ==> disk == old(disk)
    {
      ino := disk.next;
      name := if scratch then Scratch(ino) else Staging(ino);
      f := Refused;
      var died := MayDie(req);
      var fails: bool := *;
      if died {
        f := Interrupted;
      } else if !fails || weather.Calm? {
        InvCreate(codec, req, ordered, disk, books, name);
        forall s | Vacant(codec, disk, s) ensures Vacant(codec, CreateFile(disk, name), s) {
          VacantCreate(codec, req, ordered, disk, books, name, s);
        }
        disk := CreateFile(disk, name);
        f := Performed;
      }
    }

    /** Writes a whole file; when it fails or dies the file holds anything. */
    method Write(ghost req: Request, ino: Ino, data: seq<Byte>) returns (f: Fate)
      requires Valid(req) && ino in disk.inodes && ino !in books.sealed
      modifies this`disk, this`weather
      ensures Valid(req) && weather == Later(old(weather)) && Obeys(old(weather), f)
      ensures old(weather).Calm? && f.Interrupted? ==> disk == old(disk)
      ensures !f.Interrupted? ==> forall s :: Vacant(codec, old(disk), s) ==> Vacant(codec, disk, s)
      ensures f.Performed? ==> disk == WriteFile(old(disk), ino, data)
      ensures f.Refused? ==> exists torn :: disk == WriteFile(old(disk), ino, torn)
    {
      if weather == Calm(0) {
        return Interrupted;
      }
      var fails: bool := *;
      fails := fails && !weather.Calm?;
      var torn: seq<Byte> := *;
      InvWrite(codec, req, ordered, disk, books, ino, torn);
      InvWrite(codec, req, ordered, disk, books, ino, data);
      forall s, content | Vacant(codec, disk, s) ensures Vacant(codec, WriteFile(disk, ino, content), s) {
        VacantExtends(codec, req, ordered, disk, books, WriteFile(disk, ino, content), books, s);
      }
      disk := WriteFile(disk, ino, if fails then torn else data);
      var died := MayDie(req);
      f := if died then Interrupted else if fails then Refused else Performed;
    }

    method Sync(ghost req: Request, ino: Ino) returns (f: Fate)
      requires Valid(req) && ino in disk.inodes
      modifies this`disk, this`weather
      ensures Valid(req) && weather == Later(old(weather)) && Obeys(old(weather), f)
      ensures old(weather).Calm? && f.Interrupted? ==> disk == old(disk)
      ensures !f.Interrupted? ==> forall s :: Vacant(codec, old(disk), s) ==> Vacant(codec, disk, s)
      ensures f.Performed? ==> disk == SyncFile(old(disk), ino)
      ensures f.Refused? ==> disk == old(disk)
    {
      var died := MayDie(req);
      var fails: bool := *;
      fails := fails && !weather.Calm?;
      f := if died then Interrupted else Refused;
      if !died && !fails {
        forall s | Vacant(codec, disk, s) ensures Vacant(codec, SyncFile(disk, ino), s) {
          VacantExtends(codec, req, ordered, disk, books, SyncFile(disk, ino), books, s);
        }
        InvSyncFile(codec, req, ordered, disk, books, ino);
        disk := SyncFile(disk, ino);
        f := Performed;
      }
    }

    /** `sync_parent`. When it reports an error the operations may or may not be durable. */
    method SyncParent(ghost req: Request) returns (f: Fate)
      requires Valid(req)
      modifies this`disk, this`weather
      ensures Valid(req) && weather == Later(old(weather)) && Obeys(old(weather), f)
      ensures old(weather).Calm? && f.Interrupted? ==> disk == old(disk)
      ensures !f.Interrupted? ==> forall s :: Vacant(codec, old(disk), s) ==> Vacant(codec, disk, s)
      ensures f.Performed? ==> disk == SyncDirectory(old(disk))
      ensures f.Refused? ==> disk == old(disk) || disk == SyncDirectory(old(disk))
    {
      var died := MayDie(req);
      f := if died then Interrupted else Performed;
      if !died {
        var reports: bool := *;
        reports := reports || weather.Calm?;
        var reaches: bool := *;
        if reports || reaches {
          InvSyncDirectory(codec, req, ordered, disk, books);
          disk := SyncDirectory(disk);
        }
        f := if reports then Performed else Refused;
      }
    }

    /** A rename whose place in the protocol the caller has shown to keep the invariant. */
    method Rename(ghost req: Request, from: Name, to: Name, ino: Ino) returns (f: Fate)
      requires Valid(req)
      requires Inv(codec, req, ordered, Append(disk, Move(from, to, ino)), books)
      modifies this`disk, this`weather
      ensures Valid(req) && weather == Later(old(weather)) && Obeys(old(weather), f)
      ensures old(weather).Calm? && f.Interrupted? ==> disk == old(disk)
      ensures f.Performed? ==> disk == Append(old(disk), Move(from, to, ino))
      ensures f.Refused? ==> disk == old(disk)
    {
      var died := MayDie(req);
      var fails: bool := *;
      fails := fails && !weather.Calm?;
      f := if died then Interrupted else Refused;
      if !died && !fails {
        disk := Append(disk, Move(from, to, ino));
        f := Performed;
      }
    }
  }

  function Broken<T>(f: Fate): Run<T>
    requires !f.Performed?
  {
    if f.Interrupted? then Died else Failed(IoError)
  }

  // ---- adopting an earlier commit -------------------------------------------------------

  /** What a run answers to a decision it does not act on. */
  function Answer(decision: Decision): Run<Option<Evidence>> {
    match decision
    case NoManifest => Done(None)
    case Committed(evidence) => Done(Some(evidence))
    case _ => Failed(Unadoptable(decision))
  }

  /** Promoting a staged capture takes two operations; this is the disk after the first `n` of them. */
  function Promoted(d: Disk, staging: Name, n: nat): Disk
    requires staging in Current(d)
  {
    var moved := Append(d, Move(staging, Destination, Current(d)[staging]));
    if n == 0 then d else if n == 1 then moved else SyncDirectory(moved)
  }

  /**
   `adopt_capture_commit`. An adopted capture is in place, and it is either durable or was found
   so without touching the disk. `retired` reports the stale-manifest branch.
   */
  method AdoptCaptureCommit(dir: Directory, req: Request) returns (r: Run<Option<Evidence>>, retired: bool)
    requires dir.Valid(req)
    modifies dir`disk, dir`weather
    ensures dir.Valid(req)
    ensures old(dir.weather).Calm? ==> dir.weather.Calm?
    ensures r.Done? && r.value.Some? ==>
              && Decide(dir.codec, req, dir.disk, dir.Now()) == Committed(r.value.value)
              && Holds(dir.codec, dir.disk, dir.Now())
              && (dir.disk.pending == [] || dir.disk == old(dir.disk))
    ensures r.Done? && r.value.None? ==> ManifestFile !in dir.Now()
    ensures r.Done? && r.value.None? && !retired ==> dir.disk == old(dir.disk) && dir.weather == old(dir.weather)
    ensures retired ==> !dir.ordered
    ensures r.Failed? ==> r.why == IoError || (r.why == Unadoptable(Invalid) && !IsNamed(req))
    ensures var decision := Decide(dir.codec, req, old(dir.disk), old(dir.Now()));
            && (decision.NoManifest? || decision.Committed? || decision.Invalid? ==>
                  && dir.disk == old(dir.disk) && dir.weather == old(dir.weather) && !retired
                  && (r == Answer(decision) || (dir.weather.Anything? && r == Failed(IoError))))
            && (decision.Staged? && old(dir.weather).Calm? ==>
                  && decision.staging in old(dir.Now())
                  && dir.disk == Promoted(old(dir.disk), decision.staging, old(dir.weather).left)
                  && r == if old(dir.weather).left >= 2 then Done(Some(decision.evidence)) else Died)
            && (decision.Stale? && old(dir.weather).Calm? ==>
                  && dir.weather == Spent(old(dir.weather), 2)
                  && r == if old(dir.weather).left >= 2 then Done(None) else Died)
  {
    retired := false;
    InvNow(dir.codec, req, dir.ordered, dir.disk, dir.books);
    RestartAdopts(dir.codec, req, dir.ordered, dir.disk, dir.books);
    var unreadable: bool := *;
    if unreadable && dir.weather.Anything? {
      return Failed(IoError), false;
    }
    var decision := Decide(dir.codec, req, dir.disk, dir.Now());
    if decision.Staged? {
      r := AdoptStaged(dir, req, decision.staging, decision.evidence);
      return r, false;
    }
    if decision.Stale? {
      InvRetire(dir.codec, req, dir.ordered, dir.disk, dir.books, dir.disk.next);
      CurrentOfOneMore(dir.disk, Move(ManifestFile, Retired(dir.disk.next), dir.Now()[ManifestFile]));
      var f := dir.Rename(req, ManifestFile, Retired(dir.disk.next), dir.Now()[ManifestFile]);
      retired := true;
      if f.Performed? {
        f := dir.SyncParent(req);
      }
      return if f.Performed? then Done(None) else Broken(f), true;
    }
    r := Answer(decision);
  }

  /** The manifest's staging file is complete: rename it onto the destination. */
  method AdoptStaged(dir: Directory, req: Request, staging: Name, e: Evidence) returns (r: Run<Option<Evidence>>)
    requires dir.Valid(req) && Decide(dir.codec, req, dir.disk, dir.Now()) == Staged(staging, e)
    modifies dir`disk, dir`weather
    ensures dir.Valid(req)
    ensures old(dir.weather).Calm? ==> dir.weather.Calm?
    ensures r.Done? ==>
              && r.value == Some(e)
              && Decide(dir.codec, req, dir.disk, dir.Now()) == Committed(e)
              && Holds(dir.codec, dir.disk, dir.Now())
              && dir.disk.pending == []
    ensures r.Failed? ==> r.why == IoError
    ensures staging in old(dir.Now())
    ensures old(dir.weather).Calm? ==>
              && dir.disk == Promoted(old(dir.disk), staging, old(dir.weather).left)
              && r == if old(dir.weather).left >= 2 then Done(Some(e)) else Died
  {
    InvNow(dir.codec, req, dir.ordered, dir.disk, dir.books);
    RestartAdopts(dir.codec, req, dir.ordered, dir.disk, dir.books);
    var k := dir.Now()[staging];
    ghost var before := dir.disk;
    assert staging == Staging(k);
    assert Promises(dir.codec, dir.disk, k, e);
    InvCommit(dir.codec, req, dir.ordered, dir.disk, dir.books, k, e);
    var f := dir.Rename(req, staging, Destination, k);
    if !f.Performed? {
      return Broken(f);
    }
    AdoptingTwiceIsAdoptingOnce(dir.codec, req, before, dir.disk, staging, e);
    f := dir.SyncParent(req);
    if !f.Performed? {
      return Broken(f);
    }
    AdoptingTwiceIsAdoptingOnce(dir.codec, req, before, dir.disk, staging, e);
    RestartAdopts(dir.codec, req, dir.ordered, dir.disk, dir.books);
    return Done(Some(e));
  }

  // ---- committing a new capture ---------------------------------------------------------

  /** A manifest for this request that names the sealed staging file `k` and describes it. */
  ghost predicate Describes(dir: Directory, req: Request, m: Manifest, k: Ino)
    reads dir
  {
    && IsWrittenFor(req, m) && m.staging == Some(Staging(k))
    && k in dir.books.sealed && k in dir.disk.inodes
    && dir.disk.inodes[k].data in dir.books.good && Matches(dir.codec, dir.disk.inodes[k].data, m.evidence)
  }

  /** No capture of another source is added to what the disk holds. */
  ghost predicate AddsOnly(dir: Directory, before: Disk, source: Source)
    reads dir
  {
    forall s :: s != source && Vacant(dir.codec, before, s) ==> Vacant(dir.codec, dir.disk, s)
  }

  /** Reserves a file and fills it: two operations, the first two of a capture or of its manifest. */
  method CreateFilled(dir: Directory, req: Request, scratch: bool, data: seq<Byte>, ghost p: Plan) returns (f: Fate, ino: Ino)
    requires dir.Valid(req)
    requires if scratch then p.j == dir.disk.next && p.manifest == data else p.k == dir.disk.next && p.data == data
    modifies dir`disk, dir`weather
    ensures dir.Valid(req)
    ensures f.Performed? ==>
              && Extends(old(dir.disk), old(dir.books), dir.disk, dir.books)
              && ino == old(dir.disk).next && dir.disk.next == ino + 1
              && ino in dir.disk.inodes && dir.disk.inodes[ino].data == data
              && ino !in dir.books.sealed
              && dir.Now() == ApplyOp(old(dir.Now()), Link(if scratch then Scratch(ino) else Staging(ino), ino))
    ensures !f.Interrupted? ==> forall s :: Vacant(dir.codec, old(dir.disk), s) ==> Vacant(dir.codec, dir.disk, s)
    ensures Follows(p, if scratch then 3 else 0, 2, old(dir.disk), old(dir.weather), dir.disk, dir.weather, f.Performed?)
    ensures old(dir.weather).Calm? ==> !f.Refused?
  {
    ghost var start, outlook := dir.disk, dir.weather;
    ghost var i := if scratch then 3 else 0;
    var name;
    f, name, ino := dir.Reserve(req, scratch);
    OneOperation(p, i, 0, 2, start, outlook, start, outlook, dir.disk, dir.weather, f);
    if !f.Performed? {
      return;
    }
    CurrentOfOneMore(start, Link(name, ino));
    assert ino !in dir.books.sealed;
    ghost var d, w := dir.disk, dir.weather;
    f := dir.Write(req, ino, data);
    OneOperation(p, i, 1, 2, start, outlook, d, w, dir.disk, dir.weather, f);
  }

  /** The first half of `atomic_write_json`: a synced scratch file that holds the manifest. */
  method WriteManifest(dir: Directory, req: Request, m: Manifest, ghost p: Plan) returns (f: Fate, j: Ino)
    requires dir.Valid(req) && dir.codec.encode(m) != []
    requires p.j == dir.disk.next && p.manifest == dir.codec.encode(m)
    modifies dir
    ensures dir.Valid(req) && dir.books.good == old(dir.books.good)
    ensures f.Performed? ==>
              && Extends(old(dir.disk), old(dir.books), dir.disk, dir.books)
              && j in dir.books.sealed && dir.disk.inodes[j].data == dir.codec.encode(m)
              && dir.Now() == ApplyOp(old(dir.Now()), Link(Scratch(j), j))
              && j == old(dir.disk).next
    ensures !f.Interrupted? ==> forall s :: Vacant(dir.codec, old(dir.disk), s) ==> Vacant(dir.codec, dir.disk, s)
    ensures Follows(p, 3, 3, old(dir.disk), old(dir.weather), dir.disk, dir.weather, f.Performed?)
    ensures old(dir.weather).Calm? ==> !f.Refused?
  {
    ghost var start, outlook := dir.disk, dir.weather;
    f, j := CreateFilled(dir, req, true, dir.codec.encode(m), p);
    if !f.Performed? {
      return;
    }
    ghost var d, w := dir.disk, dir.weather;
    f := dir.Sync(req, j);
    OneOperation(p, 3, 2, 3, start, outlook, d, w, dir.disk, dir.weather, f);
    if !f.Performed? {
      return;
    }
    ghost var sealed := dir.books.(sealed := dir.books.sealed + {j});
    InvSeal(dir.codec, req, dir.ordered, dir.disk, dir.books, j, sealed);
    dir.books := sealed;
  }

  /** `atomic_write_json` for the commit manifest of staging file `k`. */
  method InstallManifest(dir: Directory, req: Request, m: Manifest, k: Ino, ghost p: Plan) returns (f: Fate)
    requires dir.Valid(req) && Describes(dir, req, m, k) && Staging(k) in dir.Now()
    requires dir.codec.encode(m) != [] && Vacant(dir.codec, dir.disk, m.evidence.source)
    requires p.j == dir.disk.next && p.manifest == dir.codec.encode(m)
    modifies dir
    ensures dir.Valid(req) && dir.books.good == old(dir.books.good)
    ensures f.Performed? ==>
              && dir.disk.pending == []
              && Describes(dir, req, m, k)
              && Promises(dir.codec, dir.disk, k, m.evidence)
              && dir.disk.inodes[k].data == old(dir.disk.inodes)[k].data
    ensures !f.Interrupted? ==> AddsOnly(dir, old(dir.disk), m.evidence.source)
    ensures Follows(p, 3, 5, old(dir.disk), old(dir.weather), dir.disk, dir.weather, f.Performed?)
    ensures old(dir.weather).Calm? ==> !f.Refused?
  {
    ghost var start, outlook := dir.disk, dir.weather;
    var j;
    f, j := WriteManifest(dir, req, m, p);
    if !f.Performed? {
      return;
    }
    ghost var d, w := dir.disk, dir.weather;
    f := PublishManifest(dir, req, m, k, j, p);
    FollowsOn(p, 3, 3, 2, 5, start, outlook, d, w, dir.disk, dir.weather, f.Performed?);
  }

  /** The second half of `atomic_write_json`: rename the scratch file and sync the directory. */
  method PublishManifest(dir: Directory, req: Request, m: Manifest, k: Ino, j: Ino, ghost p: Plan) returns (f: Fate)
    requires dir.Valid(req) && Describes(dir, req, m, k) && Staging(k) in dir.Now()
    requires j in dir.books.sealed && dir.disk.inodes[j].data == dir.codec.encode(m)
    requires Vacant(dir.codec, dir.disk, m.evidence.source) && p.j == j
    modifies dir`disk, dir`weather
    ensures dir.Valid(req)
    ensures f.Performed? ==>
              && dir.disk.pending == []
              && Describes(dir, req, m, k)
              && Promises(dir.codec, dir.disk, k, m.evidence)
              && dir.disk.inodes == old(dir.disk.inodes)
    ensures !f.Interrupted? ==> AddsOnly(dir, old(dir.disk), m.evidence.source)
    ensures Follows(p, 6, 2, old(dir.disk), old(dir.weather), dir.disk, dir.weather, f.Performed?)
    ensures old(dir.weather).Calm? ==> !f.Refused?
  {
    ghost var start, outlook := dir.disk, dir.weather;
    InvInstall(dir.codec, req, dir.ordered, dir.disk, dir.books, j, k, m);
    CurrentOfOneMore(dir.disk, Move(Scratch(j), ManifestFile, j));
    AddsItsSource(dir, j, m);
    f := dir.Rename(req, Scratch(j), ManifestFile, j);
    OneOperation(p, 6, 0, 2, start, outlook, start, outlook, dir.disk, dir.weather, f);
    if !f.Performed? {
      return;
    }
    ghost var d, w := dir.disk, dir.weather;
    f := dir.SyncParent(req);
    OneOperation(p, 6, 1, 2, start, outlook, d, w, dir.disk, dir.weather, f);
  }

  lemma AddsItsSource(dir: Directory, j: Ino, m: Manifest)
    requires j in dir.disk.inodes && dir.codec.decode(dir.disk.inodes[j].data) == Some(m)
    ensures forall s :: s != m.evidence.source && Vacant(dir.codec, dir.disk, s) ==>
                          Vacant(dir.codec, Append(dir.disk, Move(Scratch(j), ManifestFile, j)), s)
  {
    forall s | s != m.evidence.source && Vacant(dir.codec, dir.disk, s)
      ensures Vacant(dir.codec, Append(dir.disk, Move(Scratch(j), ManifestFile, j)), s)
    {
      VacantMove(dir.codec, dir.disk, Move(Scratch(j), ManifestFile, j), s);
    }
  }

  /** The last steps of a commit: rename the promised staging file, sync, and look at the result. */
  method PromoteStaging(dir: Directory, req: Request, k: Ino, m: Manifest, ghost p: Plan) returns (r: Run<Evidence>)
    requires dir.Valid(req) && Describes(dir, req, m, k) && Promises(dir.codec, dir.disk, k, m.evidence)
    requires p.k == k
    modifies dir`disk, dir`weather
    ensures dir.Valid(req)
    ensures r.Done? ==> r.value == m.evidence && HoldsDurably(dir, req, r.value, old(dir.disk.inodes)[k].data)
    ensures r.Failed? ==> r.why == IoError
    ensures !r.Died? ==> AddsOnly(dir, old(dir.disk), m.evidence.source)
    ensures Follows(p, 8, 2, old(dir.disk), old(dir.weather), dir.disk, dir.weather, r.Done?)
    ensures old(dir.weather).Calm? ==> !r.Failed?
  {
    ghost var before, outlook := dir.disk, dir.weather;
    InvCommit(dir.codec, req, dir.ordered, dir.disk, dir.books, k, m.evidence);
    ghost var moved := Append(before, Move(Staging(k), Destination, k));
    PromotionCommits(dir.codec, req, dir.ordered, before, dir.books, k, m.evidence, SyncDirectory(moved));
    AddsNothing(dir, req, k, m.evidence);
    var f := dir.Rename(req, Staging(k), Destination, k);
    OneOperation(p, 8, 0, 2, before, outlook, before, outlook, dir.disk, dir.weather, f);
    if !f.Performed? {
      return Broken(f);
    }
    ghost var d, w := dir.disk, dir.weather;
    f := dir.SyncParent(req);
    OneOperation(p, 8, 1, 2, before, outlook, d, w, dir.disk, dir.weather, f);
    if !f.Performed? {
      return Broken(f);
    }
    r := if MatchesAt(dir.codec, dir.disk, dir.Now(), Destination, m.evidence) then Done(m.evidence) else Failed(Mismatch);
  }

  /** Promoting a capture changes no manifest. */
  lemma AddsNothing(dir: Directory, req: Request, k: Ino, e: Evidence)
    requires dir.Valid(req) && Promises(dir.codec, dir.disk, k, e)
    ensures forall s :: Vacant(dir.codec, dir.disk, s) ==>
                          Vacant(dir.codec, Append(dir.disk, Move(Staging(k), Destination, k)), s)
  {
    var op := Move(Staging(k), Destination, k);
    assert EvidenceAt(dir.codec, dir.disk, ApplyOp(dir.Now(), op)) == EvidenceAt(dir.codec, dir.disk, dir.Now());
    forall s | Vacant(dir.codec, dir.disk, s) ensures Vacant(dir.codec, Append(dir.disk, op), s) {
      VacantMove(dir.codec, dir.disk, op, s);
    }
  }

  /** `blank` with the size, digest and staging name of a capture. */
  function Filled(c: Codec, blank: Manifest, k: Ino, data: seq<Byte>): Manifest {
    blank.(staging := Some(Staging(k)), evidence := blank.evidence.(bytes := |data|, sha := c.sha(data)))
  }

  /** A manifest before its size, digest and staging name are filled in. */
  predicate IsBlankFor(req: Request, blank: Manifest) {
    && blank.version == 1 && blank.request == req && blank.evidence.sourceIdentity != []
    && (blank.evidence.source == TerminalScrollback ==> blank.evidence.identity.Some?)
    && (blank.evidence.identity.Some? ==> IsIdentityFor(req, blank.evidence.identity.value))
  }

  /**
   `commit_scrollback_capture` of the staging file `k`. Its callers have adopted first, so no capture of
   this source is on disk already.
   */
  method CommitScrollbackCapture(dir: Directory, req: Request, k: Ino, blank: Manifest, ghost p: Plan)
    returns (r: Run<Evidence>)
    requires dir.Valid(req) && k in dir.disk.inodes && k !in dir.books.sealed
    requires IsBlankFor(req, blank) && EncodesToSomething(dir.codec) && Vacant(dir.codec, dir.disk, blank.evidence.source)
    requires p == Plan(k, dir.disk.next, dir.codec.encode(Filled(dir.codec, blank, k, dir.disk.inodes[k].data)), dir.disk.inodes[k].data)
    modifies dir
    ensures dir.Valid(req)
    ensures r.Done? ==>
              && p.data != []
              && r.value == Filled(dir.codec, blank, k, p.data).evidence
              && HoldsDurably(dir, req, r.value, p.data)
    ensures dir.books.good <= old(dir.books.good) + (if p.data == [] then {} else {p.data})
    ensures r.Failed? ==> r.why in {IoError, EmptyDump, MissingDump}
    ensures !r.Died? ==> AddsOnly(dir, old(dir.disk), blank.evidence.source)
    ensures p.data != [] && Staging(k) in old(dir.Now()) ==>
              && Follows(p, 2, 8, old(dir.disk), old(dir.weather), dir.disk, dir.weather, r.Done?)
              && (old(dir.weather).Calm? ==> !r.Failed?)
    ensures p.data == [] && Staging(k) in old(dir.Now()) ==>
              && (r == Failed(EmptyDump) || r.Died?)
              && (old(dir.weather).Calm? ==> dir.weather == Later(old(dir.weather)) && r.Died? == (old(dir.weather).left == 0))
  {
    var data := DataAt(dir.disk, dir.Now(), Staging(k));
    InvNow(dir.codec, req, dir.ordered, dir.disk, dir.books);
    if data.None? {
      return Failed(MissingDump);
    }
    if data.value == [] {
      r := DropEmptyDump(dir, req, k);
      return;
    }
    r := SealAndCommit(dir, req, k, blank, p);
  }

  /** The dump is there and not empty: sync it, then manifest and promotion. */
  method SealAndCommit(dir: Directory, req: Request, k: Ino, blank: Manifest, ghost p: Plan)
    returns (r: Run<Evidence>)
    requires dir.Valid(req) && k in dir.disk.inodes && k !in dir.books.sealed && Staging(k) in dir.Now()
    requires IsBlankFor(req, blank) && EncodesToSomething(dir.codec) && Vacant(dir.codec, dir.disk, blank.evidence.source)
    requires p == Plan(k, dir.disk.next, dir.codec.encode(Filled(dir.codec, blank, k, dir.disk.inodes[k].data)), dir.disk.inodes[k].data)
    requires p.data != []
    modifies dir
    ensures dir.Valid(req) && dir.books.good <= old(dir.books.good) + {p.data}
    ensures r.Done? ==>
              r.value == Filled(dir.codec, blank, k, p.data).evidence && HoldsDurably(dir, req, r.value, p.data)
    ensures r.Failed? ==> r.why == IoError
    ensures !r.Died? ==> AddsOnly(dir, old(dir.disk), blank.evidence.source)
    ensures Follows(p, 2, 8, old(dir.disk), old(dir.weather), dir.disk, dir.weather, r.Done?)
    ensures old(dir.weather).Calm? ==> !r.Failed?
  {
    var m := Filled(dir.codec, blank, k, dir.disk.inodes[k].data);
    ghost var start, outlook := dir.disk, dir.weather;
    var f := SealDump(dir, req, k, p);
    if !f.Performed? {
      return Broken(f);
    }
    ghost var d, w := dir.disk, dir.weather;
    r := InstallAndPromote(dir, req, k, m, p);
    FollowsOn(p, 2, 1, 7, 8, start, outlook, d, w, dir.disk, dir.weather, r.Done?);
  }

  /** The manifest first, then the capture. */
  method InstallAndPromote(dir: Directory, req: Request, k: Ino, m: Manifest, ghost p: Plan) returns (r: Run<Evidence>)
    requires dir.Valid(req) && Describes(dir, req, m, k) && Staging(k) in dir.Now()
    requires dir.codec.encode(m) != [] && Vacant(dir.codec, dir.disk, m.evidence.source)
    requires p.k == k && p.j == dir.disk.next && p.manifest == dir.codec.encode(m)
    modifies dir
    ensures dir.Valid(req) && dir.books.good == old(dir.books.good)
    ensures r.Done? ==> r.value == m.evidence && HoldsDurably(dir, req, r.value, old(dir.disk.inodes)[k].data)
    ensures r.Failed? ==> r.why == IoError
    ensures !r.Died? ==> AddsOnly(dir, old(dir.disk), m.evidence.source)
    ensures Follows(p, 3, 7, old(dir.disk), old(dir.weather), dir.disk, dir.weather, r.Done?)
    ensures old(dir.weather).Calm? ==> !r.Failed?
  {
    ghost var start, outlook := dir.disk, dir.weather;
    var f := InstallManifest(dir, req, m, k, p);
    if !f.Performed? {
      return Broken(f);
    }
    ghost var d, w := dir.disk, dir.weather;
    r := PromoteStaging(dir, req, k, m, p);
    FollowsOn(p, 3, 5, 2, 7, start, outlook, d, w, dir.disk, dir.weather, r.Done?);
  }

  /** Syncs the staging file: from here on it may be promised. */
  method SealDump(dir: Directory, req: Request, k: Ino, ghost p: Plan) returns (f: Fate)
    requires dir.Valid(req) && k in dir.disk.inodes && k !in dir.books.sealed
    requires p.k == k && dir.disk.inodes[k].data != []
    modifies dir
    ensures dir.Valid(req)
    ensures !f.Performed? ==> dir.books == old(dir.books)
    ensures f.Performed? ==>
              && dir.disk == SyncFile(old(dir.disk), k)
              && dir.books == old(dir.books).(sealed := old(dir.books.sealed) + {k},
                                              good := old(dir.books.good) + {old(dir.disk.inodes)[k].data})
    ensures !f.Interrupted? ==> forall s :: Vacant(dir.codec, old(dir.disk), s) ==> Vacant(dir.codec, dir.disk, s)
    ensures f.Performed? ==> Follows(p, 2, 1, old(dir.disk), old(dir.weather), dir.disk, dir.weather, true)
    ensures !f.Performed? ==> Follows(p, 2, 8, old(dir.disk), old(dir.weather), dir.disk, dir.weather, false)
    ensures old(dir.weather).Calm? ==> !f.Refused?
  {
    ghost var start, outlook := dir.disk, dir.weather;
    f := dir.Sync(req, k);
    OneOperation(p, 2, 0, 8, start, outlook, start, outlook, dir.disk, dir.weather, f);
    if f.Performed? {
      ghost var promised := dir.books.(sealed := dir.books.sealed + {k}, good := dir.books.good + {dir.disk.inodes[k].data});
      InvSeal(dir.codec, req, dir.ordered, dir.disk, dir.books, k, promised);
      dir.books := promised;
    }
  }

  /** An empty dump is dropped, or left behind if that fails. */
  method DropEmptyDump(dir: Directory, req: Request, k: Ino) returns (r: Run<Evidence>)
    requires dir.Valid(req) && k !in dir.books.sealed
    modifies dir`disk, dir`weather
    ensures dir.Valid(req) && (r == Died || r == Failed(EmptyDump)) && dir.weather == Later(old(dir.weather))
    ensures old(dir.weather).Calm? ==>
              && r.Died? == (old(dir.weather).left == 0)
              && dir.disk == if r.Died? then old(dir.disk) else Append(old(dir.disk), Unlink(Staging(k)))
    ensures !r.Died? ==> forall s :: Vacant(dir.codec, old(dir.disk), s) ==> Vacant(dir.codec, dir.disk, s)
  {
    InvUnlink(dir.codec, req, dir.ordered, dir.disk, dir.books, k);
    var died := dir.MayDie(req);
    var removed: bool := *;
    if died {
      return Died;
    }
    if removed || dir.weather.Calm? {
      var op := Unlink(Staging(k));
      forall s | Vacant(dir.codec, dir.disk, s) ensures Vacant(dir.codec, Append(dir.disk, op), s) {
        AsideKeepsContents(dir.codec, dir.disk, op, dir.Now());
        VacantMove(dir.codec, dir.disk, op, s);
      }
      dir.disk := Append(dir.disk, op);
    }
    return Failed(EmptyDump);
  }

  // ---- whole captures and whole histories -----------------------------------------------

  /** What `dump-screen` left in the staging file, and whether it reported success. */
  datatype Dump = Dump(data: seq<Byte>, complete: bool)

  /** A runtime transcript: what its manifest declares and what was read while copying it. */
  datatype Transcript = Transcript(path: string, declaredBytes: nat, declaredSha: string, copied: seq<Byte>)

  /** What one run finds outside the directory. */
  datatype Surroundings = Surroundings(
    identity: Option<Identity>, terminalPane: Option<nat>, dump: Dump, transcript: Option<Transcript>)

  predicate Verified(c: Codec, t: Transcript) {
    t.declaredBytes != 0 && |t.copied| == t.declaredBytes && c.sha(t.copied) == t.declaredSha
  }

  /** The complete captures a run can produce. */
  function Complete(c: Codec, s: Surroundings): set<seq<Byte>> {
    (if s.dump.complete && s.dump.data != [] then {s.dump.data} else {}) +
    (if s.transcript.Some? && Verified(c, s.transcript.value) then {s.transcript.value.copied} else {})
  }

  /** What an inventory and a transcript path can be. */
  predicate Plausible(req: Request, s: Surroundings) {
    && (s.identity.Some? ==> IsIdentityFor(req, s.identity.value))
    && (s.transcript.Some? ==> s.transcript.value.path != [])
  }

  /** The terminal can be captured. */
  predicate HasTerminal(s: Surroundings) {
    s.identity.Some? && s.terminalPane.Some? && s.dump.complete && s.dump.data != []
  }

  function TerminalSource(req: Request, identity: Identity, pane: nat): string {
    "session=" + req.session + ";tab_id=" + Decimal(identity.id) + ";tab_instance_id=" + identity.instanceId
    + ";pane_id=terminal_" + Decimal(pane)
  }

  function Blank(req: Request, source: Source, sourceIdentity: string, identity: Option<Identity>): Manifest {
    Manifest(1, req, None, Evidence(source, sourceIdentity, 0, "", identity))
  }

  function TerminalBlank(req: Request, s: Surroundings): Manifest
    requires s.identity.Some? && s.terminalPane.Some?
  {
    Blank(req, TerminalScrollback, TerminalSource(req, s.identity.value, s.terminalPane.value), s.identity)
  }

  ghost predicate EncodesToSomething(c: Codec) {
    forall m :: c.encode(m) != []
  }

  /**
   A committed capture: the manifest has this evidence, the destination holds exactly these bytes, and
   both are durable. A restart takes it if the request has names, and refuses it otherwise.
   */
  ghost predicate HoldsDurably(dir: Directory, req: Request, e: Evidence, data: seq<Byte>)
    reads dir
  {
    && DataAt(dir.disk, dir.Now(), Destination) == Some(data)
    && EvidenceAt(dir.codec, dir.disk, dir.Now()) == Some(e) && Matches(dir.codec, data, e)
    && Decide(dir.codec, req, dir.disk, dir.Now()) == Found(req, e)
    && dir.disk.pending == []
  }

  /** What a capture of `data` started on disk `d` does when nothing goes wrong. */
  function PlanFor(c: Codec, d: Disk, blank: Manifest, data: seq<Byte>): Plan {
    Plan(d.next, d.next + 1, c.encode(Filled(c, blank, d.next, data)), data)
  }

  /** Fills a fresh staging file and commits it. */
  method StageAndCommit(dir: Directory, req: Request, blank: Manifest, data: seq<Byte>, usable: bool)
    returns (r: Run<Evidence>)
    requires dir.Valid(req) && EncodesToSomething(dir.codec)
    requires IsBlankFor(req, blank) && Vacant(dir.codec, dir.disk, blank.evidence.source)
    modifies dir
    ensures dir.Valid(req)
    ensures old(dir.weather).Calm? ==> dir.weather.Calm?
    ensures r.Done? ==>
              && usable && data != []
              && r.value == Filled(dir.codec, blank, old(dir.disk).next, data).evidence
              && HoldsDurably(dir, req, r.value, data)
    ensures dir.books.good <= old(dir.books.good) + (if usable && data != [] then {data} else {})
    ensures r.Failed? ==> !r.why.Unadoptable? && r.why != Mismatch && (r.why == NoSource ==> !usable)
    ensures !r.Died? ==> AddsOnly(dir, old(dir.disk), blank.evidence.source)
    ensures old(dir.weather).Calm? && !(usable && data != []) ==>
              var cost := if usable then 3 else 2;
              dir.weather == Spent(old(dir.weather), cost) && r.Failed? == (old(dir.weather).left >= cost)
    ensures usable && data != [] ==>
              && Follows(PlanFor(dir.codec, old(dir.disk), blank, data), 0, 10,
                         old(dir.disk), old(dir.weather), dir.disk, dir.weather, r.Done?)
              && (old(dir.weather).Calm? ==> !r.Failed?)
  {
    ghost var start, outlook := dir.disk, dir.weather;
    ghost var p := PlanFor(dir.codec, start, blank, data);
    var f, k := CreateFilled(dir, req, false, data, p);
    if !f.Performed? {
      return Broken(f);
    }
    if !usable {
      return Failed(NoSource);
    }
    assert Staging(k) in dir.Now();
    r := CommitFilled(dir, req, k, blank, p, start, outlook);
  }

  /** The commit after a dump, counted from the disk and the weather before the dump. */
  method CommitFilled(dir: Directory, req: Request, k: Ino, blank: Manifest, ghost p: Plan,
                      ghost start: Disk, ghost outlook: Weather) returns (r: Run<Evidence>)
    requires dir.Valid(req) && k in dir.disk.inodes && k !in dir.books.sealed && Staging(k) in dir.Now()
    requires IsBlankFor(req, blank) && EncodesToSomething(dir.codec) && Vacant(dir.codec, dir.disk, blank.evidence.source)
    requires p == Plan(k, dir.disk.next, dir.codec.encode(Filled(dir.codec, blank, k, dir.disk.inodes[k].data)), dir.disk.inodes[k].data)
    requires Follows(p, 0, 2, start, outlook, dir.disk, dir.weather, true)
    modifies dir
    ensures dir.Valid(req)
    ensures r.Done? ==>
              && p.data != []
              && r.value == Filled(dir.codec, blank, k, p.data).evidence
              && HoldsDurably(dir, req, r.value, p.data)
    ensures dir.books.good <= old(dir.books.good) + (if p.data == [] then {} else {p.data})
    ensures r.Failed? ==> r.why in {IoError, EmptyDump, MissingDump}
    ensures !r.Died? ==> AddsOnly(dir, old(dir.disk), blank.evidence.source)
    ensures p.data != [] ==>
              && Follows(p, 0, 10, start, outlook, dir.disk, dir.weather, r.Done?)
              && (outlook.Calm? ==> !r.Failed?)
    ensures p.data == [] && outlook.Calm? ==> dir.weather == Spent(outlook, 3) && r.Failed? == (outlook.left >= 3)
  {
    ghost var d, w := dir.disk, dir.weather;
    r := CommitScrollbackCapture(dir, req, k, blank, p);
    if p.data != [] {
      FollowsOn(p, 0, 2, 8, 10, start, outlook, d, w, dir.disk, dir.weather, r.Done?);
    }
  }

  /** The transcript can be captured. */
  predicate HasTranscript(c: Codec, s: Surroundings) {
    s.transcript.Some? && Verified(c, s.transcript.value)
  }

  /** The operations a terminal that cannot be captured costs. */
  function Detour(s: Surroundings): nat {
    if HasTerminal(s) || s.identity.None? || s.terminalPane.None? then 0 else if s.dump.complete then 3 else 2
  }

  /** The terminal's dump is reported and durably in place. */
  ghost predicate CapturesTerminal(dir: Directory, req: Request, s: Surroundings, r: Run<Evidence>)
    reads dir
  {
    && r.Done? && HasTerminal(s) && HoldsDurably(dir, req, r.value, s.dump.data)
    && r.value == Filled(dir.codec, TerminalBlank(req, s), 0, s.dump.data).evidence
    && r.value.source == TerminalScrollback && r.value.identity == s.identity
    && r.value.bytes == |s.dump.data| && r.value.sha == dir.codec.sha(s.dump.data)
    && r.value.sourceIdentity == "session=" + req.session + ";tab_id=" + Decimal(s.identity.value.id)
                                 + ";tab_instance_id=" + s.identity.value.instanceId
                                 + ";pane_id=terminal_" + Decimal(s.terminalPane.value)
  }

  /** The transcript's verified copy is reported and durably in place. */
  ghost predicate CapturesTranscript(dir: Directory, req: Request, s: Surroundings, r: Run<Evidence>)
    reads dir
  {
    && r.Done? && HasTranscript(dir.codec, s) && HoldsDurably(dir, req, r.value, s.transcript.value.copied)
    && r.value.source == RuntimeTranscript && r.value.sourceIdentity == s.transcript.value.path
    && r.value.bytes == |s.transcript.value.copied| == s.transcript.value.declaredBytes
    && r.value.sha == s.transcript.value.declaredSha && r.value.identity == s.identity
  }

  /**
   A capture that starts after `lead` operations of a calm run: it is reported exactly when the process
   lives for ten more, and for those a useless terminal costs; the terminal is preferred.
   */
  ghost predicate CapturesCalmly(dir: Directory, req: Request, s: Surroundings, w: Weather, lead: nat, r: Run<Evidence>)
    reads dir
  {
    w.Calm? && (HasTerminal(s) || HasTranscript(dir.codec, s)) ==>
      && !r.Failed? && r.Done? == (w.left >= lead + Detour(s) + 10)
      && (r.Done? ==> if HasTerminal(s) then CapturesTerminal(dir, req, s, r) else CapturesTranscript(dir, req, s, r))
  }

  /**
   `capture_scrollback`: adopt, else capture the terminal, else copy the runtime transcript. Adopting
   fails for what it finds only when the request names no session or no tab; a new capture is durable
   when it is reported. In calm weather the ten operations of the capture happen in their order.
   */
  method CaptureScrollback(dir: Directory, req: Request, s: Surroundings) returns (r: Run<Evidence>)
    requires dir.Valid(req) && EncodesToSomething(dir.codec) && Plausible(req, s)
    modifies dir
    ensures dir.Valid(req)
    ensures old(dir.weather).Calm? ==> dir.weather.Calm?
    ensures r.Done? ==>
              && Holds(dir.codec, dir.disk, dir.Now())
              && Decide(dir.codec, req, dir.disk, dir.Now()) == Found(req, r.value)
              && (dir.disk.pending == [] || dir.disk == old(dir.disk))
    ensures dir.books.good <= old(dir.books.good) + Complete(dir.codec, s)
    ensures r.Failed? && r.why.Unadoptable? ==> r.why.decision == Invalid && !IsNamed(req)
    ensures r.Failed? ==> r.why != Mismatch && (r.why == NoSource ==> !HasTranscript(dir.codec, s))
    ensures var decision := Decide(dir.codec, req, old(dir.disk), old(dir.Now()));
            && (decision.Committed? || decision.Invalid? ==>
                  && dir.disk == old(dir.disk) && dir.weather == old(dir.weather)
                  && (r == Report(decision) || (dir.weather.Anything? && r == Failed(IoError))))
            && (decision.Staged? && old(dir.weather).Calm? ==>
                  && decision.staging in old(dir.Now())
                  && dir.disk == Promoted(old(dir.disk), decision.staging, old(dir.weather).left)
                  && r == if old(dir.weather).left >= 2 then Done(decision.evidence) else Died)
            && (decision.NoManifest? ==>
                  && CapturesCalmly(dir, req, s, old(dir.weather), 0, r)
                  && (r.Done? ==> CapturesTerminal(dir, req, s, r) || CapturesTranscript(dir, req, s, r))
                  && (HasTerminal(s) && old(dir.weather).Calm? ==>
                        Follows(PlanFor(dir.codec, old(dir.disk), TerminalBlank(req, s), s.dump.data), 0, 10,
                                old(dir.disk), old(dir.weather), dir.disk, dir.weather, r.Done?)))
            && (decision.Stale? ==> CapturesCalmly(dir, req, s, old(dir.weather), 2, r))
  {
    var adopted, retired := AdoptCaptureCommit(dir, req);
    if adopted.Died? {
      return Died;
    }
    if adopted.Failed? {
      return Failed(adopted.why);
    }
    if adopted.value.Some? {
      RestartAdopts(dir.codec, req, dir.ordered, dir.disk, dir.books);
      return Done(adopted.value.value);
    }
    r := CaptureAnew(dir, req, s);
  }

  /** What a run answers when it finds a capture, or one it refuses. */
  function Report(decision: Decision): Run<Evidence>
    requires decision.Committed? || decision.Invalid?
  {
    if decision.Committed? then Done(decision.evidence) else Failed(Unadoptable(Invalid))
  }

  /** Without a manifest: the terminal first, then the transcript. */
  method CaptureAnew(dir: Directory, req: Request, s: Surroundings) returns (r: Run<Evidence>)
    requires dir.Valid(req) && EncodesToSomething(dir.codec) && Plausible(req, s) && ManifestFile !in dir.Now()
    modifies dir
    ensures dir.Valid(req)
    ensures old(dir.weather).Calm? ==> dir.weather.Calm?
    ensures r.Done? ==>
              && Holds(dir.codec, dir.disk, dir.Now())
              && Decide(dir.codec, req, dir.disk, dir.Now()) == Found(req, r.value)
              && dir.disk.pending == []
              && (CapturesTerminal(dir, req, s, r) || CapturesTranscript(dir, req, s, r))
    ensures dir.books.good <= old(dir.books.good) + Complete(dir.codec, s)
    ensures r.Failed? ==> !r.why.Unadoptable? && r.why != Mismatch && (r.why == NoSource ==> !HasTranscript(dir.codec, s))
    ensures CapturesCalmly(dir, req, s, old(dir.weather), 0, r)
    ensures HasTerminal(s) && old(dir.weather).Calm? ==>
              Follows(PlanFor(dir.codec, old(dir.disk), TerminalBlank(req, s), s.dump.data), 0, 10,
                      old(dir.disk), old(dir.weather), dir.disk, dir.weather, r.Done?)
  {
    NoManifestIsVacant(dir.codec, req, dir.ordered, dir.disk, dir.books, TerminalScrollback);
    NoManifestIsVacant(dir.codec, req, dir.ordered, dir.disk, dir.books, RuntimeTranscript);
    r := DumpTerminal(dir, req, s);
    if !r.Failed? {
      return;
    }
    if s.transcript.None? {
      return Failed(NoSource);
    }
    r := CopyTranscript(dir, req, s);
  }

  /** The terminal attempt. */
  method DumpTerminal(dir: Directory, req: Request, s: Surroundings) returns (r: Run<Evidence>)
    requires dir.Valid(req) && EncodesToSomething(dir.codec) && Plausible(req, s)
    requires Vacant(dir.codec, dir.disk, TerminalScrollback) && Vacant(dir.codec, dir.disk, RuntimeTranscript)
    modifies dir
    ensures dir.Valid(req)
    ensures old(dir.weather).Calm? ==> dir.weather.Calm?
    ensures dir.books.good <= old(dir.books.good) + Complete(dir.codec, s)
    ensures r.Done? ==> CapturesTerminal(dir, req, s, r) && Holds(dir.codec, dir.disk, dir.Now())
    ensures r.Failed? ==> Vacant(dir.codec, dir.disk, RuntimeTranscript)
    ensures HasTerminal(s) ==>
              && Follows(PlanFor(dir.codec, old(dir.disk), TerminalBlank(req, s), s.dump.data), 0, 10,
                         old(dir.disk), old(dir.weather), dir.disk, dir.weather, r.Done?)
              && (old(dir.weather).Calm? ==> !r.Failed?)
    ensures !HasTerminal(s) && old(dir.weather).Calm? ==>
              dir.weather == Spent(old(dir.weather), Detour(s)) && r.Failed? == (old(dir.weather).left >= Detour(s))
  {
    if s.identity.None? || s.terminalPane.None? {
      return Failed(NoSource);
    }
    r := StageAndCommit(dir, req, TerminalBlank(req, s), s.dump.data, s.dump.complete);
  }

  /** `capture_runtime_transcript`. */
  method CopyTranscript(dir: Directory, req: Request, s: Surroundings) returns (r: Run<Evidence>)
    requires dir.Valid(req) && EncodesToSomething(dir.codec) && Plausible(req, s) && s.transcript.Some?
    requires Vacant(dir.codec, dir.disk, RuntimeTranscript)
    modifies dir
    ensures dir.Valid(req) && dir.books.good <= old(dir.books.good) + Complete(dir.codec, s)
    ensures old(dir.weather).Calm? ==> dir.weather.Calm?
    ensures r.Done? ==> CapturesTranscript(dir, req, s, r) && Holds(dir.codec, dir.disk, dir.Now())
    ensures r.Failed? ==> !r.why.Unadoptable? && r.why != Mismatch && (r.why == NoSource ==> !HasTranscript(dir.codec, s))
    ensures HasTranscript(dir.codec, s) && old(dir.weather).Calm? ==>
              !r.Failed? && r.Done? == (old(dir.weather).left >= 10)
  {
    var t := s.transcript.value;
    var blank := Blank(req, RuntimeTranscript, t.path, s.identity);
    r := StageAndCommit(dir, req, blank, t.copied, Verified(dir.codec, t));
  }

  /** A capture is durable, or a manifest that is refused is. */
  predicate IsFinal(c: Codec, req: Request, d: Disk) {
    var decision := Decide(c, req, d, Current(d));
    d.pending == [] && (decision.Committed? || decision.Invalid?)
  }

  /** Every run says what the disk says, unless it cannot read it. */
  ghost predicate AllReport(results: seq<Run<Evidence>>, from: nat, decision: Decision, w: Weather) {
    (decision.Committed? || decision.Invalid?) &&
    forall i :: from <= i < |results| ==>
                  results[i] == Report(decision) || (w.Anything? && results[i] == Failed(IoError))
  }

  lemma FinalForGood(c: Codec, req: Request, ordered: bool, d: Disk, b: Books, after: Disk)
    requires Inv(c, req, ordered, d, b) && IsFinal(c, req, d) && (after == d || CrashesTo(ordered, d, after))
    ensures IsFinal(c, req, after) && Decide(c, req, after, Current(after)) == Decide(c, req, d, Current(d))
  {
    if CrashesTo(ordered, d, after) {
      InvCrash(c, req, ordered, d, b, after);
      InvNow(c, req, ordered, d, b);
      ContentsStay(c, req, ordered, d, b, after, b, Current(d));
      RestartAdopts(c, req, ordered, d, b);
      RestartAdopts(c, req, ordered, after, b);
    }
  }

  /** One run of a history: the process may also die before it starts. */
  method OneRun(dir: Directory, req: Request, s: Surroundings) returns (r: Run<Evidence>)
    requires dir.Valid(req) && EncodesToSomething(dir.codec) && Plausible(req, s)
    modifies dir
    ensures dir.Valid(req)
    ensures r.Failed? ==> r.why != Mismatch && (r.why.Unadoptable? ==> r.why.decision == Invalid && !IsNamed(req))
    ensures dir.books.good <= old(dir.books.good) + Complete(dir.codec, s)
    ensures old(dir.weather).Calm? ==> dir.weather.Calm?
    ensures IsFinal(dir.codec, req, old(dir.disk)) ==>
              && IsFinal(dir.codec, req, dir.disk)
              && Decide(dir.codec, req, dir.disk, dir.Now()) == Decide(dir.codec, req, old(dir.disk), old(dir.Now()))
              && AllReport([r], 0, Decide(dir.codec, req, dir.disk, dir.Now()), old(dir.weather))
    ensures ManifestFile !in old(dir.Now()) && IsLongEnough(dir.codec, s, old(dir.weather)) ==>
              r.Done? && IsFinal(dir.codec, req, dir.disk) && Decide(dir.codec, req, dir.disk, dir.Now()) == Found(req, r.value)
  {
    ghost var before, books := dir.disk, dir.books;
    var died := dir.MayDie(req);
    if IsFinal(dir.codec, req, before) {
      FinalForGood(dir.codec, req, dir.ordered, before, books, dir.disk);
    }
    RestartAdopts(dir.codec, req, dir.ordered, dir.disk, dir.books);
    r := CaptureScrollback(dir, req, s);
  }

  /** Calm weather for long enough to capture what there is to capture. */
  predicate IsLongEnough(c: Codec, s: Surroundings, w: Weather) {
    w.Calm? && w.left > Detour(s) + 10 && (HasTerminal(s) || HasTranscript(c, s))
  }

  /**
   Any number of runs for one request, each cut short anywhere, with power failures in between. Once a
   capture is durable every later run reports it, or refuses it if its tab has no name; and in calm
   weather the first run captures what there is to capture.
   */
  method History(dir: Directory, req: Request, runs: seq<Surroundings>) returns (results: seq<Run<Evidence>>)
    requires dir.Valid(req) && EncodesToSomething(dir.codec)
    requires forall i :: 0 <= i < |runs| ==> Plausible(req, runs[i])
    modifies dir
    ensures dir.Valid(req) && |results| == |runs|
    ensures forall i :: 0 <= i < |runs| && results[i].Failed? ==>
              results[i].why != Mismatch && (results[i].why.Unadoptable? ==> results[i].why.decision == Invalid && !IsNamed(req))
    ensures forall g :: g in dir.books.good ==>
              g in old(dir.books.good) || exists i :: 0 <= i < |runs| && g in Complete(dir.codec, runs[i])
    ensures IsFinal(dir.codec, req, old(dir.disk)) ==>
              AllReport(results, 0, Decide(dir.codec, req, old(dir.disk), old(dir.Now())), old(dir.weather))
    ensures ManifestFile !in old(dir.Now()) && runs != [] && IsLongEnough(dir.codec, runs[0], old(dir.weather)) ==>
              results[0].Done? && AllReport(results, 1, Found(req, results[0].value), old(dir.weather))
  {
    results := [];
    ghost var captures := ManifestFile !in dir.Now() && runs != [] && IsLongEnough(dir.codec, runs[0], dir.weather);
    for i := 0 to |runs|
      invariant dir.Valid(req) && |results| == i
      invariant old(dir.weather).Calm? ==> dir.weather.Calm?
      invariant forall j :: 0 <= j < i && results[j].Failed? ==>
                  results[j].why != Mismatch && (results[j].why.Unadoptable? ==> results[j].why.decision == Invalid && !IsNamed(req))
      invariant forall g :: g in dir.books.good ==>
                  g in old(dir.books.good) || exists j :: 0 <= j < i && g in Complete(dir.codec, runs[j])
      invariant IsFinal(dir.codec, req, old(dir.disk)) ==>
                  && IsFinal(dir.codec, req, dir.disk)
                  && Decide(dir.codec, req, dir.disk, dir.Now()) == Decide(dir.codec, req, old(dir.disk), old(dir.Now()))
                  && AllReport(results, 0, Decide(dir.codec, req, dir.disk, dir.Now()), old(dir.weather))
      invariant captures && i == 0 ==> ManifestFile !in dir.Now() && IsLongEnough(dir.codec, runs[0], dir.weather)
      invariant captures && i > 0 ==>
                  && results[0].Done? && IsFinal(dir.codec, req, dir.disk)
                  && Decide(dir.codec, req, dir.disk, dir.Now()) == Found(req, results[0].value)
                  && AllReport(results, 1, Found(req, results[0].value), old(dir.weather))
    {
      var r := OneRun(dir, req, runs[i]);
      assert [r][0] == r;
      results := results + [r];
    }
  }

  // ---- histories that go wrong ----------------------------------------------------------

  /**
   A tab whose name, or whose session's name, is empty: the capture is reported and durable, and the
   very next run refuses it.
   */
  method NamelessCapture(dir: Directory, req: Request, s: Surroundings) returns (first: Run<Evidence>, second: Run<Evidence>)
    requires dir.Valid(req) && EncodesToSomething(dir.codec) && ManifestFile !in dir.Now()
    requires Plausible(req, s) && HasTerminal(s) && !IsNamed(req)
    modifies dir
    ensures first.Done? && HoldsDurably(dir, req, first.value, s.dump.data)
    ensures second == Failed(Unadoptable(Invalid)) && IsFinal(dir.codec, req, dir.disk)
  {
    RestartAdopts(dir.codec, req, dir.ordered, dir.disk, dir.books);
    dir.weather := Calm(10);
    first := CaptureScrollback(dir, req, s);
    second := CaptureScrollback(dir, req, s);
  }

  /** The disk right after the seventh operation, the manifest's rename. */
  function Installed(p: Plan, d: Disk): Disk {
    Disk(d.durable,
         d.pending + [Link(Staging(p.k), p.k), Link(Scratch(p.j), p.j), Move(Scratch(p.j), ManifestFile, p.j)],
         d.inodes[p.k := Inode(p.data, true)][p.j := Inode(p.manifest, true)],
         d.next + 2)
  }

  lemma SevenOperations(p: Plan, d: Disk)
    requires p.k == d.next && p.j == d.next + 1
    ensures After(p, 0, 7, d) == Installed(p, d)
  {
    var a1 := CreateFile(d, Staging(p.k));
    var a2 := WriteFile(a1, p.k, p.data);
    var a3 := SyncFile(a2, p.k);
    var a4 := CreateFile(a3, Scratch(p.j));
    var a5 := WriteFile(a4, p.j, p.manifest);
    var a6 := SyncFile(a5, p.j);
    assert After(p, 0, 0, d) == d;
    assert After(p, 0, 1, d) == a1;
    assert After(p, 0, 2, d) == a2;
    assert After(p, 0, 3, d) == a3;
    assert After(p, 0, 4, d) == a4;
    assert After(p, 0, 5, d) == a5;
    assert After(p, 0, 6, d) == a6;
    assert a6.inodes == Installed(p, d).inodes;
  }

  lemma InstalledNow(p: Plan, d: Disk)
    requires Scratch(p.j) !in Current(d) && p.j != p.k
    ensures Current(Installed(p, d)) == Current(d)[Staging(p.k) := p.k][ManifestFile := p.j]
  {
    var first, second := Link(Staging(p.k), p.k), Link(Scratch(p.j), p.j);
    var third := Move(Scratch(p.j), ManifestFile, p.j);
    var d1, d2 := Append(d, first), Append(Append(d, first), second);
    assert Installed(p, d).pending == Append(d2, third).pending;
    CurrentOfOneMore(d, first);
    CurrentOfOneMore(d1, second);
    CurrentOfOneMore(d2, third);
  }

  /** What a restart decides then: the capture is staged, or the destination happened to hold it already. */
  lemma InstalledDecides(c: Codec, req: Request, ordered: bool, d: Disk, b: Books, p: Plan, m: Manifest)
    requires Inv(c, req, ordered, d, b) && ManifestFile !in Current(d) && p.k == d.next && p.j == d.next + 1
    requires c.decode(p.manifest) == Some(m) && m.version == 1 && m.request == req && IsValidManifest(m)
    requires m.staging == Some(Staging(p.k)) && Matches(c, p.data, m.evidence)
    ensures var after := Installed(p, d);
            && Current(after) == Current(d)[Staging(p.k) := p.k][ManifestFile := p.j]
            && Decide(c, req, after, Current(after)) ==
                 if MatchesAt(c, d, Current(d), Destination, m.evidence)
                 then Committed(m.evidence) else Staged(Staging(p.k), m.evidence)
  {
    InvNow(c, req, ordered, d, b);
    InstalledNow(p, d);
    var after, now := Installed(p, d), Current(d)[Staging(p.k) := p.k][ManifestFile := p.j];
    assert DataAt(after, now, ManifestFile) == Some(p.manifest);
    assert DataAt(after, now, Staging(p.k)) == Some(p.data);
    assert DataAt(after, now, Destination) == DataAt(d, Current(d), Destination);
  }

  /** The manifest of a named request's capture is valid. */
  lemma FilledIsValid(c: Codec, req: Request, blank: Manifest, k: Ino, data: seq<Byte>)
    requires Lawful(c) && IsBlankFor(req, blank) && IsNamed(req) && data != []
    ensures var m := Filled(c, blank, k, data);
            && c.decode(c.encode(m)) == Some(m) && IsWrittenFor(req, m) && IsValidManifest(m) && Matches(c, data, m.evidence)
  {
    WrittenIsValidExactlyWhenAdoptable(req, Filled(c, blank, k, data));
  }

  /** A run killed right after it renamed the manifest, before it synced the directory. */
  method DieAfterInstall(dir: Directory, req: Request, s: Surroundings) returns (ghost p: Plan, ghost e: Evidence)
    requires dir.Valid(req) && EncodesToSomething(dir.codec) && ManifestFile !in dir.Now()
    requires Plausible(req, s) && HasTerminal(s) && IsNamed(req)
    modifies dir
    ensures dir.Valid(req)
    ensures dir.disk == Installed(p, old(dir.disk)) && p.k == old(dir.disk).next && p.j == p.k + 1
    ensures dir.Now() == old(dir.Now())[Staging(p.k) := p.k][ManifestFile := p.j]
    ensures e == Filled(dir.codec, TerminalBlank(req, s), 0, s.dump.data).evidence
    ensures dir.codec.decode(p.manifest) == Some(Filled(dir.codec, TerminalBlank(req, s), p.k, s.dump.data))
    ensures Decide(dir.codec, req, dir.disk, dir.Now()) ==
              if MatchesAt(dir.codec, old(dir.disk), old(dir.Now()), Destination, e)
              then Committed(e) else Staged(Staging(p.k), e)
  {
    RestartAdopts(dir.codec, req, dir.ordered, dir.disk, dir.books);
    ghost var d, b := dir.disk, dir.books;
    p := PlanFor(dir.codec, d, TerminalBlank(req, s), s.dump.data);
    e := Filled(dir.codec, TerminalBlank(req, s), 0, s.dump.data).evidence;
    dir.weather := Calm(7);
    var r := CaptureScrollback(dir, req, s);
    SevenOperations(p, d);
    FilledIsValid(dir.codec, req, TerminalBlank(req, s), p.k, s.dump.data);
    InstalledDecides(dir.codec, req, dir.ordered, d, b, p, Filled(dir.codec, TerminalBlank(req, s), p.k, s.dump.data));
  }

  /**
   Adoption answers from the directory as it reads now. A run dies after renaming the manifest, the
   next one after promoting the capture, both before their directory sync; the third reports the
   capture, and a power failure then takes it away, manifest and all.
   */
  method LostCommit(dir: Directory, req: Request, s: Surroundings)
    returns (r: Run<Evidence>, ghost after: Disk)
    requires dir.Valid(req) && EncodesToSomething(dir.codec)
    requires ManifestFile !in dir.Now() && dir.disk.pending == []
    requires Plausible(req, s) && HasTerminal(s) && IsNamed(req)
    modifies dir
    ensures dir.Valid(req)
    ensures r == Done(Filled(dir.codec, TerminalBlank(req, s), 0, s.dump.data).evidence)
    ensures Decide(dir.codec, req, dir.disk, dir.Now()) == Committed(r.value)
    ensures CrashesTo(dir.ordered, dir.disk, after) && Decide(dir.codec, req, after, Current(after)) == NoManifest
  {
    var p, e := DieAfterInstall(dir, req, s);
    r := ReportUnsynced(dir, req, s, e);
    EndsSurvive(dir.ordered, dir.disk);
    after := Surviving(dir.disk, dir.disk.durable);
  }

  /** A run that dies after promoting the staged capture, if it was not in place, and one that reports it. */
  method ReportUnsynced(dir: Directory, req: Request, s: Surroundings, ghost e: Evidence) returns (r: Run<Evidence>)
    requires dir.Valid(req) && EncodesToSomething(dir.codec) && Plausible(req, s)
    requires var decision := Decide(dir.codec, req, dir.disk, dir.Now());
             decision == Committed(e) || (decision.Staged? && decision.evidence == e)
    modifies dir
    ensures dir.Valid(req) && r == Done(e) && dir.disk.durable == old(dir.disk.durable)
    ensures Decide(dir.codec, req, dir.disk, dir.Now()) == Committed(e)
  {
    InvNow(dir.codec, req, dir.ordered, dir.disk, dir.books);
    ghost var before, decision := dir.disk, Decide(dir.codec, req, dir.disk, dir.Now());
    dir.weather := Calm(1);
    r := CaptureScrollback(dir, req, s);
    if decision.Staged? {
      AdoptingTwiceIsAdoptingOnce(dir.codec, req, before, dir.disk, decision.staging, e);
    }
    dir.weather := Calm(0);
    r := CaptureScrollback(dir, req, s);
  }

  /**
   Without ordered directory operations the retire branch is reachable: a run dies between the
   manifest rename and the directory sync, and the crash keeps the manifest but not its staging file.
   */
  method StaleManifest(dir: Directory, req: Request, s: Surroundings) returns (ghost after: Disk)
    requires dir.Valid(req) && EncodesToSomething(dir.codec) && !dir.ordered
    requires ManifestFile !in dir.Now() && dir.disk.pending == []
    requires Plausible(req, s) && HasTerminal(s) && IsNamed(req)
    requires !MatchesAt(dir.codec, dir.disk, dir.Now(), Destination,
                        Filled(dir.codec, TerminalBlank(req, s), 0, s.dump.data).evidence)
    modifies dir
    ensures dir.Valid(req)
    ensures CrashesTo(false, dir.disk, after) && Decide(dir.codec, req, after, Current(after)) == Stale
  {
    InvNow(dir.codec, req, dir.ordered, dir.disk, dir.books);
    ghost var d := dir.disk;
    var p, e := DieAfterInstall(dir, req, s);
    OnlyTheManifestSurvives(p, d);
    after := Surviving(dir.disk, ApplyOp(d.durable, Move(Scratch(p.j), ManifestFile, p.j)));
    FilledIsValid(dir.codec, req, TerminalBlank(req, s), p.k, s.dump.data);
  }

  lemma OnlyTheManifestSurvives(p: Plan, d: Disk)
    requires d.pending == []
    ensures Survives(false, d.durable, Installed(p, d).pending, ApplyOp(d.durable, Move(Scratch(p.j), ManifestFile, p.j)))
  {
    var ops := Installed(p, d).pending;
    assert ops[..2] == [Link(Staging(p.k), p.k), Link(Scratch(p.j), p.j)];
    assert ops[..2][..1] == [Link(Staging(p.k), p.k)];
    assert ops[..2][..1][..0] == [];
    assert Survives(false, d.durable, ops[..2][..1], d.durable);
    assert Survives(false, d.durable, ops[..2], d.durable);
  }
}
