/**
 One directory of the control plane as a disk sees it.

 A directory operation takes effect at once for every reader, but only a directory sync makes it
 durable; a write reaches the disk only with a file sync. A crash keeps the durable entries and some
 of the pending operations: a prefix of them when the file system writes its journal in order, any
 subsequence of them when it does not. Contents that were never synced come back as anything.
 */
module CaptureDisk {

  type Byte = nat
  type Ino = nat

  /** The names in the capture directory. `tempfile` never draws a serial twice. */
  datatype Name =
    | Destination
    | ManifestFile
    | Staging(serial: nat)
    | Scratch(serial: nat)
    | Retired(serial: nat)

  datatype Inode = Inode(data: seq<Byte>, stable: bool)

  type View = map<Name, Ino>

  datatype DirOp =
    | Link(name: Name, ino: Ino)
    | Move(from: Name, to: Name, ino: Ino)
    | Unlink(name: Name)

  datatype Disk = Disk(durable: View, pending: seq<DirOp>, inodes: map<Ino, Inode>, next: nat)

  function ApplyOp(v: View, op: DirOp): View {
    match op
    case Link(name, ino) => v[name := ino]
    case Move(from, to, ino) => (v - {from})[to := ino]
    case Unlink(name) => v - {name}
  }

  function Replay(v: View, ops: seq<DirOp>): View {
    if ops == [] then v else ApplyOp(Replay(v, ops[..|ops| - 1]), ops[|ops| - 1])
  }

  /** What every reader sees now. */
  function Current(d: Disk): View {
    Replay(d.durable, d.pending)
  }

  /** `v` can be what a crash leaves of `durable` and the pending operations. */
  ghost predicate Survives(ordered: bool, durable: View, ops: seq<DirOp>, v: View) {
    if ops == [] then v == durable else
      var before := ops[..|ops| - 1];
      || Survives(ordered, durable, before, v)
      || exists w: View ::
           && Survives(ordered, durable, before, w)
           && (ordered ==> w == Replay(durable, before))
           && v == ApplyOp(w, ops[|ops| - 1])
  }

  /** `after` is `d` after a crash and a restart. */
  ghost predicate CrashesTo(ordered: bool, d: Disk, after: Disk) {
    && Survives(ordered, d.durable, d.pending, after.durable)
    && after.pending == []
    && after.next == d.next
    && after.inodes.Keys == d.inodes.Keys
    && forall i :: i in d.inodes ==>
         after.inodes[i].stable && (d.inodes[i].stable ==> after.inodes[i].data == d.inodes[i].data)
  }

  /** The mildest crash that leaves `v`: every content reached the disk. */
  function Surviving(d: Disk, v: View): Disk {
    Disk(v, [], map i | i in d.inodes :: d.inodes[i].(stable := true), d.next)
  }

  lemma {:induction false} CurrentSurvives(ordered: bool, durable: View, ops: seq<DirOp>)
    ensures Survives(ordered, durable, ops, Replay(durable, ops))
  {
    if ops == [] {
    } else {
      CurrentSurvives(ordered, durable, ops[..|ops| - 1]);
    }
  }

  /** On an ordered file system a crash leaves exactly the replay of a prefix. */
  lemma {:induction false} OrderedSurvivorsArePrefixes(durable: View, ops: seq<DirOp>, v: View)
    ensures Survives(true, durable, ops, v) <==> exists k :: 0 <= k <= |ops| && v == Replay(durable, ops[..k])
  {
    assert ops[..|ops|] == ops;
    if ops == [] {
    } else {
      var before := ops[..|ops| - 1];
      OrderedSurvivorsArePrefixes(durable, before, v);
      CurrentSurvives(true, durable, before);
      if Survives(true, durable, before, v) {
        var k :| 0 <= k <= |before| && v == Replay(durable, before[..k]);
        assert before[..k] == ops[..k];
      }
      if k :| 0 <= k <= |ops| && v == Replay(durable, ops[..k]) {
        if k < |ops| {
          assert before[..k] == ops[..k];
        }
      }
    }
  }

  /** One more pending operation: a crash either loses it or applies it to something that survives. */
  lemma SurvivorsOfOneMore(ordered: bool, d: Disk, op: DirOp, v: View)
    requires Survives(ordered, d.durable, d.pending + [op], v)
    ensures
      || Survives(ordered, d.durable, d.pending, v)
      || exists w: View ::
           Survives(ordered, d.durable, d.pending, w) && (ordered ==> w == Current(d)) && v == ApplyOp(w, op)
  {
    assert (d.pending + [op])[..|d.pending|] == d.pending;
  }

  lemma CurrentOfOneMore(d: Disk, op: DirOp)
    ensures Replay(d.durable, d.pending + [op]) == ApplyOp(Current(d), op)
  {
    assert (d.pending + [op])[..|d.pending|] == d.pending;
  }

  // ---- the operations -------------------------------------------------------------------

  function Append(d: Disk, op: DirOp): Disk {
    d.(pending := d.pending + [op])
  }

  /** Creates an empty file whose inode number is the name's serial. */
  function CreateFile(d: Disk, name: Name): Disk {
    Append(d, Link(name, d.next)).(inodes := d.inodes[d.next := Inode([], false)], next := d.next + 1)
  }

  function WriteFile(d: Disk, ino: Ino, data: seq<Byte>): Disk {
    d.(inodes := d.inodes[ino := Inode(data, false)])
  }

  function SyncFile(d: Disk, ino: Ino): Disk
    requires ino in d.inodes
  {
    d.(inodes := d.inodes[ino := d.inodes[ino].(stable := true)])
  }

  function SyncDirectory(d: Disk): Disk {
    d.(durable := Current(d), pending := [])
  }
}
