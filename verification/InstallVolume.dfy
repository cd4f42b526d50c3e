/**
 The file system a staged install works in (`xtask/src/pipelines.rs`): inodes, directory entries, and
 what the absolute path of the install directory resolves to. Every system call may fail.
 */
module InstallVolume {
  import opened Results

  type Ino = nat
  type EntryKey = (Ino, string)

  datatype Kind = Regular | Directory | Special

  datatype Inode = Inode(kind: Kind, uid: nat, dev: nat, mode: nat, nlink: nat, data: seq<nat>)

  /** `parentPath` is the inode the absolute path of the install directory names, if any. */
  datatype FileSystem = FileSystem(
    inodes: map<Ino, Inode>, entries: map<EntryKey, Ino>, parentPath: Option<Ino>)

  /** The changes the installer itself makes to directories. */
  datatype Act =
    | Made(key: EntryKey, ino: Ino)
    | Removed(key: EntryKey, ino: Ino, expected: Ino)
    | Published(from: EntryKey, to: EntryKey, ino: Ino)

  datatype Hook = BeforeReservation | BeforeOpening | Preparation | Verification | BeforePublication

  /** What a run did and saw, in order: the hooks, the adoption of the payload, and the rename. */
  datatype Moment =
    | Hooked(hook: Hook, before: FileSystem, after: FileSystem)
    | Adopted(ino: Ino, at: FileSystem)
    | Renamed(ino: Ino, at: FileSystem)

  /** Every removal in `acts` hit the very inode the installer held open, or had recorded. */
  ghost predicate OnlyOwnRemovals(acts: seq<Act>) {
    forall a :: a in acts && a.Removed? ==> a.ino == a.expected
  }

  ghost predicate NeverPublished(acts: seq<Act>) {
    forall a :: a in acts ==> !a.Published?
  }

  /** Mode 0700. */
  const RWXU := 448

  /** No group or other permission bits. */
  predicate IsPrivate(mode: nat) {
    mode % 64 == 0
  }

  ghost predicate WellFormed(fs: FileSystem) {
    && (forall k :: k in fs.entries ==> fs.entries[k] in fs.inodes && k.0 in fs.inodes)
    && (fs.parentPath.Some? ==> fs.parentPath.value in fs.inodes)
  }

  function Entry(fs: FileSystem, dir: Ino, name: string): Option<Ino> {
    if (dir, name) in fs.entries then Some(fs.entries[(dir, name)]) else None
  }

  predicate IsKind(fs: FileSystem, ino: Ino, kind: Kind) {
    ino in fs.inodes && fs.inodes[ino].kind == kind
  }

  /** What a file inside the install directory's child `stage` resolves to by absolute path. */
  function PublicPayload(fs: FileSystem, stageName: string): Option<Ino> {
    match fs.parentPath
    case None => None
    case Some(parent) =>
      match Entry(fs, parent, stageName)
      case None => None
      case Some(stage) => Entry(fs, stage, "payload")
  }

  function Unlinked(fs: FileSystem, key: EntryKey): FileSystem
    requires key in fs.entries && fs.entries[key] in fs.inodes
  {
    var ino := fs.entries[key];
    var inode := fs.inodes[ino];
    fs.(entries := fs.entries - {key},
        inodes := fs.inodes[ino := inode.(nlink := if inode.nlink > 0 then inode.nlink - 1 else 0)])
  }

  function WithRename(fs: FileSystem, from: EntryKey, to: EntryKey): FileSystem
    requires from in fs.entries
  {
    fs.(entries := (fs.entries - {from})[to := fs.entries[from]])
  }

  predicate IsEmptyDirectory(fs: FileSystem, ino: Ino) {
    forall k :: k in fs.entries ==> k.0 != ino
  }

  /** No inode is lost, and none changes its kind. */
  ghost predicate KeepsKinds(fs: FileSystem, after: FileSystem) {
    forall i :: i in fs.inodes ==> i in after.inodes && after.inodes[i].kind == fs.inodes[i].kind
  }

  /** No file that was there has other contents. */
  ghost predicate KeepsContents(fs: FileSystem, after: FileSystem) {
    forall i :: i in fs.inodes ==> i in after.inodes && after.inodes[i].data == fs.inodes[i].data
  }

  /** The inodes in `held` are still there, as what they were. */
  ghost predicate KeepsHeld(fs: FileSystem, after: FileSystem, held: set<Ino>) {
    forall i :: i in held && i in fs.inodes ==> i in after.inodes && after.inodes[i].kind == fs.inodes[i].kind
  }

  /** A hook may do anything, but an inode somebody holds open stays, as what it is and where it is. */
  ghost predicate HookMay(fs: FileSystem, after: FileSystem, held: set<Ino>) {
    && WellFormed(after)
    && forall i :: i in held && i in fs.inodes ==>
         i in after.inodes && after.inodes[i].kind == fs.inodes[i].kind && after.inodes[i].dev == fs.inodes[i].dev
  }

  class Volume {
    const euid: nat
    var fs: FileSystem
    ghost var log: seq<Act>
    ghost var trace: seq<Moment>
    /** A hook has changed the file system. */
    ghost var touched: bool
    /** A system call has failed that had no reason in the file system's state. */
    ghost var faulty: bool
    /** A hook has reported a failure. */
    ghost var refused: bool

    constructor (euid: nat, fs: FileSystem)
      requires WellFormed(fs)
      ensures this.euid == euid && this.fs == fs && log == [] && trace == [] && !touched && !faulty && !refused
    {
      this.euid, this.fs, log, trace, touched, faulty, refused := euid, fs, [], [], false, false, false;
    }

    /** Nobody but the installer has done anything. */
    ghost predicate Undisturbed()
      reads this
    {
      !touched && !faulty && !refused
    }

    /** A spurious system call failure. */
    method Fails() returns (b: bool)
      modifies this`faulty
      ensures faulty == (old(faulty) || b)
    {
      b := *;
      faulty := faulty || b;
    }

    /** Removes an entry that names `expected`. */
    method Unlink(key: EntryKey, expected: Ino)
      requires WellFormed(fs) && key in fs.entries && fs.entries[key] == expected
      modifies this`fs, this`log
      ensures WellFormed(fs) && KeepsKinds(old(fs), fs)
      ensures fs == Unlinked(old(fs), key)
      ensures log == old(log) + [Removed(key, expected, expected)]
      ensures OnlyOwnRemovals(old(log)) ==> OnlyOwnRemovals(log)
      ensures NeverPublished(old(log)) ==> NeverPublished(log)
    {
      log := log + [Removed(key, fs.entries[key], expected)];
      fs := Unlinked(fs, key);
    }

    /** Renames an entry, over whatever the new name stood for. */
    method Rename(from: EntryKey, to: EntryKey)
      requires WellFormed(fs) && from in fs.entries && to.0 in fs.inodes
      modifies this`fs, this`log, this`trace
      ensures WellFormed(fs) && fs == WithRename(old(fs), from, to)
      ensures log == old(log) + [Published(from, to, old(fs).entries[from])]
      ensures OnlyOwnRemovals(old(log)) ==> OnlyOwnRemovals(log)
      ensures trace == old(trace) + [Renamed(old(fs).entries[from], old(fs))]
    {
      log := log + [Published(from, to, fs.entries[from])];
      trace := trace + [Renamed(fs.entries[from], fs)];
      fs := WithRename(fs, from, to);
    }

    /** The inode number the kernel gives a new file; running out of them counts as a failure. */
    method NewInode() returns (ino: Option<Ino>)
      modifies this`faulty
      ensures old(faulty) ==> faulty
      ensures ino.None? ==> faulty
      ensures ino.Some? ==> ino.value !in fs.inodes && faulty == old(faulty)
    {
      var candidate: nat :| true;
      if candidate in fs.inodes {
        faulty := true;
        return None;
      }
      return Some(candidate);
    }

    /** Runs one of the install hooks on its outside effects. */
    method RunHook(hook: Hook, held: set<Ino>) returns (ok: bool)
      requires WellFormed(fs)
      modifies this`fs, this`touched, this`refused, this`trace
      ensures refused == (old(refused) || !ok)
      ensures HookMay(old(fs), fs, held)
      ensures trace == old(trace) + [Hooked(hook, old(fs), fs)]
      ensures old(touched) ==> touched
      ensures !touched ==> fs == old(fs)
    {
      ok := *;
      refused := refused || !ok;
      var change: bool := *;
      if change {
        var inodes: map<Ino, Inode> := *;
        var entries: map<EntryKey, Ino> := *;
        var parentPath: Option<Ino> := *;
        var keeps := map i | i in fs.inodes && i in held ::
          if i in inodes then inodes[i].(kind := fs.inodes[i].kind, dev := fs.inodes[i].dev) else fs.inodes[i];
        inodes := inodes + keeps;
        entries := map k | k in entries && entries[k] in inodes && k.0 in inodes :: entries[k];
        if parentPath.Some? && parentPath.value !in inodes {
          parentPath := None;
        }
        touched := true;
        fs := FileSystem(inodes, entries, parentPath);
      }
      trace := trace + [Hooked(hook, old(fs), fs)];
    }
  }
}
