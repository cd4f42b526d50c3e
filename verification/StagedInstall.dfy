/**
 The staged atomic install (`xtask/src/pipelines.rs`): a private stage directory beside the
 destination, a payload that is copied, signed, adopted and verified there, publication by one rename,
 and a cleanup that removes nothing but the installer's own entries.
 */
module StagedInstall {
  import opened Results
  import opened InstallVolume

  datatype Error =
    | CallFailed | HookFailed | ChangedIdentity | Disappeared | NotPrivate | NotRegular | NoStageName | NotEmpty

  /** The opened source: its inode and the mode it had when it was opened. */
  datatype Source = Source(ino: Ino, mode: nat)

  // ---- the reservation guard ------------------------------------------------------------

  /** `StageDirectoryReservation`: removes the new stage directory unless it is disarmed. */
  class Reservation {
    const vol: Volume
    const parent: Ino
    const stageName: string
    var expected: Option<Ino>
    var active: bool

    constructor (vol: Volume, parent: Ino, stageName: string)
      ensures this.vol == vol && this.parent == parent && this.stageName == stageName
      ensures expected == None && active
    {
      this.vol, this.parent, this.stageName, expected, active := vol, parent, stageName, None, true;
    }

    /** `validate_owned_directory`. */
    predicate IsOwned(fs: FileSystem, ino: Ino) {
      && IsKind(fs, ino, Directory) && parent in fs.inodes
      && fs.inodes[ino].uid == vol.euid
      && fs.inodes[ino].dev == fs.inodes[parent].dev
      && IsPrivate(fs.inodes[ino].mode)
    }

    method CaptureIdentity() returns (r: Result<(), Error>)
      requires WellFormed(vol.fs)
      modifies this`expected, vol`faulty
      ensures old(vol.faulty) ==> vol.faulty
      ensures r.Ok? ==> expected.Some? && Entry(vol.fs, parent, stageName) == expected && IsOwned(vol.fs, expected.value)
      ensures r.Err? ==> expected == old(expected)
      ensures r.Err? ==> vol.faulty || Entry(vol.fs, parent, stageName).None?
                         || !IsOwned(vol.fs, Entry(vol.fs, parent, stageName).value)
      ensures r.Ok? ==> vol.faulty == old(vol.faulty)
    {
      var fails := vol.Fails();
      var entry := Entry(vol.fs, parent, stageName);
      if fails || entry.None? {
        return Err(CallFailed);
      }
      if !IsOwned(vol.fs, entry.value) {
        return Err(NotPrivate);
      }
      expected := entry;
      return Ok(());
    }

    /** The guard's `Drop`. */
    method Drop()
      requires WellFormed(vol.fs)
      modifies vol`fs, vol`faulty, vol`log
      ensures WellFormed(vol.fs) && (old(vol.faulty) ==> vol.faulty)
      ensures !active ==> vol.fs == old(vol.fs) && vol.log == old(vol.log) && vol.faulty == old(vol.faulty)
      ensures vol.fs.parentPath == old(vol.fs).parentPath
      ensures
        || (vol.fs == old(vol.fs) && vol.log == old(vol.log))
        || (&& expected.Some? && Entry(old(vol.fs), parent, stageName) == expected
            && vol.fs == Unlinked(old(vol.fs), (parent, stageName))
            && vol.log == old(vol.log) + [Removed((parent, stageName), expected.value, expected.value)])
      ensures !vol.faulty && active && expected.Some? && Entry(old(vol.fs), parent, stageName) == expected
              && IsKind(old(vol.fs), expected.value, Directory) && IsEmptyDirectory(old(vol.fs), expected.value)
              ==> vol.fs == Unlinked(old(vol.fs), (parent, stageName))
      ensures vol.fs != old(vol.fs) ==>
                IsKind(old(vol.fs), expected.value, Directory) && IsEmptyDirectory(old(vol.fs), expected.value)
    {
      if active && expected.Some? {
        var fails := vol.Fails();
        var entry := Entry(vol.fs, parent, stageName);
        if !fails && entry == expected && IsKind(vol.fs, entry.value, Directory) {
          fails := vol.Fails();
          if !fails && IsEmptyDirectory(vol.fs, entry.value) {
            vol.Unlink((parent, stageName), expected.value);
          }
        }
      }
    }
  }

  // ---- what an undisturbed install has added to the directories ----------------------------

  const PAYLOAD := "payload"

  datatype Place = Place(parent: Ino, stageName: string, stage: Ino)
  {
    function StageKey(): EntryKey { (parent, stageName) }
    function PayloadKey(): EntryKey { (stage, PAYLOAD) }
  }

  function OwnEntries(base: map<EntryKey, Ino>, at: Place, payload: Option<Ino>, directory: bool): map<EntryKey, Ino> {
    var withStage := if directory then base[at.StageKey() := at.stage] else base;
    if payload.Some? then withStage[at.PayloadKey() := payload.value] else withStage
  }

  /** The directories hold the entries of `base` and the installer's own, and nothing else. */
  ghost predicate IsTidy(fs: FileSystem, base: map<EntryKey, Ino>, at: Place, payload: Option<Ino>, directory: bool) {
    && (payload.Some? ==> IsKind(fs, payload.value, Regular))
    && at.parent != at.stage
    && at.StageKey() !in base
    && (forall k :: k in base ==> k.0 != at.stage)
    && fs.entries == OwnEntries(base, at, payload, directory)
  }

  lemma TidyWithoutPayload(fs: FileSystem, base: map<EntryKey, Ino>, at: Place, payload: Ino, directory: bool)
    requires IsTidy(fs, base, at, Some(payload), directory)
    ensures Entry(fs, at.stage, PAYLOAD) == Some(payload) && IsKind(fs, payload, Regular)
    ensures IsTidy(Unlinked(fs, at.PayloadKey()), base, at, None, directory)
  {
    assert fs.entries - {at.PayloadKey()} == OwnEntries(base, at, None, directory);
  }

  lemma TidyWithoutDirectory(fs: FileSystem, base: map<EntryKey, Ino>, at: Place)
    requires IsTidy(fs, base, at, None, true) && at.stage in fs.inodes
    ensures Entry(fs, at.parent, at.stageName) == Some(at.stage) && IsEmptyDirectory(fs, at.stage)
    ensures IsTidy(Unlinked(fs, at.StageKey()), base, at, None, false)
  {
    assert fs.entries - {at.StageKey()} == base;
  }

  // ---- the staged install ---------------------------------------------------------------

  class Installer {
    const vol: Volume
    const parent: Ino
    const destinationName: string
    const stageName: string
    const stage: Ino
    var payloadFile: Option<Ino>
    var expectedMode: Option<nat>
    var payloadActive: bool
    var directoryActive: bool

    constructor (vol: Volume, parent: Ino, destinationName: string, stageName: string, stage: Ino)
      ensures this.vol == vol && this.parent == parent && this.destinationName == destinationName
      ensures this.stageName == stageName && this.stage == stage
      ensures payloadFile == None && expectedMode == None && !payloadActive && directoryActive
    {
      this.vol, this.parent, this.destinationName := vol, parent, destinationName;
      this.stageName, this.stage := stageName, stage;
      payloadFile, expectedMode, payloadActive, directoryActive := None, None, false, true;
    }

    /** The inodes this installer holds open. */
    function Held(): set<Ino>
      reads this
    {
      {parent, stage} + (if payloadFile.Some? then {payloadFile.value} else {})
    }

    ghost predicate Valid()
      reads this, vol
    {
      && WellFormed(vol.fs) && OnlyOwnRemovals(vol.log) && Held() <= vol.fs.inodes.Keys
      && IsKind(vol.fs, parent, Directory) && IsKind(vol.fs, stage, Directory) && parent != stage
      && (payloadActive ==> payloadFile.Some?)
    }

    // -- what the repeated checks establish

    /** `revalidate_stage_directory`. */
    predicate StageOk(fs: FileSystem) {
      && fs.parentPath == Some(parent)
      && IsKind(fs, parent, Directory) && IsKind(fs, stage, Directory)
      && fs.inodes[stage].uid == vol.euid && fs.inodes[stage].mode == RWXU
      && fs.inodes[stage].dev == fs.inodes[parent].dev
      && Entry(fs, parent, stageName) == Some(stage)
    }

    /** A stage directory that only lacks its final mode. */
    predicate IsUsableStage(fs: FileSystem) {
      && fs.parentPath == Some(parent)
      && IsKind(fs, parent, Directory) && IsKind(fs, stage, Directory)
      && fs.inodes[stage].uid == vol.euid && fs.inodes[stage].dev == fs.inodes[parent].dev
      && Entry(fs, parent, stageName) == Some(stage)
    }

    /** `revalidate_destination_entry`. */
    predicate DestinationOk(fs: FileSystem) {
      var destination := Entry(fs, parent, destinationName);
      destination.Some? ==> IsKind(fs, destination.value, Regular)
    }

    /** `validate_payload_stat`. */
    predicate PayloadStatOk(fs: FileSystem, ino: Ino, mode: Option<nat>) {
      && IsKind(fs, ino, Regular) && stage in fs.inodes
      && fs.inodes[ino].uid == vol.euid && fs.inodes[ino].dev == fs.inodes[stage].dev
      && fs.inodes[ino].nlink == 1
      && (mode.Some? ==> fs.inodes[ino].mode == mode.value)
    }

    /** `revalidate_payload` for the payload inode `ino`. */
    predicate PayloadOk(fs: FileSystem, ino: Ino, mode: Option<nat>) {
      && StageOk(fs)
      && Entry(fs, stage, PAYLOAD) == Some(ino)
      && PayloadStatOk(fs, ino, mode)
      && PublicPayload(fs, stageName) == Some(ino)
    }

    // -- what is left to clean up

    /** The payload entry still to be cleaned up, if any. */
    function ActivePayload(): Option<Ino>
      reads this
    {
      if payloadActive then payloadFile else None
    }

    /** Nobody else has touched the directories since `base`. */
    ghost predicate Tidy(base: map<EntryKey, Ino>)
      reads this, vol
    {
      && (payloadActive ==> payloadFile.Some?)
      && IsTidy(vol.fs, base, Place(parent, stageName, stage), ActivePayload(), directoryActive)
    }

    // -- the steps

    method RevalidateStageDirectory() returns (r: Result<(), Error>)
      requires Valid()
      modifies vol`faulty
      ensures old(vol.faulty) ==> vol.faulty
      ensures r.Ok? ==> StageOk(vol.fs)
      ensures r.Err? ==> vol.faulty || !StageOk(vol.fs)
      ensures r.Ok? ==> vol.faulty == old(vol.faulty)
    {
      var fails := vol.Fails();
      r := if fails then Err(CallFailed) else if StageOk(vol.fs) then Ok(()) else Err(ChangedIdentity);
    }

    method RevalidatePayload() returns (r: Result<(), Error>)
      requires Valid() && payloadFile.Some?
      modifies vol`faulty
      ensures old(vol.faulty) ==> vol.faulty
      ensures r.Ok? ==> PayloadOk(vol.fs, payloadFile.value, expectedMode)
      ensures r.Err? ==> vol.faulty || !PayloadOk(vol.fs, payloadFile.value, expectedMode)
      ensures r.Ok? ==> vol.faulty == old(vol.faulty)
    {
      r := RevalidateStageDirectory();
      if r.Err? {
        return;
      }
      var fails := vol.Fails();
      var entry := Entry(vol.fs, stage, PAYLOAD);
      if fails {
        return Err(CallFailed);
      }
      if entry.None? {
        return Err(Disappeared);
      }
      if entry != payloadFile || !IsKind(vol.fs, entry.value, Regular) {
        return Err(ChangedIdentity);
      }
      if !PayloadStatOk(vol.fs, payloadFile.value, expectedMode) {
        return Err(NotPrivate);
      }
      r := if PublicPayload(vol.fs, stageName) == payloadFile then Ok(()) else Err(ChangedIdentity);
    }

    /** `revalidate_prepared_payload_path`: whatever inode is there now, before it is adopted. */
    method RevalidatePreparedPayloadPath() returns (r: Result<(), Error>)
      requires Valid()
      modifies vol`faulty
      ensures old(vol.faulty) ==> vol.faulty
      ensures r.Ok? ==> Entry(vol.fs, stage, PAYLOAD).Some? && PayloadOk(vol.fs, Entry(vol.fs, stage, PAYLOAD).value, expectedMode)
      ensures r.Err? ==> vol.faulty || Entry(vol.fs, stage, PAYLOAD).None?
                         || !PayloadOk(vol.fs, Entry(vol.fs, stage, PAYLOAD).value, expectedMode)
      ensures r.Ok? ==> vol.faulty == old(vol.faulty)
    {
      r := RevalidateStageDirectory();
      if r.Err? {
        return;
      }
      var fails := vol.Fails();
      var entry := Entry(vol.fs, stage, PAYLOAD);
      if fails || entry.None? {
        return Err(Disappeared);
      }
      if !PayloadStatOk(vol.fs, entry.value, expectedMode) {
        return Err(NotPrivate);
      }
      r := if PublicPayload(vol.fs, stageName) == entry then Ok(()) else Err(ChangedIdentity);
    }

    /** `harden_private_directory`. */
    method HardenPrivateDirectory(ghost base: map<EntryKey, Ino>) returns (r: Result<(), Error>)
      requires Valid()
      modifies vol`fs, vol`faulty
      ensures Valid() && (old(vol.faulty) ==> vol.faulty)
      ensures KeepsKinds(old(vol.fs), vol.fs)
      ensures old(Tidy(base)) ==> Tidy(base)
      ensures r.Ok? ==> StageOk(vol.fs)
      ensures KeepsContents(old(vol.fs), vol.fs) && vol.fs.entries == old(vol.fs).entries
      ensures r.Err? ==> vol.faulty || !IsUsableStage(old(vol.fs))
      ensures DestinationOk(old(vol.fs)) ==> DestinationOk(vol.fs)
      ensures NeverPublished(old(vol.log)) ==> NeverPublished(vol.log)
      ensures r.Ok? ==> vol.faulty == old(vol.faulty)
    {
      var fails := vol.Fails();
      if fails {
        return Err(CallFailed);
      }
      vol.fs := vol.fs.(inodes := vol.fs.inodes[stage := vol.fs.inodes[stage].(mode := RWXU)]);
      r := RevalidateStageDirectory();
    }

    /** A new empty file in a stage that is as it should be. */
    lemma NewPayloadIsOk(fs: FileSystem, unused: Ino, umasked: nat)
      requires StageOk(fs) && unused !in fs.inodes && (stage, PAYLOAD) !in fs.entries && parent != stage
      ensures PayloadOk(WithPayload(fs, unused, umasked), unused, None)
    {}

    function WithPayload(fs: FileSystem, unused: Ino, umasked: nat): FileSystem
      requires stage in fs.inodes
    {
      fs.(inodes := fs.inodes[unused := Inode(Regular, vol.euid, fs.inodes[stage].dev, umasked, 1, [])],
          entries := fs.entries[(stage, PAYLOAD) := unused])
    }

    /** The exclusive creation itself. */
    method MakePayload(unused: Ino, umasked: nat, ghost base: map<EntryKey, Ino>)
      requires Valid() && unused !in vol.fs.inodes && !payloadActive && (stage, PAYLOAD) !in vol.fs.entries
      modifies this`payloadFile, this`payloadActive, vol`fs, vol`log
      ensures Valid() && payloadFile == Some(unused) && payloadActive
      ensures vol.fs == WithPayload(old(vol.fs), unused, umasked)
      ensures vol.log == old(vol.log) + [Made((stage, PAYLOAD), unused)]
      ensures old(Tidy(base)) ==> Tidy(base)
      ensures StageOk(old(vol.fs)) ==> PayloadOk(vol.fs, unused, None)
    {
      if StageOk(vol.fs) {
        NewPayloadIsOk(vol.fs, unused, umasked);
      }
      vol.log := vol.log + [Made((stage, PAYLOAD), unused)];
      vol.fs := WithPayload(vol.fs, unused, umasked);
      payloadFile, payloadActive := Some(unused), true;
    }

    /** `create_payload`: exclusive creation, so the entry is this installer's own new inode. */
    method CreatePayload(unused: Ino, umasked: nat, ghost base: map<EntryKey, Ino>) returns (r: Result<(), Error>)
      requires Valid() && unused !in vol.fs.inodes && payloadFile == None && expectedMode == None && !payloadActive
      modifies this`payloadFile, this`payloadActive, vol`fs, vol`faulty, vol`log
      ensures Valid() && (old(vol.faulty) ==> vol.faulty)
      ensures payloadActive ==>
                && payloadFile == Some(unused)
                && (stage, PAYLOAD) !in old(vol.fs).entries
                && vol.fs.entries == old(vol.fs).entries[(stage, PAYLOAD) := unused]
                && vol.log == old(vol.log) + [Made((stage, PAYLOAD), unused)]
      ensures !payloadActive ==> vol.fs == old(vol.fs) && vol.log == old(vol.log) && payloadFile == None
      ensures KeepsKinds(old(vol.fs), vol.fs)
      ensures old(Tidy(base)) ==> Tidy(base)
      ensures r.Ok? ==> payloadActive && PayloadOk(vol.fs, unused, None)
      ensures KeepsContents(old(vol.fs), vol.fs)
      ensures r.Err? ==> vol.faulty || (stage, PAYLOAD) in old(vol.fs).entries || !StageOk(old(vol.fs))
      ensures DestinationOk(old(vol.fs)) ==> DestinationOk(vol.fs)
      ensures NeverPublished(old(vol.log)) ==> NeverPublished(vol.log)
      ensures r.Ok? ==> vol.faulty == old(vol.faulty)
    {
      var fails := vol.Fails();
      if fails || (stage, PAYLOAD) in vol.fs.entries {
        return Err(CallFailed);
      }
      MakePayload(unused, umasked, base);
      r := RevalidatePayload();
    }

    /** `copy_source`: the open source's bytes and mode go to the open payload. */
    method CopySource(source: Source, ghost base: map<EntryKey, Ino>) returns (r: Result<(), Error>)
      requires Valid() && payloadFile.Some? && source.ino in vol.fs.inodes
      modifies this`expectedMode, vol`fs, vol`faulty
      ensures Valid() && (old(vol.faulty) ==> vol.faulty)
      ensures KeepsKinds(old(vol.fs), vol.fs)
      ensures old(Tidy(base)) ==> Tidy(base)
      ensures r.Ok? ==>
                && expectedMode == Some(source.mode)
                && PayloadOk(vol.fs, payloadFile.value, expectedMode)
                && vol.fs.inodes[payloadFile.value].data == old(vol.fs).inodes[source.ino].data
      ensures vol.fs.entries == old(vol.fs).entries
      ensures vol.fs.inodes[source.ino].data == old(vol.fs).inodes[source.ino].data
      ensures r.Err? ==> vol.faulty || !PayloadOk(old(vol.fs), payloadFile.value, None)
      ensures r.Ok? ==> vol.faulty == old(vol.faulty)
    {
      var fails := vol.Fails();
      if fails {
        return Err(CallFailed);
      }
      var file := payloadFile.value;
      vol.fs := vol.fs.(inodes := vol.fs.inodes[file :=
        vol.fs.inodes[file].(data := vol.fs.inodes[source.ino].data, mode := source.mode)]);
      expectedMode := Some(source.mode);
      r := RevalidatePayload();
    }

    /** `adopt_payload_after_preparation`: opens whatever the preparation left and holds on to it. */
    method AdoptPayload(ghost base: map<EntryKey, Ino>) returns (r: Result<(), Error>)
      requires Valid()
      modifies this`payloadFile, vol`faulty, vol`trace
      ensures Valid() && (old(vol.faulty) ==> vol.faulty)
      ensures old(vol.trace) <= vol.trace
      ensures r.Ok? ==> payloadFile.Some? && vol.trace == old(vol.trace) + [Adopted(payloadFile.value, vol.fs)]
      ensures old(Tidy(base)) && payloadActive ==> Tidy(base)
      ensures old(payloadFile).Some? ==> payloadFile.Some?
      ensures payloadFile == old(payloadFile) || payloadFile == Entry(vol.fs, stage, PAYLOAD)
      ensures r.Ok? ==> payloadFile.Some? && PayloadOk(vol.fs, payloadFile.value, expectedMode)
      ensures r.Err? ==> vol.faulty || Entry(vol.fs, stage, PAYLOAD).None?
                         || !PayloadOk(vol.fs, Entry(vol.fs, stage, PAYLOAD).value, expectedMode)
      ensures r.Ok? ==> vol.faulty == old(vol.faulty)
    {
      var fails := vol.Fails();
      var entry := Entry(vol.fs, stage, PAYLOAD);
      if fails || entry.None? || IsKind(vol.fs, entry.value, Directory) {
        return Err(CallFailed);
      }
      payloadFile := entry;
      vol.trace := vol.trace + [Adopted(entry.value, vol.fs)];
      r := RevalidatePayload();
    }

    /** What publishing and removing the stage leave of undisturbed directories. */
    lemma PublishedIsTidy(fs: FileSystem, base: map<EntryKey, Ino>, payload: Ino)
      requires IsTidy(fs, base, Place(parent, stageName, stage), Some(payload), true)
      requires stageName != destinationName
      ensures var renamed := WithRename(fs, (stage, PAYLOAD), (parent, destinationName));
              && IsEmptyDirectory(renamed, stage)
              && Entry(renamed, parent, stageName) == Some(stage)
              && renamed.entries - {(parent, stageName)} == base[(parent, destinationName) := payload]
    {}

    /** Nobody else has touched the directories, in which the stage still stands. */
    ghost predicate TidyStage(base: map<EntryKey, Ino>)
      reads this, vol
    {
      payloadFile.Some? && IsTidy(vol.fs, base, Place(parent, stageName, stage), payloadFile, true)
    }

    /** The rename, and the removal of the stage, which may fail. */
    method RenamePayload(ghost base: map<EntryKey, Ino>)
      requires Valid() && payloadFile.Some? && payloadActive
      requires PayloadOk(vol.fs, payloadFile.value, expectedMode) && stageName != destinationName
      modifies this`payloadActive, this`directoryActive, vol`fs, vol`faulty, vol`log, vol`trace
      ensures Valid() && !payloadActive && (old(vol.faulty) ==> vol.faulty)
      ensures vol.trace == old(vol.trace) + [Renamed(payloadFile.value, old(vol.fs))]
      ensures Entry(vol.fs, parent, destinationName) == payloadFile && vol.fs.parentPath == Some(parent)
      ensures vol.fs.inodes[payloadFile.value] == old(vol.fs).inodes[payloadFile.value]
      ensures Published((stage, PAYLOAD), (parent, destinationName), payloadFile.value) in vol.log
      ensures !vol.faulty && old(TidyStage(base)) ==>
                !directoryActive && vol.fs.entries == base[(parent, destinationName) := payloadFile.value]
    {
      if TidyStage(base) {
        PublishedIsTidy(vol.fs, base, payloadFile.value);
      }
      vol.Rename((stage, PAYLOAD), (parent, destinationName));
      payloadActive := false;
      var failed := RemoveStageDirectory();
    }

    /**
     `publish`. On success the destination entry names the payload inode and the install path still
     names the directory it is in; on failure nothing was renamed.
     */
    method Publish(ghost base: map<EntryKey, Ino>) returns (r: Result<bool, Error>)
      requires Valid() && payloadFile.Some? && payloadActive
      modifies this`payloadActive, this`directoryActive, vol`fs, vol`faulty, vol`log, vol`trace
      ensures Valid() && (old(vol.faulty) ==> vol.faulty)
      ensures vol.trace == if r.Ok? then old(vol.trace) + [Renamed(payloadFile.value, old(vol.fs))] else old(vol.trace)
      ensures r.Err? ==>
                && vol.fs == old(vol.fs) && vol.log == old(vol.log)
                && payloadActive == old(payloadActive) && directoryActive == old(directoryActive)
      ensures r.Ok? ==>
                && PayloadOk(old(vol.fs), payloadFile.value, expectedMode)
                && stageName != destinationName
                && Entry(vol.fs, parent, destinationName) == payloadFile
                && vol.fs.parentPath == Some(parent)
                && IsKind(vol.fs, payloadFile.value, Regular)
                && vol.fs.inodes[payloadFile.value] == old(vol.fs).inodes[payloadFile.value]
                && !payloadActive
                && Published((stage, PAYLOAD), (parent, destinationName), payloadFile.value) in vol.log
      ensures r.Ok? && !r.value ==> vol.faulty
      ensures r.Err? ==> vol.faulty || !PayloadOk(vol.fs, payloadFile.value, expectedMode) || !DestinationOk(vol.fs)
      ensures r.Ok? && !vol.faulty && old(TidyStage(base)) ==> !directoryActive && vol.fs.entries == base[(parent, destinationName) := payloadFile.value]
    {
      var checked := RevalidatePayload();
      if checked.Err? {
        return Err(checked.error);
      }
      checked := RevalidateStageDirectory();
      if checked.Err? {
        return Err(checked.error);
      }
      if !DestinationOk(vol.fs) {
        return Err(NotRegular);
      }
      var fails := vol.Fails();
      if fails {
        return Err(CallFailed);
      }
      RenamePayload(base);
      var durable := vol.Fails();
      r := Ok(!durable);
    }

    /** Removes the stage directory if its entry still names the directory held open. */
    method RemoveStageDirectory() returns (r: Result<(), Error>)
      requires Valid()
      modifies this`directoryActive, vol`fs, vol`faulty, vol`log
      ensures Valid() && (old(vol.faulty) ==> vol.faulty)
      ensures r.Ok? ==>
                && !directoryActive
                && Entry(old(vol.fs), parent, stageName) == Some(stage) && IsEmptyDirectory(old(vol.fs), stage)
                && vol.fs == Unlinked(old(vol.fs), (parent, stageName))
                && vol.log == old(vol.log) + [Removed((parent, stageName), stage, stage)]
      ensures r.Err? ==> vol.fs == old(vol.fs) && vol.log == old(vol.log) && directoryActive == old(directoryActive)
      ensures !vol.faulty && Entry(old(vol.fs), parent, stageName) == Some(stage) && IsEmptyDirectory(old(vol.fs), stage)
              ==> r.Ok?
    {
      var fails := vol.Fails();
      if fails {
        return Err(CallFailed);
      }
      if Entry(vol.fs, parent, stageName) != Some(stage) {
        return Err(ChangedIdentity);
      }
      if !IsEmptyDirectory(vol.fs, stage) {
        return Err(NotEmpty);
      }
      vol.Unlink((parent, stageName), stage);
      directoryActive := false;
      return Ok(());
    }

    /** Dropping the installer's two entries is at most what happened to the directories. */
    ghost predicate DropsAtMost(before: map<EntryKey, Ino>, after: map<EntryKey, Ino>) {
      && (forall k :: k in after ==> k in before && after[k] == before[k])
      && (forall k :: k in before && k !in after ==> k == (stage, PAYLOAD) || k == (parent, stageName))
    }

    /** The payload half of `cleanup`. */
    method RemovePayload(ghost base: map<EntryKey, Ino>) returns (r: Result<(), Error>)
      requires Valid()
      modifies this`payloadActive, vol`fs, vol`faulty, vol`log
      ensures KeepsKinds(old(vol.fs), vol.fs)
      ensures Valid() && (old(vol.faulty) ==> vol.faulty)
      ensures r.Ok? ==> !payloadActive
      ensures !old(payloadActive) ==> r.Ok?
      ensures
        || (vol.fs == old(vol.fs) && vol.log == old(vol.log))
        || (&& old(payloadActive) && r.Ok?
            && Entry(old(vol.fs), stage, PAYLOAD) == payloadFile
            && vol.fs == Unlinked(old(vol.fs), (stage, PAYLOAD))
            && vol.log == old(vol.log) + [Removed((stage, PAYLOAD), payloadFile.value, payloadFile.value)])
      ensures !old(payloadActive) ==> vol.fs == old(vol.fs) && vol.log == old(vol.log)
      ensures old(Tidy(base)) ==> Tidy(base) && (r.Ok? || vol.faulty)
      ensures KeepsContents(old(vol.fs), vol.fs)
      ensures NeverPublished(old(vol.log)) ==> NeverPublished(vol.log)
      ensures !vol.faulty && Entry(old(vol.fs), stage, PAYLOAD).None? ==> r.Ok? && !payloadActive
    {
      if !payloadActive {
        return Ok(());
      }
      if Tidy(base) {
        TidyWithoutPayload(vol.fs, base, Place(parent, stageName, stage), payloadFile.value, directoryActive);
      }
      var fails := vol.Fails();
      if fails {
        return Err(CallFailed);
      }
      var entry := Entry(vol.fs, stage, PAYLOAD);
      if entry.None? {
        payloadActive := false;
        return Ok(());
      }
      if entry != payloadFile || !IsKind(vol.fs, entry.value, Regular) {
        return Err(ChangedIdentity);
      }
      fails := vol.Fails();
      if fails {
        return Err(CallFailed);
      }
      vol.Unlink((stage, PAYLOAD), payloadFile.value);
      payloadActive := false;
      return Ok(());
    }

    /** The directory half of `cleanup`, with its two syncs. */
    method RemoveDirectory(ghost base: map<EntryKey, Ino>) returns (r: Result<(), Error>)
      requires Valid() && !payloadActive
      modifies this`directoryActive, vol`fs, vol`faulty, vol`log
      ensures KeepsKinds(old(vol.fs), vol.fs)
      ensures Valid() && (old(vol.faulty) ==> vol.faulty)
      ensures r.Ok? ==> !directoryActive
      ensures !old(directoryActive) ==> r.Ok?
      ensures
        || (vol.fs == old(vol.fs) && vol.log == old(vol.log))
        || (&& old(directoryActive)
            && Entry(old(vol.fs), parent, stageName) == Some(stage)
            && vol.fs == Unlinked(old(vol.fs), (parent, stageName))
            && vol.log == old(vol.log) + [Removed((parent, stageName), stage, stage)])
      ensures !old(directoryActive) ==> vol.fs == old(vol.fs) && vol.log == old(vol.log)
      ensures old(Tidy(base)) ==> Tidy(base) && (r.Ok? || vol.faulty)
      ensures KeepsContents(old(vol.fs), vol.fs)
      ensures NeverPublished(old(vol.log)) ==> NeverPublished(vol.log)
    {
      if !directoryActive {
        return Ok(());
      }
      if Tidy(base) {
        TidyWithoutDirectory(vol.fs, base, Place(parent, stageName, stage));
      }
      var fails := vol.Fails();
      if fails {
        return Err(CallFailed);
      }
      r := RemoveStageDirectory();
      if r.Err? {
        return;
      }
      fails := vol.Fails();
      r := if fails then Err(CallFailed) else Ok(());
    }

    /**
     `cleanup`, which `Drop` runs again. It removes only entries that name the inodes held open;
     once it has succeeded it does nothing; and when nobody else touched the directories and no call
     fails it leaves exactly the entries of `base`.
     */
    method Cleanup(ghost base: map<EntryKey, Ino>) returns (r: Result<(), Error>)
      requires Valid()
      modifies this`payloadActive, this`directoryActive, vol`fs, vol`faulty, vol`log
      ensures KeepsKinds(old(vol.fs), vol.fs)
      ensures Valid() && (old(vol.faulty) ==> vol.faulty)
      ensures r.Ok? ==> !payloadActive && !directoryActive
      ensures !old(payloadActive) && !old(directoryActive) ==> r.Ok? && vol.fs == old(vol.fs) && vol.log == old(vol.log)
      ensures vol.fs.parentPath == old(vol.fs).parentPath
      ensures DropsAtMost(old(vol.fs).entries, vol.fs.entries)
      ensures NeverPublished(old(vol.log)) ==> NeverPublished(vol.log)
      ensures !old(payloadActive) ==>
                || vol.fs == old(vol.fs)
                || (Entry(old(vol.fs), parent, stageName) == Some(stage) && vol.fs == Unlinked(old(vol.fs), (parent, stageName)))
      ensures old(Tidy(base)) ==> Tidy(base) && (vol.fs.entries == base || vol.faulty)
      ensures KeepsContents(old(vol.fs), vol.fs)
    {
      r := RemovePayload(base);
      if r.Ok? {
        r := RemoveDirectory(base);
      }
    }
  }

  /** One hook has run. */
  ghost predicate OneHook(before: seq<Moment>, after: seq<Moment>, hook: Hook) {
    && |after| == |before| + 1 && after[..|before|] == before
    && after[|before|].Hooked? && after[|before|].hook == hook
  }

  // ---- reserving the stage --------------------------------------------------------------

  /** What `mkdirat` with mode 0700 leaves, whatever the umask. */
  function WithDirectory(fs: FileSystem, euid: nat, parent: Ino, name: string, ino: Ino, mode: nat): FileSystem
    requires parent in fs.inodes
  {
    fs.(
      inodes := fs.inodes[ino := Inode(Directory, euid, fs.inodes[parent].dev, mode, 2, [])],
      entries := fs.entries[(parent, name) := ino])
  }

  /** A stage directory nobody but this installer has seen. */
  ghost predicate IsNewStage(vol: Volume, base: map<EntryKey, Ino>, parent: Ino, name: string, ino: Ino)
    reads vol
  {
    && IsKind(vol.fs, parent, Directory) && IsKind(vol.fs, ino, Directory) && parent != ino
    && vol.fs.inodes[ino].uid == vol.euid && vol.fs.inodes[ino].dev == vol.fs.inodes[parent].dev
    && IsPrivate(vol.fs.inodes[ino].mode)
    && (parent, name) !in base && (forall k :: k in base ==> k.0 != ino)
    && vol.fs.entries == base[(parent, name) := ino]
  }

  /** A directory of the user's own, on the device of its parent, without permissions for anybody else. */
  ghost predicate IsOwnDirectory(vol: Volume, parent: Ino, ino: Ino)
    reads vol
  {
    && parent in vol.fs.inodes && ino in vol.fs.inodes && vol.fs.inodes[ino].kind == Directory
    && vol.fs.inodes[ino].uid == vol.euid && vol.fs.inodes[ino].dev == vol.fs.inodes[parent].dev
    && vol.fs.inodes[ino].mode % 64 == 0
  }

  /** Records the new directory's identity, lets the opening hook run, and opens it only if it is the same. */
  method CheckedOpen(reservation: Reservation, held: set<Ino>) returns (r: Result<Ino, Error>)
    requires WellFormed(reservation.vol.fs) && reservation.expected == None
    modifies reservation`expected
    modifies reservation.vol`fs, reservation.vol`faulty, reservation.vol`touched, reservation.vol`refused, reservation.vol`trace
    ensures WellFormed(reservation.vol.fs) && old(reservation.vol.trace) <= reservation.vol.trace
    ensures (old(reservation.vol.faulty) ==> reservation.vol.faulty) && (old(reservation.vol.touched) ==> reservation.vol.touched)
    ensures KeepsHeld(old(reservation.vol.fs), reservation.vol.fs, held)
    ensures !reservation.vol.touched ==> reservation.vol.fs == old(reservation.vol.fs)
    ensures r.Ok? ==>
              && IsOwnDirectory(reservation.vol, reservation.parent, r.value)
              && Entry(reservation.vol.fs, reservation.parent, reservation.stageName) == Some(r.value)
              && Entry(old(reservation.vol.fs), reservation.parent, reservation.stageName) == Some(r.value)
    ensures reservation.vol.touched || reservation.vol.faulty
            || reservation.expected == Entry(reservation.vol.fs, reservation.parent, reservation.stageName)
            || Entry(reservation.vol.fs, reservation.parent, reservation.stageName).None?
            || !reservation.IsOwned(reservation.vol.fs, Entry(reservation.vol.fs, reservation.parent, reservation.stageName).value)
    ensures r.Ok? ==> OneHook(old(reservation.vol.trace), reservation.vol.trace, BeforeOpening)
    ensures r.Err? ==> !reservation.vol.Undisturbed()
                       || Entry(old(reservation.vol.fs), reservation.parent, reservation.stageName).None?
                       || !reservation.IsOwned(old(reservation.vol.fs),
                                               Entry(old(reservation.vol.fs), reservation.parent, reservation.stageName).value)
    ensures r.Ok? ==> reservation.vol.refused == old(reservation.vol.refused)
    ensures r.Ok? ==> reservation.vol.faulty == old(reservation.vol.faulty)
  {
    var captured := reservation.CaptureIdentity();
    if captured.Err? {
      return Err(captured.error);
    }
    var hooked := reservation.vol.RunHook(BeforeOpening, held);
    var entry := Entry(reservation.vol.fs, reservation.parent, reservation.stageName);
    if !hooked || entry.None? || !IsKind(reservation.vol.fs, entry.value, Directory) {
      return Err(HookFailed);
    }
    if !reservation.IsOwned(reservation.vol.fs, entry.value) || reservation.expected != entry {
      return Err(ChangedIdentity);
    }
    return Ok(entry.value);
  }

  /** The opening under its guard, which removes the directory on every failure. */
  method OpenGuarded(vol: Volume, parent: Ino, name: string, held: set<Ino>, ghost base: map<EntryKey, Ino>, ghost ino: Ino)
    returns (r: Result<Ino, Error>)
    requires WellFormed(vol.fs) && OnlyOwnRemovals(vol.log)
    requires IsNewStage(vol, base, parent, name, ino) && parent in held
    modifies vol`fs, vol`faulty, vol`log, vol`touched, vol`refused, vol`trace
    ensures WellFormed(vol.fs) && OnlyOwnRemovals(vol.log) && old(vol.trace) <= vol.trace
    ensures (old(vol.faulty) ==> vol.faulty) && (old(vol.touched) ==> vol.touched)
    ensures NeverPublished(old(vol.log)) ==> NeverPublished(vol.log)
    ensures KeepsHeld(old(vol.fs), vol.fs, held)
    ensures r.Ok? ==>
              && r.value == ino && IsKind(vol.fs, ino, Directory)
              && (vol.touched || vol.fs == old(vol.fs))
              && OneHook(old(vol.trace), vol.trace, BeforeOpening)
    ensures r.Err? ==> !vol.Undisturbed() && (vol.touched || vol.faulty || vol.fs.entries == base)
    ensures r.Ok? ==> vol.refused == old(vol.refused)
    ensures r.Ok? ==> vol.faulty == old(vol.faulty)
  {
    TidyWithoutDirectory(vol.fs, base, Place(parent, name, ino));
    var reservation := new Reservation(vol, parent, name);
    r := CheckedOpen(reservation, held);
    reservation.active := r.Err?;
    reservation.Drop();
  }

  /** Opens the new stage; `open_stage_directory` may be replaced by a hook. */
  method OpenStage(vol: Volume, parent: Ino, destinationName: string, name: string, held: set<Ino>,
                   ghost base: map<EntryKey, Ino>, ghost ino: Ino)
    returns (r: Result<Installer, Error>)
    requires WellFormed(vol.fs) && OnlyOwnRemovals(vol.log)
    requires IsNewStage(vol, base, parent, name, ino) && parent in held
    modifies vol`fs, vol`faulty, vol`log, vol`touched, vol`refused, vol`trace
    ensures WellFormed(vol.fs) && OnlyOwnRemovals(vol.log) && old(vol.trace) <= vol.trace
    ensures (old(vol.faulty) ==> vol.faulty) && (old(vol.touched) ==> vol.touched)
    ensures NeverPublished(old(vol.log)) ==> NeverPublished(vol.log)
    ensures KeepsHeld(old(vol.fs), vol.fs, held)
    ensures r.Ok? ==>
              && fresh(r.value) && r.value.vol == vol && r.value.Valid()
              && (vol.touched || r.value.Tidy(base))
              && r.value.destinationName == destinationName
              && !r.value.payloadActive && r.value.payloadFile == None && r.value.expectedMode == None
    ensures r.Err? ==> vol.touched || vol.faulty || vol.fs.entries == base
    ensures r.Ok? ==>
              && OneHook(old(vol.trace), vol.trace, BeforeOpening)
              && r.value.parent == parent && r.value.stageName == name && r.value.stage == ino
              && (vol.touched || vol.fs == old(vol.fs))
    ensures r.Err? ==> !vol.Undisturbed()
    ensures r.Ok? && !vol.touched ==>
              && (old(vol.fs).parentPath == Some(parent) ==> IsUnfilled(r.value))
              && (MayBeReplaced(old(vol.fs), parent, destinationName) ==> r.value.DestinationOk(vol.fs))
    ensures r.Ok? ==> vol.refused == old(vol.refused)
    ensures r.Ok? ==> vol.faulty == old(vol.faulty)
  {
    var entry := OpenGuarded(vol, parent, name, held, base, ino);
    if entry.Err? {
      return Err(entry.error);
    }
    var staged := new Installer(vol, parent, destinationName, name, entry.value);
    return Ok(staged);
  }

  /** What every step of the reservation hands on. */
  ghost predicate Staged(vol: Volume, staged: Installer, base: map<EntryKey, Ino>, destinationName: string)
    reads vol, staged
  {
    && staged.vol == vol && staged.Valid() && (vol.touched || staged.Tidy(base))
    && staged.destinationName == destinationName
    && staged.payloadActive && staged.expectedMode == None
    && staged.PayloadOk(vol.fs, staged.payloadFile.value, None)
  }

  /** The stage is there and empty. */
  ghost predicate IsUnfilled(staged: Installer)
    reads staged, staged.vol
  {
    staged.IsUsableStage(staged.vol.fs) && (staged.stage, PAYLOAD) !in staged.vol.fs.entries
  }

  /** Hardens the opened stage and creates the payload. */
  method HardenAndCreate(staged: Installer, ghost base: map<EntryKey, Ino>) returns (r: Result<(), Error>)
    requires staged.Valid() && (staged.vol.touched || staged.Tidy(base))
    requires !staged.payloadActive && staged.payloadFile == None && staged.expectedMode == None
    modifies staged`payloadFile, staged`payloadActive, staged.vol`fs, staged.vol`faulty, staged.vol`log
    ensures staged.Valid() && (old(staged.vol.faulty) ==> staged.vol.faulty)
    ensures staged.vol.touched || staged.Tidy(base)
    ensures NeverPublished(old(staged.vol.log)) ==> NeverPublished(staged.vol.log)
    ensures KeepsKinds(old(staged.vol.fs), staged.vol.fs)
    ensures r.Ok? ==> Staged(staged.vol, staged, base, staged.destinationName)
    ensures KeepsContents(old(staged.vol.fs), staged.vol.fs)
    ensures r.Ok? && staged.DestinationOk(old(staged.vol.fs)) ==> staged.DestinationOk(staged.vol.fs)
    ensures r.Err? ==> staged.vol.faulty || !old(IsUnfilled(staged))
    ensures r.Ok? ==> staged.vol.faulty == old(staged.vol.faulty)
  {
    r := staged.HardenPrivateDirectory(base);
    if r.Err? {
      return;
    }
    var umasked: nat :| true;
    var ino := staged.vol.NewInode();
    if ino.None? {
      return Err(CallFailed);
    }
    r := staged.CreatePayload(ino.value, umasked, base);
  }

  /** Hardens the opened stage and creates the payload; a failure drops the installer, which cleans up. */
  method FillStage(staged: Installer, ghost base: map<EntryKey, Ino>) returns (r: Result<Installer, Error>)
    requires staged.Valid() && (staged.vol.touched || staged.Tidy(base))
    requires !staged.payloadActive && staged.payloadFile == None && staged.expectedMode == None
    modifies staged, staged.vol`fs, staged.vol`faulty, staged.vol`log
    ensures staged.Valid() && (old(staged.vol.faulty) ==> staged.vol.faulty)
    ensures NeverPublished(old(staged.vol.log)) ==> NeverPublished(staged.vol.log)
    ensures KeepsKinds(old(staged.vol.fs), staged.vol.fs)
    ensures r.Ok? ==> r.value == staged && Staged(staged.vol, staged, base, staged.destinationName)
    ensures r.Err? ==> staged.vol.touched || staged.vol.faulty || staged.vol.fs.entries == base
    ensures KeepsContents(old(staged.vol.fs), staged.vol.fs)
    ensures r.Ok? && staged.DestinationOk(old(staged.vol.fs)) ==> staged.DestinationOk(staged.vol.fs)
    ensures r.Err? ==> staged.vol.faulty || !old(IsUnfilled(staged))
    ensures r.Ok? ==> staged.vol.faulty == old(staged.vol.faulty)
  {
    var step := HardenAndCreate(staged, base);
    if step.Ok? {
      return Ok(staged);
    }
    var dropped := staged.Cleanup(base);
    return Err(step.error);
  }

  /** Nothing but a regular file stands at the destination. */
  predicate MayBeReplaced(fs: FileSystem, parent: Ino, destinationName: string) {
    var destination := Entry(fs, parent, destinationName);
    destination.Some? ==> IsKind(fs, destination.value, Regular)
  }

  /** What every stage directory is called. */
  const STAGE_PREFIX := ".vc-frame.install-"

  /** An install directory that can take the destination, without stages left over from earlier installs. */
  ghost predicate IsReady(fs: FileSystem, destinationName: string) {
    && fs.parentPath.Some? && IsKind(fs, fs.parentPath.value, Directory)
    && MayBeReplaced(fs, fs.parentPath.value, destinationName)
    && !(STAGE_PREFIX <= destinationName)
    && forall k :: k in fs.entries && k.0 == fs.parentPath.value ==> !(STAGE_PREFIX <= k.1)
  }

  lemma NewStageIsNew(fs: FileSystem, euid: nat, parent: Ino, name: string, ino: Ino, mode: nat, destinationName: string)
    requires WellFormed(fs) && IsKind(fs, parent, Directory) && ino !in fs.inodes && (parent, name) !in fs.entries
    ensures var after := WithDirectory(fs, euid, parent, name, ino, mode);
            && WellFormed(after) && KeepsKinds(fs, after) && KeepsContents(fs, after)
            && (name != destinationName && MayBeReplaced(fs, parent, destinationName) ==>
                  MayBeReplaced(after, parent, destinationName))
  {}

  method MakeDirectory(vol: Volume, parent: Ino, name: string, ino: Ino, ghost destinationName: string)
    requires WellFormed(vol.fs) && OnlyOwnRemovals(vol.log) && IsKind(vol.fs, parent, Directory)
    requires ino !in vol.fs.inodes && (parent, name) !in vol.fs.entries
    modifies vol`fs, vol`log
    ensures WellFormed(vol.fs) && OnlyOwnRemovals(vol.log)
    ensures NeverPublished(old(vol.log)) ==> NeverPublished(vol.log)
    ensures KeepsKinds(old(vol.fs), vol.fs)
    ensures IsNewStage(vol, old(vol.fs).entries, parent, name, ino)
    ensures KeepsContents(old(vol.fs), vol.fs) && vol.fs.parentPath == old(vol.fs).parentPath
    ensures name != destinationName && MayBeReplaced(old(vol.fs), parent, destinationName) ==>
              MayBeReplaced(vol.fs, parent, destinationName)
  {
    var bits: nat :| true;
    var mode := if IsPrivate(bits) then bits else RWXU;
    NewStageIsNew(vol.fs, vol.euid, parent, name, ino, mode, destinationName);
    vol.log := vol.log + [Made((parent, name), ino)];
    vol.fs := WithDirectory(vol.fs, vol.euid, parent, name, ino, mode);
  }

  /** `mkdirat` under an unused name, then everything up to the empty payload. */
  method MakeStage(vol: Volume, parent: Ino, destinationName: string, name: string, ino: Ino, held: set<Ino>)
    returns (r: Result<Installer, Error>)
    requires WellFormed(vol.fs) && OnlyOwnRemovals(vol.log) && IsKind(vol.fs, parent, Directory)
    requires ino !in vol.fs.inodes && (parent, name) !in vol.fs.entries
    modifies vol`fs, vol`faulty, vol`log, vol`touched, vol`refused, vol`trace
    ensures WellFormed(vol.fs) && OnlyOwnRemovals(vol.log) && old(vol.trace) <= vol.trace
    ensures (old(vol.faulty) ==> vol.faulty) && (old(vol.touched) ==> vol.touched)
    ensures NeverPublished(old(vol.log)) ==> NeverPublished(vol.log)
    ensures KeepsHeld(old(vol.fs), vol.fs, held)
    ensures r.Ok? ==> fresh(r.value) && Staged(vol, r.value, old(vol.fs).entries, destinationName)
    ensures r.Err? ==> vol.touched || vol.faulty || vol.fs.entries == old(vol.fs).entries
    ensures r.Ok? ==> OneHook(old(vol.trace), vol.trace, BeforeOpening) && r.value.stageName == name && r.value.parent == parent
    ensures r.Ok? && !vol.touched ==>
              && KeepsContents(old(vol.fs), vol.fs)
              && (MayBeReplaced(old(vol.fs), parent, destinationName) && name != destinationName ==>
                    r.value.DestinationOk(vol.fs))
    ensures r.Err? ==> !vol.Undisturbed() || old(vol.fs).parentPath != Some(parent)
    ensures r.Ok? ==> vol.refused == old(vol.refused)
    ensures r.Ok? ==> vol.faulty == old(vol.faulty)
  {
    ghost var base := vol.fs.entries;
    MakeDirectory(vol, parent, name, ino, destinationName);
    r := OpenStage(vol, parent, destinationName, name, held + {parent}, base, ino);
    if r.Ok? {
      r := FillStage(r.value, base);
    }
  }

  /**
   `StagedInstall::reserve`. On success the installer owns a private directory with an empty payload
   of its own in it; on failure, hooks and broken calls aside, the directories are as they were.
   */
  method Reserve(vol: Volume, destinationName: string, held: set<Ino>) returns (r: Result<Installer, Error>)
    requires WellFormed(vol.fs) && OnlyOwnRemovals(vol.log)
    modifies vol`fs, vol`faulty, vol`log, vol`touched, vol`refused, vol`trace
    ensures WellFormed(vol.fs) && OnlyOwnRemovals(vol.log) && old(vol.trace) <= vol.trace
    ensures (old(vol.faulty) ==> vol.faulty) && (old(vol.touched) ==> vol.touched)
    ensures NeverPublished(old(vol.log)) ==> NeverPublished(vol.log)
    ensures KeepsHeld(old(vol.fs), vol.fs, held)
    ensures r.Ok? ==> fresh(r.value) && Staged(vol, r.value, old(vol.fs).entries, destinationName)
    ensures r.Err? ==> vol.touched || vol.faulty || vol.fs.entries == old(vol.fs).entries
    ensures r.Ok? ==> OneHook(old(vol.trace), vol.trace, BeforeOpening) && ".vc-frame.install-" <= r.value.stageName
    ensures r.Ok? && !vol.touched ==>
              && KeepsContents(old(vol.fs), vol.fs)
              && (IsReady(old(vol.fs), destinationName) ==> r.value.DestinationOk(vol.fs))
    ensures r.Err? ==> !vol.Undisturbed() || !IsReady(old(vol.fs), destinationName)
    ensures r.Ok? ==> vol.refused == old(vol.refused)
    ensures r.Ok? ==> vol.faulty == old(vol.faulty)
    ensures r.Ok? ==> old(vol.fs).parentPath.Some? && MayBeReplaced(old(vol.fs), old(vol.fs).parentPath.value, destinationName)
  {
    var fails := vol.Fails();
    if fails || vol.fs.parentPath.None? || !IsKind(vol.fs, vol.fs.parentPath.value, Directory) {
      return Err(CallFailed);
    }
    var parent := vol.fs.parentPath.value;
    if !MayBeReplaced(vol.fs, parent, destinationName) {
      return Err(NotRegular);
    }
    for attempt := 0 to 32
      invariant vol.fs == old(vol.fs) && vol.log == old(vol.log) && vol.touched == old(vol.touched)
      invariant vol.trace == old(vol.trace) && vol.refused == old(vol.refused)
      invariant vol.faulty == old(vol.faulty)
      invariant attempt > 0 ==> exists k :: k in vol.fs.entries && k.0 == parent && STAGE_PREFIX <= k.1
    {
      var token: string := *;
      var name := STAGE_PREFIX + token;
      assert STAGE_PREFIX <= name;
      fails := vol.Fails();
      var ino := vol.NewInode();
      if fails || ino.None? {
        return Err(CallFailed);
      }
      if (parent, name) !in vol.fs.entries {
        r := MakeStage(vol, parent, destinationName, name, ino.value, held);
        return;
      }
      assert (parent, name) in vol.fs.entries && STAGE_PREFIX <= name;
    }
    return Err(NoStageName);
  }

  // ---- the whole install ----------------------------------------------------------------

  /** One of the four hooks, with everything the installer holds open kept alive. */
  method RunHook(staged: Installer, hook: Hook, ghost base: map<EntryKey, Ino>) returns (r: Result<(), Error>)
    requires staged.Valid() && (staged.vol.touched || staged.Tidy(base))
    modifies staged.vol`fs, staged.vol`touched, staged.vol`refused, staged.vol`trace
    ensures staged.vol.trace == old(staged.vol.trace) + [Hooked(hook, old(staged.vol.fs), staged.vol.fs)]
    ensures staged.Valid() && (old(staged.vol.touched) ==> staged.vol.touched)
    ensures staged.vol.touched || (staged.Tidy(base) && staged.vol.fs == old(staged.vol.fs))
    ensures staged.vol.refused == (old(staged.vol.refused) || r.Err?)
  {
    var ok := staged.vol.RunHook(hook, staged.Held());
    r := if ok then Ok(()) else Err(HookFailed);
  }

  /** What stays true of the installer through every step before the publication. */
  ghost predicate Working(staged: Installer, base: map<EntryKey, Ino>)
    reads staged, staged.vol
  {
    && staged.Valid() && staged.payloadActive && NeverPublished(staged.vol.log)
    && (staged.vol.touched || staged.Tidy(base))
  }

  /**
   The install path names the parent, which names the stage, which names the payload `ino`: the stage a
   directory of mode 0700, the payload a file with this mode and a single link, both the user's, on one device.
   */
  ghost predicate Shows(staged: Installer, fs: FileSystem, ino: Ino, mode: nat) {
    && fs.parentPath == Some(staged.parent) && IsKind(fs, staged.parent, Directory)
    && (staged.parent, staged.stageName) in fs.entries && fs.entries[(staged.parent, staged.stageName)] == staged.stage
    && (staged.stage, "payload") in fs.entries && fs.entries[(staged.stage, "payload")] == ino
    && staged.stage in fs.inodes && ino in fs.inodes
    && var stage, payload := fs.inodes[staged.stage], fs.inodes[ino];
    && stage == Inode(Directory, staged.vol.euid, fs.inodes[staged.parent].dev, 448, stage.nlink, stage.data)
    && payload == Inode(Regular, staged.vol.euid, stage.dev, mode, 1, payload.data)
  }

  /** The public payload path names a file with the bytes and the mode of the source. */
  ghost predicate ShowsCopy(staged: Installer, fs: FileSystem, source: Source) {
    && source.ino in fs.inodes
    && exists ino :: Shows(staged, fs, ino, source.mode) && fs.inodes[ino].data == fs.inodes[source.ino].data
  }

  /** The payload is in the stage as the installer made it. */
  ghost predicate CreatedOk(staged: Installer)
    reads staged, staged.vol
  {
    staged.payloadFile.Some? && staged.PayloadOk(staged.vol.fs, staged.payloadFile.value, None)
  }

  /** Whatever payload is in the stage is what the public path names. */
  ghost predicate PreparedOk(staged: Installer)
    reads staged, staged.vol
  {
    var entry := Entry(staged.vol.fs, staged.stage, PAYLOAD);
    entry.Some? && staged.PayloadOk(staged.vol.fs, entry.value, staged.expectedMode)
  }

  /** Copy, revalidate, and let the preparation hook sign what it finds: a copy of the source. */
  method Prepare(staged: Installer, source: Source, ghost base: map<EntryKey, Ino>)
    returns (r: Result<(), Error>, ghost copied: FileSystem)
    requires Working(staged, base) && source.ino in staged.vol.fs.inodes
    modifies staged`expectedMode, staged.vol`fs, staged.vol`faulty, staged.vol`touched, staged.vol`refused, staged.vol`trace
    ensures Working(staged, base) && old(staged.vol.trace) <= staged.vol.trace
    ensures (old(staged.vol.faulty) ==> staged.vol.faulty) && (old(staged.vol.touched) ==> staged.vol.touched)
    ensures r.Ok? ==> staged.expectedMode == Some(source.mode)
    ensures r.Ok? && !staged.vol.touched ==>
              && Entry(staged.vol.fs, staged.stage, PAYLOAD) == staged.payloadFile
              && staged.vol.fs.inodes[staged.payloadFile.value].data == old(staged.vol.fs).inodes[source.ino].data
              && (staged.DestinationOk(old(staged.vol.fs)) ==> staged.DestinationOk(staged.vol.fs))
    ensures r.Ok? ==>
              && staged.vol.trace == old(staged.vol.trace) + [Hooked(Preparation, copied, staged.vol.fs)]
              && ShowsCopy(staged, copied, source)
              && copied.inodes[source.ino].data == old(staged.vol.fs).inodes[source.ino].data
              && PreparedOk(staged)
    ensures r.Err? ==> !staged.vol.Undisturbed() || !old(CreatedOk(staged))
    ensures r.Ok? ==> staged.vol.refused == old(staged.vol.refused)
    ensures r.Ok? ==> staged.vol.faulty == old(staged.vol.faulty)
  {
    r := staged.CopySource(source, base);
    copied := staged.vol.fs;
    if r.Err? {
      return;
    }
    r := staged.RevalidatePayload();
    if r.Err? {
      return;
    }
    assert Shows(staged, copied, staged.payloadFile.value, source.mode);
    r := RunHook(staged, Preparation, base);
    if r.Err? {
      return;
    }
    r := staged.RevalidatePreparedPayloadPath();
  }

  /** The preparation hook and, with no change between them, the adoption of what it left. */
  function PreparationOf(ino: Ino, copied: FileSystem, signed: FileSystem): seq<Moment> {
    [Hooked(Preparation, copied, signed), Adopted(ino, signed)]
  }

  /** Copy, revalidate, prepare, and adopt what the preparation left. */
  method PrepareAndAdopt(staged: Installer, source: Source, ghost base: map<EntryKey, Ino>)
    returns (r: Result<(), Error>, ghost copied: FileSystem)
    requires Working(staged, base) && source.ino in staged.vol.fs.inodes
    modifies staged`expectedMode, staged`payloadFile
    modifies staged.vol`fs, staged.vol`faulty, staged.vol`touched, staged.vol`refused, staged.vol`trace
    ensures Working(staged, base) && old(staged.vol.trace) <= staged.vol.trace
    ensures r.Ok? ==>
              && staged.vol.trace == old(staged.vol.trace) + PreparationOf(staged.payloadFile.value, copied, staged.vol.fs)
              && ShowsCopy(staged, copied, source)
              && copied.inodes[source.ino].data == old(staged.vol.fs).inodes[source.ino].data
    ensures r.Err? ==> !staged.vol.Undisturbed() || !old(CreatedOk(staged))
    ensures (old(staged.vol.faulty) ==> staged.vol.faulty) && (old(staged.vol.touched) ==> staged.vol.touched)
    ensures r.Ok? ==>
              && staged.expectedMode == Some(source.mode)
              && staged.PayloadOk(staged.vol.fs, staged.payloadFile.value, staged.expectedMode)
    ensures r.Ok? && !staged.vol.touched ==>
              && staged.vol.fs.inodes[staged.payloadFile.value].data == old(staged.vol.fs).inodes[source.ino].data
              && (staged.DestinationOk(old(staged.vol.fs)) ==> staged.DestinationOk(staged.vol.fs))
    ensures r.Ok? ==> staged.vol.refused == old(staged.vol.refused)
    ensures r.Ok? ==> staged.vol.faulty == old(staged.vol.faulty)
  {
    r, copied := Prepare(staged, source, base);
    if r.Err? {
      return;
    }
    r := staged.AdoptPayload(base);
    if r.Err? {
      return;
    }
    r := staged.RevalidatePayload();
    if r.Err? {
      return;
    }
    r := staged.RevalidatePayload();
  }

  /** From the verification hook to the rename: what the two hooks found and left, and what was renamed. */
  function PublicationOf(ino: Ino, unverified: FileSystem, verified: FileSystem, last: FileSystem): seq<Moment> {
    [Hooked(Verification, unverified, verified), Hooked(BeforePublication, verified, last), Renamed(ino, last)]
  }

  /** The verification hook, the second look, and the last hook. */
  method Verify(staged: Installer, mode: nat, ghost base: map<EntryKey, Ino>)
    returns (r: Result<(), Error>, ghost verified: FileSystem)
    requires Working(staged, base) && staged.payloadFile.Some? && staged.expectedMode == Some(mode)
    modifies staged.vol`fs, staged.vol`faulty, staged.vol`touched, staged.vol`refused, staged.vol`trace
    ensures Working(staged, base) && old(staged.vol.trace) <= staged.vol.trace
    ensures (old(staged.vol.faulty) ==> staged.vol.faulty) && (old(staged.vol.touched) ==> staged.vol.touched)
    ensures r.Ok? ==>
              && Shows(staged, verified, staged.payloadFile.value, mode)
              && staged.vol.trace == old(staged.vol.trace) + [Hooked(Verification, old(staged.vol.fs), verified),
                                                              Hooked(BeforePublication, verified, staged.vol.fs)]
    ensures !staged.vol.touched ==> staged.vol.fs == old(staged.vol.fs)
    ensures r.Err? ==> !staged.vol.Undisturbed() || !Shows(staged, old(staged.vol.fs), staged.payloadFile.value, mode)
    ensures r.Ok? ==> staged.vol.refused == old(staged.vol.refused)
    ensures r.Ok? ==> staged.vol.faulty == old(staged.vol.faulty)
  {
    verified := staged.vol.fs;
    r := RunHook(staged, Verification, base);
    if r.Err? {
      return;
    }
    r := staged.RevalidatePayload();
    if r.Err? {
      return;
    }
    verified := staged.vol.fs;
    var fails := staged.vol.Fails();
    if fails {
      return Err(CallFailed), verified;
    }
    r := RunHook(staged, BeforePublication, base);
  }

  /** While the checks of the payload hold, the stage is among the installer's own entries. */
  lemma TidyHasStage(staged: Installer, base: map<EntryKey, Ino>)
    requires staged.payloadFile.Some? && staged.payloadActive
    ensures staged.Tidy(base) && staged.PayloadOk(staged.vol.fs, staged.payloadFile.value, staged.expectedMode) ==>
              staged.TidyStage(base)
  {}

  /** The verification hook, the second look, the last hook, and the rename. */
  method VerifyAndPublish(staged: Installer, mode: nat, ghost base: map<EntryKey, Ino>)
    returns (r: Result<bool, Error>, ghost verified: FileSystem, ghost last: FileSystem)
    requires Working(staged, base) && staged.payloadFile.Some? && staged.expectedMode == Some(mode)
    modifies staged`payloadActive, staged`directoryActive
    modifies staged.vol`fs, staged.vol`faulty, staged.vol`touched, staged.vol`refused, staged.vol`log, staged.vol`trace
    ensures staged.Valid() && old(staged.vol.trace) <= staged.vol.trace
    ensures (old(staged.vol.faulty) ==> staged.vol.faulty) && (old(staged.vol.touched) ==> staged.vol.touched)
    ensures r.Err? ==> Working(staged, base)
    ensures r.Ok? ==>
              && staged.vol.trace == old(staged.vol.trace) + PublicationOf(staged.payloadFile.value, old(staged.vol.fs), verified, last)
              && Shows(staged, verified, staged.payloadFile.value, mode)
              && Shows(staged, last, staged.payloadFile.value, mode)
              && staged.stageName != staged.destinationName
              && staged.vol.fs.parentPath == Some(staged.parent)
              && Entry(staged.vol.fs, staged.parent, staged.destinationName) == staged.payloadFile
              && IsKind(staged.vol.fs, staged.payloadFile.value, Regular)
              && staged.vol.fs.inodes[staged.payloadFile.value].mode == mode
              && staged.vol.fs.inodes[staged.payloadFile.value].nlink == 1
              && staged.vol.fs.inodes[staged.payloadFile.value].uid == staged.vol.euid
              && !staged.payloadActive
    ensures r.Ok? && !r.value ==> staged.vol.faulty
    ensures r.Ok? && !staged.vol.touched ==>
              staged.vol.fs.inodes[staged.payloadFile.value].data == old(staged.vol.fs).inodes[staged.payloadFile.value].data
    ensures r.Err? ==> !staged.vol.Undisturbed() || !Shows(staged, old(staged.vol.fs), staged.payloadFile.value, mode)
                       || !staged.DestinationOk(old(staged.vol.fs))
    ensures r.Ok? ==> staged.vol.refused == old(staged.vol.refused)
    ensures r.Ok? && staged.vol.Undisturbed() ==>
              !staged.directoryActive && staged.vol.fs.entries == base[(staged.parent, staged.destinationName) := staged.payloadFile.value]
  {
    var step;
    step, verified := Verify(staged, mode, base);
    if step.Err? {
      return Err(step.error), verified, staged.vol.fs;
    }
    last := staged.vol.fs;
    TidyHasStage(staged, base);
    r := staged.Publish(base);
  }

  /** The destination entry names `ino`, a regular file of the installer's with one link and this mode. */
  ghost predicate Installed(vol: Volume, staged: Installer, ino: Ino, mode: nat)
    reads vol
  {
    && vol.fs.parentPath == Some(staged.parent)
    && Entry(vol.fs, staged.parent, staged.destinationName) == Some(ino)
    && IsKind(vol.fs, ino, Regular)
    && vol.fs.inodes[ino].mode == mode && vol.fs.inodes[ino].nlink == 1 && vol.fs.inodes[ino].uid == vol.euid
  }

  /**
   The file system right before the preparation hook, when the payload was adopted, after it was
   verified, and right before the rename.
   */
  datatype Sights = Sights(copied: FileSystem, signed: FileSystem, verified: FileSystem, last: FileSystem)

  /** What follows the reservation in a run that succeeds: nothing comes between these moments. */
  function StagesOf(adopted: Ino, seen: Sights): seq<Moment> {
    PreparationOf(adopted, seen.copied, seen.signed) + PublicationOf(adopted, seen.signed, seen.verified, seen.last)
  }

  /** All moments of a run that succeeds, from `start` on: a hook, the opening of the stage, and the stages. */
  ghost predicate IsSuccess(moments: seq<Moment>, start: FileSystem, adopted: Ino, seen: Sights) {
    && |moments| == 7 && moments[2..] == StagesOf(adopted, seen)
    && moments[0].Hooked? && moments[0].hook == BeforeReservation && moments[0].before == start
    && moments[1].Hooked? && moments[1].hook == BeforeOpening
  }

  ghost predicate Throughout(staged: Installer, seen: Sights, adopted: Ino, source: Source) {
    && ShowsCopy(staged, seen.copied, source)
    && Shows(staged, seen.signed, adopted, source.mode)
    && Shows(staged, seen.verified, adopted, source.mode)
    && Shows(staged, seen.last, adopted, source.mode)
  }

  /** The stages between the reservation and the cleanup. */
  method RunStages(staged: Installer, source: Source, ghost base: map<EntryKey, Ino>)
    returns (r: Result<bool, Error>, ghost adopted: Ino, ghost seen: Sights)
    requires Working(staged, base) && source.ino in staged.vol.fs.inodes
    modifies staged, staged.vol
    ensures staged.Valid() && old(staged.vol.trace) <= staged.vol.trace
    ensures (old(staged.vol.faulty) ==> staged.vol.faulty) && (old(staged.vol.touched) ==> staged.vol.touched)
    ensures r.Err? ==> Working(staged, base)
    ensures r.Ok? ==>
              && !staged.payloadActive && staged.stageName != staged.destinationName
              && staged.vol.trace == old(staged.vol.trace) + StagesOf(adopted, seen)
              && Throughout(staged, seen, adopted, source)
              && Installed(staged.vol, staged, adopted, source.mode)
              && (!staged.vol.touched ==>
                    staged.vol.fs.inodes[adopted].data == old(staged.vol.fs).inodes[source.ino].data)
    ensures r.Err? ==> !staged.vol.Undisturbed() || !old(CreatedOk(staged)) || !staged.DestinationOk(old(staged.vol.fs))
    ensures r.Ok? && !r.value ==> staged.vol.faulty
    ensures r.Ok? ==> staged.vol.refused == old(staged.vol.refused)
    ensures r.Ok? && staged.vol.Undisturbed() ==>
              !staged.directoryActive && staged.vol.fs.entries == base[(staged.parent, staged.destinationName) := adopted]
  {
    adopted, seen := source.ino, Sights(staged.vol.fs, staged.vol.fs, staged.vol.fs, staged.vol.fs);
    var prepared;
    ghost var copied;
    prepared, copied := PrepareAndAdopt(staged, source, base);
    if prepared.Err? {
      return Err(prepared.error), adopted, seen;
    }
    ghost var signed := staged.vol.fs;
    adopted := staged.payloadFile.value;
    ghost var verified, last;
    r, verified, last := VerifyAndPublish(staged, source.mode, base);
    seen := Sights(copied, signed, verified, last);
  }

  /** After a failed install the explicit cleanup, and the one `Drop` runs again. */
  method AbandonInstall(staged: Installer, ghost base: map<EntryKey, Ino>)
    requires Working(staged, base)
    modifies staged`payloadActive, staged`directoryActive, staged.vol`fs, staged.vol`faulty, staged.vol`log
    ensures staged.Valid() && NeverPublished(staged.vol.log) && (old(staged.vol.faulty) ==> staged.vol.faulty)
    ensures staged.vol.touched || staged.vol.faulty || staged.vol.fs.entries == base
  {
    var cleaned := staged.Cleanup(base);
    var dropped := staged.Cleanup(base);
  }

  /** After a published install `Drop` can at most remove the stage directory; the destination stands. */
  method CloseInstall(staged: Installer, ghost adopted: Ino, ghost mode: nat)
    requires staged.Valid() && !staged.payloadActive && staged.stageName != staged.destinationName
    requires Installed(staged.vol, staged, adopted, mode)
    modifies staged`payloadActive, staged`directoryActive, staged.vol`fs, staged.vol`faulty, staged.vol`log
    ensures staged.Valid() && Installed(staged.vol, staged, adopted, mode)
    ensures staged.vol.fs.inodes[adopted].data == old(staged.vol.fs).inodes[adopted].data
    ensures old(staged.vol.faulty) ==> staged.vol.faulty
    ensures !old(staged.directoryActive) ==> staged.vol.fs == old(staged.vol.fs)
  {
    var dropped := staged.Cleanup(map[]);
  }

  /** Everything after the reservation, cleanup included. */
  method RunReserved(staged: Installer, source: Source, ghost base: map<EntryKey, Ino>)
    returns (r: Result<bool, Error>, ghost adopted: Ino, ghost seen: Sights)
    requires Working(staged, base) && source.ino in staged.vol.fs.inodes
    modifies staged, staged.vol
    ensures staged.Valid() && old(staged.vol.trace) <= staged.vol.trace
    ensures (old(staged.vol.faulty) ==> staged.vol.faulty) && (old(staged.vol.touched) ==> staged.vol.touched)
    ensures r.Ok? ==>
              && staged.vol.trace == old(staged.vol.trace) + StagesOf(adopted, seen)
              && Throughout(staged, seen, adopted, source)
              && Installed(staged.vol, staged, adopted, source.mode)
              && (!staged.vol.touched ==>
                    staged.vol.fs.inodes[adopted].data == old(staged.vol.fs).inodes[source.ino].data)
    ensures r.Err? ==>
              && NeverPublished(staged.vol.log)
              && (staged.vol.touched || staged.vol.faulty || staged.vol.fs.entries == base)
    ensures staged.vol.Undisturbed() && old(CreatedOk(staged)) && staged.DestinationOk(old(staged.vol.fs)) ==> r.Ok? && r.value
    ensures r.Ok? ==> staged.vol.refused == old(staged.vol.refused)
    ensures r.Ok? && staged.vol.Undisturbed() ==>
              staged.vol.fs.entries == base[(staged.parent, staged.destinationName) := adopted]
  {
    r, adopted, seen := RunStages(staged, source, base);
    if r.Err? {
      AbandonInstall(staged, base);
    } else {
      CloseInstall(staged, adopted, source.mode);
    }
  }

  lemma SuccessInOrder(t: seq<Moment>, hooked: seq<Moment>, staging: seq<Moment>, end: seq<Moment>,
                       start: FileSystem, adopted: Ino, seen: Sights)
    requires OneHook(t, hooked, BeforeReservation) && hooked[|t|].before == start
    requires OneHook(hooked, staging, BeforeOpening) && end == staging + StagesOf(adopted, seen)
    ensures t <= end && IsSuccess(end[|t|..], start, adopted, seen)
  {
    assert end[|t|..][2..] == StagesOf(adopted, seen);
    assert end[|t|..][0] == hooked[|t|] && end[|t|..][1] == staging[|t| + 1];
  }

  /**
   `install_binary_unix` once the destination is resolved and the source is open. The hooks may do
   anything to the file system.

   On success the trace is exactly this: the first hook, the opening of the stage, the preparation
   hook, the adoption of one inode, the verification hook, the last hook and the rename, with no
   change between any two of the last five. The preparation hook finds the bytes and the mode of the
   source under the public payload path; the adopted inode is what that path names when it is
   adopted, after it is verified and right before the rename, each time with the source's mode and
   one link; and it is what the destination entry names in the directory that the install path names.
   No hook reported a failure, and if none touched the file system it has the bytes of the source. On
   error nothing was ever renamed; and if no hook touched the file system and no call broke, the
   directories are exactly as they began. An undisturbed install into a directory that is ready for it
   succeeds and changes the destination entry alone.
   */
  method Install(vol: Volume, destinationName: string, source: Source)
    returns (r: Result<bool, Error>, ghost adopted: Ino, ghost seen: Sights, ghost staged: Installer?)
    requires WellFormed(vol.fs) && OnlyOwnRemovals(vol.log) && NeverPublished(vol.log)
    requires IsKind(vol.fs, source.ino, Regular)
    modifies vol
    ensures WellFormed(vol.fs) && OnlyOwnRemovals(vol.log) && old(vol.trace) <= vol.trace
    ensures (old(vol.faulty) ==> vol.faulty) && (old(vol.touched) ==> vol.touched)
    ensures r.Ok? ==>
              && staged != null && staged.vol == vol && staged.destinationName == destinationName
              && IsSuccess(vol.trace[|old(vol.trace)|..], old(vol.fs), adopted, seen)
              && Throughout(staged, seen, adopted, source)
              && Installed(vol, staged, adopted, source.mode)
              && (!vol.touched ==> vol.fs.inodes[adopted].data == old(vol.fs).inodes[source.ino].data)
    ensures r.Err? ==> NeverPublished(vol.log)
    ensures r.Err? ==> vol.touched || vol.faulty || vol.fs.entries == old(vol.fs).entries
    ensures vol.Undisturbed() && IsReady(old(vol.fs), destinationName) ==> r.Ok? && r.value
    ensures r.Ok? ==> vol.refused == old(vol.refused)
    ensures r.Ok? && vol.Undisturbed() ==> vol.fs.entries == old(vol.fs).entries[(staged.parent, destinationName) := adopted]
  {
    adopted, seen, staged := source.ino, Sights(vol.fs, vol.fs, vol.fs, vol.fs), null;
    var hooked := vol.RunHook(BeforeReservation, {source.ino});
    if !hooked {
      return Err(HookFailed), adopted, seen, null;
    }
    ghost var base, hookedTrace := vol.fs.entries, vol.trace;
    var reserved := Reserve(vol, destinationName, {source.ino});
    if reserved.Err? {
      return Err(reserved.error), adopted, seen, null;
    }
    var s := reserved.value;
    staged := s;
    ghost var staging := vol.trace;
    r, adopted, seen := RunReserved(s, source, base);
    if r.Ok? {
      SuccessInOrder(old(vol.trace), hookedTrace, staging, vol.trace, old(vol.fs), adopted, seen);
    }
  }
}
