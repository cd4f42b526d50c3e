/**
 The capture commit protocol (`src/run_triage_cli.rs`): what a manifest on disk promises, what a
 restart decides from it, and the invariant every operation of the protocol and every crash keeps.
 */
module CaptureProtocol {
  import opened Results
  import opened TabIdentity
  import opened CaptureDisk

  datatype Source = TerminalScrollback | RuntimeTranscript

  datatype Evidence = Evidence(
    source: Source, sourceIdentity: string, bytes: nat, sha: string, identity: Option<Identity>)

  datatype Request = Request(
    runId: string, session: string, originTab: string, paneId: Option<string>, transcript: Option<string>)

  /** `staging` is `None` when the recorded name is not a single plain path component. */
  datatype Manifest = Manifest(version: nat, request: Request, staging: Option<Name>, evidence: Evidence)

  /** SHA-256 and the JSON library, as parameters. */
  datatype Codec = Codec(
    sha: seq<Byte> -> string, encode: Manifest -> seq<Byte>, decode: seq<Byte> -> Option<Manifest>)

  predicate IsDigest(s: string) {
    |s| == 64 && forall i :: 0 <= i < |s| ==> '0' <= s[i] <= '9' || 'a' <= s[i] <= 'f'
  }

  ghost predicate Lawful(c: Codec) {
    && (forall m :: c.decode(c.encode(m)) == Some(m))
    && (forall data :: IsDigest(c.sha(data)))
  }

  /** `validate_capture_commit_manifest`. */
  predicate IsValidManifest(m: Manifest) {
    && m.evidence.bytes != 0
    && IsDigest(m.evidence.sha)
    && m.evidence.sourceIdentity != []
    && (m.evidence.source == TerminalScrollback ==> m.evidence.identity.Some?)
    && (m.evidence.identity.Some? ==> m.evidence.identity.value.IsTyped())
    && m.staging.Some?
  }

  /** An identity read from the inventory for this request (`tab_identity_for_name`): its names may be empty. */
  predicate IsIdentityFor(req: Request, identity: Identity) {
    && identity.session == req.session && identity.name == req.originTab
    && identity.incarnation != [] && IsInstanceId(identity.instanceId)
  }

  /** A manifest as a capture writes it: nobody validates it at that point. */
  predicate IsWrittenFor(req: Request, m: Manifest) {
    && m.version == 1 && m.request == req
    && m.evidence.bytes != 0
    && IsDigest(m.evidence.sha)
    && m.evidence.sourceIdentity != []
    && (m.evidence.source == TerminalScrollback ==> m.evidence.identity.Some?)
    && (m.evidence.identity.Some? ==> IsIdentityFor(req, m.evidence.identity.value))
    && m.staging.Some?
  }

  /** The request names a session and a tab. */
  predicate IsNamed(req: Request) {
    req.session != [] && req.originTab != []
  }

  /** Whether a restart takes evidence it wrote itself for this request. */
  predicate IsAdoptable(req: Request, e: Evidence) {
    e.identity.None? || IsNamed(req)
  }

  /** A manifest written for the request passes validation exactly when its evidence names no nameless tab. */
  lemma WrittenIsValidExactlyWhenAdoptable(req: Request, m: Manifest)
    requires IsWrittenFor(req, m)
    ensures IsValidManifest(m) <==> IsAdoptable(req, m.evidence)
  {}

  predicate Matches(c: Codec, data: seq<Byte>, e: Evidence) {
    |data| == e.bytes && c.sha(data) == e.sha
  }

  function DataAt(d: Disk, v: View, name: Name): Option<seq<Byte>> {
    if name in v && v[name] in d.inodes then Some(d.inodes[v[name]].data) else None
  }

  /** `committed_capture_matches`: false when the file is missing. */
  predicate MatchesAt(c: Codec, d: Disk, v: View, name: Name, e: Evidence) {
    var data := DataAt(d, v, name);
    data.Some? && Matches(c, data.value, e)
  }

  // ---- what a restart decides -----------------------------------------------------------

  datatype Decision =
    | NoManifest
    | Corrupt
    | Foreign
    | Invalid
    | Committed(evidence: Evidence)
    | Staged(staging: Name, evidence: Evidence)
    | Stale
    | Neither

  /** The branches of `adopt_capture_commit`, in its order. */
  function Decide(c: Codec, req: Request, d: Disk, v: View): Decision {
    match DataAt(d, v, ManifestFile)
    case None => NoManifest
    case Some(serialized) =>
      match c.decode(serialized)
      case None => Corrupt
      case Some(m) =>
        if m.version != 1 || m.request != req then Foreign
        else if !IsValidManifest(m) then Invalid
        else if MatchesAt(c, d, v, Destination, m.evidence) then Committed(m.evidence)
        else if DataAt(d, v, m.staging.value).None? then Stale
        else if MatchesAt(c, d, v, m.staging.value, m.evidence) then Staged(m.staging.value, m.evidence)
        else Neither
  }

  /** A digest, a size, a source and a staging file that a restart accepts. */
  predicate IsComplete(m: Manifest) {
    && m.evidence.bytes > 0 && m.evidence.sourceIdentity != "" && m.staging.Some?
    && |m.evidence.sha| == 64
    && (forall i :: 0 <= i < 64 ==> m.evidence.sha[i] in "0123456789abcdef")
    && match m.evidence.identity
       case None => m.evidence.source == RuntimeTranscript
       case Some(identity) =>
         && identity.session != "" && identity.name != "" && identity.incarnation != ""
         && |identity.instanceId| == 32
         && forall i :: 0 <= i < 32 ==> identity.instanceId[i] in "0123456789abcdefABCDEF"
  }

  /** The file is there, with the size and the digest of the evidence. */
  predicate HasTheBytes(c: Codec, data: Option<seq<Byte>>, e: Evidence) {
    data.Some? && |data.value| == e.bytes && c.sha(data.value) == e.sha
  }

  /**
   What is decided about a manifest of this request: refused exactly if it is incomplete, else committed
   exactly if the destination has the bytes, else staged exactly if the staging file has them, and stale
   exactly if there is no staging file.
   */
  lemma DecidesExactlyBy(c: Codec, req: Request, d: Disk, v: View, m: Manifest)
    requires DataAt(d, v, ManifestFile).Some? && c.decode(DataAt(d, v, ManifestFile).value) == Some(m)
    requires m.version == 1 && m.request == req
    ensures var decision := Decide(c, req, d, v);
            var destination := DataAt(d, v, Destination);
            && (decision == Invalid <==> !IsComplete(m))
            && (decision == Committed(m.evidence) <==> IsComplete(m) && HasTheBytes(c, destination, m.evidence))
            && (IsComplete(m) && !HasTheBytes(c, destination, m.evidence) ==>
                  var staged := DataAt(d, v, m.staging.value);
                  decision == if staged.None? then Stale
                              else if HasTheBytes(c, staged, m.evidence) then Staged(m.staging.value, m.evidence)
                              else Neither)
  {
    HexDigits(m.evidence.sha);
    if m.evidence.identity.Some? {
      HexDigits(m.evidence.identity.value.instanceId);
    }
    assert IsValidManifest(m) <==> IsComplete(m);
  }

  lemma HexDigits(s: string)
    ensures forall i :: 0 <= i < |s| ==> (s[i] in "0123456789abcdef" <==> '0' <= s[i] <= '9' || 'a' <= s[i] <= 'f')
    ensures forall i :: 0 <= i < |s| ==> (s[i] in "0123456789abcdefABCDEF" <==> IsHexDigit(s[i]))
  {
    forall i | 0 <= i < |s|
      ensures s[i] in "0123456789abcdef" <==> '0' <= s[i] <= '9' || 'a' <= s[i] <= 'f'
      ensures s[i] in "0123456789abcdefABCDEF" <==> IsHexDigit(s[i])
    {
      HexDigit(s[i]);
    }
  }

  lemma HexDigit(c: char)
    ensures c in "0123456789abcdef" <==> '0' <= c <= '9' || 'a' <= c <= 'f'
    ensures c in "0123456789abcdefABCDEF" <==> IsHexDigit(c)
  {
    var lower, digits := "0123456789abcdef", "0123456789abcdefABCDEF";
    if '0' <= c <= '9' {
      assert lower[c as int - '0' as int] == c && digits[c as int - '0' as int] == c;
    } else if 'a' <= c <= 'f' {
      assert lower[10 + (c as int - 'a' as int)] == c && digits[10 + (c as int - 'a' as int)] == c;
    } else if 'A' <= c <= 'F' {
      assert digits[16 + (c as int - 'A' as int)] == c;
    }
  }

  /** The evidence in the manifest of a view. */
  function EvidenceAt(c: Codec, d: Disk, v: View): Option<Evidence> {
    match DataAt(d, v, ManifestFile)
    case None => None
    case Some(serialized) =>
      match c.decode(serialized)
      case None => None
      case Some(m) => Some(m.evidence)
  }

  /** The view has a manifest and the capture it describes is in place. */
  predicate Holds(c: Codec, d: Disk, v: View) {
    var e := EvidenceAt(c, d, v);
    e.Some? && MatchesAt(c, d, v, Destination, e.value)
  }

  /** What a restart makes of a capture that is in place. */
  function Found(req: Request, e: Evidence): Decision {
    if IsAdoptable(req, e) then Committed(e) else Invalid
  }

  /** Adopting a staged capture makes every later restart find it committed, with the same evidence. */
  lemma AdoptingTwiceIsAdoptingOnce(c: Codec, req: Request, d: Disk, d': Disk, staging: Name, e: Evidence)
    requires Decide(c, req, d, Current(d)) == Staged(staging, e)
    requires staging != Destination && staging != ManifestFile
    requires d' == Append(d, Move(staging, Destination, Current(d)[staging])) || d' == SyncDirectory(
               Append(d, Move(staging, Destination, Current(d)[staging])))
    ensures Decide(c, req, d', Current(d')) == Committed(e)
    ensures MatchesAt(c, d', Current(d'), Destination, e)
  {
    CurrentOfOneMore(d, Move(staging, Destination, Current(d)[staging]));
    assert Current(d') == ApplyOp(Current(d), Move(staging, Destination, Current(d)[staging]));
  }

  // ---- the invariant --------------------------------------------------------------------

  /**
   What the protocol knows about the disk: the inodes whose contents are final and synced, the
   contents the destination may hold, and the capture the destination held to begin with.
   */
  datatype Books = Books(sealed: set<Ino>, good: set<seq<Byte>>, initial: Option<seq<Byte>>)

  ghost predicate BooksOk(d: Disk, b: Books) {
    && (forall i :: i in d.inodes ==> i < d.next)
    && (forall i :: i in b.sealed ==> i in d.inodes && d.inodes[i].stable)
    && (forall g :: g in b.good ==> g != [] || b.initial == Some(g))
  }

  /** The manifest of a view is ours, its evidence is the sealed staging file's, and nothing is lost. */
  ghost predicate ManifestOk(c: Codec, req: Request, ordered: bool, d: Disk, b: Books, v: View)
    requires ManifestFile in v
  {
    && v[ManifestFile] in b.sealed && v[ManifestFile] in d.inodes
    && c.decode(d.inodes[v[ManifestFile]].data).Some?
    && var m := c.decode(d.inodes[v[ManifestFile]].data).value;
    && IsWrittenFor(req, m)
    && m.staging.value.Staging?
    && var k := m.staging.value.serial;
    && k in b.sealed && k in d.inodes && d.inodes[k].data in b.good && Matches(c, d.inodes[k].data, m.evidence)
    && (ordered ==> MatchesAt(c, d, v, Destination, m.evidence) || Staging(k) in v)
  }

  ghost predicate ViewOk(c: Codec, req: Request, ordered: bool, d: Disk, b: Books, v: View) {
    && (forall n :: n in v ==> v[n] in d.inodes)
    && (Destination in v ==> v[Destination] in b.sealed && d.inodes[v[Destination]].data in b.good)
    && (ManifestFile in v ==> ManifestOk(c, req, ordered, d, b, v))
    && (forall k :: Staging(k) in v ==> v[Staging(k)] == k)
    && (forall k :: Scratch(k) in v ==> v[Scratch(k)] == k)
    && (b.initial.Some? ==> Destination in v)
  }

  /** The manifest of a view still has its capture, in place or staged. */
  predicate HasCapture(c: Codec, d: Disk, v: View) {
    match DataAt(d, v, ManifestFile)
    case None => true
    case Some(serialized) =>
      match c.decode(serialized)
      case None => true
      case Some(m) => MatchesAt(c, d, v, Destination, m.evidence) || (m.staging.Some? && m.staging.value in v)
  }

  /**
   What is durably in place is only given up for other evidence: unless the manifest has been replaced
   by a different one, every crash leaves the durable capture in place; and no capture goes missing
   without a crash.
   */
  ghost predicate Lasting(c: Codec, ordered: bool, d: Disk) {
    var e := EvidenceAt(c, d, d.durable);
    && (Holds(c, d, d.durable) && (EvidenceAt(c, d, Current(d)) == None || EvidenceAt(c, d, Current(d)) == e) ==>
          forall v :: Survives(ordered, d.durable, d.pending, v) ==> EvidenceAt(c, d, v) == e && Holds(c, d, v))
    && (HasCapture(c, d, d.durable) ==> HasCapture(c, d, Current(d)))
  }

  ghost predicate ViewsOk(c: Codec, req: Request, ordered: bool, d: Disk, b: Books) {
    forall v :: Survives(ordered, d.durable, d.pending, v) ==> ViewOk(c, req, ordered, d, b, v)
  }

  /** Whatever a crash leaves right now is in order, and a durable capture lasts. */
  ghost predicate Inv(c: Codec, req: Request, ordered: bool, d: Disk, b: Books) {
    BooksOk(d, b) && ViewsOk(c, req, ordered, d, b) && Lasting(c, ordered, d)
  }

  /** What is known of a directory that holds at most an earlier capture. */
  ghost function InitialBooks(d: Disk): Books {
    if Destination in d.durable && d.durable[Destination] in d.inodes then
      var data := d.inodes[d.durable[Destination]].data;
      Books({d.durable[Destination]}, {data}, Some(data))
    else Books({}, {}, None)
  }

  /** That is where every history starts. */
  lemma InvInitially(c: Codec, req: Request, ordered: bool, d: Disk)
    requires d.pending == []
    requires forall i :: i in d.inodes ==> i < d.next
    requires d.durable.Keys <= {Destination}
    requires Destination in d.durable ==>
               d.durable[Destination] in d.inodes && d.inodes[d.durable[Destination]].stable
    ensures Inv(c, req, ordered, d, InitialBooks(d))
  {}

  lemma InvNow(c: Codec, req: Request, ordered: bool, d: Disk, b: Books)
    requires Inv(c, req, ordered, d, b)
    ensures ViewOk(c, req, ordered, d, b, Current(d))
  {
    CurrentSurvives(ordered, d.durable, d.pending);
  }

  lemma {:induction false} DurableSurvives(ordered: bool, durable: View, ops: seq<DirOp>)
    ensures Survives(ordered, durable, ops, durable)
  {
    if ops == [] {
    } else {
      DurableSurvives(ordered, durable, ops[..|ops| - 1]);
    }
  }

  /** A crash can lose everything that is pending, or nothing. */
  lemma EndsSurvive(ordered: bool, d: Disk)
    ensures Survives(ordered, d.durable, d.pending, d.durable)
    ensures Survives(ordered, d.durable, d.pending, Current(d))
  {
    DurableSurvives(ordered, d.durable, d.pending);
    CurrentSurvives(ordered, d.durable, d.pending);
  }

  /** Only the named contents were touched, and only unsealed ones. */
  ghost predicate Extends(d: Disk, b: Books, d': Disk, b': Books) {
    && d.inodes.Keys <= d'.inodes.Keys
    && b.sealed <= b'.sealed && b.good <= b'.good && b.initial == b'.initial
    && forall i :: i in b.sealed && i in d.inodes ==> d'.inodes[i] == d.inodes[i]
  }

  lemma ViewStaysOk(c: Codec, req: Request, ordered: bool, d: Disk, b: Books, d': Disk, b': Books, v: View)
    requires ViewOk(c, req, ordered, d, b, v) && Extends(d, b, d', b')
    ensures ViewOk(c, req, ordered, d', b', v)
  {}

  lemma ContentsStay(c: Codec, req: Request, ordered: bool, d: Disk, b: Books, d': Disk, b': Books, v: View)
    requires ViewOk(c, req, ordered, d, b, v) && Extends(d, b, d', b')
    ensures EvidenceAt(c, d', v) == EvidenceAt(c, d, v)
    ensures Holds(c, d', v) == Holds(c, d, v) && HasCapture(c, d', v) == HasCapture(c, d, v)
  {}

  /** Touching only unsealed inodes, or sealing more of them, keeps the invariant. */
  lemma InvExtends(c: Codec, req: Request, ordered: bool, d: Disk, b: Books, d': Disk, b': Books)
    requires Inv(c, req, ordered, d, b) && Extends(d, b, d', b') && BooksOk(d', b')
    requires d'.durable == d.durable && d'.pending == d.pending
    ensures Inv(c, req, ordered, d', b')
  {
    forall v | Survives(ordered, d'.durable, d'.pending, v)
      ensures ViewOk(c, req, ordered, d', b', v)
    {
      ViewStaysOk(c, req, ordered, d, b, d', b', v);
    }
    forall v | Survives(ordered, d.durable, d.pending, v)
      ensures EvidenceAt(c, d', v) == EvidenceAt(c, d, v) && Holds(c, d', v) == Holds(c, d, v)
    {
      ContentsStay(c, req, ordered, d, b, d', b', v);
    }
    EndsSurvive(ordered, d);
    ContentsStay(c, req, ordered, d, b, d', b', d.durable);
    ContentsStay(c, req, ordered, d, b, d', b', Current(d));
  }

  /** What a new pending operation must do to every view it can be applied to. */
  ghost predicate OpOk(c: Codec, req: Request, ordered: bool, d: Disk, b: Books, op: DirOp) {
    forall w :: Survives(ordered, d.durable, d.pending, w) && (ordered ==> w == Current(d))
      ==> ViewOk(c, req, ordered, d, b, ApplyOp(w, op))
  }

  lemma InvAppends(c: Codec, req: Request, ordered: bool, d: Disk, b: Books, op: DirOp)
    requires Inv(c, req, ordered, d, b) && OpOk(c, req, ordered, d, b, op)
    requires Lasting(c, ordered, Append(d, op))
    ensures Inv(c, req, ordered, Append(d, op), b)
  {
    forall v | Survives(ordered, d.durable, d.pending + [op], v)
      ensures ViewOk(c, req, ordered, Append(d, op), b, v)
    {
      SurvivorsOfOneMore(ordered, d, op, v);
      if !Survives(ordered, d.durable, d.pending, v) {
        var w: View :| Survives(ordered, d.durable, d.pending, w) && (ordered ==> w == Current(d)) && v == ApplyOp(w, op);
        assert ViewOk(c, req, ordered, d, b, v);
      }
      ViewStaysOk(c, req, ordered, d, b, Append(d, op), b, v);
    }
  }

  /** The operation leaves the manifest and the destination where they are, and removes no promised staging file. */
  predicate IsAside(d: Disk, op: DirOp) {
    match op
    case Link(name, _) => name != ManifestFile && name != Destination
    case Move(_, _, _) => false
    case Unlink(name) => name != ManifestFile && name != Destination
  }

  lemma AsideKeepsContents(c: Codec, d: Disk, op: DirOp, v: View)
    requires IsAside(d, op)
    ensures EvidenceAt(c, d, ApplyOp(v, op)) == EvidenceAt(c, d, v)
    ensures Holds(c, d, ApplyOp(v, op)) == Holds(c, d, v)
  {}

  lemma LastingAside(c: Codec, ordered: bool, d: Disk, op: DirOp)
    requires Lasting(c, ordered, d) && IsAside(d, op)
    requires HasCapture(c, d, Current(d)) ==> HasCapture(c, d, ApplyOp(Current(d), op))
    ensures Lasting(c, ordered, Append(d, op))
  {
    var d' := Append(d, op);
    CurrentOfOneMore(d, op);
    AsideKeepsContents(c, d, op, Current(d));
    var e := EvidenceAt(c, d, d.durable);
    if Holds(c, d, d.durable) && (EvidenceAt(c, d, Current(d)) == None || EvidenceAt(c, d, Current(d)) == e) {
      forall v | Survives(ordered, d.durable, d.pending + [op], v)
        ensures EvidenceAt(c, d', v) == e && Holds(c, d', v)
      {
        SurvivorsOfOneMore(ordered, d, op, v);
        if !Survives(ordered, d.durable, d.pending, v) {
          var w: View :| Survives(ordered, d.durable, d.pending, w) && v == ApplyOp(w, op);
          AsideKeepsContents(c, d, op, w);
        }
      }
    }
  }

  /** The disk with a fresh empty file before it gets its name. */
  function Grown(d: Disk): Disk {
    d.(inodes := d.inodes[d.next := Inode([], false)], next := d.next + 1)
  }

  lemma CreateIsAppend(d: Disk, name: Name)
    ensures CreateFile(d, name) == Append(Grown(d), Link(name, d.next))
  {}

  lemma GrownExtends(d: Disk, b: Books)
    requires BooksOk(d, b)
    ensures Extends(d, b, Grown(d), b) && BooksOk(Grown(d), b)
  {}

  /** Reserving a staging or scratch file. */
  lemma InvCreate(c: Codec, req: Request, ordered: bool, d: Disk, b: Books, name: Name)
    requires Inv(c, req, ordered, d, b)
    requires name == Staging(d.next) || name == Scratch(d.next)
    ensures Inv(c, req, ordered, CreateFile(d, name), b)
  {
    var grown := Grown(d);
    GrownExtends(d, b);
    CreateIsAppend(d, name);
    InvExtends(c, req, ordered, d, b, grown, b);
    var op := Link(name, d.next);
    forall w | Survives(ordered, d.durable, d.pending, w) && (ordered ==> w == Current(grown))
      ensures ViewOk(c, req, ordered, grown, b, ApplyOp(w, op))
    {
      assert ViewOk(c, req, ordered, grown, b, w);
    }
    LastingAside(c, ordered, grown, op);
    InvAppends(c, req, ordered, grown, b, op);
  }

  lemma InvWrite(c: Codec, req: Request, ordered: bool, d: Disk, b: Books, i: Ino, data: seq<Byte>)
    requires Inv(c, req, ordered, d, b) && i in d.inodes && i !in b.sealed
    ensures Inv(c, req, ordered, WriteFile(d, i, data), b)
  {
    InvExtends(c, req, ordered, d, b, WriteFile(d, i, data), b);
  }

  lemma InvSyncFile(c: Codec, req: Request, ordered: bool, d: Disk, b: Books, i: Ino)
    requires Inv(c, req, ordered, d, b) && i in d.inodes
    ensures Inv(c, req, ordered, SyncFile(d, i), b)
  {
    InvExtends(c, req, ordered, d, b, SyncFile(d, i), b);
  }

  /** A synced, non-empty file may be promised to later readers. */
  lemma InvSeal(c: Codec, req: Request, ordered: bool, d: Disk, b: Books, i: Ino, b': Books)
    requires Inv(c, req, ordered, d, b) && i in d.inodes && d.inodes[i].stable
    requires b'.sealed == b.sealed + {i} && b'.initial == b.initial
    requires b.good <= b'.good <= b.good + {d.inodes[i].data}
    requires d.inodes[i].data != []
    ensures Inv(c, req, ordered, d, b')
  {
    InvExtends(c, req, ordered, d, b, d, b');
  }

  lemma LastingInstall(c: Codec, ordered: bool, d: Disk, j: Ino, m: Manifest)
    requires Lasting(c, ordered, d) && j in d.inodes && c.decode(d.inodes[j].data) == Some(m)
    requires m.staging.Some? && m.staging.value.Staging? && m.staging.value in Current(d)
    requires Holds(c, d, d.durable) ==> EvidenceAt(c, d, d.durable) != Some(m.evidence)
    ensures Lasting(c, ordered, Append(d, Move(Scratch(j), ManifestFile, j)))
  {
    CurrentOfOneMore(d, Move(Scratch(j), ManifestFile, j));
  }

  /** Installing a manifest whose staging file is sealed and in place. */
  lemma InvInstall(c: Codec, req: Request, ordered: bool, d: Disk, b: Books, j: Ino, k: Ino, m: Manifest)
    requires Inv(c, req, ordered, d, b)
    requires {j, k} <= b.sealed
    requires c.decode(d.inodes[j].data) == Some(m)
    requires IsWrittenFor(req, m) && m.staging == Some(Staging(k))
    requires Matches(c, d.inodes[k].data, m.evidence) && d.inodes[k].data in b.good
    requires Staging(k) in Current(d)
    requires Holds(c, d, d.durable) ==> EvidenceAt(c, d, d.durable) != Some(m.evidence)
    ensures Inv(c, req, ordered, Append(d, Move(Scratch(j), ManifestFile, j)), b)
  {
    var op := Move(Scratch(j), ManifestFile, j);
    forall w | Survives(ordered, d.durable, d.pending, w) && (ordered ==> w == Current(d))
      ensures ViewOk(c, req, ordered, d, b, ApplyOp(w, op))
    {
      assert ViewOk(c, req, ordered, d, b, w);
      assert ManifestOk(c, req, ordered, d, b, ApplyOp(w, op));
    }
    LastingInstall(c, ordered, d, j, m);
    InvAppends(c, req, ordered, d, b, op);
  }

  /** The manifest a reader finds now, if any, names staging file `k` with evidence `e`. */
  ghost predicate Promises(c: Codec, d: Disk, k: Ino, e: Evidence) {
    && ManifestFile in Current(d) && Current(d)[ManifestFile] in d.inodes
    && var m := c.decode(d.inodes[Current(d)[ManifestFile]].data);
    && m.Some? && m.value.staging == Some(Staging(k)) && m.value.evidence == e
  }

  lemma LastingCommit(c: Codec, req: Request, ordered: bool, d: Disk, b: Books, k: Ino, e: Evidence)
    requires Inv(c, req, ordered, d, b) && Promises(c, d, k, e)
    requires k in b.sealed && Matches(c, d.inodes[k].data, e)
    ensures Lasting(c, ordered, Append(d, Move(Staging(k), Destination, k)))
  {
    var op := Move(Staging(k), Destination, k);
    var d' := Append(d, op);
    CurrentOfOneMore(d, op);
    assert EvidenceAt(c, d, Current(d)) == Some(e);
    assert EvidenceAt(c, d', Current(d')) == Some(e) && Holds(c, d', Current(d'));
    if Holds(c, d, d.durable) && EvidenceAt(c, d, d.durable) == Some(e) {
      forall v | Survives(ordered, d.durable, d.pending + [op], v)
        ensures EvidenceAt(c, d', v) == Some(e) && Holds(c, d', v)
      {
        SurvivorsOfOneMore(ordered, d, op, v);
        if !Survives(ordered, d.durable, d.pending, v) {
          var w: View :| Survives(ordered, d.durable, d.pending, w) && v == ApplyOp(w, op);
          assert EvidenceAt(c, d, w) == Some(e);
        }
      }
    }
  }

  /** Renaming the promised staging file onto the destination. */
  lemma InvCommit(c: Codec, req: Request, ordered: bool, d: Disk, b: Books, k: Ino, e: Evidence)
    requires Inv(c, req, ordered, d, b) && Promises(c, d, k, e)
    requires k in b.sealed && d.inodes[k].data in b.good && Matches(c, d.inodes[k].data, e)
    ensures Inv(c, req, ordered, Append(d, Move(Staging(k), Destination, k)), b)
  {
    var op := Move(Staging(k), Destination, k);
    forall w | Survives(ordered, d.durable, d.pending, w) && (ordered ==> w == Current(d))
      ensures ViewOk(c, req, ordered, d, b, ApplyOp(w, op))
    {
      var v := ApplyOp(w, op);
      assert ViewOk(c, req, ordered, d, b, w);
      if ManifestFile in v {
        assert v[ManifestFile] == w[ManifestFile];
        assert MatchesAt(c, d, v, Destination, e);
        assert ManifestOk(c, req, ordered, d, b, v);
      }
    }
    LastingCommit(c, req, ordered, d, b, k, e);
    InvAppends(c, req, ordered, d, b, op);
  }

  /** After that rename the promised evidence is in place, and a restart takes it if it may. */
  lemma PromotionCommits(c: Codec, req: Request, ordered: bool, d: Disk, b: Books, k: Ino, e: Evidence, d': Disk)
    requires Inv(c, req, ordered, d, b) && Promises(c, d, k, e)
    requires k in d.inodes && Matches(c, d.inodes[k].data, e)
    requires var moved := Append(d, Move(Staging(k), Destination, k)); d' == moved || d' == SyncDirectory(moved)
    ensures DataAt(d', Current(d'), Destination) == Some(d.inodes[k].data)
    ensures MatchesAt(c, d', Current(d'), Destination, e)
    ensures EvidenceAt(c, d', Current(d')) == Some(e)
    ensures Decide(c, req, d', Current(d')) == Found(req, e)
  {
    InvNow(c, req, ordered, d, b);
    CurrentOfOneMore(d, Move(Staging(k), Destination, k));
    assert Current(d') == ApplyOp(Current(d), Move(Staging(k), Destination, k));
  }

  lemma LastingRetire(c: Codec, req: Request, ordered: bool, d: Disk, op: DirOp)
    requires Lasting(c, ordered, d) && Decide(c, req, d, Current(d)) == Stale && ManifestFile in Current(d)
    requires op.Move? && op.from == ManifestFile && op.to.Retired?
    requires forall n :: n in Current(d) ==> Current(d)[n] in d.inodes
    ensures Lasting(c, ordered, Append(d, op))
  {
    CurrentOfOneMore(d, op);
    assert !HasCapture(c, d, Current(d));
    assert !Holds(c, d, d.durable);
    assert HasCapture(c, d, ApplyOp(Current(d), op));
  }

  /** Moving a stale manifest out of the way. */
  lemma InvRetire(c: Codec, req: Request, ordered: bool, d: Disk, b: Books, serial: nat)
    requires Inv(c, req, ordered, d, b) && Decide(c, req, d, Current(d)) == Stale
    ensures Inv(c, req, ordered, Append(d, Move(ManifestFile, Retired(serial), Current(d)[ManifestFile])), b)
  {
    InvNow(c, req, ordered, d, b);
    var op := Move(ManifestFile, Retired(serial), Current(d)[ManifestFile]);
    forall w | Survives(ordered, d.durable, d.pending, w) && (ordered ==> w == Current(d))
      ensures ViewOk(c, req, ordered, d, b, ApplyOp(w, op))
    {
      assert ViewOk(c, req, ordered, d, b, w);
    }
    LastingRetire(c, req, ordered, d, op);
    InvAppends(c, req, ordered, d, b, op);
  }

  /** Dropping a staging file nobody was promised. */
  lemma InvUnlink(c: Codec, req: Request, ordered: bool, d: Disk, b: Books, k: Ino)
    requires Inv(c, req, ordered, d, b) && k !in b.sealed
    ensures Inv(c, req, ordered, Append(d, Unlink(Staging(k))), b)
  {
    var op := Unlink(Staging(k));
    forall w | Survives(ordered, d.durable, d.pending, w) && (ordered ==> w == Current(d))
      ensures ViewOk(c, req, ordered, d, b, ApplyOp(w, op))
    {
      assert ViewOk(c, req, ordered, d, b, w);
    }
    InvNow(c, req, ordered, d, b);
    LastingAside(c, ordered, d, op);
    InvAppends(c, req, ordered, d, b, op);
  }

  lemma InvSyncDirectory(c: Codec, req: Request, ordered: bool, d: Disk, b: Books)
    requires Inv(c, req, ordered, d, b)
    ensures Inv(c, req, ordered, SyncDirectory(d), b)
  {
    InvNow(c, req, ordered, d, b);
    ViewStaysOk(c, req, ordered, d, b, SyncDirectory(d), b, Current(d));
  }

  /** A crash at any moment. */
  lemma InvCrash(c: Codec, req: Request, ordered: bool, d: Disk, b: Books, after: Disk)
    requires Inv(c, req, ordered, d, b) && CrashesTo(ordered, d, after)
    ensures Inv(c, req, ordered, after, b)
  {
    ViewStaysOk(c, req, ordered, d, b, after, b, after.durable);
  }

  // ---- earlier captures -----------------------------------------------------------------

  /** Neither the durable state nor the manifest a reader finds now comes from a capture of this source. */
  ghost predicate Vacant(c: Codec, d: Disk, source: Source) {
    && (Holds(c, d, d.durable) ==> EvidenceAt(c, d, d.durable).value.source != source)
    && (EvidenceAt(c, d, Current(d)).Some? ==> EvidenceAt(c, d, Current(d)).value.source != source)
  }

  /** Without a manifest there is no durable capture either. */
  lemma NoManifestIsVacant(c: Codec, req: Request, ordered: bool, d: Disk, b: Books, source: Source)
    requires Inv(c, req, ordered, d, b) && ManifestFile !in Current(d)
    ensures Vacant(c, d, source)
  {
    EndsSurvive(ordered, d);
  }

  lemma VacantExtends(c: Codec, req: Request, ordered: bool, d: Disk, b: Books, d': Disk, b': Books, source: Source)
    requires Inv(c, req, ordered, d, b) && Extends(d, b, d', b') && Vacant(c, d, source)
    requires d'.durable == d.durable && d'.pending == d.pending
    ensures Vacant(c, d', source)
  {
    EndsSurvive(ordered, d);
    ContentsStay(c, req, ordered, d, b, d', b', d.durable);
    ContentsStay(c, req, ordered, d, b, d', b', Current(d));
  }

  lemma VacantCreate(c: Codec, req: Request, ordered: bool, d: Disk, b: Books, name: Name, source: Source)
    requires Inv(c, req, ordered, d, b) && Vacant(c, d, source)
    requires name == Staging(d.next) || name == Scratch(d.next)
    ensures Vacant(c, CreateFile(d, name), source)
  {
    var grown := Grown(d);
    GrownExtends(d, b);
    CreateIsAppend(d, name);
    VacantExtends(c, req, ordered, d, b, grown, b, source);
    CurrentOfOneMore(grown, Link(name, d.next));
    AsideKeepsContents(c, grown, Link(name, d.next), Current(grown));
    VacantMove(c, grown, Link(name, d.next), source);
  }

  lemma VacantMove(c: Codec, d: Disk, op: DirOp, source: Source)
    requires Vacant(c, d, source)
    requires var e := EvidenceAt(c, d, ApplyOp(Current(d), op));
             e.Some? ==> e.value.source != source
    ensures Vacant(c, Append(d, op), source)
  {
    CurrentOfOneMore(d, op);
    var d' := Append(d, op);
    assert EvidenceAt(c, d', d'.durable) == EvidenceAt(c, d, d.durable);
    assert EvidenceAt(c, d', Current(d')) == EvidenceAt(c, d, ApplyOp(Current(d), op));
  }

  // ---- what the invariant means ---------------------------------------------------------

  /**
   On any file system a restart never finds a corrupt or foreign manifest, nor one with a staging file
   that does not match; when directory operations persist in order it never finds a stale one either.
   It refuses a manifest as invalid exactly when the evidence carries an identity and the request
   names no session or no tab; every other manifest is adopted.
   */
  lemma RestartAdopts(c: Codec, req: Request, ordered: bool, d: Disk, b: Books)
    requires Inv(c, req, ordered, d, b)
    ensures Decide(c, req, d, Current(d)).NoManifest? <==> ManifestFile !in Current(d)
    ensures ManifestFile in Current(d) ==>
              var decision := Decide(c, req, d, Current(d));
              var e := EvidenceAt(c, d, Current(d));
              && e.Some?
              && (decision.Invalid? <==> !IsAdoptable(req, e.value))
              && (IsAdoptable(req, e.value) ==> decision.Committed? || decision.Staged? || (!ordered && decision.Stale?))
              && (decision.Committed? <==> IsAdoptable(req, e.value) && Holds(c, d, Current(d)))
  {
    InvNow(c, req, ordered, d, b);
    if ManifestFile in Current(d) {
      WrittenIsValidExactlyWhenAdoptable(req, c.decode(d.inodes[Current(d)[ManifestFile]].data).value);
    }
  }

  /** The destination only ever holds what it held to begin with or a complete, non-empty capture. */
  lemma DestinationIsGood(c: Codec, req: Request, ordered: bool, d: Disk, b: Books, after: Disk)
    requires Inv(c, req, ordered, d, b) && CrashesTo(ordered, d, after)
    ensures b.initial.Some? ==> Destination in Current(after)
    ensures Destination in Current(after) ==>
              var data := DataAt(after, Current(after), Destination);
              data.Some? && data.value in b.good && (data.value != [] || data == b.initial)
  {
    InvCrash(c, req, ordered, d, b, after);
    InvNow(c, req, ordered, after, b);
  }

  /**
   A committed capture survives every crash exactly when the durable manifest has the same evidence
   and the durable destination already matches it, whatever else is pending.
   */
  lemma CommitLastsExactlyWhenDurable(c: Codec, req: Request, ordered: bool, d: Disk, b: Books, e: Evidence)
    requires Inv(c, req, ordered, d, b) && Decide(c, req, d, Current(d)) == Committed(e)
    ensures (forall after :: CrashesTo(ordered, d, after) ==> Decide(c, req, after, Current(after)) == Committed(e))
       <==> EvidenceAt(c, d, d.durable) == Some(e) && MatchesAt(c, d, d.durable, Destination, e)
  {
    var unsynced := Surviving(d, d.durable);
    EndsSurvive(ordered, d);
    RestartAdopts(c, req, ordered, d, b);
    assert CrashesTo(ordered, d, unsynced);
    CrashFinds(c, req, ordered, d, b, unsynced, e);
    assert EvidenceAt(c, d, Current(d)) == Some(e);
    if EvidenceAt(c, d, d.durable) == Some(e) && MatchesAt(c, d, d.durable, Destination, e) {
      forall after | CrashesTo(ordered, d, after) ensures Decide(c, req, after, Current(after)) == Committed(e) {
        CrashFinds(c, req, ordered, d, b, after, e);
      }
    }
  }

  /** What a restart finds after a crash is what the surviving view says. */
  lemma CrashFinds(c: Codec, req: Request, ordered: bool, d: Disk, b: Books, after: Disk, e: Evidence)
    requires Inv(c, req, ordered, d, b) && CrashesTo(ordered, d, after) && IsAdoptable(req, e)
    ensures Decide(c, req, after, Current(after)) == Committed(e) <==>
              EvidenceAt(c, d, after.durable) == Some(e) && MatchesAt(c, d, after.durable, Destination, e)
  {
    InvCrash(c, req, ordered, d, b, after);
    ContentsStay(c, req, ordered, d, b, after, b, after.durable);
    RestartAdopts(c, req, ordered, after, b);
  }
}
