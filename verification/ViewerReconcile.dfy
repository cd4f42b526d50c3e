/**
 Reconciling duplicate viewer tabs (`bucket_tab_identity` in `src/run_triage_cli.rs`): any number of
 partly failed attempts, while delayed creations keep opening more tabs of the same name.
 */
module ViewerReconcile {
  import opened Results
  import opened TabIdentity
  import opened TabInventory

  /** `is_owned_viewer_tab_name`: `... [vc:<32 hex digits>]`. */
  predicate IsOwnedViewerName(tab: string) {
    && |tab| >= 38
    && tab[|tab| - 1] == ']'
    && tab[|tab| - 38..|tab| - 33] == " [vc:"
    && IsInstanceId(tab[|tab| - 33..|tab| - 1])
  }

  predicate IsTagged(tab: string, front: string, token: string) {
    tab == front + " [vc:" + token + "]" && |token| == 32 && forall i :: 0 <= i < 32 ==> IsHexDigit(token[i])
  }

  /** A name is owned exactly when it ends in a blank and a token of 32 hex digits in the viewer's brackets. */
  lemma OwnedNameIs(tab: string)
    ensures IsOwnedViewerName(tab) <==> exists front, token :: IsTagged(tab, front, token)
  {
    if IsOwnedViewerName(tab) {
      var front, token := tab[..|tab| - 38], tab[|tab| - 33..|tab| - 1];
      assert tab == front + tab[|tab| - 38..|tab| - 33] + token + [tab[|tab| - 1]];
      assert IsTagged(tab, front, token);
    }
    if front, token :| IsTagged(tab, front, token) {
      assert tab[|tab| - 33..|tab| - 1] == token;
      assert tab[|tab| - 38..|tab| - 33] == " [vc:";
    }
  }

  function EntryOf(i: Identity): TabEntry {
    TabEntry(Some(i.name), Some(i.id), Some(i.incarnation), Some(i.instanceId))
  }

  function Entries(listing: seq<Identity>): seq<TabEntry> {
    seq(|listing|, i requires 0 <= i < |listing| => EntryOf(listing[i]))
  }

  function NamedIn(listing: seq<Identity>, tab: string): (r: seq<Identity>)
    ensures forall i :: i in r <==> i in listing && i.name == tab
  {
    if listing == [] then [] else
      (if listing[0].name == tab then [listing[0]] else []) + NamedIn(listing[1..], tab)
  }

  ghost predicate Distinct(listing: seq<Identity>) {
    forall i, j :: 0 <= i < j < |listing| ==> listing[i] != listing[j]
  }

  lemma {:induction false} NamedInKeepsDistinct(listing: seq<Identity>, tab: string)
    requires Distinct(listing)
    ensures Distinct(NamedIn(listing, tab))
  {
    if listing == [] {
    } else {
      NamedInKeepsDistinct(listing[1..], tab);
      var rest := NamedIn(listing[1..], tab);
      forall j | 0 <= j < |rest| ensures rest[j] != listing[0] {
        assert rest[j] in rest && rest[j] in listing[1..];
      }
    }
  }

  /** Complete lower-case entries are read back as the identities they are. */
  lemma {:induction false} IdentitiesAreReadBack(listing: seq<Identity>, session: string, tab: string)
    requires forall i :: i in listing ==> i.IsTyped() && i.session == session && IsLower(i.instanceId)
    ensures TabIdentitiesForName(Entries(listing), session, tab) == Ok(NamedIn(listing, tab))
  {
    if listing == [] {
      assert Entries(listing) == [];
    } else {
      assert Entries(listing)[1..] == Entries(listing[1..]);
      IdentitiesAreReadBack(listing[1..], session, tab);
      LowerFixesExactlyLowerCase(listing[0].instanceId);
      var first := listing[0];
      assert first.name == tab ==> ReadIdentity(EntryOf(first), session, tab) == Ok(first);
      assert Entries(listing)[0] == EntryOf(first);
      assert [] + NamedIn(listing[1..], tab) == NamedIn(listing[1..], tab);
      assert NamedIn(listing, tab) == (if first.name == tab then [first] else []) + NamedIn(listing[1..], tab);
    }
  }

  function FirstSame(matches: seq<Identity>, expected: Identity): (r: Option<Identity>)
    ensures r.Some? ==> r.value in matches && r.value.IsSameDurableTab(expected)
    ensures r.None? ==> forall i :: i in matches ==> !i.IsSameDurableTab(expected)
  {
    if matches == [] then None
    else if matches[0].IsSameDurableTab(expected) then Some(matches[0])
    else FirstSame(matches[1..], expected)
  }

  function LowestId(matches: seq<Identity>): (r: Identity)
    requires matches != []
    ensures r in matches && forall i :: i in matches ==> r.id <= i.id
  {
    if |matches| == 1 then matches[0] else
      var rest := LowestId(matches[1..]);
      if matches[0].id <= rest.id then matches[0] else rest
  }

  /** Which of the tabs of one name survives: the reserved instance if there is one, else the lowest id. */
  ghost predicate IsKeeper(named: set<Identity>, expected: Option<Identity>, k: Identity) {
    && k in named
    && (expected.Some? ==> k.IsSameDurableTab(expected.value))
    && (expected.None? ==> forall i :: i in named ==> k.id <= i.id)
  }

  /** Ids and instance ids are distinct, and every id is below the next one to be given out. */
  ghost predicate Sound(session: string, tabs: set<Identity>, nextId: nat) {
    && (forall i :: i in tabs ==> i.IsTyped() && i.session == session && IsLower(i.instanceId) && i.id < nextId)
    && (forall i, j :: i in tabs && j in tabs && (i.id == j.id || i.instanceId == j.instanceId) ==> i == j)
  }

  lemma KeeperIsUnique(session: string, tabs: set<Identity>, nextId: nat, tab: string, expected: Option<Identity>,
                       k: Identity, k': Identity)
    requires Sound(session, tabs, nextId)
    requires IsKeeper(Named(tabs, tab), expected, k) && IsKeeper(Named(tabs, tab), expected, k')
    ensures k == k'
  {}

  ghost function Named(tabs: set<Identity>, tab: string): set<Identity> {
    set i | i in tabs && i.name == tab
  }

  class ViewerSession {
    const session: string
    /** The name being reconciled: nobody but us closes or renames its tabs. */
    const watched: string
    var tabs: set<Identity>
    var nextId: nat
    /** What we closed, how many watched tabs were opened by others, and how many commands failed. */
    ghost var closed: seq<Identity>
    ghost var arrivals: nat
    ghost var faults: nat

    ghost predicate Valid()
      reads this
    {
      Sound(session, tabs, nextId)
    }

    ghost function Watched(): set<Identity>
      reads this
    {
      Named(tabs, watched)
    }

    constructor (session: string, watched: string, tabs: set<Identity>, nextId: nat)
      requires Sound(session, tabs, nextId)
      ensures Valid() && this.session == session && this.watched == watched && this.tabs == tabs
      ensures closed == [] && arrivals == 0 && faults == 0
    {
      this.session, this.watched, this.tabs, this.nextId := session, watched, tabs, nextId;
      closed, arrivals, faults := [], 0, 0;
    }

    /** One thing somebody else does: open a tab, or close a tab of another name. */
    method Step()
      requires Valid()
      modifies this`tabs, this`nextId, this`arrivals
      ensures Valid() && old(nextId) <= nextId && old(arrivals) <= arrivals
      ensures old(Watched()) <= Watched()
      ensures forall i :: i in Watched() && i !in old(Watched()) ==> i.id >= old(nextId)
      ensures arrivals == old(arrivals) ==> Watched() == old(Watched())
    {
      var t: Identity := *;
      var opens: bool := *;
      if opens {
        var used := set i | i in tabs :: i.instanceId;
        if t.IsTyped() && t.session == session && IsLower(t.instanceId) && t.instanceId !in used {
          t := t.(id := nextId);
          if t.name == watched {
            arrivals := arrivals + 1;
          }
          tabs, nextId := tabs + {t}, nextId + 1;
        }
      } else if t.name != watched {
        tabs := tabs - {t};
      }
    }

    /** Tabs of other names change freely; new tabs get higher ids and unused instance ids. */
    method Interfere()
      requires Valid()
      modifies this`tabs, this`nextId, this`arrivals
      ensures Valid() && old(nextId) <= nextId && old(arrivals) <= arrivals
      ensures old(Watched()) <= Watched()
      ensures forall i :: i in Watched() && i !in old(Watched()) ==> i.id >= old(nextId)
      ensures arrivals == old(arrivals) ==> Watched() == old(Watched())
    {
      var steps: nat :| true;
      for s := 0 to steps
        invariant Valid() && old(nextId) <= nextId && old(arrivals) <= arrivals
        invariant old(Watched()) <= Watched()
        invariant forall i :: i in Watched() && i !in old(Watched()) ==> i.id >= old(nextId)
        invariant arrivals == old(arrivals) ==> Watched() == old(Watched())
      {
        Step();
      }
    }

    /** One inventory, in any order. */
    method TabInventory() returns (r: Result<Listing, ()>, ghost listing: seq<Identity>)
      requires Valid()
      modifies this`tabs, this`nextId, this`arrivals, this`faults
      ensures Valid() && old(nextId) <= nextId && old(arrivals) <= arrivals && old(faults) <= faults
      ensures old(Watched()) <= Watched()
      ensures forall i :: i in Watched() && i !in old(Watched()) ==> i.id >= old(nextId)
      ensures arrivals == old(arrivals) ==> Watched() == old(Watched())
      ensures r.Ok? ==> r.value == Tabs(Entries(listing)) && Distinct(listing) && forall i :: i in listing <==> i in tabs
      ensures r.Err? ==> faults > old(faults)
    {
      Interfere();
      var fails: bool := *;
      if fails {
        faults := faults + 1;
        return Err(()), [];
      }
      var order: seq<Identity> := [];
      var left := tabs;
      while left != {}
        invariant left <= tabs && Distinct(order)
        invariant forall i :: i in order <==> i in tabs && i !in left
        decreases left
      {
        var i :| i in left;
        order, left := order + [i], left - {i};
      }
      return Ok(Tabs(Entries(order))), order;
    }

    /** `close-tab`, fenced by all four expectations; success means the tab is gone. */
    method CloseTab(t: Identity) returns (ok: bool)
      requires Valid() && t.name == watched && t.session == session
      modifies this`tabs, this`nextId, this`arrivals, this`faults, this`closed
      ensures Valid() && old(nextId) <= nextId && old(arrivals) <= arrivals && old(faults) <= faults
      ensures old(Watched()) - {t} <= Watched()
      ensures forall i :: i in Watched() && i !in old(Watched()) ==> i.id >= old(nextId)
      ensures closed == old(closed) || closed == old(closed) + [t]
      ensures ok && arrivals == old(arrivals) ==> Watched() == old(Watched()) - {t}
      ensures !ok ==> faults > old(faults)
    {
      Interfere();
      ok := *;
      var acts: bool := *;
      if (ok || acts) && t in tabs {
        tabs := tabs - {t};
        closed := closed + [t];
      }
      if !ok {
        faults := faults + 1;
      }
    }
  }

  // ---- the reconciliation ---------------------------------------------------------------

  /** A keeper stays the keeper when others are closed and newer tabs arrive. */
  lemma KeeperStays(before: set<Identity>, after: set<Identity>, nextId: nat,
                    expected: Option<Identity>, k: Identity)
    requires IsKeeper(before, expected, k) && k.id < nextId && k in after
    requires forall i :: i in after && i !in before ==> i.id >= nextId
    ensures IsKeeper(after, expected, k)
  {}

  /** We closed nothing but watched tabs other than `k`. */
  ghost predicate SparedKeeper(before: seq<Identity>, after: seq<Identity>, watched: string, k: Identity) {
    && before <= after
    && forall i :: |before| <= i < |after| ==> after[i].name == watched && after[i] != k
  }

  /** The choice among several tabs of one owned name. */
  function ChooseKeeper(matches: seq<Identity>, expected: Option<Identity>): Result<Identity, Refusal>
    requires matches != []
  {
    match expected
    case Some(e) =>
      (match FirstSame(matches, e)
       case Some(k) => Ok(k)
       case None => Err(NoReservedInstance))
    case None => Ok(LowestId(matches))
  }

  /** Whatever order the inventory comes in, the choice is the keeper of the set. */
  lemma ChoiceIsTheKeeper(s: ViewerSession, listing: seq<Identity>, matches: seq<Identity>, expected: Option<Identity>)
    requires forall i :: i in listing <==> i in s.tabs
    requires matches == NamedIn(listing, s.watched) && matches != []
    ensures forall i :: i in matches <==> i in s.Watched()
    ensures ChooseKeeper(matches, expected).Ok? ==>
              IsKeeper(s.Watched(), expected, ChooseKeeper(matches, expected).value)
    ensures ChooseKeeper(matches, expected).Err? ==> forall k :: !IsKeeper(s.Watched(), expected, k)
  {}

  /** Closes every match but the keeper, stopping at the first command that fails. */
  method CloseDuplicates(s: ViewerSession, matches: seq<Identity>, keeper: Identity, expected: Option<Identity>)
    returns (ok: bool)
    requires s.Valid() && IsKeeper(s.Watched(), expected, keeper)
    requires forall i :: i in matches <==> i in s.Watched()
    modifies s
    ensures s.Valid() && old(s.nextId) <= s.nextId && old(s.arrivals) <= s.arrivals && old(s.faults) <= s.faults
    ensures IsKeeper(s.Watched(), expected, keeper)
    ensures SparedKeeper(old(s.closed), s.closed, s.watched, keeper)
    ensures forall i :: i in s.Watched() && i !in old(s.Watched()) ==> i.id >= old(s.nextId)
    ensures !ok ==> s.faults > old(s.faults)
    ensures ok && s.arrivals == old(s.arrivals) ==> s.Watched() == {keeper}
  {
    ok := true;
    var i := 0;
    while i < |matches|
      invariant 0 <= i <= |matches|
      invariant s.Valid() && old(s.nextId) <= s.nextId && old(s.arrivals) <= s.arrivals && old(s.faults) <= s.faults
      invariant IsKeeper(s.Watched(), expected, keeper)
      invariant SparedKeeper(old(s.closed), s.closed, s.watched, keeper)
      invariant forall j :: j in s.Watched() && j !in old(s.Watched()) ==> j.id >= old(s.nextId)
      invariant s.arrivals == old(s.arrivals) ==>
                  forall j :: j in s.Watched() <==> j == keeper || (j in old(s.Watched()) && j !in matches[..i])
    {
      var duplicate := matches[i];
      assert duplicate in matches;
      assert matches[..i + 1] == matches[..i] + [duplicate];
      if duplicate.instanceId != keeper.instanceId {
        ghost var before := s.Watched();
        ghost var nextId := s.nextId;
        var closed := s.CloseTab(duplicate);
        KeeperStays(before, s.Watched(), nextId, expected, keeper);
        if !closed {
          return false;
        }
      }
      i := i + 1;
    }
    assert matches[..i] == matches;
  }

  /** One inventory, narrowed to the watched name. */
  method WatchedTabs(s: ViewerSession) returns (r: Result<seq<Identity>, Refusal>, ghost listing: seq<Identity>)
    requires s.Valid()
    modifies s`tabs, s`nextId, s`arrivals, s`faults
    ensures s.Valid() && old(s.nextId) <= s.nextId && old(s.arrivals) <= s.arrivals && old(s.faults) <= s.faults
    ensures old(s.Watched()) <= s.Watched()
    ensures forall i :: i in s.Watched() && i !in old(s.Watched()) ==> i.id >= old(s.nextId)
    ensures s.arrivals == old(s.arrivals) ==> s.Watched() == old(s.Watched())
    ensures r.Ok? ==> r.value == NamedIn(listing, s.watched) && forall i :: i in listing <==> i in s.tabs
    ensures r.Ok? ==> Distinct(r.value)
    ensures r.Err? ==> s.faults > old(s.faults)
  {
    var inventory;
    inventory, listing := s.TabInventory();
    if inventory.Err? {
      return Err(ListFailed), listing;
    }
    IdentitiesAreReadBack(listing, s.session, s.watched);
    NamedInKeepsDistinct(listing, s.watched);
    r := TabIdentitiesForName(inventory.value.tabs, s.session, s.watched);
  }

  /** The final `match`: nothing, exactly the tab that may be there, or an error. */
  function Settle(matches: seq<Identity>, expected: Option<Identity>): Result<Option<Identity>, Refusal> {
    if matches == [] then Ok(None)
    else if |matches| > 1 then Err(StillAmbiguous)
    else if expected.Some? && !matches[0].IsSameDurableTab(expected.value) then Err(ReservationMismatch)
    else Ok(Some(matches[0]))
  }

  /** The duplicates' branch: choose the keeper, close the others, and look again. */
  method CloseAllButKeeper(s: ViewerSession, matches: seq<Identity>, ghost listing: seq<Identity>,
                           expected: Option<Identity>, ghost kept: Identity)
    returns (r: Result<seq<Identity>, Refusal>)
    requires s.Valid() && matches != [] && matches == NamedIn(listing, s.watched)
    requires forall i :: i in listing <==> i in s.tabs
    modifies s
    ensures s.Valid() && old(s.nextId) <= s.nextId && old(s.arrivals) <= s.arrivals && old(s.faults) <= s.faults
    ensures old(s.closed) <= s.closed && (!IsOwnedViewerName(s.watched) ==> s.closed == old(s.closed))
    ensures forall i :: |old(s.closed)| <= i < |s.closed| ==> s.closed[i].name == s.watched
    ensures IsKeeper(old(s.Watched()), expected, kept) ==>
              && IsKeeper(s.Watched(), expected, kept)
              && SparedKeeper(old(s.closed), s.closed, s.watched, kept)
              && (r.Err? && IsOwnedViewerName(s.watched) ==> s.faults > old(s.faults))
              && (r.Ok? && s.arrivals == old(s.arrivals) ==> s.Watched() == {kept})
    ensures r.Ok? ==> Distinct(r.value) && (forall i :: i in r.value <==> i in s.Watched())
    ensures r.Ok? ==> exists k :: IsKeeper(s.Watched(), expected, k)
  {
    if !IsOwnedViewerName(s.watched) {
      return Err(Unowned);
    }
    ChoiceIsTheKeeper(s, listing, matches, expected);
    var keeper := ChooseKeeper(matches, expected);
    if keeper.Err? {
      return Err(keeper.error);
    }
    if IsKeeper(s.Watched(), expected, kept) {
      KeeperIsUnique(s.session, s.tabs, s.nextId, s.watched, expected, keeper.value, kept);
    }
    var ok := CloseDuplicates(s, matches, keeper.value, expected);
    if !ok {
      return Err(CommandFailed);
    }
    ghost var after, afterId := s.Watched(), s.nextId;
    ghost var again;
    r, again := WatchedTabs(s);
    KeeperStays(after, s.Watched(), afterId, expected, keeper.value);
  }

  /**
   `bucket_tab_identity`. Success leaves exactly the returned tab, and it is the keeper. Whatever
   fails, the keeper `kept` survives and only watched tabs are closed; and when no command fails and
   nobody opens another tab during this attempt it succeeds with it, whatever happened before.
   */
  method BucketTabIdentity(s: ViewerSession, expected: Option<Identity>, ghost kept: Identity)
    returns (r: Result<Option<Identity>, Refusal>)
    requires s.Valid()
    modifies s
    ensures s.Valid() && old(s.nextId) <= s.nextId && old(s.arrivals) <= s.arrivals && old(s.faults) <= s.faults
    ensures old(s.closed) <= s.closed && (!IsOwnedViewerName(s.watched) ==> s.closed == old(s.closed))
    ensures forall i :: |old(s.closed)| <= i < |s.closed| ==> s.closed[i].name == s.watched
    ensures r.Ok? ==> s.Watched() == (if r.value.Some? then {r.value.value} else {})
    ensures r.Ok? && r.value.Some? ==> IsKeeper(s.Watched(), expected, r.value.value)
    ensures IsKeeper(old(s.Watched()), expected, kept) ==>
              && IsKeeper(s.Watched(), expected, kept)
              && SparedKeeper(old(s.closed), s.closed, s.watched, kept)
              && (r.Ok? ==> r.value == Some(kept))
              && (IsOwnedViewerName(s.watched) || old(s.Watched()) == {kept} ==>
                    s.faults == old(s.faults) && s.arrivals == old(s.arrivals) ==> r.Ok?)
    ensures old(s.Watched()) == {} && s.faults == old(s.faults) && s.arrivals == old(s.arrivals) ==> r == Ok(None)
  {
    ghost var before, nextId := s.Watched(), s.nextId;
    ghost var listing;
    var listed;
    listed, listing := WatchedTabs(s);
    if IsKeeper(before, expected, kept) {
      KeeperStays(before, s.Watched(), nextId, expected, kept);
    }
    if listed.Ok? {
      SettledIsAlone(s.Watched(), listed.value, expected);
    }
    if listed.Ok? && |listed.value| > 1 {
      listed := CloseAllButKeeper(s, listed.value, listing, expected, kept);
    }
    if listed.Err? {
      return Err(listed.error);
    }
    SettledIsAlone(s.Watched(), listed.value, expected);
    r := Settle(listed.value, expected);
  }

  lemma SettledIsAlone(named: set<Identity>, matches: seq<Identity>, expected: Option<Identity>)
    requires Distinct(matches) && forall i :: i in matches <==> i in named
    ensures forall k :: named == {k} ==> matches == [k]
    ensures var r := Settle(matches, expected);
            r.Ok? ==> named == (if r.value.Some? then {r.value.value} else {})
    ensures |matches| == 1 ==> named == {matches[0]}
    ensures forall k :: IsKeeper(named, expected, k) && |matches| == 1 ==> Settle(matches, expected) == Ok(Some(k))
    ensures named == {} <==> matches == []
  {
    if matches != [] {
      assert matches[0] in matches;
    }
    forall k | named == {k} ensures matches == [k] {
      assert k in matches;
      var last := |matches| - 1;
      assert matches[0] in named && matches[last] in named;
      assert last == 0;
    }
    if |matches| == 1 {
      assert matches[0] in matches;
      forall i | i in named ensures i == matches[0] {
        assert i in matches;
      }
    }
  }

  /**
   Any number of attempts: whichever fail, the keeper stays, and the first success leaves only it.
   Every failed command and every tab opened meanwhile costs at most one attempt, so one attempt more
   than there are of these converges.
   */
  method RetryReconcile(s: ViewerSession, expected: Option<Identity>, ghost kept: Identity, attempts: nat)
    returns (r: Option<Identity>)
    requires s.Valid() && IsKeeper(s.Watched(), expected, kept)
    modifies s
    ensures s.Valid() && IsKeeper(s.Watched(), expected, kept)
    ensures SparedKeeper(old(s.closed), s.closed, s.watched, kept)
    ensures r.Some? ==> r.value == kept && s.Watched() == {kept}
    ensures IsOwnedViewerName(s.watched)
            && attempts > (s.faults - old(s.faults)) + (s.arrivals - old(s.arrivals)) ==>
              r == Some(kept) && s.Watched() == {kept}
  {
    r := None;
    for i := 0 to attempts
      invariant r.None? && s.Valid() && IsKeeper(s.Watched(), expected, kept)
      invariant SparedKeeper(old(s.closed), s.closed, s.watched, kept)
      invariant old(s.arrivals) <= s.arrivals && old(s.faults) <= s.faults
      invariant IsOwnedViewerName(s.watched) ==> i <= (s.faults - old(s.faults)) + (s.arrivals - old(s.arrivals))
    {
      var attempt := BucketTabIdentity(s, expected, kept);
      if attempt.Ok? {
        return attempt.value;
      }
    }
  }
}
