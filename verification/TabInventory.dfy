/**
 Reading tab inventories (`src/run_triage_cli.rs`): which live tab, if any, is the captured durable one,
 and what an inventory taken after a close proves.
 */
module TabInventory {
  import opened Results
  import opened TabIdentity

  /** One tab of a JSON inventory. A field is `None` when it is absent or of another type. */
  datatype TabEntry = TabEntry(
    name: Option<string>, tabId: Option<nat>, incarnation: Option<string>, instanceId: Option<string>)

  /** The text of an inventory, parsed. */
  datatype Listing = Tabs(tabs: seq<TabEntry>) | NotAnArray | Malformed

  datatype OriginState = Preserved | Closed | Unknown

  datatype Refusal =
    | BadInventory | IncompleteTab | WrongRequest | Untyped | AmbiguousInstance | RenamedOrigin | AmbiguousName
    | ListFailed | StillThere | OtherIncarnation | NoIdentity | Vanished | CommandFailed | Unowned
    | NoReservedInstance | ReservationMismatch | StillAmbiguous

  datatype CloseError = CloseError(why: Refusal, state: OriginState)

  // ---- filters --------------------------------------------------------------------------

  function WithInstance(tabs: seq<TabEntry>, instance: string): seq<TabEntry> {
    if tabs == [] then [] else
      (if tabs[0].instanceId == Some(instance) then [tabs[0]] else []) + WithInstance(tabs[1..], instance)
  }

  ghost predicate HasInstance(tabs: seq<TabEntry>, instance: string) {
    exists i :: 0 <= i < |tabs| && tabs[i].instanceId == Some(instance)
  }

  /** `tab_ids_for_name`. */
  function TabIdsForName(tabs: seq<TabEntry>, name: string): seq<nat> {
    if tabs == [] then [] else
      (if tabs[0].name == Some(name) && tabs[0].tabId.Some? then [tabs[0].tabId.value] else [])
      + TabIdsForName(tabs[1..], name)
  }

  /** A tab as `tab_identities_for_name` reads it: its instance id comes out in lower case. */
  function ReadIdentity(tab: TabEntry, session: string, name: string): Result<Identity, Refusal> {
    if tab.tabId.None? || tab.incarnation.None? || tab.incarnation.value == []
       || tab.instanceId.None? || !IsInstanceId(tab.instanceId.value)
    then Err(IncompleteTab)
    else Ok(Identity(session, name, tab.tabId.value, tab.incarnation.value, Lower(tab.instanceId.value)))
  }

  /** `tab_identities_for_name`: every tab of that name, or an error if one of them is incomplete. */
  function TabIdentitiesForName(tabs: seq<TabEntry>, session: string, name: string): Result<seq<Identity>, Refusal> {
    if tabs == [] then Ok([])
    else if tabs[0].name != Some(name) then TabIdentitiesForName(tabs[1..], session, name)
    else
      match ReadIdentity(tabs[0], session, name)
      case Err(why) => Err(why)
      case Ok(identity) =>
        match TabIdentitiesForName(tabs[1..], session, name)
        case Err(why) => Err(why)
        case Ok(rest) => Ok([identity] + rest)
  }

  // ---- the captured tab, now ------------------------------------------------------------

  /** `validated_origin_tab_id`: the current id of the captured durable tab, or that it is gone. */
  function ValidatedOriginTabId(captured: Identity, session: string, name: string, listing: Listing)
    : Result<Option<nat>, Refusal>
  {
    if captured.session != session || captured.name != name then Err(WrongRequest)
    else if !captured.IsTyped() then Err(Untyped)
    else if !listing.Tabs? then Err(BadInventory)
    else
      var byInstance := WithInstance(listing.tabs, captured.instanceId);
      if |byInstance| > 1 then Err(AmbiguousInstance)
      else if byInstance == [] then Ok(None)
      else
        var current := byInstance[0];
        if current.tabId.None? || current.name.None? || current.incarnation.None? || current.incarnation.value == []
        then Err(IncompleteTab)
        else if current.name.value != name then Err(RenamedOrigin)
        else if TabIdsForName(listing.tabs, name) != [current.tabId.value] then Err(AmbiguousName)
        else Ok(Some(current.tabId.value))
  }

  /** `verified_tab_list_before_close`: only a listing, or a session that is gone, lets the close go on. */
  function VerifiedTabListBeforeClose(listing: Result<Listing, ()>, sessionThere: Result<bool, ()>)
    : Result<Option<Listing>, CloseError>
  {
    match listing
    case Ok(l) => Ok(Some(l))
    case Err(_) =>
      if sessionThere == Ok(false) then Ok(None) else Err(CloseError(ListFailed, Unknown))
  }

  /** What the inventory after a close says about the captured instance. */
  function StateAfterClose(incarnation: string, instance: string, listing: Result<Listing, ()>, sessionThere: Result<bool, ()>)
    : (OriginState, Refusal)
  {
    match listing
    case Err(_) => if sessionThere == Ok(false) then (Closed, StillThere) else (Unknown, ListFailed)
    case Ok(l) =>
      if !l.Tabs? then (Unknown, BadInventory)
      else
        var found := WithInstance(l.tabs, instance);
        if found == [] then (Closed, StillThere)
        else
          match found[0].incarnation
          case None => (Unknown, IncompleteTab)
          case Some(i) => if i == incarnation then (Preserved, StillThere) else (Unknown, OtherIncarnation)
  }

  /** `verify_origin_close`: the result of the close command alone never decides. */
  function VerifyOriginClose(incarnation: string, instance: string, closed: Result<(), ()>,
                             listing: Result<Listing, ()>, sessionThere: Result<bool, ()>): Result<(), CloseError>
  {
    var (state, why) := StateAfterClose(incarnation, instance, listing, sessionThere);
    if state == Closed then Ok(())
    else if closed.Err? then Err(CloseError(CommandFailed, state))
    else Err(CloseError(why, state))
  }

  /** `rebind_origin_tab_identity` once the inventory is in hand. */
  function RebindFrom(captured: Identity, session: string, name: string, listing: Listing)
    : Result<Option<Identity>, Refusal>
  {
    match ValidatedOriginTabId(captured, session, name, listing)
    case Err(why) => Err(why)
    case Ok(None) => Ok(None)
    case Ok(Some(id)) =>
      match TabIdentitiesForName(listing.tabs, session, name)
      case Err(why) => Err(why)
      case Ok(identities) =>
        match FirstWithId(identities, id)
        case None => Err(Vanished)
        case Some(identity) => Ok(Some(identity))
  }

  function FirstWithId(identities: seq<Identity>, id: nat): (r: Option<Identity>)
    ensures r.Some? ==> r.value in identities && r.value.id == id
    ensures r.None? ==> forall i :: i in identities ==> i.id != id
  {
    if identities == [] then None
    else if identities[0].id == id then Some(identities[0])
    else FirstWithId(identities[1..], id)
  }

  // ---- what the answers mean ------------------------------------------------------------

  lemma {:induction false} WithInstanceFinds(tabs: seq<TabEntry>, instance: string)
    ensures WithInstance(tabs, instance) == [] <==> !HasInstance(tabs, instance)
    ensures forall t :: t in WithInstance(tabs, instance) <==> t in tabs && t.instanceId == Some(instance)
  {
    if tabs == [] {
    } else {
      WithInstanceFinds(tabs[1..], instance);
      if i :| 0 <= i < |tabs| && tabs[i].instanceId == Some(instance) {
        if i > 0 {
          assert tabs[1..][i - 1].instanceId == Some(instance);
        }
      }
      if j :| 0 <= j < |tabs| - 1 && tabs[1..][j].instanceId == Some(instance) {
        assert tabs[j + 1].instanceId == Some(instance);
      }
      assert tabs == [tabs[0]] + tabs[1..];
    }
  }

  /** The inventory lists a tab of that name with an id. */
  ghost predicate HasName(tabs: seq<TabEntry>, name: string) {
    exists i :: 0 <= i < |tabs| && tabs[i].name == Some(name) && tabs[i].tabId.Some?
  }

  /** Entry `i` is the one with the instance, it is complete, and no other entry of the name has an id. */
  ghost predicate IsTheTab(tabs: seq<TabEntry>, instance: string, name: string, i: int) {
    && 0 <= i < |tabs| && tabs[i].instanceId == Some(instance) && tabs[i].name == Some(name)
    && tabs[i].tabId.Some? && tabs[i].incarnation.Some? && tabs[i].incarnation.value != []
    && forall j :: 0 <= j < |tabs| && j != i ==>
         tabs[j].instanceId != Some(instance) && !(tabs[j].name == Some(name) && tabs[j].tabId.Some?)
  }

  lemma {:induction false} OnlyInstance(tabs: seq<TabEntry>, instance: string, i: nat)
    requires i < |tabs| && tabs[i].instanceId == Some(instance)
    requires forall j :: 0 <= j < |tabs| && j != i ==> tabs[j].instanceId != Some(instance)
    ensures WithInstance(tabs, instance) == [tabs[i]]
  {
    WithInstanceFinds(tabs[1..], instance);
    if i > 0 {
      OnlyInstance(tabs[1..], instance, i - 1);
    }
  }

  lemma {:induction false} InstancePlace(tabs: seq<TabEntry>, instance: string) returns (i: nat)
    requires |WithInstance(tabs, instance)| == 1
    ensures i < |tabs| && tabs[i].instanceId == Some(instance) && WithInstance(tabs, instance) == [tabs[i]]
    ensures forall j :: 0 <= j < |tabs| && j != i ==> tabs[j].instanceId != Some(instance)
  {
    WithInstanceFinds(tabs[1..], instance);
    if tabs[0].instanceId == Some(instance) {
      i := 0;
      forall j | 0 < j < |tabs| ensures tabs[j].instanceId != Some(instance) {
        assert tabs[1..][j - 1] == tabs[j];
      }
    } else {
      var k := InstancePlace(tabs[1..], instance);
      i := k + 1;
      forall j | 0 < j < |tabs| && j != i ensures tabs[j].instanceId != Some(instance) {
        assert tabs[1..][j - 1] == tabs[j];
      }
    }
  }

  lemma {:induction false} NoNameNoIds(tabs: seq<TabEntry>, name: string)
    ensures TabIdsForName(tabs, name) == [] <==> !HasName(tabs, name)
  {
    if tabs == [] {
    } else {
      NoNameNoIds(tabs[1..], name);
      if i :| 0 <= i < |tabs| && tabs[i].name == Some(name) && tabs[i].tabId.Some? {
        if i > 0 {
          assert tabs[1..][i - 1] == tabs[i];
        }
      }
      if j :| 0 <= j < |tabs| - 1 && tabs[1..][j].name == Some(name) && tabs[1..][j].tabId.Some? {
        assert tabs[j + 1] == tabs[1..][j];
      }
    }
  }

  lemma {:induction false} OnlyName(tabs: seq<TabEntry>, name: string, i: nat)
    requires i < |tabs| && tabs[i].name == Some(name) && tabs[i].tabId.Some?
    requires forall j :: 0 <= j < |tabs| && j != i ==> !(tabs[j].name == Some(name) && tabs[j].tabId.Some?)
    ensures TabIdsForName(tabs, name) == [tabs[i].tabId.value]
  {
    NoNameNoIds(tabs[1..], name);
    if i > 0 {
      OnlyName(tabs[1..], name, i - 1);
    }
  }

  lemma {:induction false} OthersHaveOtherNames(tabs: seq<TabEntry>, name: string, i: nat)
    requires i < |tabs| && tabs[i].name == Some(name) && tabs[i].tabId.Some?
    requires TabIdsForName(tabs, name) == [tabs[i].tabId.value]
    ensures forall j :: 0 <= j < |tabs| && j != i ==> !(tabs[j].name == Some(name) && tabs[j].tabId.Some?)
  {
    var head, tail := tabs[0], tabs[1..];
    assert forall j :: 0 < j < |tabs| ==> tail[j - 1] == tabs[j];
    NoNameNoIds(tail, name);
    if i > 0 {
      NameIsListed(tail, name, tail[i - 1]);
      OthersHaveOtherNames(tail, name, i - 1);
    }
  }

  /**
   The captured tab is there to be closed exactly when it is the one tab with its instance id, complete,
   and the only one of its name; the id to close is the one it has now.
   */
  lemma PresentExactlyWhenListed(captured: Identity, session: string, name: string, listing: Listing, id: nat)
    ensures ValidatedOriginTabId(captured, session, name, listing) == Ok(Some(id)) <==>
              && captured.session == session && captured.name == name && captured.IsTyped() && listing.Tabs?
              && exists i :: IsTheTab(listing.tabs, captured.instanceId, name, i) && listing.tabs[i].tabId == Some(id)
  {
    if listing.Tabs? {
      var tabs := listing.tabs;
      if i :| IsTheTab(tabs, captured.instanceId, name, i) && tabs[i].tabId == Some(id) {
        OnlyInstance(tabs, captured.instanceId, i);
        OnlyName(tabs, name, i);
      }
      if ValidatedOriginTabId(captured, session, name, listing) == Ok(Some(id)) {
        var i := InstancePlace(tabs, captured.instanceId);
        OthersHaveOtherNames(tabs, name, i);
        assert IsTheTab(tabs, captured.instanceId, name, i);
      }
    }
  }

  /** The captured tab counts as gone exactly when no tab of a readable inventory carries its instance id. */
  lemma AbsentExactlyWhenNotListed(captured: Identity, session: string, name: string, listing: Listing)
    requires captured.session == session && captured.name == name && captured.IsTyped()
    ensures ValidatedOriginTabId(captured, session, name, listing) == Ok(None) <==>
              (listing.Tabs? && !HasInstance(listing.tabs, captured.instanceId))
  {
    if listing.Tabs? {
      WithInstanceFinds(listing.tabs, captured.instanceId);
    }
  }

  /** A close is confirmed exactly by an inventory without the instance, or by the session being gone. */
  lemma CloseIsConfirmedExactlyByAbsence(
      incarnation: string, instance: string, closed: Result<(), ()>, listing: Result<Listing, ()>, sessionThere: Result<bool, ()>)
    ensures VerifyOriginClose(incarnation, instance, closed, listing, sessionThere).Ok? <==>
              || (listing.Ok? && listing.value.Tabs? && !HasInstance(listing.value.tabs, instance))
              || (listing.Err? && sessionThere == Ok(false))
  {
    if listing.Ok? && listing.value.Tabs? {
      WithInstanceFinds(listing.value.tabs, instance);
    }
  }

  lemma {:induction false} NameIsListed(tabs: seq<TabEntry>, name: string, t: TabEntry)
    requires t in tabs && t.name == Some(name) && t.tabId.Some?
    ensures t.tabId.value in TabIdsForName(tabs, name)
  {
    if t != tabs[0] {
      assert tabs == [tabs[0]] + tabs[1..];
      NameIsListed(tabs[1..], name, t);
    }
  }

  /** When a name resolves to one id, all complete tabs of that name are one entry of the inventory. */
  lemma {:induction false} OneIdIsOneIdentity(tabs: seq<TabEntry>, session: string, name: string, t: TabEntry)
    requires t in tabs && t.name == Some(name) && t.tabId.Some? && |TabIdsForName(tabs, name)| == 1
    requires TabIdentitiesForName(tabs, session, name).Ok?
    ensures ReadIdentity(t, session, name).Ok?
    ensures TabIdentitiesForName(tabs, session, name).value == [ReadIdentity(t, session, name).value]
  {
    var head, tail := tabs[0], tabs[1..];
    assert tabs == [head] + tail;
    if head.name == Some(name) {
      assert ReadIdentity(head, session, name).Ok? && head.tabId.Some?;
      assert TabIdsForName(tail, name) == [];
      NoIdsNoIdentities(tail, session, name);
      if t != head {
        NameIsListed(tail, name, t);
      }
    } else {
      OneIdIsOneIdentity(tail, session, name, t);
    }
  }

  lemma {:induction false} NoIdsNoIdentities(tabs: seq<TabEntry>, session: string, name: string)
    requires TabIdsForName(tabs, name) == [] && TabIdentitiesForName(tabs, session, name).Ok?
    ensures TabIdentitiesForName(tabs, session, name).value == []
  {
    if tabs == [] {
    } else {
      assert tabs[0].name != Some(name);
      NoIdsNoIdentities(tabs[1..], session, name);
    }
  }

  /**
   A rebound identity is the captured durable tab exactly when the captured instance id has no
   upper-case digit: the inventory's ids are read in lower case, the captured one is compared as is.
   */
  lemma RebindReturnsTheCapturedTab(captured: Identity, session: string, name: string, listing: Listing)
    requires RebindFrom(captured, session, name, listing).Ok? && RebindFrom(captured, session, name, listing).value.Some?
    ensures var r := RebindFrom(captured, session, name, listing).value.value;
            && r.session == session && r.name == name
            && r.instanceId == Lower(captured.instanceId)
            && (r.IsSameDurableTab(captured) <==> IsLower(captured.instanceId))
  {
    var tabs := listing.tabs;
    WithInstanceFinds(tabs, captured.instanceId);
    var current := WithInstance(tabs, captured.instanceId)[0];
    assert current in WithInstance(tabs, captured.instanceId);
    OneIdIsOneIdentity(tabs, session, name, current);
    LowerFixesExactlyLowerCase(captured.instanceId);
  }

  lemma {:induction false} NamedAreComplete(tabs: seq<TabEntry>, session: string, name: string, j: nat)
    requires TabIdentitiesForName(tabs, session, name).Ok? && j < |tabs| && tabs[j].name == Some(name)
    ensures ReadIdentity(tabs[j], session, name).Ok?
  {
    if j > 0 {
      assert tabs[1..][j - 1] == tabs[j];
      NamedAreComplete(tabs[1..], session, name, j - 1);
    }
  }

  lemma {:induction false} NobodyIsNamed(tabs: seq<TabEntry>, session: string, name: string)
    requires forall j :: 0 <= j < |tabs| ==> tabs[j].name != Some(name)
    ensures TabIdentitiesForName(tabs, session, name) == Ok([])
  {
    if tabs == [] {
    } else {
      NobodyIsNamed(tabs[1..], session, name);
    }
  }

  lemma {:induction false} OneIsNamed(tabs: seq<TabEntry>, session: string, name: string, i: nat)
    requires i < |tabs| && tabs[i].name == Some(name) && ReadIdentity(tabs[i], session, name).Ok?
    requires forall j :: 0 <= j < |tabs| && j != i ==> tabs[j].name != Some(name)
    ensures TabIdentitiesForName(tabs, session, name) == Ok([ReadIdentity(tabs[i], session, name).value])
  {
    if i == 0 {
      NobodyIsNamed(tabs[1..], session, name);
      var only := [ReadIdentity(tabs[0], session, name).value];
      assert only + [] == only;
    } else {
      OneIsNamed(tabs[1..], session, name, i - 1);
    }
  }

  /** The captured tab's entry is the only one of the name, and `r` is what it says now. */
  ghost predicate IsNow(tabs: seq<TabEntry>, captured: Identity, r: Identity) {
    exists i :: 0 <= i < |tabs| && IsTheTab(tabs, captured.instanceId, captured.name, i)
      && (forall j :: 0 <= j < |tabs| && j != i ==> tabs[j].name != Some(captured.name))
      && r == Identity(captured.session, captured.name, tabs[i].tabId.value, tabs[i].incarnation.value,
                       Lower(captured.instanceId))
  }

  /** A rebind answers exactly with the current id and incarnation of the one tab that has the captured instance. */
  lemma RebindsExactlyWhen(captured: Identity, session: string, name: string, listing: Listing, r: Identity)
    ensures RebindFrom(captured, session, name, listing) == Ok(Some(r)) <==>
              && captured.session == session && captured.name == name && captured.IsTyped() && listing.Tabs?
              && IsNow(listing.tabs, captured, r)
  {
    if listing.Tabs? {
      var tabs := listing.tabs;
      if RebindFrom(captured, session, name, listing) == Ok(Some(r)) {
        RebindIsNow(captured, session, name, tabs, r);
      }
      if captured.session == session && captured.name == name && captured.IsTyped() && IsNow(tabs, captured, r) {
        var i :| 0 <= i < |tabs| && IsTheTab(tabs, captured.instanceId, name, i)
          && (forall j :: 0 <= j < |tabs| && j != i ==> tabs[j].name != Some(name))
          && r.id == tabs[i].tabId.value
          && r == Identity(session, name, tabs[i].tabId.value, tabs[i].incarnation.value, Lower(captured.instanceId));
        PresentExactlyWhenListed(captured, session, name, listing, r.id);
        OneIsNamed(tabs, session, name, i);
      }
    }
  }

  lemma RebindIsNow(captured: Identity, session: string, name: string, tabs: seq<TabEntry>, r: Identity)
    requires RebindFrom(captured, session, name, Tabs(tabs)) == Ok(Some(r))
    ensures captured.session == session && captured.name == name && captured.IsTyped()
    ensures IsNow(tabs, captured, r)
  {
    var id := ValidatedOriginTabId(captured, session, name, Tabs(tabs)).value.value;
    PresentExactlyWhenListed(captured, session, name, Tabs(tabs), id);
    var i :| IsTheTab(tabs, captured.instanceId, name, i) && tabs[i].tabId == Some(id);
    OnlyName(tabs, name, i);
    OneIdIsOneIdentity(tabs, session, name, tabs[i]);
    forall j | 0 <= j < |tabs| && j != i ensures tabs[j].name != Some(name) {
      if tabs[j].name == Some(name) {
        NamedAreComplete(tabs, session, name, j);
      }
    }
  }

  /**
   An inventory that spells the captured lower-case instance id in upper case hides the tab: it is
   taken for gone although the same inventory, read for its name, shows the same durable tab.
   */
  lemma UpperCaseInventoryHidesTheTab(captured: Identity, tab: TabEntry)
    requires captured.IsTyped()
    requires tab == TabEntry(Some(captured.name), Some(captured.id), Some(captured.incarnation), tab.instanceId)
    requires tab.instanceId.Some? && IsInstanceId(tab.instanceId.value)
    requires Lower(tab.instanceId.value) == captured.instanceId && tab.instanceId.value != captured.instanceId
    ensures ValidatedOriginTabId(captured, captured.session, captured.name, Tabs([tab])) == Ok(None)
    ensures TabIdentitiesForName([tab], captured.session, captured.name) == Ok([captured])
  {
    assert [tab][1..] == [];
    assert WithInstance([tab], captured.instanceId) == [];
    assert TabIdentitiesForName([], captured.session, captured.name) == Ok([]);
    assert [captured] + [] == [captured];
    assert captured == Identity(captured.session, captured.name, captured.id, captured.incarnation, captured.instanceId);
  }
}
