/**
 The identity-fenced close of an origin tab (`src/run_triage_cli.rs`) against a session that renames,
 closes, restarts and opens same-name successors between any two commands.
 */
module OriginClose {
  import opened Results
  import opened TabIdentity
  import opened TabInventory

  /** A command sent to the session: an inventory, the question whether it exists, or a close with its four expectations. */
  datatype Call = Listed(answer: Result<Listing, ()>) | Asked(there: Result<bool, ()>) | Issued(fence: TabEntry)

  class Session {
    var alive: bool
    var tabs: seq<TabEntry>
    /** The tabs our own close commands have removed. */
    ghost var closed: seq<TabEntry>
    /** Our commands, in order, with their answers. */
    ghost var calls: seq<Call>
    /** How often somebody else changed the session, or a command failed or did not do what it says. */
    ghost var troubles: nat

    constructor (alive: bool, tabs: seq<TabEntry>)
      ensures this.alive == alive && this.tabs == tabs && closed == [] && calls == [] && troubles == 0
    {
      this.alive, this.tabs, closed, calls, troubles := alive, tabs, [], [], 0;
    }

    /** Anything at all happens to the session, or nothing does. */
    method Interfere()
      modifies this`alive, this`tabs, this`troubles
      ensures old(troubles) <= troubles
      ensures troubles == old(troubles) ==> alive == old(alive) && tabs == old(tabs)
    {
      var happens: bool := *;
      if happens {
        alive, tabs := *, *;
        troubles := troubles + 1;
      }
    }

    /** `list-tabs --json`: fails, answers nonsense, or shows the tabs of that moment. */
    method TabInventory() returns (r: Result<Listing, ()>)
      modifies this`alive, this`tabs, this`troubles, this`calls
      ensures calls == old(calls) + [Listed(r)] && old(troubles) <= troubles
      ensures r.Ok? && r.value.Tabs? ==> alive && r.value.tabs == tabs
      ensures troubles == old(troubles) ==>
                && alive == old(alive) && tabs == old(tabs)
                && r == if alive then Ok(Tabs(tabs)) else Err(())
    {
      Interfere();
      var fails: bool := *;
      var garbled: bool := *;
      if fails || garbled {
        troubles := troubles + 1;
      }
      r := if fails || !alive then Err(()) else if garbled then Ok(Malformed) else Ok(Tabs(tabs));
      calls := calls + [Listed(r)];
    }

    method SessionExists() returns (r: Result<bool, ()>)
      modifies this`alive, this`tabs, this`troubles, this`calls
      ensures calls == old(calls) + [Asked(r)] && old(troubles) <= troubles
      ensures r == Ok(false) ==> !alive
      ensures troubles == old(troubles) ==> alive == old(alive) && tabs == old(tabs) && r == Ok(alive)
    {
      Interfere();
      var fails: bool := *;
      if fails {
        troubles := troubles + 1;
      }
      r := if fails then Err(()) else Ok(alive);
      calls := calls + [Asked(r)];
    }

    /** `close-tab` with its four expectations: the server removes only tabs that meet all of them. */
    method CloseTab(id: nat, name: string, incarnation: string, instance: string) returns (r: Result<(), ()>)
      modifies this`alive, this`tabs, this`troubles, this`closed, this`calls
      ensures old(closed) <= closed && old(troubles) <= troubles
      ensures calls == old(calls) + [Issued(TabEntry(Some(name), Some(id), Some(incarnation), Some(instance)))]
      ensures forall i :: |old(closed)| <= i < |closed| ==>
                closed[i] == TabEntry(Some(name), Some(id), Some(incarnation), Some(instance))
      ensures troubles == old(troubles) && old(alive) ==>
                && alive == (tabs != [])
                && forall t :: t in tabs <==>
                                 t in old(tabs) && t != TabEntry(Some(name), Some(id), Some(incarnation), Some(instance))
    {
      Interfere();
      var acts: bool := *;
      var fails: bool := *;
      if !acts || fails {
        troubles := troubles + 1;
      }
      var fenced := TabEntry(Some(name), Some(id), Some(incarnation), Some(instance));
      calls := calls + [Issued(fenced)];
      if acts && alive {
        var kept: seq<TabEntry> := [];
        ghost var gone: seq<TabEntry> := [];
        for i := 0 to |tabs|
          invariant forall j :: 0 <= j < |gone| ==> gone[j] == fenced
          invariant forall t :: t in kept <==> t in tabs[..i] && t != fenced
        {
          assert tabs[..i + 1] == tabs[..i] + [tabs[i]];
          if tabs[i] == fenced {
            gone := gone + [tabs[i]];
          } else {
            kept := kept + [tabs[i]];
          }
        }
        assert tabs[..|tabs|] == tabs;
        closed := closed + gone;
        tabs := kept;
        alive := kept != [];
      }
      r := if fails then Err(()) else Ok(());
    }
  }

  /** Everything we closed since `before` is the captured durable instance, in its own incarnation. */
  ghost predicate ClosedOnly(before: seq<TabEntry>, after: seq<TabEntry>, captured: Identity, name: string) {
    && before <= after
    && forall i :: |before| <= i < |after| ==>
         && after[i].instanceId == Some(captured.instanceId)
         && after[i].incarnation == Some(captured.incarnation)
         && after[i].name == Some(name)
  }

  /** One look: an inventory, and then the question whether the session exists. */
  ghost predicate LooksAt(calls: seq<Call>, n: int) {
    0 <= n && n + 2 <= |calls| && calls[n].Listed? && calls[n + 1].Asked?
  }

  /** The last look shows the tabs. */
  ghost predicate ShowsTabs(calls: seq<Call>) {
    LooksAt(calls, |calls| - 2) && calls[|calls| - 2].answer.Ok? && calls[|calls| - 2].answer.value.Tabs?
  }

  /** The tabs the last look shows. */
  ghost function TabsShown(calls: seq<Call>): seq<TabEntry>
    requires ShowsTabs(calls)
  {
    calls[|calls| - 2].answer.value.tabs
  }

  /** The last look proves the session gone. */
  ghost predicate ProvesSessionGone(calls: seq<Call>) {
    LooksAt(calls, |calls| - 2) && calls[|calls| - 2].answer.Err? && calls[|calls| - 1].there == Ok(false)
  }

  /** The last look proves the instance gone: a readable inventory without it, or no session to ask. */
  ghost predicate ProvesGone(calls: seq<Call>, instance: string) {
    ProvesSessionGone(calls) || (ShowsTabs(calls) && !HasInstance(TabsShown(calls), instance))
  }

  /** The captured identity is complete and the one that the request is about. */
  predicate IsFor(captured: Identity, session: string, tab: string) {
    captured.session == session && captured.name == tab && captured.IsTyped()
  }

  /** The expectations of a close command: the tab's current id, and the captured name, incarnation and instance. */
  ghost predicate IsFenceFor(tabs: seq<TabEntry>, captured: Identity, fence: TabEntry) {
    exists i :: IsTheTab(tabs, captured.instanceId, captured.name, i)
      && fence == TabEntry(Some(captured.name), tabs[i].tabId, Some(captured.incarnation), Some(captured.instanceId))
  }

  /** These tabs can be told to close the captured one. */
  ghost predicate IsClosable(answer: Result<Listing, ()>, captured: Identity) {
    answer.Ok? && answer.value.Tabs? && exists i :: IsTheTab(answer.value.tabs, captured.instanceId, captured.name, i)
  }

  /**
   The commands of one attempt: a look, and, exactly when it shows the captured tab to be closable, one
   close command with that tab's current id and a second look.
   */
  ghost predicate IsAttempt(calls: seq<Call>, n: nat, captured: Identity, session: string, tab: string) {
    && LooksAt(calls, n)
    && if IsFor(captured, session, tab) && IsClosable(calls[n].answer, captured) then
         && |calls| == n + 5 && LooksAt(calls, n + 3)
         && calls[n + 2].Issued? && IsFenceFor(calls[n].answer.value.tabs, captured, calls[n + 2].fence)
       else
         |calls| == n + 2
  }

  /** The captured tab can be closed or needs no closing. */
  ghost predicate IsSettled(alive: bool, tabs: seq<TabEntry>, captured: Identity) {
    || !alive || !HasInstance(tabs, captured.instanceId)
    || exists i :: IsTheTab(tabs, captured.instanceId, captured.name, i) && tabs[i].incarnation == Some(captured.incarnation)
  }

  /** The verdict on a listing: close the one tab, or it is gone, or neither. */
  lemma VerdictIs(captured: Identity, session: string, tab: string, listing: Listing)
    ensures var v := ValidatedOriginTabId(captured, session, tab, listing);
            && (v.Ok? && v.value.Some? <==> IsFor(captured, session, tab) && IsClosable(Ok(listing), captured))
            && (v.Ok? && v.value.Some? ==>
                  IsFenceFor(listing.tabs, captured,
                             TabEntry(Some(tab), v.value, Some(captured.incarnation), Some(captured.instanceId))))
            && (v.Ok? && v.value.None? <==>
                  IsFor(captured, session, tab) && listing.Tabs? && !HasInstance(listing.tabs, captured.instanceId))
  {
    var v := ValidatedOriginTabId(captured, session, tab, listing);
    if v.Ok? && v.value.Some? {
      PresentExactlyWhenListed(captured, session, tab, listing, v.value.value);
    }
    if IsFor(captured, session, tab) {
      AbsentExactlyWhenNotListed(captured, session, tab, listing);
      if IsClosable(Ok(listing), captured) {
        var i :| IsTheTab(listing.tabs, captured.instanceId, captured.name, i);
        PresentExactlyWhenListed(captured, session, tab, listing, listing.tabs[i].tabId.value);
      }
    }
  }

  /** What an effective close command leaves of the tabs. */
  lemma FenceTakesEffect(before: seq<TabEntry>, after: seq<TabEntry>, captured: Identity, fence: TabEntry)
    requires IsFenceFor(before, captured, fence)
    requires forall t :: t in after <==> t in before && t != fence
    ensures IsSettled(true, before, captured) <==> !HasInstance(after, captured.instanceId)
    ensures var gone := IsSettled(true, before, captured);
            forall t :: t in after <==> t in before && !(gone && t.instanceId == Some(captured.instanceId))
  {
    var i :| IsTheTab(before, captured.instanceId, captured.name, i)
      && fence == TabEntry(Some(captured.name), before[i].tabId, Some(captured.incarnation), Some(captured.instanceId));
    forall t | t in before && t.instanceId == Some(captured.instanceId) ensures t == before[i] {
      var j :| 0 <= j < |before| && before[j] == t;
    }
    if before[i].incarnation == Some(captured.incarnation) {
      assert before[i] == fence;
      forall j | 0 <= j < |after| ensures after[j].instanceId != Some(captured.instanceId) {
        assert after[j] in after;
      }
    } else {
      assert before[i] in before && before[i] in after;
      assert !IsSettled(true, before, captured);
    }
  }

  /** The look every operation starts with. */
  method LookAround(s: Session) returns (listed: Result<Listing, ()>, there: Result<bool, ()>)
    modifies s`alive, s`tabs, s`troubles, s`calls
    ensures s.calls == old(s.calls) + [Listed(listed), Asked(there)] && old(s.troubles) <= s.troubles
    ensures s.troubles == old(s.troubles) ==>
              && s.alive == old(s.alive) && s.tabs == old(s.tabs)
              && there == Ok(s.alive) && listed == if s.alive then Ok(Tabs(s.tabs)) else Err(())
  {
    listed := s.TabInventory();
    there := s.SessionExists();
  }

  /**
   `close_origin_tab` for a captured identity. The commands are exactly those of an attempt; success
   means exactly that the captured instance was absent from the last inventory, or the session gone;
   nothing but the captured instance is ever closed. Undisturbed, the attempt succeeds exactly when the
   tab can be closed or is gone already, and then only that tab is missing.
   */
  method CloseCaptured(s: Session, session: string, tab: string, captured: Identity) returns (r: Result<(), CloseError>)
    modifies s
    ensures old(s.calls) <= s.calls && IsAttempt(s.calls, |old(s.calls)|, captured, session, tab)
    ensures ClosedOnly(old(s.closed), s.closed, captured, tab) && old(s.troubles) <= s.troubles
    ensures r.Ok? <==> ProvesSessionGone(s.calls) || (ProvesGone(s.calls, captured.instanceId) && IsFor(captured, session, tab))
    ensures s.troubles == old(s.troubles) && IsFor(captured, session, tab) ==>
              && (r.Ok? <==> IsSettled(old(s.alive), old(s.tabs), captured))
              && (r.Ok? && s.alive ==> !HasInstance(s.tabs, captured.instanceId))
              && (old(s.alive) ==> forall t :: t in s.tabs <==> t in old(s.tabs) && !(r.Ok? && t.instanceId == Some(captured.instanceId)))
  {
    var listed, there := LookAround(s);
    var verified := VerifiedTabListBeforeClose(listed, there);
    if verified.Err? {
      return Err(verified.error);
    }
    if verified.value.None? {
      return Ok(());
    }
    var listing := verified.value.value;
    VerdictIs(captured, session, tab, listing);
    var current := ValidatedOriginTabId(captured, session, tab, listing);
    if current.Err? {
      return Err(CloseError(current.error, Preserved));
    }
    if current.value.None? {
      return Ok(());
    }
    ghost var before := listing.tabs;
    ghost var fence := TabEntry(Some(tab), current.value, Some(captured.incarnation), Some(captured.instanceId));
    var closed := s.CloseTab(current.value.value, tab, captured.incarnation, captured.instanceId);
    if forall t :: t in s.tabs <==> t in before && t != fence {
      FenceTakesEffect(before, s.tabs, captured, fence);
    }
    listed, there := LookAround(s);
    CloseIsConfirmedExactlyByAbsence(captured.incarnation, captured.instanceId, closed, listed, there);
    r := VerifyOriginClose(captured.incarnation, captured.instanceId, closed, listed, there);
  }

  /** The same without a captured identity: nothing is ever closed. */
  method CloseNameless(s: Session, tab: string) returns (r: Result<(), CloseError>)
    modifies s`alive, s`tabs, s`troubles, s`calls
    ensures old(s.calls) <= s.calls && LooksAt(s.calls, |old(s.calls)|) && |s.calls| == |old(s.calls)| + 2
    ensures old(s.troubles) <= s.troubles
    ensures r.Ok? <==> ProvesSessionGone(s.calls) || (ShowsTabs(s.calls) && !HasName(TabsShown(s.calls), tab))
    ensures s.troubles == old(s.troubles) ==>
              s.alive == old(s.alive) && s.tabs == old(s.tabs) && (r.Ok? <==> !s.alive || !HasName(s.tabs, tab))
  {
    var listed, there := LookAround(s);
    var verified := VerifiedTabListBeforeClose(listed, there);
    if verified.Err? {
      return Err(verified.error);
    }
    if verified.value.None? {
      return Ok(());
    }
    var listing := verified.value.value;
    if !listing.Tabs? {
      return Err(CloseError(BadInventory, Preserved));
    }
    NoNameNoIds(listing.tabs, tab);
    return if TabIdsForName(listing.tabs, tab) == [] then Ok(()) else Err(CloseError(NoIdentity, Preserved));
  }

  /** `close_origin_tab`. */
  method CloseOriginTab(s: Session, session: string, tab: string, identity: Option<Identity>)
    returns (r: Result<(), CloseError>)
    modifies s
    ensures old(s.calls) <= s.calls && old(s.troubles) <= s.troubles
    ensures identity.None? ==>
              && s.closed == old(s.closed) && LooksAt(s.calls, |old(s.calls)|) && |s.calls| == |old(s.calls)| + 2
              && (r.Ok? <==> ProvesSessionGone(s.calls) || (ShowsTabs(s.calls) && !HasName(TabsShown(s.calls), tab)))
              && (s.troubles == old(s.troubles) ==> s.tabs == old(s.tabs) && (r.Ok? <==> !s.alive || !HasName(s.tabs, tab)))
    ensures identity.Some? ==>
              var captured := identity.value;
              && IsAttempt(s.calls, |old(s.calls)|, captured, session, tab)
              && ClosedOnly(old(s.closed), s.closed, captured, tab)
              && (r.Ok? <==>
                    ProvesSessionGone(s.calls) || (ProvesGone(s.calls, captured.instanceId) && IsFor(captured, session, tab)))
              && (s.troubles == old(s.troubles) && IsFor(captured, session, tab) ==>
                    && (r.Ok? <==> IsSettled(old(s.alive), old(s.tabs), captured))
                    && (r.Ok? && s.alive ==> !HasInstance(s.tabs, captured.instanceId))
                    && (old(s.alive) ==>
                          forall t :: t in s.tabs <==> t in old(s.tabs) && !(r.Ok? && t.instanceId == Some(captured.instanceId))))
  {
    match identity {
      case None => r := CloseNameless(s, tab);
      case Some(captured) => r := CloseCaptured(s, session, tab, captured);
    }
  }

  /**
   `rebind_origin_tab_identity`: one look, which closes nothing. A tab comes back exactly when the look
   shows the one that has the captured instance as the only one of its name, with the id and the
   incarnation it has now; with a lower-case captured id it is the same durable tab.
   */
  method RebindOriginTabIdentity(s: Session, session: string, tab: string, captured: Identity)
    returns (r: Result<Option<Identity>, CloseError>)
    modifies s`alive, s`tabs, s`troubles, s`calls
    ensures old(s.calls) <= s.calls && LooksAt(s.calls, |old(s.calls)|) && |s.calls| == |old(s.calls)| + 2
    ensures forall now :: r == Ok(Some(now)) <==>
              IsFor(captured, session, tab) && ShowsTabs(s.calls) && IsNow(TabsShown(s.calls), captured, now)
    ensures r.Ok? && r.value.Some? ==> (r.value.value.IsSameDurableTab(captured) <==> IsLower(captured.instanceId))
    ensures r == Ok(None) <==>
              ProvesSessionGone(s.calls) || (ProvesGone(s.calls, captured.instanceId) && IsFor(captured, session, tab))
    ensures s.troubles == old(s.troubles) ==>
              && s.alive == old(s.alive) && s.tabs == old(s.tabs)
              && (if s.alive then ShowsTabs(s.calls) && TabsShown(s.calls) == s.tabs else r == Ok(None))
  {
    var listed, there := LookAround(s);
    var verified := VerifiedTabListBeforeClose(listed, there);
    if verified.Err? {
      return Err(verified.error);
    }
    if verified.value.None? {
      return Ok(None);
    }
    var listing := verified.value.value;
    var rebound := RebindFrom(captured, session, tab, listing);
    VerdictIs(captured, session, tab, listing);
    forall now ensures rebound == Ok(Some(now)) <==>
        IsFor(captured, session, tab) && listing.Tabs? && IsNow(listing.tabs, captured, now) {
      RebindsExactlyWhen(captured, session, tab, listing, now);
    }
    if rebound.Err? {
      return Err(CloseError(rebound.error, Preserved));
    }
    if rebound.value.Some? {
      RebindReturnsTheCapturedTab(captured, session, tab, listing);
    }
    return Ok(rebound.value);
  }

  /**
   Closing again and again, whatever the session does in between, never closes anything else; an
   undisturbed first attempt at a tab that can be closed ends it.
   */
  method RetryClose(s: Session, session: string, tab: string, captured: Identity, attempts: nat) returns (done: bool)
    modifies s
    ensures ClosedOnly(old(s.closed), s.closed, captured, tab) && old(s.troubles) <= s.troubles
    ensures done ==> ProvesGone(s.calls, captured.instanceId)
    ensures attempts > 0 && s.troubles == old(s.troubles) && IsFor(captured, session, tab)
            && IsSettled(old(s.alive), old(s.tabs), captured) ==>
              done && (s.alive ==> !HasInstance(s.tabs, captured.instanceId))
  {
    done := false;
    for i := 0 to attempts
      invariant !done && ClosedOnly(old(s.closed), s.closed, captured, tab) && old(s.troubles) <= s.troubles
      invariant i == 0 ==> s.alive == old(s.alive) && s.tabs == old(s.tabs) && s.troubles == old(s.troubles)
      invariant i > 0 && s.troubles == old(s.troubles) && IsFor(captured, session, tab) ==>
                  !IsSettled(old(s.alive), old(s.tabs), captured)
    {
      var r := CloseOriginTab(s, session, tab, Some(captured));
      if r.Ok? {
        return true;
      }
    }
  }
}
