/**
 The semantic keybind diff (`src/clinic.rs`): every key that two keybind maps treat differently,
 collapsed across the modes in which they differ in the same way.
 */
module KeybindDiff {
  import opened Results
  import opened Ordering
  import opened Text

  /** Modes and keys are represented by their rank in the source's derived orders. */
  type Mode = int
  type Key = int

  datatype Action = Quit | Other(code: nat)

  type Keybinds = map<Mode, map<Key, seq<Action>>>

  /** `Action::to_kdl`: some actions have no rendering. */
  type Rendering = Action -> Option<string>

  function Lookup(binds: Keybinds, mode: Mode, key: Key): Option<seq<Action>> {
    if mode in binds && key in binds[mode] then Some(binds[mode][key]) else None
  }

  function OrEmpty(actions: Option<seq<Action>>): seq<Action> {
    if actions.Some? then actions.value else []
  }

  function Renderings(toKdl: Rendering, actions: seq<Action>): seq<string> {
    if actions == [] then []
    else
      (if toKdl(actions[0]).Some? then [toKdl(actions[0]).value] else []) + Renderings(toKdl, actions[1..])
  }

  function Signature(toKdl: Rendering, actions: seq<Action>): string {
    Join(Renderings(toKdl, actions), "; ")
  }

  datatype BindGroup = BindGroup(key: Key, modes: seq<Mode>, actual: seq<Action>, contract: seq<Action>) {
    predicate IsDestructiveDivergence() {
      Quit in actual && Quit !in contract
    }
  }

  datatype Diff = Diff(divergent: seq<BindGroup>, missing: seq<BindGroup>, extra: seq<BindGroup>) {
    predicate IsClean() {
      divergent == [] && missing == [] && extra == []
    }

    function LostOnRetirement(): seq<BindGroup> {
      divergent + extra
    }
  }

  /** What two binds must share to be reported together. */
  datatype Tag = Tag(key: Key, actual: string, contract: string)

  function TagOf(toKdl: Rendering, g: BindGroup): Tag {
    Tag(g.key, Signature(toKdl, g.actual), Signature(toKdl, g.contract))
  }

  predicate TagBefore(a: Tag, b: Tag) {
    || a.key < b.key
    || (a.key == b.key && (Before(a.actual, b.actual) || (a.actual == b.actual && Before(a.contract, b.contract))))
  }

  lemma TagOrder(a: Tag, b: Tag)
    ensures !TagBefore(a, a)
    ensures a == b || TagBefore(a, b) || TagBefore(b, a)
    ensures !(TagBefore(a, b) && TagBefore(b, a))
  {
    BeforeIsIrreflexive(a.actual);
    BeforeIsIrreflexive(a.contract);
    BeforeIsTotal(a.actual, b.actual);
    BeforeIsTotal(a.contract, b.contract);
    if Before(a.actual, b.actual) && Before(b.actual, a.actual) {
      BeforeIsTransitive(a.actual, b.actual, a.actual);
    }
    if Before(a.contract, b.contract) && Before(b.contract, a.contract) {
      BeforeIsTransitive(a.contract, b.contract, a.contract);
    }
  }

  lemma TagOrderIsTransitive(a: Tag, b: Tag, c: Tag)
    requires TagBefore(a, b) && TagBefore(b, c)
    ensures TagBefore(a, c)
  {
    if Before(a.actual, b.actual) && Before(b.actual, c.actual) {
      BeforeIsTransitive(a.actual, b.actual, c.actual);
    }
    if Before(a.contract, b.contract) && Before(b.contract, c.contract) {
      BeforeIsTransitive(a.contract, b.contract, c.contract);
    }
  }

  // ---- the ordered map of groups ----

  ghost predicate Sorted(toKdl: Rendering, gs: seq<BindGroup>) {
    forall i, j :: 0 <= i < j < |gs| ==> TagBefore(TagOf(toKdl, gs[i]), TagOf(toKdl, gs[j]))
  }

  /** The group already open for this tag, if any. */
  function Find(toKdl: Rendering, gs: seq<BindGroup>, tag: Tag): (r: Option<BindGroup>)
    ensures r.Some? ==> r.value in gs && TagOf(toKdl, r.value) == tag
    ensures r.None? ==> forall g :: g in gs ==> TagOf(toKdl, g) != tag
  {
    if gs == [] then None
    else if TagOf(toKdl, gs[0]) == tag then Some(gs[0])
    else Find(toKdl, gs[1..], tag)
  }

  /** The group after `mode` was recorded: opened with these lists, or one mode longer. */
  function Extended(toKdl: Rendering, gs: seq<BindGroup>, g: BindGroup): (r: BindGroup)
    ensures TagOf(toKdl, r) == TagOf(toKdl, g)
  {
    var found := Find(toKdl, gs, TagOf(toKdl, g));
    if found.Some? then found.value.(modes := found.value.modes + g.modes) else g
  }

  /** `groups.entry(signature).or_insert_with(…).modes.push(mode)`, `g` being the group of that one mode. */
  function Record(toKdl: Rendering, gs: seq<BindGroup>, g: BindGroup): seq<BindGroup> {
    if gs == [] then [g]
    else if TagOf(toKdl, gs[0]) == TagOf(toKdl, g) then [gs[0].(modes := gs[0].modes + g.modes)] + gs[1..]
    else if TagBefore(TagOf(toKdl, g), TagOf(toKdl, gs[0])) then [g] + gs
    else [gs[0]] + Record(toKdl, gs[1..], g)
  }

  ghost predicate Above(toKdl: Rendering, tag: Tag, gs: seq<BindGroup>) {
    forall g :: g in gs ==> TagBefore(tag, TagOf(toKdl, g))
  }

  lemma SortedSplits(toKdl: Rendering, head: BindGroup, tail: seq<BindGroup>)
    ensures Sorted(toKdl, [head] + tail) <==> Above(toKdl, TagOf(toKdl, head), tail) && Sorted(toKdl, tail)
  {
    var gs := [head] + tail;
    if Sorted(toKdl, gs) {
      forall g | g in tail ensures TagBefore(TagOf(toKdl, head), TagOf(toKdl, g)) {
        var i :| 0 <= i < |tail| && tail[i] == g;
        assert gs[0] == head && gs[i + 1] == g;
      }
      forall i, j | 0 <= i < j < |tail| ensures TagBefore(TagOf(toKdl, tail[i]), TagOf(toKdl, tail[j])) {
        assert gs[i + 1] == tail[i] && gs[j + 1] == tail[j];
      }
    }
    if Above(toKdl, TagOf(toKdl, head), tail) && Sorted(toKdl, tail) {
      forall i, j | 0 <= i < j < |gs| ensures TagBefore(TagOf(toKdl, gs[i]), TagOf(toKdl, gs[j])) {
        assert gs[j] == tail[j - 1] && gs[j] in tail;
      }
    }
  }

  lemma AboveLacks(toKdl: Rendering, tag: Tag, gs: seq<BindGroup>)
    requires Above(toKdl, tag, gs)
    ensures forall g :: g in gs ==> TagOf(toKdl, g) != tag
  {
    TagOrder(tag, tag);
  }

  /** Recording replaces the group with that tag, or adds it. */
  lemma {:induction false} RecordMembers(toKdl: Rendering, gs: seq<BindGroup>, g: BindGroup)
    requires Sorted(toKdl, gs)
    ensures forall h :: h in Record(toKdl, gs, g) <==>
                          (h in gs && TagOf(toKdl, h) != TagOf(toKdl, g)) || h == Extended(toKdl, gs, g)
  {
    if gs == [] {
    } else {
      var tag, head, tail := TagOf(toKdl, g), gs[0], gs[1..];
      assert gs == [head] + tail;
      SortedSplits(toKdl, head, tail);
      if TagOf(toKdl, head) == tag {
        AboveLacks(toKdl, tag, tail);
      } else if TagBefore(tag, TagOf(toKdl, head)) {
        forall h | h in tail ensures TagBefore(tag, TagOf(toKdl, h)) {
          TagOrderIsTransitive(tag, TagOf(toKdl, head), TagOf(toKdl, h));
        }
        AboveLacks(toKdl, tag, tail);
      } else {
        RecordMembers(toKdl, tail, g);
      }
    }
  }

  /** Recording keeps the groups in order. */
  lemma {:induction false} RecordKeepsOrder(toKdl: Rendering, gs: seq<BindGroup>, g: BindGroup)
    requires Sorted(toKdl, gs)
    ensures Sorted(toKdl, Record(toKdl, gs, g))
  {
    if gs == [] {
    } else {
      var tag, head, tail := TagOf(toKdl, g), gs[0], gs[1..];
      assert gs == [head] + tail;
      SortedSplits(toKdl, head, tail);
      TagOrder(TagOf(toKdl, head), tag);
      if TagOf(toKdl, head) == tag {
        SortedSplits(toKdl, head.(modes := head.modes + g.modes), tail);
      } else if TagBefore(tag, TagOf(toKdl, head)) {
        forall h | h in gs ensures TagBefore(tag, TagOf(toKdl, h)) {
          if h in tail {
            TagOrderIsTransitive(tag, TagOf(toKdl, head), TagOf(toKdl, h));
          }
        }
        SortedSplits(toKdl, g, gs);
      } else {
        RecordKeepsOrder(toKdl, tail, g);
        RecordMembers(toKdl, tail, g);
        SortedSplits(toKdl, head, Record(toKdl, tail, g));
      }
    }
  }

  // ---- what the groups say ----

  predicate Disagree(contract: Keybinds, effective: Keybinds, mode: Mode, key: Key) {
    Lookup(contract, mode, key) != Lookup(effective, mode, key)
  }

  /** The report of one disagreement alone. */
  function Single(contract: Keybinds, effective: Keybinds, mode: Mode, key: Key): BindGroup {
    BindGroup(key, [mode], OrEmpty(Lookup(effective, mode, key)), OrEmpty(Lookup(contract, mode, key)))
  }

  function SlotTag(toKdl: Rendering, contract: Keybinds, effective: Keybinds, mode: Mode, key: Key): Tag {
    TagOf(toKdl, Single(contract, effective, mode, key))
  }

  /** A group lists, ascending, modes that disagree alike about its key, and speaks for the first. */
  ghost predicate Sound(toKdl: Rendering, contract: Keybinds, effective: Keybinds, g: BindGroup) {
    && g.modes != [] && StrictlyAscending(g.modes)
    && g.(modes := [g.modes[0]]) == Single(contract, effective, g.modes[0], g.key)
    && (forall m :: m in g.modes ==>
          Disagree(contract, effective, m, g.key)
          && SlotTag(toKdl, contract, effective, m, g.key) == TagOf(toKdl, g))
  }

  predicate Mentions(gs: seq<BindGroup>, mode: Mode, key: Key) {
    exists g :: g in gs && g.key == key && mode in g.modes
  }

  /** How far the walk has come: whole modes, and some keys of one more mode. */
  datatype Walk = Walk(modes: set<Mode>, mode: Mode, keys: set<Key>) {
    predicate Has(m: Mode, k: Key) {
      m in modes || (m == mode && k in keys)
    }
  }

  /** The groups over exactly the disagreements walked so far. */
  ghost predicate Grouped(toKdl: Rendering, contract: Keybinds, effective: Keybinds, gs: seq<BindGroup>,
                          done: Walk) {
    && Sorted(toKdl, gs)
    && (forall g :: g in gs ==> Sound(toKdl, contract, effective, g))
    && (forall g, m :: g in gs && m in g.modes ==> done.Has(m, g.key))
    && (forall m, k :: Disagree(contract, effective, m, k) && done.Has(m, k) ==> Mentions(gs, m, k))
  }

  /** The group of a tag that a slot carries is the one that mentions the slot. */
  lemma RecordGroups(toKdl: Rendering, contract: Keybinds, effective: Keybinds, gs: seq<BindGroup>,
                     done: Walk, key: Key)
    requires Grouped(toKdl, contract, effective, gs, done)
    requires Disagree(contract, effective, done.mode, key) && key !in done.keys
    requires forall m :: m in done.modes ==> m < done.mode
    ensures Grouped(toKdl, contract, effective, Record(toKdl, gs, Single(contract, effective, done.mode, key)),
                    done.(keys := done.keys + {key}))
  {
    var mode, next := done.mode, done.(keys := done.keys + {key});
    var g := Single(contract, effective, mode, key);
    var gs' := Record(toKdl, gs, g);
    var e := Extended(toKdl, gs, g);
    RecordKeepsOrder(toKdl, gs, g);
    RecordMembers(toKdl, gs, g);
    ExtendedIsSound(toKdl, contract, effective, gs, done, mode, key);
    forall m, k | Disagree(contract, effective, m, k) && next.Has(m, k) ensures Mentions(gs', m, k) {
      if m == mode && k == key {
        assert e in gs' && mode in e.modes;
      } else {
        assert done.Has(m, k);
        var h :| h in gs && h.key == k && m in h.modes;
        if TagOf(toKdl, h) != TagOf(toKdl, g) {
          assert h in gs';
        } else {
          SameTagSameGroup(toKdl, gs, h, Find(toKdl, gs, TagOf(toKdl, g)).value);
          assert e in gs' && m in e.modes;
        }
      }
    }
  }

  lemma SameTagSameGroup(toKdl: Rendering, gs: seq<BindGroup>, g: BindGroup, h: BindGroup)
    requires Sorted(toKdl, gs) && g in gs && h in gs && TagOf(toKdl, g) == TagOf(toKdl, h)
    ensures g == h
  {
    var i :| 0 <= i < |gs| && gs[i] == g;
    var j :| 0 <= j < |gs| && gs[j] == h;
    TagOrder(TagOf(toKdl, g), TagOf(toKdl, h));
    assert !(i < j) && !(j < i);
  }

  lemma SingleIsSound(toKdl: Rendering, contract: Keybinds, effective: Keybinds, mode: Mode, key: Key)
    requires Disagree(contract, effective, mode, key)
    ensures Sound(toKdl, contract, effective, Single(contract, effective, mode, key))
  {}

  lemma PushIsSound(toKdl: Rendering, contract: Keybinds, effective: Keybinds, f: BindGroup, mode: Mode)
    requires Sound(toKdl, contract, effective, f) && Disagree(contract, effective, mode, f.key)
    requires SlotTag(toKdl, contract, effective, mode, f.key) == TagOf(toKdl, f)
    requires forall m :: m in f.modes ==> m < mode
    ensures Sound(toKdl, contract, effective, f.(modes := f.modes + [mode]))
  {
    var e := f.(modes := f.modes + [mode]);
    assert forall i :: 0 <= i < |f.modes| ==> f.modes[i] in f.modes;
    assert StrictlyAscending(e.modes);
    assert e.(modes := [e.modes[0]]) == f.(modes := [f.modes[0]]);
    assert TagOf(toKdl, e) == TagOf(toKdl, f);
  }

  lemma ExtendedIsSound(toKdl: Rendering, contract: Keybinds, effective: Keybinds, gs: seq<BindGroup>,
                        done: Walk, mode: Mode, key: Key)
    requires Grouped(toKdl, contract, effective, gs, done)
    requires Disagree(contract, effective, mode, key)
    requires forall m, k :: done.Has(m, k) && k == key ==> m < mode
    ensures var e := Extended(toKdl, gs, Single(contract, effective, mode, key));
            Sound(toKdl, contract, effective, e) && e.key == key && mode in e.modes
            && (forall m :: m in e.modes ==> done.Has(m, key) || m == mode)
  {
    var g := Single(contract, effective, mode, key);
    var found := Find(toKdl, gs, TagOf(toKdl, g));
    SingleIsSound(toKdl, contract, effective, mode, key);
    if found.Some? {
      assert found.value.key == key;
      assert forall m :: m in found.value.modes ==> done.Has(m, found.value.key);
      PushIsSound(toKdl, contract, effective, found.value, mode);
    }
  }

  lemma Regroup(toKdl: Rendering, contract: Keybinds, effective: Keybinds, gs: seq<BindGroup>,
                done: Walk, next: Walk)
    requires Grouped(toKdl, contract, effective, gs, done)
    requires forall m, k :: Disagree(contract, effective, m, k) ==> (done.Has(m, k) <==> next.Has(m, k))
    ensures Grouped(toKdl, contract, effective, gs, next)
  {}

  /** The whole walk: a mode that neither map has cannot disagree. */
  function Everywhere(contract: Keybinds, effective: Keybinds): Walk {
    Walk(contract.Keys + effective.Keys, 0, {})
  }

  // ---- the finished report ----

  function Keep<T>(p: T -> bool, s: seq<T>): (r: seq<T>)
    ensures forall x :: x in r ==> x in s && p(x)
    ensures forall x :: x in s && p(x) ==> x in r
  {
    if s == [] then [] else (if p(s[0]) then [s[0]] else []) + Keep(p, s[1..])
  }

  lemma KeepOneMore<T>(p: T -> bool, s: seq<T>, n: nat)
    requires n < |s|
    ensures Keep(p, s[..n + 1]) == if p(s[n]) then Keep(p, s[..n]) + [s[n]] else Keep(p, s[..n])
  {
    assert s[..n + 1] == s[..n] + [s[n]];
    KeepAppended(p, s[..n], s[n]);
  }

  lemma {:induction false} KeepAppended<T>(p: T -> bool, s: seq<T>, x: T)
    ensures Keep(p, s + [x]) == Keep(p, s) + if p(x) then [x] else []
  {
    if s == [] {
      assert s + [x] == [x] && [x][1..] == [];
    } else {
      var head, tail := if p(s[0]) then [s[0]] else [], s[1..];
      assert (s + [x])[1..] == tail + [x];
      KeepAppended(p, tail, x);
    }
  }

  predicate IsMissing(g: BindGroup) {
    g.actual == []
  }

  predicate IsExtra(g: BindGroup) {
    g.actual != [] && g.contract == []
  }

  predicate IsDivergent(g: BindGroup) {
    g.actual != [] && g.contract != []
  }

  predicate IsDestructive(g: BindGroup) {
    g.IsDestructiveDivergence()
  }

  predicate IsHarmless(g: BindGroup) {
    !g.IsDestructiveDivergence()
  }

  /** A stable sort by "not destructive". */
  function DestructiveFirst(gs: seq<BindGroup>): seq<BindGroup> {
    Keep(IsDestructive, gs) + Keep(IsHarmless, gs)
  }

  function Classified(gs: seq<BindGroup>): Diff {
    Diff(DestructiveFirst(Keep(IsDivergent, gs)), Keep(IsMissing, gs), Keep(IsExtra, gs))
  }

  /** `diff` is the classified list of exactly the groups of all disagreements. */
  ghost predicate IsDiff(toKdl: Rendering, contract: Keybinds, effective: Keybinds, diff: Diff) {
    exists gs :: Grouped(toKdl, contract, effective, gs, Everywhere(contract, effective)) && diff == Classified(gs)
  }

  function BoundKeys(binds: Keybinds, mode: Mode): set<Key> {
    if mode in binds then binds[mode].Keys else {}
  }

  /** One key of one mode: a disagreement is recorded, anything else passes. */
  method WalkKey(contract: Keybinds, effective: Keybinds, toKdl: Rendering, mode: Mode, key: Key,
                 before: seq<BindGroup>, ghost done: Walk) returns (groups: seq<BindGroup>)
    requires Grouped(toKdl, contract, effective, before, done)
    requires mode == done.mode && key !in done.keys && forall m :: m in done.modes ==> m < mode
    ensures Grouped(toKdl, contract, effective, groups, done.(keys := done.keys + {key}))
  {
    if Disagree(contract, effective, mode, key) {
      RecordGroups(toKdl, contract, effective, before, done, key);
    } else {
      Regroup(toKdl, contract, effective, before, done, done.(keys := done.keys + {key}));
    }
    var inContract, inEffect := Lookup(contract, mode, key), Lookup(effective, mode, key);
    match (inContract, inEffect) {
      case (Some(expected), Some(actual)) =>
        groups := if expected != actual then Record(toKdl, before, BindGroup(key, [mode], actual, expected)) else before;
      case (Some(expected), None) =>
        groups := Record(toKdl, before, BindGroup(key, [mode], [], expected));
      case (None, Some(actual)) =>
        groups := Record(toKdl, before, BindGroup(key, [mode], actual, []));
      case (None, None) =>
        groups := before;
    }
  }

  /** `seen` holds the first `n` of `order`. */
  ghost predicate Walked(seen: set<int>, order: seq<int>, n: nat) {
    n <= |order| && forall x :: x in seen <==> x in order[..n]
  }

  lemma WalkedOneMore(seen: set<int>, order: seq<int>, n: nat)
    requires Walked(seen, order, n) && n < |order| && StrictlyAscending(order)
    ensures Walked(seen + {order[n]}, order, n + 1)
    ensures order[n] !in seen && forall x :: x in seen ==> x < order[n]
  {
    assert order[..n + 1] == order[..n] + [order[n]];
    assert forall i :: 0 <= i < n ==> order[..n][i] == order[i] < order[n];
  }

  lemma WalkedAll(seen: set<int>, all: set<int>, order: seq<int>)
    requires Walked(seen, order, |order|) && forall x :: x in order <==> x in all
    ensures seen == all
  {
    assert order[..|order|] == order;
    assert forall x :: x in seen <==> x in all;
  }

  /** Only keys that one of the maps binds can disagree, in modes that one of them has. */
  lemma DisagreementIsBound(contract: Keybinds, effective: Keybinds, mode: Mode, key: Key)
    requires Disagree(contract, effective, mode, key)
    ensures mode in contract.Keys + effective.Keys
    ensures key in BoundKeys(contract, mode) + BoundKeys(effective, mode)
  {}

  lemma ModeIsWalked(toKdl: Rendering, contract: Keybinds, effective: Keybinds, gs: seq<BindGroup>,
                     done: set<Mode>, mode: Mode)
    requires Grouped(toKdl, contract, effective, gs,
                     Walk(done, mode, BoundKeys(contract, mode) + BoundKeys(effective, mode)))
    ensures Grouped(toKdl, contract, effective, gs, Walk(done + {mode}, 0, {}))
  {
    var from := Walk(done, mode, BoundKeys(contract, mode) + BoundKeys(effective, mode));
    var to := Walk(done + {mode}, 0, {});
    forall m, k | Disagree(contract, effective, m, k) ensures from.Has(m, k) <==> to.Has(m, k) {
      DisagreementIsBound(contract, effective, m, k);
    }
    Regroup(toKdl, contract, effective, gs, from, to);
  }

  lemma BetweenModes(toKdl: Rendering, contract: Keybinds, effective: Keybinds, gs: seq<BindGroup>,
                     done: set<Mode>, mode: Mode)
    requires Grouped(toKdl, contract, effective, gs, Walk(done, 0, {}))
    ensures Grouped(toKdl, contract, effective, gs, Walk(done, mode, {}))
  {
    Regroup(toKdl, contract, effective, gs, Walk(done, 0, {}), Walk(done, mode, {}));
  }

  lemma NothingWalked(toKdl: Rendering, contract: Keybinds, effective: Keybinds)
    ensures Grouped(toKdl, contract, effective, [], Walk({}, 0, {}))
  {}

  /** The inner loop: one mode's keys in ascending order. */
  method WalkKeys(contract: Keybinds, effective: Keybinds, toKdl: Rendering, mode: Mode,
                  before: seq<BindGroup>, ghost done: set<Mode>) returns (groups: seq<BindGroup>)
    requires Grouped(toKdl, contract, effective, before, Walk(done, 0, {}))
    requires forall m :: m in done ==> m < mode
    ensures Grouped(toKdl, contract, effective, groups, Walk(done + {mode}, 0, {}))
  {
    groups := before;
    BetweenModes(toKdl, contract, effective, groups, done, mode);
    var bound := BoundKeys(contract, mode) + BoundKeys(effective, mode);
    var keys := Ascending(bound);
    ghost var seen: set<Key> := {};
    for j := 0 to |keys|
      invariant Walked(seen, keys, j)
      invariant Grouped(toKdl, contract, effective, groups, Walk(done, mode, seen))
    {
      WalkedOneMore(seen, keys, j);
      groups := WalkKey(contract, effective, toKdl, mode, keys[j], groups, Walk(done, mode, seen));
      seen := seen + {keys[j]};
    }
    WalkedAll(seen, bound, keys);
    ModeIsWalked(toKdl, contract, effective, groups, done, mode);
  }

  /** The last loop: each group goes to its class, in order, and destructive divergences move ahead. */
  method Classify(groups: seq<BindGroup>) returns (diff: Diff)
    ensures diff == Classified(groups)
  {
    diff := Diff([], [], []);
    for i := 0 to |groups|
      invariant diff == Diff(Keep(IsDivergent, groups[..i]), Keep(IsMissing, groups[..i]), Keep(IsExtra, groups[..i]))
    {
      var group := groups[i];
      KeepOneMore(IsDivergent, groups, i);
      KeepOneMore(IsMissing, groups, i);
      KeepOneMore(IsExtra, groups, i);
      if group.actual == [] {
        diff := diff.(missing := diff.missing + [group]);
      } else if group.contract == [] {
        diff := diff.(extra := diff.extra + [group]);
      } else {
        diff := diff.(divergent := diff.divergent + [group]);
      }
    }
    assert groups[..|groups|] == groups;
    diff := diff.(divergent := DestructiveFirst(diff.divergent));
  }

  /** The outer loop: the modes in ascending order. */
  method WalkModes(contract: Keybinds, effective: Keybinds, toKdl: Rendering) returns (groups: seq<BindGroup>)
    ensures Grouped(toKdl, contract, effective, groups, Everywhere(contract, effective))
  {
    var bound := contract.Keys + effective.Keys;
    var modes := Ascending(bound);
    groups := [];
    NothingWalked(toKdl, contract, effective);
    ghost var seen: set<Mode> := {};
    for i := 0 to |modes|
      invariant Walked(seen, modes, i)
      invariant Grouped(toKdl, contract, effective, groups, Walk(seen, 0, {}))
    {
      var mode := modes[i];
      WalkedOneMore(seen, modes, i);
      groups := WalkKeys(contract, effective, toKdl, mode, groups, seen);
      seen := seen + {mode};
    }
    WalkedAll(seen, bound, modes);
  }

  /** `diff_keybinds`. */
  method DiffKeybinds(contract: Keybinds, effective: Keybinds, toKdl: Rendering) returns (diff: Diff)
    ensures IsDiff(toKdl, contract, effective, diff)
  {
    var groups := WalkModes(contract, effective, toKdl);
    diff := Classify(groups);
  }

  // ---- what a report means ----

  function All(diff: Diff): seq<BindGroup> {
    diff.divergent + diff.missing + diff.extra
  }

  /** How many of the groups mention a slot. */
  function Times(gs: seq<BindGroup>, mode: Mode, key: Key): nat {
    if gs == [] then 0 else (if gs[0].key == key && mode in gs[0].modes then 1 else 0) + Times(gs[1..], mode, key)
  }

  lemma {:induction false} TimesAdds(a: seq<BindGroup>, b: seq<BindGroup>, mode: Mode, key: Key)
    ensures Times(a + b, mode, key) == Times(a, mode, key) + Times(b, mode, key)
  {
    if a == [] {
      assert a + b == b;
    } else {
      assert (a + b)[1..] == a[1..] + b;
      TimesAdds(a[1..], b, mode, key);
    }
  }

  lemma KeepTimes(p: BindGroup -> bool, gs: seq<BindGroup>, mode: Mode, key: Key)
    requires gs != []
    ensures Times(Keep(p, gs), mode, key)
            == (if p(gs[0]) then Times([gs[0]], mode, key) else 0) + Times(Keep(p, gs[1..]), mode, key)
  {
    var head := if p(gs[0]) then [gs[0]] else [];
    assert Keep(p, gs) == head + Keep(p, gs[1..]);
    TimesAdds(head, Keep(p, gs[1..]), mode, key);
  }

  lemma {:induction false} KeptOnce(gs: seq<BindGroup>, mode: Mode, key: Key)
    ensures Times(Keep(IsDivergent, gs), mode, key) + Times(Keep(IsMissing, gs), mode, key)
            + Times(Keep(IsExtra, gs), mode, key) == Times(gs, mode, key)
  {
    if gs == [] {
    } else {
      KeptOnce(gs[1..], mode, key);
      KeepTimes(IsDivergent, gs, mode, key);
      KeepTimes(IsMissing, gs, mode, key);
      KeepTimes(IsExtra, gs, mode, key);
      TimesAdds([gs[0]], gs[1..], mode, key);
      assert gs == [gs[0]] + gs[1..];
    }
  }

  lemma {:induction false} SortedOnce(gs: seq<BindGroup>, mode: Mode, key: Key)
    ensures Times(DestructiveFirst(gs), mode, key) == Times(gs, mode, key)
  {
    TimesAdds(Keep(IsDestructive, gs), Keep(IsHarmless, gs), mode, key);
    if gs == [] {
    } else {
      SortedOnce(gs[1..], mode, key);
      TimesAdds(Keep(IsDestructive, gs[1..]), Keep(IsHarmless, gs[1..]), mode, key);
      KeepTimes(IsDestructive, gs, mode, key);
      KeepTimes(IsHarmless, gs, mode, key);
      TimesAdds([gs[0]], gs[1..], mode, key);
      assert gs == [gs[0]] + gs[1..];
    }
  }

  lemma ClassifiedOnce(gs: seq<BindGroup>, mode: Mode, key: Key)
    ensures Times(All(Classified(gs)), mode, key) == Times(gs, mode, key)
  {
    var diff, divergent := Classified(gs), Keep(IsDivergent, gs);
    KeptOnce(gs, mode, key);
    SortedOnce(divergent, mode, key);
    TimesAdds(diff.divergent, diff.missing, mode, key);
    TimesAdds(diff.divergent + diff.missing, diff.extra, mode, key);
  }

  lemma {:induction false} TimesIsMentions(toKdl: Rendering, contract: Keybinds, effective: Keybinds,
                                           gs: seq<BindGroup>, mode: Mode, key: Key)
    requires Sorted(toKdl, gs) && forall g :: g in gs ==> Sound(toKdl, contract, effective, g)
    ensures Times(gs, mode, key) == (if Mentions(gs, mode, key) then 1 else 0)
  {
    if gs == [] {
    } else {
      var head, tail := gs[0], gs[1..];
      assert gs == [head] + tail;
      SortedSplits(toKdl, head, tail);
      TimesIsMentions(toKdl, contract, effective, tail, mode, key);
      if head.key == key && mode in head.modes {
        AboveLacks(toKdl, TagOf(toKdl, head), tail);
        assert head in gs && Sound(toKdl, contract, effective, head);
        forall g | g in tail && g.key == key ensures mode !in g.modes {
          assert g in gs && Sound(toKdl, contract, effective, g);
        }
        assert !Mentions(tail, mode, key);
      } else {
        assert Mentions(gs, mode, key) <==> Mentions(tail, mode, key);
      }
    }
  }

  lemma ClassifiedMembers(gs: seq<BindGroup>, g: BindGroup)
    ensures g in All(Classified(gs)) <==> g in gs
    ensures g in Classified(gs).divergent <==> g in gs && g.actual != [] && g.contract != []
  {
    var diff := Classified(gs);
    assert g in diff.divergent <==> g in Keep(IsDivergent, gs);
  }

  /** Every slot where the maps disagree is in exactly one group, and no other slot in any. */
  lemma EachDisagreementIsReportedOnce(toKdl: Rendering, contract: Keybinds, effective: Keybinds, diff: Diff,
                                       mode: Mode, key: Key)
    requires IsDiff(toKdl, contract, effective, diff)
    ensures Times(All(diff), mode, key) == (if Disagree(contract, effective, mode, key) then 1 else 0)
    ensures forall g :: g in All(diff) ==> Sound(toKdl, contract, effective, g)
  {
    var gs: seq<BindGroup> :| Grouped(toKdl, contract, effective, gs, Everywhere(contract, effective)) && diff == Classified(gs);
    ClassifiedOnce(gs, mode, key);
    TimesIsMentions(toKdl, contract, effective, gs, mode, key);
    if Disagree(contract, effective, mode, key) {
      DisagreementIsBound(contract, effective, mode, key);
    }
    forall g ensures g in All(diff) <==> g in gs {
      ClassifiedMembers(gs, g);
    }
  }

  /** A clean report means the two maps are the same at every slot, and the other way round. */
  lemma CleanExactlyWhenEqual(toKdl: Rendering, contract: Keybinds, effective: Keybinds, diff: Diff)
    requires IsDiff(toKdl, contract, effective, diff)
    ensures diff.IsClean() <==> forall m, k :: Lookup(contract, m, k) == Lookup(effective, m, k)
  {
    if diff.IsClean() {
      forall m, k ensures Lookup(contract, m, k) == Lookup(effective, m, k) {
        EachDisagreementIsReportedOnce(toKdl, contract, effective, diff, m, k);
      }
    } else {
      assert All(diff) != [];
      var g := All(diff)[0];
      assert g in All(diff);
      EachDisagreementIsReportedOnce(toKdl, contract, effective, diff, 0, 0);
      assert g.modes[0] in g.modes;
      assert Disagree(contract, effective, g.modes[0], g.key);
    }
  }

  // ---- rebuilding the effective map ----

  /** The group that mentions a slot. */
  function Reported(gs: seq<BindGroup>, mode: Mode, key: Key): (r: Option<BindGroup>)
    ensures r.Some? ==> r.value in gs && r.value.key == key && mode in r.value.modes
    ensures r.None? ==> !Mentions(gs, mode, key)
  {
    if gs == [] then None
    else if gs[0].key == key && mode in gs[0].modes then Some(gs[0])
    else Reported(gs[1..], mode, key)
  }

  /** The bind a reader of the contract and the report would expect at a slot. */
  function Rebuilt(contract: Keybinds, diff: Diff, mode: Mode, key: Key): Option<seq<Action>> {
    match Reported(All(diff), mode, key)
    case None => Lookup(contract, mode, key)
    case Some(g) => if g.actual == [] then None else Some(g.actual)
  }

  /** Two modes disagree about a key in the same way, as far as the signatures show. */
  predicate Alike(toKdl: Rendering, contract: Keybinds, effective: Keybinds, mode: Mode, other: Mode, key: Key) {
    && Disagree(contract, effective, mode, key) && Disagree(contract, effective, other, key)
    && SlotTag(toKdl, contract, effective, mode, key) == SlotTag(toKdl, contract, effective, other, key)
  }

  /** Slots reported together are bound alike: their signatures hide no difference between them. */
  ghost predicate SignaturesTellApart(toKdl: Rendering, contract: Keybinds, effective: Keybinds) {
    forall m, n, k :: Alike(toKdl, contract, effective, m, n, k)
                      ==> OrEmpty(Lookup(effective, m, k)) == OrEmpty(Lookup(effective, n, k))
  }

  /** No disagreement is a key bound to an empty list, which a report cannot tell from no bind. */
  ghost predicate NoEmptyBinds(contract: Keybinds, effective: Keybinds) {
    forall m, k :: Disagree(contract, effective, m, k) ==> Lookup(effective, m, k) != Some([])
  }

  /** What a report says about a disagreement: one sound group, which also has every slot alike. */
  lemma ReportOf(toKdl: Rendering, contract: Keybinds, effective: Keybinds, diff: Diff, mode: Mode, key: Key)
    returns (g: BindGroup)
    requires IsDiff(toKdl, contract, effective, diff) && Disagree(contract, effective, mode, key)
    ensures Reported(All(diff), mode, key) == Some(g) && Sound(toKdl, contract, effective, g)
    ensures TagOf(toKdl, g) == SlotTag(toKdl, contract, effective, mode, key)
    ensures forall m :: Alike(toKdl, contract, effective, m, mode, key) ==> m in g.modes
  {
    var gs: seq<BindGroup> :| Grouped(toKdl, contract, effective, gs, Everywhere(contract, effective)) && diff == Classified(gs);
    forall h ensures h in All(diff) <==> h in gs {
      ClassifiedMembers(gs, h);
    }
    DisagreementIsBound(contract, effective, mode, key);
    assert Mentions(gs, mode, key);
    assert Mentions(All(diff), mode, key);
    g := Reported(All(diff), mode, key).value;
    assert g in gs;
    forall m | Alike(toKdl, contract, effective, m, mode, key) ensures m in g.modes {
      DisagreementIsBound(contract, effective, m, key);
      assert Mentions(gs, m, key);
      var h :| h in gs && h.key == key && m in h.modes;
      assert Sound(toKdl, contract, effective, h);
      SameTagSameGroup(toKdl, gs, g, h);
    }
  }

  /** A disagreement is rebuilt as the first mode that disagrees alike has it. */
  lemma RebuiltFromTheFirstMode(toKdl: Rendering, contract: Keybinds, effective: Keybinds, diff: Diff,
                                mode: Mode, key: Key) returns (first: Mode)
    requires IsDiff(toKdl, contract, effective, diff) && Disagree(contract, effective, mode, key)
    ensures Alike(toKdl, contract, effective, first, mode, key)
    ensures forall m :: Alike(toKdl, contract, effective, m, mode, key) ==> first <= m
    ensures var bound := OrEmpty(Lookup(effective, first, key));
            Rebuilt(contract, diff, mode, key) == if bound == [] then None else Some(bound)
  {
    var g := ReportOf(toKdl, contract, effective, diff, mode, key);
    first := g.modes[0];
    assert first in g.modes;
    forall m | m in g.modes ensures first <= m {
      var i :| 0 <= i < |g.modes| && g.modes[i] == m;
    }
    assert g.(modes := [first]) == Single(contract, effective, first, key);
  }

  /** The contract and the report together give back the effective map under exactly two conditions. */
  lemma RebuildsExactlyWhen(toKdl: Rendering, contract: Keybinds, effective: Keybinds, diff: Diff)
    requires IsDiff(toKdl, contract, effective, diff)
    ensures (forall m, k :: Rebuilt(contract, diff, m, k) == Lookup(effective, m, k))
            <==> (SignaturesTellApart(toKdl, contract, effective) && NoEmptyBinds(contract, effective))
  {
    if forall m, k :: Rebuilt(contract, diff, m, k) == Lookup(effective, m, k) {
      forall m, n, k | Alike(toKdl, contract, effective, m, n, k)
        ensures OrEmpty(Lookup(effective, m, k)) == OrEmpty(Lookup(effective, n, k))
      {
        var first := RebuiltFromTheFirstMode(toKdl, contract, effective, diff, m, k);
        var second := RebuiltFromTheFirstMode(toKdl, contract, effective, diff, n, k);
        assert Alike(toKdl, contract, effective, second, m, k) && Alike(toKdl, contract, effective, first, n, k);
        assert first == second;
      }
      forall m, k | Disagree(contract, effective, m, k) ensures Lookup(effective, m, k) != Some([]) {
        var first := RebuiltFromTheFirstMode(toKdl, contract, effective, diff, m, k);
      }
    }
    if SignaturesTellApart(toKdl, contract, effective) && NoEmptyBinds(contract, effective) {
      forall m, k ensures Rebuilt(contract, diff, m, k) == Lookup(effective, m, k) {
        if Disagree(contract, effective, m, k) {
          var first := RebuiltFromTheFirstMode(toKdl, contract, effective, diff, m, k);
          assert OrEmpty(Lookup(effective, m, k)) == OrEmpty(Lookup(effective, first, k));
        } else {
          NothingReported(toKdl, contract, effective, diff, m, k);
        }
      }
    }
  }

  lemma NothingReported(toKdl: Rendering, contract: Keybinds, effective: Keybinds, diff: Diff, mode: Mode, key: Key)
    requires IsDiff(toKdl, contract, effective, diff) && !Disagree(contract, effective, mode, key)
    ensures Reported(All(diff), mode, key).None?
  {
    EachDisagreementIsReportedOnce(toKdl, contract, effective, diff, mode, key);
  }

  /** In particular when different action lists never render alike and no list is empty. */
  lemma InjectiveSignaturesRebuild(toKdl: Rendering, contract: Keybinds, effective: Keybinds, diff: Diff)
    requires IsDiff(toKdl, contract, effective, diff)
    requires forall a, b :: Signature(toKdl, a) == Signature(toKdl, b) ==> a == b
    requires forall m, k :: Lookup(effective, m, k) != Some([])
    ensures forall m, k :: Rebuilt(contract, diff, m, k) == Lookup(effective, m, k)
  {
    assert SignaturesTellApart(toKdl, contract, effective);
    RebuildsExactlyWhen(toKdl, contract, effective, diff);
  }

  /** Actions without a rendering leave no trace in a signature: two binds to such are rebuilt as one. */
  lemma UnrenderableActionsAreMerged(toKdl: Rendering, contract: Keybinds, effective: Keybinds, diff: Diff,
                                     m: Mode, n: Mode, key: Key, a: Action, b: Action)
    requires IsDiff(toKdl, contract, effective, diff) && toKdl(a).None? && toKdl(b).None?
    requires Lookup(contract, m, key).None? && Lookup(contract, n, key).None?
    requires Lookup(effective, m, key) == Some([a]) && Lookup(effective, n, key) == Some([b])
    ensures Rebuilt(contract, diff, m, key) == Rebuilt(contract, diff, n, key)
  {
    SingletonSignature(toKdl, a);
    SingletonSignature(toKdl, b);
    var first := RebuiltFromTheFirstMode(toKdl, contract, effective, diff, m, key);
    var second := RebuiltFromTheFirstMode(toKdl, contract, effective, diff, n, key);
    assert Alike(toKdl, contract, effective, m, n, key);
    assert Alike(toKdl, contract, effective, second, m, key) && Alike(toKdl, contract, effective, first, n, key);
  }

  lemma SingletonSignature(toKdl: Rendering, a: Action)
    ensures Signature(toKdl, [a]) == if toKdl(a).Some? then toKdl(a).value else ""
  {
    assert Renderings(toKdl, [a][1..]) == [];
    if toKdl(a).Some? {
      assert [toKdl(a).value] + [] == [toKdl(a).value];
      assert Renderings(toKdl, [a]) == [toKdl(a).value];
    } else {
      assert Renderings(toKdl, [a]) == [];
    }
  }

  /** Session-killing divergences come before all others, each class in the order of its signatures. */
  lemma DestructiveLead(toKdl: Rendering, contract: Keybinds, effective: Keybinds, diff: Diff)
    returns (n: nat)
    requires IsDiff(toKdl, contract, effective, diff)
    ensures n <= |diff.divergent|
    ensures forall i :: 0 <= i < |diff.divergent| ==>
                          (Quit in diff.divergent[i].actual && Quit !in diff.divergent[i].contract <==> i < n)
    ensures Sorted(toKdl, diff.divergent[..n]) && Sorted(toKdl, diff.divergent[n..])
    ensures Sorted(toKdl, diff.missing) && Sorted(toKdl, diff.extra)
  {
    var gs: seq<BindGroup> :| Grouped(toKdl, contract, effective, gs, Everywhere(contract, effective))
                              && diff == Classified(gs);
    KeepIsSorted(toKdl, IsDivergent, gs);
    KeepIsSorted(toKdl, IsMissing, gs);
    KeepIsSorted(toKdl, IsExtra, gs);
    n := LeadingPart(toKdl, Keep(IsDivergent, gs));
  }

  lemma LeadingPart(toKdl: Rendering, gs: seq<BindGroup>) returns (n: nat)
    requires Sorted(toKdl, gs)
    ensures n <= |DestructiveFirst(gs)|
    ensures forall i :: 0 <= i < |DestructiveFirst(gs)| ==>
                          (Quit in DestructiveFirst(gs)[i].actual && Quit !in DestructiveFirst(gs)[i].contract <==> i < n)
    ensures Sorted(toKdl, DestructiveFirst(gs)[..n]) && Sorted(toKdl, DestructiveFirst(gs)[n..])
  {
    var leading, rest := Keep(IsDestructive, gs), Keep(IsHarmless, gs);
    KeepIsSorted(toKdl, IsDestructive, gs);
    KeepIsSorted(toKdl, IsHarmless, gs);
    n := |leading|;
    assert (leading + rest)[..n] == leading && (leading + rest)[n..] == rest;
    assert forall i :: 0 <= i < n ==> leading[i] in leading;
    assert forall i :: 0 <= i < |rest| ==> rest[i] in rest;
  }

  lemma {:induction false} KeepIsSorted(toKdl: Rendering, p: BindGroup -> bool, gs: seq<BindGroup>)
    requires Sorted(toKdl, gs)
    ensures Sorted(toKdl, Keep(p, gs))
  {
    if gs == [] {
    } else {
      assert gs == [gs[0]] + gs[1..];
      SortedSplits(toKdl, gs[0], gs[1..]);
      KeepIsSorted(toKdl, p, gs[1..]);
      SortedSplits(toKdl, gs[0], Keep(p, gs[1..]));
      assert Keep(p, gs) == (if p(gs[0]) then [gs[0]] else []) + Keep(p, gs[1..]);
    }
  }

  /**
   Where a session-killing bind replaced one that is not, the report opens with such a group, provided
   slots reported together agree on what they are bound to on both sides.
   */
  lemma QuitLeadsTheReport(toKdl: Rendering, contract: Keybinds, effective: Keybinds, diff: Diff, mode: Mode, key: Key)
    requires IsDiff(toKdl, contract, effective, diff)
    requires forall m :: Alike(toKdl, contract, effective, m, mode, key) ==>
                           && OrEmpty(Lookup(effective, m, key)) == OrEmpty(Lookup(effective, mode, key))
                           && OrEmpty(Lookup(contract, m, key)) == OrEmpty(Lookup(contract, mode, key))
    requires Quit in OrEmpty(Lookup(effective, mode, key)) && Quit !in OrEmpty(Lookup(contract, mode, key))
    requires OrEmpty(Lookup(contract, mode, key)) != []
    ensures diff.divergent != [] && Quit in diff.divergent[0].actual && Quit !in diff.divergent[0].contract
  {
    var g := ReportOf(toKdl, contract, effective, diff, mode, key);
    var first := g.modes[0];
    assert first in g.modes && Alike(toKdl, contract, effective, first, mode, key);
    assert g.(modes := [first]) == Single(contract, effective, first, key);
    assert g in diff.divergent by {
      var gs: seq<BindGroup> :| Grouped(toKdl, contract, effective, gs, Everywhere(contract, effective))
                                && diff == Classified(gs);
      assert g in All(diff);
      ClassifiedMembers(gs, g);
    }
    var n := DestructiveLead(toKdl, contract, effective, diff);
  }

  /** The class of a group is that of its first mode: unbound now, unknown to the contract, or bound on both sides. */
  lemma ClassIsThatOfTheFirstMode(toKdl: Rendering, contract: Keybinds, effective: Keybinds, diff: Diff, g: BindGroup)
    requires IsDiff(toKdl, contract, effective, diff) && g in All(diff)
    ensures g.modes != []
    ensures var now, shipped := OrEmpty(Lookup(effective, g.modes[0], g.key)), OrEmpty(Lookup(contract, g.modes[0], g.key));
            && (g in diff.missing <==> now == [])
            && (g in diff.extra <==> now != [] && shipped == [])
            && (g in diff.divergent <==> now != [] && shipped != [])
  {
    EachDisagreementIsReportedOnce(toKdl, contract, effective, diff, 0, g.key);
    var gs: seq<BindGroup> :| Grouped(toKdl, contract, effective, gs, Everywhere(contract, effective))
                              && diff == Classified(gs);
    ClassifiedMembers(gs, g);
    assert g.(modes := [g.modes[0]]) == Single(contract, effective, g.modes[0], g.key);
  }

  /** The signature of actions that all have a rendering is their text, with semicolons in between. */
  lemma SignatureOfTwo(toKdl: Rendering, a: Action, b: Action)
    requires toKdl(a).Some? && toKdl(b).Some?
    ensures Signature(toKdl, [a, b]) == toKdl(a).value + "; " + toKdl(b).value
  {
    assert [a, b][1..] == [b] && [b][1..] == [];
    assert Renderings(toKdl, []) == [] && [toKdl(b).value] + [] == [toKdl(b).value];
    assert Renderings(toKdl, [b]) == [toKdl(b).value];
    var texts := [toKdl(a).value, toKdl(b).value];
    assert Renderings(toKdl, [a, b]) == texts;
    assert texts[..|texts| - 1] == [toKdl(a).value];
    assert Join([toKdl(a).value], "; ") == toKdl(a).value;
  }

  /** Slots bound to one action each are reported together only if the two actions are written alike. */
  lemma DifferentTextsStayApart(toKdl: Rendering, contract: Keybinds, effective: Keybinds, diff: Diff, g: BindGroup,
                                m: Mode, n: Mode, a: Action, b: Action)
    requires IsDiff(toKdl, contract, effective, diff) && g in All(diff) && m in g.modes && n in g.modes
    requires Lookup(effective, m, g.key) == Some([a]) && Lookup(effective, n, g.key) == Some([b])
    ensures toKdl(a).Some? && toKdl(b).Some? ==> toKdl(a) == toKdl(b)
  {
    EachDisagreementIsReportedOnce(toKdl, contract, effective, diff, m, g.key);
    assert SlotTag(toKdl, contract, effective, m, g.key) == SlotTag(toKdl, contract, effective, n, g.key);
    SingletonSignature(toKdl, a);
    SingletonSignature(toKdl, b);
  }

  // ---- the report is determined by the two maps ----

  lemma SameGroups(toKdl: Rendering, contract: Keybinds, effective: Keybinds, a: seq<BindGroup>, b: seq<BindGroup>)
    requires Grouped(toKdl, contract, effective, a, Everywhere(contract, effective))
    requires Grouped(toKdl, contract, effective, b, Everywhere(contract, effective))
    ensures forall g :: g in a ==> g in b
  {
    forall g | g in a ensures g in b {
      var h := Counterpart(toKdl, contract, effective, a, b, g);
      var k := Counterpart(toKdl, contract, effective, b, a, h);
      SameTagSameGroup(toKdl, a, g, k);
      AscendingIsUnique(g.modes, set m | m in g.modes);
      AscendingIsUnique(h.modes, set m | m in g.modes);
      assert g == h;
    }
  }

  /** The other list's group of the same tag has at least the same modes. */
  lemma Counterpart(toKdl: Rendering, contract: Keybinds, effective: Keybinds,
                    a: seq<BindGroup>, b: seq<BindGroup>, g: BindGroup) returns (h: BindGroup)
    requires Grouped(toKdl, contract, effective, a, Everywhere(contract, effective)) && g in a
    requires Grouped(toKdl, contract, effective, b, Everywhere(contract, effective))
    ensures h in b && TagOf(toKdl, h) == TagOf(toKdl, g) && forall m :: m in g.modes ==> m in h.modes
    ensures Sound(toKdl, contract, effective, g) && Sound(toKdl, contract, effective, h)
  {
    assert Sound(toKdl, contract, effective, g) && g.modes[0] in g.modes;
    assert Mentions(b, g.modes[0], g.key) by {
      DisagreementIsBound(contract, effective, g.modes[0], g.key);
    }
    h :| h in b && h.key == g.key && g.modes[0] in h.modes;
    assert Sound(toKdl, contract, effective, h);
    forall m | m in g.modes ensures m in h.modes {
      DisagreementIsBound(contract, effective, m, g.key);
      assert Mentions(b, m, g.key);
      var i :| i in b && i.key == g.key && m in i.modes;
      assert Sound(toKdl, contract, effective, i);
      SameTagSameGroup(toKdl, b, h, i);
    }
  }

  lemma SomeMember(gs: seq<BindGroup>)
    ensures gs != [] <==> exists g :: g in gs
  {
    if gs != [] {
      assert gs[0] in gs;
    }
  }

  lemma {:induction false} SortedIsUnique(toKdl: Rendering, a: seq<BindGroup>, b: seq<BindGroup>)
    requires Sorted(toKdl, a) && Sorted(toKdl, b) && forall g :: g in a <==> g in b
    ensures a == b
  {
    SomeMember(a);
    SomeMember(b);
    if a == [] {
    } else {
      var x, y, as', bs := a[0], b[0], a[1..], b[1..];
      assert a == [x] + as' && b == [y] + bs;
      SortedSplits(toKdl, x, as');
      SortedSplits(toKdl, y, bs);
      TagOrder(TagOf(toKdl, x), TagOf(toKdl, y));
      assert x in b && y in a;
      assert x == y;
      AboveLacks(toKdl, TagOf(toKdl, x), as');
      AboveLacks(toKdl, TagOf(toKdl, x), bs);
      forall g ensures g in as' <==> g in bs {
        assert g in a <==> g in b;
      }
      SortedIsUnique(toKdl, as', bs);
    }
  }

  /** Two maps have one report, to the last entry. */
  lemma ReportIsUnique(toKdl: Rendering, contract: Keybinds, effective: Keybinds, diff: Diff, other: Diff)
    requires IsDiff(toKdl, contract, effective, diff) && IsDiff(toKdl, contract, effective, other)
    ensures diff == other
  {
    var all := Everywhere(contract, effective);
    var a: seq<BindGroup> :| Grouped(toKdl, contract, effective, a, all) && diff == Classified(a);
    var b: seq<BindGroup> :| Grouped(toKdl, contract, effective, b, all) && other == Classified(b);
    SameGroups(toKdl, contract, effective, a, b);
    SameGroups(toKdl, contract, effective, b, a);
    SortedIsUnique(toKdl, a, b);
  }
}
