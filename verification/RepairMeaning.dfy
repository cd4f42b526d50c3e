/**
 What `repair key-bindings` keeps: run twice it changes nothing more, the repaired config means what the
 original meant except where noise hid an override, and what a retirement throws away is listed.
 */
module RepairMeaning {
  import opened Results
  import opened KeybindDiff
  import opened KeybindConfig
  import opened KeybindRepair
  import Ordering

  // ---- noise, slot by slot ----

  lemma DeclaresSomething(blocks: seq<Block>)
    ensures Declared(blocks) != map[] <==> exists m, k :: Lookup(Declared(blocks), m, k).Some?
  {
    var declared := Declared(blocks);
    if declared != map[] {
      var m := Ordering.Pick(declared.Keys);
      var k :| k in AllKeys(blocks) && Value(blocks, m, k, None).Some?;
      assert k in declared[m];
      assert Lookup(declared, m, k).Some?;
    }
  }

  /** What a bind restates is in the contract at every slot that the bind declares. */
  predicate Restates(contract: Keybinds, declared: Keybinds) {
    forall m :: m in declared ==> forall k :: k in declared[m] ==> Lookup(contract, m, k) == Some(declared[m][k])
  }

  lemma RestatesBySlot(contract: Keybinds, declared: Keybinds)
    ensures Restates(contract, declared)
            <==> forall m, k :: Lookup(declared, m, k).Some? ==> Lookup(contract, m, k) == Lookup(declared, m, k)
  {
    if forall m, k :: Lookup(declared, m, k).Some? ==> Lookup(contract, m, k) == Lookup(declared, m, k) {
      forall m | m in declared
        ensures forall k :: k in declared[m] ==> Lookup(contract, m, k) == Some(declared[m][k])
      {
        forall k | k in declared[m] ensures Lookup(contract, m, k) == Some(declared[m][k]) {
          assert Lookup(declared, m, k) == Some(declared[m][k]);
        }
      }
    }
  }

  /** A bind is noise exactly when it binds something, and every slot it binds has that bind in the contract. */
  lemma NoiseExactly(contract: Keybinds, block: Block, leaf: Leaf)
    ensures IsNoise(contract, block, leaf)
            <==> (&& leaf.verb == Bind && leaf.Parses() && (exists m :: m in block.Modes()) && leaf.keys.value != []
                  && forall m, k :: m in block.Modes() && leaf.Names(k) ==> Lookup(contract, m, k) == leaf.actions)
  {
    if leaf.verb == Bind {
      var declared := Alone(block, [leaf]);
      forall m, k ensures Lookup(declared, m, k)
                          == if m in block.Modes() && leaf.Parses() && leaf.Sets(k) then leaf.actions else None
      {
        AloneBinds(block, leaf, m, k);
      }
      DeclaresSomething([block.(cleared := false, children := Some([leaf]))]);
      RestatesBySlot(contract, declared);
      assert IsNoise(contract, block, leaf) <==> declared != map[] && Restates(contract, declared);
      if leaf.Parses() && (exists m :: m in block.Modes()) && leaf.keys.value != [] {
        var m :| m in block.Modes();
        assert leaf.Sets(leaf.keys.value[0]);
        assert Lookup(declared, m, leaf.keys.value[0]).Some?;
      }
    }
  }

  // ---- running the repair twice ----

  /** Nothing in the block for the repair to do. */
  ghost predicate SettledBlock(contract: Keybinds, b: Block) {
    !b.cleared && b.Leaves() != [] && forall l :: l in b.Leaves() ==> !IsNoise(contract, b, l)
  }

  lemma {:induction false} KeepAll<T>(p: T -> bool, s: seq<T>)
    ensures |Keep(p, s)| <= |s|
    ensures Keep(p, s) == s <==> forall x :: x in s ==> p(x)
  {
    if s == [] {
    } else {
      KeepAll(p, s[1..]);
      var rest := Keep(p, s[1..]);
      assert s == [s[0]] + s[1..];
      if p(s[0]) {
        assert Keep(p, s) == [s[0]] + rest;
        assert Keep(p, s)[1..] == rest;
      }
    }
  }

  lemma ThinIsQuiet(contract: Keybinds, b: Block, l: Leaf)
    ensures IsNoise(contract, Thin(contract, b), l) == IsNoise(contract, b, l)
    ensures Thin(contract, b) == b <==> forall x :: x in b.Leaves() ==> !IsNoise(contract, b, x)
  {
    assert Alone(Thin(contract, b), [l]) == Alone(b, [l]);
    if b.children.Some? {
      KeepAll((x: Leaf) => !IsNoise(contract, b, x), b.children.value);
    }
  }

  /** The kept blocks are settled, each what is left of a block that was not frozen. */
  lemma {:induction false} KeptIsSettled(contract: Keybinds, blocks: seq<Block>)
    ensures forall b :: b in Kept(contract, blocks) ==> SettledBlock(contract, b)
  {
    if blocks == [] {
    } else {
      var last := blocks[|blocks| - 1];
      KeptIsSettled(contract, blocks[..|blocks| - 1]);
      forall l | l in Thin(contract, last).Leaves() ensures !IsNoise(contract, Thin(contract, last), l) {
        ThinIsQuiet(contract, last, l);
      }
    }
  }

  lemma SettledBlockPasses(contract: Keybinds, b: Block)
    requires SettledBlock(contract, b)
    ensures Thin(contract, b) == b && StepFor(contract, b) == []
  {
    ThinIsQuiet(contract, b, Leaf(Unknown, None, None));
    SomeIndex(NoiseIndices(contract, b, b.Leaves()));
  }

  lemma SomeIndex(indices: seq<nat>)
    ensures indices != [] ==> exists i :: i in indices
  {
    if indices != [] {
      assert indices[0] in indices;
    }
  }

  lemma {:induction false} SettledPass(contract: Keybinds, blocks: seq<Block>)
    requires forall b :: b in blocks ==> SettledBlock(contract, b)
    ensures Kept(contract, blocks) == blocks && StepsFor(contract, blocks) == []
  {
    if blocks == [] {
    } else {
      var init, last := blocks[..|blocks| - 1], blocks[|blocks| - 1];
      assert blocks == init + [last];
      SettledPass(contract, init);
      SettledBlockPasses(contract, last);
    }
  }

  /** Settled blocks, and no others, pass unchanged. */
  lemma KeptExactlyWhenSettled(contract: Keybinds, blocks: seq<Block>)
    ensures Kept(contract, blocks) == blocks <==> forall b :: b in blocks ==> SettledBlock(contract, b)
  {
    KeptIsSettled(contract, blocks);
    if forall b :: b in blocks ==> SettledBlock(contract, b) {
      SettledPass(contract, blocks);
    }
  }

  /** A `keybinds` node the repair leaves as it is. */
  ghost predicate Settled(contract: Keybinds, node: Node) {
    && !node.cleared
    && (node.children.Some? ==>
          node.children.value != [] && forall b :: b in node.children.value ==> SettledBlock(contract, b))
  }

  /** The repair changes a document exactly when its first `keybinds` node is not settled. */
  lemma ChangesExactlyTheUnsettled(contract: Keybinds, doc: Document, guard: string)
    ensures var i := First(doc.nodes);
            Repaired(contract, doc, guard) == doc <==> i == |doc.nodes| || Settled(contract, doc.nodes[i])
  {
    var i := First(doc.nodes);
    if i < |doc.nodes| {
      var node, after := doc.nodes[i], Repaired(contract, doc, guard);
      if node.children.Some? {
        KeptExactlyWhenSettled(contract, node.children.value);
      }
      if Vanishes(contract, node) {
        assert |after.nodes| == |doc.nodes| - 1;
      } else if node.children.Some? {
        assert after.nodes[i].children == Some(Kept(contract, node.children.value));
        if Kept(contract, node.children.value) == node.children.value {
          assert after.nodes == doc.nodes;
        }
      }
    }
  }

  /** An unchanged document is one for which no step is planned. */
  lemma SettledTakesNoSteps(contract: Keybinds, doc: Document, guard: string)
    requires Repaired(contract, doc, guard) == doc
    ensures Steps(contract, doc) == []
  {
    ChangesExactlyTheUnsettled(contract, doc, guard);
    var i := First(doc.nodes);
    if i < |doc.nodes| && doc.nodes[i].children.Some? {
      SettledPass(contract, doc.nodes[i].children.value);
    }
  }

  /** The first `keybinds` node after the one at `i`, or the number of nodes. */
  function Second(nodes: seq<Node>): (j: nat)
    ensures j <= |nodes|
    ensures j < |nodes| ==> nodes[j].name == "keybinds"
  {
    var i := First(nodes);
    if i == |nodes| then i else i + 1 + First(nodes[i + 1..])
  }

  lemma FirstIs(nodes: seq<Node>, i: nat)
    requires i <= |nodes| && (i < |nodes| ==> nodes[i].name == "keybinds")
    requires forall j :: 0 <= j < i ==> nodes[j].name != "keybinds"
    ensures First(nodes) == i
  {}

  /** A node as the parser sees it, whatever comments stand above it. */
  function Bare(node: Node): Node {
    node.(leading := "")
  }

  lemma RetireShifts(doc: Document, i: nat, guard: string)
    requires i < |doc.nodes|
    ensures var after := Retire(doc, i, guard).nodes;
            |after| == |doc.nodes| - 1
            && forall n :: 0 <= n < |after| ==> Bare(after[n]) == Bare(doc.nodes[if n < i then n else n + 1])
  {}

  /** Retiring the first node makes the second the first. */
  lemma RetiredLooksAt(doc: Document, guard: string)
    requires First(doc.nodes) < |doc.nodes|
    ensures var i, j := First(doc.nodes), Second(doc.nodes);
            var after := Retire(doc, i, guard).nodes;
            First(after) == j - 1 && |after| == |doc.nodes| - 1
            && (j < |doc.nodes| ==> Bare(after[j - 1]) == Bare(doc.nodes[j]))
  {
    var i, j := First(doc.nodes), Second(doc.nodes);
    var after := Retire(doc, i, guard).nodes;
    RetireShifts(doc, i, guard);
    forall n | 0 <= n < j - 1 ensures after[n].name != "keybinds" {
      assert Bare(after[n]).name == Bare(doc.nodes[if n < i then n else n + 1]).name;
      if n >= i {
        assert doc.nodes[i + 1..][n - i] == doc.nodes[n + 1];
      }
    }
    if j < |doc.nodes| {
      assert Bare(after[j - 1]).name == Bare(doc.nodes[j]).name;
    }
    FirstIs(after, j - 1);
  }

  /**
   A second run changes nothing exactly when the first did not retire a node that hid another
   `keybinds` node with something left to repair.
   */
  lemma RepairTwiceExactlyWhen(contract: Keybinds, doc: Document, guard: string, next: string)
    ensures var i, j, after := First(doc.nodes), Second(doc.nodes), Repaired(contract, doc, guard);
            Repaired(contract, after, next) == after
            <==> !(i < |doc.nodes| && Vanishes(contract, doc.nodes[i])
                   && j < |doc.nodes| && !Settled(contract, doc.nodes[j]))
  {
    var i, j, after := First(doc.nodes), Second(doc.nodes), Repaired(contract, doc, guard);
    ChangesExactlyTheUnsettled(contract, after, next);
    if i < |doc.nodes| && Vanishes(contract, doc.nodes[i]) {
      RetiredLooksAt(doc, guard);
      if j < |doc.nodes| {
        assert Settled(contract, after.nodes[j - 1]) <==> Settled(contract, Bare(after.nodes[j - 1]));
        assert Settled(contract, doc.nodes[j]) <==> Settled(contract, Bare(doc.nodes[j]));
      }
    } else if i < |doc.nodes| {
      FirstIs(after.nodes, i);
      if doc.nodes[i].children.Some? {
        KeptIsSettled(contract, doc.nodes[i].children.value);
      }
    }
  }

  /** In particular, a config with at most one `keybinds` node is repaired in one run. */
  lemma OneNodeIsRepairedInOneRun(contract: Keybinds, doc: Document, guard: string, next: string)
    requires forall a, b :: 0 <= a < b < |doc.nodes| ==> !(doc.nodes[a].name == doc.nodes[b].name == "keybinds")
    ensures var after := Repaired(contract, doc, guard);
            Repaired(contract, after, next) == after && Steps(contract, after) == []
  {
    var after := Repaired(contract, doc, guard);
    RepairTwiceExactlyWhen(contract, doc, guard, next);
    SettledTakesNoSteps(contract, after, next);
  }

  // ---- what the repaired config means ----

  /** One instruction of the config about a slot, in the order the parser follows; noise will be dropped. */
  datatype Effect = Effect(value: Option<seq<Action>>, noise: bool)

  /** The value after a list of instructions. */
  function Last(effects: seq<Effect>, base: Option<seq<Action>>): Option<seq<Action>> {
    if effects == [] then base else effects[|effects| - 1].value
  }

  predicate IsKept(e: Effect) {
    !e.noise
  }

  function BindEffects(contract: Keybinds, block: Block, leaves: seq<Leaf>, key: Key): seq<Effect> {
    if leaves == [] then []
    else
      var last, before := leaves[|leaves| - 1], BindEffects(contract, block, leaves[..|leaves| - 1], key);
      if last.Sets(key) then before + [Effect(last.actions, IsNoise(contract, block, last))] else before
  }

  function BlockEffects(contract: Keybinds, block: Block, mode: Mode, key: Key): seq<Effect> {
    if mode !in block.Modes() then []
    else
      var binds := BindEffects(contract, block, block.Leaves(), key);
      if Unbinds(block.Leaves(), key) then binds + [Effect(None, false)] else binds
  }

  function PassEffects(contract: Keybinds, blocks: seq<Block>, shared: bool, mode: Mode, key: Key): seq<Effect> {
    if blocks == [] then []
    else
      var last := blocks[|blocks| - 1];
      var before := PassEffects(contract, blocks[..|blocks| - 1], shared, mode, key);
      if last.scope.Shared? == shared then before + BlockEffects(contract, last, mode, key) else before
  }

  /** Every instruction about a slot: shared blocks first, then mode blocks. */
  function Effects(contract: Keybinds, blocks: seq<Block>, mode: Mode, key: Key): seq<Effect> {
    PassEffects(contract, blocks, true, mode, key) + PassEffects(contract, blocks, false, mode, key)
  }

  lemma LastOfBoth(a: seq<Effect>, b: seq<Effect>, base: Option<seq<Action>>)
    ensures Last(a + b, base) == Last(b, Last(a, base))
  {}

  lemma {:induction false} KeepBoth(a: seq<Effect>, b: seq<Effect>)
    ensures Keep(IsKept, a + b) == Keep(IsKept, a) + Keep(IsKept, b)
  {
    if a == [] {
      assert a + b == b;
    } else {
      assert (a + b)[1..] == a[1..] + b;
      KeepBoth(a[1..], b);
      var head := if IsKept(a[0]) then [a[0]] else [];
      assert head + (Keep(IsKept, a[1..]) + Keep(IsKept, b)) == (head + Keep(IsKept, a[1..])) + Keep(IsKept, b);
    }
  }

  lemma {:induction false} BindsAreEffects(contract: Keybinds, block: Block, leaves: seq<Leaf>, key: Key, base: Option<seq<Action>>)
    ensures AfterBinds(leaves, key, base) == Last(BindEffects(contract, block, leaves, key), base)
  {
    if leaves != [] && !leaves[|leaves| - 1].Sets(key) {
      BindsAreEffects(contract, block, leaves[..|leaves| - 1], key, base);
    }
  }

  lemma {:induction false} IntentOneMore(contract: Keybinds, block: Block, leaves: seq<Leaf>)
    requires leaves != []
    ensures var init, last := leaves[..|leaves| - 1], leaves[|leaves| - 1];
            Intent(contract, block, leaves)
            == if IsNoise(contract, block, last) then Intent(contract, block, init)
               else Intent(contract, block, init) + [last]
  {
    var init, last := leaves[..|leaves| - 1], leaves[|leaves| - 1];
    assert leaves == init + [last];
    KeepLast((l: Leaf) => !IsNoise(contract, block, l), init, last);
  }

  /** Thinning a block removes its noise from the list of instructions and nothing else. */
  lemma {:induction false} ThinnedBinds(contract: Keybinds, block: Block, leaves: seq<Leaf>, key: Key, base: Option<seq<Action>>)
    ensures AfterBinds(Intent(contract, block, leaves), key, base)
            == Last(Keep(IsKept, BindEffects(contract, block, leaves, key)), base)
  {
    if leaves == [] {
    } else {
      var init, last := leaves[..|leaves| - 1], leaves[|leaves| - 1];
      ThinnedBinds(contract, block, init, key, base);
      IntentOneMore(contract, block, leaves);
      var kept := Intent(contract, block, init);
      if last.Sets(key) {
        KeepLast(IsKept, BindEffects(contract, block, init, key), Effect(last.actions, IsNoise(contract, block, last)));
      }
      assert (kept + [last])[..|kept|] == kept;
    }
  }

  lemma ThinnedUnbinds(contract: Keybinds, block: Block, key: Key)
    ensures Unbinds(Thin(contract, block).Leaves(), key) == Unbinds(block.Leaves(), key)
  {}

  lemma BlocksAreEffects(contract: Keybinds, block: Block, mode: Mode, key: Key, base: Option<seq<Action>>)
    requires !block.cleared
    ensures AfterBlock(block, mode, key, base) == Last(BlockEffects(contract, block, mode, key), base)
  {
    BindsAreEffects(contract, block, block.Leaves(), key, base);
  }

  lemma ThinnedBlocksAreEffects(contract: Keybinds, block: Block, mode: Mode, key: Key, base: Option<seq<Action>>)
    requires !block.cleared
    ensures AfterBlock(Thin(contract, block), mode, key, base)
            == Last(Keep(IsKept, BlockEffects(contract, block, mode, key)), base)
  {
    var binds := BindEffects(contract, block, block.Leaves(), key);
    ThinnedBinds(contract, block, block.Leaves(), key, base);
    ThinnedUnbinds(contract, block, key);
    ThinnedLeaves(contract, block);
    KeepLast(IsKept, binds, Effect(None, false));
  }

  lemma ThinnedLeaves(contract: Keybinds, block: Block)
    ensures Thin(contract, block).Leaves() == Intent(contract, block, block.Leaves())
    ensures Thin(contract, block).Modes() == block.Modes()
    ensures Thin(contract, block).scope == block.scope && Thin(contract, block).cleared == block.cleared
  {}

  predicate NoneCleared(blocks: seq<Block>) {
    forall b :: b in blocks ==> !b.cleared
  }

  /** An empty shell gives no instruction, so dropping it changes nothing. */
  lemma ShellSaysNothing(b: Block, mode: Mode, key: Key, base: Option<seq<Action>>)
    requires b.Leaves() == [] && !b.cleared
    ensures AfterBlock(b, mode, key, base) == base
  {}

  lemma {:induction false} PassIsEffects(contract: Keybinds, blocks: seq<Block>, shared: bool, mode: Mode, key: Key,
                                         base: Option<seq<Action>>)
    requires NoneCleared(blocks)
    ensures AfterPass(blocks, shared, mode, key, base) == Last(PassEffects(contract, blocks, shared, mode, key), base)
    ensures AfterPass(Kept(contract, blocks), shared, mode, key, base)
            == Last(Keep(IsKept, PassEffects(contract, blocks, shared, mode, key)), base)
  {
    if blocks == [] {
    } else {
      var init, last := blocks[..|blocks| - 1], blocks[|blocks| - 1];
      PassIsEffects(contract, init, shared, mode, key, base);
      var before := PassEffects(contract, init, shared, mode, key);
      var more := BlockEffects(contract, last, mode, key);
      BlocksAreEffects(contract, last, mode, key, Last(before, base));
      ThinnedBlocksAreEffects(contract, last, mode, key, Last(Keep(IsKept, before), base));
      LastOfBoth(before, more, base);
      KeepBoth(before, more);
      LastOfBoth(Keep(IsKept, before), Keep(IsKept, more), base);
      var thin, kept := Thin(contract, last), Kept(contract, init);
      if thin.Leaves() == [] {
        ShellSaysNothing(thin, mode, key, Last(Keep(IsKept, before), base));
      } else {
        assert (kept + [thin])[..|kept|] == kept;
      }
    }
  }

  /** Every instruction that counts as noise restates the contract at the slot. */
  predicate NoiseRestates(effects: seq<Effect>, base: Option<seq<Action>>) {
    forall e :: e in effects && e.noise ==> e.value == base
  }

  lemma {:induction false} BindNoiseRestates(contract: Keybinds, block: Block, leaves: seq<Leaf>, mode: Mode, key: Key)
    requires mode in block.Modes()
    ensures NoiseRestates(BindEffects(contract, block, leaves, key), Lookup(contract, mode, key))
  {
    if leaves == [] {
    } else {
      BindNoiseRestates(contract, block, leaves[..|leaves| - 1], mode, key);
      NoiseExactly(contract, block, leaves[|leaves| - 1]);
    }
  }

  lemma {:induction false} PassNoiseRestates(contract: Keybinds, blocks: seq<Block>, shared: bool, mode: Mode, key: Key)
    ensures NoiseRestates(PassEffects(contract, blocks, shared, mode, key), Lookup(contract, mode, key))
  {
    if blocks == [] {
    } else {
      var last := blocks[|blocks| - 1];
      PassNoiseRestates(contract, blocks[..|blocks| - 1], shared, mode, key);
      if mode in last.Modes() {
        BindNoiseRestates(contract, last, last.Leaves(), mode, key);
      }
    }
  }

  /**
   The slot's last instruction that stays differs from the contract, but in the original some noise
   after it puts the contract's bind back.
   */
  predicate HidesOverride(effects: seq<Effect>, base: Option<seq<Action>>) {
    exists i :: 0 <= i < |effects| - 1 && !effects[i].noise && effects[i].value != base
                && forall j :: i < j < |effects| ==> effects[j].noise
  }

  lemma {:induction false} DroppingNoise(effects: seq<Effect>, base: Option<seq<Action>>)
    requires NoiseRestates(effects, base)
    ensures Last(Keep(IsKept, effects), base) == Last(effects, base) <==> !HidesOverride(effects, base)
  {
    if effects == [] {
    } else {
      var n := |effects| - 1;
      var init, last := effects[..n], effects[n];
      assert effects == init + [last];
      KeepLast(IsKept, init, last);
      if last.noise {
        assert last in effects;
        DroppingNoise(init, base);
        TrailingNoise(init, last, base);
      }
    }
  }

  /** With one more piece of noise at the end, an override is hidden if it was, or if it was in force. */
  lemma TrailingNoise(init: seq<Effect>, last: Effect, base: Option<seq<Action>>)
    requires last.noise && NoiseRestates(init, base)
    ensures HidesOverride(init + [last], base) <==> HidesOverride(init, base) || Last(init, base) != base
  {
    if HidesOverride(init + [last], base) {
      HiddenBefore(init, last, base);
    }
    if HidesOverride(init, base) || Last(init, base) != base {
      HiddenAfter(init, last, base);
    }
  }

  lemma HiddenBefore(init: seq<Effect>, last: Effect, base: Option<seq<Action>>)
    requires HidesOverride(init + [last], base)
    ensures HidesOverride(init, base) || Last(init, base) != base
  {
    var effects, n := init + [last], |init|;
    var i :| 0 <= i < |effects| - 1 && !effects[i].noise && effects[i].value != base
             && forall j :: i < j < |effects| ==> effects[j].noise;
    assert init[i] == effects[i];
    if i < n - 1 {
      assert forall j :: i < j < n ==> init[j] == effects[j];
    }
  }

  lemma HiddenAfter(init: seq<Effect>, last: Effect, base: Option<seq<Action>>)
    requires last.noise && NoiseRestates(init, base)
    requires HidesOverride(init, base) || Last(init, base) != base
    ensures HidesOverride(init + [last], base)
  {
    var effects, n := init + [last], |init|;
    if HidesOverride(init, base) {
      var i :| 0 <= i < |init| - 1 && !init[i].noise && init[i].value != base
               && forall j :: i < j < |init| ==> init[j].noise;
      assert !effects[i].noise && forall j :: i < j < |effects| ==> effects[j].noise;
    } else {
      assert init[n - 1] in init && !effects[n - 1].noise && effects[n - 1].value != base;
    }
  }

  /** Global unbinds in their usual form: keys and no braces. */
  predicate PlainUnbinds(blocks: seq<Block>) {
    forall b :: b in blocks && b.scope.GlobalUnbind? ==> b.Leaves() == []
  }

  lemma {:induction false} NoUnbindKept(contract: Keybinds, blocks: seq<Block>)
    requires PlainUnbinds(blocks)
    ensures forall b :: b in Kept(contract, blocks) ==> !b.scope.GlobalUnbind?
  {
    if blocks == [] {
    } else {
      NoUnbindKept(contract, blocks[..|blocks| - 1]);
      assert blocks[|blocks| - 1] in blocks;
    }
  }

  lemma {:induction false} NothingUnbound(blocks: seq<Block>)
    requires forall b :: b in blocks ==> !b.scope.GlobalUnbind?
    ensures Unbound(blocks) == Some([])
  {
    if blocks == [] {
    } else {
      NothingUnbound(blocks[1..]);
    }
  }

  /**
   Without frozen blocks, the repaired blocks bind a slot as the original did exactly when no noise
   hides an override there, and, for a key in a global unbind, when the other instructions leave it
   unbound: the repair drops a global unbind.
   */
  lemma MeaningKeptExactlyWhen(contract: Keybinds, blocks: seq<Block>, mode: Mode, key: Key)
    requires NoneCleared(blocks) && PlainUnbinds(blocks) && Unbound(blocks).Some?
    ensures var base, effects := Lookup(contract, mode, key), Effects(contract, blocks, mode, key);
            Value(Kept(contract, blocks), mode, key, base) == Value(blocks, mode, key, base)
            <==> if key in Unbound(blocks).value then Last(Keep(IsKept, effects), base) == None
                 else !HidesOverride(effects, base)
  {
    var base, effects := Lookup(contract, mode, key), Effects(contract, blocks, mode, key);
    var kept := Kept(contract, blocks);
    var shared, single := PassEffects(contract, blocks, true, mode, key), PassEffects(contract, blocks, false, mode, key);
    NoUnbindKept(contract, blocks);
    NothingUnbound(kept);
    PassIsEffects(contract, blocks, true, mode, key, base);
    PassIsEffects(contract, blocks, false, mode, key, Last(shared, base));
    PassIsEffects(contract, blocks, false, mode, key, Last(Keep(IsKept, shared), base));
    LastOfBoth(shared, single, base);
    LastOfBoth(Keep(IsKept, shared), Keep(IsKept, single), base);
    KeepBoth(shared, single);
    assert Value(kept, mode, key, base) == Last(Keep(IsKept, effects), base);
    PassNoiseRestates(contract, blocks, true, mode, key);
    PassNoiseRestates(contract, blocks, false, mode, key);
    DroppingNoise(effects, base);
  }

  /** What a whole config binds at a slot. */
  function DocumentMeaning(contract: Keybinds, doc: Document, mode: Mode, key: Key): Option<seq<Action>> {
    var i := First(doc.nodes);
    if i < |doc.nodes| then Meaning(contract, doc.nodes[i], mode, key) else Lookup(contract, mode, key)
  }

  /**
   For a config with one `keybinds` node, nothing frozen and no global unbind: if no slot has more than
   one instruction, the repaired config means what the original meant, at every slot.
   */
  lemma RepairKeepsMeaning(contract: Keybinds, doc: Document, guard: string, mode: Mode, key: Key)
    requires First(doc.nodes) < |doc.nodes| == Second(doc.nodes)
    requires var node := doc.nodes[First(doc.nodes)];
             !node.cleared && node.children.Some? && NoneCleared(node.children.value)
             && (forall b :: b in node.children.value ==> !b.scope.GlobalUnbind?)
             && |Effects(contract, node.children.value, mode, key)| <= 1
    ensures DocumentMeaning(contract, Repaired(contract, doc, guard), mode, key) == DocumentMeaning(contract, doc, mode, key)
  {
    var i := First(doc.nodes);
    var blocks := doc.nodes[i].children.value;
    NothingUnbound(blocks);
    MeaningKeptExactlyWhen(contract, blocks, mode, key);
    assert !HidesOverride(Effects(contract, blocks, mode, key), Lookup(contract, mode, key));
    var after := Repaired(contract, doc, guard);
    if Kept(contract, blocks) == [] {
      RetiredLooksAt(doc, guard);
      assert Unbound([]) == Some([]);
      assert AfterPass([], true, mode, key, Lookup(contract, mode, key)) == Lookup(contract, mode, key);
      assert AfterPass([], false, mode, key, Lookup(contract, mode, key)) == Lookup(contract, mode, key);
    } else {
      FirstIs(after.nodes, i);
    }
  }

  /** A repaired node that stays is one the parser still accepts. */
  lemma {:induction false} KeptStillParses(contract: Keybinds, blocks: seq<Block>)
    requires BlocksParse(blocks) && PlainUnbinds(blocks)
    ensures BlocksParse(Kept(contract, blocks))
  {
    NoUnbindKept(contract, blocks);
    NothingUnbound(Kept(contract, blocks));
    KeptBlocksParse(contract, blocks);
  }

  lemma {:induction false} KeptBlocksParse(contract: Keybinds, blocks: seq<Block>)
    requires forall b :: b in blocks ==> b.Parses()
    ensures forall b :: b in Kept(contract, blocks) ==> b.Parses()
  {
    if blocks == [] {
    } else {
      KeptBlocksParse(contract, blocks[..|blocks| - 1]);
      var last := blocks[|blocks| - 1];
      assert last in blocks;
      assert Thin(contract, last).Modes() == last.Modes();
    }
  }

  // ---- where the meaning changes ----

  function BindLine(key: Key, actions: seq<Action>): Leaf {
    Leaf(Bind, Some([key]), Some(actions))
  }

  /**
   A mode block that first overrides a key and later restores it: the repair drops the restoring bind
   as noise, and the override, say a bare `Quit`, comes into force.
   */
  lemma DroppedNoiseRevivesAnOverride(contract: Keybinds, mode: Mode, key: Key, override: seq<Action>, shipped: seq<Action>)
    requires Lookup(contract, mode, key) == Some(shipped) && override != shipped
    ensures var block := Block("mode", Single(mode), false, Some([BindLine(key, override), BindLine(key, shipped)]));
            && Value([block], mode, key, Some(shipped)) == Some(shipped)
            && Value(Kept(contract, [block]), mode, key, Some(shipped)) == Some(override)
  {
    var first, second := BindLine(key, override), BindLine(key, shipped);
    var leaves := [first, second];
    var block := Block("mode", Single(mode), false, Some(leaves));
    NoiseExactly(contract, block, first);
    NoiseExactly(contract, block, second);
    assert mode in block.Modes() && first.Names(key) && second.Names(key);
    assert leaves[..1] == [first] && leaves[..1][..0] == [];
    assert BindEffects(contract, block, [], key) == [];
    assert BindEffects(contract, block, leaves[..1], key) == [Effect(Some(override), false)];
    var effects := [Effect(Some(override), false), Effect(Some(shipped), true)];
    assert BindEffects(contract, block, leaves, key) == effects;
    KeepLast(IsKept, [effects[0]], effects[1]);
    assert [effects[0]] + [effects[1]] == effects && [effects[0]][1..] == [];
    assert Keep(IsKept, effects) == [effects[0]];
    OneBlockBothWays(contract, block, mode, key, Some(shipped));
  }

  /** The value of one mode block, before and after the repair, from its instructions. */
  lemma OneBlockBothWays(contract: Keybinds, block: Block, mode: Mode, key: Key, base: Option<seq<Action>>)
    requires block.scope == Single(mode) && !block.cleared
    requires !Unbinds(block.Leaves(), key)
    ensures var effects := BindEffects(contract, block, block.Leaves(), key);
            && Value([block], mode, key, base) == Last(effects, base)
            && Value(Kept(contract, [block]), mode, key, base) == Last(Keep(IsKept, effects), base)
  {
    OneBlockEffects(contract, block, mode, key);
    PassIsEffects(contract, [block], true, mode, key, base);
    PassIsEffects(contract, [block], false, mode, key, base);
    NothingUnbound([block]);
    NoUnbindKept(contract, [block]);
    NothingUnbound(Kept(contract, [block]));
  }

  lemma OneBlockEffects(contract: Keybinds, block: Block, mode: Mode, key: Key)
    requires block.scope == Single(mode) && !Unbinds(block.Leaves(), key)
    ensures PassEffects(contract, [block], true, mode, key) == []
    ensures PassEffects(contract, [block], false, mode, key) == BindEffects(contract, block, block.Leaves(), key)
  {
    assert [block][..0] == [];
    assert PassEffects(contract, [], false, mode, key) == [];
    var effects := BlockEffects(contract, block, mode, key);
    assert [] + effects == effects;
  }

  /** Nothing in the block that a step would name. */
  ghost predicate Unremarkable(contract: Keybinds, b: Block) {
    !b.cleared && forall l :: l in b.Leaves() ==> !IsNoise(contract, b, l)
  }

  lemma NoStepForUnremarkable(contract: Keybinds, b: Block)
    ensures StepFor(contract, b) == [] <==> Unremarkable(contract, b)
  {
    var noise, leaves := NoiseIndices(contract, b, b.Leaves()), b.Leaves();
    SomeIndex(noise);
    if l :| l in leaves && IsNoise(contract, b, l) {
      var i :| 0 <= i < |leaves| && leaves[i] == l;
      assert i in noise;
    }
  }

  /** One more block and its step. */
  lemma OneMoreStep(contract: Keybinds, init: seq<Block>, last: Block)
    ensures StepsFor(contract, init + [last]) == [] <==> StepsFor(contract, init) == [] && Unremarkable(contract, last)
    ensures Unremarkable(contract, last) ==>
              Kept(contract, init + [last]) == if Says(last) then Kept(contract, init) + [last] else Kept(contract, init)
  {
    assert (init + [last])[..|init|] == init;
    NoStepForUnremarkable(contract, last);
    ThinIsQuiet(contract, last, Leaf(Unknown, None, None));
  }

  /** No step is planned for the blocks exactly when all are unremarkable. */
  lemma {:induction false} NoStepsExactlyWhen(contract: Keybinds, blocks: seq<Block>)
    ensures StepsFor(contract, blocks) == [] <==> forall b :: b in blocks ==> Unremarkable(contract, b)
  {
    if blocks == [] {
    } else {
      var init, last := blocks[..|blocks| - 1], blocks[|blocks| - 1];
      NoStepsExactlyWhen(contract, init);
      OneMoreStep(contract, init, last);
      LastSplits(blocks);
    }
  }

  /** Then the ones with lines stay, as they are. */
  lemma {:induction false} OnlyShellsGo(contract: Keybinds, blocks: seq<Block>)
    requires StepsFor(contract, blocks) == []
    ensures Kept(contract, blocks) == [] <==> forall b :: b in blocks ==> !Says(b)
  {
    if blocks == [] {
    } else {
      var init, last := blocks[..|blocks| - 1], blocks[|blocks| - 1];
      LastSplits(blocks);
      OneMoreStep(contract, init, last);
      OnlyShellsGo(contract, init);
    }
  }

  lemma LastSplits<T>(s: seq<T>)
    requires s != []
    ensures s == s[..|s| - 1] + [s[|s| - 1]]
    ensures forall x :: x in s <==> x in s[..|s| - 1] || x == s[|s| - 1]
  {}

  /**
   The plan changes the tree without a single step exactly when the first `keybinds` node is not
   frozen, has no frozen block and no noise, and has a block without lines beside one with lines.
   */
  lemma ChangesWithoutAStepExactlyWhen(contract: Keybinds, doc: Document, guard: string)
    ensures var i := First(doc.nodes);
            Steps(contract, doc) == [] && Repaired(contract, doc, guard) != doc
            <==> (&& i < |doc.nodes| && !doc.nodes[i].cleared && doc.nodes[i].children.Some?
                  && var blocks := doc.nodes[i].children.value;
                  && (forall b :: b in blocks ==> Unremarkable(contract, b))
                  && (exists b :: b in blocks && !Says(b))
                  && (exists b :: b in blocks && Says(b)))
  {
    ChangesExactlyTheUnsettled(contract, doc, guard);
    var i := First(doc.nodes);
    if i < |doc.nodes| && doc.nodes[i].children.Some? {
      NoStepsExactlyWhen(contract, doc.nodes[i].children.value);
      if StepsFor(contract, doc.nodes[i].children.value) == [] {
        OnlyShellsGo(contract, doc.nodes[i].children.value);
      }
    }
  }

  lemma {:induction false} QuietBinds(contract: Keybinds, block: Block, leaves: seq<Leaf>, key: Key)
    requires forall l :: l in leaves ==> !IsNoise(contract, block, l)
    ensures forall e :: e in BindEffects(contract, block, leaves, key) ==> !e.noise
  {
    if leaves == [] {
    } else {
      assert leaves[|leaves| - 1] in leaves;
      QuietBinds(contract, block, leaves[..|leaves| - 1], key);
    }
  }

  lemma {:induction false} QuietPass(contract: Keybinds, blocks: seq<Block>, shared: bool, mode: Mode, key: Key)
    requires forall b :: b in blocks ==> Unremarkable(contract, b)
    ensures forall e :: e in PassEffects(contract, blocks, shared, mode, key) ==> !e.noise
  {
    if blocks == [] {
    } else {
      var last := blocks[|blocks| - 1];
      assert last in blocks;
      QuietPass(contract, blocks[..|blocks| - 1], shared, mode, key);
      QuietBinds(contract, last, last.Leaves(), key);
    }
  }

  lemma QuietEffects(contract: Keybinds, blocks: seq<Block>, mode: Mode, key: Key, base: Option<seq<Action>>)
    requires forall b :: b in blocks ==> Unremarkable(contract, b)
    ensures var effects := Effects(contract, blocks, mode, key);
            Keep(IsKept, effects) == effects && !HidesOverride(effects, base)
  {
    QuietPass(contract, blocks, true, mode, key);
    QuietPass(contract, blocks, false, mode, key);
    var effects := Effects(contract, blocks, mode, key);
    KeepAll(IsKept, effects);
    NothingHidden(effects, base);
  }

  lemma NothingHidden(effects: seq<Effect>, base: Option<seq<Action>>)
    requires forall e :: e in effects ==> !e.noise
    ensures !HidesOverride(effects, base)
  {
    if effects != [] {
      assert effects[|effects| - 1] in effects && !effects[|effects| - 1].noise;
    }
  }

  /**
   What such a plan does to a slot: it keeps its meaning unless the key is in the global unbind, which
   is the block that goes, and some other instruction binds it.
   */
  lemma PlanWithoutStepsKeepsMeaningExactlyWhen(contract: Keybinds, blocks: seq<Block>, mode: Mode, key: Key)
    requires StepsFor(contract, blocks) == [] && PlainUnbinds(blocks) && Unbound(blocks).Some?
    ensures var base := Lookup(contract, mode, key);
            Value(Kept(contract, blocks), mode, key, base) == Value(blocks, mode, key, base)
            <==> key !in Unbound(blocks).value || Last(Effects(contract, blocks, mode, key), base) == None
  {
    var base, effects := Lookup(contract, mode, key), Effects(contract, blocks, mode, key);
    NoStepsExactlyWhen(contract, blocks);
    QuietEffects(contract, blocks, mode, key, base);
    MeaningKeptExactlyWhen(contract, blocks, mode, key);
  }

  // ---- what a retirement throws away ----

  /** A bind the retired piece declared differently from the contract is listed exactly when its group shows it. */
  lemma ListedExactlyWhen(toKdl: Rendering, contract: Keybinds, declared: Keybinds, diff: Diff, mode: Mode, key: Key)
    returns (first: Mode)
    requires IsDiff(toKdl, contract, declared, diff) && Disagree(contract, declared, mode, key)
    ensures Alike(toKdl, contract, declared, first, mode, key)
    ensures forall m :: Alike(toKdl, contract, declared, m, mode, key) ==> first <= m
    ensures Mentions(diff.LostOnRetirement(), mode, key) <==> OrEmpty(Lookup(declared, first, key)) != []
  {
    first := RebuiltFromTheFirstMode(toKdl, contract, declared, diff, mode, key);
    var g := ReportOf(toKdl, contract, declared, diff, mode, key);
    var gs: seq<BindGroup> :| Grouped(toKdl, contract, declared, gs, Everywhere(contract, declared))
                              && diff == Classified(gs);
    forall h ensures h in All(diff) <==> h in gs {
      ClassifiedMembers(gs, h);
    }
    ClassifiedMembers(gs, g);
    if g.actual != [] {
      assert g in diff.LostOnRetirement();
    }
    if Mentions(diff.LostOnRetirement(), mode, key) {
      var h :| h in diff.LostOnRetirement() && h.key == key && mode in h.modes;
      ClassifiedMembers(gs, h);
      assert h in gs && Sound(toKdl, contract, declared, h);
      SameTagSameGroup(toKdl, gs, g, h);
      assert h in Keep(IsDivergent, gs) || h in Keep(IsExtra, gs);
    }
  }

  ghost predicate IsFirstAlike(toKdl: Rendering, contract: Keybinds, declared: Keybinds, first: Mode, mode: Mode, key: Key) {
    && Alike(toKdl, contract, declared, first, mode, key)
    && forall m :: Alike(toKdl, contract, declared, m, mode, key) ==> first <= m
  }

  /** The piece disagrees with the contract about the slot, and its first mode that does so alike binds the key. */
  ghost predicate IsListed(toKdl: Rendering, contract: Keybinds, declared: Keybinds, mode: Mode, key: Key) {
    exists first :: IsFirstAlike(toKdl, contract, declared, first, mode, key) && OrEmpty(Lookup(declared, first, key)) != []
  }

  /** Every slot that disagrees alike is bound to something. */
  ghost predicate AlikeAreBound(toKdl: Rendering, contract: Keybinds, declared: Keybinds, mode: Mode, key: Key) {
    forall m :: Alike(toKdl, contract, declared, m, mode, key) ==> OrEmpty(Lookup(declared, m, key)) != []
  }

  /** One retired piece lists exactly these slots. */
  lemma PieceLists(toKdl: Rendering, contract: Keybinds, declared: Keybinds, diff: Diff, mode: Mode, key: Key)
    requires IsDiff(toKdl, contract, declared, diff)
    ensures Mentions(diff.LostOnRetirement(), mode, key) <==> IsListed(toKdl, contract, declared, mode, key)
    ensures Disagree(contract, declared, mode, key) && AlikeAreBound(toKdl, contract, declared, mode, key) ==>
              IsListed(toKdl, contract, declared, mode, key)
  {
    if Disagree(contract, declared, mode, key) {
      var first := ListedExactlyWhen(toKdl, contract, declared, diff, mode, key);
      assert IsFirstAlike(toKdl, contract, declared, first, mode, key);
      forall other | IsFirstAlike(toKdl, contract, declared, other, mode, key) ensures other == first {
        assert Alike(toKdl, contract, declared, other, mode, key);
      }
    } else {
      AgreementIsUnlisted(toKdl, contract, declared, diff, mode, key);
    }
  }

  lemma AgreementIsUnlisted(toKdl: Rendering, contract: Keybinds, declared: Keybinds, diff: Diff, mode: Mode, key: Key)
    requires IsDiff(toKdl, contract, declared, diff) && !Disagree(contract, declared, mode, key)
    ensures !Mentions(diff.LostOnRetirement(), mode, key)
  {
    EachDisagreementIsReportedOnce(toKdl, contract, declared, diff, mode, key);
    assert forall g :: g in diff.LostOnRetirement() ==> g in All(diff);
  }

  lemma MentionsBoth(a: seq<BindGroup>, b: seq<BindGroup>, mode: Mode, key: Key)
    ensures Mentions(a + b, mode, key) <==> Mentions(a, mode, key) || Mentions(b, mode, key)
  {
    if Mentions(a, mode, key) {
      var g :| g in a && g.key == key && mode in g.modes;
      assert g in a + b;
    }
    if Mentions(b, mode, key) {
      var g :| g in b && g.key == key && mode in g.modes;
      assert g in a + b;
    }
  }

  ghost predicate IsListedByOne(toKdl: Rendering, contract: Keybinds, retired: seq<Keybinds>, mode: Mode, key: Key) {
    exists n :: 0 <= n < |retired| && IsListed(toKdl, contract, retired[n], mode, key)
  }

  lemma OneMorePiece(toKdl: Rendering, contract: Keybinds, init: seq<Keybinds>, last: Keybinds, mode: Mode, key: Key)
    ensures IsListedByOne(toKdl, contract, init + [last], mode, key)
            <==> IsListedByOne(toKdl, contract, init, mode, key) || IsListed(toKdl, contract, last, mode, key)
  {
    var retired := init + [last];
    assert retired[|init|] == last;
    assert forall n :: 0 <= n < |init| ==> retired[n] == init[n];
  }

  /** The last retirement of a plan, and what was lost before it. */
  lemma LastPiece(toKdl: Rendering, contract: Keybinds, retired: seq<Keybinds>, lost: seq<BindGroup>)
    returns (init: seq<Keybinds>, last: Keybinds, before: seq<BindGroup>, diff: Diff)
    requires retired != [] && LostBy(toKdl, contract, retired, lost)
    ensures retired == init + [last]
    ensures IsDiff(toKdl, contract, last, diff) && LostBy(toKdl, contract, init, before)
    ensures lost == before + diff.LostOnRetirement()
  {
    init, last := retired[..|retired| - 1], retired[|retired| - 1];
    diff, before :|
      && IsDiff(toKdl, contract, last, diff)
      && LostBy(toKdl, contract, init, before)
      && lost == before + diff.LostOnRetirement();
  }

  /** A whole plan lists a slot exactly when one of the retired pieces does. */
  lemma {:induction false} PlanListsExactlyWhen(toKdl: Rendering, contract: Keybinds, retired: seq<Keybinds>,
                                                lost: seq<BindGroup>, mode: Mode, key: Key)
    requires LostBy(toKdl, contract, retired, lost)
    ensures Mentions(lost, mode, key) <==> IsListedByOne(toKdl, contract, retired, mode, key)
  {
    if retired == [] {
    } else {
      var init, last, before, diff := LastPiece(toKdl, contract, retired, lost);
      PlanListsExactlyWhen(toKdl, contract, init, before, mode, key);
      PieceLists(toKdl, contract, last, diff, mode, key);
      MentionsBoth(before, diff.LostOnRetirement(), mode, key);
      OneMorePiece(toKdl, contract, init, last, mode, key);
    }
  }

  /** A bind of a retired piece is the contract's or listed, unless the piece leaves a slot that differs alike unbound. */
  lemma {:induction false} NothingIsLostSilently(toKdl: Rendering, contract: Keybinds, retired: seq<Keybinds>,
                                                 lost: seq<BindGroup>, n: nat, mode: Mode, key: Key)
    requires LostBy(toKdl, contract, retired, lost) && n < |retired|
    requires AlikeAreBound(toKdl, contract, retired[n], mode, key)
    ensures Lookup(contract, mode, key) == Lookup(retired[n], mode, key) || Mentions(lost, mode, key)
  {
    var init, last, before, diff := LastPiece(toKdl, contract, retired, lost);
    MentionsBoth(before, diff.LostOnRetirement(), mode, key);
    if n == |init| {
      PieceLists(toKdl, contract, last, diff, mode, key);
    } else {
      NothingIsLostSilently(toKdl, contract, init, before, n, mode, key);
    }
  }

  /** In particular a bind that has a rendering is never lost silently. */
  lemma RenderableBindsAreListed(toKdl: Rendering, contract: Keybinds, retired: seq<Keybinds>, lost: seq<BindGroup>,
                                 n: nat, mode: Mode, key: Key)
    requires LostBy(toKdl, contract, retired, lost) && n < |retired| && Lookup(retired[n], mode, key).Some?
    requires Signature(toKdl, Lookup(retired[n], mode, key).value) != ""
    ensures Lookup(contract, mode, key) == Lookup(retired[n], mode, key) || Mentions(lost, mode, key)
  {
    assert Signature(toKdl, []) == "";
    NothingIsLostSilently(toKdl, contract, retired, lost, n, mode, key);
  }

  /** A config whose first `keybinds` node binds one key in one mode block that is frozen. */
  function FrozenBind(leading: string, content: string, trailing: string, name: string, mode: Mode, key: Key,
                      actions: seq<Action>): Document
  {
    var block := Block(name, Single(mode), true, Some([BindLine(key, actions)]));
    Document([Node("keybinds", leading, false, Some([block]), content)], trailing)
  }

  /** What it retires declares that bind and nothing else. */
  lemma FrozenBindRetires(doc: Document, leading: string, content: string, trailing: string, name: string, mode: Mode,
                          key: Key, actions: seq<Action>)
    requires doc == FrozenBind(leading, content, trailing, name, mode, key, actions)
    ensures |RetiredFrom(doc)| == 1
    ensures forall m, k :: Lookup(RetiredFrom(doc)[0], m, k) == if m == mode && k == key then Some(actions) else None
  {
    var leaf := BindLine(key, actions);
    var block := doc.nodes[0].children.value[0];
    assert block.Leaves() == [leaf];
    assert doc.nodes[0].children.value[..0] == [];
    assert Retirements([]) == [];
    assert RetiredFrom(doc) == [] + [Alone(block, [leaf])];
    forall m, k ensures Lookup(Alone(block, [leaf]), m, k) == if m == mode && k == key then Some(actions) else None {
      AloneBinds(block, leaf, m, k);
    }
  }

  /**
   An action without a rendering is lost without a word: the contract binds a key alike in two modes,
   and a frozen block binds it, to such an action, in the later mode only. The two slots look alike, the
   earlier one has no bind to show, and so the group counts as missing rather than lost. The bind that
   was in force is replaced by the contract's, and nothing is listed.
   */
  lemma UnrenderableBindIsLostSilently(toKdl: Rendering, contract: Keybinds, doc: Document, guard: string,
                                       leading: string, content: string, trailing: string, name: string,
                                       earlier: Mode, mode: Mode, key: Key, shipped: seq<Action>, dead: Action,
                                       lost: seq<BindGroup>)
    requires earlier < mode && toKdl(dead).None? && shipped != [dead]
    requires Lookup(contract, earlier, key) == Some(shipped) && Lookup(contract, mode, key) == Some(shipped)
    requires forall m :: m < earlier ==> Lookup(contract, m, key).None?
    requires doc == FrozenBind(leading, content, trailing, name, mode, key, [dead])
    requires LostBy(toKdl, contract, RetiredFrom(doc), lost)
    ensures DocumentMeaning(contract, doc, mode, key) == Some([dead])
    ensures DocumentMeaning(contract, Repaired(contract, doc, guard), mode, key) == Some(shipped)
    ensures lost == []
  {
    FrozenBindRetires(doc, leading, content, trailing, name, mode, key, [dead]);
    var declared := RetiredFrom(doc)[0];
    var init, last, before, diff := LastPiece(toKdl, contract, RetiredFrom(doc), lost);
    assert init == [] && last == declared;
    SingletonSignature(toKdl, dead);
    DeadBindIsUnlisted(toKdl, contract, declared, diff, earlier, mode, key, shipped, dead);
    OneSlotOnly(toKdl, contract, declared, diff, mode, key);
    assert lost == [] + [];
    FrozenBindMeans(contract, doc, guard, leading, content, trailing, name, mode, key, [dead]);
  }

  lemma DeadBindIsUnlisted(toKdl: Rendering, contract: Keybinds, declared: Keybinds, diff: Diff,
                           earlier: Mode, mode: Mode, key: Key, shipped: seq<Action>, dead: Action)
    requires earlier < mode && Signature(toKdl, [dead]) == "" && shipped != [dead]
    requires Lookup(contract, earlier, key) == Some(shipped) && Lookup(contract, mode, key) == Some(shipped)
    requires forall m :: m < earlier ==> Lookup(contract, m, key).None?
    requires forall m :: Lookup(declared, m, key) == if m == mode then Some([dead]) else None
    requires IsDiff(toKdl, contract, declared, diff)
    ensures Disagree(contract, declared, mode, key) && !Mentions(diff.LostOnRetirement(), mode, key)
  {
    assert Signature(toKdl, []) == "";
    assert Alike(toKdl, contract, declared, earlier, mode, key);
    var first := ListedExactlyWhen(toKdl, contract, declared, diff, mode, key);
    assert Disagree(contract, declared, first, key);
  }

  /** A piece that declares one slot can list no other. */
  lemma OneSlotOnly(toKdl: Rendering, contract: Keybinds, declared: Keybinds, diff: Diff, mode: Mode, key: Key)
    requires IsDiff(toKdl, contract, declared, diff) && !Mentions(diff.LostOnRetirement(), mode, key)
    requires forall m, k :: Lookup(declared, m, k).Some? ==> m == mode && k == key
    ensures diff.LostOnRetirement() == []
  {
    assert diff.LostOnRetirement() != [] ==> diff.LostOnRetirement()[0] in diff.LostOnRetirement();
    if diff.LostOnRetirement() != [] {
      var m := ListedIsDeclared(toKdl, contract, declared, diff, diff.LostOnRetirement()[0]);
    }
  }

  lemma ListedIsDeclared(toKdl: Rendering, contract: Keybinds, declared: Keybinds, diff: Diff, g: BindGroup)
    returns (mode: Mode)
    requires IsDiff(toKdl, contract, declared, diff) && g in diff.LostOnRetirement()
    ensures mode in g.modes && Lookup(declared, mode, g.key).Some?
  {
    var gs: seq<BindGroup> :| Grouped(toKdl, contract, declared, gs, Everywhere(contract, declared))
                              && diff == Classified(gs);
    ClassifiedMembers(gs, g);
    assert g in gs && Sound(toKdl, contract, declared, g);
    mode := g.modes[0];
    assert g.(modes := [mode]) == KeybindDiff.Single(contract, declared, mode, g.key);
    assert g in Keep(IsDivergent, gs) || g in Keep(IsExtra, gs);
  }

  /** The frozen bind is in force, and after the repair the contract's is. */
  lemma FrozenBindMeans(contract: Keybinds, doc: Document, guard: string, leading: string, content: string, trailing: string,
                        name: string, mode: Mode, key: Key, actions: seq<Action>)
    requires doc == FrozenBind(leading, content, trailing, name, mode, key, actions)
    ensures DocumentMeaning(contract, doc, mode, key) == Some(actions)
    ensures DocumentMeaning(contract, Repaired(contract, doc, guard), mode, key) == Lookup(contract, mode, key)
  {
    var block := doc.nodes[0].children.value[0];
    var leaf := BindLine(key, actions);
    assert block.Leaves() == [leaf] && [leaf][..0] == [];
    assert [block][..0] == [];
    assert !Unbinds([leaf], key);
    assert AfterBlock(block, mode, key, None) == Some(actions);
    NothingUnbound([block]);
    assert Kept(contract, [block][..0]) == [];
    assert Kept(contract, [block]) == [];
    assert Repaired(contract, doc, guard).nodes == [];
  }

  /** The parser rejects every piece the plan retires. */
  ghost predicate RetiresRejectedPieces(doc: Document) {
    var i := First(doc.nodes);
    i < |doc.nodes| && doc.nodes[i].children.Some? ==>
      var blocks := doc.nodes[i].children.value;
      if doc.nodes[i].cleared then !BlocksParse(blocks)
      else forall b :: b in blocks && b.cleared ==> !BlocksParse([b.(cleared := false, children := Some(b.Leaves()))])
  }

  lemma {:induction false} RejectedBlocksDeclareNothing(blocks: seq<Block>)
    requires forall b :: b in blocks && b.cleared ==> !BlocksParse([b.(cleared := false, children := Some(b.Leaves()))])
    ensures forall declared :: declared in Retirements(blocks) ==> declared == map[]
  {
    if blocks == [] {
    } else {
      RejectedBlocksDeclareNothing(blocks[..|blocks| - 1]);
      assert blocks[|blocks| - 1] in blocks;
    }
  }

  lemma EmptyPieceListsNothing(toKdl: Rendering, contract: Keybinds, diff: Diff)
    requires IsDiff(toKdl, contract, map[], diff)
    ensures diff.LostOnRetirement() == []
  {
    if diff.LostOnRetirement() != [] {
      var mode := ListedIsDeclared(toKdl, contract, map[], diff, diff.LostOnRetirement()[0]);
    }
  }

  lemma {:induction false} NothingDeclaredNothingListed(toKdl: Rendering, contract: Keybinds, retired: seq<Keybinds>,
                                                        lost: seq<BindGroup>)
    requires LostBy(toKdl, contract, retired, lost) && forall declared :: declared in retired ==> declared == map[]
    ensures lost == []
  {
    if retired == [] {
    } else {
      var init, last, before, diff := LastPiece(toKdl, contract, retired, lost);
      assert last in retired && forall declared :: declared in init ==> declared in retired;
      NothingDeclaredNothingListed(toKdl, contract, init, before);
      EmptyPieceListsNothing(toKdl, contract, diff);
    }
  }

  /** A piece the parser rejects as a whole declares nothing, and so none of its binds is listed. */
  lemma RejectedPiecesListNothing(toKdl: Rendering, contract: Keybinds, doc: Document, lost: seq<BindGroup>)
    requires LostBy(toKdl, contract, RetiredFrom(doc), lost) && RetiresRejectedPieces(doc)
    ensures lost == []
  {
    var i := First(doc.nodes);
    if i < |doc.nodes| && !doc.nodes[i].cleared && doc.nodes[i].children.Some? {
      RejectedBlocksDeclareNothing(doc.nodes[i].children.value);
    }
    NothingDeclaredNothingListed(toKdl, contract, RetiredFrom(doc), lost);
  }
}
