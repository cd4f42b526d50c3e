/**
 `repair key-bindings` (`src/clinic.rs`): retire frozen blocks, drop binds that only restate the shipped
 contract, and leave a guard comment where the whole node went.
 */
module KeybindRepair {
  import opened Results
  import opened KeybindDiff
  import opened KeybindConfig

  datatype Step =
    | RemovedNode
    | RemovedBlock(name: string)
    | DroppedBinds(count: nat, name: string)
    | RemovedEmptyNode

  datatype Plan = Plan(steps: seq<Step>, lost: seq<BindGroup>, doc: Document)

  // ---- which binds are noise ----

  /** `declared_from_block`: one block over an empty base, whole or narrowed to one bind. */
  function Alone(block: Block, leaves: seq<Leaf>): Keybinds {
    Declared([block.(cleared := false, children := Some(leaves))])
  }

  /** A bind that says something, and only what the contract says already. */
  predicate IsNoise(contract: Keybinds, block: Block, leaf: Leaf) {
    && leaf.verb == Bind
    && var declared := Alone(block, [leaf]);
    && declared != map[]
    && forall m :: m in declared ==> forall k :: k in declared[m] ==> Lookup(contract, m, k) == Some(declared[m][k])
  }

  function NoiseIndices(contract: Keybinds, block: Block, leaves: seq<Leaf>): (r: seq<nat>)
    ensures forall i :: i in r <==> 0 <= i < |leaves| && IsNoise(contract, block, leaves[i])
    ensures Increasing(r)
  {
    if leaves == [] then []
    else
      var n := |leaves| - 1;
      var before := NoiseIndices(contract, block, leaves[..n]);
      assert forall j :: 0 <= j < |before| ==> before[j] in before;
      if IsNoise(contract, block, leaves[n]) then before + [n] else before
  }

  ghost predicate Increasing(indices: seq<nat>) {
    forall i, j :: 0 <= i < j < |indices| ==> indices[i] < indices[j]
  }

  /** The test of one bind, as the loop performs it. */
  method JudgeBind(contract: Keybinds, block: Block, leaf: Leaf) returns (noise: bool)
    ensures noise == IsNoise(contract, block, leaf)
  {
    if leaf.verb != Bind {
      return false;
    }
    var declared := Alone(block, [leaf]);
    if declared == map[] {
      return false;
    }
    noise := forall m :: m in declared ==> forall k :: k in declared[m] ==> Lookup(contract, m, k) == Some(declared[m][k]);
  }

  lemma NoiseOneMore(contract: Keybinds, block: Block, leaves: seq<Leaf>, i: nat)
    requires i < |leaves|
    ensures NoiseIndices(contract, block, leaves[..i + 1])
            == if IsNoise(contract, block, leaves[i]) then NoiseIndices(contract, block, leaves[..i]) + [i]
               else NoiseIndices(contract, block, leaves[..i])
  {
    assert leaves[..i + 1][..i] == leaves[..i];
  }

  /** `noise_bind_indices`. */
  method FindNoise(contract: Keybinds, block: Block) returns (noise: seq<nat>)
    ensures noise == NoiseIndices(contract, block, block.Leaves())
  {
    noise := [];
    var leaves := block.Leaves();
    for i := 0 to |leaves|
      invariant noise == NoiseIndices(contract, block, leaves[..i])
    {
      NoiseOneMore(contract, block, leaves, i);
      var judged := JudgeBind(contract, block, leaves[i]);
      if judged {
        noise := noise + [i];
      }
    }
    assert leaves[..|leaves|] == leaves;
  }

  lemma AfterOneBind(leaf: Leaf, key: Key)
    ensures AfterBinds([leaf], key, None) == if leaf.Sets(key) then leaf.actions else None
  {
    assert [leaf][..0] == [];
    assert AfterBinds([], key, None) == None;
  }

  /** What one bind of a block declares, slot by slot. */
  lemma AloneBinds(block: Block, leaf: Leaf, mode: Mode, key: Key)
    requires leaf.verb == Bind
    ensures Lookup(Alone(block, [leaf]), mode, key)
            == if mode in block.Modes() && leaf.Parses() && leaf.Sets(key) then leaf.actions else None
  {
    var b := block.(cleared := false, children := Some([leaf]));
    assert b.Modes() == block.Modes() && b.Leaves() == [leaf];
    OneBlock(b, mode, key);
    if BlocksParse([b]) {
      DeclaredIsTheValue([b], mode, key);
      assert !Unbinds([leaf], key);
      AfterOneBind(leaf, key);
      assert b in [b] && leaf in [leaf];
    }
  }

  lemma OneBlock(b: Block, mode: Mode, key: Key)
    ensures Unbound([b]) == if b.scope.GlobalUnbind? then b.scope.keys else Some([])
    ensures BlocksParse([b]) <==> b.Parses() && (b.scope.GlobalUnbind? ==> b.scope.keys.Some?)
    ensures Value([b], mode, key, None) == AfterBlock(b, mode, key, None)
  {
    assert [b][..0] == [] && [b][1..] == [];
    assert Unbound([]) == Some([]);
    assert AfterPass([b][..0], true, mode, key, None) == None;
    assert AfterPass([b], true, mode, key, None) == if b.scope.Shared? then AfterBlock(b, mode, key, None) else None;
    var shared := AfterPass([b], true, mode, key, None);
    assert AfterPass([b][..0], false, mode, key, shared) == shared;
  }

  // ---- removal by index, from the last to the first ----

  /** What is left from index `from` on when the indices in `drop` go. */
  function Without<T>(s: seq<T>, drop: set<nat>, from: nat): seq<T>
    requires from <= |s|
    decreases |s| - from
  {
    if from == |s| then []
    else if from in drop then Without(s, drop, from + 1)
    else [s[from]] + Without(s, drop, from + 1)
  }

  lemma {:induction false} NothingDropped<T>(s: seq<T>, drop: set<nat>, from: nat, to: nat)
    requires from <= to <= |s| && forall i :: from <= i < to ==> i !in drop
    ensures Without(s, drop, from) == s[from..to] + Without(s, drop, to)
    decreases |s| - from
  {
    if from < to {
      NothingDropped(s, drop, from + 1, to);
      PutFirst(s[from], s[from + 1..to], Without(s, drop, to));
      assert s[from..to] == [s[from]] + s[from + 1..to];
    }
  }

  lemma PutFirst<T>(x: T, a: seq<T>, b: seq<T>)
    ensures [x] + (a + b) == ([x] + a) + b
  {}

  /** Taking out the last dropped element before `p` moves `p` down to it. */
  lemma OneRemoved<T>(s: seq<T>, drop: set<nat>, i: nat, p: nat)
    requires i < p <= |s| && i in drop && forall n :: i < n < p ==> n !in drop
    ensures var r := s[..p] + Without(s, drop, p);
            r[..i] + r[i + 1..] == s[..i] + Without(s, drop, i)
  {
    var rest := Without(s, drop, p);
    NothingDropped(s, drop, i + 1, p);
    var r := s[..p] + rest;
    assert r[..i] == s[..i];
    assert r[i + 1..] == s[i + 1..p] + rest;
  }

  method RemoveIndices<T>(s: seq<T>, indices: seq<nat>) returns (r: seq<T>)
    requires Increasing(indices) && forall i :: i in indices ==> i < |s|
    ensures r == Without(s, set i | i in indices, 0)
  {
    r := s;
    ghost var drop := set i | i in indices;
    ghost var p := |s|;
    for j := |indices| downto 0
      invariant p <= |s| && (if j < |indices| then p == indices[j] else p == |s|)
      invariant r == s[..p] + Without(s, drop, p)
    {
      var i := indices[j];
      assert i in indices;
      forall n | n in indices ensures n <= i || n >= p {
        var at :| 0 <= at < |indices| && indices[at] == n;
      }
      OneRemoved(s, drop, i, p);
      r := r[..i] + r[i + 1..];
      p := i;
    }
    forall n | n in indices ensures n >= p {
      var at :| 0 <= at < |indices| && indices[at] == n;
    }
    NothingDropped(s, drop, 0, p);
  }

  lemma {:induction false} WithoutKeeps<T>(s: seq<T>, drop: set<nat>, p: T -> bool, from: nat)
    requires from <= |s| && forall i :: 0 <= i < |s| ==> (i in drop <==> !p(s[i]))
    ensures Without(s, drop, from) == Keep(p, s[from..])
    decreases |s| - from
  {
    if from < |s| {
      WithoutKeeps(s, drop, p, from + 1);
      assert s[from..][1..] == s[from + 1..];
    }
  }

  // ---- the repair as a function ----

  /** The lines of a block that are not noise. */
  function Intent(contract: Keybinds, block: Block, leaves: seq<Leaf>): seq<Leaf> {
    Keep((l: Leaf) => !IsNoise(contract, block, l), leaves)
  }

  function Thin(contract: Keybinds, block: Block): Block {
    if block.children.Some? then block.(children := Some(Intent(contract, block, block.children.value))) else block
  }

  /** The blocks that survive: not frozen, without their noise, and still saying something. */
  function Kept(contract: Keybinds, blocks: seq<Block>): seq<Block> {
    if blocks == [] then []
    else
      var n := |blocks| - 1;
      var before := Kept(contract, blocks[..n]);
      if blocks[n].cleared || Thin(contract, blocks[n]).Leaves() == [] then before
      else before + [Thin(contract, blocks[n])]
  }

  function StepFor(contract: Keybinds, block: Block): seq<Step> {
    var noise := NoiseIndices(contract, block, block.Leaves());
    if block.cleared then [RemovedBlock(block.name)]
    else if noise != [] then [DroppedBinds(|noise|, block.name)]
    else []
  }

  function StepsFor(contract: Keybinds, blocks: seq<Block>): seq<Step> {
    if blocks == [] then []
    else
      var n := |blocks| - 1;
      StepsFor(contract, blocks[..n]) + StepFor(contract, blocks[n])
  }

  /** The index of the first `keybinds` node, or the number of nodes. */
  function First(nodes: seq<Node>): (i: nat)
    ensures i <= |nodes|
    ensures i < |nodes| ==> nodes[i].name == "keybinds"
    ensures forall j :: 0 <= j < i ==> nodes[j].name != "keybinds"
  {
    if nodes == [] || nodes[0].name == "keybinds" then 0 else 1 + First(nodes[1..])
  }

  /** `retire_node`: the next node inherits the guard, or the end of the file does. */
  function Retire(doc: Document, index: nat, guard: string): Document
    requires index < |doc.nodes|
  {
    var nodes := doc.nodes[..index] + doc.nodes[index + 1..];
    if index < |nodes| then
      doc.(nodes := nodes[index := nodes[index].(leading := "\n" + guard + nodes[index].leading)])
    else
      Document(nodes, doc.trailing + "\n" + guard)
  }

  /** The whole node goes: it is frozen itself, or nothing of it survives. */
  predicate Vanishes(contract: Keybinds, node: Node) {
    node.cleared || (node.children.Some? && Kept(contract, node.children.value) == [])
  }

  function Repaired(contract: Keybinds, doc: Document, guard: string): Document {
    var i := First(doc.nodes);
    if i == |doc.nodes| then doc
    else if Vanishes(contract, doc.nodes[i]) then Retire(doc, i, guard)
    else if doc.nodes[i].children.None? then doc
    else
      doc.(nodes := doc.nodes[i := doc.nodes[i].(children := Some(Kept(contract, doc.nodes[i].children.value)))])
  }

  function Steps(contract: Keybinds, doc: Document): seq<Step> {
    var i := First(doc.nodes);
    if i == |doc.nodes| then []
    else if doc.nodes[i].cleared then [RemovedNode]
    else if doc.nodes[i].children.None? then []
    else
      StepsFor(contract, doc.nodes[i].children.value)
      + (if Kept(contract, doc.nodes[i].children.value) == [] then [RemovedEmptyNode] else [])
  }

  /** What each retired piece declared, in the order of retirement. */
  function Retirements(blocks: seq<Block>): seq<Keybinds> {
    if blocks == [] then []
    else
      var n := |blocks| - 1;
      if blocks[n].cleared then Retirements(blocks[..n]) + [Alone(blocks[n], blocks[n].Leaves())]
      else Retirements(blocks[..n])
  }

  function RetiredFrom(doc: Document): seq<Keybinds> {
    var i := First(doc.nodes);
    if i == |doc.nodes| then []
    else
      var node := doc.nodes[i];
      if node.cleared then [if node.children.Some? then Declared(node.children.value) else map[]]
      else if node.children.Some? then Retirements(node.children.value)
      else []
  }

  /** `lost` lists, retirement by retirement, the divergent and extra groups of what was retired. */
  ghost predicate LostBy(toKdl: Rendering, contract: Keybinds, retired: seq<Keybinds>, lost: seq<BindGroup>) {
    if retired == [] then lost == []
    else
      var n := |retired| - 1;
      exists diff, before: seq<BindGroup> ::
        && IsDiff(toKdl, contract, retired[n], diff)
        && LostBy(toKdl, contract, retired[..n], before)
        && lost == before + diff.LostOnRetirement()
  }

  // ---- the repair as the program performs it ----

  lemma IntentByIndex(contract: Keybinds, block: Block, leaves: seq<Leaf>, drop: set<nat>)
    requires forall i :: i in drop <==> i in NoiseIndices(contract, block, leaves)
    ensures Without(leaves, drop, 0) == Intent(contract, block, leaves)
  {
    WithoutKeeps(leaves, drop, (l: Leaf) => !IsNoise(contract, block, l), 0);
    assert leaves[0..] == leaves;
  }

  lemma NoNoiseNoChange(contract: Keybinds, block: Block)
    requires NoiseIndices(contract, block, block.Leaves()) == []
    ensures Thin(contract, block) == block
  {
    if block.children.Some? {
      var leaves := block.children.value;
      IntentByIndex(contract, block, leaves, {});
      NothingDropped(leaves, {}, 0, |leaves|);
      assert leaves[0..|leaves|] + [] == leaves;
    }
  }

  /** One block that is not frozen: its noise goes, from the last index to the first. */
  method ThinBlock(contract: Keybinds, block: Block) returns (thinned: Block, steps: seq<Step>)
    requires !block.cleared
    ensures thinned == Thin(contract, block) && steps == StepFor(contract, block)
  {
    var noise := FindNoise(contract, block);
    if noise == [] {
      NoNoiseNoChange(contract, block);
      return block, [];
    }
    assert noise[0] in noise;
    var leaves := RemoveIndices(block.children.value, noise);
    IntentByIndex(contract, block, block.children.value, set i | i in noise);
    return block.(children := Some(leaves)), [DroppedBinds(|noise|, block.name)];
  }

  /** `now` is `blocks` with the first `n` thinned, frozen ones untouched. */
  ghost predicate Thinned(contract: Keybinds, blocks: seq<Block>, n: nat, now: seq<Block>) {
    && n <= |blocks| == |now|
    && forall j :: 0 <= j < |blocks| ==>
         now[j] == if j < n && !blocks[j].cleared then Thin(contract, blocks[j]) else blocks[j]
  }

  function Frozen(blocks: seq<Block>): (r: seq<nat>)
    ensures forall i :: i in r <==> 0 <= i < |blocks| && blocks[i].cleared
    ensures Increasing(r)
  {
    if blocks == [] then []
    else
      var n := |blocks| - 1;
      var before := Frozen(blocks[..n]);
      assert forall j :: 0 <= j < |before| ==> before[j] in before;
      if blocks[n].cleared then before + [n] else before
  }

  lemma OneMoreBlock(contract: Keybinds, blocks: seq<Block>, i: nat)
    requires i < |blocks|
    ensures StepsFor(contract, blocks[..i + 1]) == StepsFor(contract, blocks[..i]) + StepFor(contract, blocks[i])
    ensures Frozen(blocks[..i + 1]) == if blocks[i].cleared then Frozen(blocks[..i]) + [i] else Frozen(blocks[..i])
    ensures Retirements(blocks[..i + 1])
            == if blocks[i].cleared then Retirements(blocks[..i]) + [Alone(blocks[i], blocks[i].Leaves())]
               else Retirements(blocks[..i])
  {
    assert blocks[..i + 1][..i] == blocks[..i];
  }

  lemma OneMoreThinned(contract: Keybinds, blocks: seq<Block>, i: nat, now: seq<Block>, next: seq<Block>)
    requires i < |blocks| && Thinned(contract, blocks, i, now)
    requires next == if blocks[i].cleared then now else now[i := Thin(contract, blocks[i])]
    ensures Thinned(contract, blocks, i + 1, next)
  {}

  /** What retiring a piece costs: the user's side of the diff against the contract. */
  method Lose(contract: Keybinds, declared: Keybinds, toKdl: Rendering, lost: seq<BindGroup>, ghost retired: seq<Keybinds>)
    returns (r: seq<BindGroup>)
    requires LostBy(toKdl, contract, retired, lost)
    ensures LostBy(toKdl, contract, retired + [declared], r)
  {
    var diff := DiffKeybinds(contract, declared, toKdl);
    r := lost + diff.LostOnRetirement();
    LostOneMore(toKdl, contract, retired, declared, lost, diff);
  }

  lemma LostOneMore(toKdl: Rendering, contract: Keybinds, retired: seq<Keybinds>, declared: Keybinds,
                    lost: seq<BindGroup>, diff: Diff)
    requires LostBy(toKdl, contract, retired, lost) && IsDiff(toKdl, contract, declared, diff)
    ensures LostBy(toKdl, contract, retired + [declared], lost + diff.LostOnRetirement())
  {
    var all := retired + [declared];
    var n := |all| - 1;
    assert all[..n] == retired && all[n] == declared;
    assert IsDiff(toKdl, contract, all[n], diff) && LostBy(toKdl, contract, all[..n], lost);
  }

  /** The loop over the blocks of a node that is not frozen itself. */
  method WalkBlocks(contract: Keybinds, toKdl: Rendering, original: seq<Block>)
    returns (blocks: seq<Block>, retire: seq<nat>, steps: seq<Step>, lost: seq<BindGroup>)
    ensures Thinned(contract, original, |original|, blocks)
    ensures retire == Frozen(original) && steps == StepsFor(contract, original)
    ensures LostBy(toKdl, contract, Retirements(original), lost)
  {
    blocks, retire, steps, lost := original, [], [], [];
    for i := 0 to |original|
      invariant Thinned(contract, original, i, blocks)
      invariant retire == Frozen(original[..i]) && steps == StepsFor(contract, original[..i])
      invariant LostBy(toKdl, contract, Retirements(original[..i]), lost)
    {
      OneMoreBlock(contract, original, i);
      ghost var before := blocks;
      var block := blocks[i];
      if block.cleared {
        lost := Lose(contract, Alone(block, block.Leaves()), toKdl, lost, Retirements(original[..i]));
        steps := steps + [RemovedBlock(block.name)];
        retire := retire + [i];
      } else {
        var thinned, step := ThinBlock(contract, block);
        steps := steps + step;
        blocks := blocks[i := thinned];
      }
      OneMoreThinned(contract, original, i, before, blocks);
    }
    assert original[..|original|] == original;
  }

  predicate Says(b: Block) {
    b.Leaves() != []
  }

  predicate Thawed(b: Block) {
    !b.cleared
  }

  lemma KeepLast<T>(p: T -> bool, s: seq<T>, x: T)
    ensures Keep(p, s + [x]) == if p(x) then Keep(p, s) + [x] else Keep(p, s)
  {
    KeepOneMore(p, s + [x], |s|);
    assert (s + [x])[..|s|] == s && (s + [x])[..|s| + 1] == s + [x];
  }

  /** Removing the frozen blocks by index and then the empty shells leaves exactly the kept blocks. */
  lemma {:induction false} RetainIsKept(contract: Keybinds, blocks: seq<Block>, now: seq<Block>, n: nat)
    requires n <= |blocks| && Thinned(contract, blocks, |blocks|, now)
    ensures Keep(Says, Keep(Thawed, now[..n])) == Kept(contract, blocks[..n])
  {
    if n == 0 {
      assert now[..0] == [] && blocks[..0] == [];
    } else {
      var m := n - 1;
      RetainIsKept(contract, blocks, now, m);
      assert now[m] == if blocks[m].cleared then blocks[m] else Thin(contract, blocks[m]);
      RetainNext(contract, blocks, now, m);
    }
  }

  lemma RetainNext(contract: Keybinds, blocks: seq<Block>, now: seq<Block>, m: nat)
    requires m < |blocks| == |now|
    requires now[m] == if blocks[m].cleared then blocks[m] else Thin(contract, blocks[m])
    requires Keep(Says, Keep(Thawed, now[..m])) == Kept(contract, blocks[..m])
    ensures Keep(Says, Keep(Thawed, now[..m + 1])) == Kept(contract, blocks[..m + 1])
  {
    OneLonger(now, m);
    KeptOneMore(contract, blocks, m);
    RetainOneMore(contract, blocks[m], now[..m], now[m]);
  }

  lemma OneLonger<T>(s: seq<T>, m: nat)
    requires m < |s|
    ensures s[..m + 1] == s[..m] + [s[m]]
  {}

  lemma RetainOneMore(contract: Keybinds, block: Block, before: seq<Block>, last: Block)
    requires last == if block.cleared then block else Thin(contract, block)
    ensures Keep(Says, Keep(Thawed, before + [last]))
            == if block.cleared || !Says(Thin(contract, block)) then Keep(Says, Keep(Thawed, before))
               else Keep(Says, Keep(Thawed, before)) + [Thin(contract, block)]
  {
    KeepLast(Thawed, before, last);
    KeepLast(Says, Keep(Thawed, before), last);
  }

  lemma KeptOneMore(contract: Keybinds, blocks: seq<Block>, n: nat)
    requires n < |blocks|
    ensures Kept(contract, blocks[..n + 1])
            == if blocks[n].cleared || !Says(Thin(contract, blocks[n])) then Kept(contract, blocks[..n])
               else Kept(contract, blocks[..n]) + [Thin(contract, blocks[n])]
  {
    assert blocks[..n + 1][..n] == blocks[..n];
  }

  /** The two removals after the loop. */
  method RetainBlocks(contract: Keybinds, original: seq<Block>, blocks: seq<Block>, retire: seq<nat>) returns (kept: seq<Block>)
    requires Thinned(contract, original, |original|, blocks) && retire == Frozen(original)
    ensures kept == Kept(contract, original)
  {
    kept := RemoveIndices(blocks, retire);
    WithoutKeeps(blocks, (set i | i in retire), Thawed, 0);
    assert blocks[0..] == blocks;
    kept := Keep(Says, kept);
    RetainIsKept(contract, original, blocks, |original|);
    assert blocks[..|original|] == blocks && original[..|original|] == original;
  }

  /** `plan_key_bindings_repair`. */
  method PlanRepair(contract: Keybinds, toKdl: Rendering, doc: Document, guard: string) returns (plan: Plan)
    ensures plan.doc == Repaired(contract, doc, guard)
    ensures plan.steps == Steps(contract, doc)
    ensures LostBy(toKdl, contract, RetiredFrom(doc), plan.lost)
  {
    plan := Plan([], [], doc);
    var index := First(doc.nodes);
    if index == |doc.nodes| {
      return;
    }
    var node := doc.nodes[index];
    if node.cleared {
      var declared := if node.children.Some? then Declared(node.children.value) else map[];
      var lost := Lose(contract, declared, toKdl, [], []);
      assert [] + [declared] == [declared];
      return Plan([RemovedNode], lost, Retire(doc, index, guard));
    }
    if node.children.Some? {
      plan := RepairBlocks(contract, toKdl, doc, guard, index, node);
    }
  }

  /** The blocks of a node that is not frozen itself. */
  method RepairBlocks(contract: Keybinds, toKdl: Rendering, doc: Document, guard: string, index: nat, node: Node)
    returns (plan: Plan)
    requires index == First(doc.nodes) && index < |doc.nodes| && node == doc.nodes[index]
    requires !node.cleared && node.children.Some?
    ensures plan.doc == Repaired(contract, doc, guard)
    ensures plan.steps == Steps(contract, doc)
    ensures LostBy(toKdl, contract, RetiredFrom(doc), plan.lost)
  {
    var blocks, retire, steps, lost := WalkBlocks(contract, toKdl, node.children.value);
    var kept := RetainBlocks(contract, node.children.value, blocks, retire);
    if kept == [] {
      return Plan(steps + [RemovedEmptyNode], lost, Retire(doc, index, guard));
    }
    assert steps + [] == steps;
    return Plan(steps, lost, doc.(nodes := doc.nodes[index := node.(children := Some(kept))]));
  }
}
