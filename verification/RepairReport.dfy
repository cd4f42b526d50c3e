/**
 What else `repair key-bindings` promises about its plan: nothing but one node of the document is touched,
 the guard comment stands in the place of a retired node, and the steps account for every block and bind.
 */
module RepairReport {
  import opened Results
  import opened KeybindDiff
  import opened KeybindConfig
  import opened KeybindRepair

  /**
   Only the first `keybinds` node is touched. If it goes, the guard stands before the text that led the
   next node, or after all other trailing text; if it stays, only its blocks can differ.
   */
  lemma RepairTouchesOneNode(contract: Keybinds, doc: Document, guard: string)
    ensures var i, after := First(doc.nodes), Repaired(contract, doc, guard);
            if i == |doc.nodes| then after == doc
            else if |after.nodes| == |doc.nodes| then
              && after.trailing == doc.trailing
              && (forall n :: 0 <= n < |doc.nodes| && n != i ==> after.nodes[n] == doc.nodes[n])
              && after.nodes[i].(children := None) == doc.nodes[i].(children := None)
            else
              && |after.nodes| == |doc.nodes| - 1
              && (forall n :: 0 <= n < i ==> after.nodes[n] == doc.nodes[n])
              && (forall n :: i < n < |after.nodes| ==> after.nodes[n] == doc.nodes[n + 1])
              && (if i < |after.nodes| then
                    && after.trailing == doc.trailing
                    && after.nodes[i] == doc.nodes[i + 1].(leading := "\n" + guard + doc.nodes[i + 1].leading)
                  else after.trailing == doc.trailing + "\n" + guard)
  {}

  /** The blocks that the steps name as removed, those they name as thinned, and how many binds they count. */
  datatype Account = Account(removed: seq<string>, thinned: seq<string>, dropped: nat)

  function AccountOf(steps: seq<Step>): Account {
    if steps == [] then Account([], [], 0)
    else
      var before := AccountOf(steps[..|steps| - 1]);
      match steps[|steps| - 1]
      case RemovedBlock(name) => before.(removed := before.removed + [name])
      case DroppedBinds(count, name) => before.(thinned := before.thinned + [name], dropped := before.dropped + count)
      case _ => before
  }

  function NamesOf(blocks: seq<Block>): seq<string> {
    seq(|blocks|, i requires 0 <= i < |blocks| => blocks[i].name)
  }

  /** How many binds there are in the blocks. */
  function LeafCount(blocks: seq<Block>): nat {
    if blocks == [] then 0 else LeafCount(blocks[..|blocks| - 1]) + |blocks[|blocks| - 1].Leaves()|
  }

  predicate HasNoise(contract: Keybinds, block: Block) {
    exists leaf :: leaf in block.Leaves() && IsNoise(contract, block, leaf)
  }

  predicate IsFrozen(b: Block) {
    b.cleared
  }

  function LosesBinds(contract: Keybinds): Block -> bool {
    (b: Block) => !b.cleared && HasNoise(contract, b)
  }

  lemma AccountOneMore(steps: seq<Step>, x: Step)
    ensures AccountOf(steps + [x]) ==
              match x
              case RemovedBlock(name) => AccountOf(steps).(removed := AccountOf(steps).removed + [name])
              case DroppedBinds(count, name) =>
                AccountOf(steps).(thinned := AccountOf(steps).thinned + [name], dropped := AccountOf(steps).dropped + count)
              case _ => AccountOf(steps)
  {
    assert (steps + [x])[..|steps|] == steps;
  }

  lemma OneMoreName(p: Block -> bool, blocks: seq<Block>, x: Block)
    ensures NamesOf(Keep(p, blocks + [x])) == if p(x) then NamesOf(Keep(p, blocks)) + [x.name] else NamesOf(Keep(p, blocks))
  {
    KeepLast(p, blocks, x);
    NamesOneMore(Keep(p, blocks), x);
  }

  lemma NamesOneMore(blocks: seq<Block>, x: Block)
    ensures NamesOf(blocks + [x]) == NamesOf(blocks) + [x.name]
  {}

  lemma OneMoreCount(p: Block -> bool, blocks: seq<Block>, x: Block)
    ensures LeafCount(Keep(p, blocks + [x])) == LeafCount(Keep(p, blocks)) + if p(x) then |x.Leaves()| else 0
  {
    KeepLast(p, blocks, x);
    LeafCountOneMore(Keep(p, blocks), x);
  }

  lemma LeafCountOneMore(blocks: seq<Block>, x: Block)
    ensures LeafCount(blocks + [x]) == LeafCount(blocks) + |x.Leaves()|
  {
    assert (blocks + [x])[..|blocks|] == blocks;
  }

  lemma IntentOneMore(contract: Keybinds, block: Block, leaves: seq<Leaf>, x: Leaf)
    ensures |Intent(contract, block, leaves + [x])| ==
              |Intent(contract, block, leaves)| + if IsNoise(contract, block, x) then 0 else 1
  {
    KeepLast((l: Leaf) => !IsNoise(contract, block, l), leaves, x);
  }

  lemma NoiseAppended(contract: Keybinds, block: Block, leaves: seq<Leaf>, x: Leaf)
    ensures |NoiseIndices(contract, block, leaves + [x])| ==
              |NoiseIndices(contract, block, leaves)| + if IsNoise(contract, block, x) then 1 else 0
  {
    assert (leaves + [x])[..|leaves|] == leaves;
  }

  /** Every bind of a block is noise or intent. */
  lemma {:induction false} NoiseAndIntent(contract: Keybinds, block: Block, leaves: seq<Leaf>)
    ensures |NoiseIndices(contract, block, leaves)| + |Intent(contract, block, leaves)| == |leaves|
  {
    if leaves == [] {
    } else {
      var init, last := leaves[..|leaves| - 1], leaves[|leaves| - 1];
      assert leaves == init + [last];
      NoiseAndIntent(contract, block, init);
      IntentOneMore(contract, block, init, last);
      NoiseAppended(contract, block, init, last);
    }
  }

  lemma NoiseIsListed(contract: Keybinds, block: Block)
    ensures NoiseIndices(contract, block, block.Leaves()) != [] <==> HasNoise(contract, block)
  {
    var noise, leaves := NoiseIndices(contract, block, block.Leaves()), block.Leaves();
    if noise != [] {
      assert noise[0] in noise && leaves[noise[0]] in leaves;
    }
    if leaf :| leaf in leaves && IsNoise(contract, block, leaf) {
      var i :| 0 <= i < |leaves| && leaves[i] == leaf;
      assert i in noise;
    }
  }

  /**
   The steps name every frozen block and every block that loses noise, in the order of the file, and the
   binds they count are exactly those that are missing afterwards from the blocks that were not frozen.
   */
  lemma {:induction false} StepsAccountForEverything(contract: Keybinds, blocks: seq<Block>)
    ensures var account := AccountOf(StepsFor(contract, blocks));
            && account.removed == NamesOf(Keep(IsFrozen, blocks))
            && account.thinned == NamesOf(Keep(LosesBinds(contract), blocks))
            && LeafCount(Kept(contract, blocks)) + account.dropped == LeafCount(Keep(Thawed, blocks))
  {
    if blocks == [] {
    } else {
      var n := |blocks| - 1;
      var init, b := blocks[..n], blocks[n];
      assert blocks == init + [b];
      StepsAccountForEverything(contract, init);
      OneMoreName(IsFrozen, init, b);
      OneMoreName(LosesBinds(contract), init, b);
      OneMoreCount(Thawed, init, b);
      OneMoreAccount(contract, init, b);
      OneMoreKept(contract, init, b);
    }
  }

  lemma OneMoreKept(contract: Keybinds, init: seq<Block>, b: Block)
    ensures LeafCount(Kept(contract, init + [b])) ==
              LeafCount(Kept(contract, init)) + if b.cleared then 0 else |Thin(contract, b).Leaves()|
  {
    assert (init + [b])[..|init|] == init;
    LeafCountOneMore(Kept(contract, init), Thin(contract, b));
  }

  /** What one more block adds to the steps and to what is kept. */
  lemma OneMoreAccount(contract: Keybinds, init: seq<Block>, b: Block)
    ensures var before, after := AccountOf(StepsFor(contract, init)), AccountOf(StepsFor(contract, init + [b]));
            && after.removed == (if b.cleared then before.removed + [b.name] else before.removed)
            && after.thinned == (if !b.cleared && HasNoise(contract, b) then before.thinned + [b.name] else before.thinned)
            && (b.cleared ==> after.dropped == before.dropped)
            && (!b.cleared ==> after.dropped + |Thin(contract, b).Leaves()| == before.dropped + |b.Leaves()|)
  {
    var steps := StepsFor(contract, init);
    assert (init + [b])[..|init|] == init;
    assert steps + [] == steps;
    NoiseIsListed(contract, b);
    NoiseAndIntent(contract, b, b.Leaves());
    var noise := NoiseIndices(contract, b, b.Leaves());
    AccountOneMore(steps, RemovedBlock(b.name));
    AccountOneMore(steps, DroppedBinds(|noise|, b.name));
  }

  /** A step says that the node went, and why, exactly when it did. */
  lemma NodeStepsExactlyWhen(contract: Keybinds, doc: Document, guard: string)
    ensures var i := First(doc.nodes);
            && (RemovedNode in Steps(contract, doc) <==> i < |doc.nodes| && doc.nodes[i].cleared)
            && (RemovedNode in Steps(contract, doc) || RemovedEmptyNode in Steps(contract, doc) <==>
                  |Repaired(contract, doc, guard).nodes| < |doc.nodes|)
  {
    var i := First(doc.nodes);
    if i < |doc.nodes| && doc.nodes[i].children.Some? {
      NoNodeSteps(contract, doc.nodes[i].children.value);
    }
  }

  lemma {:induction false} NoNodeSteps(contract: Keybinds, blocks: seq<Block>)
    ensures RemovedNode !in StepsFor(contract, blocks) && RemovedEmptyNode !in StepsFor(contract, blocks)
  {
    if blocks == [] {
    } else {
      NoNodeSteps(contract, blocks[..|blocks| - 1]);
    }
  }
}
