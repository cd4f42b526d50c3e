/**
 A user config as a tree, and what its `keybinds` node means to the parser (`Keybinds::from_kdl`): shared
 blocks first, then mode blocks, each with its binds before its unbinds, and the first global unbind last.
 */
module KeybindConfig {
  import opened Results
  import opened KeybindDiff

  datatype Verb = Bind | Unbind | Unknown

  /** A line of a block; keys and actions are absent when the parser cannot read them. */
  datatype Leaf = Leaf(verb: Verb, keys: Option<seq<Key>>, actions: Option<seq<Action>>) {
    predicate Names(key: Key) {
      keys.Some? && key in keys.value
    }

    predicate Sets(key: Key) {
      verb == Bind && Names(key) && actions.Some?
    }

    predicate Parses() {
      verb != Unknown && keys.Some? && (verb == Bind ==> actions.Some?)
    }
  }

  /** What the parser makes of a block's name and arguments. */
  datatype Scope =
    | Shared(among: set<Mode>)
    | Single(mode: Mode)
    | GlobalUnbind(keys: Option<seq<Key>>)
    | Invalid

  datatype Block = Block(name: string, scope: Scope, cleared: bool, children: Option<seq<Leaf>>) {
    function Modes(): set<Mode> {
      match scope
      case Shared(among) => among
      case Single(mode) => {mode}
      case _ => {}
    }

    function Leaves(): seq<Leaf> {
      if children.Some? then children.value else []
    }

    predicate Parses() {
      match scope
      case Invalid => false
      case GlobalUnbind(_) => true
      case _ => Modes() == {} || (children.Some? && forall l :: l in children.value ==> l.Parses())
    }
  }

  /** A top-level node; `content` is everything about it that is not its keybind blocks. */
  datatype Node = Node(name: string, leading: string, cleared: bool, children: Option<seq<Block>>, content: string)

  datatype Document = Document(nodes: seq<Node>, trailing: string)

  // ---- meaning ----

  /** The value of a key after the binds of a block, the last one winning. */
  function AfterBinds(leaves: seq<Leaf>, key: Key, value: Option<seq<Action>>): Option<seq<Action>> {
    if leaves == [] then value
    else
      var last := leaves[|leaves| - 1];
      if last.Sets(key) then last.actions else AfterBinds(leaves[..|leaves| - 1], key, value)
  }

  predicate Unbinds(leaves: seq<Leaf>, key: Key) {
    exists l :: l in leaves && l.verb == Unbind && l.Names(key)
  }

  function AfterBlock(b: Block, mode: Mode, key: Key, value: Option<seq<Action>>): Option<seq<Action>> {
    if mode !in b.Modes() then value
    else
      var base := if b.scope.Single? && b.cleared then None else value;
      if Unbinds(b.Leaves(), key) then None else AfterBinds(b.Leaves(), key, base)
  }

  function AfterPass(blocks: seq<Block>, shared: bool, mode: Mode, key: Key, value: Option<seq<Action>>)
    : Option<seq<Action>>
  {
    if blocks == [] then value
    else
      var last, before := blocks[|blocks| - 1], AfterPass(blocks[..|blocks| - 1], shared, mode, key, value);
      if last.scope.Shared? == shared then AfterBlock(last, mode, key, before) else before
  }

  /** The keys of the first global unbind. */
  function Unbound(blocks: seq<Block>): Option<seq<Key>> {
    if blocks == [] then Some([])
    else if blocks[0].scope.GlobalUnbind? then blocks[0].scope.keys
    else Unbound(blocks[1..])
  }

  /** The bind at a slot after every block, over `base`. */
  function Value(blocks: seq<Block>, mode: Mode, key: Key, base: Option<seq<Action>>): Option<seq<Action>> {
    var unbound := Unbound(blocks);
    if unbound.Some? && key in unbound.value then None
    else AfterPass(blocks, false, mode, key, AfterPass(blocks, true, mode, key, base))
  }

  predicate BlocksParse(blocks: seq<Block>) {
    Unbound(blocks).Some? && forall b :: b in blocks ==> b.Parses()
  }

  /** What the config binds at a slot on top of the shipped contract, as far as its first `keybinds` node goes. */
  function Meaning(contract: Keybinds, node: Node, mode: Mode, key: Key): Option<seq<Action>> {
    var base := if node.cleared then None else Lookup(contract, mode, key);
    if node.children.Some? then Value(node.children.value, mode, key, base) else base
  }

  // ---- what a node declares on its own ----

  function AllModes(blocks: seq<Block>): (r: set<Mode>)
    ensures forall b :: b in blocks ==> b.Modes() <= r
  {
    if blocks == [] then {} else blocks[0].Modes() + AllModes(blocks[1..])
  }

  function KeysOf(leaves: seq<Leaf>): (r: set<Key>)
    ensures forall l, k :: l in leaves && l.Names(k) ==> k in r
  {
    if leaves == [] then {}
    else
      (if leaves[0].keys.Some? then set k | k in leaves[0].keys.value else {}) + KeysOf(leaves[1..])
  }

  function AllKeys(blocks: seq<Block>): (r: set<Key>)
    ensures forall b :: b in blocks ==> KeysOf(b.Leaves()) <= r
  {
    if blocks == [] then {} else KeysOf(blocks[0].Leaves()) + AllKeys(blocks[1..])
  }

  /** `parse_declared`: the blocks over an empty base, without empty modes; nothing if they do not parse. */
  function Declared(blocks: seq<Block>): Keybinds {
    if !BlocksParse(blocks) then map[]
    else
      map m | m in AllModes(blocks) && exists k :: k in AllKeys(blocks) && Value(blocks, m, k, None).Some?
        :: map k | k in AllKeys(blocks) && Value(blocks, m, k, None).Some? :: Value(blocks, m, k, None).value
  }

  /** Line `i` is a readable `bind` of the key, and no later line is. */
  ghost predicate IsLastBind(leaves: seq<Leaf>, key: Key, i: int) {
    && 0 <= i < |leaves|
    && leaves[i].verb == Bind && leaves[i].actions.Some? && leaves[i].keys.Some? && key in leaves[i].keys.value
    && forall j :: i < j < |leaves| ==>
         !(leaves[j].verb == Bind && leaves[j].actions.Some? && leaves[j].keys.Some? && key in leaves[j].keys.value)
  }

  /** The last bind of a key decides, and without one the value stays. */
  lemma {:induction false} LastBindWins(leaves: seq<Leaf>, key: Key, value: Option<seq<Action>>)
    ensures forall i :: IsLastBind(leaves, key, i) ==> AfterBinds(leaves, key, value) == leaves[i].actions
    ensures (forall i :: !IsLastBind(leaves, key, i)) ==> AfterBinds(leaves, key, value) == value
  {
    if leaves == [] {
    } else {
      var n := |leaves| - 1;
      var last, init := leaves[n], leaves[..n];
      LastBindWins(init, key, value);
      if last.verb == Bind && last.actions.Some? && last.keys.Some? && key in last.keys.value {
        assert IsLastBind(leaves, key, n);
      } else {
        forall i ensures IsLastBind(leaves, key, i) <==> IsLastBind(init, key, i) {
          assert forall j :: 0 <= j < n ==> init[j] == leaves[j];
        }
      }
    }
  }

  /** A line is a `bind` with readable keys and actions, or an `unbind` with readable keys. */
  predicate IsReadable(leaf: Leaf) {
    leaf.keys.Some? && match leaf.verb case Bind => leaf.actions.Some? case Unbind => true case Unknown => false
  }

  /**
   The parser takes the blocks exactly if the first global unbind is readable, no block is unknown to it,
   and every block that concerns some mode has lines, all of them readable.
   */
  lemma ParsesExactlyWhen(blocks: seq<Block>)
    ensures BlocksParse(blocks) <==>
              && Unbound(blocks).Some?
              && forall b :: b in blocks ==>
                   && !b.scope.Invalid?
                   && (b.scope.Single? || (b.scope.Shared? && b.scope.among != {}) ==>
                         b.children.Some? && forall l :: l in b.children.value ==> IsReadable(l))
  {
    forall b | b in blocks
      ensures b.Parses() <==>
                && !b.scope.Invalid?
                && (b.scope.Single? || (b.scope.Shared? && b.scope.among != {}) ==>
                      b.children.Some? && forall l :: l in b.children.value ==> IsReadable(l))
    {
      if b.scope.Single? {
        assert b.scope.mode in b.Modes();
      }
      assert forall l: Leaf :: l.Parses() <==> IsReadable(l);
    }
  }

  lemma {:induction false} BoundByName(leaves: seq<Leaf>, key: Key)
    requires AfterBinds(leaves, key, None).Some?
    ensures key in KeysOf(leaves)
  {
    var last := leaves[|leaves| - 1];
    if !last.Sets(key) {
      BoundByName(leaves[..|leaves| - 1], key);
      KeysOfPrefix(leaves, key);
    } else {
      assert last in leaves;
    }
  }

  lemma {:induction false} KeysOfPrefix(leaves: seq<Leaf>, key: Key)
    requires leaves != [] && key in KeysOf(leaves[..|leaves| - 1])
    ensures key in KeysOf(leaves)
  {
    if |leaves| > 1 {
      assert leaves[..|leaves| - 1][1..] == leaves[1..][..|leaves| - 2];
      if key in KeysOf(leaves[..|leaves| - 1][1..]) {
        KeysOfPrefix(leaves[1..], key);
      }
    }
  }

  lemma {:induction false} PassBindsByName(blocks: seq<Block>, shared: bool, mode: Mode, key: Key, value: Option<seq<Action>>)
    requires AfterPass(blocks, shared, mode, key, value).Some?
    requires value.Some? ==> exists b :: b in blocks && mode in b.Modes() && key in KeysOf(b.Leaves())
    ensures exists b :: b in blocks && mode in b.Modes() && key in KeysOf(b.Leaves())
  {
    if value.None? {
      var last, init := blocks[|blocks| - 1], blocks[..|blocks| - 1];
      if AfterPass(init, shared, mode, key, value).Some? {
        PassBindsByName(init, shared, mode, key, value);
        var b :| b in init && mode in b.Modes() && key in KeysOf(b.Leaves());
        assert b in blocks;
      } else {
        BoundByName(last.Leaves(), key);
        assert last in blocks;
      }
    }
  }

  /** The declared map says at each slot what the parser would bind there over nothing. */
  lemma DeclaredIsTheValue(blocks: seq<Block>, mode: Mode, key: Key)
    requires BlocksParse(blocks)
    ensures Lookup(Declared(blocks), mode, key) == Value(blocks, mode, key, None)
  {
    if Value(blocks, mode, key, None).Some? {
      var shared := AfterPass(blocks, true, mode, key, None);
      if shared.Some? {
        PassBindsByName(blocks, true, mode, key, None);
      }
      PassBindsByName(blocks, false, mode, key, shared);
      var b :| b in blocks && mode in b.Modes() && key in KeysOf(b.Leaves());
      assert mode in AllModes(blocks) && key in AllKeys(blocks);
    }
  }
}
