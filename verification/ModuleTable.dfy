/**
 The table of module renames (`postprocess_prost_for_clippy` in `xtask/src/build.rs`): the renames run one
 after the other over the same text, and none undoes, repeats or feeds another.
 */
module ModuleTable {
  import opened Results
  import opened ModuleRename

  datatype Entry = Entry(name: string, file: string) {
    function Form(): Rename {
      RenameOf(name, file)
    }

    /** The opening that replaces this module's. */
    function NewOpening(): string {
      "pub mod " + name + "_api {"
    }
  }

  const MODULE_INCEPTION_RENAMES: seq<Entry> := [
    Entry("action", "api.action.rs"),
    Entry("event", "api.event.rs"),
    Entry("key", "api.key.rs"),
    Entry("plugin_command", "api.plugin_command.rs"),
    Entry("client_server_contract", "client_server_contract.rs"),
    Entry("web_server_contract", "web_server_contract.rs")
  ]

  /** One after the other. */
  function RenameAll(table: seq<Entry>, s: string): string {
    if table == [] then s else RenameAll(table[1..], Renamed(table[0].Form(), s))
  }

  /** The loop over the table. */
  method RenameTable(table: seq<Entry>, contents: string) returns (out: string)
    ensures out == RenameAll(table, contents)
  {
    out := contents;
    for i := 0 to |table|
      invariant RenameAll(table[i..], out) == RenameAll(table, contents)
    {
      assert table[i..][0] == table[i] && table[i..][1..] == table[i + 1..];
      out := RenameModuleForClippy(out, table[i].name, table[i].file);
    }
  }

  // ---- the names ----

  predicate IsName(e: Entry) {
    ArePlain(e.name, e.file) && forall c :: c in e.name ==> c != ' '
  }

  /** No module is called like another one renamed. */
  ghost predicate KeepApart(table: seq<Entry>) {
    && (forall e :: e in table ==> IsName(e))
    && (forall a, b :: a in table && b in table ==> a.name != b.name + "_api")
  }

  predicate EndsWith(s: string, pattern: string) {
    |pattern| <= |s| && s[|s| - |pattern|..] == pattern
  }

  lemma OpeningLetters(e: Entry)
    requires IsName(e)
    ensures var open, n := e.Form().open, |e.name|;
            && |open| == n + 10 && open[..8] == "pub mod " && open[8..8 + n] == e.name && open[8 + n..] == " {"
            && forall i :: 8 <= i < 8 + n ==> open[i] != ' '
  {
    var open, n := e.Form().open, |e.name|;
    assert open[8..8 + n] == e.name;
    forall i | 8 <= i < 8 + n ensures open[i] != ' ' {
      assert open[i] == e.name[i - 8] && e.name[i - 8] in e.name;
    }
  }

  lemma RenamedLetters(e: Entry)
    requires IsName(e)
    ensures var open, n := e.NewOpening(), |e.name|;
            && |open| == n + 14 && open[..8] == "pub mod " && open[8..12 + n] == e.name + "_api" && open[12 + n..] == " {"
            && (forall i :: 8 <= i < 12 + n ==> open[i] != ' ')
            && (forall i :: 0 <= i < |open| ==> open[i] != '}')
  {
    var open, n := e.NewOpening(), |e.name|;
    assert open[8..12 + n] == e.name + "_api" && open[12 + n..] == " {";
    assert open[8 + n..12 + n] == "_api";
    forall i | 8 <= i < 8 + n ensures open[i] != ' ' && open[i] != '}' {
      assert open[i] == e.name[i - 8] && e.name[i - 8] in e.name;
    }
  }

  /** Spaces where an opening has them: after `pub`, after `mod` and before the brace. */
  predicate SpacedAs(open: string) {
    |open| >= 10 && open[7] == ' ' && open[|open| - 2] == ' ' && forall i :: 8 <= i < |open| - 2 ==> open[i] != ' '
  }

  /** Of two such texts one ends with the other, whatever stands before it, only if they are the same. */
  lemma SpacesMeet(open: string, renamed: string, front: string)
    requires SpacedAs(open) && SpacedAs(renamed) && EndsWith(front + renamed, open)
    ensures open == renamed || exists i :: 0 <= i < 7 && open[i] != renamed[i]
  {
    var w := front + renamed;
    var d := |w| - |open|;
    assert forall i :: 0 <= i < |open| ==> open[i] == w[d..][i] == w[d + i];
    assert forall i :: 0 <= i < |renamed| ==> renamed[i] == w[|front| + i];
    assert w[d + 7] == ' ' && w[|front| + 7] == ' ';
    assert d == |front|;
  }

  /** The new opening of one module does not end like the opening of another, whatever stands before it. */
  lemma OpeningsApart(a: Entry, b: Entry, front: string)
    requires IsName(a) && IsName(b) && a.name != b.name + "_api"
    ensures !EndsWith(front + b.NewOpening(), a.Form().open)
  {
    OpeningLetters(a);
    RenamedLetters(b);
    var open, renamed := a.Form().open, b.NewOpening();
    assert open[8..|open| - 2] == a.name && renamed[8..|renamed| - 2] == b.name + "_api";
    assert forall i :: 0 <= i < 8 ==> open[i] == open[..8][i] && renamed[i] == renamed[..8][i];
    if EndsWith(front + renamed, open) {
      SpacesMeet(open, renamed, front);
    }
  }

  // ---- one replaced block ----

  /** Everything but the text itself: what is known of a replacement and the block it replaces. */
  ghost predicate Replaces(open: string, front: string, block: string, text: string, renamed: string) {
    && OpeningShape(open)
    && block != "" && block[|block| - 1] == '}'
    && |renamed| >= 14 && |renamed| <= |text| && text[..|renamed|] == renamed
    && renamed[|renamed| - 1] == '{' && (forall i :: 0 <= i < |renamed| ==> renamed[i] != '}')
    && (forall i :: |renamed| <= i < |text| ==> text[i] != '{') && NoBrace(renamed[..|renamed| - 1])
    && text[|text| - 1] == ';'
    && !EndsWith(front + renamed, open)
  }

  /** An opening stands before the replacement or behind it. */
  lemma OpeningOutside(open: string, front: string, block: string, text: string, renamed: string, tail: string, i: int)
    requires Replaces(open, front, block, text, renamed) && Occurs(front + text + tail, open, i)
    ensures i + |open| <= |front| || i >= |front + text|
  {
    var w := front + text + tail;
    OccurrenceShape(w, open, i);
    var e, n := i + |open| - 1, |renamed| - 1;
    assert forall k :: 0 <= k < |text| ==> w[|front| + k] == text[k];
    assert forall k :: 0 <= k < n ==> text[k] == renamed[k] == renamed[..n][k];
    assert w[..|front| + n + 1] == front + renamed;
    assert w[..e + 1][i..] == w[i..i + |open|];
    assert EndsWith(w[..e + 1], open);
    assert |front| <= e < |front + text| ==> e == |front| + n;
  }

  /** Behind the replacement an opening stands where it stood behind the block, at the same indentation. */
  lemma OpeningBehind(open: string, head: string, head': string, tail: string, j: nat)
    requires Clean(open, head + tail) && head != "" && IsBrace(head[|head| - 1]) && Occurs(tail, open, j)
    ensures Occurs(head + tail, open, |head| + j)
    ensures LinePrefix((head' + tail)[..|head'| + j]) == LinePrefix((head + tail)[..|head| + j])
    ensures IsQuiet(LinePrefix((head + tail)[..|head| + j]))
  {
    TailLine(open, head, tail, j);
    OccursAfter(head, tail, open, |head| + j);
    assert (head' + tail)[..|head'| + j] == head' + tail[..j];
    LinePrefixOfTail(head', tail[..j]);
  }

  lemma OpeningInTail(open: string, head: string, head': string, tail: string, i: int) returns (was: nat)
    requires Clean(open, head + tail) && head != "" && IsBrace(head[|head| - 1])
    requires i >= |head'| && Occurs(head' + tail, open, i)
    ensures was - |head| == i - |head'| && Occurs(head + tail, open, was)
    ensures LinePrefix((head' + tail)[..i]) == LinePrefix((head + tail)[..was])
    ensures IsQuiet(LinePrefix((head' + tail)[..i]))
  {
    var j := i - |head'|;
    was := |head| + j;
    OccursAfter(head', tail, open, i);
    OpeningBehind(open, head, head', tail, j);
  }

  lemma OpeningInFront(open: string, front: string, a: string, b: string, i: nat)
    requires i + |open| <= |front| && Occurs(front + a, open, i) && Clean(open, front + b)
    ensures Occurs(front + b, open, i) && LinePrefix((front + a)[..i]) == LinePrefix((front + b)[..i])
    ensures IsQuiet(LinePrefix((front + a)[..i]))
  {
    assert (front + a)[..|front|] == front && (front + b)[..|front|] == front;
    OccursWithin(front + a, front + b, open, |front|, i);
    assert (front + a)[..i] == front[..i] == (front + b)[..i];
  }

  /** Where an opening of the new text stood in the old one. */
  lemma OpeningBefore(open: string, front: string, block: string, text: string, renamed: string, tail: string, i: int)
    returns (was: nat)
    requires Replaces(open, front, block, text, renamed) && Clean(open, front + block + tail)
    requires Occurs(front + text + tail, open, i)
    ensures i + |open| <= |front| ==> was == i
    ensures i + |open| > |front| ==> i >= |front + text| && was - |front + block| == i - |front + text|
    ensures Occurs(front + block + tail, open, was)
    ensures LinePrefix((front + text + tail)[..i]) == LinePrefix((front + block + tail)[..was])
    ensures IsQuiet(LinePrefix((front + text + tail)[..i]))
  {
    OpeningOutside(open, front, block, text, renamed, tail, i);
    if i + |open| <= |front| {
      was := i;
      Associates(front, text, tail);
      Associates(front, block, tail);
      OpeningInFront(open, front, text + tail, block + tail, i);
    } else {
      EndsLike(front, block);
      was := OpeningInTail(open, front + block, front + text, tail, i);
    }
  }

  lemma EditKeepsClean(open: string, front: string, block: string, text: string, renamed: string, tail: string)
    requires Replaces(open, front, block, text, renamed) && Clean(open, front + block + tail)
    ensures Clean(open, front + text + tail)
  {
    forall i: nat | Occurs(front + text + tail, open, i) ensures IsQuiet(LinePrefix((front + text + tail)[..i])) {
      var was := OpeningBefore(open, front, block, text, renamed, tail, i);
    }
  }

  /** A block's text that begins before the replacement ends before it. */
  lemma RestBefore(open: string, front: string, block: string, text: string, renamed: string, tail: string, i: nat,
                   rest: string)
    requires Replaces(open, front, block, text, renamed) && RestShape(rest)
    requires i + |open| <= |front| && i <= |front + text + tail| && StartsWith((front + text + tail)[i..], open + rest)
    ensures i + |open + rest| <= |front|
  {
    var w, n := front + text + tail, |renamed| - 1;
    var last := i + |open + rest| - 1;
    assert forall k :: 0 <= k < |open + rest| ==> w[i + k] == w[i..][..|open + rest|][k] == (open + rest)[k];
    assert forall k :: 0 <= k < |rest| ==> w[i + |open| + k] == rest[k];
    assert forall k :: 0 <= k < |renamed| ==> w[|front| + k] == text[k] == renamed[k];
    assert w[last] == '}' && w[|front| + n] == '{';
    assert forall k :: i + |open| <= k <= last ==> w[k] == rest[k - i - |open|];
  }

  lemma SameStart(front: string, a: string, b: string, i: nat, pattern: string)
    requires i + |pattern| <= |front|
    ensures StartsWith((front + a)[i..], pattern) <==> StartsWith((front + b)[i..], pattern)
  {
    assert (front + a)[i..][..|pattern|] == front[i..i + |pattern|];
    assert (front + b)[i..][..|pattern|] == front[i..i + |pattern|];
  }

  ghost predicate NoBlock(r: Rename, s: string) {
    forall at :: !FullBlockAt(r, s, at)
  }

  /** Replacing a block of one module completes no block of another. */
  lemma EditMakesNoBlock(r: Rename, front: string, block: string, text: string, renamed: string, tail: string)
    requires Shaped(r) && Replaces(r.open, front, block, text, renamed) && Clean(r.open, front + block + tail)
    requires NoBlock(r, front + block + tail)
    ensures NoBlock(r, front + text + tail)
  {
    forall i ensures !FullBlockAt(r, front + text + tail, i) {
      if FullBlockAt(r, front + text + tail, i) {
        var was := BlockBefore(r, front, block, text, renamed, tail, i);
      }
    }
  }

  lemma BlockBefore(r: Rename, front: string, block: string, text: string, renamed: string, tail: string, i: int)
    returns (was: nat)
    requires Shaped(r) && Replaces(r.open, front, block, text, renamed) && Clean(r.open, front + block + tail)
    requires FullBlockAt(r, front + text + tail, i)
    ensures FullBlockAt(r, front + block + tail, was)
  {
    was := OpeningBefore(r.open, front, block, text, renamed, tail, i);
    var indent := LinePrefix((front + text + tail)[..i]);
    if i + |r.open| <= |front| {
      RestBefore(r.open, front, block, text, renamed, tail, i, r.rest(indent));
      Associates(front, text, tail);
      Associates(front, block, tail);
      SameStart(front, text + tail, block + tail, i, r.Block(indent));
    } else {
      assert (front + text + tail)[i..] == tail[i - |front + text|..];
      assert (front + block + tail)[was..] == tail[i - |front + text|..];
    }
  }

  // ---- one rename after another ----

  lemma ReplacementStarts(e: Entry, indent: string)
    ensures StartsWith(e.Form().replacement(indent), e.NewOpening())
  {
    var tail := "\n" + indent + "pub use " + e.name + "_api as " + e.name + ";";
    assert e.Form().replacement(indent) == e.NewOpening() + (Inside(indent, e.file) + tail);
  }

  lemma ShapedReplaces(open: string, front: string, block: string, text: string, renamed: string)
    requires OpeningShape(open) && block != "" && block[|block| - 1] == '}' && !EndsWith(front + renamed, open)
    requires |renamed| >= 14 && ReplacementShape(text, |renamed| - 4) && StartsWith(text, renamed)
    requires renamed[|renamed| - 1] == '{' && forall i :: 0 <= i < |renamed| ==> renamed[i] != '}'
    ensures Replaces(open, front, block, text, renamed)
  {
    assert forall k :: 0 <= k < |renamed| - 1 ==> text[k] == renamed[k] == renamed[..|renamed| - 1][k];
  }

  lemma BlockEnds(e: Entry, indent: string)
    requires IsName(e) && IsQuiet(indent)
    ensures var block := e.Form().Block(indent); block != "" && block[|block| - 1] == '}'
  {
    PlainNamesAreShaped(e.name, e.file);
    EndsLike(e.Form().open, e.Form().rest(indent));
  }

  lemma ReplacementReplaces(a: Entry, b: Entry, front: string, indent: string)
    requires IsName(a) && IsName(b) && a.name != b.name + "_api" && IsQuiet(indent)
    ensures Replaces(a.Form().open, front, b.Form().Block(indent), b.Form().replacement(indent), b.NewOpening())
  {
    OpeningHasShape(a.name, a.file);
    ReplacementHasShape(b.name, b.file, indent);
    OpeningLetters(b);
    RenamedLetters(b);
    OpeningsApart(a, b, front);
    BlockEnds(b, indent);
    ReplacementStarts(b, indent);
    ShapedReplaces(a.Form().open, front, b.Form().Block(indent), b.Form().replacement(indent), b.NewOpening());
  }

  /** Renaming one module, in any context, keeps the text clean for another and completes no block of it. */
  lemma {:induction false} RenameKeeps(a: Entry, b: Entry, context: string, s: string)
    requires IsName(a) && IsName(b) && a.name != b.name + "_api"
    requires Clean(b.Form().open, s) && Clean(a.Form().open, context + s)
    ensures Clean(a.Form().open, context + Renamed(b.Form(), s))
    ensures NoBlock(a.Form(), context + s) ==> NoBlock(a.Form(), context + Renamed(b.Form(), s))
    decreases |s|
  {
    var q := b.Form();
    PlainNamesAreShaped(b.name, b.file);
    if Find(s, q.open).None? {
      RenamedNone(q, s);
    } else {
      var front, indent, matched, tail := RoundByPieces(q, s);
      TailOfClean(q, s, front, indent, matched, front + (if matched then q.Block(indent) else q.open), tail);
      InnerIsClean(q.open, tail);
      var middle := if matched then q.replacement(indent) else q.open;
      Regroup(context, front, if matched then q.Block(indent) else q.open, tail);
      Regroup(context, front, middle, Renamed(q, tail));
      if matched {
        EditKeeps(a, b, context + front, indent, tail);
      }
      RenameKeeps(a, b, context + front + middle, tail);
    }
  }

  lemma Regroup(a: string, b: string, c: string, d: string)
    ensures a + (b + c + d) == a + b + c + d
  {}

  lemma EditKeeps(a: Entry, b: Entry, front: string, indent: string, tail: string)
    requires IsName(a) && IsName(b) && a.name != b.name + "_api" && IsQuiet(indent)
    requires Clean(a.Form().open, front + b.Form().Block(indent) + tail)
    ensures Clean(a.Form().open, front + b.Form().replacement(indent) + tail)
    ensures NoBlock(a.Form(), front + b.Form().Block(indent) + tail) ==>
              NoBlock(a.Form(), front + b.Form().replacement(indent) + tail)
  {
    var block, text := b.Form().Block(indent), b.Form().replacement(indent);
    PlainNamesAreShaped(a.name, a.file);
    ReplacementReplaces(a, b, front, indent);
    EditKeepsClean(a.Form().open, front, block, text, b.NewOpening(), tail);
    if NoBlock(a.Form(), front + block + tail) {
      EditMakesNoBlock(a.Form(), front, block, text, b.NewOpening(), tail);
    }
  }

  // ---- what is left after a rename ----

  lemma {:induction false} RenamingKeepsLength(r: Rename, s: string)
    requires forall indent :: |r.replacement(indent)| > |r.Block(indent)|
    ensures |Renamed(r, s)| >= |s|
    decreases |s|
  {
    if Find(s, r.open).None? {
      RenamedNone(r, s);
    } else {
      var front, indent, matched, tail := RoundByPieces(r, s);
      RenamingKeepsLength(r, tail);
    }
  }

  /** A round that passes its opening leaves the blocks to the tail. */
  lemma PassedHasNoBlock(r: Rename, s: string, front: string, indent: string, head: string, tail: string)
    requires Shaped(r) && Clean(r.open, s) && Find(s, r.open) == Some(|front|) && |front| <= |s|
    requires front == s[..|front|] && indent == LinePrefix(front) && s == head + tail && head == front + r.open
    requires !StartsWith(s[|front|..], r.Block(indent))
    ensures Clean(r.open, tail) && (NoBlock(r, tail) ==> NoBlock(r, s))
  {
    FullByPieces(r, s, front, indent, false, head, tail, 0, BlockRewrite(r, ""));
    forall at ensures FullBlockAt(r, s, at) ==> FullBlockAt(r, tail, at - |head|) {
      var x := BlockRewrite(r, if 0 <= at <= |s| then LinePrefix(s[..at]) else "");
      FullByPieces(r, s, front, indent, false, head, tail, at, x);
    }
  }

  lemma SameRest(front: string, a: string, b: string)
    requires front + a == front + b
    ensures a == b
  {
    assert (front + a)[|front|..] == a && (front + b)[|front|..] == b;
  }

  /** A round that replaces its block changes the text. */
  lemma PassedIfFixed(front: string, x: string, y: string, tail: string, after: string)
    requires front + x + tail == front + y + after && |after| >= |tail|
    ensures |y| <= |x| && (x == y ==> after == tail)
  {
    if x == y {
      SameRest(front + x, tail, after);
    }
  }

  /** A text the rename leaves as it is has no block. */
  lemma {:induction false} FixedHasNoBlock(r: Rename, s: string)
    requires Shaped(r) && Clean(r.open, s) && Renamed(r, s) == s
    requires forall indent :: |r.replacement(indent)| > |r.Block(indent)|
    ensures NoBlock(r, s)
    decreases |s|
  {
    if Find(s, r.open).None? {
      NothingThere(r, s);
    } else {
      var front, indent, matched, tail := RoundByPieces(r, s);
      RenamingKeepsLength(r, tail);
      assert |r.replacement(indent)| > |r.Block(indent)|;
      PassedIfFixed(front, if matched then r.Block(indent) else r.open, if matched then r.replacement(indent) else r.open,
                    tail, Renamed(r, tail));
      PassedHasNoBlock(r, s, front, indent, front + r.open, tail);
      FixedHasNoBlock(r, tail);
    }
  }

  lemma NothingThere(r: Rename, s: string)
    requires Find(s, r.open).None?
    ensures NoBlock(r, s)
  {}

  lemma RenamedIsLonger(e: Entry, indent: string)
    ensures |e.Form().replacement(indent)| > |e.Form().Block(indent)|
  {}

  /** After a rename no block of that module is left. */
  lemma NoBlockIsLeft(e: Entry, s: string)
    requires IsName(e) && Clean(e.Form().open, s)
    ensures Clean(e.Form().open, Renamed(e.Form(), s)) && NoBlock(e.Form(), Renamed(e.Form(), s))
  {
    var r := e.Form();
    var w := Renamed(r, s);
    PlainNamesAreShaped(e.name, e.file);
    RunTwice(r, s);
    forall indent: string ensures |r.replacement(indent)| > |r.Block(indent)| {
      RenamedIsLonger(e, indent);
    }
    FixedHasNoBlock(r, w);
  }

  /** And where there is none, the rename changes nothing. */
  lemma {:induction false} NoBlockNoChange(r: Rename, s: string)
    requires Shaped(r) && Clean(r.open, s) && NoBlock(r, s)
    ensures Renamed(r, s) == s
    decreases |s|
  {
    if Find(s, r.open).None? {
      RenamedNone(r, s);
    } else {
      var front, indent, matched, tail := RoundByPieces(r, s);
      var head := front + (if matched then r.Block(indent) else r.open);
      assert matched ==> FullBlockAt(r, s, |front|);
      TailHasNoBlock(r, s, front, indent, matched, head, tail);
      NoBlockNoChange(r, tail);
    }
  }

  lemma TailHasNoBlock(r: Rename, s: string, front: string, indent: string, matched: bool, head: string, tail: string)
    requires Shaped(r) && Clean(r.open, s) && NoBlock(r, s) && Find(s, r.open) == Some(|front|) && |front| <= |s|
    requires front == s[..|front|] && indent == LinePrefix(front) && s == head + tail
    requires head == front + (if matched then r.Block(indent) else r.open)
    requires matched == StartsWith(s[|front|..], r.Block(indent))
    ensures Clean(r.open, tail) && NoBlock(r, tail)
  {
    forall at ensures !FullBlockAt(r, tail, at) {
      var x := BlockRewrite(r, if 0 <= at <= |tail| then LinePrefix(tail[..at]) else "");
      FullByPieces(r, s, front, indent, matched, head, tail, at + |head|, x);
    }
    FullByPieces(r, s, front, indent, matched, head, tail, 0, BlockRewrite(r, ""));
  }

  // ---- the whole table ----

  ghost predicate IsCleanFor(table: seq<Entry>, s: string) {
    forall e :: e in table ==> Clean(e.Form().open, s)
  }

  ghost predicate HasNoBlocks(table: seq<Entry>, s: string) {
    forall e :: e in table ==> NoBlock(e.Form(), s)
  }

  /** One rename of the table: clean for all stays clean for all, and one more module has no blocks. */
  lemma OneRename(all: seq<Entry>, done: seq<Entry>, next: Entry, s: string)
    requires KeepApart(all) && IsCleanFor(all, s) && next in all
    requires HasNoBlocks(done, s) && forall e :: e in done ==> e in all
    ensures IsCleanFor(all, Renamed(next.Form(), s))
    ensures HasNoBlocks(done + [next], Renamed(next.Form(), s))
  {
    var w := Renamed(next.Form(), s);
    assert "" + s == s && "" + w == w;
    forall e | e in all
      ensures Clean(e.Form().open, w) && (NoBlock(e.Form(), s) ==> NoBlock(e.Form(), w))
    {
      RenameKeeps(e, next, "", s);
    }
    NoBlockIsLeft(next, s);
  }

  lemma {:induction false} NoBlocksAreLeft(all: seq<Entry>, done: seq<Entry>, table: seq<Entry>, s: string)
    requires KeepApart(all) && IsCleanFor(all, s) && all == done + table && HasNoBlocks(done, s)
    ensures IsCleanFor(all, RenameAll(table, s)) && HasNoBlocks(all, RenameAll(table, s))
    decreases |table|
  {
    if table == [] {
      assert done == all;
    } else {
      OneRename(all, done, table[0], s);
      assert done + [table[0]] + table[1..] == all;
      NoBlocksAreLeft(all, done + [table[0]], table[1..], Renamed(table[0].Form(), s));
    }
  }

  lemma {:induction false} NothingToRename(table: seq<Entry>, s: string)
    requires KeepApart(table) && IsCleanFor(table, s) && HasNoBlocks(table, s)
    ensures RenameAll(table, s) == s
  {
    if table == [] {
    } else {
      assert table[0] in table;
      PlainNamesAreShaped(table[0].name, table[0].file);
      NoBlockNoChange(table[0].Form(), s);
      NothingToRename(table[1..], s);
    }
  }

  /** Running the whole table again changes nothing, and no module of the table has a block left. */
  lemma TableTwiceIsTableOnce(table: seq<Entry>, contents: string)
    requires KeepApart(table) && IsCleanFor(table, contents)
    ensures HasNoBlocks(table, RenameAll(table, contents))
    ensures RenameAll(table, RenameAll(table, contents)) == RenameAll(table, contents)
  {
    assert [] + table == table;
    NoBlocksAreLeft(table, [], table, contents);
    NothingToRename(table, RenameAll(table, contents));
  }

  predicate IsLetter(c: char) {
    'a' <= c <= 'z' || c == '_' || c == '.'
  }

  ghost predicate IsModule(e: Entry) {
    && (forall i :: 0 <= i < |e.name| ==> IsLetter(e.name[i]))
    && (forall i :: 0 <= i < |e.file| ==> IsLetter(e.file[i]))
    && e.name != "" && e.name[|e.name| - 1] != 'i'
  }

  lemma ModuleIsName(e: Entry)
    requires IsModule(e)
    ensures IsName(e) && forall b: Entry :: e.name != b.name + "_api"
  {
    forall b: Entry ensures e.name != b.name + "_api" {
      assert (b.name + "_api")[|b.name + "_api"| - 1] == 'i';
    }
  }

  lemma FirstModules()
    ensures IsModule(Entry("action", "api.action.rs"))
    ensures IsModule(Entry("event", "api.event.rs"))
    ensures IsModule(Entry("key", "api.key.rs"))
  {}

  lemma PluginModule()
    ensures IsModule(Entry("plugin_command", "api.plugin_command.rs"))
  {}

  lemma ClientModule()
    ensures IsModule(Entry("client_server_contract", "client_server_contract.rs"))
  {}

  lemma WebModule()
    ensures IsModule(Entry("web_server_contract", "web_server_contract.rs"))
  {}

  /** The program's own table keeps its modules apart. */
  lemma ModulesKeepApart()
    ensures KeepApart(MODULE_INCEPTION_RENAMES)
  {
    FirstModules();
    PluginModule();
    ClientModule();
    WebModule();
    forall e | e in MODULE_INCEPTION_RENAMES ensures IsName(e) && forall b: Entry :: e.name != b.name + "_api" {
      ModuleIsName(e);
    }
  }
}
