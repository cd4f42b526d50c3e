/**
 The rewriting of generated module wrappers (`rename_module_for_clippy` in `xtask/src/build.rs`): which blocks
 are rewritten, that all other text is copied, and that a second run changes nothing.
 */
module ModuleRename {
  import opened Results

  // ---- finding text ----

  predicate Occurs(s: string, pattern: string, at: int) {
    0 <= at && at + |pattern| <= |s| && s[at..at + |pattern|] == pattern
  }

  /** `str::find`: the first occurrence. */
  function Find(s: string, pattern: string): (r: Option<nat>)
    ensures r.Some? ==> Occurs(s, pattern, r.value) && forall i :: 0 <= i < r.value ==> !Occurs(s, pattern, i)
    ensures r.None? ==> forall i :: !Occurs(s, pattern, i)
  {
    FindFrom(s, pattern, 0)
  }

  function FindFrom(s: string, pattern: string, from: nat): (r: Option<nat>)
    ensures r.Some? ==> from <= r.value && Occurs(s, pattern, r.value) && forall i :: from <= i < r.value ==> !Occurs(s, pattern, i)
    ensures r.None? ==> forall i :: i >= from ==> !Occurs(s, pattern, i)
    decreases |s| - from
  {
    if from + |pattern| > |s| then None
    else if Occurs(s, pattern, from) then Some(from)
    else FindFrom(s, pattern, from + 1)
  }

  predicate StartsWith(s: string, pattern: string) {
    |pattern| <= |s| && s[..|pattern|] == pattern
  }

  /** The place after the last line break before `n`. */
  function LineStart(s: string, n: nat): (k: nat)
    requires n <= |s|
    ensures k <= n && (k == 0 || s[k - 1] == '\n') && forall i :: k <= i < n ==> s[i] != '\n'
  {
    if n == 0 || s[n - 1] == '\n' then n else LineStart(s, n - 1)
  }

  /** What stands after the last line break. */
  function LinePrefix(s: string): string {
    s[LineStart(s, |s|)..]
  }

  lemma LinePrefixIs(s: string, k: nat)
    requires k <= |s| && (k == 0 || s[k - 1] == '\n') && forall i :: k <= i < |s| ==> s[i] != '\n'
    ensures LinePrefix(s) == s[k..]
  {
    var n := LineStart(s, |s|);
    assert n == 0 || s[n - 1] == '\n';
  }

  /** Text in front does not matter once there is a line break. */
  lemma LinePrefixOfTail(front: string, s: string)
    requires '\n' in s
    ensures LinePrefix(front + s) == LinePrefix(s)
  {
    var k := LineStart(s, |s|);
    assert k > 0;
    assert forall i :: 0 <= i < |s| ==> (front + s)[|front| + i] == s[i];
    LinePrefixIs(front + s, |front| + k);
    assert (front + s)[|front| + k..] == s[k..];
  }

  // ---- one rename ----

  /**
   The texts of one rename: the opening, what must follow it in a block of a given indentation for the
   block to match, and what replaces the block.
   */
  datatype Form = Form(open: string, rest: string -> string, replacement: string -> string) {
    function Block(indent: string): string {
      open + rest(indent)
    }
  }

  type Rename = f: Form | f.open != "" witness Form("{", (indent: string) => "", (indent: string) => "")

  function Inside(indent: string, file: string): string {
    "\n" + indent + "    include!(\"" + file + "\");\n" + indent + "}"
  }

  /** The rename of a module, as the program formats it. */
  function RenameOf(name: string, file: string): Rename {
    Form("pub mod " + name + " {",
         (indent: string) => Inside(indent, file),
         (indent: string) =>
           "pub mod " + name + "_api {" + Inside(indent, file) + "\n" + indent + "pub use " + name + "_api as " + name + ";")
  }

  /** Names as the table of renames has them: no braces, semicolons or line breaks, no spaces in the file. */
  predicate ArePlain(name: string, file: string) {
    && (forall c :: c in name ==> c != '{' && c != '}' && c != ';' && c != '\n')
    && (forall c :: c in file ==> c != '{' && c != ' ')
  }

  /** A stretch of the input: copied, or a whole block and what replaces it. */
  datatype Segment = Copy(text: string) | Rewrite(block: string, replacement: string) {
    function Input(): string {
      if Copy? then text else block
    }

    function Output(): string {
      if Copy? then text else replacement
    }
  }

  function Input(segments: seq<Segment>): string {
    if segments == [] then "" else segments[0].Input() + Input(segments[1..])
  }

  function Output(segments: seq<Segment>): string {
    if segments == [] then "" else segments[0].Output() + Output(segments[1..])
  }

  /** What one round of the loop finds: text to copy, the block after it if it matches in full, and the rest. */
  datatype Round = Done | Round(copied: string, rewritten: seq<Segment>, tail: string)

  /** The round at the first opening: the whole block must follow, or only the opening is passed. */
  function RoundAt(rest: string, at: nat, open: string, block: string, replacement: string): (round: Round)
    requires at + |open| <= |rest| && |open| > 0 && |block| > 0
    ensures round.Round? && |round.tail| < |rest| && |round.rewritten| <= 1
  {
    if StartsWith(rest[at..], block) then
      Round(rest[..at], [Rewrite(block, replacement)], rest[at + |block|..])
    else
      Round(rest[..at + |open|], [], rest[at + |open|..])
  }

  lemma RoundCovers(rest: string, at: nat, open: string, block: string, replacement: string)
    requires at + |open| <= |rest| && |open| > 0 && |block| > 0
    ensures var round := RoundAt(rest, at, open, block, replacement);
            && rest == round.copied + Input(round.rewritten) + round.tail
            && Output(round.rewritten) == if StartsWith(rest[at..], block) then replacement else ""
  {
    if StartsWith(rest[at..], block) {
      assert [Rewrite(block, replacement)][1..] == [];
      assert block + "" == block && replacement + "" == replacement;
      assert rest[at..at + |block|] == rest[at..][..|block|];
      assert rest == rest[..at] + rest[at..at + |block|] + rest[at + |block|..];
    } else {
      assert rest[..at + |open|] + "" == rest[..at + |open|];
    }
  }

  function OneRound(r: Rename, rest: string): (round: Round)
    ensures round.Round? ==> |round.tail| < |rest|
  {
    var found := Find(rest, r.open);
    if found.None? then Done
    else
      var indent := LinePrefix(rest[..found.value]);
      RoundAt(rest, found.value, r.open, r.Block(indent), r.replacement(indent))
  }

  /** The stretches in the order the loop meets them. */
  function Segments(r: Rename, rest: string): seq<Segment>
    decreases |rest|
  {
    match OneRound(r, rest)
    case Done => [Copy(rest)]
    case Round(copied, rewritten, tail) => [Copy(copied)] + rewritten + Segments(r, tail)
  }

  function Renamed(r: Rename, rest: string): string {
    Output(Segments(r, rest))
  }

  lemma {:induction false} SegmentsJoin(a: seq<Segment>, b: seq<Segment>)
    ensures Output(a + b) == Output(a) + Output(b)
    ensures Input(a + b) == Input(a) + Input(b)
  {
    if a == [] {
      assert a + b == b;
    } else {
      assert (a + b)[1..] == a[1..] + b;
      SegmentsJoin(a[1..], b);
    }
  }

  lemma CopyThen(text: string, rewritten: seq<Segment>, rest: seq<Segment>)
    ensures Output([Copy(text)] + rewritten + rest) == text + Output(rewritten) + Output(rest)
    ensures Input([Copy(text)] + rewritten + rest) == text + Input(rewritten) + Input(rest)
  {
    SegmentsJoin([Copy(text)] + rewritten, rest);
    assert ([Copy(text)] + rewritten)[1..] == rewritten;
  }

  /** One round of the loop, as text. */
  lemma RenamedByRound(r: Rename, rest: string)
    ensures match OneRound(r, rest)
            case Done => Renamed(r, rest) == rest
            case Round(copied, rewritten, tail) => Renamed(r, rest) == copied + Output(rewritten) + Renamed(r, tail)
  {
    match OneRound(r, rest)
    case Done =>
      assert [Copy(rest)] + [] + [] == [Copy(rest)];
      CopyThen(rest, [], []);
    case Round(copied, rewritten, tail) => CopyThen(copied, rewritten, Segments(r, tail));
  }

  lemma SegmentsAt(r: Rename, s: string, at: nat, indent: string)
    requires Find(s, r.open) == Some(at) && indent == LinePrefix(s[..at])
    ensures var round := RoundAt(s, at, r.open, r.Block(indent), r.replacement(indent));
            Segments(r, s) == [Copy(round.copied)] + round.rewritten + Segments(r, round.tail)
  {}

  lemma RenamedAt(r: Rename, s: string, at: nat, indent: string, round: Round)
    requires Find(s, r.open) == Some(at) && indent == LinePrefix(s[..at])
    requires round == RoundAt(s, at, r.open, r.Block(indent), r.replacement(indent))
    ensures Renamed(r, s) == round.copied + Output(round.rewritten) + Renamed(r, round.tail)
  {
    SegmentsAt(r, s, at, indent);
    CopyThen(round.copied, round.rewritten, Segments(r, round.tail));
  }

  lemma RenamedNone(r: Rename, s: string)
    requires Find(s, r.open).None?
    ensures Renamed(r, s) == s
  {
    RenamedByRound(r, s);
  }

  /** `rename_module_for_clippy`. */
  method RenameModuleForClippy(contents: string, name: string, file: string) returns (out: string)
    ensures out == Renamed(RenameOf(name, file), contents)
  {
    var r := RenameOf(name, file);
    out := "";
    var rest := contents;
    var found := Find(rest, r.open);
    while found.Some?
      invariant found == Find(rest, r.open)
      invariant out + Renamed(r, rest) == Renamed(r, contents)
      decreases |rest|
    {
      var pushed, left := RewriteNext(r, rest, found.value);
      Associates(out, pushed, Renamed(r, left));
      out, rest := out + pushed, left;
      found := Find(rest, r.open);
    }
    RenamedByRound(r, rest);
    out := out + rest;
  }

  lemma Associates(a: string, b: string, c: string)
    ensures a + (b + c) == a + b + c
  {}

  /** One turn of the loop, at the first opening. */
  method RewriteNext(r: Rename, rest: string, offset: nat) returns (pushed: string, left: string)
    requires Find(rest, r.open) == Some(offset)
    ensures Renamed(r, rest) == pushed + Renamed(r, left) && |left| < |rest|
  {
    var indent := LinePrefix(rest[..offset]);
    RenamedByRound(r, rest);
    pushed, left := RewriteOne(rest, offset, r.open, r.Block(indent), r.replacement(indent));
  }

  /** The body of the loop: what is pushed, and what is left. */
  method RewriteOne(rest: string, offset: nat, open: string, block: string, replacement: string)
    returns (pushed: string, left: string)
    requires offset + |open| <= |rest| && |open| > 0 && |block| > 0
    ensures var round := RoundAt(rest, offset, open, block, replacement);
            pushed == round.copied + Output(round.rewritten) && left == round.tail
  {
    RoundCovers(rest, offset, open, block, replacement);
    if StartsWith(rest[offset..], block) {
      pushed := rest[..offset];
      pushed := pushed + replacement;
      left := rest[offset + |block|..];
    } else {
      pushed := rest[..offset + |open|];
      left := rest[offset + |open|..];
      assert pushed + "" == pushed;
    }
  }

  /** The stretches make up the whole input: whatever is not a rewritten block is copied as it is. */
  lemma {:induction false} SegmentsCoverTheInput(r: Rename, rest: string)
    ensures Input(Segments(r, rest)) == rest
    decreases |rest|
  {
    match OneRound(r, rest)
    case Done =>
      assert [Copy(rest)] + [] + [] == [Copy(rest)];
      CopyThen(rest, [], []);
    case Round(copied, rewritten, tail) =>
      SegmentsCoverTheInput(r, tail);
      CopyThen(copied, rewritten, Segments(r, tail));
      RoundIsWhole(r, rest);
  }

  lemma RoundIsWhole(r: Rename, rest: string)
    ensures var round := OneRound(r, rest);
            round.Round? ==> rest == round.copied + Input(round.rewritten) + round.tail
  {
    var found := Find(rest, r.open);
    if found.Some? {
      var indent := LinePrefix(rest[..found.value]);
      RoundCovers(rest, found.value, r.open, r.Block(indent), r.replacement(indent));
    }
  }

  // ---- what the texts look like ----

  predicate IsBrace(c: char) {
    c == '{' || c == '}'
  }

  /** No brace, and no `b` before a space or at the end: nothing an opening could be mistaken for. */
  predicate IsQuiet(s: string) {
    && (forall i :: 0 <= i < |s| ==> !IsBrace(s[i]))
    && (forall i :: 0 <= i < |s| - 1 && s[i + 1] == ' ' ==> s[i] != 'b')
    && (s != "" ==> s[|s| - 1] != 'b')
  }

  /** An opening, seen through the characters that matter: it ends in its only brace and fits on a line. */
  ghost predicate OpeningShape(open: string) {
    && |open| >= 10 && open[0] == 'p' && open[1] == 'u' && open[2] == 'b' && open[3] == ' ' && open[|open| - 1] == '{'
    && (forall i :: 0 <= i < |open| - 1 ==> open[i] != '{')
    && (forall i :: 0 <= i < |open| ==> open[i] != ';' && open[i] != '}' && open[i] != '\n')
  }

  lemma OpeningHasShape(name: string, file: string)
    requires ArePlain(name, file)
    ensures OpeningShape(RenameOf(name, file).open)
  {
    var open := "pub mod " + name + " {";
    assert open[..8] == "pub mod ";
    assert open[8..8 + |name|] == name;
    assert open[8 + |name|..] == " {";
    forall i | 0 <= i < |open| - 1 ensures open[i] != '{' && open[i] != ';' && open[i] != '}' && open[i] != '\n' {
      if 8 <= i < 8 + |name| {
        assert open[i] == name[i - 8] && name[i - 8] in name;
      }
    }
  }

  /** What follows an opening in a block: no brace but the last character, and no `b` before a space. */
  ghost predicate RestShape(rest: string) {
    && rest != "" && rest[|rest| - 1] == '}'
    && (forall i :: 0 <= i < |rest| ==> rest[i] != '{')
    && (forall i :: 0 <= i < |rest| - 1 && rest[i + 1] == ' ' ==> rest[i] != 'b')
  }

  /** Text without an opening brace in which a `b` is never followed by a space, nor ends it. */
  ghost predicate Tame(s: string) {
    && (forall i :: 0 <= i < |s| ==> s[i] != '{')
    && (forall i :: 0 <= i < |s| - 1 && s[i + 1] == ' ' ==> s[i] != 'b')
    && (s != "" ==> s[|s| - 1] != 'b')
  }

  lemma TameJoins(a: string, b: string)
    requires Tame(a) && Tame(b)
    ensures Tame(a + b)
  {}

  lemma QuietIsTame(s: string)
    requires IsQuiet(s)
    ensures Tame(s)
  {}

  lemma InsideHasShape(name: string, file: string, indent: string)
    requires ArePlain(name, file) && IsQuiet(indent)
    ensures RestShape(Inside(indent, file))
  {
    QuietIsTame(indent);
    var quoted := file + "\");\n";
    FileIsTame(name, file);
    assert Tame("\n") && Tame("    include!(\"") && Tame("}");
    TameJoins("\n", indent);
    TameJoins("\n" + indent, "    include!(\"");
    TameJoins("\n" + indent + "    include!(\"", quoted);
    TameJoins("\n" + indent + "    include!(\"" + quoted, indent);
    TameJoins("\n" + indent + "    include!(\"" + quoted + indent, "}");
    var rest := Inside(indent, file);
    assert rest == "\n" + indent + "    include!(\"" + quoted + indent + "}";
  }

  lemma FileIsTame(name: string, file: string)
    requires ArePlain(name, file)
    ensures Tame(file + "\");\n")
  {
    var s := file + "\");\n";
    forall i | 0 <= i < |s| ensures s[i] != '{' && s[i] != ' ' {
      if i < |file| {
        assert s[i] == file[i] && file[i] in file;
      }
    }
  }

  /** A replacement: one brace, four characters later than in the opening, and a semicolon at the end. */
  ghost predicate ReplacementShape(text: string, n: nat) {
    && |text| > n + 4 && n >= 10
    && text[0] == 'p' && text[1] == 'u' && text[2] == 'b' && text[3] == ' ' && text[4] == 'm'
    && text[|text| - 1] == ';'
    && (forall i :: 0 <= i < |text| && i != n + 3 ==> text[i] != '{')
  }

  lemma ReplacementHasShape(name: string, file: string, indent: string)
    requires ArePlain(name, file) && IsQuiet(indent)
    ensures ReplacementShape(RenameOf(name, file).replacement(indent), |RenameOf(name, file).open|)
  {
    var open := "pub mod " + name + "_api {";
    var tail := "\n" + indent + "pub use " + name + "_api as " + name + ";";
    InsideHasShape(name, file, indent);
    RenamedOpening(name, file);
    RenamedTail(name, file, indent);
    assert RenameOf(name, file).replacement(indent) == open + Inside(indent, file) + tail;
  }

  lemma RenamedOpening(name: string, file: string)
    requires ArePlain(name, file)
    ensures var open := "pub mod " + name + "_api {";
            && |open| == |name| + 14 && open[..8] == "pub mod "
            && forall i :: 0 <= i < |open| - 1 ==> open[i] != '{'
  {
    var open := "pub mod " + name + "_api {";
    assert open[8..8 + |name|] == name && open[8 + |name|..] == "_api {";
    forall i | 0 <= i < |open| - 1 ensures open[i] != '{' {
      if 8 <= i < 8 + |name| {
        assert open[i] == name[i - 8] && name[i - 8] in name;
      }
    }
  }

  lemma NameHasNoBrace(name: string, file: string)
    requires ArePlain(name, file)
    ensures forall i :: 0 <= i < |name| ==> name[i] != '{'
  {
    assert forall i :: 0 <= i < |name| ==> name[i] in name;
  }

  predicate NoBrace(s: string) {
    forall i :: 0 <= i < |s| ==> s[i] != '{'
  }

  lemma NoBraceJoins(a: string, b: string)
    requires NoBrace(a) && NoBrace(b)
    ensures NoBrace(a + b)
  {}

  lemma RenamedTail(name: string, file: string, indent: string)
    requires ArePlain(name, file) && IsQuiet(indent)
    ensures var tail := "\n" + indent + "pub use " + name + "_api as " + name + ";";
            NoBrace(tail) && |tail| > 0 && tail[|tail| - 1] == ';'
  {
    NameHasNoBrace(name, file);
    NoBraceJoins("\n", indent);
    NoBraceJoins("\n" + indent, "pub use ");
    NoBraceJoins("\n" + indent + "pub use ", name);
    NoBraceJoins("\n" + indent + "pub use " + name, "_api as ");
    NoBraceJoins("\n" + indent + "pub use " + name + "_api as ", name);
    NoBraceJoins("\n" + indent + "pub use " + name + "_api as " + name, ";");
  }

  /** What the proofs below need to know of the texts of a rename. */
  ghost predicate Shaped(r: Rename) {
    && OpeningShape(r.open)
    && forall indent :: IsQuiet(indent) ==>
         RestShape(r.rest(indent)) && ReplacementShape(r.replacement(indent), |r.open|)
  }

  lemma PlainNamesAreShaped(name: string, file: string)
    requires ArePlain(name, file)
    ensures Shaped(RenameOf(name, file))
  {
    OpeningHasShape(name, file);
    forall indent: string | IsQuiet(indent)
      ensures RestShape(RenameOf(name, file).rest(indent))
      ensures ReplacementShape(RenameOf(name, file).replacement(indent), |RenameOf(name, file).open|)
    {
      InsideHasShape(name, file, indent);
      ReplacementHasShape(name, file, indent);
    }
  }

  // ---- openings in the text before and after ----

  lemma OccurrenceShape(s: string, open: string, at: int)
    requires OpeningShape(open) && Occurs(s, open, at)
    ensures s[at] == 'p' && s[at + |open| - 1] == '{'
    ensures forall i :: at <= i < at + |open| - 1 ==> s[i] != '{'
    ensures forall i :: at <= i < at + |open| ==> s[i] != ';' && s[i] != '}' && s[i] != '\n'
  {
    forall i | at <= i < at + |open| ensures s[i] == open[i - at] {
      assert s[at..at + |open|][i - at] == s[i];
    }
  }

  lemma OccursAfter(front: string, s: string, open: string, at: int)
    requires at >= |front|
    ensures Occurs(front + s, open, at) <==> Occurs(s, open, at - |front|)
  {
    var w, i := front + s, at - |front|;
    if at + |open| <= |w| {
      assert w[at..at + |open|] == s[i..i + |open|];
    }
  }

  lemma OccursWithin(a: string, b: string, open: string, n: nat, at: int)
    requires n <= |a| && n <= |b| && a[..n] == b[..n] && at + |open| <= n
    ensures Occurs(a, open, at) <==> Occurs(b, open, at)
  {
    if 0 <= at {
      assert a[at..at + |open|] == a[..n][at..at + |open|];
      assert b[at..at + |open|] == b[..n][at..at + |open|];
    }
  }

  /** No opening before `n` in the text. */
  ghost predicate NoneBefore(s: string, open: string, n: int) {
    forall i :: i < n ==> !Occurs(s, open, i)
  }

  /** A copied front and a replacement hold no opening, nor does one begin in them and end behind. */
  lemma NoOpeningInReplacement(front: string, text: string, tail: string, open: string, s: string)
    requires OpeningShape(open) && ReplacementShape(text, |open|)
    requires |front| <= |s| && s[..|front|] == front && NoneBefore(s, open, |front|)
    ensures NoneBefore(front + text + tail, open, |front + text|)
  {
    var w, n := front + text + tail, |open|;
    assert w[..|front|] == front;
    assert forall e :: |front| <= e < |front| + |text| ==> w[e] == text[e - |front|];
    assert w[|front| + 4] == 'm' && w[|front| + |text| - 1] == ';';
    forall i | i < |front + text| && Occurs(w, open, i) ensures false {
      OccurrenceShape(w, open, i);
      if i + n <= |front| {
        OccursWithin(w, s, open, |front|, i);
      }
    }
  }

  /** Behind a copied front, an opening and text without braces but a last `}` hold just that opening. */
  lemma OneOpeningInBlock(front: string, open: string, rest: string, tail: string, s: string)
    requires OpeningShape(open) && (rest == "" || RestShape(rest))
    requires |front| <= |s| && s[..|front|] == front && NoneBefore(s, open, |front|)
    ensures forall i :: i < |front + open + rest| && Occurs(front + open + rest + tail, open, i) ==> i == |front|
    ensures Occurs(front + open + rest + tail, open, |front|)
  {
    var w, n := front + open + rest + tail, |open|;
    assert w[..|front|] == front;
    assert w[|front|..|front| + n] == open;
    assert forall e :: |front| <= e < |front| + n ==> w[e] == open[e - |front|];
    assert forall e :: |front| + n <= e < |front| + n + |rest| ==> w[e] == rest[e - |front| - n];
    assert w[|front| + n - 1] == '{' && (rest != "" ==> w[|front| + n + |rest| - 1] == '}');
    forall i | i < |front + open + rest| && Occurs(w, open, i) ensures i == |front| {
      OccurrenceShape(w, open, i);
      if i + n <= |front| {
        OccursWithin(w, s, open, |front|, i);
      }
    }
  }

  // ---- where openings stand ----

  /** Only quiet text, blanks for one, stands before each opening on its line. */
  ghost predicate Clean(open: string, s: string) {
    forall i: nat :: Occurs(s, open, i) ==> IsQuiet(LinePrefix(s[..i]))
  }

  /** And each opening has a line break before it. */
  ghost predicate Inner(open: string, s: string) {
    forall i: nat :: Occurs(s, open, i) ==> '\n' in s[..i] && IsQuiet(LinePrefix(s[..i]))
  }

  lemma VisibleInLine(s: string, at: nat)
    requires at < |s| && IsBrace(s[at]) && forall i :: at <= i < |s| ==> s[i] != '\n'
    ensures !IsQuiet(LinePrefix(s))
  {
    var k := LineStart(s, |s|);
    assert k == 0 || s[k - 1] == '\n';
    assert s[k..][at - k] == s[at];
  }

  lemma VisibleStays(head: string, t: string)
    requires head != "" && IsBrace(head[|head| - 1]) && '\n' !in t
    ensures !IsQuiet(LinePrefix(head + t))
  {
    var s := head + t;
    assert forall i :: 0 <= i < |t| ==> s[|head| + i] == t[i] && t[i] in t;
    assert s[|head| - 1] == head[|head| - 1];
    VisibleInLine(s, |head| - 1);
  }

  /** After a brace, quiet text up to the end of the text start on a later line. */
  lemma LineBreakAfter(head: string, t: string)
    requires head != "" && IsBrace(head[|head| - 1]) && IsQuiet(LinePrefix(head + t))
    ensures '\n' in t && LinePrefix(head + t) == LinePrefix(t)
  {
    if '\n' !in t {
      VisibleStays(head, t);
    }
    LinePrefixOfTail(head, t);
  }

  /** So openings of a clean text after such a character start on later lines. */
  lemma TailIsInner(open: string, head: string, tail: string)
    requires Clean(open, head + tail) && head != "" && IsBrace(head[|head| - 1])
    ensures Inner(open, tail)
    ensures forall i: nat :: Occurs(tail, open, i) ==> LinePrefix((head + tail)[..|head| + i]) == LinePrefix(tail[..i])
  {
    forall i: nat | Occurs(tail, open, i)
      ensures '\n' in tail[..i] && IsQuiet(LinePrefix(tail[..i]))
      ensures LinePrefix((head + tail)[..|head| + i]) == LinePrefix(tail[..i])
    {
      TailLine(open, head, tail, i);
    }
  }

  lemma TailLine(open: string, head: string, tail: string, i: nat)
    requires Clean(open, head + tail) && head != "" && IsBrace(head[|head| - 1]) && Occurs(tail, open, i)
    ensures '\n' in tail[..i] && IsQuiet(LinePrefix(tail[..i]))
    ensures LinePrefix((head + tail)[..|head| + i]) == LinePrefix(tail[..i])
  {
    OccursAfter(head, tail, open, |head| + i);
    assert Occurs(head + tail, open, |head| + i);
    assert (head + tail)[..|head| + i] == head + tail[..i];
    LineBreakAfter(head, tail[..i]);
  }

  // ---- a second run ----

  /** An opening of the joined text, none being in the front, is one of the second part. */
  lemma OnlyBehind(front: string, s: string, open: string, i: int)
    requires NoneBefore(front + s, open, |front|)
    ensures Occurs(front + s, open, i) <==> i >= |front| && Occurs(s, open, i - |front|)
  {
    if i >= |front| {
      OccursAfter(front, s, open, i);
    }
  }

  lemma NotFound(s: string, open: string)
    requires forall i :: !Occurs(s, open, i)
    ensures Find(s, open) == None
  {}

  lemma FindAfter(front: string, s: string, open: string)
    requires NoneBefore(front + s, open, |front|)
    ensures Find(front + s, open)
            == if Find(s, open).None? then None else Some(|front| + Find(s, open).value)
  {
    FoundAfter(front, s, open, front + s, Find(s, open));
  }

  lemma FoundAfter(front: string, s: string, open: string, w: string, found: Option<nat>)
    requires w == front + s && NoneBefore(front + s, open, |front|)
    requires found.Some? ==> Occurs(s, open, found.value) && forall i :: 0 <= i < found.value ==> !Occurs(s, open, i)
    requires found.None? ==> forall i :: !Occurs(s, open, i)
    ensures Find(w, open) == if found.None? then None else Some(|front| + found.value)
  {
    forall i ensures Occurs(w, open, i) <==> i >= |front| && Occurs(s, open, i - |front|) {
      OnlyBehind(front, s, open, i);
    }
    match found
    case None => NotFound(w, open);
    case Some(at) => FirstIs(w, open, |front| + at);
  }

  /** A round is the same behind more text, if the indentation is. */
  lemma RoundAfter(front: string, s: string, w: string, at: nat, open: string, block: string, replacement: string,
                   round: Round, behind: Round)
    requires at + |open| <= |s| && |open| > 0 && |block| > 0 && w == front + s
    requires round == RoundAt(s, at, open, block, replacement)
    requires behind == Round(front + round.copied, round.rewritten, round.tail)
    ensures RoundAt(w, |front| + at, open, block, replacement) == behind
  {
    assert w[|front| + at..] == s[at..];
    assert w[..|front| + at] == front + s[..at];
    assert w[..|front| + at + |open|] == front + s[..at + |open|];
    assert w[|front| + at + |open|..] == s[at + |open|..];
    if StartsWith(s[at..], block) {
      assert w[|front| + at + |block|..] == s[at + |block|..];
    }
  }

  lemma BreakBefore(open: string, s: string, at: nat)
    requires Inner(open, s) && Find(s, open) == Some(at)
    ensures at <= |s| && '\n' in s[..at]
  {
    assert Occurs(s, open, at);
  }

  lemma IndentBehind(front: string, s: string, at: nat)
    requires at <= |s| && '\n' in s[..at]
    ensures LinePrefix((front + s)[..|front| + at]) == LinePrefix(s[..at])
  {
    assert (front + s)[..|front| + at] == front + s[..at];
    LinePrefixOfTail(front, s[..at]);
  }

  /** Text without openings in front of inner text is copied, and the rest rewritten as it would be alone. */
  lemma FrontIsCopied(r: Rename, front: string, s: string)
    requires Inner(r.open, s) && NoneBefore(front + s, r.open, |front|)
    ensures Renamed(r, front + s) == front + Renamed(r, s)
  {
    FindAfter(front, s, r.open);
    FoundIsCopied(r, front, s, Find(s, r.open));
  }

  lemma FoundIsCopied(r: Rename, front: string, s: string, found: Option<nat>)
    requires Inner(r.open, s) && Find(s, r.open) == found
    requires Find(front + s, r.open) == if found.None? then None else Some(|front| + found.value)
    ensures Renamed(r, front + s) == front + Renamed(r, s)
  {
    match found
    case None =>
      RenamedNone(r, s);
      RenamedNone(r, front + s);
    case Some(at) =>
      BreakBefore(r.open, s, at);
      FrontIsCopiedAt(r, front, s, at, LinePrefix(s[..at]));
  }

  lemma FrontIsCopiedAt(r: Rename, front: string, s: string, at: nat, indent: string)
    requires Find(s, r.open) == Some(at) && Find(front + s, r.open) == Some(|front| + at)
    requires '\n' in s[..at] && indent == LinePrefix(s[..at])
    ensures Renamed(r, front + s) == front + Renamed(r, s)
  {
    var round := RoundAt(s, at, r.open, r.Block(indent), r.replacement(indent));
    var behind := Round(front + round.copied, round.rewritten, round.tail);
    RenamedAt(r, s, at, indent, round);
    IndentBehind(front, s, at);
    RenamedBehind(r, front, s, front + s, at, indent, round, behind);
    FourParts(front, round.copied, Output(round.rewritten), Renamed(r, round.tail));
  }

  lemma RenamedBehind(r: Rename, front: string, s: string, w: string, at: nat, indent: string, round: Round, behind: Round)
    requires w == front + s && Find(w, r.open) == Some(|front| + at) && at + |r.open| <= |s|
    requires indent == LinePrefix(w[..|front| + at])
    requires round == RoundAt(s, at, r.open, r.Block(indent), r.replacement(indent))
    requires behind == Round(front + round.copied, round.rewritten, round.tail)
    ensures Renamed(r, w) == behind.copied + Output(behind.rewritten) + Renamed(r, behind.tail)
  {
    RoundAfter(front, s, w, at, r.open, r.Block(indent), r.replacement(indent), round, behind);
    RenamedAt(r, w, |front| + at, indent, behind);
  }

  lemma FourParts(a: string, b: string, c: string, d: string)
    ensures (a + b) + c + d == a + (b + c + d)
  {}

  /** A round by its pieces: what is copied, what the opening becomes, and the tail. */
  lemma RoundByPieces(r: Rename, s: string) returns (front: string, indent: string, matched: bool, tail: string)
    requires Find(s, r.open).Some?
    ensures Find(s, r.open) == Some(|front|) && |front| <= |s| && front == s[..|front|]
    ensures indent == LinePrefix(front) && matched == StartsWith(s[|front|..], r.Block(indent))
    ensures tail == RoundAt(s, |front|, r.open, r.Block(indent), r.replacement(indent)).tail
    ensures s == front + (if matched then r.Block(indent) else r.open) + tail && |tail| < |s|
    ensures Renamed(r, s) == front + (if matched then r.replacement(indent) else r.open) + Renamed(r, tail)
    ensures !matched ==> !StartsWith(tail, r.rest(indent))
  {
    var at := Find(s, r.open).value;
    front := s[..at];
    indent := LinePrefix(front);
    matched := StartsWith(s[at..], r.Block(indent));
    var round := RoundAt(s, at, r.open, r.Block(indent), r.replacement(indent));
    tail := round.tail;
    RenamedAt(r, s, at, indent, round);
    PiecesOfRound(s, at, r.open, r.rest(indent), r.replacement(indent));
  }

  lemma PiecesOfRound(s: string, at: nat, open: string, rest: string, replacement: string)
    requires Occurs(s, open, at) && |open| > 0
    ensures var round := RoundAt(s, at, open, open + rest, replacement);
            var matched := StartsWith(s[at..], open + rest);
            && s == s[..at] + (if matched then open + rest else open) + round.tail
            && round.copied + Output(round.rewritten) == s[..at] + (if matched then replacement else open)
            && (!matched ==> !StartsWith(round.tail, rest))
  {
    var n := at + |open|;
    assert s[..n] == s[..at] + open;
    RoundCovers(s, at, open, open + rest, replacement);
    assert s[at..] == open + s[n..];
    StartTogether(open, s[n..], rest);
    if StartsWith(s[at..], open + rest) {
      assert s[at..][..|open + rest|] == open + rest;
    } else {
      assert s[..n] + "" == s[..n];
    }
  }

  lemma StartTogether(a: string, s: string, pattern: string)
    ensures StartsWith(a + s, a + pattern) <==> StartsWith(s, pattern)
  {
    if |pattern| <= |s| {
      assert (a + s)[..|a + pattern|] == a + s[..|pattern|];
      assert (a + s[..|pattern|])[|a|..] == s[..|pattern|] && (a + pattern)[|a|..] == pattern;
    }
  }

  /** In a clean text the indentation is quiet and the tail's openings start on later lines. */
  lemma TailOfClean(r: Rename, s: string, front: string, indent: string, matched: bool, head: string, tail: string)
    requires Shaped(r) && Clean(r.open, s)
    requires Find(s, r.open) == Some(|front|) && |front| <= |s| && front == s[..|front|] && indent == LinePrefix(front)
    requires head == front + (if matched then r.Block(indent) else r.open) && s == head + tail
    ensures IsQuiet(indent) && NoneBefore(s, r.open, |front|) && Inner(r.open, tail)
    ensures forall i: nat :: Occurs(tail, r.open, i) ==> LinePrefix(s[..|head| + i]) == LinePrefix(tail[..i])
  {
    QuietIndent(r, s, front);
    HeadEnds(r, front, indent, matched);
    TailIsInner(r.open, head, tail);
  }

  lemma HeadEnds(r: Rename, front: string, indent: string, matched: bool)
    requires Shaped(r) && IsQuiet(indent)
    ensures var head := front + (if matched then r.Block(indent) else r.open);
            head != "" && IsBrace(head[|head| - 1])
  {
    EndsLike(front, r.open);
    if matched {
      EndsLike(r.open, r.rest(indent));
      EndsLike(front, r.Block(indent));
    }
  }

  lemma EndsLike(front: string, s: string)
    requires s != ""
    ensures (front + s)[|front + s| - 1] == s[|s| - 1]
  {}

  /** Two texts that share a front and `pub ` start with the same text of the shape a block continues with. */
  lemma SharedStart(front: string, a: string, b: string, rest: string)
    requires RestShape(rest) && |a| >= 4 && |b| >= 4 && a[..4] == b[..4] && a[2] == 'b' && a[3] == ' '
    ensures StartsWith(front + a, rest) ==> StartsWith(front + b, rest)
  {
    var n := |front| + 4;
    assert (front + a)[..n] == front + a[..4] && (front + b)[..n] == front + b[..4];
    if StartsWith(front + a, rest) {
      assert forall i :: 0 <= i < |rest| ==> rest[i] == (front + a)[i];
      assert (front + a)[|front| + 2] == 'b' && (front + a)[|front| + 3] == ' ';
      assert |rest| <= n;
      assert (front + a)[..|rest|] == (front + a)[..n][..|rest|];
      assert (front + b)[..|rest|] == (front + b)[..n][..|rest|];
    }
  }

  /** Rewriting cannot complete a block: what follows an opening starts like a block only if it did before. */
  lemma NoBlockArises(r: Rename, s: string, rest: string)
    requires Shaped(r) && Clean(r.open, s) && RestShape(rest) && StartsWith(Renamed(r, s), rest)
    ensures StartsWith(s, rest)
  {
    if Find(s, r.open).None? {
      RenamedNone(r, s);
    } else {
      var front, before, after := SharedFront(r, s);
      SharedStart(front, after, before, rest);
    }
  }

  lemma SharedFront(r: Rename, s: string) returns (front: string, before: string, after: string)
    requires Shaped(r) && Clean(r.open, s) && Find(s, r.open).Some?
    ensures s == front + before && Renamed(r, s) == front + after
    ensures |before| >= 4 && |after| >= 4 && after[..4] == before[..4] && after[2] == 'b' && after[3] == ' '
  {
    var indent, matched, tail;
    front, indent, matched, tail := RoundByPieces(r, s);
    QuietIndent(r, s, front);
    PubStarts(r, indent, matched, tail);
    before := (if matched then r.Block(indent) else r.open) + tail;
    after := (if matched then r.replacement(indent) else r.open) + Renamed(r, tail);
    Associates(front, if matched then r.Block(indent) else r.open, tail);
    Associates(front, if matched then r.replacement(indent) else r.open, Renamed(r, tail));
  }

  lemma QuietIndent(r: Rename, s: string, front: string)
    requires Clean(r.open, s) && Find(s, r.open) == Some(|front|) && |front| <= |s| && front == s[..|front|]
    ensures IsQuiet(LinePrefix(front))
  {
    assert Occurs(s, r.open, |front|);
  }

  lemma PubStarts(r: Rename, indent: string, matched: bool, tail: string)
    requires Shaped(r) && IsQuiet(indent)
    ensures var before := (if matched then r.Block(indent) else r.open) + tail;
            var after := (if matched then r.replacement(indent) else r.open) + Renamed(r, tail);
            && |before| >= 4 && |after| >= 4 && after[..4] == before[..4] && after[2] == 'b' && after[3] == ' '
  {
  }

  lemma InnerBehind(open: string, head: string, s: string)
    requires Inner(open, s) && NoneBefore(head + s, open, |head|)
    ensures Inner(open, head + s)
  {
    forall i: nat | Occurs(head + s, open, i)
      ensures '\n' in (head + s)[..i] && IsQuiet(LinePrefix((head + s)[..i]))
    {
      InnerLine(open, head, s, i);
    }
  }

  lemma InnerLine(open: string, head: string, s: string, i: nat)
    requires Inner(open, s) && Occurs(head + s, open, i) && i >= |head|
    ensures '\n' in (head + s)[..i] && IsQuiet(LinePrefix((head + s)[..i]))
  {
    OccursAfter(head, s, open, i);
    var t := s[..i - |head|];
    assert (head + s)[..i] == head + t;
    LinePrefixOfTail(head, t);
  }

  /** The matching case of a second run. */
  lemma ReplacedIsSettled(r: Rename, front: string, indent: string, settled: string, s: string)
    requires Shaped(r) && IsQuiet(indent)
    requires |front| <= |s| && s[..|front|] == front && NoneBefore(s, r.open, |front|)
    requires Renamed(r, settled) == settled && Inner(r.open, settled)
    ensures var w := front + r.replacement(indent) + settled;
            Renamed(r, w) == w && Inner(r.open, w)
  {
    var head := front + r.replacement(indent);
    NoOpeningInReplacement(front, r.replacement(indent), settled, r.open, s);
    FrontIsCopied(r, head, settled);
    InnerBehind(r.open, head, settled);
  }

  /** The other case: an opening that starts no block is passed again. */
  lemma PassedIsSettled(r: Rename, front: string, settled: string, s: string)
    requires Shaped(r) && |front| <= |s| && s[..|front|] == front && NoneBefore(s, r.open, |front|)
    requires Renamed(r, settled) == settled && !StartsWith(settled, r.rest(LinePrefix(front)))
    ensures Renamed(r, front + r.open + settled) == front + r.open + settled
  {
    FoundAgain(front, r.open, settled, s);
    NotABlock(r, front, settled);
    PassedText(r, front + r.open + settled, front, settled);
  }

  lemma FoundAgain(front: string, open: string, tail: string, s: string)
    requires OpeningShape(open) && |front| <= |s| && s[..|front|] == front && NoneBefore(s, open, |front|)
    ensures Find(front + open + tail, open) == Some(|front|)
  {
    OneOpening(front, open, tail, s);
    FirstIs(front + open + tail, open, |front|);
  }

  lemma OneOpening(front: string, open: string, tail: string, s: string)
    requires OpeningShape(open) && |front| <= |s| && s[..|front|] == front && NoneBefore(s, open, |front|)
    ensures forall i :: i < |front + open| && Occurs(front + open + tail, open, i) ==> i == |front|
    ensures Occurs(front + open + tail, open, |front|)
  {
    assert front + open + "" == front + open;
    OneOpeningInBlock(front, open, "", tail, s);
  }

  lemma NotABlock(r: Rename, front: string, settled: string)
    requires !StartsWith(settled, r.rest(LinePrefix(front)))
    ensures !StartsWith((front + r.open + settled)[|front|..], r.Block(LinePrefix(front)))
  {
    StartsBehind(front, r.open, settled, r.rest(LinePrefix(front)));
  }

  lemma StartsBehind(front: string, open: string, tail: string, rest: string)
    ensures StartsWith((front + open + tail)[|front|..], open + rest) <==> StartsWith(tail, rest)
  {
    assert (front + open + tail)[|front|..] == open + tail;
    StartTogether(open, tail, rest);
  }

  lemma PassedText(r: Rename, w: string, front: string, settled: string)
    requires Renamed(r, settled) == settled && w == front + r.open + settled && Find(w, r.open) == Some(|front|)
    requires !StartsWith(w[|front|..], r.Block(LinePrefix(front)))
    ensures Renamed(r, w) == w
  {
    assert w[..|front|] == front;
    PassedRound(w, front, r.open, r.Block(LinePrefix(front)), r.replacement(LinePrefix(front)), settled);
    RenamedAt(r, w, |front|, LinePrefix(front), Round(front + r.open, [], settled));
    Unit(front + r.open);
  }

  lemma Unit(s: string)
    ensures s + "" == s
  {}

  lemma FirstIs(s: string, open: string, at: nat)
    requires Occurs(s, open, at) && NoneBefore(s, open, at)
    ensures Find(s, open) == Some(at)
  {}

  lemma PassedRound(w: string, front: string, open: string, block: string, replacement: string, settled: string)
    requires w == front + open + settled && open != "" && block != "" && !StartsWith(w[|front|..], block)
    ensures RoundAt(w, |front|, open, block, replacement) == Round(front + open, [], settled)
  {
    assert w[..|front + open|] == front + open && w[|front + open|..] == settled;
  }

  lemma PassedIsClean(open: string, front: string, settled: string, s: string)
    requires OpeningShape(open) && |front| <= |s| && s[..|front|] == front && NoneBefore(s, open, |front|)
    requires IsQuiet(LinePrefix(front)) && Inner(open, settled)
    ensures Clean(open, front + open + settled)
  {
    OneOpening(front, open, settled, s);
    forall i: nat | Occurs(front + open + settled, open, i) ensures IsQuiet(LinePrefix((front + open + settled)[..i])) {
      PassedLine(open, front, settled, i);
    }
  }

  lemma PassedIsInner(open: string, front: string, settled: string, s: string)
    requires OpeningShape(open) && |front| <= |s| && s[..|front|] == front && NoneBefore(s, open, |front|)
    requires IsQuiet(LinePrefix(front)) && '\n' in front && Inner(open, settled)
    ensures Inner(open, front + open + settled)
  {
    OneOpening(front, open, settled, s);
    forall i: nat | Occurs(front + open + settled, open, i)
      ensures '\n' in (front + open + settled)[..i] && IsQuiet(LinePrefix((front + open + settled)[..i]))
    {
      PassedLine(open, front, settled, i);
    }
  }

  lemma PassedLine(open: string, front: string, settled: string, i: nat)
    requires IsQuiet(LinePrefix(front)) && Inner(open, settled) && Occurs(front + open + settled, open, i)
    requires i < |front + open| ==> i == |front|
    ensures var before := (front + open + settled)[..i];
            IsQuiet(LinePrefix(before)) && ('\n' in front ==> '\n' in before)
  {
    if i < |front + open| {
      assert (front + open + settled)[..i] == front;
    } else {
      InnerLine(open, front + open, settled, i);
    }
  }

  /**
   Rewriting a text whose openings stand alone on their lines leaves such a text, and rewriting it again
   changes nothing.
   */
  lemma {:induction false} RunTwice(r: Rename, s: string)
    requires Shaped(r) && Clean(r.open, s)
    ensures Renamed(r, Renamed(r, s)) == Renamed(r, s)
    ensures Clean(r.open, Renamed(r, s)) && (Inner(r.open, s) ==> Inner(r.open, Renamed(r, s)))
    decreases |s|
  {
    if Find(s, r.open).None? {
      RenamedNone(r, s);
    } else {
      var front, indent, matched, tail := RoundByPieces(r, s);
      TailOfClean(r, s, front, indent, matched, front + (if matched then r.Block(indent) else r.open), tail);
      RunTwice(r, tail);
      if matched {
        ReplacedIsSettled(r, front, indent, Renamed(r, tail), s);
      } else {
        PassedAgain(r, s, front, tail);
      }
    }
  }

  lemma PassedAgain(r: Rename, s: string, front: string, tail: string)
    requires Shaped(r) && Clean(r.open, s) && Find(s, r.open) == Some(|front|)
    requires |front| <= |s| && s[..|front|] == front && Inner(r.open, tail)
    requires !StartsWith(tail, r.rest(LinePrefix(front)))
    requires Renamed(r, Renamed(r, tail)) == Renamed(r, tail) && Inner(r.open, Renamed(r, tail))
    ensures var w := front + r.open + Renamed(r, tail);
            Renamed(r, w) == w && Clean(r.open, w) && (Inner(r.open, s) ==> Inner(r.open, w))
  {
    QuietIndent(r, s, front);
    if StartsWith(Renamed(r, tail), r.rest(LinePrefix(front))) {
      NoBlockArises(r, tail, r.rest(LinePrefix(front)));
    }
    PassedIsSettled(r, front, Renamed(r, tail), s);
    PassedIsClean(r.open, front, Renamed(r, tail), s);
    if Inner(r.open, s) {
      BreakBefore(r.open, s, |front|);
      PassedIsInner(r.open, front, Renamed(r, tail), s);
    }
  }

  // ---- which blocks are rewritten ----

  /** The stretch `x` begins at this place of the input and is a rewritten block. */
  predicate RewrittenAt(segments: seq<Segment>, at: int, x: Segment) {
    RewrittenFrom(segments, 0, at, x)
  }

  /** The same for the stretches from the `k`-th on, counting from there. */
  predicate RewrittenFrom(segments: seq<Segment>, k: nat, at: int, x: Segment)
    decreases |segments| - k
  {
    k < |segments|
    && ((segments[k].Rewrite? && at == 0 && x == segments[k])
        || RewrittenFrom(segments, k + 1, at - |segments[k].Input()|, x))
  }

  /** A block of this indentation and what replaces it. */
  function BlockRewrite(r: Rename, indent: string): Segment {
    Rewrite(r.Block(indent), r.replacement(indent))
  }

  /** In the whole text, an opening with its block in full, indented as its line is. */
  predicate FullBlockAt(r: Rename, s: string, at: int) {
    Occurs(s, r.open, at) && StartsWith(s[at..], r.Block(LinePrefix(s[..at])))
  }

  /** A full block and what it becomes. */
  predicate FullBlockOf(r: Rename, s: string, at: int, x: Segment) {
    FullBlockAt(r, s, at) && x == BlockRewrite(r, LinePrefix(s[..at]))
  }

  lemma {:induction false} RewrittenInside(segments: seq<Segment>, k: nat, at: int, x: Segment)
    requires RewrittenFrom(segments, k, at, x)
    ensures at >= 0
    decreases |segments| - k
  {
    if !(segments[k].Rewrite? && at == 0 && x == segments[k]) {
      RewrittenInside(segments, k + 1, at - |segments[k].Input()|, x);
    }
  }

  lemma OneInput(x: Segment)
    ensures Input([x]) == x.Input()
  {
    assert [x][1..] == [] && x.Input() + "" == x.Input();
  }

  lemma {:induction false} RewrittenShift(first: Segment, rest: seq<Segment>, k: nat, at: int, x: Segment)
    ensures RewrittenFrom([first] + rest, k + 1, at, x) <==> RewrittenFrom(rest, k, at, x)
    decreases |rest| - k
  {
    if k < |rest| {
      assert ([first] + rest)[k + 1] == rest[k];
      RewrittenShift(first, rest, k + 1, at - |rest[k].Input()|, x);
    }
  }

  lemma RewrittenNext(first: Segment, rest: seq<Segment>, at: int, x: Segment)
    ensures RewrittenAt([first] + rest, at, x)
            <==> ((first.Rewrite? && at == 0 && x == first) || RewrittenAt(rest, at - |first.Input()|, x))
  {
    RewrittenShift(first, rest, 0, at - |first.Input()|, x);
  }

  lemma RewrittenByRound(round: Round, rest: seq<Segment>, at: int, x: Segment)
    requires round.Round? && |round.rewritten| <= 1 && forall x :: x in round.rewritten ==> x.Rewrite?
    ensures RewrittenAt([Copy(round.copied)] + round.rewritten + rest, at, x)
            <==> (round.rewritten == [x] && at == |round.copied|)
                 || RewrittenAt(rest, at - |round.copied| - |Input(round.rewritten)|, x)
  {
    if round.rewritten == [] {
      assert [Copy(round.copied)] + [] + rest == [Copy(round.copied)] + rest;
      RewrittenNext(Copy(round.copied), rest, at, x);
    } else {
      var first := round.rewritten[0];
      assert first in round.rewritten && round.rewritten == [first];
      OneInput(first);
      assert [Copy(round.copied)] + [first] + rest == [Copy(round.copied)] + ([first] + rest);
      RewrittenNext(Copy(round.copied), [first] + rest, at, x);
      RewrittenNext(first, rest, at - |round.copied|, x);
    }
  }

  /** How long the pieces of a round are. */
  lemma RoundLengths(s: string, at: nat, open: string, block: string, replacement: string)
    requires at + |open| <= |s| && |open| > 0 && |block| > 0
    ensures var round := RoundAt(s, at, open, block, replacement);
            && (forall x :: x in round.rewritten ==> x.Rewrite?)
            && round.rewritten == (if StartsWith(s[at..], block) then [Rewrite(block, replacement)] else [])
            && (round.rewritten != [] ==> |round.copied| == at)
            && |round.copied| + |Input(round.rewritten)|
               == at + (if StartsWith(s[at..], block) then |block| else |open|)
  {
    if StartsWith(s[at..], block) {
      assert [Rewrite(block, replacement)][1..] == [];
      assert block + "" == block;
    }
  }

  /** Behind the round, a full block of the text is one of the tail. */
  lemma TailPlaces(r: Rename, s: string, head: string, tail: string, at: int)
    requires s == head + tail && at >= |head|
    requires Occurs(tail, r.open, at - |head|) ==> LinePrefix(s[..at]) == LinePrefix(tail[..at - |head|])
    ensures FullBlockAt(r, s, at) <==> FullBlockAt(r, tail, at - |head|)
  {
    OccursAfter(head, tail, r.open, at);
    if Occurs(tail, r.open, at - |head|) {
      DropFront(head, tail, at);
    }
  }

  lemma DropFront(head: string, tail: string, at: nat)
    requires |head| <= at <= |head + tail|
    ensures (head + tail)[at..] == tail[at - |head|..]
  {}

  /** Up to the end of the round there is at most the one opening. */
  lemma HeadOpening(s: string, open: string, rest: string, front: string, matched: bool, tail: string, at: int)
    requires OpeningShape(open) && RestShape(rest) && Find(s, open) == Some(|front|)
    requires s == front + (if matched then open + rest else open) + tail && Occurs(s, open, at)
    ensures at < |front + (if matched then open + rest else open)| ==> at == |front|
  {
    assert s[..|front|] == front;
    if matched {
      assert front + (open + rest) == front + open + rest;
      OneOpeningInBlock(front, open, rest, tail, s);
    } else {
      OneOpening(front, open, tail, s);
    }
  }

  lemma HeadPlaces(r: Rename, s: string, front: string, matched: bool, tail: string, at: int)
    requires Shaped(r) && IsQuiet(LinePrefix(front)) && Find(s, r.open) == Some(|front|)
    requires |front| <= |s| && front == s[..|front|] && matched == StartsWith(s[|front|..], r.Block(LinePrefix(front)))
    requires s == front + (if matched then r.Block(LinePrefix(front)) else r.open) + tail
    ensures at < |front + (if matched then r.Block(LinePrefix(front)) else r.open)| ==>
              (FullBlockAt(r, s, at) <==> matched && at == |front|)
  {
    if FullBlockAt(r, s, at) {
      HeadOpening(s, r.open, r.rest(LinePrefix(front)), front, matched, tail, at);
    }
  }

  /** The first round's places, and the rest of the stretches. */
  lemma RewrittenFirst(all: seq<Segment>, round: Round, rest: seq<Segment>, matched: bool, first: Segment,
                       offset: nat, n: nat, at: int, x: Segment)
    requires round.Round? && |round.rewritten| <= 1 && (forall x :: x in round.rewritten ==> x.Rewrite?)
    requires all == [Copy(round.copied)] + round.rewritten + rest
    requires round.rewritten == if matched then [first] else []
    requires (matched ==> |round.copied| == offset) && |round.copied| + |Input(round.rewritten)| == n
    ensures RewrittenAt(all, at, x) <==> (matched && at == offset && x == first) || RewrittenAt(rest, at - n, x)
  {
    RewrittenByRound(round, rest, at, x);
  }

  /** One round reduces the question to its tail. */
  lemma RewrittenByPieces(r: Rename, s: string, front: string, indent: string, matched: bool, tail: string, n: nat, at: int,
                          x: Segment)
    requires Find(s, r.open) == Some(|front|) && |front| <= |s| && front == s[..|front|] && indent == LinePrefix(front)
    requires matched == StartsWith(s[|front|..], r.Block(indent))
    requires tail == RoundAt(s, |front|, r.open, r.Block(indent), r.replacement(indent)).tail
    requires n == |front| + (if matched then |r.Block(indent)| else |r.open|)
    ensures RewrittenAt(Segments(r, s), at, x)
            <==> (matched && at == |front| && x == BlockRewrite(r, indent)) || RewrittenAt(Segments(r, tail), at - n, x)
  {
    var round := RoundAt(s, |front|, r.open, r.Block(indent), r.replacement(indent));
    RoundLengths(s, |front|, r.open, r.Block(indent), r.replacement(indent));
    SegmentsAt(r, s, |front|, indent);
    RewrittenFirst(Segments(r, s), round, Segments(r, tail), matched, BlockRewrite(r, indent), |front|, n, at, x);
  }

  /**
   In a clean text the blocks rewritten are exactly those that match in full, wherever they stand, and
   each becomes the replacement of its line's indentation.
   */
  lemma {:induction false} RewritesExactlyFullBlocks(r: Rename, s: string, at: int, x: Segment)
    requires Shaped(r) && Clean(r.open, s)
    ensures RewrittenAt(Segments(r, s), at, x) <==> FullBlockOf(r, s, at, x)
    decreases |s|
  {
    if Find(s, r.open).None? {
      NothingRewritten(r, s, at, x);
    } else {
      var front, indent, matched, tail := RoundByPieces(r, s);
      var head := front + (if matched then r.Block(indent) else r.open);
      RewrittenByPieces(r, s, front, indent, matched, tail, |head|, at, x);
      FullByPieces(r, s, front, indent, matched, head, tail, at, x);
      if at < |head| {
        NotBehind(r, tail, at - |head|, x);
      } else {
        RewritesExactlyFullBlocks(r, tail, at - |head|, x);
      }
    }
  }

  /** Full blocks behind the first round of a clean text are those of its tail. */
  lemma FullByPieces(r: Rename, s: string, front: string, indent: string, matched: bool, head: string, tail: string, at: int,
                     x: Segment)
    requires Shaped(r) && Clean(r.open, s) && Find(s, r.open) == Some(|front|) && |front| <= |s|
    requires front == s[..|front|] && indent == LinePrefix(front) && s == head + tail
    requires head == front + (if matched then r.Block(indent) else r.open)
    requires matched == StartsWith(s[|front|..], r.Block(indent))
    ensures Clean(r.open, tail)
    ensures at >= |head| ==> (FullBlockOf(r, s, at, x) <==> FullBlockOf(r, tail, at - |head|, x))
    ensures at < |head| ==> (FullBlockOf(r, s, at, x) <==> matched && at == |front| && x == BlockRewrite(r, indent))
  {
    TailOfClean(r, s, front, indent, matched, head, tail);
    InnerIsClean(r.open, tail);
    if at >= |head| {
      FullBehind(r, s, head, tail, at, x);
    } else {
      HeadPlaces(r, s, front, matched, tail, at);
    }
  }

  lemma NothingRewritten(r: Rename, s: string, at: int, x: Segment)
    requires Find(s, r.open).None?
    ensures !RewrittenAt(Segments(r, s), at, x) && !FullBlockAt(r, s, at)
  {
    RewrittenNext(Copy(s), [], at, x);
    assert [Copy(s)] + [] == [Copy(s)];
  }

  lemma InnerIsClean(open: string, s: string)
    requires Inner(open, s)
    ensures Clean(open, s)
  {}

  lemma FullBehind(r: Rename, s: string, head: string, tail: string, at: int, x: Segment)
    requires s == head + tail && at >= |head|
    requires forall i: nat :: Occurs(tail, r.open, i) ==> LinePrefix(s[..|head| + i]) == LinePrefix(tail[..i])
    ensures FullBlockOf(r, s, at, x) <==> FullBlockOf(r, tail, at - |head|, x)
  {
    var i: nat := at - |head|;
    assert |head| + i == at;
    if Occurs(tail, r.open, i) {
      assert LinePrefix(s[..|head| + i]) == LinePrefix(tail[..i]);
    }
    TailPlaces(r, s, head, tail, at);
  }

  lemma NotBehind(r: Rename, tail: string, at: int, x: Segment)
    ensures at < 0 ==> !RewrittenAt(Segments(r, tail), at, x)
  {
    if RewrittenAt(Segments(r, tail), at, x) {
      RewrittenInside(Segments(r, tail), 0, at, x);
    }
  }

  // ---- text of any kind ----

  /** The loop stops here: where a copied stretch begins, behind a rewritten block or a passed opening. */
  predicate StopsAt(segments: seq<Segment>, stop: int) {
    StopsFrom(segments, 0, stop)
  }

  predicate StopsFrom(segments: seq<Segment>, k: nat, stop: int)
    decreases |segments| - k
  {
    k < |segments|
    && ((segments[k].Copy? && stop == 0) || StopsFrom(segments, k + 1, stop - |segments[k].Input()|))
  }

  /** From this stop the next opening is at `at`, and a full block indented as the text between them says. */
  predicate RewritesFrom(r: Rename, s: string, stop: int, at: int, x: Segment) {
    && 0 <= stop <= at <= |s|
    && Find(s[stop..], r.open) == Some(at - stop)
    && var indent := LinePrefix(s[stop..at]);
       StartsWith(s[at..], r.Block(indent)) && x == BlockRewrite(r, indent)
  }

  lemma RewritesBehind(r: Rename, s: string, n: nat, stop: int, at: int, x: Segment)
    requires n <= |s| && stop >= n
    ensures RewritesFrom(r, s, stop, at, x) <==> RewritesFrom(r, s[n..], stop - n, at - n, x)
  {
    if stop <= at <= |s| {
      assert s[n..][stop - n..] == s[stop..];
      assert s[n..][at - n..] == s[at..];
      assert s[n..][stop - n..at - n] == s[stop..at];
    }
  }

  lemma {:induction false} StopsAreInside(segments: seq<Segment>, k: nat, stop: int)
    requires StopsFrom(segments, k, stop)
    ensures stop >= 0
    decreases |segments| - k
  {
    if !(segments[k].Copy? && stop == 0) {
      StopsAreInside(segments, k + 1, stop - |segments[k].Input()|);
    }
  }

  /** Every stop but the first is one of the tail. */
  lemma {:induction false} StopsShift(first: Segment, rest: seq<Segment>, k: nat, stop: int)
    ensures StopsFrom([first] + rest, k + 1, stop) <==> StopsFrom(rest, k, stop)
    decreases |rest| - k
  {
    if k < |rest| {
      assert ([first] + rest)[k + 1] == rest[k];
      StopsShift(first, rest, k + 1, stop - |rest[k].Input()|);
    }
  }

  lemma StopsNext(first: Segment, rest: seq<Segment>, stop: int)
    ensures StopsAt([first] + rest, stop) <==> ((first.Copy? && stop == 0) || StopsAt(rest, stop - |first.Input()|))
  {
    StopsShift(first, rest, 0, stop - |first.Input()|);
  }

  lemma StopsByRound(round: Round, rest: seq<Segment>, stop: int)
    requires round.Round? && |round.rewritten| <= 1 && forall x :: x in round.rewritten ==> x.Rewrite?
    ensures StopsAt([Copy(round.copied)] + round.rewritten + rest, stop)
            <==> stop == 0 || StopsAt(rest, stop - |round.copied| - |Input(round.rewritten)|)
  {
    if round.rewritten == [] {
      assert [Copy(round.copied)] + [] + rest == [Copy(round.copied)] + rest;
      StopsNext(Copy(round.copied), rest, stop);
    } else {
      var first := round.rewritten[0];
      assert first in round.rewritten && round.rewritten == [first];
      OneInput(first);
      assert [Copy(round.copied)] + [first] + rest == [Copy(round.copied)] + ([first] + rest);
      StopsNext(Copy(round.copied), [first] + rest, stop);
      StopsNext(first, rest, stop - |round.copied|);
    }
  }

  /** The first round of the loop, as the stretches say it. */
  lemma RewrittenInRound(r: Rename, s: string, front: string, indent: string, matched: bool, tail: string, n: nat, at: int,
                         x: Segment)
    requires Find(s, r.open) == Some(|front|) && |front| <= |s| && front == s[..|front|] && indent == LinePrefix(front)
    requires matched == StartsWith(s[|front|..], r.Block(indent))
    requires tail == RoundAt(s, |front|, r.open, r.Block(indent), r.replacement(indent)).tail
    requires n == |front| + (if matched then |r.Block(indent)| else |r.open|)
    ensures RewrittenAt(Segments(r, s), at, x) <==> (RewritesFrom(r, s, 0, at, x) || RewrittenAt(Segments(r, tail), at - n, x))
  {
    RewrittenByPieces(r, s, front, indent, matched, tail, n, at, x);
    FromTheStart(r, s, front, indent, at, x);
  }

  lemma StopsFirst(all: seq<Segment>, round: Round, rest: seq<Segment>, n: nat, stop: int)
    requires round.Round? && |round.rewritten| <= 1 && (forall x :: x in round.rewritten ==> x.Rewrite?)
    requires all == [Copy(round.copied)] + round.rewritten + rest
    requires |round.copied| + |Input(round.rewritten)| == n
    ensures StopsAt(all, stop) <==> (stop == 0 || StopsAt(rest, stop - n))
  {
    StopsByRound(round, rest, stop);
  }

  lemma StopsInRound(r: Rename, s: string, front: string, indent: string, matched: bool, tail: string, n: nat, stop: int)
    requires Find(s, r.open) == Some(|front|) && |front| <= |s| && front == s[..|front|] && indent == LinePrefix(front)
    requires matched == StartsWith(s[|front|..], r.Block(indent))
    requires tail == RoundAt(s, |front|, r.open, r.Block(indent), r.replacement(indent)).tail
    requires n == |front| + (if matched then |r.Block(indent)| else |r.open|)
    ensures StopsAt(Segments(r, s), stop) <==> (stop == 0 || StopsAt(Segments(r, tail), stop - n))
  {
    var round := RoundAt(s, |front|, r.open, r.Block(indent), r.replacement(indent));
    RoundLengths(s, |front|, r.open, r.Block(indent), r.replacement(indent));
    SegmentsAt(r, s, |front|, indent);
    StopsFirst(Segments(r, s), round, Segments(r, tail), n, stop);
  }

  lemma FirstRound(r: Rename, s: string) returns (n: nat)
    requires Find(s, r.open).Some?
    ensures 0 < n <= |s|
    ensures forall stop :: StopsAt(Segments(r, s), stop) <==> (stop == 0 || StopsAt(Segments(r, s[n..]), stop - n))
    ensures forall at, x :: RewrittenAt(Segments(r, s), at, x)
                            <==> (RewritesFrom(r, s, 0, at, x) || RewrittenAt(Segments(r, s[n..]), at - n, x))
  {
    var front := s[..Find(s, r.open).value];
    var indent := LinePrefix(front);
    var tail := RoundAt(s, |front|, r.open, r.Block(indent), r.replacement(indent)).tail;
    n := TailOfRound(s, |front|, r.open, r.Block(indent), r.replacement(indent));
    var matched := StartsWith(s[|front|..], r.Block(indent));
    forall at, x ensures RewrittenAt(Segments(r, s), at, x)
                         <==> (RewritesFrom(r, s, 0, at, x) || RewrittenAt(Segments(r, tail), at - n, x))
    {
      RewrittenInRound(r, s, front, indent, matched, tail, n, at, x);
    }
    forall stop ensures StopsAt(Segments(r, s), stop) <==> (stop == 0 || StopsAt(Segments(r, tail), stop - n)) {
      StopsInRound(r, s, front, indent, matched, tail, n, stop);
    }
  }

  lemma TailOfRound(s: string, at: nat, open: string, block: string, replacement: string) returns (n: nat)
    requires at + |open| <= |s| && |open| > 0 && |block| > 0
    ensures 0 < n <= |s| && s[n..] == RoundAt(s, at, open, block, replacement).tail
    ensures n == at + (if StartsWith(s[at..], block) then |block| else |open|)
  {
    n := at + (if StartsWith(s[at..], block) then |block| else |open|);
  }

  lemma FromTheStart(r: Rename, s: string, front: string, indent: string, at: int, x: Segment)
    requires Find(s, r.open) == Some(|front|) && |front| <= |s| && front == s[..|front|] && indent == LinePrefix(front)
    ensures RewritesFrom(r, s, 0, at, x)
            <==> StartsWith(s[|front|..], r.Block(indent)) && at == |front| && x == BlockRewrite(r, indent)
  {
    assert s[0..] == s && s[0..|front|] == front;
  }

  /** A way of cutting texts into stretches that works round by round as the loop does. */
  ghost predicate GoesRoundByRound(r: Rename, cut: string -> seq<Segment>) {
    forall s :: GoesOn(r, cut, s)
  }

  ghost predicate GoesOn(r: Rename, cut: string -> seq<Segment>, s: string) {
    if Find(s, r.open).None? then forall at, x :: !RewrittenAt(cut(s), at, x)
    else exists n :: NextRoundAt(r, cut, s, n)
  }

  ghost predicate NextRoundAt(r: Rename, cut: string -> seq<Segment>, s: string, n: nat) {
    && 0 < n <= |s|
    && (forall stop :: StopsAt(cut(s), stop) <==> (stop == 0 || StopsAt(cut(s[n..]), stop - n)))
    && (forall at, x :: RewrittenAt(cut(s), at, x)
                        <==> (RewritesFrom(r, s, 0, at, x) || RewrittenAt(cut(s[n..]), at - n, x)))
  }

  lemma SegmentsGoRoundByRound(r: Rename)
    ensures GoesRoundByRound(r, (s: string) => Segments(r, s))
  {
    var cut := (s: string) => Segments(r, s);
    forall s ensures GoesOn(r, cut, s) {
      if Find(s, r.open).None? {
        forall at, x ensures !RewrittenAt(cut(s), at, x) {
          NothingRewritten(r, s, at, x);
        }
      } else {
        var n := FirstRound(r, s);
        assert NextRoundAt(r, cut, s, n);
      }
    }
  }

  /** A rewritten place has its stop. */
  lemma {:induction false} RewriteHasStop(r: Rename, cut: string -> seq<Segment>, s: string, at: int, x: Segment)
    returns (stop: int)
    requires GoesRoundByRound(r, cut) && RewrittenAt(cut(s), at, x)
    ensures StopsAt(cut(s), stop) && RewritesFrom(r, s, stop, at, x)
    decreases |s|
  {
    assert GoesOn(r, cut, s);
    var n: nat :| NextRoundAt(r, cut, s, n);
    if RewritesFrom(r, s, 0, at, x) {
      stop := 0;
    } else {
      var below := RewriteHasStop(r, cut, s[n..], at - n, x);
      stop := StopMovesUp(r, s, n, cut(s[n..]), below, at, x);
    }
  }

  lemma StopMovesUp(r: Rename, s: string, n: nat, rest: seq<Segment>, below: int, at: int, x: Segment) returns (stop: int)
    requires n <= |s| && StopsAt(rest, below) && RewritesFrom(r, s[n..], below, at - n, x)
    ensures stop - n == below && RewritesFrom(r, s, stop, at, x)
  {
    StopsAreInside(rest, 0, below);
    stop := below + n;
    RewritesBehind(r, s, n, stop, at, x);
  }

  lemma StopMovesDown(r: Rename, s: string, n: nat, rest: seq<Segment>, stop: int, at: int, x: Segment)
    requires n <= |s| && StopsAt(rest, stop - n) && RewritesFrom(r, s, stop, at, x)
    ensures RewritesFrom(r, s[n..], stop - n, at - n, x)
  {
    StopsAreInside(rest, 0, stop - n);
    RewritesBehind(r, s, n, stop, at, x);
  }

  lemma OpeningAfterStop(r: Rename, s: string, stop: int, at: int, x: Segment)
    requires RewritesFrom(r, s, stop, at, x)
    ensures Find(s, r.open).Some?
  {
    OccursAfter(s[..stop], s[stop..], r.open, at);
    assert s[..stop] + s[stop..] == s;
    assert Occurs(s, r.open, at);
  }

  /** And a stop that sees a full block rewrites it. */
  lemma {:induction false} StopRewrites(r: Rename, cut: string -> seq<Segment>, s: string, stop: int, at: int, x: Segment)
    requires GoesRoundByRound(r, cut) && StopsAt(cut(s), stop) && RewritesFrom(r, s, stop, at, x)
    ensures RewrittenAt(cut(s), at, x)
    decreases |s|
  {
    var n := RoundBelow(r, cut, s, stop, at, x);
    if stop != 0 {
      StopRewrites(r, cut, s[n..], stop - n, at - n, x);
    }
  }

  lemma RoundBelow(r: Rename, cut: string -> seq<Segment>, s: string, stop: int, at: int, x: Segment) returns (n: nat)
    requires GoesRoundByRound(r, cut) && StopsAt(cut(s), stop) && RewritesFrom(r, s, stop, at, x)
    ensures 0 < n <= |s|
    ensures if stop == 0 then RewrittenAt(cut(s), at, x)
            else StopsAt(cut(s[n..]), stop - n) && RewritesFrom(r, s[n..], stop - n, at - n, x)
                 && (RewrittenAt(cut(s[n..]), at - n, x) ==> RewrittenAt(cut(s), at, x))
  {
    OpeningAfterStop(r, s, stop, at, x);
    assert GoesOn(r, cut, s);
    n :| NextRoundAt(r, cut, s, n);
    if stop != 0 {
      StopMovesDown(r, s, n, cut(s[n..]), stop, at, x);
    }
  }

  /** In any text at all the indentation that counts is that of the line since the last stop. */
  lemma RewritesFromLastStop(r: Rename, s: string, at: int, x: Segment)
    ensures RewrittenAt(Segments(r, s), at, x)
            <==> exists stop :: StopsAt(Segments(r, s), stop) && RewritesFrom(r, s, stop, at, x)
  {
    var cut := (s: string) => Segments(r, s);
    SegmentsGoRoundByRound(r);
    if RewrittenAt(cut(s), at, x) {
      var stop := RewriteHasStop(r, cut, s, at, x);
    }
    if stop :| StopsAt(Segments(r, s), stop) && RewritesFrom(r, s, stop, at, x) {
      StopRewrites(r, cut, s, stop, at, x);
    }
  }

  /** For the names of the source's table, a second run of the rename changes nothing. */
  lemma RenameTwiceIsRenameOnce(name: string, file: string, contents: string)
    requires ArePlain(name, file) && Clean(RenameOf(name, file).open, contents)
    ensures var r := RenameOf(name, file);
            Renamed(r, Renamed(r, contents)) == Renamed(r, contents)
  {
    PlainNamesAreShaped(name, file);
    RunTwice(RenameOf(name, file), contents);
  }

  /** A generated module wrapper, as it is found. */
  function Wrapper(name: string, file: string, indent: string): string {
    "pub mod " + name + " {\n" + indent + "    include!(\"" + file + "\");\n" + indent + "}"
  }

  /** The wrapper under its new name, with an alias for the old one. */
  function ApiWrapper(name: string, file: string, indent: string): string {
    "pub mod " + name + "_api {\n" + indent + "    include!(\"" + file + "\");\n" + indent + "}\n"
    + indent + "pub use " + name + "_api as " + name + ";"
  }

  lemma WrapperIs(head: string, brace: string, nl: string, indent: string, a: string, file: string, b: string, end: string)
    ensures (head + brace) + (nl + indent + a + file + b + indent + end)
         == head + (brace + nl) + indent + a + file + b + indent + end
  {
    var x := head + brace;
    Associates(head, brace, nl);
    assert x + (nl + indent) == x + nl + indent;
    assert x + (nl + indent + a) == x + nl + indent + a;
    assert x + (nl + indent + a + file) == x + nl + indent + a + file;
    assert x + (nl + indent + a + file + b) == x + nl + indent + a + file + b;
    assert x + (nl + indent + a + file + b + indent) == x + nl + indent + a + file + b + indent;
  }

  lemma TextsOfARename(name: string, file: string, indent: string)
    ensures RenameOf(name, file).Block(indent) == Wrapper(name, file, indent)
    ensures RenameOf(name, file).replacement(indent) == ApiWrapper(name, file, indent)
  {
    var a, b := "    include!(\"", "\");\n";
    assert " {" + "\n" == " {\n" && "_api {" + "\n" == "_api {\n" && "}" + "\n" == "}\n";
    WrapperIs("pub mod " + name, " {", "\n", indent, a, file, b, "}");
    WrapperIs("pub mod " + name, "_api {", "\n", indent, a, file, b, "}");
    Associates("pub mod " + name + "_api {\n" + indent + a + file + b + indent, "}", "\n");
  }

  /** A block in full starts with the opening. */
  lemma FullBlockStarts(r: Rename, s: string, at: int)
    ensures FullBlockAt(r, s, at) <==> 0 <= at <= |s| && StartsWith(s[at..], r.Block(LinePrefix(s[..at])))
  {
    if 0 <= at <= |s| && StartsWith(s[at..], r.Block(LinePrefix(s[..at]))) {
      var block := r.Block(LinePrefix(s[..at]));
      assert s[at..at + |r.open|] == s[at..][..|r.open|] == block[..|r.open|] == r.open;
    }
  }

  /** The wrapper of a module stands there at its line's indentation, and `x` turns it into the renamed one. */
  predicate IsWrapperAt(name: string, file: string, s: string, at: int, x: Segment) {
    && 0 <= at <= |s|
    && var indent := LinePrefix(s[..at]);
    && StartsWith(s[at..], Wrapper(name, file, indent))
    && x == Rewrite(Wrapper(name, file, indent), ApiWrapper(name, file, indent))
  }

  lemma FullBlockIsWrapper(name: string, file: string, r: Rename, s: string, at: int, x: Segment)
    requires forall indent :: r.Block(indent) == Wrapper(name, file, indent)
    requires forall indent :: r.replacement(indent) == ApiWrapper(name, file, indent)
    ensures FullBlockOf(r, s, at, x) <==> IsWrapperAt(name, file, s, at, x)
  {
    FullBlockStarts(r, s, at);
  }

  /**
   And a place of the input is rewritten exactly when the full wrapper stands there at its line's
   indentation, and it becomes the renamed module at that indentation, with the alias.
   */
  lemma RenamesExactlyFullBlocks(name: string, file: string, contents: string, at: int, x: Segment)
    requires ArePlain(name, file) && Clean(RenameOf(name, file).open, contents)
    ensures RewrittenAt(Segments(RenameOf(name, file), contents), at, x) <==> IsWrapperAt(name, file, contents, at, x)
  {
    var r := RenameOf(name, file);
    PlainNamesAreShaped(name, file);
    RewritesExactlyFullBlocks(r, contents, at, x);
    forall indent ensures r.Block(indent) == Wrapper(name, file, indent) && r.replacement(indent) == ApiWrapper(name, file, indent) {
      TextsOfARename(name, file, indent);
    }
    FullBlockIsWrapper(name, file, r, contents, at, x);
  }
}
