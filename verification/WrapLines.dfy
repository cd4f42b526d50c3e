/**
 The greedy line wrapper (`wrap_joined` in `src/clinic.rs`): short items joined into lines of bounded width,
 with the fewest lines any in-order split could have.
 */
module WrapLines {
  import opened Text

  const SEP := " · "

  // ---- splits of the items into lines ----

  /** The length of the items joined. */
  function Length(items: seq<string>): nat {
    if items == [] then 0
    else if |items| == 1 then |items[0]|
    else Length(items[..|items| - 1]) + 3 + |items[|items| - 1]|
  }

  /** A line that fits, or that one item fills on its own. */
  predicate Fits(line: seq<string>, width: nat) {
    line != [] && (|line| == 1 || Length(line) <= width)
  }

  function Flatten(split: seq<seq<string>>): seq<string> {
    if split == [] then [] else split[0] + Flatten(split[1..])
  }

  ghost predicate IsSplit(split: seq<seq<string>>, items: seq<string>, width: nat) {
    Flatten(split) == items && forall line :: line in split ==> Fits(line, width)
  }

  /** No line could have taken the next line's first item. */
  ghost predicate Greedy(split: seq<seq<string>>, width: nat) {
    forall i, j :: 0 <= i < j == i + 1 < |split| ==> CannotTake(split[i], split[j], width)
  }

  predicate CannotTake(line: seq<string>, next: seq<string>, width: nat) {
    next != [] && Length(line + [next[0]]) > width
  }

  function Rendered(split: seq<seq<string>>): (r: seq<string>)
    ensures |r| == |split|
  {
    seq(|split|, i requires 0 <= i < |split| => Join(split[i], SEP))
  }

  lemma {:induction false} JoinLength(items: seq<string>)
    ensures |Join(items, SEP)| == Length(items)
  {
    if |items| > 1 {
      JoinLength(items[..|items| - 1]);
    }
  }

  lemma {:induction false} LengthOfBoth(a: seq<string>, b: seq<string>)
    requires a != [] && b != []
    ensures Length(a + b) == Length(a) + 3 + Length(b)
  {
    var n := |b| - 1;
    assert (a + b)[..|a + b| - 1] == a + b[..n];
    if n == 0 {
      assert a + b[..n] == a;
    } else {
      LengthOfBoth(a, b[..n]);
    }
  }

  lemma PartsAreShorter(a: seq<string>, b: seq<string>)
    ensures Length(a) <= Length(a + b) && Length(b) <= Length(a + b)
  {
    if a == [] {
      assert a + b == b;
    } else if b == [] {
      assert a + b == a;
    } else {
      LengthOfBoth(a, b);
    }
  }

  /** A stretch of a line is no longer than the line. */
  lemma PartIsShorter(items: seq<string>, from: nat, to: nat)
    requires from < to <= |items|
    ensures Length(items[from..to]) <= Length(items)
  {
    MiddleIsShorter(items[..from], items[from..to], items[to..]);
    ThreeParts(items, from, to);
  }

  lemma MiddleIsShorter(a: seq<string>, b: seq<string>, c: seq<string>)
    ensures Length(b) <= Length(a + b + c)
  {
    PartsAreShorter(a, b);
    PartsAreShorter(a + b, c);
  }

  lemma ThreeParts<T>(s: seq<T>, from: nat, to: nat)
    requires from <= to <= |s|
    ensures s[..from] + s[from..to] + s[to..] == s
  {}

  lemma {:induction false} JoinOfBoth(a: seq<string>, b: seq<string>)
    requires a != [] && b != []
    ensures Join(a + b, SEP) == Join(a, SEP) + SEP + Join(b, SEP)
  {
    var n := |b| - 1;
    assert (a + b)[..|a + b| - 1] == a + b[..n] && (a + b)[|a + b| - 1] == b[n];
    if n == 0 {
      assert a + b[..n] == a;
    } else {
      JoinOfBoth(a, b[..n]);
    }
  }

  lemma {:induction false} FlattenOneMore(split: seq<seq<string>>, line: seq<string>)
    ensures Flatten(split + [line]) == Flatten(split) + line
  {
    if split == [] {
      assert split + [line] == [line] && [line][1..] == [] && line + [] == line;
    } else {
      assert (split + [line])[1..] == split[1..] + [line];
      FlattenOneMore(split[1..], line);
    }
  }

  /** Joining the rendered lines gives the joined items. */
  lemma {:induction false} RenderedJoins(split: seq<seq<string>>)
    requires forall line :: line in split ==> line != []
    ensures Join(Rendered(split), SEP) == Join(Flatten(split), SEP)
  {
    if |split| == 1 {
      assert split == [] + [split[0]];
      FlattenOneMore([], split[0]);
      assert [] + split[0] == split[0];
      assert Flatten([]) == [];
    } else if |split| > 1 {
      var n := |split| - 1;
      var init, last := split[..n], split[n];
      assert split == init + [last];
      assert forall line :: line in init ==> line in split;
      RenderedJoins(init);
      FlattenOneMore(init, last);
      assert Rendered(split)[..n] == Rendered(init);
      assert Flatten(init) != [] by {
        assert init[0] in split;
      }
      assert last in split;
      JoinOfBoth(Flatten(init), last);
    }
  }

  // ---- optimality ----

  lemma FirstLine(split: seq<seq<string>>, items: seq<string>)
    requires Flatten(split) == items && split != []
    ensures |split[0]| <= |items| && split[0] == items[..|split[0]|]
    ensures Flatten(split[1..]) == items[|split[0]|..]
  {}

  /** A line of any split ends no later than the greedy line that starts inside it. */
  lemma ReachesAsFar(items: seq<string>, s: nat, skip: nat, g: nat, width: nat)
    requires s <= |items| && skip + g < |items| && g > 0
    requires Fits(items[..s], width) && Length(items[skip..skip + g + 1]) > width
    ensures s <= skip + g
  {
    if s > skip + g {
      var line := items[..s];
      assert line[skip..skip + g + 1] == items[skip..skip + g + 1];
      PartIsShorter(line, skip, skip + g + 1);
    }
  }

  /** A greedy split of what is left of the items needs no more lines than any split of the items. */
  lemma {:induction false} GreedyStaysAhead(greedy: seq<seq<string>>, other: seq<seq<string>>, items: seq<string>, skip: nat,
                                            width: nat)
    requires skip <= |items| && IsSplit(greedy, items[skip..], width) && Greedy(greedy, width)
    requires IsSplit(other, items, width)
    ensures |greedy| <= |other|
    decreases |greedy|
  {
    if greedy == [] {
    } else {
      var rest, g := items[skip..], |greedy[0]|;
      assert greedy[0] in greedy;
      FirstLine(greedy, rest);
      FirstLine(other, items);
      if |greedy| > 1 {
        var s := |other[0]|;
        assert other[0] in other && greedy[1] in greedy;
        FirstLine(greedy[1..], rest[g..]);
        assert CannotTake(greedy[0], greedy[1], width);
        assert greedy[0] + [greedy[1][0]] == items[skip..skip + g + 1];
        ReachesAsFar(items, s, skip, g, width);
        assert items[s..][skip + g - s..] == rest[g..];
        GreedyTail(greedy, width);
        assert forall line :: line in greedy[1..] ==> line in greedy;
        assert forall line :: line in other[1..] ==> line in other;
        GreedyStaysAhead(greedy[1..], other[1..], items[s..], skip + g - s, width);
      }
    }
  }

  lemma GreedyTail(split: seq<seq<string>>, width: nat)
    requires Greedy(split, width) && split != []
    ensures Greedy(split[1..], width)
  {
    forall i, j | 0 <= i < j == i + 1 < |split[1..]| ensures CannotTake(split[1..][i], split[1..][j], width) {
      assert CannotTake(split[i + 1], split[j + 1], width);
    }
  }

  /** No in-order split into lines that fit has fewer lines than a greedy one. */
  lemma GreedyIsOptimal(greedy: seq<seq<string>>, other: seq<seq<string>>, items: seq<string>, width: nat)
    requires IsSplit(greedy, items, width) && Greedy(greedy, width) && IsSplit(other, items, width)
    ensures |greedy| <= |other|
  {
    assert items[0..] == items;
    GreedyStaysAhead(greedy, other, items, 0, width);
  }

  // ---- the wrapper ----

  /** Lines finished, and the line being filled. */
  datatype Page = Page(lines: seq<string>, current: string)

  function Add(page: Page, item: string, width: nat): Page {
    if page.current != "" && |page.current| + |item| + 3 > width then Page(page.lines + [page.current], item)
    else if page.current != "" then page.(current := page.current + SEP + item)
    else page.(current := item)
  }

  function AddAll(items: seq<string>, width: nat): Page {
    if items == [] then Page([], "") else Add(AddAll(items[..|items| - 1], width), items[|items| - 1], width)
  }

  /** No item leaves the line being filled empty: an empty item never comes first on its line. */
  predicate NeverBlank(items: seq<string>, width: nat) {
    forall i :: 0 < i <= |items| ==> AddAll(items[..i], width).current != ""
  }

  lemma NeverBlankBefore(items: seq<string>, width: nat)
    requires NeverBlank(items, width) && items != []
    ensures NeverBlank(items[..|items| - 1], width)
  {
    var init := items[..|items| - 1];
    forall i | 0 < i <= |init| ensures AddAll(init[..i], width).current != "" {
      assert init[..i] == items[..i];
    }
  }

  /** Items that are not empty never leave a line empty. */
  lemma ShownItemsAreNeverBlank(items: seq<string>, width: nat)
    requires forall item :: item in items ==> item != ""
    ensures NeverBlank(items, width)
  {
    forall i | 0 < i <= |items| ensures AddAll(items[..i], width).current != "" {
      assert items[i - 1] in items && items[..i][|items[..i]| - 1] == items[i - 1];
    }
  }

  /** What is printed at the end: a last line only if there is something on it. */
  function Wrapped(items: seq<string>, width: nat): seq<string> {
    Lines(AddAll(items, width))
  }

  function Lines(page: Page): seq<string> {
    if page.current != "" then page.lines + [page.current] else page.lines
  }

  /** `wrap_joined`. */
  method WrapJoined(items: seq<string>, width: nat) returns (lines: seq<string>)
    ensures lines == Wrapped(items, width)
  {
    lines := [];
    var current := "";
    for i := 0 to |items|
      invariant Page(lines, current) == AddAll(items[..i], width)
    {
      assert items[..i + 1][..i] == items[..i];
      var item := items[i];
      if current != "" && |current| + |item| + 3 > width {
        lines := lines + [current];
        current := "";
      }
      if current != "" {
        current := current + SEP;
      }
      current := current + item;
    }
    assert items[..|items|] == items;
    if current != "" {
      lines := lines + [current];
    }
  }

  /** The split behind the lines so far: finished lines, and the line being filled. */
  lemma {:induction false} SplitBehind(items: seq<string>, width: nat) returns (split: seq<seq<string>>)
    requires NeverBlank(items, width) && items != []
    ensures IsSplit(split, items, width) && Greedy(split, width) && split != []
    ensures AddAll(items, width) == Page(Rendered(split[..|split| - 1]), Join(split[|split| - 1], SEP))
    ensures AddAll(items, width).current != ""
  {
    var n := |items| - 1;
    var init, item := items[..n], items[n];
    assert items == init + [item];
    assert items[..|items|] == items && AddAll(items[..|items|], width).current != "";
    if n == 0 {
      split := [[item]];
      assert split[..0] == [] && Rendered([]) == [];
      FlattenOneMore([], [item]);
      assert AddAll(init, width) == Page([], "");
    } else {
      NeverBlankBefore(items, width);
      var before := SplitBehind(init, width);
      var last := before[|before| - 1];
      JoinLength(last);
      if |Join(last, SEP)| + |item| + 3 > width {
        split := StartLine(before, init, item, width);
      } else {
        split := GrowLine(before, init, item, width);
      }
    }
  }

  lemma StartLine(before: seq<seq<string>>, init: seq<string>, item: string, width: nat) returns (split: seq<seq<string>>)
    requires IsSplit(before, init, width) && Greedy(before, width) && before != []
    requires Length(before[|before| - 1]) + 3 + |item| > width
    ensures split == before + [[item]] && IsSplit(split, init + [item], width) && Greedy(split, width)
    ensures Rendered(split[..|split| - 1]) == Rendered(before[..|before| - 1]) + [Join(before[|before| - 1], SEP)]
  {
    var last := before[|before| - 1];
    assert last in before;
    split := before + [[item]];
    FlattenOneMore(before, [item]);
    LengthOfBoth(last, [item]);
    assert CannotTake(last, [item], width);
    assert split[..|split| - 1] == before;
  }

  lemma GrowLine(before: seq<seq<string>>, init: seq<string>, item: string, width: nat) returns (split: seq<seq<string>>)
    requires IsSplit(before, init, width) && Greedy(before, width) && before != []
    requires Length(before[|before| - 1]) + 3 + |item| <= width
    ensures IsSplit(split, init + [item], width) && Greedy(split, width) && |split| == |before|
    ensures split[..|split| - 1] == before[..|before| - 1]
    ensures Join(split[|split| - 1], SEP) == Join(before[|before| - 1], SEP) + SEP + item
  {
    var m := |before| - 1;
    var last := before[m];
    assert last in before;
    split := before[..m] + [last + [item]];
    assert before == before[..m] + [last];
    FlattenOneMore(before[..m], last);
    FlattenOneMore(before[..m], last + [item]);
    LengthOfBoth(last, [item]);
    JoinOfBoth(last, [item]);
    LastLineGrows(before, last + [item], width);
  }

  /** Replacing the last line by one with the same first item keeps a split greedy. */
  lemma LastLineGrows(before: seq<seq<string>>, line: seq<string>, width: nat)
    requires before != [] && Greedy(before, width) && before[|before| - 1] != []
    requires line != [] && line[0] == before[|before| - 1][0]
    ensures Greedy(before[..|before| - 1] + [line], width)
  {
    var after := before[..|before| - 1] + [line];
    forall i, j | 0 <= i < j == i + 1 < |after| ensures CannotTake(after[i], after[j], width) {
      assert CannotTake(before[i], before[j], width);
    }
  }

  /**
   The wrapper on items that never leave a line empty: the text is kept, a line is too wide only if it
   is one item, and no in-order split into such lines has fewer.
   */
  lemma WrappingIsOptimal(items: seq<string>, width: nat, other: seq<seq<string>>)
    requires NeverBlank(items, width)
    ensures var lines := Wrapped(items, width);
            && Join(lines, SEP) == Join(items, SEP)
            && (forall line :: line in lines ==> |line| <= width || line in items)
            && (IsSplit(other, items, width) ==> |lines| <= |other|)
  {
    if items != [] {
      var split := SplitBehind(items, width);
      var n := |split| - 1;
      assert split == split[..n] + [split[n]];
      assert Rendered(split) == Rendered(split[..n]) + [Join(split[n], SEP)];
      var lines := Wrapped(items, width);
      assert lines == Rendered(split);
      RenderedJoins(split);
      forall i | 0 <= i < |split| ensures |lines[i]| <= width || lines[i] in items {
        assert split[i] in split;
        JoinLength(split[i]);
        LineIsPart(split, i);
      }
      if IsSplit(other, items, width) {
        GreedyIsOptimal(split, other, items, width);
      }
    }
  }

  lemma {:induction false} LineIsPart(split: seq<seq<string>>, i: nat)
    requires i < |split|
    ensures forall item :: item in split[i] ==> item in Flatten(split)
  {
    if i == 0 {
    } else {
      LineIsPart(split[1..], i - 1);
    }
  }

  /** When every item fits, so does every line. */
  lemma LinesFit(items: seq<string>, width: nat)
    requires NeverBlank(items, width) && forall item :: item in items ==> |item| <= width
    ensures forall line :: line in Wrapped(items, width) ==> |line| <= width
  {
    WrappingIsOptimal(items, width, []);
  }

  /** An item adds at most itself and a separator to the text, and nothing when it leaves the line empty. */
  lemma AddLengthens(page: Page, item: string, width: nat)
    ensures var before, after := Length(Lines(page)), Length(Lines(Add(page, item, width)));
            && after <= before + 3 + |item|
            && (Add(page, item, width).current == "" ==> item == "" && after == before)
            && (Lines(page) == [] ==> after == |item|)
  {
    if page.current != "" {
      var lines := page.lines;
      EndsWith(lines, page.current);
      EndsWith(lines + [page.current], item);
      EndsWith(lines, page.current + SEP + item);
    } else {
      EndsWith(page.lines, item);
    }
  }

  lemma EndsWith(lines: seq<string>, last: string)
    ensures Length(lines + [last]) == if lines == [] then |last| else Length(lines) + 3 + |last|
  {
    assert (lines + [last])[..|lines|] == lines;
  }

  lemma BlankOneMore(items: seq<string>, width: nat)
    requires items != [] && NeverBlank(items[..|items| - 1], width) && AddAll(items, width).current != ""
    ensures NeverBlank(items, width)
  {
    var init := items[..|items| - 1];
    forall i | 0 < i <= |items| ensures AddAll(items[..i], width).current != "" {
      if i == |items| {
        assert items[..i] == items;
      } else {
        assert items[..i] == init[..i];
      }
    }
  }

  /** The printed text is never longer than the joined items, and as long when there is only one. */
  lemma {:induction false} TextNeverGrows(items: seq<string>, width: nat)
    ensures Length(Wrapped(items, width)) <= Length(items)
    ensures |items| == 1 ==> Length(Wrapped(items, width)) == Length(items)
  {
    if items == [] {
    } else {
      var n := |items| - 1;
      TextNeverGrows(items[..n], width);
      AddLengthens(AddAll(items[..n], width), items[n], width);
      assert n == 0 ==> AddAll(items[..n], width) == Page([], "");
    }
  }

  /** A single item leaves its line empty only if it is empty, and then nothing is printed. */
  lemma OneBlankItem(items: seq<string>, width: nat)
    requires |items| == 1 && !NeverBlank(items, width)
    ensures items == [""] && Wrapped(items, width) == []
  {
    assert items[..1] == items;
    assert AddAll(items[..0], width) == Page([], "");
    assert items == [items[0]];
  }

  /** It is shorter once an item left a line empty. */
  lemma {:induction false} TextShrinks(items: seq<string>, width: nat)
    requires |items| > 1 && !NeverBlank(items, width)
    ensures Length(Wrapped(items, width)) < Length(items)
  {
    var n := |items| - 1;
    var init, item := items[..n], items[n];
    AddLengthens(AddAll(init, width), item, width);
    TextNeverGrows(init, width);
    if NeverBlank(init, width) {
      if AddAll(items, width).current != "" {
        BlankOneMore(items, width);
      }
    } else if n == 1 {
      OneBlankItem(init, width);
    } else {
      TextShrinks(init, width);
    }
  }

  /** The lines join to the items exactly when no empty item comes first on its line (or there is only one item). */
  lemma TextIsKeptExactlyWhen(items: seq<string>, width: nat)
    ensures Join(Wrapped(items, width), SEP) == Join(items, SEP) <==> |items| <= 1 || NeverBlank(items, width)
  {
    JoinLength(items);
    JoinLength(Wrapped(items, width));
    if NeverBlank(items, width) {
      WrappingIsOptimal(items, width, []);
    } else if |items| == 1 {
      OneBlankItem(items, width);
    } else if |items| > 1 {
      TextShrinks(items, width);
    }
  }
}
