/**
 The layout of a bucket tab and the escaping of the strings in it (`src/run_triage_cli.rs`), read back by a
 scanner for KDL 1.0 strings. Paths are the text `to_string_lossy` gives.
 */
module KdlLayout {
  import opened Results
  import opened Text

  // ---- escaping ----

  /** `str::replace` with a one-character pattern. */
  function Replace(s: string, c: char, text: string): string {
    if s == "" then "" else (if s[0] == c then text else [s[0]]) + Replace(s[1..], c, text)
  }

  /** `kdl_escape`: backslashes first, then quotes. */
  function KdlEscape(value: string): string {
    Replace(Replace(value, '\\', "\\\\"), '"', "\\\"")
  }

  function EscapeChar(c: char): string {
    if c == '\\' then "\\\\" else if c == '"' then "\\\"" else [c]
  }

  function EscapeEach(value: string): string {
    if value == "" then "" else EscapeChar(value[0]) + EscapeEach(value[1..])
  }

  lemma {:induction false} ReplaceJoins(a: string, b: string, c: char, text: string)
    ensures Replace(a + b, c, text) == Replace(a, c, text) + Replace(b, c, text)
  {
    if a == "" {
      assert a + b == b;
    } else {
      assert (a + b)[1..] == a[1..] + b;
      ReplaceJoins(a[1..], b, c, text);
      var head := if a[0] == c then text else [a[0]];
      assert head + (Replace(a[1..], c, text) + Replace(b, c, text)) == (head + Replace(a[1..], c, text)) + Replace(b, c, text);
    }
  }

  lemma EscapesOneChar(c: char)
    ensures Replace(if c == '\\' then "\\\\" else [c], '"', "\\\"") == EscapeChar(c)
  {
    assert "\\\\"[1..] == "\\" && "\\"[1..] == "";
    assert [c][1..] == "";
  }

  /** The two passes do not disturb each other: together they escape each character once. */
  lemma {:induction false} TwoPassesEscapeEachCharacter(value: string)
    ensures KdlEscape(value) == EscapeEach(value)
  {
    if value == "" {
    } else {
      var head := if value[0] == '\\' then "\\\\" else [value[0]];
      var tail := Replace(value[1..], '\\', "\\\\");
      TwoPassesEscapeEachCharacter(value[1..]);
      ReplaceJoins(head, tail, '"', "\\\"");
      EscapesOneChar(value[0]);
    }
  }

  // ---- reading strings ----

  predicate IsHex(c: char) {
    IsDigit(c) || 'a' <= c <= 'f' || 'A' <= c <= 'F'
  }

  function HexValue(c: char): nat
    requires IsHex(c)
  {
    if IsDigit(c) then c as int - '0' as int
    else if 'a' <= c <= 'f' then c as int - 'a' as int + 10
    else c as int - 'A' as int + 10
  }

  function HexNumber(digits: string): nat
    requires forall i :: 0 <= i < |digits| ==> IsHex(digits[i])
  {
    if digits == "" then 0 else HexNumber(digits[..|digits| - 1]) * 16 + HexValue(digits[|digits| - 1])
  }

  function HexPrefix(text: string): (n: nat)
    ensures n <= |text| && forall i :: 0 <= i < n ==> IsHex(text[i])
  {
    if text == "" || !IsHex(text[0]) then 0 else 1 + HexPrefix(text[1..])
  }

  /** The rest of `\u{…}` after the `u`: one to six hex digits that name a character. */
  function ScanUnicode(text: string): (r: Option<(char, string)>)
    ensures r.Some? ==> |r.value.1| < |text|
  {
    if text == "" || text[0] != '{' then None
    else
      var n := HexPrefix(text[1..]);
      if !(1 <= n <= 6) || n + 1 >= |text| || text[n + 1] != '}' then None
      else
        var code := HexNumber(text[1..][..n]);
        if code < 0xD800 || 0xE000 <= code < 0x11_0000 then Some((code as char, text[n + 2..])) else None
  }

  /** One escape after its backslash. */
  function ScanEscape(text: string): (r: Option<(char, string)>)
    ensures r.Some? ==> |r.value.1| < |text|
  {
    if text == "" then None
    else
      match text[0]
      case 'n' => Some(('\n', text[1..]))
      case 'r' => Some(('\r', text[1..]))
      case 't' => Some(('\t', text[1..]))
      case 'b' => Some(('\U{08}', text[1..]))
      case 'f' => Some(('\U{0C}', text[1..]))
      case '\\' => Some(('\\', text[1..]))
      case '/' => Some(('/', text[1..]))
      case '"' => Some(('"', text[1..]))
      case 'u' => ScanUnicode(text[1..])
      case _ => None
  }

  /** The value of a string whose opening quote was just read, and what follows its closing quote. */
  function ScanString(text: string): (r: Option<(string, string)>)
    ensures r.Some? ==> |r.value.1| < |text|
    decreases |text|
  {
    if text == "" then None
    else if text[0] == '"' then Some(("", text[1..]))
    else
      var first := if text[0] == '\\' then ScanEscape(text[1..]) else Some((text[0], text[1..]));
      if first.None? then None
      else
        var (c, after) := first.value;
        var rest := ScanString(after);
        if rest.None? then None else Some(([c] + rest.value.0, rest.value.1))
  }

  /** An escaped value is read back whole, and reading stops exactly at its closing quote. */
  lemma {:induction false} EscapedStringIsReadBack(value: string, rest: string)
    ensures ScanString(KdlEscape(value) + "\"" + rest) == Some((value, rest))
  {
    TwoPassesEscapeEachCharacter(value);
    EachIsReadBack(value, rest);
  }

  lemma EscapeIsReadBack(text: string, c: char, after: string)
    requires (c == '\\' || c == '"') && text == ['\\', c] + after
    ensures ScanString(text)
            == var rest := ScanString(after);
               if rest.None? then None else Some(([c] + rest.value.0, rest.value.1))
  {
    assert text[1..] == [c] + after;
    assert text[1..][1..] == after;
    assert ScanEscape(text[1..]) == Some((c, after));
  }

  lemma CharIsReadBack(text: string, c: char, after: string)
    requires c != '\\' && c != '"' && text == [c] + after
    ensures ScanString(text)
            == var rest := ScanString(after);
               if rest.None? then None else Some(([c] + rest.value.0, rest.value.1))
  {
    assert text[1..] == after;
  }

  lemma EscapedCharIsReadBack(c: char, after: string)
    ensures ScanString(EscapeChar(c) + after)
            == var rest := ScanString(after);
               if rest.None? then None else Some(([c] + rest.value.0, rest.value.1))
  {
    if c == '\\' || c == '"' {
      assert EscapeChar(c) == ['\\', c];
      EscapeIsReadBack(EscapeChar(c) + after, c, after);
    } else {
      CharIsReadBack(EscapeChar(c) + after, c, after);
    }
  }

  lemma {:induction false} EachIsReadBack(value: string, rest: string)
    ensures ScanString(EscapeEach(value) + "\"" + rest) == Some((value, rest))
  {
    if value == "" {
      var text := EscapeEach(value) + "\"" + rest;
      assert text[0] == '"' && text[1..] == rest;
    } else {
      EachIsReadBack(value[1..], rest);
      var after := EscapeEach(value[1..]) + "\"" + rest;
      assert EscapeEach(value) + "\"" + rest == EscapeChar(value[0]) + after;
      EscapedCharIsReadBack(value[0], after);
      assert value == [value[0]] + value[1..];
    }
  }

  // ---- text with strings in it ----

  /** What stands before each string, the string's value, and what comes after the last one. */
  datatype Chunk = Chunk(raw: string, value: string)
  datatype Doc = Doc(chunks: seq<Chunk>, last: string)

  /** No quote, and nothing that could start a comment or continue a line. */
  predicate Plain(s: string) {
    forall i :: 0 <= i < |s| ==> s[i] != '"' && s[i] != '/' && s[i] != '\\'
  }

  /** A quote after this text starts an ordinary string, not a raw one. */
  predicate OpensString(raw: string) {
    raw != "" && (raw[|raw| - 1] == ' ' || raw[|raw| - 1] == '=')
  }

  /** Splits text into raw stretches and strings; refuses comments, line continuations and raw strings. */
  function Scan(text: string, raw: string): Option<Doc>
    decreases |text|
  {
    if text == "" then Some(Doc([], raw))
    else if text[0] == '"' then
      if !OpensString(raw) then None
      else
        var scanned := ScanString(text[1..]);
        if scanned.None? then None else Under(Chunk(raw, scanned.value.0), Scan(scanned.value.1, ""))
    else if text[0] == '/' || text[0] == '\\' then None
    else Scan(text[1..], raw + [text[0]])
  }

  function Under(head: Chunk, rest: Option<Doc>): Option<Doc> {
    if rest.None? then None else Some(rest.value.(chunks := [head] + rest.value.chunks))
  }

  function Quoted(value: string): string {
    "\"" + KdlEscape(value) + "\""
  }

  function RenderChunks(chunks: seq<Chunk>): string {
    if chunks == [] then ""
    else
      var n := |chunks| - 1;
      RenderChunks(chunks[..n]) + chunks[n].raw + Quoted(chunks[n].value)
  }

  function Render(d: Doc): string {
    RenderChunks(d.chunks) + d.last
  }

  predicate WellFormed(d: Doc) {
    Plain(d.last) && forall c :: c in d.chunks ==> Plain(c.raw) && OpensString(c.raw)
  }

  lemma {:induction false} PlainTextPasses(s: string, rest: string, raw: string)
    requires Plain(s)
    ensures Scan(s + rest, raw) == Scan(rest, raw + s)
    decreases |s|
  {
    if s == "" {
      assert s + rest == rest && raw + s == raw;
    } else {
      assert (s + rest)[1..] == s[1..] + rest;
      PlainTextPasses(s[1..], rest, raw + [s[0]]);
      assert raw + [s[0]] + s[1..] == raw + s;
    }
  }

  lemma QuotedStringPasses(value: string, rest: string, raw: string)
    requires OpensString(raw)
    ensures Scan(Quoted(value) + rest, raw) == Under(Chunk(raw, value), Scan(rest, ""))
  {
    var text := Quoted(value) + rest;
    assert text[1..] == KdlEscape(value) + "\"" + rest;
    EscapedStringIsReadBack(value, rest);
  }

  lemma ChunkPasses(c: Chunk, rest: string)
    requires Plain(c.raw) && OpensString(c.raw)
    ensures Scan(c.raw + Quoted(c.value) + rest, "") == Under(c, Scan(rest, ""))
  {
    PlainTextPasses(c.raw, Quoted(c.value) + rest, "");
    assert "" + c.raw == c.raw;
    assert c.raw + Quoted(c.value) + rest == c.raw + (Quoted(c.value) + rest);
    QuotedStringPasses(c.value, rest, c.raw);
  }

  lemma {:induction false} ChunksPass(chunks: seq<Chunk>, rest: string, tail: Doc)
    requires forall c :: c in chunks ==> Plain(c.raw) && OpensString(c.raw)
    requires Scan(rest, "") == Some(tail)
    ensures Scan(RenderChunks(chunks) + rest, "") == Some(tail.(chunks := chunks + tail.chunks))
  {
    if chunks == [] {
      assert RenderChunks(chunks) + rest == rest && chunks + tail.chunks == tail.chunks;
    } else {
      var n := |chunks| - 1;
      var init, c := chunks[..n], chunks[n];
      assert forall x :: x in init ==> x in chunks;
      var more := c.raw + Quoted(c.value) + rest;
      ChunkPasses(c, rest);
      ChunksPass(init, more, tail.(chunks := [c] + tail.chunks));
      TextAssociates(RenderChunks(init), c.raw, Quoted(c.value), rest);
      assert init + ([c] + tail.chunks) == chunks + tail.chunks;
    }
  }

  lemma TextAssociates(a: string, b: string, c: string, d: string)
    ensures a + (b + c + d) == a + b + c + d
  {}

  /** Any such text is split back into exactly the stretches and values it was made of. */
  lemma RenderedTextIsReadBack(d: Doc)
    requires WellFormed(d)
    ensures Scan(Render(d), "") == Some(d)
  {
    PlainTextPasses(d.last, "", "");
    assert d.last + "" == d.last && "" + d.last == d.last;
    ChunksPass(d.chunks, d.last, Doc([], d.last));
    assert d.chunks + [] == d.chunks;
  }

  // ---- the layout ----

  datatype RunMeta = RunMeta(exitCode: int, command: seq<string>, cwd: Option<string>)

  /** A signed number as `format!` prints it. */
  function Signed(n: int): string {
    if n < 0 then "-" + Decimal(-n) else Decimal(n)
  }

  /** A number with an optional minus sign. */
  function ReadSigned(s: string): Option<int> {
    if s != [] && s[0] == '-' then (if AllDigits(s[1..]) then Some(-ReadDecimal(s[1..])) else None)
    else if AllDigits(s) then Some(ReadDecimal(s))
    else None
  }

  lemma SignedIsReadBack(n: int)
    ensures ReadSigned(Signed(n)) == Some(n)
  {
    var digits := Decimal(if n < 0 then -n else n);
    DecimalIsReadBack(if n < 0 then -n else n);
    if n < 0 {
      assert ("-" + digits)[1..] == digits;
    } else {
      assert IsDigit(digits[0]);
    }
  }

  /** A value without anything to escape, between quotes. */
  function Literal(value: string): string {
    "\"" + value + "\""
  }

  const BAR := "    pane size=1 borderless=true {\n"
  const PLUGIN := "        plugin location="
  const CLOSE_BAR := "\n    }\n"
  const COLUMNS := "    pane split_direction="
  const RAIL := " {\n        pane size=24 borderless=true {\n"
  const RAIL_PLUGIN := "            plugin location="
  const RAIL_TITLE := " {\n                rail true\n"
  const PANE_TITLE := "                pane_title "
  const OPEN_STACK := "\n            }\n        }\n        pane {\n"
  const COMMAND := "            pane command="
  const NAME := " name="
  const OPEN_VIEWER := " {\n                args "
  const CLOSE_PANE := "            }\n"
  const SUSPENDED := " start_suspended=true {\n"
  const ARGS := "                args "
  const CWD := "                cwd "
  const CLOSE_STACK := "        }\n    }\n"

  /** The chrome above the panes, after the opening of the layout. */
  const CHROME :=
    BAR + PLUGIN + Literal("compact-bar")
    + (CLOSE_BAR + COLUMNS) + Literal("vertical")
    + (RAIL + RAIL_PLUGIN) + Literal("session-manager")
    + (RAIL_TITLE + PANE_TITLE) + Literal("Sessions")
    + OPEN_STACK

  const FOOTER := CLOSE_STACK + (BAR + PLUGIN) + Literal("status-bar") + CLOSE_BAR + "}\n"

  function Viewer(scrollback: string, exitCode: int): string {
    COMMAND + Literal("less") + NAME + Literal("scrollback · exit " + Signed(exitCode)) + OPEN_VIEWER
    + Literal("-R") + " " + Quoted(scrollback) + "\n" + CLOSE_PANE
  }

  function QuotedEach(args: seq<string>): (r: seq<string>)
    ensures |r| == |args|
  {
    seq(|args|, i requires 0 <= i < |args| => Quoted(args[i]))
  }

  function Arguments(args: seq<string>): string {
    if args == [] then "" else ARGS + Join(QuotedEach(args), " ") + "\n"
  }

  function Directory(cwd: Option<string>): string {
    if cwd.None? then "" else CWD + Quoted(cwd.value) + "\n"
  }

  function Rerun(meta: RunMeta): string {
    if meta.command == [] then ""
    else
      COMMAND + Quoted(meta.command[0]) + NAME + Literal("rerun") + SUSPENDED
      + Arguments(meta.command[1..])
      + Directory(meta.cwd)
      + CLOSE_PANE
  }

  function Opening(instanceId: string): string {
    "layout vc_tab_instance_id=" + Quoted(instanceId) + " {\n"
  }

  /** The layout up to the scrollback viewer. */
  function Top(scrollback: string, instanceId: string, exitCode: int): string {
    Opening(instanceId) + CHROME + Viewer(scrollback, exitCode)
  }

  /** `bucket_tab_layout`. */
  function BucketTabLayout(scrollback: string, instanceId: string, meta: RunMeta): string {
    Top(scrollback, instanceId, meta.exitCode) + Rerun(meta) + FOOTER
  }

  // ---- reading the layout ----

  datatype Fields = Fields(
    instanceId: string, exitCode: Option<int>, scrollback: string, command: seq<string>, cwd: Option<string>)

  /** The exit code at the end of the viewer pane's name. */
  function ExitCodeIn(name: string): Option<int> {
    var title := "scrollback · exit ";
    if title <= name then ReadSigned(name[|title|..]) else None
  }

  predicate EndsWith(s: string, end: string) {
    |end| <= |s| && s[|s| - |end|..] == end
  }

  /** The viewer pane, by the names of its properties: `less -R` on the scrollback. */
  ghost predicate IsViewerPane(d: Doc, exitCode: int, scrollback: string) {
    && |d.chunks| >= 9
    && EndsWith(d.chunks[5].raw, "pane command=") && d.chunks[5].value == "less"
    && d.chunks[6] == Chunk(" name=", "scrollback · exit " + Signed(exitCode))
    && d.chunks[7] == Chunk(" {\n                args ", "-R")
    && d.chunks[8] == Chunk(" ", scrollback)
  }

  /** The rerun pane, by the names of its properties: the command waits to be started. */
  ghost predicate IsRerunPane(d: Doc, program: string) {
    && |d.chunks| >= 12
    && EndsWith(d.chunks[9].raw, "pane command=") && d.chunks[9].value == program
    && d.chunks[10] == Chunk(" name=", "rerun")
    && " start_suspended=true {\n" <= d.chunks[11].raw
  }

  predicate IsCwd(c: Chunk) {
    c.raw == SUSPENDED + CWD || c.raw == "\n" + CWD
  }

  function Values(chunks: seq<Chunk>): (r: seq<string>)
    ensures |r| == |chunks|
  {
    seq(|chunks|, i requires 0 <= i < |chunks| => chunks[i].value)
  }

  /**
   The strings by position: the id, five of the chrome, the viewer's command, name and two arguments, then
   the rerun pane's command, its name, its arguments and its directory, and the status bar's plugin.
   */
  function Decode(d: Doc): Option<Fields> {
    if |d.chunks| < 10 then None
    else
      var id, code, scrollback := d.chunks[0].value, ExitCodeIn(d.chunks[6].value), d.chunks[8].value;
      var rest := d.chunks[9..|d.chunks| - 1];
      if |rest| < 2 then Some(Fields(id, code, scrollback, [], None))
      else
        var tail := rest[2..];
        if tail != [] && IsCwd(tail[|tail| - 1]) then
          Some(Fields(id, code, scrollback, [rest[0].value] + Values(tail[..|tail| - 1]), Some(tail[|tail| - 1].value)))
        else
          Some(Fields(id, code, scrollback, [rest[0].value] + Values(tail), None))
  }

  /** The document is what the scanner should see in this text. */
  ghost predicate Shows(d: Doc, text: string) {
    WellFormed(d) && Render(d) == text
  }

  /** More text outside strings, after `t` and the part `c` of the section being written. */
  lemma Push(d: Doc, t: string, c: string, s: string) returns (r: Doc)
    requires Shows(d, t + c) && Plain(s)
    ensures Shows(r, t + (c + s)) && r == d.(last := d.last + s)
  {
    r := d.(last := d.last + s);
    assert RenderChunks(d.chunks) + (d.last + s) == t + c + s;
    assert t + c + s == t + (c + s);
  }

  lemma PushEscaped(d: Doc, t: string, c: string, value: string) returns (r: Doc)
    requires Shows(d, t + c) && OpensString(d.last)
    ensures Shows(r, t + (c + Quoted(value))) && r == Doc(d.chunks + [Chunk(d.last, value)], "")
  {
    r := Doc(d.chunks + [Chunk(d.last, value)], "");
    assert r.chunks[..|d.chunks|] == d.chunks;
    assert Render(r) == RenderChunks(d.chunks) + d.last + Quoted(value) + "";
    assert Render(r) == t + c + Quoted(value);
    assert t + c + Quoted(value) == t + (c + Quoted(value));
  }

  predicate Unescaped(value: string) {
    forall i :: 0 <= i < |value| ==> value[i] != '"' && value[i] != '\\'
  }

  lemma {:induction false} NothingToEscape(value: string)
    requires Unescaped(value)
    ensures EscapeEach(value) == value
  {
    if value == "" {
    } else {
      NothingToEscape(value[1..]);
    }
  }

  /** Text outside strings that ends where a string may start. */
  predicate Leads(s: string) {
    Plain(s) && OpensString(s)
  }

  lemma LeadsOn(a: string, b: string)
    requires Plain(a) && Leads(b)
    ensures Leads(a + b)
  {}

  lemma PushField(d: Doc, t: string, c: string, s: string, value: string) returns (r: Doc)
    requires Shows(d, t + c) && Leads(s)
    ensures Shows(r, t + (c + s + Quoted(value)))
    ensures r == Doc(d.chunks + [Chunk(d.last + s, value)], "")
  {
    r := Push(d, t, c, s);
    LeadsOn(d.last, s);
    r := PushEscaped(r, t, c + s, value);
  }

  lemma PushFixed(d: Doc, t: string, c: string, s: string, value: string) returns (r: Doc)
    requires Shows(d, t + c) && Leads(s)
    requires Unescaped(value)
    ensures Shows(r, t + (c + s + Literal(value)))
    ensures r == Doc(d.chunks + [Chunk(d.last + s, value)], "")
  {
    TwoPassesEscapeEachCharacter(value);
    NothingToEscape(value);
    r := PushField(d, t, c, s, value);
  }

  lemma BarIsPlain()
    ensures Plain(BAR) && Leads(PLUGIN) && Plain(CLOSE_BAR)
  {}

  lemma ColumnsLead()
    ensures Leads(COLUMNS)
  {}

  lemma RailIsPlain()
    ensures Plain(RAIL)
  {}

  lemma RailPluginLeads()
    ensures Leads(RAIL_PLUGIN)
  {}

  lemma TitleIsPlain()
    ensures Plain(RAIL_TITLE) && Leads(PANE_TITLE)
  {}

  lemma StackIsPlain()
    ensures Plain(OPEN_STACK) && Plain(CLOSE_STACK)
  {}

  lemma PaneIsPlain()
    ensures Leads(COMMAND) && Leads(NAME) && Plain(CLOSE_PANE)
  {}

  lemma ArgumentsLead()
    ensures Leads(OPEN_VIEWER) && Leads(ARGS) && Leads(CWD) && Plain(SUSPENDED)
  {}

  lemma FixedNames()
    ensures Unescaped("compact-bar") && Unescaped("vertical") && Unescaped("session-manager") && Unescaped("Sessions")
    ensures Unescaped("less") && Unescaped("-R") && Unescaped("rerun") && Unescaped("status-bar")
  {}

  lemma TwoFixed(d: Doc, t: string, c: string, s1: string, v1: string, s2: string, v2: string) returns (r: Doc)
    requires Shows(d, t + c) && Leads(s1) && Leads(s2) && Unescaped(v1) && Unescaped(v2)
    ensures Shows(r, t + (c + s1 + Literal(v1) + s2 + Literal(v2))) && r.last == ""
    ensures |r.chunks| == |d.chunks| + 2 && r.chunks[..|d.chunks|] == d.chunks
    ensures r.chunks[|d.chunks|] == Chunk(d.last + s1, v1) && r.chunks[|d.chunks| + 1] == Chunk("" + s2, v2)
  {
    var first := PushFixed(d, t, c, s1, v1);
    r := PushFixed(first, t, c + s1 + Literal(v1), s2, v2);
    assert r.chunks == d.chunks + [Chunk(d.last + s1, v1), Chunk("" + s2, v2)];
  }

  lemma ChromeShows(d: Doc, t: string) returns (r: Doc)
    requires Shows(d, t)
    ensures Shows(r, t + CHROME) && |r.chunks| == |d.chunks| + 4 && r.chunks[..|d.chunks|] == d.chunks
    ensures r.last == OPEN_STACK
  {
    BarIsPlain();
    ColumnsLead();
    RailIsPlain();
    RailPluginLeads();
    TitleIsPlain();
    StackIsPlain();
    FixedNames();
    r := FourFixed(d, t, BAR, PLUGIN, "compact-bar", CLOSE_BAR, COLUMNS, "vertical", RAIL, RAIL_PLUGIN, "session-manager",
                   RAIL_TITLE, PANE_TITLE, "Sessions", OPEN_STACK);
  }

  /** Four fields in a row, each led by a line and the start of the next. */
  lemma FourFixed(d: Doc, t: string, a1: string, b1: string, v1: string, a2: string, b2: string, v2: string,
                  a3: string, b3: string, v3: string, a4: string, b4: string, v4: string, end: string)
    returns (r: Doc)
    requires Shows(d, t) && Plain(a1) && Plain(a2) && Plain(a3) && Plain(a4) && Plain(end)
    requires Leads(b1) && Leads(b2) && Leads(b3) && Leads(b4)
    requires Unescaped(v1) && Unescaped(v2) && Unescaped(v3) && Unescaped(v4)
    ensures Shows(r, t + (a1 + b1 + Literal(v1) + (a2 + b2) + Literal(v2) + (a3 + b3) + Literal(v3)
                          + (a4 + b4) + Literal(v4) + end))
    ensures |r.chunks| == |d.chunks| + 4 && r.chunks[..|d.chunks|] == d.chunks && r.last == end
  {
    LeadsOn(a1, b1);
    LeadsOn(a2, b2);
    LeadsOn(a3, b3);
    LeadsOn(a4, b4);
    assert t + "" == t && "" + (a1 + b1) == a1 + b1;
    var half := TwoFixed(d, t, "", a1 + b1, v1, a2 + b2, v2);
    var c := a1 + b1 + Literal(v1) + (a2 + b2) + Literal(v2);
    var all := TwoFixed(half, t, c, a3 + b3, v3, a4 + b4, v4);
    r := Push(all, t, c + (a3 + b3) + Literal(v3) + (a4 + b4) + Literal(v4), end);
    assert "" + end == end;
    assert r.chunks[..|d.chunks|] == half.chunks[..|d.chunks|];
  }

  lemma SpaceLeads()
    ensures Leads(" ") && Plain("\n") && Plain(" {\n") && Plain("}\n")
  {}

  function ArgChunks(raw: string, args: seq<string>): (r: seq<Chunk>)
    ensures |r| == |args|
  {
    seq(|args|, i requires 0 <= i < |args| => Chunk(if i == 0 then raw else " ", args[i]))
  }

  lemma JoinOneMore(init: seq<string>, last: string)
    requires init != []
    ensures Join(QuotedEach(init + [last]), " ") == Join(QuotedEach(init), " ") + " " + Quoted(last)
    ensures forall raw :: ArgChunks(raw, init + [last]) == ArgChunks(raw, init) + [Chunk(" ", last)]
  {
    var all := QuotedEach(init + [last]);
    assert all[..|init|] == QuotedEach(init) && all[|init|] == Quoted(last);
  }

  lemma {:induction false} ArgsShow(d: Doc, t: string, c: string, s: string, args: seq<string>) returns (r: Doc)
    requires Shows(d, t + c) && Leads(s) && args != []
    ensures Shows(r, t + (c + (s + Join(QuotedEach(args), " "))))
    ensures r == Doc(d.chunks + ArgChunks(d.last + s, args), "")
  {
    var n := |args| - 1;
    var init, last := args[..n], args[n];
    if n == 0 {
      r := FirstArg(d, t, c, s, args);
    } else {
      var before := ArgsShow(d, t, c, s, init);
      assert args == init + [last];
      r := NextArg(d, before, t, c, s, init, last);
    }
  }

  lemma NextArg(d: Doc, before: Doc, t: string, c: string, s: string, init: seq<string>, last: string) returns (r: Doc)
    requires Shows(before, t + (c + (s + Join(QuotedEach(init), " ")))) && init != []
    requires before == Doc(d.chunks + ArgChunks(d.last + s, init), "")
    ensures Shows(r, t + (c + (s + Join(QuotedEach(init + [last]), " "))))
    ensures r == Doc(d.chunks + ArgChunks(d.last + s, init + [last]), "")
  {
    JoinOneMore(init, last);
    r := OneMoreArg(before, t, c, s, Join(QuotedEach(init), " "), last);
    assert r.chunks == d.chunks + (ArgChunks(d.last + s, init) + [Chunk(" ", last)]);
  }

  lemma FirstArg(d: Doc, t: string, c: string, s: string, args: seq<string>) returns (r: Doc)
    requires Shows(d, t + c) && Leads(s) && |args| == 1
    ensures Shows(r, t + (c + (s + Join(QuotedEach(args), " "))))
    ensures r == Doc(d.chunks + ArgChunks(d.last + s, args), "")
  {
    assert QuotedEach(args) == [Quoted(args[0])];
    assert ArgChunks(d.last + s, args) == [Chunk(d.last + s, args[0])];
    r := PushField(d, t, c, s, args[0]);
    assert c + s + Quoted(args[0]) == c + (s + Quoted(args[0]));
  }

  lemma OneMoreArg(d: Doc, t: string, c: string, s: string, joined: string, value: string) returns (r: Doc)
    requires Shows(d, t + (c + (s + joined))) && d.last == ""
    ensures Shows(r, t + (c + (s + (joined + " " + Quoted(value)))))
    ensures r == Doc(d.chunks + [Chunk(" ", value)], "")
  {
    SpaceLeads();
    r := PushField(d, t, c + (s + joined), " ", value);
    assert "" + " " == " ";
    ArgumentAssociates(c, s, joined, " ", Quoted(value));
  }

  lemma ArgumentAssociates(c: string, s: string, j: string, sep: string, q: string)
    ensures c + (s + j) + sep + q == c + (s + (j + sep + q))
  {}

  /** What a pane's fixed fields look like once written. */
  lemma ViewerFields(d: Doc, t: string, s1: string, v1: string, s2: string, v2: string, s3: string, v3: string,
                     s4: string, v4: string, end: string, close: string)
    returns (r: Doc)
    requires Shows(d, t) && Leads(s1) && Leads(s2) && Leads(s3) && Leads(s4) && Plain(end) && Plain(close)
    requires Unescaped(v1) && Unescaped(v2) && Unescaped(v3)
    ensures Shows(r, t + (s1 + Literal(v1) + s2 + Literal(v2) + s3 + Literal(v3) + s4 + Quoted(v4) + end + close))
    ensures |r.chunks| == |d.chunks| + 4 && r.chunks[..|d.chunks|] == d.chunks && r.last == end + close
    ensures r.chunks[|d.chunks|] == Chunk(d.last + s1, v1) && r.chunks[|d.chunks| + 1] == Chunk(s2, v2)
    ensures r.chunks[|d.chunks| + 2] == Chunk(s3, v3) && r.chunks[|d.chunks| + 3] == Chunk(s4, v4)
  {
    assert t + "" == t && "" + s1 == s1;
    var half := TwoFixed(d, t, "", s1, v1, s2, v2);
    var c := s1 + Literal(v1) + s2 + Literal(v2);
    var four := FixedThenField(half, t, c, s3, v3, s4, v4);
    r := Closing(four, t, c + s3 + Literal(v3) + s4 + Quoted(v4), end, close);
    assert "" + s2 == s2 && half.last + s3 == s3;
    FourChunks(d.chunks, half.chunks, r.chunks, Chunk(half.last + s3, v3), Chunk(s4, v4));
  }

  lemma FixedThenField(d: Doc, t: string, c: string, s: string, v: string, s': string, v': string) returns (r: Doc)
    requires Shows(d, t + c) && Leads(s) && Leads(s') && Unescaped(v)
    ensures Shows(r, t + (c + s + Literal(v) + s' + Quoted(v')))
    ensures r == Doc(d.chunks + [Chunk(d.last + s, v), Chunk(s', v')], "")
  {
    var first := PushFixed(d, t, c, s, v);
    r := PushField(first, t, c + s + Literal(v), s', v');
    assert "" + s' == s';
  }

  lemma Closing(d: Doc, t: string, c: string, end: string, close: string) returns (r: Doc)
    requires Shows(d, t + c) && Plain(end) && Plain(close) && d.last == ""
    ensures Shows(r, t + (c + end + close))
    ensures r == Doc(d.chunks, end + close)
  {
    var ending := Push(d, t, c, end);
    assert "" + end == end;
    r := Push(ending, t, c + end, close);
  }

  lemma FourChunks(d: seq<Chunk>, half: seq<Chunk>, all: seq<Chunk>, third: Chunk, fourth: Chunk)
    requires |half| == |d| + 2 && half[..|d|] == d && all == half + [third, fourth]
    ensures |all| == |d| + 4 && all[..|d|] == d && all[|d|] == half[|d|] && all[|d| + 1] == half[|d| + 1]
    ensures all[|d| + 2] == third && all[|d| + 3] == fourth
  {
    assert all[..|d|] == half[..|d|];
  }

  lemma ViewerShows(d: Doc, t: string, scrollback: string, exitCode: int) returns (r: Doc)
    requires Shows(d, t)
    ensures Shows(r, t + Viewer(scrollback, exitCode)) && |r.chunks| == |d.chunks| + 4 && r.chunks[..|d.chunks|] == d.chunks
    ensures |d.chunks| == 5 ==> IsViewerPane(r, exitCode, scrollback)
    ensures Plain(r.last)
  {
    PaneIsPlain();
    ArgumentsLead();
    SpaceLeads();
    FixedNames();
    TitleUnescaped(exitCode);
    r := ViewerFields(d, t, COMMAND, "less", NAME, "scrollback · exit " + Signed(exitCode), OPEN_VIEWER, "-R", " ",
                      scrollback, "\n", CLOSE_PANE);
    EndsInCommand(d.last);
  }

  lemma EndsInCommand(before: string)
    ensures EndsWith(before + COMMAND, "pane command=")
  {
    var end := "pane command=";
    assert COMMAND[|COMMAND| - |end|..] == end;
    assert (before + COMMAND)[|before + COMMAND| - |end|..] == COMMAND[|COMMAND| - |end|..];
  }

  lemma TitleUnescaped(exitCode: int)
    ensures Unescaped("scrollback · exit " + Signed(exitCode))
  {
    assert Unescaped("scrollback · exit ");
    assert Unescaped("-");
    assert forall n: nat :: forall i :: 0 <= i < |Decimal(n)| ==> IsDigit(Decimal(n)[i]);
  }

  /** The fields of the rerun pane, for a command that is not empty. */
  lemma RerunShows(d: Doc, t: string, meta: RunMeta, head: string, name: string, suspended: string, close: string)
    returns (r: Doc, c: string)
    requires Shows(d, t) && meta.command != [] && Leads(head) && Leads(name) && Plain(suspended)
    ensures c == head + Quoted(meta.command[0]) + name + Literal("rerun") + suspended
    ensures Shows(r, t + c) && r.last == suspended
    ensures r.chunks == d.chunks + [Chunk(d.last + head, meta.command[0]), Chunk(name, "rerun")]
  {
    FixedNames();
    assert t + "" == t && "" + head == head;
    var second := FieldThenFixed(d, t, "", head, meta.command[0], name, "rerun");
    c := head + Quoted(meta.command[0]) + name + Literal("rerun") + suspended;
    r := Push(second, t, head + Quoted(meta.command[0]) + name + Literal("rerun"), suspended);
    assert "" + suspended == suspended;
  }

  lemma FieldThenFixed(d: Doc, t: string, c: string, s: string, v: string, s': string, v': string) returns (r: Doc)
    requires Shows(d, t + c) && Leads(s) && Leads(s') && Unescaped(v')
    ensures Shows(r, t + (c + s + Quoted(v) + s' + Literal(v')))
    ensures r == Doc(d.chunks + [Chunk(d.last + s, v), Chunk(s', v')], "")
  {
    var first := PushField(d, t, c, s, v);
    r := PushFixed(first, t, c + s + Quoted(v), s', v');
    assert "" + s' == s';
  }

  lemma ArgumentsShow(d: Doc, t: string, c: string, args: seq<string>) returns (r: Doc)
    requires Shows(d, t + c)
    ensures Shows(r, t + (c + Arguments(args)))
    ensures r == WithArguments(d, args)
  {
    if args == [] {
      assert c + "" == c;
      r := d;
    } else {
      ArgumentsLead();
      SpaceLeads();
      r := ArgsShow(d, t, c, ARGS, args);
      var joined := ARGS + Join(QuotedEach(args), " ");
      r := Push(r, t, c + joined, "\n");
      assert c + joined + "\n" == c + (joined + "\n");
      assert "" + "\n" == "\n";
    }
  }

  lemma DirectoryShows(d: Doc, t: string, c: string, cwd: Option<string>) returns (r: Doc)
    requires Shows(d, t + c)
    ensures Shows(r, t + (c + Directory(cwd)))
    ensures r == WithDirectory(d, cwd)
  {
    if cwd.None? {
      assert c + "" == c;
      r := d;
    } else {
      ArgumentsLead();
      SpaceLeads();
      r := PushField(d, t, c, CWD, cwd.value);
      var field := CWD + Quoted(cwd.value);
      assert c + CWD + Quoted(cwd.value) == c + field;
      r := Push(r, t, c + field, "\n");
      assert c + field + "\n" == c + (field + "\n");
      assert "" + "\n" == "\n";
    }
  }

  function CwdChunk(args: seq<string>, cwd: Option<string>): seq<Chunk> {
    if cwd.None? then [] else [Chunk((if args == [] then SUSPENDED else "\n") + CWD, cwd.value)]
  }

  lemma RerunPaneShows(d: Doc, t: string, meta: RunMeta) returns (r: Doc)
    requires Shows(d, t)
    ensures Shows(r, t + Rerun(meta))
    ensures meta.command == [] ==> r.chunks == d.chunks
    ensures meta.command != [] ==>
              && (meta.command[1..] == [] && meta.cwd.None? ==> r.last == SUSPENDED + CLOSE_PANE)
              && r.chunks == d.chunks + [Chunk(d.last + COMMAND, meta.command[0]), Chunk(NAME, "rerun")]
                             + (ArgChunks(SUSPENDED + ARGS, meta.command[1..]) + CwdChunk(meta.command[1..], meta.cwd))
  {
    if meta.command == [] {
      assert t + "" == t;
      return d;
    }
    var args := meta.command[1..];
    PaneIsPlain();
    ArgumentsLead();
    var fixed, c := RerunShows(d, t, meta, COMMAND, NAME, SUSPENDED, CLOSE_PANE);
    r := RerunRestShows(fixed, t, c, args, meta.cwd);
    RestChunks(fixed, args, meta.cwd, r);
  }

  /** The rerun pane after its fixed fields. */
  lemma RerunRestShows(d: Doc, t: string, c: string, args: seq<string>, cwd: Option<string>) returns (r: Doc)
    requires Shows(d, t + c)
    ensures Shows(r, t + (c + Arguments(args) + Directory(cwd) + CLOSE_PANE))
    ensures r.chunks == WithDirectory(WithArguments(d, args), cwd).chunks
    ensures args == [] && cwd.None? ==> r.last == d.last + CLOSE_PANE
  {
    var withArgs := ArgumentsShow(d, t, c, args);
    var withCwd := DirectoryShows(withArgs, t, c + Arguments(args), cwd);
    PaneIsPlain();
    r := Push(withCwd, t, c + Arguments(args) + Directory(cwd), CLOSE_PANE);
  }

  function WithArguments(d: Doc, args: seq<string>): Doc {
    if args == [] then d else Doc(d.chunks + ArgChunks(d.last + ARGS, args), "\n")
  }

  function WithDirectory(d: Doc, cwd: Option<string>): Doc {
    if cwd.None? then d else Doc(d.chunks + [Chunk(d.last + CWD, cwd.value)], "\n")
  }

  lemma RestChunks(d: Doc, args: seq<string>, cwd: Option<string>, r: Doc)
    requires d.last == SUSPENDED && r.chunks == WithDirectory(WithArguments(d, args), cwd).chunks
    ensures r.chunks == d.chunks + (ArgChunks(SUSPENDED + ARGS, args) + CwdChunk(args, cwd))
  {
    var more := ArgChunks(SUSPENDED + ARGS, args);
    if args == [] {
      assert more == [];
    }
    assert WithArguments(d, args).chunks == d.chunks + more;
    assert r.chunks == d.chunks + more + CwdChunk(args, cwd);
  }

  lemma NotCwd(args: seq<string>)
    ensures forall i :: 0 <= i < |args| ==> !IsCwd(ArgChunks(SUSPENDED + ARGS, args)[i])
  {
    assert |SUSPENDED + ARGS| == |SUSPENDED| + |ARGS| && |SUSPENDED + CWD| == |SUSPENDED| + |CWD|;
    assert |"\n" + CWD| == 1 + |CWD|;
  }

  lemma ValuesOfArgs(raw: string, args: seq<string>)
    ensures Values(ArgChunks(raw, args)) == args
  {}

  /** The arguments and the directory are told apart by the text before them. */
  lemma TailIsDecoded(args: seq<string>, cwd: Option<string>)
    ensures var tail := ArgChunks(SUSPENDED + ARGS, args) + CwdChunk(args, cwd);
            if tail != [] && IsCwd(tail[|tail| - 1]) then
              cwd == Some(tail[|tail| - 1].value) && Values(tail[..|tail| - 1]) == args
            else
              cwd.None? && Values(tail) == args
  {
    var chunks := ArgChunks(SUSPENDED + ARGS, args);
    var tail := chunks + CwdChunk(args, cwd);
    ValuesOfArgs(SUSPENDED + ARGS, args);
    if cwd.None? {
      assert tail == chunks;
      NotCwd(args);
    } else {
      assert tail[..|tail| - 1] == chunks;
    }
  }

  /** Every value is read back from the layout: none of them can break out of its quotes. */
  lemma LayoutIsReadBack(scrollback: string, instanceId: string, meta: RunMeta)
    ensures var doc := Scan(BucketTabLayout(scrollback, instanceId, meta), "");
            && doc.Some?
            && Decode(doc.value)
               == Some(Fields(instanceId, Some(meta.exitCode), scrollback, meta.command,
                              if meta.command == [] then None else meta.cwd))
  {
    var doc := LayoutShows(scrollback, instanceId, meta);
    RenderedTextIsReadBack(doc);
    LayoutIsDecoded(doc, meta, instanceId, scrollback);
  }

  /** Read by the names of their properties, the panes are `less -R` on the scrollback and the suspended rerun. */
  lemma PanesAreNamed(scrollback: string, instanceId: string, meta: RunMeta) returns (doc: Doc)
    ensures Scan(BucketTabLayout(scrollback, instanceId, meta), "") == Some(doc)
    ensures IsViewerPane(doc, meta.exitCode, scrollback)
    ensures meta.command != [] ==> IsRerunPane(doc, meta.command[0]) && NamesTheRest(doc, meta)
  {
    doc := LayoutShows(scrollback, instanceId, meta);
    RenderedTextIsReadBack(doc);
    if meta.command != [] {
      RestIsNamed(doc, meta, instanceId, scrollback);
    }
  }

  /** What the strings of the layout are, by position. */
  ghost predicate HasFields(d: Doc, meta: RunMeta, id: string, scrollback: string) {
    && |d.chunks| >= 10 && d.chunks[0].value == id && IsViewerPane(d, meta.exitCode, scrollback)
    && (meta.command == [] ==> |d.chunks| == 10)
    && (meta.command != [] ==>
          && IsRerunPane(d, meta.command[0])
          && d.chunks[11..|d.chunks| - 1]
             == ArgChunks(SUSPENDED + ARGS, meta.command[1..]) + CwdChunk(meta.command[1..], meta.cwd))
  }

  /** Arguments and directory, if any, are led by the names of their nodes. */
  ghost predicate NamesTheRest(d: Doc, meta: RunMeta) {
    && |d.chunks| >= 12
    && (|meta.command| > 1 ==> EndsWith(d.chunks[11].raw, " args "))
    && (meta.cwd.Some? ==> EndsWith(d.chunks[|d.chunks| - 2].raw, " cwd "))
  }

  lemma RestIsNamed(d: Doc, meta: RunMeta, id: string, scrollback: string)
    requires HasFields(d, meta, id, scrollback) && meta.command != []
    ensures NamesTheRest(d, meta)
  {
    var args := meta.command[1..];
    var rest := ArgChunks(SUSPENDED + ARGS, args) + CwdChunk(args, meta.cwd);
    assert d.chunks[11..|d.chunks| - 1] == rest;
    EndsAlike(SUSPENDED, ARGS, " args ");
    EndsAlike(SUSPENDED, CWD, " cwd ");
    EndsAlike("\n", CWD, " cwd ");
    if args != [] {
      assert d.chunks[11] == d.chunks[11..|d.chunks| - 1][0] == rest[0];
    }
    if meta.cwd.Some? {
      assert d.chunks[|d.chunks| - 2] == rest[|rest| - 1];
    }
  }

  lemma EndsAlike(before: string, s: string, end: string)
    requires EndsWith(s, end)
    ensures EndsWith(before + s, end)
  {
    assert (before + s)[|before + s| - |end|..] == s[|s| - |end|..];
  }

  lemma LayoutIsDecoded(d: Doc, meta: RunMeta, id: string, scrollback: string)
    requires HasFields(d, meta, id, scrollback)
    ensures Decode(d) == Some(Fields(id, Some(meta.exitCode), scrollback, meta.command,
                                     if meta.command == [] then None else meta.cwd))
  {
    SignedIsReadBack(meta.exitCode);
    assert d.chunks[6].value[|"scrollback · exit "|..] == Signed(meta.exitCode);
    if meta.command != [] {
      var rest := d.chunks[9..|d.chunks| - 1];
      assert rest[2..] == d.chunks[11..|d.chunks| - 1];
      TailIsDecoded(meta.command[1..], meta.cwd);
      assert meta.command == [meta.command[0]] + meta.command[1..];
    }
  }

  lemma TopShows(scrollback: string, instanceId: string, exitCode: int) returns (r: Doc)
    ensures Shows(r, Top(scrollback, instanceId, exitCode))
    ensures |r.chunks| == 9 && r.chunks[0].value == instanceId && IsViewerPane(r, exitCode, scrollback)
  {
    var head := HeadShows(instanceId);
    var chrome := ChromeShows(head, Opening(instanceId));
    r := ViewerShows(chrome, Opening(instanceId) + CHROME, scrollback, exitCode);
    assert chrome.chunks[..1][0] == head.chunks[0];
    assert r.chunks[..5][0] == chrome.chunks[0];
  }

  /** The same, before the status bar's plugin is written. */
  ghost predicate HasMost(d: Doc, meta: RunMeta, id: string, scrollback: string) {
    && |d.chunks| >= 9 && d.chunks[0].value == id && IsViewerPane(d, meta.exitCode, scrollback)
    && (meta.command == [] ==> |d.chunks| == 9)
    && (meta.command != [] ==>
          && |d.chunks| >= 11
          && EndsWith(d.chunks[9].raw, "pane command=") && d.chunks[9].value == meta.command[0]
          && d.chunks[10] == Chunk(" name=", "rerun")
          && " start_suspended=true {\n" <= (if |d.chunks| == 11 then d.last else d.chunks[11].raw)
          && d.chunks[11..] == ArgChunks(SUSPENDED + ARGS, meta.command[1..]) + CwdChunk(meta.command[1..], meta.cwd))
  }

  lemma MostShows(top: Doc, t: string, meta: RunMeta, id: string, scrollback: string) returns (r: Doc)
    requires Shows(top, t) && |top.chunks| == 9
    requires top.chunks[0].value == id && IsViewerPane(top, meta.exitCode, scrollback)
    ensures Shows(r, t + Rerun(meta)) && HasMost(r, meta, id, scrollback)
  {
    r := RerunPaneShows(top, t, meta);
    if meta.command != [] {
      var rest := ArgChunks(SUSPENDED + ARGS, meta.command[1..]) + CwdChunk(meta.command[1..], meta.cwd);
      Nine(top.chunks, Chunk(top.last + COMMAND, meta.command[0]), Chunk(NAME, "rerun"), rest, r.chunks);
      EndsInCommand(top.last);
      SuspendedFirst(r, meta.command[1..], meta.cwd);
    }
  }

  lemma Nine<T>(a: seq<T>, x: T, y: T, rest: seq<T>, all: seq<T>)
    requires |a| == 9 && all == a + [x, y] + rest
    ensures |all| >= 11 && all[9] == x && all[10] == y && all[11..] == rest && forall i :: 0 <= i < 9 ==> all[i] == a[i]
  {}

  lemma SuspendedFirst(r: Doc, args: seq<string>, cwd: Option<string>)
    requires |r.chunks| >= 11 && r.chunks[11..] == ArgChunks(SUSPENDED + ARGS, args) + CwdChunk(args, cwd)
    requires |r.chunks| == 11 ==> r.last == SUSPENDED + CLOSE_PANE
    ensures " start_suspended=true {\n" <= (if |r.chunks| == 11 then r.last else r.chunks[11].raw)
  {
    if |r.chunks| > 11 {
      assert r.chunks[11] == r.chunks[11..][0];
    }
  }

  lemma StatusBarLast(d: Doc, r: Doc, meta: RunMeta, id: string, scrollback: string)
    requires HasMost(d, meta, id, scrollback)
    requires |r.chunks| == |d.chunks| + 1 && r.chunks[..|d.chunks|] == d.chunks && d.last <= r.chunks[|d.chunks|].raw
    ensures HasFields(r, meta, id, scrollback)
  {
    var n := |d.chunks|;
    assert forall i :: 0 <= i < n ==> r.chunks[i] == r.chunks[..n][i];
    if meta.command != [] {
      assert r.chunks[11..n] == d.chunks[11..];
    }
  }

  lemma LayoutShows(scrollback: string, instanceId: string, meta: RunMeta) returns (r: Doc)
    ensures Shows(r, BucketTabLayout(scrollback, instanceId, meta))
    ensures HasFields(r, meta, instanceId, scrollback)
  {
    var t := Top(scrollback, instanceId, meta.exitCode);
    var top := TopShows(scrollback, instanceId, meta.exitCode);
    var most := MostShows(top, t, meta, instanceId, scrollback);
    r := FooterShows(most, t + Rerun(meta));
    StatusBarLast(most, r, meta, instanceId, scrollback);
  }

  lemma HeadShows(instanceId: string) returns (r: Doc)
    ensures Shows(r, Opening(instanceId))
    ensures |r.chunks| == 1 && r.chunks[0].value == instanceId
  {
    SpaceLeads();
    TabIdLeads();
    r := OneField("layout vc_tab_instance_id=", instanceId, " {\n");
  }

  lemma TabIdLeads()
    ensures Leads("layout vc_tab_instance_id=")
  {}

  lemma OneField(s: string, value: string, end: string) returns (r: Doc)
    requires Leads(s) && Plain(end)
    ensures Shows(r, s + Quoted(value) + end)
    ensures |r.chunks| == 1 && r.chunks[0].value == value
  {
    var d := Doc([], "");
    assert Render(d) == "" + "" == "";
    r := PushField(d, "", "", s, value);
    assert "" + s + Quoted(value) == s + Quoted(value);
    r := Push(r, "", s + Quoted(value), end);
    assert "" + (s + Quoted(value) + end) == s + Quoted(value) + end;
  }

  lemma FooterShows(d: Doc, t: string) returns (r: Doc)
    requires Shows(d, t)
    ensures Shows(r, t + FOOTER)
    ensures |r.chunks| == |d.chunks| + 1 && r.chunks[..|d.chunks|] == d.chunks && d.last <= r.chunks[|d.chunks|].raw
  {
    StackIsPlain();
    BarIsPlain();
    SpaceLeads();
    FixedNames();
    r := LastField(d, t, CLOSE_STACK, BAR, PLUGIN, "status-bar", CLOSE_BAR, "}\n");
  }

  lemma LastField(d: Doc, t: string, a: string, b: string, b': string, v: string, e: string, f: string) returns (r: Doc)
    requires Shows(d, t) && Plain(a) && Plain(b) && Leads(b') && Unescaped(v) && Plain(e) && Plain(f)
    ensures Shows(r, t + (a + (b + b') + Literal(v) + e + f))
    ensures |r.chunks| == |d.chunks| + 1 && r.chunks[..|d.chunks|] == d.chunks && d.last <= r.chunks[|d.chunks|].raw
  {
    assert t + "" == t && "" + a == a;
    LeadsOn(b, b');
    r := Push(d, t, "", a);
    r := PushFixed(r, t, a, b + b', v);
    var c := a + (b + b') + Literal(v);
    r := Push(r, t, c, e);
    r := Push(r, t, c + e, f);
  }
}
