// Putting an agent's MCP server into Codex's config.toml, line by line
// (crates/kaluta-core/src/agent_connect.rs). Reading TOML is a library's and comes in as a `Toml`.
module CodexConfig {
  import opened Names
  import opened Prelude
  import opened Text

  /** Whether a text is TOML, a string written as TOML, and the `command` of a server in a text. */
  datatype Toml = Toml(valid: string -> bool, quoted: string -> string, command: (string, string) -> Option<string>)

  datatype Error = NotToml | Unsafe

  // ---- Lines ----

  predicate IsNewline(c: char) {
    c == '\n'
  }

  function Unreturned(line: string): string {
    if line != "" && Last(line) == '\r' then Init(line) else line
  }

  /** The lines of a text, as `str::lines` gives them: ended by a line feed, or by a carriage return with one. */
  function Lines(s: string): seq<string>
    decreases |s|
  {
    if s == "" then []
    else
      var n := Until(s, IsNewline);
      if n == |s| then [s] else [Unreturned(s[..n])] + Lines(s[n + 1..])
  }

  predicate IsHeader(line: string, lex: Lexer) {
    var t := TrimStart(line, lex.isSpace);
    t != "" && t[0] == '['
  }

  /** The line opens a table one of the `headers` names, or a sub-table of one. */
  predicate Matches(line: string, headers: seq<string>, lex: Lexer) {
    var t := TrimStart(line, lex.isSpace);
    exists h :: h in headers && h <= t && |t| > |h| && t[|h|] in {']', '.'}
  }

  predicate Opens(line: string, headers: seq<string>, lex: Lexer) {
    IsHeader(line, lex) && Matches(line, headers, lex)
  }

  predicate InTableAt(lines: seq<string>, i: nat, j: nat, headers: seq<string>, lex: Lexer)
    requires j <= i < |lines|
  {
    Opens(lines[j], headers, lex) && forall k :: j < k <= i ==> !IsHeader(lines[k], lex)
  }

  /** The table line `i` is in is one the headers name: of the header lines down to it, the last matches. */
  predicate Governed(lines: seq<string>, i: nat, headers: seq<string>, lex: Lexer)
    requires i < |lines|
  {
    exists j: nat :: j <= i && InTableAt(lines, i, j, headers, lex)
  }

  /** The lines in no table the headers name, in order. */
  function Ungoverned(lines: seq<string>, headers: seq<string>, lex: Lexer): seq<string> {
    if lines == [] then []
    else
      var before := Ungoverned(Init(lines), headers, lex);
      if Governed(lines, |lines| - 1, headers, lex) then before else before + [Last(lines)]
  }

  // ---- The edit ----

  function Headers(name: string, oldName: Option<string>): seq<string> {
    ["[mcp_servers." + name, "[mcp_servers.\"" + name + "\""]
    + (if oldName.Some? then ["[mcp_servers." + oldName.value, "[mcp_servers.\"" + oldName.value + "\""] else [])
  }

  function CodexTable(name: string, shim: string, address: string, toml: Toml): string {
    "[mcp_servers." + name + "]\ncommand = " + toml.quoted(shim)
    + "\nargs = [\"--mailbox\", " + toml.quoted(address) + "]\ntool_timeout_sec = 900\n"
  }

  /** The text with the named tables dropped and `entry` at its end, after a blank line. */
  function Edited(text: string, headers: seq<string>, entry: string, lex: Lexer): string {
    var base := TrimEnd(Join(Ungoverned(Lines(text), headers, lex), "\n"), IsNewline);
    (if base == "" then "" else base + "\n\n") + entry
  }

  /** The file with the entry in it, or why nothing is written. */
  method Update(existing: Option<string>, name: string, oldName: Option<string>, entry: string, shim: string,
      toml: Toml, lex: Lexer)
    returns (r: Result<string, Error>)
    ensures var original := if existing.Some? then existing.value else "";
            var text := Edited(original, Headers(name, oldName), entry, lex);
            r == if !toml.valid(original) then Err(NotToml)
                 else if toml.valid(text) && toml.command(text, name) == Some(shim) then Ok(text)
                 else Err(Unsafe)
  {
    var original := if existing.Some? then existing.value else "";
    if !toml.valid(original) {
      return Err(NotToml);
    }
    var joined := KeptText(Lines(original), Headers(name, oldName), lex);
    var text := WithoutEnd(joined);
    if text != "" {
      text := text + "\n\n";
    }
    text := text + entry;
    if !toml.valid(text) {
      return Err(Unsafe);
    }
    if toml.command(text, name) != Some(shim) {
      return Err(Unsafe);
    }
    return Ok(text);
  }

  /** Line feeds popped off the end. */
  method WithoutEnd(joined: string) returns (text: string)
    ensures text == TrimEnd(joined, IsNewline)
  {
    text := joined;
    while text != "" && Last(text) == '\n'
      invariant TrimEnd(text, IsNewline) == TrimEnd(joined, IsNewline)
      decreases |text|
    {
      text := Init(text);
    }
  }

  /** The loop over the lines: what it keeps are the lines no named table governs. */
  method KeptText(lines: seq<string>, headers: seq<string>, lex: Lexer) returns (text: string)
    ensures text == Join(Ungoverned(lines, headers, lex), "\n")
  {
    var kept: seq<string> := [];
    var skipping := false;
    for i := 0 to |lines|
      invariant kept == Ungoverned(lines[..i], headers, lex)
      invariant skipping <==> i > 0 && Governed(lines, i - 1, headers, lex)
    {
      var line := lines[i];
      if IsHeader(line, lex) {
        skipping := Matches(line, headers, lex);
      }
      GovernedStep(lines, i, headers, lex);
      UngovernedStep(lines, i, headers, lex);
      if !skipping {
        kept := kept + [line];
      }
    }
    assert lines[..|lines|] == lines;
    text := Join(kept, "\n");
  }

  lemma GovernedStep(lines: seq<string>, i: nat, headers: seq<string>, lex: Lexer)
    requires i < |lines|
    ensures IsHeader(lines[i], lex) ==> (Governed(lines, i, headers, lex) <==> Matches(lines[i], headers, lex))
    ensures !IsHeader(lines[i], lex) ==>
      (Governed(lines, i, headers, lex) <==> i > 0 && Governed(lines, i - 1, headers, lex))
  {
    if IsHeader(lines[i], lex) {
      assert InTableAt(lines, i, i, headers, lex) <==> Matches(lines[i], headers, lex);
    } else {
      if Governed(lines, i, headers, lex) {
        var j: nat :| j <= i && InTableAt(lines, i, j, headers, lex);
        assert InTableAt(lines, i - 1, j, headers, lex);
      }
      if i > 0 && Governed(lines, i - 1, headers, lex) {
        var j: nat :| j <= i - 1 && InTableAt(lines, i - 1, j, headers, lex);
        assert InTableAt(lines, i, j, headers, lex);
      }
    }
  }

  lemma GovernedPrefix(lines: seq<string>, i: nat, headers: seq<string>, lex: Lexer)
    requires i < |lines|
    ensures Governed(lines[..i + 1], i, headers, lex) <==> Governed(lines, i, headers, lex)
  {
    var some := lines[..i + 1];
    if Governed(lines, i, headers, lex) {
      var j: nat :| j <= i && InTableAt(lines, i, j, headers, lex);
      assert InTableAt(some, i, j, headers, lex);
    }
    if Governed(some, i, headers, lex) {
      var j: nat :| j <= i && InTableAt(some, i, j, headers, lex);
      assert forall k :: 0 <= k <= i ==> lines[k] == some[k];
      assert InTableAt(lines, i, j, headers, lex);
    }
  }

  lemma UngovernedStep(lines: seq<string>, i: nat, headers: seq<string>, lex: Lexer)
    requires i < |lines|
    ensures Ungoverned(lines[..i + 1], headers, lex)
         == Ungoverned(lines[..i], headers, lex) + (if Governed(lines, i, headers, lex) then [] else [lines[i]])
  {
    var some := lines[..i + 1];
    assert Init(some) == lines[..i] && Last(some) == lines[i];
    GovernedPrefix(lines, i, headers, lex);
  }

  // ---- Lines of texts put together from lines ----

  predicate IsLine(line: string) {
    '\n' !in line && (line == "" || Last(line) != '\r')
  }

  predicate AllLines(lines: seq<string>) {
    forall l :: l in lines ==> IsLine(l)
  }

  function Terminated(lines: seq<string>): string {
    if lines == [] then "" else lines[0] + "\n" + Terminated(lines[1..])
  }

  lemma FirstLine(line: string, rest: string)
    requires IsLine(line)
    ensures Lines(line + "\n" + rest) == [line] + Lines(rest)
  {
    var s := line + "\n" + rest;
    var n := Until(s, IsNewline);
    assert s[|line|] == '\n';
    assert forall i :: 0 <= i < |line| ==> s[i] == line[i] && line[i] in line;
    assert n == |line|;
    assert s[..n] == line && s[n + 1..] == rest;
  }

  lemma TerminatedFirst(lines: seq<string>, rest: string)
    requires lines != []
    ensures Terminated(lines) + rest == lines[0] + "\n" + (Terminated(lines[1..]) + rest)
  {
  }

  lemma LinesOfFirst(lines: seq<string>, rest: string)
    requires AllLines(lines) && lines != []
    ensures AllLines(lines[1..])
    ensures Lines(Terminated(lines) + rest) == [lines[0]] + Lines(Terminated(lines[1..]) + rest)
  {
    assert lines[0] in lines && forall l :: l in lines[1..] ==> l in lines;
    TerminatedFirst(lines, rest);
    FirstLine(lines[0], Terminated(lines[1..]) + rest);
  }

  lemma HeadAndTail(lines: seq<string>, more: seq<string>)
    requires lines != []
    ensures [lines[0]] + (lines[1..] + more) == lines + more
  {
  }

  lemma {:induction false} LinesOfTerminated(lines: seq<string>, rest: string)
    requires AllLines(lines)
    ensures Lines(Terminated(lines) + rest) == lines + Lines(rest)
    decreases |lines|
  {
    if lines == [] {
      assert Terminated(lines) + rest == rest;
    } else {
      LinesOfFirst(lines, rest);
      LinesOfTerminated(lines[1..], rest);
      HeadAndTail(lines, Lines(rest));
    }
  }

  lemma {:induction false} JoinIsTerminated(lines: seq<string>)
    requires lines != []
    ensures Join(lines, "\n") + "\n" == Terminated(lines)
    decreases |lines|
  {
    if |lines| == 1 {
      assert Terminated(lines[1..]) == "";
    } else {
      JoinIsTerminated(lines[1..]);
    }
  }

  lemma {:induction false} JoinLast(lines: seq<string>)
    requires |lines| > 1
    ensures Join(lines, "\n") == Join(Init(lines), "\n") + "\n" + Last(lines)
    decreases |lines|
  {
    if |lines| > 2 {
      JoinLast(lines[1..]);
      assert Init(lines)[1..] == Init(lines[1..]);
    } else {
      assert Init(lines) == [lines[0]] && lines[1..] == [lines[1]];
    }
  }

  /** The lines without the blank ones at the end. */
  function Unblank(lines: seq<string>): (r: seq<string>)
    ensures r <= lines && (r != [] ==> Last(r) != "")
    ensures forall i :: |r| <= i < |lines| ==> lines[i] == ""
  {
    if lines != [] && Last(lines) == "" then Unblank(Init(lines)) else lines
  }

  lemma {:induction false} PoppedIsUnblank(lines: seq<string>)
    requires AllLines(lines)
    ensures TrimEnd(Join(lines, "\n"), IsNewline) == Join(Unblank(lines), "\n")
    decreases |lines|
  {
    if lines != [] {
      var text, last := Join(lines, "\n"), Last(lines);
      assert last in lines;
      if |lines| > 1 {
        JoinLast(lines);
      }
      if last != "" {
        assert Last(text) == Last(last) && Last(last) in last;
      } else if |lines| > 1 {
        var before := Join(Init(lines), "\n");
        assert text == before + "\n" && Init(before + "\n") == before;
        PoppedIsUnblank(Init(lines));
      }
    }
  }

  lemma JoinedIsSome(lines: seq<string>)
    requires lines != [] && Last(lines) != ""
    ensures Join(lines, "\n") != ""
  {
    if |lines| > 1 {
      JoinLast(lines);
    }
  }

  /** What stays, with the blank line before the entry. */
  function Spaced(kept: seq<string>): seq<string> {
    if kept == [] then [] else kept + [""]
  }

  lemma SpacedIsTerminated(kept: seq<string>, entry: string)
    requires AllLines(kept) && (kept != [] ==> Last(kept) != "")
    ensures var base := Join(kept, "\n");
            (if base == "" then "" else base + "\n\n") + entry == Terminated(Spaced(kept)) + entry
  {
    if kept != [] {
      JoinedIsSome(kept);
      JoinLast(Spaced(kept));
      assert Init(Spaced(kept)) == kept;
      JoinIsTerminated(Spaced(kept));
      var base := Join(kept, "\n");
      assert Join(Spaced(kept), "\n") == base + "\n" + "" == base + "\n";
      assert base + "\n" + "\n" == base + "\n\n";
    }
  }

  // ---- What the edit keeps ----

  lemma {:induction false} UngovernedAreSome(lines: seq<string>, headers: seq<string>, lex: Lexer)
    ensures forall l :: l in Ungoverned(lines, headers, lex) ==> l in lines
    decreases |lines|
  {
    if lines != [] {
      UngovernedAreSome(Init(lines), headers, lex);
      assert lines == Init(lines) + [Last(lines)];
    }
  }

  lemma EditedText(text: string, headers: seq<string>, entry: string, lex: Lexer)
    requires AllLines(Lines(text))
    ensures var kept := Unblank(Ungoverned(Lines(text), headers, lex));
            AllLines(kept) && Edited(text, headers, entry, lex) == Terminated(Spaced(kept)) + entry
  {
    var all := Ungoverned(Lines(text), headers, lex);
    UngovernedAreSome(Lines(text), headers, lex);
    PoppedIsUnblank(all);
    assert forall l :: l in Unblank(all) ==> l in all;
    SpacedIsTerminated(Unblank(all), entry);
  }

  /**
   * Every line in no named table stays, in order and unchanged, up to blank lines at the
   * end; then come a blank line and the entry.
   */
  lemma EditKeepsTheRest(text: string, headers: seq<string>, entry: string, lex: Lexer)
    requires AllLines(Lines(text))
    ensures Lines(Edited(text, headers, entry, lex))
            == Spaced(Unblank(Ungoverned(Lines(text), headers, lex))) + Lines(entry)
  {
    EditedText(text, headers, entry, lex);
    LinesOfTerminated(Spaced(Unblank(Ungoverned(Lines(text), headers, lex))), entry);
  }

  // ---- What it drops, and editing twice ----

  predicate NoneMatch(lines: seq<string>, headers: seq<string>, lex: Lexer) {
    forall l :: l in lines ==> !Opens(l, headers, lex)
  }

  /** No line that opens one of the tables is left. */
  lemma {:induction false} UngovernedNoneMatch(lines: seq<string>, headers: seq<string>, lex: Lexer)
    ensures NoneMatch(Ungoverned(lines, headers, lex), headers, lex)
    decreases |lines|
  {
    if lines != [] {
      UngovernedNoneMatch(Init(lines), headers, lex);
      GovernedStep(lines, |lines| - 1, headers, lex);
    }
  }

  lemma FewerMatch(lines: seq<string>, headers: seq<string>, fewer: seq<string>, lex: Lexer)
    requires NoneMatch(lines, headers, lex) && forall h :: h in fewer ==> h in headers
    ensures NoneMatch(lines, fewer, lex)
  {
    forall l | l in lines
      ensures !Opens(l, fewer, lex)
    {
      assert Matches(l, fewer, lex) ==> Matches(l, headers, lex);
    }
  }

  /** Lines of one table: its header, which the headers name, and no other header. */
  predicate IsEntry(lines: seq<string>, headers: seq<string>, lex: Lexer) {
    && lines != [] && Opens(lines[0], headers, lex)
    && forall i :: 1 <= i < |lines| ==> !IsHeader(lines[i], lex)
  }

  lemma NoneGoverned(lines: seq<string>, i: nat, headers: seq<string>, lex: Lexer)
    requires NoneMatch(lines, headers, lex) && i < |lines|
    ensures !Governed(lines, i, headers, lex)
  {
    forall j | 0 <= j <= i
      ensures !Opens(lines[j], headers, lex)
    {
      assert lines[j] in lines;
    }
  }

  lemma {:induction false} UngovernedAll(lines: seq<string>, headers: seq<string>, lex: Lexer)
    requires NoneMatch(lines, headers, lex)
    ensures Ungoverned(lines, headers, lex) == lines
    decreases |lines|
  {
    if lines != [] {
      assert forall l :: l in Init(lines) ==> l in lines;
      UngovernedAll(Init(lines), headers, lex);
      NoneGoverned(lines, |lines| - 1, headers, lex);
    }
  }

  lemma {:induction false} UngovernedBefore(lines: seq<string>, entry: seq<string>, n: nat, headers: seq<string>,
      lex: Lexer)
    requires NoneMatch(lines, headers, lex) && IsEntry(entry, headers, lex) && n <= |entry|
    ensures Ungoverned(lines + entry[..n], headers, lex) == lines
  {
    var all := lines + entry[..n];
    if n == 0 {
      assert all == lines;
      UngovernedAll(lines, headers, lex);
    } else {
      assert Init(all) == lines + entry[..n - 1];
      UngovernedBefore(lines, entry, n - 1, headers, lex);
      assert all[|lines|] == entry[0];
      assert forall k :: |lines| < k < |all| ==> all[k] == entry[k - |lines|];
      assert InTableAt(all, |all| - 1, |lines|, headers, lex);
    }
  }

  lemma UnblankSpaced(kept: seq<string>)
    requires kept != [] ==> Last(kept) != ""
    ensures Unblank(Spaced(kept)) == kept
  {
    if kept != [] {
      assert Init(Spaced(kept)) == kept;
    }
  }

  lemma SpacedNoneMatch(kept: seq<string>, headers: seq<string>, lex: Lexer)
    requires NoneMatch(kept, headers, lex)
    ensures NoneMatch(Spaced(kept), headers, lex)
  {
  }

  /** Once edited, the text has of our tables only the entry's: every other line is in none of them. */
  lemma EditedHasOnlyTheEntry(text: string, headers: seq<string>, again: seq<string>, entry: string, lex: Lexer)
    requires AllLines(Lines(text)) && IsEntry(Lines(entry), again, lex)
    requires forall h :: h in again ==> h in headers
    ensures var kept := Unblank(Ungoverned(Lines(text), headers, lex));
            && NoneMatch(Spaced(kept), headers, lex)
            && Ungoverned(Lines(Edited(text, headers, entry, lex)), again, lex) == Spaced(kept)
  {
    var all := Ungoverned(Lines(text), headers, lex);
    var kept, e := Unblank(all), Lines(entry);
    UngovernedNoneMatch(Lines(text), headers, lex);
    assert forall l :: l in kept ==> l in all;
    SpacedNoneMatch(kept, headers, lex);
    FewerMatch(Spaced(kept), headers, again, lex);
    EditKeepsTheRest(text, headers, entry, lex);
    UngovernedBefore(Spaced(kept), e, |e|, again, lex);
    assert e[..|e|] == e;
  }

  /** Editing the result again changes nothing: also when, the old entry being gone, only our own name is looked for. */
  lemma EditTwiceIsOnce(text: string, headers: seq<string>, again: seq<string>, entry: string, lex: Lexer)
    requires AllLines(Lines(text)) && AllLines(Lines(entry)) && IsEntry(Lines(entry), again, lex)
    requires forall h :: h in again ==> h in headers
    ensures var once := Edited(text, headers, entry, lex);
            Edited(once, again, entry, lex) == once
  {
    var once := Edited(text, headers, entry, lex);
    var kept := Unblank(Ungoverned(Lines(text), headers, lex));
    EditedText(text, headers, entry, lex);
    EditKeepsTheRest(text, headers, entry, lex);
    assert AllLines(Lines(once));
    EditedHasOnlyTheEntry(text, headers, again, entry, lex);
    EditedText(once, again, entry, lex);
    UnblankSpaced(kept);
  }

  lemma OnlyTheFirst(kept: seq<string>, entry: seq<string>, headers: seq<string>, lex: Lexer, i: nat)
    requires NoneMatch(kept, headers, lex) && IsEntry(entry, headers, lex) && i < |kept + entry|
    ensures Opens((kept + entry)[i], headers, lex) <==> i == |kept|
  {
    if i < |kept| {
      assert (kept + entry)[i] in kept;
    } else {
      assert (kept + entry)[i] == entry[i - |kept|];
    }
  }

  /** Exactly one line of the result opens one of our tables: the entry's first. */
  lemma OneHeader(text: string, headers: seq<string>, entry: string, lex: Lexer, i: nat)
    requires AllLines(Lines(text)) && IsEntry(Lines(entry), headers, lex)
    requires i < |Lines(Edited(text, headers, entry, lex))|
    ensures var lines := Lines(Edited(text, headers, entry, lex));
            Opens(lines[i], headers, lex) <==> i == |lines| - |Lines(entry)|
  {
    var kept := Spaced(Unblank(Ungoverned(Lines(text), headers, lex)));
    EditKeepsTheRest(text, headers, entry, lex);
    EditedHasOnlyTheEntry(text, headers, headers, entry, lex);
    OnlyTheFirst(kept, Lines(entry), headers, lex, i);
  }

  // ---- Which tables are ours ----

  /** A key, bare or quoted, that ends where its table's name does. */
  predicate IsKey(key: string) {
    forall c :: c in key ==> c !in {']', '.'}
  }

  function Quoted(name: string): string {
    "\"" + name + "\""
  }

  function Keys(name: string, oldName: Option<string>): seq<string> {
    [name, Quoted(name)] + (if oldName.Some? then [oldName.value, Quoted(oldName.value)] else [])
  }

  predicate Begins(line: string, header: string) {
    header <= line && |line| > |header| && line[|header|] in {']', '.'}
  }

  lemma BeginsExactly(lead: string, mine: string, key: string, rest: string)
    requires IsKey(key) && IsKey(mine) && rest != "" && rest[0] in {']', '.'}
    ensures Begins(lead + key + rest, lead + mine) <==> key == mine
  {
    var line, header := lead + key + rest, lead + mine;
    assert forall i :: 0 <= i < |key| ==> line[|lead| + i] == key[i] && key[i] in key;
    assert line[|lead| + |key|] == rest[0];
    if Begins(line, header) {
      assert forall i :: 0 <= i < |mine| ==> line[|lead| + i] == header[|lead| + i] == mine[i] && mine[i] in mine;
      assert |mine| == |key|;
      assert key == mine;
    }
  }

  lemma HeadersAreOfKeys(name: string, oldName: Option<string>, lead: string)
    requires lead == "[mcp_servers."
    ensures |Headers(name, oldName)| == |Keys(name, oldName)|
    ensures forall i :: 0 <= i < |Keys(name, oldName)| ==> Headers(name, oldName)[i] == lead + Keys(name, oldName)[i]
  {
    assert "[mcp_servers.\"" == lead + "\"";
    assert "[mcp_servers.\"" + name + "\"" == lead + Quoted(name);
    if oldName.Some? {
      assert "[mcp_servers.\"" + oldName.value + "\"" == lead + Quoted(oldName.value);
    }
  }

  lemma OpensExactly(lead: string, headers: seq<string>, keys: seq<string>, key: string, rest: string, lex: Lexer)
    requires lead != "" && lead[0] == '[' && !lex.isSpace('[')
    requires |headers| == |keys| && forall i :: 0 <= i < |keys| ==> headers[i] == lead + keys[i] && IsKey(keys[i])
    requires IsKey(key) && rest != "" && rest[0] in {']', '.'}
    ensures Opens(lead + key + rest, headers, lex) <==> key in keys
  {
    var line := lead + key + rest;
    assert TrimStart(line, lex.isSpace) == line;
    assert Opens(line, headers, lex) <==> exists h :: h in headers && Begins(line, h);
    forall i | 0 <= i < |keys|
      ensures Begins(line, headers[i]) <==> key == keys[i]
    {
      BeginsExactly(lead, keys[i], key, rest);
    }
  }

  /**
   * A line opening a server's table, or a sub-table of it, is one of ours exactly when the
   * server's name is ours or the old one,
   * bare or quoted: a name that merely begins with ours is another's.
   */
  lemma OnlyOurNamesAreOurs(name: string, oldName: Option<string>, key: string, rest: string, lex: Lexer)
    requires IsKey(name) && (oldName.Some? ==> IsKey(oldName.value)) && !lex.isSpace('[')
    requires IsKey(key) && rest != "" && rest[0] in {']', '.'}
    ensures Opens("[mcp_servers." + key + rest, Headers(name, oldName), lex) <==> key in Keys(name, oldName)
  {
    var lead := "[mcp_servers.";
    HeadersAreOfKeys(name, oldName, lead);
    OpensExactly(lead, Headers(name, oldName), Keys(name, oldName), key, rest, lex);
  }

  // ---- The table written ----

  predicate OneLine(s: string) {
    '\n' !in s && '\r' !in s
  }

  /** A string as TOML writes it on one line, between quotes. */
  predicate QuotedOnOneLine(toml: Toml, s: string) {
    OneLine(toml.quoted(s))
  }

  lemma LinesOfFour(a: string, b: string, c: string, d: string)
    requires AllLines([a, b, c, d])
    ensures Lines(a + "\n" + b + "\n" + c + "\n" + d + "\n") == [a, b, c, d]
  {
    var lines := [a, b, c, d];
    var t := a + "\n" + b + "\n" + c + "\n" + d + "\n";
    assert lines[1..] == [b, c, d] && lines[1..][1..] == [c, d] && lines[1..][1..][1..] == [d];
    assert Terminated([d]) == d + "\n" + "";
    assert Terminated([c, d]) == c + "\n" + Terminated([d]);
    assert Terminated([b, c, d]) == b + "\n" + Terminated([c, d]);
    assert Terminated(lines) == t;
    LinesOfTerminated(lines, "");
    assert t + "" == t;
  }

  /** The pieces of the table, with its line ends taken out of the literals. */
  lemma Regrouped(lead: string, name: string, close: string, command: string, shim: string, args: string,
      address: string,
                  end: string, timeout: string)
    ensures lead + name + (close + "\n" + command) + shim + ("\n" + args) + address + (end + "\n" + timeout + "\n")
         == (lead + name + close) + "\n" + (command + shim) + "\n" + (args + address + end) + "\n" + timeout + "\n"
  {
    var a, b, c := lead + name + close, command + shim, args + address + end;
    assert lead + name + (close + "\n" + command) + shim == a + "\n" + b;
    assert ("\n" + args) + address + (end + "\n" + timeout + "\n") == "\n" + c + "\n" + timeout + "\n";
  }

  function TableLines(name: string, shim: string, address: string, toml: Toml): seq<string> {
    ["[mcp_servers." + name + "]", "command = " + toml.quoted(shim),
     "args = [\"--mailbox\", " + toml.quoted(address) + "]", "tool_timeout_sec = 900"]
  }

  lemma Literals()
    ensures "]\ncommand = " == "]" + "\n" + "command = "
    ensures "\nargs = [\"--mailbox\", " == "\n" + "args = [\"--mailbox\", "
    ensures "]\ntool_timeout_sec = 900\n" == "]" + "\n" + "tool_timeout_sec = 900" + "\n"
  {
  }

  lemma TableText(name: string, shim: string, address: string, toml: Toml)
    ensures var l := TableLines(name, shim, address, toml);
            CodexTable(name, shim, address, toml) == l[0] + "\n" + l[1] + "\n" + l[2] + "\n" + l[3] + "\n"
  {
    Literals();
    Regrouped("[mcp_servers.", name, "]", "command = ", toml.quoted(shim), "args = [\"--mailbox\", ",
        toml.quoted(address),
              "]", "tool_timeout_sec = 900");
  }

  lemma Around(before: string, s: string, after: string)
    requires OneLine(before) && OneLine(s) && OneLine(after)
    ensures OneLine(before + s) && OneLine(before + s + after)
    ensures IsLine(before + s) && IsLine(before + s + after)
  {
    var all := before + s + after;
    assert forall c :: c in before + s ==> c in before || c in s;
    assert forall c :: c in all ==> c in before || c in s || c in after;
    assert all != "" ==> Last(all) in all;
    assert before + s != "" ==> Last(before + s) in before + s;
  }

  lemma HeaderIsOneLine()
    ensures OneLine("[mcp_servers.") && OneLine("]") && OneLine("command = ") && OneLine("")
  {
  }

  lemma TimeoutIsLine()
    ensures IsLine("tool_timeout_sec = 900")
  {
  }

  lemma LiteralsAreOneLine()
    ensures OneLine("[mcp_servers.") && OneLine("]") && OneLine("command = ") && OneLine("args = [\"--mailbox\", ")
    ensures IsLine("tool_timeout_sec = 900") && OneLine("")
  {
    HeaderIsOneLine();
    TimeoutIsLine();
  }

  lemma FourAreLines(l: seq<string>)
    requires |l| == 4 && IsLine(l[0]) && IsLine(l[1]) && IsLine(l[2]) && IsLine(l[3])
    ensures AllLines(l)
  {
  }

  lemma TableLinesAreLines(name: string, shim: string, address: string, toml: Toml)
    requires OneLine(name) && QuotedOnOneLine(toml, shim) && QuotedOnOneLine(toml, address)
    ensures AllLines(TableLines(name, shim, address, toml))
  {
    LiteralsAreOneLine();
    Around("[mcp_servers.", name, "]");
    Around("command = ", toml.quoted(shim), "");
    Around("args = [\"--mailbox\", ", toml.quoted(address), "]");
    FourAreLines(TableLines(name, shim, address, toml));
  }

  lemma LinesOfTable(name: string, shim: string, address: string, toml: Toml)
    requires OneLine(name) && QuotedOnOneLine(toml, shim) && QuotedOnOneLine(toml, address)
    ensures Lines(CodexTable(name, shim, address, toml)) == TableLines(name, shim, address, toml)
    ensures AllLines(TableLines(name, shim, address, toml))
  {
    var l := TableLines(name, shim, address, toml);
    TableLinesAreLines(name, shim, address, toml);
    TableText(name, shim, address, toml);
    FourAre(l);
    LinesOfFour(l[0], l[1], l[2], l[3]);
  }

  lemma TableLinesAreEntry(name: string, oldName: Option<string>, shim: string, address: string, toml: Toml, lex: Lexer)
    requires IsKey(name) && (oldName.Some? ==> IsKey(oldName.value))
    requires forall c :: c in {'[', 'c', 'a', 't'} ==> !lex.isSpace(c)
    ensures IsEntry(TableLines(name, shim, address, toml), Headers(name, oldName), lex)
  {
    OnlyOurNamesAreOurs(name, oldName, name, "]", lex);
    EntryOfFour(TableLines(name, shim, address, toml), Headers(name, oldName), lex);
  }

  /** The table Codex is given is one table of ours, for any strings TOML writes on one line. */
  lemma TableIsEntry(name: string, oldName: Option<string>, shim: string, address: string, toml: Toml, lex: Lexer)
    requires IsKey(name) && OneLine(name) && (oldName.Some? ==> IsKey(oldName.value))
    requires QuotedOnOneLine(toml, shim) && QuotedOnOneLine(toml, address)
    requires forall c :: c in {'[', 'c', 'a', 't'} ==> !lex.isSpace(c)
    ensures var lines := Lines(CodexTable(name, shim, address, toml));
            AllLines(lines) && IsEntry(lines, Headers(name, oldName), lex)
  {
    LinesOfTable(name, shim, address, toml);
    TableLinesAreEntry(name, oldName, shim, address, toml, lex);
  }

  lemma FourAre(l: seq<string>)
    requires |l| == 4
    ensures l == [l[0], l[1], l[2], l[3]]
  {
  }

  lemma EntryOfFour(l: seq<string>, headers: seq<string>, lex: Lexer)
    requires |l| == 4 && Opens(l[0], headers, lex)
    requires forall i :: 1 <= i < 4 ==> l[i] != "" && l[i][0] in {'c', 'a', 't'}
    requires forall c :: c in {'c', 'a', 't'} ==> !lex.isSpace(c)
    ensures IsEntry(l, headers, lex)
  {
    forall i | 1 <= i < 4
      ensures !IsHeader(l[i], lex)
    {
      StartsPlain(l[i], lex);
    }
  }

  lemma StartsPlain(line: string, lex: Lexer)
    requires line != "" && line[0] in {'c', 'a', 't'} && !lex.isSpace(line[0])
    ensures !IsHeader(line, lex)
  {
  }

  lemma ConnectTwiceIsOnce(text: string, name: string, oldName: Option<string>, shim: string, address: string,
                           toml: Toml, lex: Lexer)
    requires AllLines(Lines(text)) && IsKey(name) && OneLine(name) && (oldName.Some? ==> IsKey(oldName.value))
    requires QuotedOnOneLine(toml, shim) && QuotedOnOneLine(toml, address)
    requires forall c :: c in {'[', 'c', 'a', 't'} ==> !lex.isSpace(c)
    ensures var entry := CodexTable(name, shim, address, toml);
            var once := Edited(text, Headers(name, oldName), entry, lex);
            Edited(once, Headers(name, oldName), entry, lex) == once == Edited(once, Headers(name, None), entry, lex)
  {
    var entry := CodexTable(name, shim, address, toml);
    TableIsEntry(name, oldName, shim, address, toml, lex);
    TableIsEntry(name, None, shim, address, toml, lex);
    assert forall h :: h in Headers(name, None) ==> h in Headers(name, oldName) by {
      assert Headers(name, oldName)[..2] == Headers(name, None);
    }
    EditTwiceIsOnce(text, Headers(name, oldName), Headers(name, oldName), entry, lex);
    EditTwiceIsOnce(text, Headers(name, oldName), Headers(name, None), entry, lex);
  }

  lemma LedLocalPartIsKey(lead: string, local: string)
    requires IsLocalPart(local) && IsKey(lead) && OneLine(lead)
    ensures IsKey(lead + local) && OneLine(lead + local)
  {
    assert forall c :: c in lead + local ==> c in lead || IsLocal(c);
  }

  /** What the app names its servers, now and before it was named Kaluta, are keys on one line. */
  lemma ServerNamesAreKeys(address: string, lex: Lexer)
    requires Lowers(lex)
    ensures IsKey(ServerName(address, lex)) && OneLine(ServerName(address, lex))
    ensures IsKey(OldServerName(address, lex)) && OneLine(OldServerName(address, lex))
  {
    LocalPartIsLocal(BeforeAt(address), lex);
    LedLocalPartIsKey("kaluta-", LocalPart(BeforeAt(address), lex));
    LedLocalPartIsKey("openagc-", LocalPart(BeforeAt(address), lex));
  }

  /** Connecting a mailbox twice writes what connecting it once did, whether or not the file still had the old entry. */
  lemma ConnectMailboxTwiceIsOnce(text: string, hasOld: bool, shim: string, address: string, toml: Toml, lex: Lexer)
    requires Lowers(lex) && AllLines(Lines(text)) && QuotedOnOneLine(toml, shim) && QuotedOnOneLine(toml, address)
    requires forall c :: c in {'[', 'c', 'a', 't'} ==> !lex.isSpace(c)
    ensures var name := ServerName(address, lex);
            var oldName := if hasOld then Some(OldServerName(address, lex)) else None;
            var entry := CodexTable(name, shim, address, toml);
            var once := Edited(text, Headers(name, oldName), entry, lex);
            Edited(once, Headers(name, oldName), entry, lex) == once == Edited(once, Headers(name, None), entry, lex)
  {
    ServerNamesAreKeys(address, lex);
    ConnectTwiceIsOnce(text, ServerName(address, lex), if hasOld then Some(OldServerName(address, lex)) else None,
                       shim, address, toml, lex);
  }
}
