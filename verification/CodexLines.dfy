// The lines of Codex's config file after an edit, by the lines before and the names looked for.
module CodexLines {
  import opened Prelude
  import opened Text
  import opened TextLaws
  import opened CodexConfig

  // ---- Lines ----

  lemma UpToFeed(whole: string, rest: string)
    requires '\n' !in whole
    ensures Lines(whole + "\n" + rest) == [Unreturned(whole)] + Lines(rest)
  {
    var s := whole + "\n" + rest;
    assert s == whole + ("\n" + rest);
    UntilPast(whole, "\n" + rest, IsNewline);
    assert s[..|whole|] == whole && s[|whole| + 1..] == rest;
  }

  /** A line ends at its line feed, and loses a carriage return before it. */
  lemma LineByLine(line: string, rest: string)
    requires '\n' !in line
    ensures Lines(line + "\r" + "\n" + rest) == [line] + Lines(rest)
    ensures (line == "" || Last(line) != '\r') ==> Lines(line + "\n" + rest) == [line] + Lines(rest)
  {
    UpToFeed(line, rest);
    UpToFeed(line + "\r", rest);
    assert Init(line + "\r") == line;
  }

  /** What comes after the last line feed is a line, if there is anything. */
  lemma LastLine(line: string)
    requires '\n' !in line
    ensures Lines(line) == if line == "" then [] else [line]
  {
    UntilPast(line, "", IsNewline);
    assert line + "" == line;
  }

  // ---- Tables ----

  /** White space, and then `[`. */
  predicate OpensATable(line: string, lex: Lexer) {
    exists n: nat :: n < |line| && IsIndent(line, n, lex) && line[n] == '['
  }

  predicate IsIndent(line: string, n: nat, lex: Lexer)
    requires n <= |line|
  {
    forall k :: 0 <= k < n ==> lex.isSpace(line[k])
  }

  /** White space, and then the header of the server's table or of a sub-table of it. */
  predicate OpensServer(line: string, key: string, lex: Lexer) {
    exists n: nat :: n < |line| && IsIndent(line, n, lex) && Begins(line[n..], "[mcp_servers." + key)
  }

  /** Ours or the old one, bare or quoted. */
  predicate OpensOurs(line: string, name: string, oldName: Option<string>, lex: Lexer) {
    || OpensServer(line, name, lex) || OpensServer(line, "\"" + name + "\"", lex)
    || (oldName.Some? && (OpensServer(line, oldName.value, lex) || OpensServer(line, "\"" + oldName.value + "\"", lex)))
  }

  /** The table the line is in is ours: so the last line down to it that opens one. */
  predicate IsInOurs(lines: seq<string>, i: nat, name: string, oldName: Option<string>, lex: Lexer)
    requires i < |lines|
  {
    exists j: nat :: j <= i && OpensOurs(lines[j], name, oldName, lex) && NoneOpens(lines, j + 1, i + 1, lex)
  }

  predicate NoneOpens(lines: seq<string>, from: nat, to: nat, lex: Lexer)
    requires to <= |lines|
  {
    forall k :: from <= k < to ==> !OpensATable(lines[k], lex)
  }

  lemma {:induction false} IndentGoes(line: string, n: nat, lex: Lexer)
    requires n < |line| && IsIndent(line, n, lex) && !lex.isSpace(line[n])
    ensures TrimStart(line, lex.isSpace) == line[n..]
    decreases n
  {
    if n > 0 {
      assert lex.isSpace(line[0]) && line[1..][n - 1..] == line[n..];
      IndentGoes(line[1..], n - 1, lex);
    }
  }

  lemma {:induction false} IndentIs(line: string, lex: Lexer) returns (n: nat)
    requires TrimStart(line, lex.isSpace) != ""
    ensures n < |line| && IsIndent(line, n, lex) && !lex.isSpace(line[n]) && TrimStart(line, lex.isSpace) == line[n..]
    decreases |line|
  {
    if lex.isSpace(line[0]) {
      n := IndentIs(line[1..], lex);
      n := n + 1;
      assert line[1..][n - 1..] == line[n..];
      assert forall k :: 1 <= k < n ==> line[k] == line[1..][k - 1];
    } else {
      n := 0;
    }
  }

  lemma HeaderIs(line: string, lex: Lexer)
    requires !lex.isSpace('[')
    ensures IsHeader(line, lex) <==> OpensATable(line, lex)
  {
    if TrimStart(line, lex.isSpace) != "" {
      var n := IndentIs(line, lex);
      assert line[n..][0] == line[n];
    }
    if OpensATable(line, lex) {
      var n: nat :| n < |line| && IsIndent(line, n, lex) && line[n] == '[';
      IndentGoes(line, n, lex);
    }
  }

  lemma ServerIs(line: string, key: string, lex: Lexer)
    requires !lex.isSpace('[')
    ensures OpensServer(line, key, lex) <==> Begins(TrimStart(line, lex.isSpace), "[mcp_servers." + key)
  {
    var header := "[mcp_servers." + key;
    assert header[0] == '[';
    if OpensServer(line, key, lex) {
      var n: nat :| n < |line| && IsIndent(line, n, lex) && Begins(line[n..], header);
      assert line[n..][0] == header[0];
      IndentGoes(line, n, lex);
    } else if Begins(TrimStart(line, lex.isSpace), header) {
      var _ := IndentIs(line, lex);
    }
  }

  lemma OursIs(line: string, name: string, oldName: Option<string>, lex: Lexer)
    requires !lex.isSpace('[')
    ensures Opens(line, Headers(name, oldName), lex) <==> OpensOurs(line, name, oldName, lex)
  {
    var keys, headers, t := Keys(name, oldName), Headers(name, oldName), TrimStart(line, lex.isSpace);
    HeadersAreOfKeys(name, oldName, "[mcp_servers.");
    forall i | 0 <= i < |keys|
      ensures OpensServer(line, keys[i], lex) <==> Begins(t, headers[i])
      ensures Begins(t, headers[i]) ==> t[0] == '['
    {
      ServerIs(line, keys[i], lex);
      assert headers[i][0] == '[';
    }
    OneOfThem(t, headers);
    assert Opens(line, headers, lex) <==> IsHeader(line, lex) && BeginsOne(t, headers);
    assert keys[0] == name && keys[1] == "\"" + name + "\"";
    assert oldName.Some? ==> keys[2] == oldName.value && keys[3] == "\"" + oldName.value + "\"";
  }

  predicate BeginsOne(t: string, headers: seq<string>) {
    exists i :: 0 <= i < |headers| && Begins(t, headers[i])
  }

  lemma OneOfThem(t: string, headers: seq<string>)
    ensures (exists h :: h in headers && h <= t && |t| > |h| && t[|h|] in {']', '.'}) <==> BeginsOne(t, headers)
  {
    if BeginsOne(t, headers) {
      var i :| 0 <= i < |headers| && Begins(t, headers[i]);
      assert headers[i] in headers;
    }
  }

  lemma InOursIs(lines: seq<string>, i: nat, name: string, oldName: Option<string>, lex: Lexer)
    requires i < |lines| && !lex.isSpace('[')
    ensures Governed(lines, i, Headers(name, oldName), lex) <==> IsInOurs(lines, i, name, oldName, lex)
  {
    forall j | 0 <= j < |lines|
      ensures IsHeader(lines[j], lex) <==> OpensATable(lines[j], lex)
      ensures Opens(lines[j], Headers(name, oldName), lex) <==> OpensOurs(lines[j], name, oldName, lex)
    {
      HeaderIs(lines[j], lex);
      OursIs(lines[j], name, oldName, lex);
    }
    forall j: nat | j <= i
      ensures InTableAt(lines, i, j, Headers(name, oldName), lex)
          <==> OpensOurs(lines[j], name, oldName, lex) && NoneOpens(lines, j + 1, i + 1, lex)
    {
    }
  }

  // ---- What stays ----

  lemma {:induction false} KeptAre(lines: seq<string>, headers: seq<string>, lex: Lexer) returns (places: seq<nat>)
    ensures var kept := Ungoverned(lines, headers, lex);
            && InOrder(places, |lines|) && |kept| == |places|
            && (forall k :: 0 <= k < |places| ==> kept[k] == lines[places[k]])
            && forall i: nat :: i < |lines| ==> (i in places <==> !Governed(lines, i, headers, lex))
    decreases |lines|
  {
    if lines == [] {
      places := [];
    } else {
      var n := |lines| - 1;
      places := KeptAre(Init(lines), headers, lex);
      forall i: nat | i < n
        ensures Governed(lines, i, headers, lex) <==> Governed(Init(lines), i, headers, lex)
      {
        GovernedPrefix(lines, i, headers, lex);
        GovernedPrefix(Init(lines), i, headers, lex);
        assert Init(lines)[..i + 1] == lines[..i + 1];
      }
      if !Governed(lines, n, headers, lex) {
        places := places + [n];
      }
    }
  }

  /** The lines at these places, a blank line if there are any, and the entry's. */
  predicate IsEditOf(result: seq<string>, lines: seq<string>, places: seq<nat>, entry: seq<string>)
    requires InOrder(places, |lines|)
  {
    var n := |places|;
    && |result| == n + (if n > 0 then 1 else 0) + |entry|
    && (forall k :: 0 <= k < n ==> result[k] == lines[places[k]])
    && (n > 0 ==> result[n] == "")
    && result[|result| - |entry|..] == entry
  }

  /** These are the lines in no table of ours, but for blank ones at the end. */
  predicate AreTheRest(places: seq<nat>, lines: seq<string>, name: string, oldName: Option<string>, lex: Lexer)
    requires InOrder(places, |lines|)
  {
    && (forall i :: i in places ==> !IsInOurs(lines, i, name, oldName, lex))
    && (places != [] ==> lines[Last(places)] != "")
    && forall i: nat :: i < |lines| && i !in places && !IsInOurs(lines, i, name, oldName, lex) ==>
         lines[i] == "" && IsPast(places, i)
  }

  predicate IsPast(places: seq<nat>, i: nat) {
    forall k :: 0 <= k < |places| ==> places[k] < i
  }

  /**
   * After an edit the file has each line that is in no table of ours, in order and as it was, but
   * for blank ones at the end; then a blank line, if any line stayed, and the entry.
   */
  lemma EditExactly(text: string, name: string, oldName: Option<string>, entry: string, lex: Lexer)
    returns (places: seq<nat>)
    requires AllLines(Lines(text)) && !lex.isSpace('[')
    ensures InOrder(places, |Lines(text)|)
    ensures AreTheRest(places, Lines(text), name, oldName, lex)
    ensures IsEditOf(Lines(Edited(text, Headers(name, oldName), entry, lex)), Lines(text), places, Lines(entry))
  {
    var lines, headers := Lines(text), Headers(name, oldName);
    var all := KeptAre(lines, headers, lex);
    var kept := Ungoverned(lines, headers, lex);
    var n := |Unblank(kept)|;
    places := all[..n];
    EditKeepsTheRest(text, headers, entry, lex);
    EditFits(lines, kept, all, n, Lines(entry));
    forall i: nat | i < |lines|
      ensures Governed(lines, i, headers, lex) <==> IsInOurs(lines, i, name, oldName, lex)
    {
      InOursIs(lines, i, name, oldName, lex);
    }
    RestAre(lines, kept, all, n, name, oldName, lex);
  }

  lemma EditFits(lines: seq<string>, kept: seq<string>, all: seq<nat>, n: nat, entry: seq<string>)
    requires InOrder(all, |lines|) && |kept| == |all| && n <= |all|
    requires forall k :: 0 <= k < |all| ==> kept[k] == lines[all[k]]
    ensures InOrder(all[..n], |lines|) && IsEditOf(Spaced(kept[..n]) + entry, lines, all[..n], entry)
  {
  }

  lemma RestAre(lines: seq<string>, kept: seq<string>, all: seq<nat>, n: nat, name: string, oldName: Option<string>,
                lex: Lexer)
    requires n <= |all| && InOrder(all, |lines|) && InOrder(all[..n], |lines|) && |kept| == |all|
    requires forall k :: 0 <= k < |all| ==> kept[k] == lines[all[k]]
    requires forall k :: n <= k < |all| ==> kept[k] == ""
    requires n > 0 ==> kept[n - 1] != ""
    requires forall i: nat :: i < |lines| ==> (i in all <==> !IsInOurs(lines, i, name, oldName, lex))
    ensures AreTheRest(all[..n], lines, name, oldName, lex)
  {
    var places := all[..n];
    assert forall k :: 0 <= k < n ==> places[k] == all[k];
    assert forall i :: i in places ==> i in all;
    forall i: nat | i < |lines| && i !in places && i in all
      ensures lines[i] == "" && IsPast(places, i)
    {
      LaterIsPast(all, n, i);
      var k :| n <= k < |all| && all[k] == i;
      assert lines[i] == kept[k];
    }
  }

  lemma LaterIsPast(all: seq<nat>, n: nat, i: nat)
    requires n <= |all| && (forall j, k :: 0 <= j < k < |all| ==> all[j] < all[k]) && i in all && i !in all[..n]
    ensures IsPast(all[..n], i) && exists k :: n <= k < |all| && all[k] == i
  {
    assert all == all[..n] + all[n..];
    var k :| 0 <= k < |all[n..]| && all[n..][k] == i;
    assert all[n + k] == i;
  }
}
