// The command to paste instead of letting the app write a config file
// (crates/kaluta-core/src/agent_connect.rs), and how a POSIX shell splits it:
// escape characters and single quotes as in sections 2.2.1 and 2.2.2 of the
// Shell Command Language, IEEE Std 1003.1.
module Shell {
  import opened Prelude
  import opened Text
  import opened Names

  // ---- The shell ----

  predicate IsBlank(c: char) {
    c == ' ' || c == '\t'
  }

  /** Characters that mean something to the shell where they are not quoted. */
  predicate IsSpecial(c: char) {
    c in {'|', '&', ';', '<', '>', '(', ')', '$', '`', '\\', '"', '\'', '\n', '*', '?', '[', '#', '~', '!', '{', '}'}
  }

  function Ended(current: Option<string>): seq<string> {
    if current.Some? then [current.value] else []
  }

  function Grown(current: Option<string>, c: char): Option<string> {
    Some((if current.Some? then current.value else "") + [c])
  }

  /**
   * The words of `s`, after a word begun as `current` (within single quotes when
   * `quoted`); none if any of it needs more of a shell.
   */
  function Split(s: string, current: Option<string>, quoted: bool): Option<seq<string>>
    requires quoted ==> current.Some?
    decreases |s|
  {
    if s == "" then (if quoted then None else Some(Ended(current)))
    else if quoted then
      if s[0] == '\'' then Split(s[1..], current, false)
      else Split(s[1..], Some(current.value + [s[0]]), true)
    else if IsBlank(s[0]) then
      match Split(s[1..], None, false)
      case Some(words) => Some(Ended(current) + words)
      case None => None
    else if s[0] == '\'' then Split(s[1..], Some(if current.Some? then current.value else ""), true)
    else if s[0] == '\\' then
      if |s| == 1 || s[1] == '\n' then None else Split(s[2..], Grown(current, s[1]), false)
    else if IsSpecial(s[0]) then None
    else Split(s[1..], Grown(current, s[0]), false)
  }

  function ShellWords(s: string): Option<seq<string>> {
    Split(s, None, false)
  }

  // ---- Quoting ----

  predicate IsPlain(c: char) {
    IsAsciiAlphanumeric(c) || c in "@%+=:,./-_"
  }

  function Escaped(word: string): string {
    if word == "" then "" else (if word[0] == '\'' then "'\\''" else [word[0]]) + Escaped(word[1..])
  }

  /** A word for a POSIX shell, quoted when it needs it. */
  function ShellWord(word: string): string {
    if word != "" && forall c :: c in word ==> IsPlain(c) then word
    else "'" + Escaped(word) + "'"
  }

  lemma {:induction false} PlainReads(word: string, rest: string, begun: string)
    requires forall c :: c in word ==> IsPlain(c)
    ensures Split(word + rest, Some(begun), false) == Split(rest, Some(begun + word), false)
    decreases |word|
  {
    if word == "" {
      assert word + rest == rest && begun + word == begun;
    } else {
      assert word[0] in word;
      assert (word + rest)[1..] == word[1..] + rest;
      assert begun + [word[0]] + word[1..] == begun + word;
      PlainReads(word[1..], rest, begun + [word[0]]);
    }
  }

  /** A quote inside single quotes is written by leaving them for an escaped quote. */
  lemma EscapedQuoteReads(tail: string, begun: string)
    ensures Split("'\\''" + tail, Some(begun), true) == Split(tail, Some(begun + "'"), true)
  {
    var s := "'\\''" + tail;
    var s1, s2, s3 := s[1..], s[1..][2..], s[1..][2..][1..];
    assert s1[0] == '\\' && s1[1] == '\'' && s2[0] == '\'' && s3 == tail;
    assert Split(s, Some(begun), true) == Split(s1, Some(begun), false);
    assert Split(s1, Some(begun), false) == Split(s2, Some(begun + ['\'']), false);
    assert Split(s2, Some(begun + ['\'']), false) == Split(s3, Some(begun + ['\'']), true);
  }

  lemma QuotedCharReads(first: char, tail: string, begun: string)
    requires first != '\''
    ensures Split([first] + tail, Some(begun), true) == Split(tail, Some(begun + [first]), true)
  {
    assert ([first] + tail)[1..] == tail;
  }

  lemma EscapedSplits(word: string, rest: string, quote: string)
    requires word != "" && quote == "'\\''"
    ensures Escaped(word) + rest == (if word[0] == '\'' then quote else [word[0]]) + (Escaped(word[1..]) + rest)
  {
  }

  lemma EscapedFirst(word: string, rest: string, begun: string)
    requires word != ""
    ensures Split(Escaped(word) + rest, Some(begun), true)
            == Split(Escaped(word[1..]) + rest, Some(begun + [word[0]]), true)
  {
    EscapedSplits(word, rest, "'\\''");
    if word[0] == '\'' {
      EscapedQuoteReads(Escaped(word[1..]) + rest, begun);
    } else {
      QuotedCharReads(word[0], Escaped(word[1..]) + rest, begun);
    }
  }

  lemma {:induction false} EscapedReads(word: string, rest: string, begun: string)
    ensures Split(Escaped(word) + ("'" + rest), Some(begun), true) == Split(rest, Some(begun + word), false)
    decreases |word|
  {
    if word == "" {
      var s := Escaped(word) + ("'" + rest);
      assert s[0] == '\'' && s[1..] == rest && begun + word == begun;
    } else {
      EscapedFirst(word, "'" + rest, begun);
      EscapedReads(word[1..], rest, begun + [word[0]]);
      assert begun + [word[0]] + word[1..] == begun + word;
    }
  }

  lemma PlainIsNotSpecial(c: char)
    requires IsPlain(c)
    ensures !IsSpecial(c) && !IsBlank(c) && c != '\'' && c != '\\'
  {
  }

  lemma PlainWordReads(word: string, rest: string)
    requires word != "" && forall c :: c in word ==> IsPlain(c)
    ensures Split(word + rest, None, false) == Split(rest, Some(word), false)
  {
    assert word[0] in word;
    var begun := [word[0]];
    assert Grown(None, word[0]) == Some(begun) by {
      assert "" + begun == begun;
    }
    assert (word + rest)[1..] == word[1..] + rest && begun + word[1..] == word;
    PlainIsNotSpecial(word[0]);
    var s := word + rest;
    assert Split(s, None, false) == Split(s[1..], Grown(None, s[0]), false);
    PlainReads(word[1..], rest, begun);
  }

  lemma QuotedWordReads(word: string, rest: string)
    ensures Split("'" + Escaped(word) + "'" + rest, None, false) == Split(rest, Some(word), false)
  {
    var s, tail := "'" + Escaped(word) + "'" + rest, Escaped(word) + ("'" + rest);
    assert s[0] == '\'' && s[1..] == tail;
    calc {
      Split(s, None, false);
      Split(tail, Some(""), true);
      { EscapedReads(word, rest, ""); }
      Split(rest, Some("" + word), false);
      { assert "" + word == word; }
      Split(rest, Some(word), false);
    }
  }

  /** Quoting is undone: whatever the word, and whatever follows it, the shell reads exactly that word. */
  lemma ShellWordReads(word: string, rest: string)
    ensures Split(ShellWord(word) + rest, None, false) == Split(rest, Some(word), false)
  {
    if word != "" && forall c :: c in word ==> IsPlain(c) {
      PlainWordReads(word, rest);
    } else {
      QuotedWordReads(word, rest);
    }
  }

  // ---- Whole commands ----

  lemma LastWordReads(word: string)
    ensures ShellWords(ShellWord(word)) == Some([word])
  {
    ShellWordReads(word, "");
    assert ShellWord(word) + "" == ShellWord(word);
  }

  lemma WordReads(word: string, rest: string, words: seq<string>)
    requires ShellWords(rest) == Some(words)
    ensures ShellWords(ShellWord(word) + (" " + rest)) == Some([word] + words)
  {
    ShellWordReads(word, " " + rest);
    assert (" " + rest)[1..] == rest;
  }

  function CodexPaste(name: string, shim: string, address: string): string {
    "codex mcp add " + name + " -- " + ShellWord(shim) + " --mailbox " + ShellWord(address)
  }

  function ClaudePaste(name: string, shim: string, address: string): string {
    "claude mcp add --scope user " + name + " -- " + ShellWord(shim) + " --mailbox " + ShellWord(address)
  }

  lemma PlainStays(word: string)
    requires word != "" && forall c :: c in word ==> IsPlain(c)
    ensures ShellWord(word) == word
  {
  }

  /** A server name, written without quotes, needs none. */
  lemma ServerNameIsPlain(address: string, lex: Lexer)
    requires Lowers(lex)
    ensures ShellWord(ServerName(address, lex)) == ServerName(address, lex)
  {
    LocalPartIsLocal(BeforeAt(address), lex);
    assert forall c :: c in "kaluta-" ==> IsPlain(c);
  }

  /** The part both commands end in: the name, `--` and the shim with its mailbox. */
  lemma TailReads(name: string, dashes: string, shim: string, flag: string, address: string,
                  beforeShim: string, beforeAddress: string)
    requires ShellWord(name) == name && ShellWord(dashes) == dashes && ShellWord(flag) == flag
    requires beforeShim == " " + (dashes + " ") && beforeAddress == " " + (flag + " ")
    ensures ShellWords(name + beforeShim + ShellWord(shim) + beforeAddress + ShellWord(address))
         == Some([name, dashes, shim, flag, address])
  {
    var s4 := flag + (" " + ShellWord(address));
    var s3 := ShellWord(shim) + (" " + s4);
    var s2 := dashes + (" " + s3);
    LastWordReads(address);
    WordReads(flag, ShellWord(address), [address]);
    WordReads(shim, s4, [flag] + [address]);
    WordReads(dashes, s3, [shim] + ([flag] + [address]));
    WordReads(name, s2, [dashes] + ([shim] + ([flag] + [address])));
    assert beforeAddress + ShellWord(address) == " " + s4;
    assert name + beforeShim + ShellWord(shim) + beforeAddress + ShellWord(address)
        == name + beforeShim + (ShellWord(shim) + (beforeAddress + ShellWord(address)));
    assert name + beforeShim + s3 == name + (" " + s2);
    assert [name] + ([dashes] + ([shim] + ([flag] + [address]))) == [name, dashes, shim, flag, address];
  }

  /** Three plain words before the rest of a command. */
  lemma LeadReads(a: string, b: string, c: string, lead: string, rest: string, words: seq<string>)
    requires ShellWord(a) == a && ShellWord(b) == b && ShellWord(c) == c
    requires lead == a + (" " + (b + (" " + (c + " ")))) && ShellWords(rest) == Some(words)
    ensures ShellWords(lead + rest) == Some([a, b, c] + words)
  {
    WordReads(c, rest, words);
    WordReads(b, c + (" " + rest), [c] + words);
    WordReads(a, b + (" " + (c + (" " + rest))), [b] + ([c] + words));
    assert lead + rest == a + (" " + (b + (" " + (c + (" " + rest)))));
    assert [a] + ([b] + ([c] + words)) == [a, b, c] + words;
  }

  lemma PlainPieces()
    ensures ShellWord("mcp") == "mcp" && ShellWord("add") == "add" && ShellWord("--") == "--"
    ensures ShellWord("--mailbox") == "--mailbox"
    ensures " -- " == " " + ("--" + " ") && " --mailbox " == " " + ("--mailbox" + " ")
  {
    PlainStays("mcp");
    PlainStays("add");
    PlainStays("--");
    PlainStays("--mailbox");
  }

  lemma CodexLead()
    ensures ShellWord("codex") == "codex"
    ensures "codex mcp add " == "codex" + (" " + ("mcp" + (" " + ("add" + " "))))
  {
    PlainStays("codex");
  }

  lemma ClaudeLead()
    ensures ShellWord("claude") == "claude" && ShellWord("--scope") == "--scope" && ShellWord("user") == "user"
    ensures "claude mcp add --scope user " == "claude" + (" " + ("mcp" + (" " + ("add" + " ")))) + "--scope user "
    ensures "--scope user " == "--scope" + (" " + ("user" + " "))
  {
    PlainStays("claude");
    PlainStays("--scope");
    PlainStays("user");
  }

  lemma MailboxTailReads(name: string, shim: string, address: string)
    requires ShellWord(name) == name
    ensures ShellWords(name + " -- " + ShellWord(shim) + " --mailbox " + ShellWord(address))
         == Some([name, "--", shim, "--mailbox", address])
  {
    PlainPieces();
    TailReads(name, "--", shim, "--mailbox", address, " -- ", " --mailbox ");
  }

  lemma Regroup(lead: string, a: string, b: string, c: string, d: string, e: string)
    ensures lead + a + b + c + d + e == lead + (a + b + c + d + e)
  {
  }

  /** Pasted, the Codex command is its eight words, whatever the shim's path and the address. */
  lemma CodexPasteReads(address: string, shim: string, lex: Lexer)
    requires Lowers(lex)
    ensures ShellWords(CodexPaste(ServerName(address, lex), shim, address))
         == Some(["codex", "mcp", "add"] + [ServerName(address, lex), "--", shim, "--mailbox", address])
  {
    var name := ServerName(address, lex);
    ServerNameIsPlain(address, lex);
    MailboxTailReads(name, shim, address);
    PlainPieces();
    CodexLead();
    var tail := name + " -- " + ShellWord(shim) + " --mailbox " + ShellWord(address);
    LeadReads("codex", "mcp", "add", "codex mcp add ", tail, [name, "--", shim, "--mailbox", address]);
    Regroup("codex mcp add ", name, " -- ", ShellWord(shim), " --mailbox ", ShellWord(address));
  }

  /** And the Claude Code command its ten. */
  lemma ClaudePasteReads(address: string, shim: string, lex: Lexer)
    requires Lowers(lex)
    ensures ShellWords(ClaudePaste(ServerName(address, lex), shim, address))
         == Some(["claude", "mcp", "add"]
                 + (["--scope", "user"] + [ServerName(address, lex), "--", shim, "--mailbox", address]))
  {
    var name := ServerName(address, lex);
    ServerNameIsPlain(address, lex);
    MailboxTailReads(name, shim, address);
    var tail := name + " -- " + ShellWord(shim) + " --mailbox " + ShellWord(address);
    ClaudeLeadReads(tail, [name, "--", shim, "--mailbox", address]);
    Regroup("claude mcp add --scope user ", name, " -- ", ShellWord(shim), " --mailbox ", ShellWord(address));
  }

  lemma ClaudeLeadReads(rest: string, words: seq<string>)
    requires ShellWords(rest) == Some(words)
    ensures ShellWords("claude mcp add --scope user " + rest)
         == Some(["claude", "mcp", "add"] + (["--scope", "user"] + words))
  {
    PlainPieces();
    ClaudeLead();
    var lead := "claude" + (" " + ("mcp" + (" " + ("add" + " "))));
    ScopeReads("--scope", "user", "--scope user ", rest, words);
    LeadReads("claude", "mcp", "add", lead, "--scope user " + rest, ["--scope", "user"] + words);
    assert lead + ("--scope user " + rest) == "claude mcp add --scope user " + rest;
  }

  lemma ScopeReads(a: string, b: string, lead: string, rest: string, words: seq<string>)
    requires ShellWord(a) == a && ShellWord(b) == b
    requires lead == a + (" " + (b + " ")) && ShellWords(rest) == Some(words)
    ensures ShellWords(lead + rest) == Some([a, b] + words)
  {
    WordReads(b, rest, words);
    WordReads(a, b + (" " + rest), [b] + words);
    assert lead + rest == a + (" " + (b + (" " + rest)));
    assert [a] + ([b] + words) == [a, b] + words;
  }
}
