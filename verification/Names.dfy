// An agent's name as an address and as a server name
// (crates/kaluta-core/src/agent_mailbox.rs, crates/kaluta-core/src/agent_connect.rs).
module Names {
  import opened Text

  predicate IsAsciiAlphanumeric(c: char) {
    ('a' <= c <= 'z') || ('A' <= c <= 'Z') || ('0' <= c <= '9')
  }

  /** What `local_part` leaves: lower-case letters, digits and dashes. */
  predicate IsLocal(c: char) {
    ('a' <= c <= 'z') || ('0' <= c <= '9') || c == '-'
  }

  function Dashed(s: string): (d: string)
    ensures |d| == |s|
    ensures forall i :: 0 <= i < |s| ==> d[i] == (if IsAsciiAlphanumeric(s[i]) then s[i] else '-')
  {
    if s == [] then [] else [if IsAsciiAlphanumeric(s[0]) then s[0] else '-'] + Dashed(s[1..])
  }

  /** `Research Scout` becomes `research-scout`. */
  function LocalPart(name: string, lex: Lexer): string {
    var local := Join(Fields(Dashed(lex.lower(name)), c => c == '-'), "-");
    if local == "" then "agent" else local
  }

  /** The part of an address before its first `@`. */
  function BeforeAt(address: string): string {
    address[..Until(address, c => c == '@')]
  }

  function ServerName(address: string, lex: Lexer): string {
    "kaluta-" + LocalPart(BeforeAt(address), lex)
  }

  function OldServerName(address: string, lex: Lexer): string {
    "openagc-" + LocalPart(BeforeAt(address), lex)
  }

  /** A service answers with an address, or with a domain that takes mail at any local part. */
  function MailboxAddress(given: string, name: string, lex: Lexer): string {
    if '@' in given then given else LocalPart(name, lex) + "@" + given
  }

  // ---- What a local part looks like ----

  /** Dashes only inside, never two together. */
  predicate DashesInside(s: string) {
    && s != "" && s[0] != '-' && s[|s| - 1] != '-'
    && forall i :: 0 <= i < |s| - 1 ==> !(s[i] == '-' && s[i + 1] == '-')
  }

  predicate IsLocalPart(s: string) {
    DashesInside(s) && forall c :: c in s ==> IsLocal(c)
  }

  lemma {:induction false} JoinedByDashes(fields: seq<string>)
    requires fields != [] && forall f :: f in fields ==> f != "" && forall c :: c in f ==> IsLocal(c) && c != '-'
    ensures IsLocalPart(Join(fields, "-"))
    decreases |fields|
  {
    var head := fields[0];
    assert head in fields;
    assert forall i :: 0 <= i < |head| ==> head[i] in head;
    if |fields| > 1 {
      assert forall f :: f in fields[1..] ==> f in fields;
      JoinedByDashes(fields[1..]);
      var rest := Join(fields[1..], "-");
      var s := head + "-" + rest;
      assert Join(fields, "-") == s;
      assert s[|s| - 1] == rest[|rest| - 1];
      forall i | 0 <= i < |s| - 1
        ensures !(s[i] == '-' && s[i + 1] == '-')
      {
        if i < |head| {
          assert s[i] in head;
        } else if i > |head| {
          assert s[i] == rest[i - |head| - 1] && s[i + 1] == rest[i - |head|];
        } else {
          assert s[i + 1] == rest[0];
        }
      }
    }
  }

  /** Lower-casing leaves no upper-case ASCII letter: what Unicode promises of it. */
  ghost predicate Lowers(lex: Lexer) {
    forall s, c :: c in lex.lower(s) ==> !('A' <= c <= 'Z')
  }

  lemma LocalPartIsLocal(name: string, lex: Lexer)
    requires Lowers(lex)
    ensures IsLocalPart(LocalPart(name, lex))
  {
    var dashed := Dashed(lex.lower(name));
    var fields := Fields(dashed, c => c == '-');
    forall i | 0 <= i < |dashed|
      ensures IsLocal(dashed[i])
    {
      assert lex.lower(name)[i] in lex.lower(name);
    }
    if fields != [] {
      JoinedByDashes(fields);
    }
  }
}
