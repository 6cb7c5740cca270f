// What tidying a text keeps of it.
module TextLaws {
  import opened Text
  import opened Names

  predicate AllOf(s: string, p: char -> bool) {
    forall c :: c in s ==> p(c)
  }

  /** Pieces without a separator in them. */
  predicate ArePieces(pieces: seq<string>, isSeparator: char -> bool) {
    forall p :: p in pieces ==> p != "" && forall c :: c in p ==> !isSeparator(c)
  }

  lemma {:induction false} UntilPast(piece: string, rest: string, stop: char -> bool)
    requires (forall c :: c in piece ==> !stop(c)) && (rest != "" ==> stop(rest[0]))
    ensures Until(piece + rest, stop) == |piece|
  {
    if piece == "" {
      assert piece + rest == rest;
    } else {
      assert (piece + rest)[1..] == piece[1..] + rest;
      UntilPast(piece[1..], rest, stop);
    }
  }

  lemma {:induction false} SeparatorsGo(before: string, s: string, isSeparator: char -> bool)
    requires AllOf(before, isSeparator)
    ensures Fields(before + s, isSeparator) == Fields(s, isSeparator)
    decreases |before|
  {
    if before == "" {
      assert before + s == s;
    } else {
      assert before[0] in before && (before + s)[1..] == before[1..] + s;
      SeparatorsGo(before[1..], s, isSeparator);
    }
  }

  /** A text is read piece by piece, past any separators. */
  lemma FieldsOneByOne(before: string, piece: string, rest: string, isSeparator: char -> bool)
    requires AllOf(before, isSeparator) && piece != "" && forall c :: c in piece ==> !isSeparator(c)
    requires rest != "" ==> isSeparator(rest[0])
    ensures Fields(before + piece + rest, isSeparator) == [piece] + Fields(rest, isSeparator)
  {
    var s := piece + rest;
    assert before + piece + rest == before + s;
    SeparatorsGo(before, s, isSeparator);
    assert s[0] == piece[0] && piece[0] in piece;
    UntilPast(piece, rest, isSeparator);
    assert s[..|piece|] == piece && s[|piece|..] == rest;
  }

  /** Joined by a separator, pieces come apart again as they were. */
  lemma {:induction false} FieldsOfJoined(pieces: seq<string>, separator: char, isSeparator: char -> bool)
    requires ArePieces(pieces, isSeparator) && isSeparator(separator)
    ensures Fields(Join(pieces, [separator]), isSeparator) == pieces
    decreases |pieces|
  {
    if pieces != [] {
      var first := pieces[0];
      assert first in pieces && first[0] in first;
      if |pieces| == 1 {
        UntilPast(first, "", isSeparator);
        assert first + "" == first && first[..|first|] == first && first[|first|..] == "";
        assert pieces == [first];
      } else {
        var rest := Join(pieces[1..], [separator]);
        var s := first + [separator] + rest;
        assert ArePieces(pieces[1..], isSeparator) by {
          assert forall p :: p in pieces[1..] ==> p in pieces;
        }
        FieldsOfJoined(pieces[1..], separator, isSeparator);
        assert s == first + ([separator] + rest) && s[0] == first[0];
        UntilPast(first, [separator] + rest, isSeparator);
        assert s[..|first|] == first && s[|first|..] == [separator] + rest;
        assert ([separator] + rest)[1..] == rest;
        assert pieces == [first] + pieces[1..];
      }
    }
  }

  /** White space collapsed: the same words, with single spaces between and nowhere else. */
  lemma CleanKeepsWords(s: string, lex: Lexer)
    requires lex.isSpace(' ')
    ensures Fields(Clean(s, lex), lex.isSpace) == Fields(s, lex.isSpace)
    ensures OneSpaceBetween(Clean(s, lex), lex.isSpace)
  {
    FieldsOfJoined(Fields(s, lex.isSpace), ' ', lex.isSpace);
    if Fields(s, lex.isSpace) != [] {
      SpacedOnce(Fields(s, lex.isSpace), ' ', lex.isSpace);
    }
  }

  /** Separators are single spaces, inside. */
  predicate OneSpaceBetween(s: string, isSpace: char -> bool) {
    forall i :: 0 <= i < |s| && isSpace(s[i]) ==> s[i] == ' ' && 0 < i < |s| - 1 && !isSpace(s[i + 1])
  }

  predicate SingleInside(s: string, separator: char, isSeparator: char -> bool) {
    && s != "" && !isSeparator(s[0])
    && forall i :: 0 <= i < |s| && isSeparator(s[i]) ==> s[i] == separator && 0 < i < |s| - 1 && !isSeparator(s[i + 1])
  }

  lemma {:induction false} SpacedOnce(pieces: seq<string>, separator: char, isSeparator: char -> bool)
    requires pieces != [] && ArePieces(pieces, isSeparator) && isSeparator(separator)
    ensures SingleInside(Join(pieces, [separator]), separator, isSeparator)
    decreases |pieces|
  {
    var first := pieces[0];
    assert first in pieces;
    assert forall i :: 0 <= i < |first| ==> first[i] in first;
    if |pieces| > 1 {
      assert forall p :: p in pieces[1..] ==> p in pieces;
      SpacedOnce(pieces[1..], separator, isSeparator);
      SingleAfter(first, Join(pieces[1..], [separator]), separator, isSeparator);
    }
  }

  lemma SingleAfter(first: string, rest: string, separator: char, isSeparator: char -> bool)
    requires first != "" && forall i :: 0 <= i < |first| ==> !isSeparator(first[i])
    requires SingleInside(rest, separator, isSeparator) && isSeparator(separator)
    ensures SingleInside(first + [separator] + rest, separator, isSeparator)
  {
    var s := first + [separator] + rest;
    assert forall i :: 0 <= i < |first| ==> s[i] == first[i];
    forall i | |first| <= i < |s| && isSeparator(s[i])
      ensures s[i] == separator && 0 < i < |s| - 1 && !isSeparator(s[i + 1])
    {
      if i == |first| {
        assert s[i + 1] == rest[0];
      } else {
        var k := i - |first| - 1;
        assert s[i] == rest[k] && isSeparator(rest[k]);
        assert s[i + 1] == rest[k + 1];
      }
    }
  }

  // ---- Ends ----

  /** Nothing to drop at either end. */
  predicate EndsStay(s: string, drop: char -> bool) {
    s != "" ==> !drop(s[0]) && !drop(s[|s| - 1])
  }

  lemma {:induction false} TrimStartDrops(before: string, s: string, drop: char -> bool)
    requires AllOf(before, drop) && (s != "" ==> !drop(s[0]))
    ensures TrimStart(before + s, drop) == s
    decreases |before|
  {
    if before == "" {
      assert before + s == s;
    } else {
      assert before[0] in before && (before + s)[1..] == before[1..] + s;
      TrimStartDrops(before[1..], s, drop);
    }
  }

  lemma {:induction false} TrimEndDrops(s: string, after: string, drop: char -> bool)
    requires AllOf(after, drop) && (s != "" ==> !drop(s[|s| - 1]))
    ensures TrimEnd(s + after, drop) == s
    decreases |after|
  {
    var whole := s + after;
    if after == "" {
      assert whole == s;
    } else {
      assert whole[|whole| - 1] == after[|after| - 1] && after[|after| - 1] in after;
      assert whole[..|whole| - 1] == s + after[..|after| - 1];
      TrimEndDrops(s, after[..|after| - 1], drop);
    }
  }

  /** Trimmed, a text loses what is to be dropped at both ends and nothing else. */
  lemma TrimDropsEnds(before: string, s: string, after: string, drop: char -> bool)
    requires AllOf(before, drop) && AllOf(after, drop) && EndsStay(s, drop)
    ensures Trim(before + s + after, drop) == s
  {
    var rest := s + after;
    assert before + s + after == before + rest;
    if s == "" {
      assert rest == after;
      AllStart(before + after, drop);
    } else {
      assert rest[0] == s[0];
      TrimStartDrops(before, rest, drop);
      TrimEndDrops(s, after, drop);
    }
  }

  lemma {:induction false} AllStart(s: string, drop: char -> bool)
    requires AllOf(s, drop)
    ensures TrimStart(s, drop) == ""
    decreases |s|
  {
    if s != "" {
      assert s[0] in s;
      AllStart(s[1..], drop);
    }
  }

  // ---- Words ----

  /** Lower case turns a piece without white space into one. */
  ghost predicate LowersPieces(pieces: seq<string>, lex: Lexer) {
    forall p :: p in pieces ==> lex.lower(p) != "" && forall c :: c in lex.lower(p) ==> !lex.isSpace(c)
  }

  lemma {:induction false} LoweredAre(pieces: seq<string>, lex: Lexer)
    ensures |Lowered(pieces, lex)| == |pieces|
    ensures forall i :: 0 <= i < |pieces| ==> Lowered(pieces, lex)[i] == lex.lower(pieces[i])
  {
    if pieces != [] {
      LoweredAre(pieces[1..], lex);
    }
  }

  /** Texts are compared by their pieces in lower case, with single spaces between. */
  lemma LooseKeepsWords(s: string, lex: Lexer)
    requires lex.isSpace(' ') && LowersPieces(Fields(s, lex.isSpace), lex)
    ensures var pieces, loose := Fields(s, lex.isSpace), Fields(Loose(s, lex), lex.isSpace);
            && |loose| == |pieces| && (forall i :: 0 <= i < |pieces| ==> loose[i] == lex.lower(pieces[i]))
            && OneSpaceBetween(Loose(s, lex), lex.isSpace)
  {
    var pieces := Fields(s, lex.isSpace);
    var lowered := Lowered(pieces, lex);
    LoweredAre(pieces, lex);
    forall p | p in lowered
      ensures p != "" && forall c :: c in p ==> !lex.isSpace(c)
    {
      var i :| 0 <= i < |lowered| && lowered[i] == p;
      assert pieces[i] in pieces;
    }
    FieldsOfJoined(lowered, ' ', lex.isSpace);
    if lowered != [] {
      SpacedOnce(lowered, ' ', lex.isSpace);
    }
  }

  /** The piece is the core with other characters than letters and digits around it. */
  ghost predicate IsCore(piece: string, core: string, lex: Lexer) {
    exists before, after :: piece == before + core + after && IsPunctuation(before, lex) && IsPunctuation(after, lex)
                            && (core != "" ==> lex.isAlphanumeric(core[0]) && lex.isAlphanumeric(core[|core| - 1]))
  }

  predicate IsPunctuation(s: string, lex: Lexer) {
    forall c :: c in s ==> !lex.isAlphanumeric(c)
  }

  /** The first piece's core in lower case is the first word, if there is anything of it; then the other pieces'. */
  lemma FirstWord(first: string, core: string, rest: seq<string>, lex: Lexer)
    requires IsCore(first, core, lex)
    ensures Bare([first] + rest, lex) == (if lex.lower(core) == "" then [] else [lex.lower(core)]) + Bare(rest, lex)
  {
    var before, after :| first == before + core + after && IsPunctuation(before, lex) && IsPunctuation(after, lex)
                         && (core != "" ==> lex.isAlphanumeric(core[0]) && lex.isAlphanumeric(core[|core| - 1]));
    TrimDropsEnds(before, core, after, c => !lex.isAlphanumeric(c));
    assert ([first] + rest)[1..] == rest;
  }

  /** The words of a text, one after the other: its pieces in lower case, without punctuation around them. */
  lemma WordsOneByOne(before: string, piece: string, core: string, rest: string, lex: Lexer)
    requires AllOf(before, lex.isSpace) && piece != "" && forall c :: c in piece ==> !lex.isSpace(c)
    requires (rest != "" ==> lex.isSpace(rest[0])) && IsCore(piece, core, lex)
    ensures Words(before + piece + rest, lex)
         == (if lex.lower(core) == "" then [] else [lex.lower(core)]) + Words(rest, lex)
  {
    FieldsOneByOne(before, piece, rest, lex.isSpace);
    FirstWord(piece, core, Fields(rest, lex.isSpace), lex);
  }

  /** White space alone has none. */
  lemma NoWords(s: string, lex: Lexer)
    requires AllOf(s, lex.isSpace)
    ensures Words(s, lex) == [] && Clean(s, lex) == Loose(s, lex) == ""
  {
    SeparatorsGo(s, "", lex.isSpace);
    assert s + "" == s;
  }

  // ---- Names as local parts ----

  predicate IsDash(c: char) {
    c == '-'
  }

  predicate IsNoLetterOrDigit(c: char) {
    !(('a' <= c <= 'z') || ('A' <= c <= 'Z') || ('0' <= c <= '9'))
  }

  /** The runs of ASCII letters and digits of the name in lower case. */
  function NameRuns(name: string, lex: Lexer): seq<string> {
    Fields(lex.lower(name), IsNoLetterOrDigit)
  }

  lemma {:induction false} UntilDash(s: string)
    ensures Until(Dashed(s), IsDash) == Until(s, IsNoLetterOrDigit)
    decreases |s|
  {
    if s != "" {
      UntilDash(s[1..]);
      assert Dashed(s)[1..] == Dashed(s[1..]);
    }
  }

  lemma {:induction false} DashedRuns(s: string)
    ensures Fields(Dashed(s), IsDash) == Fields(s, IsNoLetterOrDigit)
    decreases |s|
  {
    if s != "" {
      var n := Until(s, IsNoLetterOrDigit);
      UntilDash(s);
      assert Dashed(s)[..n] == s[..n] && Dashed(s)[n..] == Dashed(s[n..]);
      if n == 0 {
        assert Dashed(s)[1..] == Dashed(s[1..]);
        DashedRuns(s[1..]);
      } else {
        DashedRuns(s[n..]);
      }
    }
  }

  /** A local part has the name's runs of letters and digits between its dashes; `agent` stands for a name with none. */
  lemma LocalPartHasTheRuns(name: string, lex: Lexer)
    ensures NameRuns(name, lex) != [] ==> Fields(LocalPart(name, lex), IsDash) == NameRuns(name, lex)
    ensures NameRuns(name, lex) == [] ==> LocalPart(name, lex) == "agent"
  {
    var runs := NameRuns(name, lex);
    DashedRuns(lex.lower(name));
    SameFields(Dashed(lex.lower(name)), c => c == '-', IsDash);
    FieldsOfJoined(runs, '-', IsDash);
    if runs != [] {
      SpacedOnce(runs, '-', IsDash);
    }
  }

  /** A server is named after what comes before the first `@` of its mailbox's address, or after all of it. */
  lemma NamedAfterLocalPart(local: string, rest: string, lex: Lexer)
    requires '@' !in local && (rest == "" || rest[0] == '@')
    ensures ServerName(local + rest, lex) == "kaluta-" + LocalPart(local, lex)
    ensures OldServerName(local + rest, lex) == "openagc-" + LocalPart(local, lex)
  {
    UntilPast(local, rest, c => c == '@');
    assert (local + rest)[..|local|] == local;
  }

  lemma {:induction false} SameUntil(s: string, p: char -> bool, q: char -> bool)
    requires forall c :: p(c) == q(c)
    ensures Until(s, p) == Until(s, q)
  {
    if s != "" {
      SameUntil(s[1..], p, q);
    }
  }

  lemma {:induction false} SameFields(s: string, p: char -> bool, q: char -> bool)
    requires forall c :: p(c) == q(c)
    ensures Fields(s, p) == Fields(s, q)
    decreases |s|
  {
    if s != "" {
      if p(s[0]) {
        SameFields(s[1..], p, q);
      } else {
        SameUntil(s, p, q);
        SameFields(s[Until(s, p)..], p, q);
      }
    }
  }
}
