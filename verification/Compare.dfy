// Reading an agent's comparison of drafts with sent mail: what of any JSON it answers is kept
// (crates/kaluta-core/src/analysis_compare.rs).
module Compare {
  import opened Prelude
  import opened Text
  import opened Json
  import Version

  datatype Kind = Rule | Guideline | Fact

  datatype Scope = Scope(groups: seq<string>, people: seq<string>, messageTypes: seq<string>, languages: seq<string>)

  /** A draft and what was sent, of the batch the agent was asked about. */
  datatype Pair = Pair(id: int, ai: string, sent: string)

  datatype Entry = Entry(id: int, accepted: bool, kind: Kind, category: string, statement: string, scope: Scope)

  datatype Evidence = Evidence(pair: int, sent: string, ai: string)

  datatype Op = Add | Edit | Rescope | Remove

  datatype Change = Change(op: Op, entry: Option<int>, category: string, kind: Kind, statement: string, scope: Scope,
                           contradicts: Option<int>, evidence: seq<Evidence>)

  const STATEMENT_CAP := 400
  const QUOTE_CAP := 300

  predicate IsId(id: string, letter: char) {
    id != "" && id[0] == letter && forall c :: c in id ==> c == letter || Version.IsDigit(c)
  }

  /** `A1` to `A7` for `A` and seven. */
  function Numbered(letter: char, n: nat): (ids: seq<string>)
    ensures forall id :: id in ids ==> IsId(id, letter)
  {
    if n == 0 then [] else Numbered(letter, n - 1) + [[letter] + Version.Decimal(n)]
  }

  /**
   * The groups (voice and tone, structure, language, audience, message types, content
   * rules, format, when unsure) and their sizes.
   */
  const GROUPS := [('A', 7), ('B', 11), ('C', 10), ('D', 5), ('E', 12), ('F', 6), ('G', 2), ('H', 4)]

  function Ids(groups: seq<(char, nat)>): (ids: seq<string>)
    requires forall g :: g in groups ==> 'A' <= g.0 <= 'Z'
    ensures forall id :: id in ids ==> id != "" && '|' !in id && 'A' <= id[0] <= 'Z'
  {
    if groups == [] then []
    else
      assert groups == [groups[0]] + groups[1..];
      Numbered(groups[0].0, groups[0].1) + Ids(groups[1..])
  }

  /** The guide's categories. */
  const CATEGORIES := Ids(GROUPS)

  // ---- Text ----

  function Capped(s: string, cap: nat): (r: string)
    ensures |r| <= cap && r <= s
  {
    if |s| <= cap then s else s[..cap]
  }

  /** A left angle bracket becomes a quotation mark, so that no mail closes a block of the prompt. */
  function Fenced(s: string): (r: string)
    ensures |r| == |s|
    ensures forall i :: 0 <= i < |s| ==> r[i] == if s[i] == '<' then '\U{2039}' else s[i]
  {
    if s == "" then "" else [if s[0] == '<' then '\U{2039}' else s[0]] + Fenced(s[1..])
  }

  predicate ContainsAt(text: string, part: string, i: nat) {
    i <= |text| && part <= text[i..]
  }

  predicate Contains(text: string, part: string) {
    exists i: nat :: i <= |text| && ContainsAt(text, part, i)
  }

  /** The quote's words are in the text, as the prompt showed it. */
  predicate Quotes(quote: string, text: string, lex: Lexer) {
    Contains(Loose(Fenced(text), lex), Loose(quote, lex))
  }

  /** A quote that occurs in the text it cites. */
  function Verified(quote: Option<string>, text: string, lex: Lexer): Option<string> {
    if quote.None? then None
    else
      var q := Capped(Clean(quote.value, lex), QUOTE_CAP);
      if q == "" || !Quotes(q, text, lex) then None else Some(q)
  }

  // ---- Looking things up ----

  /** Collected into a map by id: of two pairs with one id, the last. */
  function PairOf(pairs: seq<Pair>, id: int): (pair: Option<Pair>)
    ensures pair.Some? ==> pair.value in pairs && pair.value.id == id
    ensures pair.None? ==> forall p :: p in pairs ==> p.id != id
  {
    if pairs == [] then None
    else if Last(pairs).id == id then Some(Last(pairs))
    else
      assert pairs == Init(pairs) + [Last(pairs)];
      PairOf(Init(pairs), id)
  }

  function AcceptedEntry(entries: seq<Entry>, id: Option<int>): (entry: Option<Entry>)
    ensures entry.Some? ==> entry.value in entries && id == Some(entry.value.id)
    ensures entry.Some? ==> entry.value.accepted && !entry.value.kind.Fact?
  {
    if id.None? then None
    else First(entries, (e: Entry) => e.id == id.value && e.accepted && !e.kind.Fact?)
  }

  function CategoryOf(id: Option<string>): (category: Option<string>)
    ensures category.Some? ==> category.value in CATEGORIES
  {
    if id.None? then None
    else First(CATEGORIES, (c: string) => LowerAscii(c) == LowerAscii(id.value))
  }

  function KindOf(s: Option<string>, lex: Lexer): Option<Kind> {
    if s.None? then None
    else
      var k := LowerAscii(Trim(s.value, lex.isSpace));
      if k == "rule" then Some(Rule)
      else if k == "guideline" then Some(Guideline)
      else if k == "fact" then Some(Fact)
      else None
  }

  function CleanStrings(items: seq<Value>, lex: Lexer): seq<string> {
    if items == [] then []
    else
      var s := if items[0].String? then Clean(items[0].s, lex) else "";
      (if s == "" then [] else [s]) + CleanStrings(items[1..], lex)
  }

  function ScopeOf(v: Value, lex: Lexer): Option<Scope> {
    if !v.Object? then None
    else Some(Scope(
      CleanStrings(v.At("groups").Items(), lex),
      CleanStrings(v.At("people").Items(), lex),
      Filter(CleanStrings(v.At("message_types").Items(), lex), (t: string) => t in {"new", "reply", "forward"}),
      CleanStrings(v.At("languages").Items(), lex)))
  }

  // ---- Evidence ----

  predicate IsGiven(quote: Option<string>, lex: Lexer) {
    quote.Some? && Trim(quote.value, lex.isSpace) != ""
  }

  /** One item of evidence: of a pair of the batch, with at least one quote, and none that is not found. */
  function Checked(item: Value, pairs: seq<Pair>, lex: Lexer): Option<Evidence> {
    var id := item.At("pair").AsI64();
    var pair := if id.Some? then PairOf(pairs, id.value) else None;
    if pair.None? then None
    else
      var sent := Verified(item.At("sent").AsString(), pair.value.sent, lex);
      var ai := Verified(item.At("ai").AsString(), pair.value.ai, lex);
      if (IsGiven(item.At("sent").AsString(), lex) && sent.None?)
      || (IsGiven(item.At("ai").AsString(), lex) && ai.None?)
      || (sent.None? && ai.None?) then None
      else Some(Evidence(pair.value.id, if sent.Some? then sent.value else "", if ai.Some? then ai.value else ""))
  }

  predicate IsAbout(evidence: seq<Evidence>, pair: int) {
    exists e :: e in evidence && e.pair == pair
  }

  /** For each pair, its first item that holds. */
  function EvidenceOf(items: seq<Value>, pairs: seq<Pair>, lex: Lexer): seq<Evidence> {
    if items == [] then []
    else
      var before := EvidenceOf(Init(items), pairs, lex);
      var last := Checked(Last(items), pairs, lex);
      if last.None? || IsAbout(before, last.value.pair) then before else before + [last.value]
  }

  method ReadEvidence(items: seq<Value>, pairs: seq<Pair>, lex: Lexer) returns (evidence: seq<Evidence>)
    ensures evidence == EvidenceOf(items, pairs, lex)
  {
    evidence := [];
    var seen: set<int> := {};
    for i := 0 to |items|
      invariant evidence == EvidenceOf(items[..i], pairs, lex)
      invariant forall pair :: pair in seen <==> IsAbout(evidence, pair)
    {
      assert Init(items[..i + 1]) == items[..i] && Last(items[..i + 1]) == items[i];
      var checked := Checked(items[i], pairs, lex);
      if checked.None? {
        continue;
      }
      if checked.value.pair !in seen {
        seen := seen + {checked.value.pair};
        evidence := evidence + [checked.value];
      }
    }
    assert items[..|items|] == items;
  }

  // ---- Changes ----

  function OrElse<T>(given: Option<T>, default: T): T {
    if given.Some? then given.value else default
  }

  predicate IsContentRule(category: string) {
    category != "" && category[0] == 'F'
  }

  function OpOf(op: string): Option<Op> {
    if op == "add" then Some(Add)
    else if op == "edit" then Some(Edit)
    else if op == "rescope" then Some(Rescope)
    else if op == "remove" then Some(Remove)
    else None
  }

  function Addition(category: Option<string>, kind: Option<Kind>, statement: string, scope: Option<Scope>,
                    against: Option<Entry>, evidence: seq<Evidence>): Option<Change> {
    if category.None? || statement == "" || IsContentRule(category.value) then None
    else Some(Change(Add, None, category.value, OrElse(kind, Guideline), statement,
        OrElse(scope, Scope([], [], [], [])),
                     if against.Some? then Some(against.value.id) else None, evidence))
  }

  function Alteration(op: Op, e: Entry, kind: Option<Kind>, statement: string, scope: Option<Scope>,
                      evidence: seq<Evidence>, lex: Lexer): Option<Change>
    requires !op.Add?
  {
    var same := Change(op, Some(e.id), e.category, e.kind, e.statement, e.scope, None, evidence);
    match op
    case Edit =>
      if statement == "" || (Loose(statement, lex)
          == Loose(e.statement, lex) && (kind.None? || kind.value == e.kind)) then None
      else Some(same.(kind := OrElse(kind, e.kind), statement := statement))
    case Rescope =>
      if scope.None? || scope.value == e.scope then None else Some(same.(scope := scope.value))
    case Remove => Some(same)
  }

  function StatementOf(item: Value, lex: Lexer): string {
    Capped(Clean(item.At("statement").StringOr(""), lex), STATEMENT_CAP)
  }

  /** A kind other than a fact. */
  function StyleKindOf(item: Value, lex: Lexer): (kind: Option<Kind>)
    ensures kind != Some(Fact)
  {
    var given := KindOf(item.At("kind").AsString(), lex);
    if given == Some(Fact) then None else given
  }

  /** What an item proposes, given its evidence; nothing if it changes nothing, or nothing it may. */
  function Proposed(item: Value, evidence: seq<Evidence>, entries: seq<Entry>, lex: Lexer): Option<Change> {
    var statement, kind, scope := StatementOf(item, lex), StyleKindOf(item, lex), ScopeOf(item.At("scope"), lex);
    var entry := AcceptedEntry(entries, item.At("id").AsI64());
    var op := OpOf(item.At("op").StringOr("add"));
    if op == Some(Add) then
      Addition(CategoryOf(item.At("category").AsString()), kind, statement, scope,
               AcceptedEntry(entries, item.At("contradicts").AsI64()), evidence)
    else if op.None? || entry.None? then None
    else Alteration(op.value, entry.value, kind, statement, scope, evidence, lex)
  }

  function ChangeOf(item: Value, pairs: seq<Pair>, entries: seq<Entry>, lex: Lexer): Option<Change> {
    var evidence := EvidenceOf(item.At("evidence").Items(), pairs, lex);
    if evidence == [] then None else Proposed(item, evidence, entries, lex)
  }

  function Changes(items: seq<Value>, pairs: seq<Pair>, entries: seq<Entry>, lex: Lexer): seq<Change> {
    if items == [] then []
    else
      var last := ChangeOf(Last(items), pairs, entries, lex);
      Changes(Init(items), pairs, entries, lex) + (if last.Some? then [last.value] else [])
  }

  /** The changes in an answer, whatever JSON it is. */
  method Parse(answer: Value, pairs: seq<Pair>, entries: seq<Entry>, lex: Lexer) returns (changes: seq<Change>)
    ensures changes == Changes(answer.At("proposals").Items(), pairs, entries, lex)
    ensures forall c :: c in changes ==> IsSound(c, pairs, entries, lex)
  {
    var items := answer.At("proposals").Items();
    changes := [];
    for i := 0 to |items|
      invariant changes == Changes(items[..i], pairs, entries, lex)
    {
      assert Init(items[..i + 1]) == items[..i] && Last(items[..i + 1]) == items[i];
      var evidence := ReadEvidence(items[i].At("evidence").Items(), pairs, lex);
      if evidence == [] {
        continue;
      }
      var change := Proposed(items[i], evidence, entries, lex);
      if change.None? {
        continue;
      }
      changes := changes + [change.value];
    }
    assert items[..|items|] == items;
    ChangesAreSound(items, pairs, entries, lex);
  }

  // ---- What is kept is sound ----

  /** The quotes are words of the very pair they cite, and there is one. */
  predicate IsBorneOut(e: Evidence, pairs: seq<Pair>, lex: Lexer) {
    var pair := PairOf(pairs, e.pair);
    && pair.Some?
    && (e.sent != "" || e.ai != "")
    && |e.sent| <= QUOTE_CAP && |e.ai| <= QUOTE_CAP
    && (e.sent != "" ==> Quotes(e.sent, pair.value.sent, lex))
    && (e.ai != "" ==> Quotes(e.ai, pair.value.ai, lex))
  }

  predicate OnePerPair(evidence: seq<Evidence>) {
    forall i, j :: 0 <= i < j < |evidence| ==> evidence[i].pair != evidence[j].pair
  }

  predicate IsAccepted(id: int, entries: seq<Entry>) {
    exists e :: e in entries && e.id == id && e.accepted && !e.kind.Fact?
  }

  /** The change is for this entry, and really changes what its operation says, and nothing else of it. */
  predicate Alters(c: Change, e: Entry, lex: Lexer) {
    && c.category == e.category && c.contradicts.None?
    && match c.op
       case Add => false
       case Edit =>
         && c.scope == e.scope && c.statement != "" && |c.statement| <= STATEMENT_CAP && !c.kind.Fact?
         && (Loose(c.statement, lex) != Loose(e.statement, lex) || c.kind != e.kind)
       case Rescope => c.scope != e.scope && c.statement == e.statement && c.kind == e.kind
       case Remove => c.scope == e.scope && c.statement == e.statement && c.kind == e.kind
  }

  predicate IsAddition(c: Change, entries: seq<Entry>) {
    && c.op == Add && c.entry.None? && c.category in CATEGORIES && !IsContentRule(c.category)
    && c.statement != "" && |c.statement| <= STATEMENT_CAP && !c.kind.Fact?
    && (c.contradicts.Some? ==> IsAccepted(c.contradicts.value, entries))
  }

  predicate IsAlteration(c: Change, entries: seq<Entry>, lex: Lexer) {
    exists e :: e in entries && c.entry == Some(e.id) && e.accepted && !e.kind.Fact? && Alters(c, e, lex)
  }

  predicate IsSound(c: Change, pairs: seq<Pair>, entries: seq<Entry>, lex: Lexer) {
    && c.evidence != [] && OnePerPair(c.evidence)
    && (forall e :: e in c.evidence ==> IsBorneOut(e, pairs, lex))
    && (IsAddition(c, entries) || IsAlteration(c, entries, lex))
  }

  lemma CheckedIsBorneOut(item: Value, pairs: seq<Pair>, lex: Lexer)
    ensures var e := Checked(item, pairs, lex);
            e.Some? ==> IsBorneOut(e.value, pairs, lex) && item.At("pair") == Integer(e.value.pair)
  {
  }

  lemma {:induction false} EvidenceIsSound(items: seq<Value>, pairs: seq<Pair>, lex: Lexer)
    ensures OnePerPair(EvidenceOf(items, pairs, lex))
    ensures forall e :: e in EvidenceOf(items, pairs, lex) ==> IsBorneOut(e, pairs, lex)
    decreases |items|
  {
    if items != [] {
      EvidenceIsSound(Init(items), pairs, lex);
      CheckedIsBorneOut(Last(items), pairs, lex);
    }
  }

  lemma AdditionIsSound(category: Option<string>, kind: Option<Kind>, statement: string, scope: Option<Scope>,
                        against: Option<Entry>, evidence: seq<Evidence>, entries: seq<Entry>)
    requires kind != Some(Fact) && |statement| <= STATEMENT_CAP && (category.Some? ==> category.value in CATEGORIES)
    requires against.Some? ==> IsAccepted(against.value.id, entries)
    ensures var c := Addition(category, kind, statement, scope, against, evidence);
            c.Some? ==> c.value.evidence == evidence && IsAddition(c.value, entries)
  {
  }

  lemma AlterationIsSound(op: Op, e: Entry, kind: Option<Kind>, statement: string, scope: Option<Scope>,
                          evidence: seq<Evidence>, lex: Lexer)
    requires !op.Add? && kind != Some(Fact) && |statement| <= STATEMENT_CAP && !e.kind.Fact?
    ensures var c := Alteration(op, e, kind, statement, scope, evidence, lex);
            c.Some? ==> c.value.evidence == evidence && c.value.entry == Some(e.id) && Alters(c.value, e, lex)
  {
  }

  lemma ProposedIsSound(item: Value, evidence: seq<Evidence>, entries: seq<Entry>, lex: Lexer)
    ensures var c := Proposed(item, evidence, entries, lex);
            && (c.Some? ==> c.value.evidence == evidence)
            && (c.Some? ==> IsAddition(c.value, entries) || IsAlteration(c.value, entries, lex))
  {
    var statement, kind, scope := StatementOf(item, lex), StyleKindOf(item, lex), ScopeOf(item.At("scope"), lex);
    var entry := AcceptedEntry(entries, item.At("id").AsI64());
    var op := OpOf(item.At("op").StringOr("add"));
    if op == Some(Add) {
      AdditionIsSound(CategoryOf(item.At("category").AsString()), kind, statement, scope,
                      AcceptedEntry(entries, item.At("contradicts").AsI64()), evidence, entries);
    } else if op.Some? && entry.Some? {
      AlterationIsSound(op.value, entry.value, kind, statement, scope, evidence, lex);
    }
  }

  lemma {:induction false} ChangesAreSound(items: seq<Value>, pairs: seq<Pair>, entries: seq<Entry>, lex: Lexer)
    ensures forall c :: c in Changes(items, pairs, entries, lex) ==> IsSound(c, pairs, entries, lex)
    decreases |items|
  {
    if items != [] {
      ChangesAreSound(Init(items), pairs, entries, lex);
      var item := Last(items);
      EvidenceIsSound(item.At("evidence").Items(), pairs, lex);
      ProposedIsSound(item, EvidenceOf(item.At("evidence").Items(), pairs, lex), entries, lex);
    }
  }

  // ---- And nothing that holds is lost ----

  predicate Holds(item: Value, pairs: seq<Pair>, pair: int, lex: Lexer) {
    var e := Checked(item, pairs, lex);
    e.Some? && e.value.pair == pair
  }

  predicate AnyHolds(items: seq<Value>, pairs: seq<Pair>, pair: int, lex: Lexer) {
    exists item :: item in items && Holds(item, pairs, pair, lex)
  }

  lemma AnyHoldsMore(items: seq<Value>, last: Value, pairs: seq<Pair>, pair: int, lex: Lexer)
    ensures AnyHolds(items + [last], pairs, pair, lex)
            <==> AnyHolds(items, pairs, pair, lex) || Holds(last, pairs, pair, lex)
  {
    assert forall item :: item in items + [last] <==> item in items || item == last;
  }

  /** A pair is evidence exactly when some item about it holds. */
  lemma {:induction false} EvidenceIsComplete(items: seq<Value>, pairs: seq<Pair>, pair: int, lex: Lexer)
    ensures IsAbout(EvidenceOf(items, pairs, lex), pair) <==> AnyHolds(items, pairs, pair, lex)
    decreases |items|
  {
    if items != [] {
      var before, last := Init(items), Last(items);
      assert items == before + [last];
      EvidenceIsComplete(before, pairs, pair, lex);
      EvidenceGrows(before, last, pairs, pair, lex);
      AnyHoldsMore(before, last, pairs, pair, lex);
    }
  }

  lemma EvidenceGrows(items: seq<Value>, last: Value, pairs: seq<Pair>, pair: int, lex: Lexer)
    ensures IsAbout(EvidenceOf(items + [last], pairs, lex), pair)
        <==> IsAbout(EvidenceOf(items, pairs, lex), pair) || Holds(last, pairs, pair, lex)
  {
    assert Init(items + [last]) == items && Last(items + [last]) == last;
    var before, checked := EvidenceOf(items, pairs, lex), Checked(last, pairs, lex);
    if checked.Some? {
      AboutMore(before, checked.value, pair);
    }
  }

  lemma AboutMore(before: seq<Evidence>, last: Evidence, pair: int)
    ensures IsAbout(before + [last], pair) <==> IsAbout(before, pair) || last.pair == pair
  {
    assert forall e :: e in before + [last] <==> e in before || e == last;
  }

  // ---- What is kept is what was given ----

  predicate IsBlank(s: string, lex: Lexer) {
    forall c :: c in s ==> lex.isSpace(c)
  }

  lemma {:induction false} TrimStartOf(s: string, drop: char -> bool)
    ensures TrimStart(s, drop) == s[Until(s, c => !drop(c))..]
    decreases |s|
  {
    var n := Until(s, c => !drop(c));
    if s != "" && drop(s[0]) {
      TrimStartOf(s[1..], drop);
      assert s[1..][n - 1..] == s[n..];
    }
  }

  lemma {:induction false} TrimEndKeepsFirst(s: string, drop: char -> bool)
    requires s != "" && !drop(s[0])
    ensures TrimEnd(s, drop) != ""
    decreases |s|
  {
    if drop(Last(s)) {
      TrimEndKeepsFirst(Init(s), drop);
    }
  }

  lemma {:induction false} FieldsOfBlank(s: string, lex: Lexer)
    ensures Fields(s, lex.isSpace) == [] <==> IsBlank(s, lex)
    decreases |s|
  {
    if s != "" {
      assert s[0] in s;
      if lex.isSpace(s[0]) {
        FieldsOfBlank(s[1..], lex);
        assert s == [s[0]] + s[1..];
      }
    }
  }

  lemma {:induction false} JoinedIsNotEmpty(fields: seq<string>)
    requires fields != [] && forall f :: f in fields ==> f != ""
    ensures Join(fields, " ") != ""
  {
    assert fields[0] in fields;
  }

  /** Trimming and collapsing white space agree on which text is empty. */
  lemma GivenIsNotBlank(s: string, lex: Lexer)
    ensures Trim(s, lex.isSpace) != "" <==> !IsBlank(s, lex)
    ensures Clean(s, lex) != "" <==> !IsBlank(s, lex)
  {
    var n := Until(s, c => !lex.isSpace(c));
    TrimStartOf(s, lex.isSpace);
    if n < |s| {
      assert s[n] in s && s[n..][0] == s[n];
      TrimEndKeepsFirst(s[n..], lex.isSpace);
    }
    FieldsOfBlank(s, lex);
    if Fields(s, lex.isSpace) != [] {
      JoinedIsNotEmpty(Fields(s, lex.isSpace));
    }
  }

  /** The quote as tidied: white space collapsed, cut to its cap; nothing where none was given. */
  function Tidied(quote: Option<string>, lex: Lexer): string {
    if quote.Some? then Capped(Clean(quote.value, lex), QUOTE_CAP) else ""
  }

  lemma VerifiedOrNothing(quote: Option<string>, text: string, lex: Lexer)
    ensures IsGiven(quote, lex) <==> Tidied(quote, lex) != ""
    ensures Verified(quote, text, lex)
         == if IsGiven(quote, lex) && Quotes(Tidied(quote, lex), text, lex) then Some(Tidied(quote, lex)) else None
  {
    if quote.Some? {
      GivenIsNotBlank(quote.value, lex);
    }
  }

  /**
   * An item is evidence exactly if its pair is in the batch, it gives a quote, and every
   * quote it gives is in the text it cites: and then with those quotes.
   */
  lemma CheckedExactly(item: Value, pairs: seq<Pair>, lex: Lexer)
    ensures var sent, ai := Tidied(item.At("sent").AsString(), lex), Tidied(item.At("ai").AsString(), lex);
            var id := item.At("pair").AsI64();
            var pair := if id.Some? then PairOf(pairs, id.value) else None;
            Checked(item, pairs, lex)
            == if pair.Some? && (sent != "" || ai != "")
               && (sent != "" ==> Quotes(sent, pair.value.sent, lex)) && (ai != "" ==> Quotes(ai, pair.value.ai, lex))
               then Some(Evidence(pair.value.id, sent, ai)) else None
  {
    var id := item.At("pair").AsI64();
    var pair := if id.Some? then PairOf(pairs, id.value) else None;
    if pair.Some? {
      VerifiedOrNothing(item.At("sent").AsString(), pair.value.sent, lex);
      VerifiedOrNothing(item.At("ai").AsString(), pair.value.ai, lex);
    }
  }

  /** The entry as the item would have it. */
  function Wanted(op: Op, e: Entry, kind: Option<Kind>, statement: string, scope: Option<Scope>,
      evidence: seq<Evidence>): Change {
    Change(op, Some(e.id), e.category,
           if op.Edit? then OrElse(kind, e.kind) else e.kind,
           if op.Edit? then statement else e.statement,
           if op.Rescope? then OrElse(scope, e.scope) else e.scope, None, evidence)
  }

  /** A change to an entry is kept exactly if it really alters the entry. */
  lemma KeptExactlyIfItAlters(item: Value, evidence: seq<Evidence>, entries: seq<Entry>, lex: Lexer)
    ensures var op, e := OpOf(item.At("op").StringOr("add")), AcceptedEntry(entries, item.At("id").AsI64());
            op.Some? && !op.value.Add? && e.Some? ==>
              var wanted := Wanted(op.value, e.value, StyleKindOf(item, lex), StatementOf(item, lex),
                                   ScopeOf(item.At("scope"), lex), evidence);
              Proposed(item, evidence, entries, lex) == if Alters(wanted, e.value, lex) then Some(wanted) else None
  {
    var op, e := OpOf(item.At("op").StringOr("add")), AcceptedEntry(entries, item.At("id").AsI64());
    if op.Some? && !op.value.Add? && e.Some? {
      AlteredExactly(op.value, e.value, StyleKindOf(item, lex), StatementOf(item, lex),
          ScopeOf(item.At("scope"), lex), evidence, lex);
    }
  }

  lemma AlteredExactly(op: Op, e: Entry, kind: Option<Kind>, statement: string, scope: Option<Scope>,
                       evidence: seq<Evidence>, lex: Lexer)
    requires !op.Add? && kind != Some(Fact) && |statement| <= STATEMENT_CAP && !e.kind.Fact?
    ensures var wanted := Wanted(op, e, kind, statement, scope, evidence);
            Alteration(op, e, kind, statement, scope, evidence, lex)
                == if Alters(wanted, e, lex) then Some(wanted) else None
  {
  }
}
