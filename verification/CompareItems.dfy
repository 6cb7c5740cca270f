// What becomes of each item of an agent's answer, read off the JSON itself.
module CompareItems {
  import opened Prelude
  import opened Text
  import opened Json
  import opened Compare
  import Version

  // ---- What an item gives ----

  /** The categories of each group, by number. */
  function SizeOf(letter: char): nat {
    match letter
    case 'A' => 7
    case 'B' => 11
    case 'C' => 10
    case 'D' => 5
    case 'E' => 12
    case 'F' => 6
    case 'G' => 2
    case 'H' => 4
    case _ => 0
  }

  lemma {:induction false} NumberedExactly(letter: char, n: nat, id: string)
    ensures id in Numbered(letter, n) <==> exists k :: 1 <= k <= n && id == [letter] + Version.Decimal(k)
  {
    if n > 0 {
      NumberedExactly(letter, n - 1, id);
      assert Numbered(letter, n) == Numbered(letter, n - 1) + [[letter] + Version.Decimal(n)];
      assert id in Numbered(letter, n) <==> id in Numbered(letter, n - 1) || id == [letter] + Version.Decimal(n);
    }
  }

  lemma DecimalsDiffer(letter: char, m: nat, n: nat)
    ensures [letter] + Version.Decimal(m) == [letter] + Version.Decimal(n) <==> m == n
  {
    Version.DecimalRoundTrip(m);
    Version.DecimalRoundTrip(n);
    assert ([letter] + Version.Decimal(m))[1..] == Version.Decimal(m);
    assert ([letter] + Version.Decimal(n))[1..] == Version.Decimal(n);
  }

  predicate InTable(groups: seq<(char, nat)>, letter: char, n: nat) {
    exists g :: g in groups && g.0 == letter && 1 <= n <= g.1
  }

  lemma InNumbered(lead: char, size: nat, letter: char, n: nat)
    ensures [letter] + Version.Decimal(n) in Numbered(lead, size) <==> lead == letter && 1 <= n <= size
  {
    var id := [letter] + Version.Decimal(n);
    NumberedExactly(lead, size, id);
    if id in Numbered(lead, size) {
      var k :| 1 <= k <= size && id == [lead] + Version.Decimal(k);
      assert id[0] == letter == lead;
      DecimalsDiffer(letter, k, n);
    }
  }

  lemma {:induction false} InGroups(groups: seq<(char, nat)>, letter: char, n: nat)
    requires forall g :: g in groups ==> 'A' <= g.0 <= 'Z'
    ensures [letter] + Version.Decimal(n) in Ids(groups) <==> InTable(groups, letter, n)
    decreases |groups|
  {
    if groups != [] {
      assert groups == [groups[0]] + groups[1..];
      InGroups(groups[1..], letter, n);
      InNumbered(groups[0].0, groups[0].1, letter, n);
    }
  }

  lemma TableIs(groups: seq<(char, nat)>, letter: char, n: nat)
    requires groups == [('A', 7), ('B', 11), ('C', 10), ('D', 5), ('E', 12), ('F', 6), ('G', 2), ('H', 4)]
    ensures InTable(groups, letter, n) <==> 1 <= n <= SizeOf(letter)
  {
    assert groups[0] in groups && groups[1] in groups && groups[2] in groups && groups[3] in groups;
    assert groups[4] in groups && groups[5] in groups && groups[6] in groups && groups[7] in groups;
    forall g | g in groups
      ensures g.1 == SizeOf(g.0)
    {
    }
  }

  /** The guide's categories: A1 to A7, B1 to B11, and so on. */
  lemma CategoriesAre(letter: char, n: nat)
    ensures [letter] + Version.Decimal(n) in CATEGORIES <==> 1 <= n <= SizeOf(letter)
  {
    InGroups(GROUPS, letter, n);
    TableIs(GROUPS, letter, n);
  }

  /** The item names the category, whatever its case. */
  predicate NamesCategory(item: Value, category: string) {
    match item.At("category")
    case String(s) => category in CATEGORIES && LowerAscii(s) == LowerAscii(category)
    case _ => false
  }

  /** Its statement with white space collapsed, up to 400 characters. */
  function TidyStatement(item: Value, lex: Lexer): string {
    match item.At("statement")
    case String(s) => if |Clean(s, lex)| <= 400 then Clean(s, lex) else Clean(s, lex)[..400]
    case _ => ""
  }

  predicate IsKindNamed(item: Value, name: string, lex: Lexer) {
    match item.At("kind")
    case String(s) => LowerAscii(Trim(s, lex.isSpace)) == name
    case _ => false
  }

  /** The kind asked for, if it is one of style. */
  predicate AsksKind(item: Value, kind: Option<Kind>, lex: Lexer) {
    && (kind == Some(Rule) <==> IsKindNamed(item, "rule", lex))
    && (kind == Some(Guideline) <==> IsKindNamed(item, "guideline", lex))
    && kind != Some(Fact)
  }

  function TidyItem(v: Value, lex: Lexer): string {
    match v
    case String(s) => Clean(s, lex)
    case _ => ""
  }

  predicate NotEmpty(s: string) {
    s != ""
  }

  predicate IsMessageType(s: string) {
    s == "new" || s == "reply" || s == "forward"
  }

  function TidyItems(items: seq<Value>, lex: Lexer): (tidy: seq<string>)
    ensures |tidy| == |items| && forall i :: 0 <= i < |items| ==> tidy[i] == TidyItem(items[i], lex)
  {
    if items == [] then [] else [TidyItem(items[0], lex)] + TidyItems(items[1..], lex)
  }

  /** The strings of a list, tidied, without empty ones. */
  function TidyStrings(v: Value, lex: Lexer): seq<string> {
    match v
    case Array(items) => Filter(TidyItems(items, lex), NotEmpty)
    case _ => []
  }

  /** The scope asked for, if any. */
  function AskedScope(item: Value, lex: Lexer): Option<Scope> {
    match item.At("scope")
    case Object(_) =>
      var scope := item.At("scope");
      Some(Scope(TidyStrings(scope.At("groups"), lex), TidyStrings(scope.At("people"), lex),
                 Filter(TidyStrings(scope.At("message_types"), lex), IsMessageType),
                 TidyStrings(scope.At("languages"), lex)))
    case _ => None
  }

  /** The operation asked for: adding, if none is named. */
  predicate Asks(item: Value, op: string) {
    match item.At("op")
    case String(s) => s == op
    case _ => op == "add"
  }

  // ---- The model's reading is that ----

  lemma {:induction false} CleanStringsAre(items: seq<Value>, lex: Lexer)
    ensures CleanStrings(items, lex) == Filter(TidyItems(items, lex), NotEmpty)
    decreases |items|
  {
    if items != [] {
      CleanStringsAre(items[1..], lex);
      FilterFirst(TidyItems(items, lex), NotEmpty);
      assert TidyItems(items, lex)[1..] == TidyItems(items[1..], lex);
    }
  }

  lemma StringsAre(v: Value, lex: Lexer)
    ensures CleanStrings(v.Items(), lex) == TidyStrings(v, lex)
  {
    CleanStringsAre(v.Items(), lex);
  }

  lemma ScopeIs(item: Value, lex: Lexer)
    ensures ScopeOf(item.At("scope"), lex) == AskedScope(item, lex)
  {
    var scope := item.At("scope");
    StringsAre(scope.At("groups"), lex);
    StringsAre(scope.At("people"), lex);
    StringsAre(scope.At("message_types"), lex);
    StringsAre(scope.At("languages"), lex);
    SameFilter(TidyStrings(scope.At("message_types"), lex), (t: string) => t in {"new", "reply", "forward"},
        IsMessageType);
  }

  lemma StatementIs(item: Value, lex: Lexer)
    ensures StatementOf(item, lex) == TidyStatement(item, lex)
  {
    if !item.At("statement").String? {
      assert Clean("", lex) == "";
    }
  }

  lemma KindIs(item: Value, lex: Lexer)
    ensures AsksKind(item, StyleKindOf(item, lex), lex)
  {
    assert "rule" != "guideline" && "rule" != "fact" && "guideline" != "fact" by {
      assert "rule"[0] == 'r' && "guideline"[0] == 'g' && "fact"[0] == 'f';
    }
  }

  lemma FirstSameCase(categories: seq<string>, s: string, found: Option<string>)
    requires found == First(categories, (c: string) => LowerAscii(c) == LowerAscii(s))
    requires forall c :: c in categories ==> c != "" && 'A' <= c[0] <= 'Z'
    ensures found.Some? ==> found.value in categories && LowerAscii(found.value) == LowerAscii(s)
    ensures found.None? ==> forall c :: c in categories ==> LowerAscii(c) != LowerAscii(s)
    ensures found.Some? ==> forall c :: c in categories && LowerAscii(c) == LowerAscii(s) ==> c[0] == found.value[0]
  {
    forall c | found.Some? && c in categories && LowerAscii(c) == LowerAscii(s)
      ensures c[0] == found.value[0]
    {
      assert LowerAscii(c)[0] == LowerAscii(found.value)[0];
    }
  }

  lemma CategoryIs(item: Value)
    ensures var c := CategoryOf(item.At("category").AsString());
            && (c.Some? ==> NamesCategory(item, c.value))
            && (c.None? ==> forall category :: !NamesCategory(item, category))
            && (c.Some? ==> c.value != "")
            && (c.Some? ==> forall other :: NamesCategory(item, other) ==> other != "" && other[0] == c.value[0])
  {
    match item.At("category")
    case String(s) => FirstSameCase(CATEGORIES, s, CategoryOf(Some(s)));
    case _ =>
  }

  // ---- Evidence ----

  /** The first item of the list that holds of the pair is the `i`th, and this is its evidence. */
  predicate FirstHolds(items: seq<Value>, pairs: seq<Pair>, e: Evidence, i: nat, lex: Lexer) {
    && i < |items| && Checked(items[i], pairs, lex) == Some(e)
    && forall j :: 0 <= j < i ==> !Holds(items[j], pairs, e.pair, lex)
  }

  /** Each piece of evidence is the first for its pair, in the order of the answer. */
  lemma {:induction false} EvidenceIsFirst(items: seq<Value>, pairs: seq<Pair>, lex: Lexer) returns (places: seq<nat>)
    ensures var evidence := EvidenceOf(items, pairs, lex);
            && |places| == |evidence|
            && (forall k :: 0 <= k < |places| ==> FirstHolds(items, pairs, evidence[k], places[k], lex))
            && forall j, k :: 0 <= j < k < |places| ==> places[j] < places[k]
    decreases |items|
  {
    if items == [] {
      places := [];
    } else {
      places := EvidenceIsFirst(Init(items), pairs, lex);
      var evidence, last := EvidenceOf(Init(items), pairs, lex), Checked(Last(items), pairs, lex);
      forall k | 0 <= k < |places|
        ensures FirstHolds(items, pairs, evidence[k], places[k], lex)
      {
        assert forall j :: 0 <= j <= places[k] ==> items[j] == Init(items)[j];
      }
      if last.Some? && !IsAbout(evidence, last.value.pair) {
        NoneHeld(Init(items), pairs, last.value.pair, lex);
        assert forall j :: 0 <= j < |items| - 1 ==> items[j] == Init(items)[j] && items[j] in Init(items);
        assert FirstHolds(items, pairs, last.value, |items| - 1, lex);
        places := places + [|items| - 1];
      }
    }
  }

  lemma NoneHeld(items: seq<Value>, pairs: seq<Pair>, pair: int, lex: Lexer)
    requires !IsAbout(EvidenceOf(items, pairs, lex), pair)
    ensures forall item :: item in items ==> !Holds(item, pairs, pair, lex)
  {
    EvidenceIsComplete(items, pairs, pair, lex);
  }

  // ---- What is kept ----

  /** The accepted entry of the guide with this id that comes first, facts apart. */
  predicate IsEntry(entries: seq<Entry>, id: int, i: nat) {
    && i < |entries| && entries[i].id == id && entries[i].accepted && !entries[i].kind.Fact?
    && forall j :: 0 <= j < i ==> !(entries[j].id == id && entries[j].accepted && !entries[j].kind.Fact?)
  }

  predicate HasEntry(entries: seq<Entry>, id: int) {
    exists e :: e in entries && e.id == id && e.accepted && !e.kind.Fact?
  }

  /** The id in the field, a number of 64 bits, if the guide has an accepted entry of it that is no fact. */
  function EntryNamed(item: Value, field: string, entries: seq<Entry>): Option<int> {
    match item.At(field)
    case Integer(id) =>
      if -0x8000_0000_0000_0000 <= id <= 0x7FFF_FFFF_FFFF_FFFF && HasEntry(entries, id) then Some(id) else None
    case _ => None
  }

  lemma {:induction false} EntryIs(entries: seq<Entry>, id: int, i: nat)
    requires IsEntry(entries, id, i)
    ensures First(entries, (e: Entry) => e.id == id && e.accepted && !e.kind.Fact?) == Some(entries[i])
    decreases |entries|
  {
    if i > 0 {
      assert !(entries[0].id == id && entries[0].accepted && !entries[0].kind.Fact?);
      assert forall j :: 0 <= j < |entries| - 1 ==> entries[1..][j] == entries[j + 1];
      EntryIs(entries[1..], id, i - 1);
    }
  }

  /** What a change may be for an item that adds: a category that is no content rule, and a statement. */
  predicate CanAdd(item: Value, lex: Lexer) {
    && TidyStatement(item, lex) != ""
    && exists category :: category in CATEGORIES && NamesCategory(item, category) && category[0] != 'F'
  }

  predicate IsAdded(c: Change, item: Value, entries: seq<Entry>, lex: Lexer) {
    && c.op.Add? && c.entry.None? && NamesCategory(item, c.category) && c.statement == TidyStatement(item, lex)
    && (c.kind.Rule? <==> IsKindNamed(item, "rule", lex)) && !c.kind.Fact?
    && c.scope == OrElse(AskedScope(item, lex), Scope([], [], [], []))
    && c.contradicts == EntryNamed(item, "contradicts", entries)
  }

  lemma OneItem(item: Value, pairs: seq<Pair>, entries: seq<Entry>, lex: Lexer)
    ensures Changes([item], pairs, entries, lex)
         == match ChangeOf(item, pairs, entries, lex) case Some(c) => [c] case None => []
  {
    assert Init([item]) == [];
  }

  lemma AgainstIs(item: Value, entries: seq<Entry>)
    ensures var against := AcceptedEntry(entries, item.At("contradicts").AsI64());
            EntryNamed(item, "contradicts", entries) == if against.Some? then Some(against.value.id) else None
  {
  }

  lemma CanAddIs(item: Value, lex: Lexer)
    ensures var category := CategoryOf(item.At("category").AsString());
            CanAdd(item, lex) <==> category.Some? && !IsContentRule(category.value) && StatementOf(item, lex) != ""
  {
    CategoryIs(item);
    StatementIs(item, lex);
  }

  lemma AdditionIs(category: Option<string>, kind: Option<Kind>, statement: string, scope: Option<Scope>,
      against: Option<Entry>, evidence: seq<Evidence>)
    ensures Addition(category, kind, statement, scope, against, evidence)
         == if category.Some? && !IsContentRule(category.value) && statement != ""
            then Some(Change(Add, None, category.value, OrElse(kind, Guideline), statement,
                   OrElse(scope, Scope([], [], [], [])), if against.Some? then Some(against.value.id) else None,
                   evidence))
            else None
  {
  }

  lemma AsksToAdd(item: Value, evidence: seq<Evidence>, entries: seq<Entry>, lex: Lexer)
    requires Asks(item, "add")
    ensures Proposed(item, evidence, entries, lex)
         == Addition(CategoryOf(item.At("category").AsString()), StyleKindOf(item, lex), StatementOf(item, lex),
              ScopeOf(item.At("scope"), lex), AcceptedEntry(entries, item.At("contradicts").AsI64()), evidence)
  {
  }

  lemma AddedIs(item: Value, evidence: seq<Evidence>, entries: seq<Entry>, lex: Lexer)
    requires Asks(item, "add")
    ensures var c := Proposed(item, evidence, entries, lex);
            && (c.Some? <==> CanAdd(item, lex))
            && (c.Some? ==> IsAdded(c.value, item, entries, lex) && c.value.evidence == evidence)
  {
    AsksToAdd(item, evidence, entries, lex);
    AdditionIs(CategoryOf(item.At("category").AsString()), StyleKindOf(item, lex), StatementOf(item, lex),
        ScopeOf(item.At("scope"), lex), AcceptedEntry(entries, item.At("contradicts").AsI64()), evidence);
    CanAddIs(item, lex);
    CategoryIs(item);
    StatementIs(item, lex);
    KindIs(item, lex);
    ScopeIs(item, lex);
    AgainstIs(item, entries);
  }

  /**
   * An item that adds is kept exactly if it has evidence, a category of the guide's that is no
   * content rule, and a statement: as an addition of that to that, of the kind and scope asked
   * for, against the entry it names.
   */
  lemma AdditionKeptExactly(item: Value, pairs: seq<Pair>, entries: seq<Entry>, lex: Lexer)
    requires Asks(item, "add")
    ensures var evidence := EvidenceOf(item.At("evidence").Items(), pairs, lex);
            var kept := Changes([item], pairs, entries, lex);
            && |kept| == (if evidence != [] && CanAdd(item, lex) then 1 else 0)
            && (kept != [] ==> IsAdded(kept[0], item, entries, lex) && kept[0].evidence == evidence)
  {
    OneItem(item, pairs, entries, lex);
    AddedIs(item, EvidenceOf(item.At("evidence").Items(), pairs, lex), entries, lex);
  }

  // ---- Changes to an entry ----

  /** How the item would have the entry. */
  predicate Would(c: Change, op: Op, e: Entry, item: Value, lex: Lexer) {
    && c.op == op && c.entry == Some(e.id) && c.category == e.category && c.contradicts.None?
    && match op
       case Add => false
       case Edit =>
         && c.statement == TidyStatement(item, lex) && c.scope == e.scope
         && c.kind == (if IsKindNamed(item, "rule", lex) then Rule
                       else if IsKindNamed(item, "guideline", lex) then Guideline else e.kind)
       case Rescope => AskedScope(item, lex) == Some(c.scope) && c.statement == e.statement && c.kind == e.kind
       case Remove => c.statement == e.statement && c.kind == e.kind && c.scope == e.scope
  }

  /** It would change something: words or kind, the scope, or that the entry is there. */
  predicate ChangesIt(op: Op, e: Entry, item: Value, lex: Lexer) {
    match op
    case Add => false
    case Edit =>
      && TidyStatement(item, lex) != ""
      && (|| Loose(TidyStatement(item, lex), lex) != Loose(e.statement, lex)
          || (IsKindNamed(item, "rule", lex) && !e.kind.Rule?)
          || (IsKindNamed(item, "guideline", lex) && !e.kind.Guideline?))
    case Rescope => AskedScope(item, lex).Some? && AskedScope(item, lex) != Some(e.scope)
    case Remove => true
  }

  function OpName(op: Op): string {
    match op
    case Add => "add"
    case Edit => "edit"
    case Rescope => "rescope"
    case Remove => "remove"
  }

  lemma NamesDiffer(op: Op)
    ensures OpOf(OpName(op)) == Some(op)
  {
    assert |"add"| == 3 && |"edit"| == 4 && |"rescope"| == 7 && |"remove"| == 6;
  }

  lemma AskedIs(item: Value, op: Op)
    requires Asks(item, OpName(op))
    ensures OpOf(item.At("op").StringOr("add")) == Some(op)
  {
    NamesDiffer(op);
  }

  lemma NamedIs(item: Value, entries: seq<Entry>, id: int, i: nat)
    requires item.At("id") == Integer(id) && -0x8000_0000_0000_0000 <= id <= 0x7FFF_FFFF_FFFF_FFFF
    requires IsEntry(entries, id, i)
    ensures AcceptedEntry(entries, item.At("id").AsI64()) == Some(entries[i])
  {
    EntryIs(entries, id, i);
  }

  lemma WouldIs(op: Op, e: Entry, item: Value, evidence: seq<Evidence>, lex: Lexer)
    requires !op.Add? && !e.kind.Fact?
    ensures var c := Alteration(op, e, StyleKindOf(item, lex), TidyStatement(item, lex), AskedScope(item, lex),
                                evidence, lex);
            && (c.Some? <==> ChangesIt(op, e, item, lex))
            && (c.Some? ==> Would(c.value, op, e, item, lex) && c.value.evidence == evidence)
  {
    KindIs(item, lex);
  }

  lemma AsksToAlter(item: Value, op: Op, e: Entry, evidence: seq<Evidence>, entries: seq<Entry>, lex: Lexer)
    requires !op.Add? && OpOf(item.At("op").StringOr("add")) == Some(op)
    requires AcceptedEntry(entries, item.At("id").AsI64()) == Some(e)
    ensures Proposed(item, evidence, entries, lex)
         == Alteration(op, e, StyleKindOf(item, lex), TidyStatement(item, lex), AskedScope(item, lex), evidence, lex)
  {
    StatementIs(item, lex);
    ScopeIs(item, lex);
  }

  /**
   * An item that edits, rescopes or removes an entry is kept exactly if it has evidence and
   * would change something: as just that change.
   */
  lemma AlterationKeptExactly(item: Value, op: Op, id: int, i: nat, pairs: seq<Pair>, entries: seq<Entry>, lex: Lexer)
    requires !op.Add? && Asks(item, OpName(op))
    requires item.At("id") == Integer(id) && -0x8000_0000_0000_0000 <= id <= 0x7FFF_FFFF_FFFF_FFFF
    requires IsEntry(entries, id, i)
    ensures var evidence := EvidenceOf(item.At("evidence").Items(), pairs, lex);
            var kept := Changes([item], pairs, entries, lex);
            && |kept| == (if evidence != [] && ChangesIt(op, entries[i], item, lex) then 1 else 0)
            && (kept != [] ==> Would(kept[0], op, entries[i], item, lex) && kept[0].evidence == evidence)
  {
    OneItem(item, pairs, entries, lex);
    AskedIs(item, op);
    NamedIs(item, entries, id, i);
    var evidence := EvidenceOf(item.At("evidence").Items(), pairs, lex);
    AsksToAlter(item, op, entries[i], evidence, entries, lex);
    WouldIs(op, entries[i], item, evidence, lex);
  }

  /** An item that asks for anything else, or is for no accepted entry, is dropped. */
  lemma OthersAreDropped(item: Value, pairs: seq<Pair>, entries: seq<Entry>, lex: Lexer)
    requires !Asks(item, "add")
    requires (forall op :: !Asks(item, OpName(op))) || EntryNamed(item, "id", entries).None?
    ensures Changes([item], pairs, entries, lex) == []
  {
    OneItem(item, pairs, entries, lex);
    if OpOf(item.At("op").StringOr("add")).Some? {
      var op := OpOf(item.At("op").StringOr("add")).value;
      assert Asks(item, OpName(op));
    }
  }

  /** An answer's items are read one by one, in order. */
  lemma {:induction false} ItemByItem(a: seq<Value>, b: seq<Value>, pairs: seq<Pair>, entries: seq<Entry>, lex: Lexer)
    ensures Changes(a + b, pairs, entries, lex) == Changes(a, pairs, entries, lex) + Changes(b, pairs, entries, lex)
    decreases |b|
  {
    if b == [] {
      assert a + b == a;
    } else {
      ItemByItem(a, Init(b), pairs, entries, lex);
      assert Init(a + b) == a + Init(b) && Last(a + b) == Last(b);
    }
  }
}
