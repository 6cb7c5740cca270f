// What comparisons find, gathered into proposals across pairs and days
// (`merge_compare` and `Change::key` of crates/kaluta-core/src/analysis_compare.rs,
// `upsert_proposal`, `add_health` and `pairs_against` of crates/mail-store/src/analysis.rs).
module Proposals {
  import opened Prelude
  import opened Text
  import opened Compare
  import Json
  import Version

  const GUIDELINE_PAIRS := 2
  const RULE_PAIRS := 3

  // ---- What makes two changes one proposal ----

  datatype Key =
    | AddKey(category: string, statement: string)
    | EditKey(entry: int, kind: Kind, statement: string)
    | RescopeKey(entry: int, scope: Scope)
    | RemoveKey(entry: int)

  function KeyOf(c: Change, lex: Lexer): Key {
    var entry := OrElse(c.entry, 0);
    match c.op
    case Add => AddKey(c.category, Loose(c.statement, lex))
    case Edit => EditKey(entry, c.kind, Loose(c.statement, lex))
    case Rescope => RescopeKey(entry, c.scope)
    case Remove => RemoveKey(entry)
  }

  function KindName(kind: Kind): string {
    match kind
    case Rule => "rule"
    case Guideline => "guideline"
    case Fact => "fact"
  }

  function Signed(n: int): (s: string)
    ensures '|' !in s
  {
    if n < 0 then "-" + Version.Decimal(-n) else Version.Decimal(n)
  }

  /** The key as the store has it: parts between bars. */
  function KeyText(key: Key, json: Scope -> string): string {
    match key
    case AddKey(category, statement) => "add" + "|" + (category + "|" + statement)
    case EditKey(entry, kind, statement) => "edit" + "|" + (Signed(entry) + "|" + (KindName(kind) + "|" + statement))
    case RescopeKey(entry, scope) => "rescope" + "|" + (Signed(entry) + "|" + json(scope))
    case RemoveKey(entry) => "remove" + "|" + Signed(entry)
  }

  lemma Cut(a: string, b: string, c: string, d: string)
    requires '|' !in a && '|' !in c && a + "|" + b == c + "|" + d
    ensures a == c && b == d
  {
    var s := a + "|" + b;
    assert forall i :: 0 <= i < |a| ==> s[i] == a[i] && a[i] in a;
    assert forall i :: 0 <= i < |c| ==> s[i] == c[i] && c[i] in c;
    assert s[|a|] == '|' && s[|c|] == '|';
    assert |a| == |c|;
    assert a == s[..|a|] == c && b == s[|a| + 1..] == d;
  }

  lemma SignedSeparates(m: int, n: int)
    requires Signed(m) == Signed(n)
    ensures m == n
  {
    if m < 0 {
      Version.DecimalRoundTrip(-m);
      assert Signed(m)[0] == '-' && Signed(m)[1..] == Version.Decimal(-m);
    } else {
      Version.DecimalRoundTrip(m);
      assert Signed(m)[0] in Version.Decimal(m);
    }
    if n < 0 {
      Version.DecimalRoundTrip(-n);
      assert Signed(n)[1..] == Version.Decimal(-n);
    } else {
      Version.DecimalRoundTrip(n);
      assert Signed(n)[0] in Version.Decimal(n);
    }
  }

  lemma NamesSeparate(a: Kind, b: Kind)
    ensures '|' !in KindName(a)
    ensures KindName(a) == KindName(b) ==> a == b
  {
    assert KindName(Rule)[0] == 'r' && KindName(Guideline)[0] == 'g' && KindName(Fact)[0] == 'f';
  }

  function Tag(key: Key): (tag: string)
    ensures '|' !in tag
  {
    match key
    case AddKey(_, _) => "add"
    case EditKey(_, _, _) => "edit"
    case RescopeKey(_, _) => "rescope"
    case RemoveKey(_) => "remove"
  }

  function Rest(key: Key, json: Scope -> string): string {
    match key
    case AddKey(category, statement) => category + "|" + statement
    case EditKey(entry, kind, statement) => Signed(entry) + "|" + (KindName(kind) + "|" + statement)
    case RescopeKey(entry, scope) => Signed(entry) + "|" + json(scope)
    case RemoveKey(entry) => Signed(entry)
  }

  lemma TagsSeparate(a: Key, b: Key)
    requires Tag(a) == Tag(b)
    ensures a.AddKey? == b.AddKey? && a.EditKey? == b.EditKey? && a.RescopeKey? == b.RescopeKey?
  {
    assert |"add"| == 3 && |"edit"| == 4 && |"rescope"| == 7 && |"remove"| == 6;
  }

  predicate KeyOk(key: Key) {
    key.AddKey? ==> key.category in CATEGORIES
  }

  lemma CategoryHasNoBar(category: string)
    requires category in CATEGORIES
    ensures '|' !in category
  {
  }

  /** Two changes have one key exactly when they are one proposal, if JSON tells scopes apart. */
  lemma KeyTextSeparates(a: Key, b: Key, json: Scope -> string)
    requires forall s, t :: json(s) == json(t) ==> s == t
    requires KeyOk(a) && KeyOk(b)
    ensures KeyText(a, json) == KeyText(b, json) <==> a == b
  {
    if KeyText(a, json) == KeyText(b, json) {
      assert KeyText(a, json) == Tag(a) + "|" + Rest(a, json);
      assert KeyText(b, json) == Tag(b) + "|" + Rest(b, json);
      Cut(Tag(a), Rest(a, json), Tag(b), Rest(b, json));
      TagsSeparate(a, b);
      match a {
        case AddKey(category, statement) =>
          CategoryHasNoBar(category);
          CategoryHasNoBar(b.category);
          Cut(category, statement, b.category, b.statement);
        case EditKey(entry, kind, statement) =>
          Cut(Signed(entry), KindName(kind) + "|" + statement, Signed(b.entry), KindName(b.kind) + "|" + b.statement);
          SignedSeparates(entry, b.entry);
          NamesSeparate(kind, b.kind);
          NamesSeparate(b.kind, kind);
          Cut(KindName(kind), statement, KindName(b.kind), b.statement);
        case RescopeKey(entry, scope) =>
          Cut(Signed(entry), json(scope), Signed(b.entry), json(b.scope));
          SignedSeparates(entry, b.entry);
        case RemoveKey(entry) =>
          SignedSeparates(entry, b.entry);
      }
    }
  }

  // ---- The store ----

  datatype Status = Watching | Shown | Accepted | Rejected

  /** A proposal and the pairs behind it; its support is their number. `shown`: it has been shown some time. */
  datatype Proposal = Proposal(status: Status, pairs: set<int>, shown: bool)

  const NEW := Proposal(Watching, {}, false)

  type Proposals = map<Key, Proposal>

  predicate IsOpen(p: Proposal) {
    p.status.Watching? || p.status.Shown?
  }

  /** The entry an edit, rescope or removal is for. */
  function EntryOf(key: Key): Option<int> {
    if key.AddKey? then None else Some(key.entry)
  }

  /** A proposal raised by these pairs: a decided one is not raised again. */
  function Raised(known: Option<Proposal>, pairs: set<int>, threshold: nat): Proposal {
    var p := if known.Some? then known.value else NEW;
    if !IsOpen(p) then p
    else
      var all := p.pairs + pairs;
      if p.status.Watching? && |all| >= threshold then Proposal(Shown, all, true) else p.(pairs := all)
  }

  function Lookup(ps: Proposals, key: Key): Option<Proposal> {
    if key in ps then Some(ps[key]) else None
  }

  function Upserted(ps: Proposals, key: Key, pairs: set<int>, threshold: nat): Proposals {
    ps[key := Raised(Lookup(ps, key), pairs, threshold)]
  }

  function Threshold(kind: Kind): (n: nat)
    ensures GUIDELINE_PAIRS <= n <= RULE_PAIRS
  {
    if kind.Rule? then RULE_PAIRS else GUIDELINE_PAIRS
  }

  function PairsOf(evidence: seq<Evidence>): set<int> {
    set e | e in evidence :: e.pair
  }

  /** The pairs behind any open change to the entry. */
  function PairsAgainst(ps: Proposals, entry: int): set<int> {
    set key, pair | key in ps && IsOpen(ps[key]) && EntryOf(key) == Some(entry) && pair in ps[key].pairs :: pair
  }

  // ---- One merge ----

  function AfterChanges(ps: Proposals, changes: seq<Change>, lex: Lexer): Proposals
    decreases |changes|
  {
    if changes == [] then ps
    else
      var c := Last(changes);
      Upserted(AfterChanges(ps, Init(changes), lex), KeyOf(c, lex), PairsOf(c.evidence), Threshold(c.kind))
  }

  /** The entry a change goes against: the one it is for, or the one it contradicts. */
  function Against(c: Change): Option<int> {
    if c.entry.Some? then c.entry else c.contradicts
  }

  /** Which entries the changes go against, in which pairs. */
  function AgainstOf(changes: seq<Change>): (against: set<(int, int)>)
    ensures forall entry, pair ::
      (entry, pair) in against <==> exists c :: c in changes && Against(c) == Some(entry) && pair in PairsOf(c.evidence)
  {
    if changes == [] then {}
    else
      var c := Last(changes);
      assert changes == Init(changes) + [c];
      AgainstOf(Init(changes)) + (if Against(c).Some?
          then set pair | pair in PairsOf(c.evidence) :: (Against(c).value, pair) else {})
  }

  function Kinds(entries: seq<Entry>): map<int, Kind> {
    if entries == [] then map[] else Kinds(Init(entries))[Last(entries).id := Last(entries).kind]
  }

  /** Of these entries, the known ones gone against in three pairs. */
  function Due(ps: Proposals, entries: set<int>, kinds: map<int, Kind>): (due: set<int>)
    ensures due <= kinds.Keys && due <= entries
  {
    set e | e in entries && e in kinds && |PairsAgainst(ps, e)| >= RULE_PAIRS
  }

  function Removal(ps: Proposals, entry: int, kind: Kind): Proposal {
    Raised(Lookup(ps, RemoveKey(entry)), PairsAgainst(ps, entry), Threshold(kind))
  }

  function WithRemovals(ps: Proposals, due: set<int>, kinds: map<int, Kind>): (r: Proposals)
    requires due <= kinds.Keys
    ensures forall key :: key in r <==> key in ps || (key.RemoveKey? && key.entry in due)
  {
    map key | key in ps.Keys + (set e | e in due :: RemoveKey(e)) ::
      if key.RemoveKey? && key.entry in due then Removal(ps, key.entry, kinds[key.entry]) else ps[key]
  }

  function EntriesOf(against: set<(int, int)>): set<int> {
    set x | x in against :: x.0
  }

  function Merged(ps: Proposals, changes: seq<Change>, kinds: map<int, Kind>, lex: Lexer): Proposals {
    var after := AfterChanges(ps, changes, lex);
    WithRemovals(after, Due(after, EntriesOf(AgainstOf(changes)), kinds), kinds)
  }

  function CountOf(health: map<int, nat>, entry: int): nat {
    if entry in health then health[entry] else 0
  }

  function PairsAt(against: set<(int, int)>, entry: int): set<int> {
    set x | x in against && x.0 == entry :: x.1
  }

  function Counted(health: map<int, nat>, against: set<(int, int)>): map<int, nat> {
    map e | e in health.Keys + EntriesOf(against) :: CountOf(health, e) + |PairsAt(against, e)|
  }

  lemma CountedNothing(health: map<int, nat>)
    ensures Counted(health, {}) == health
  {
    forall e | e in health
      ensures CountOf(health, e) + |PairsAt({}, e)| == health[e]
    {
      assert PairsAt({}, e) == {};
    }
  }

  lemma EntriesOneMore(against: set<(int, int)>, x: (int, int))
    ensures EntriesOf(against + {x}) == EntriesOf(against) + {x.0}
  {
    assert x in against + {x};
  }

  lemma PairsOneMore(against: set<(int, int)>, x: (int, int), entry: int)
    requires x !in against
    ensures |PairsAt(against + {x}, entry)| == |PairsAt(against, entry)| + if entry == x.0 then 1 else 0
  {
    var more := against + {x};
    assert x in more;
    if entry == x.0 {
      assert x == (x.0, x.1);
      assert PairsAt(more, entry) == PairsAt(against, entry) + {x.1};
      assert x.1 !in PairsAt(against, entry);
    } else {
      assert PairsAt(more, entry) == PairsAt(against, entry);
    }
  }

  lemma NoPairs(against: set<(int, int)>, entry: int)
    requires entry !in EntriesOf(against)
    ensures PairsAt(against, entry) == {}
  {
  }

  lemma CountIs(health: map<int, nat>, against: set<(int, int)>, entry: int)
    ensures CountOf(Counted(health, against), entry) == CountOf(health, entry) + |PairsAt(against, entry)|
  {
    if entry !in EntriesOf(against) {
      NoPairs(against, entry);
    }
  }

  lemma CountedOneMore(health: map<int, nat>, against: set<(int, int)>, x: (int, int))
    requires x !in against
    ensures Counted(health, against + {x})
            == Counted(health, against)[x.0 := CountOf(Counted(health, against), x.0) + 1]
  {
    EntriesOneMore(against, x);
    var once, more := Counted(health, against), Counted(health, against + {x});
    CountIs(health, against, x.0);
    assert more.Keys == once.Keys + {x.0};
    forall e | e in more
      ensures more[e] == if e == x.0 then CountOf(once, x.0) + 1 else once[e]
    {
      PairsOneMore(against, x, e);
    }
  }

  lemma RemovalsDoNotMatter(ps: Proposals, due: set<int>, kinds: map<int, Kind>, entry: int)
    requires due <= kinds.Keys && entry !in due
    ensures PairsAgainst(WithRemovals(ps, due, kinds), entry) == PairsAgainst(ps, entry)
    ensures Lookup(WithRemovals(ps, due, kinds), RemoveKey(entry)) == Lookup(ps, RemoveKey(entry))
  {
    var after := WithRemovals(ps, due, kinds);
    forall key | EntryOf(key) == Some(entry)
      ensures key in after <==> key in ps
      ensures key in ps ==> after[key] == ps[key]
    {
    }
  }

  lemma OneMoreRemoval(ps: Proposals, due: set<int>, kinds: map<int, Kind>, entry: int)
    requires due <= kinds.Keys && entry !in due && entry in kinds
    ensures var before := WithRemovals(ps, due, kinds);
            WithRemovals(ps, due + {entry}, kinds)
            == Upserted(before, RemoveKey(entry), PairsAgainst(before, entry), Threshold(kinds[entry]))
  {
    RemovalsDoNotMatter(ps, due, kinds, entry);
  }

  lemma NoRemovals(ps: Proposals, kinds: map<int, Kind>)
    ensures WithRemovals(ps, Due(ps, {}, kinds), kinds) == ps
  {
  }

  lemma OneMoreDue(ps: Proposals, done: set<int>, kinds: map<int, Kind>, entry: int)
    requires entry !in done
    ensures Due(ps, done + {entry}, kinds)
         == Due(ps, done, kinds) + if entry in kinds && |PairsAgainst(ps, entry)| >= RULE_PAIRS then {entry} else {}
  {
  }

  /** Any element: the order does not matter to what is counted and proposed. */
  method Pick<T(==)>(s: set<T>) returns (x: T)
    requires s != {}
    ensures x in s
  {
    x :| x in s;
  }

  class Store {
    var proposals: Proposals
    /** How often each entry was changed against. */
    var overridden: map<int, nat>

    constructor (proposals: Proposals, overridden: map<int, nat>)
      ensures this.proposals == proposals && this.overridden == overridden
    {
      this.proposals := proposals;
      this.overridden := overridden;
    }

    /** Adds a proposal or grows it, and shows it once enough pairs are behind it. */
    method UpsertProposal(key: Key, pairs: set<int>, threshold: nat)
      modifies this`proposals
      ensures proposals == Upserted(old(proposals), key, pairs, threshold)
    {
      if key in proposals && !IsOpen(proposals[key]) {
        return;
      }
      var p := if key in proposals then proposals[key] else NEW;
      p := p.(pairs := p.pairs + pairs);
      if p.status.Watching? && |p.pairs| >= threshold {
        p := p.(status := Shown, shown := true);
      }
      proposals := proposals[key := p];
    }

    method GatherChanges(changes: seq<Change>, lex: Lexer) returns (against: set<(int, int)>)
      modifies this`proposals
      ensures proposals == AfterChanges(old(proposals), changes, lex)
      ensures against == AgainstOf(changes)
    {
      against := {};
      for i := 0 to |changes|
        invariant proposals == AfterChanges(old(proposals), changes[..i], lex)
        invariant against == AgainstOf(changes[..i])
      {
        var c := changes[i];
        assert Init(changes[..i + 1]) == changes[..i] && Last(changes[..i + 1]) == c;
        UpsertProposal(KeyOf(c, lex), PairsOf(c.evidence), Threshold(c.kind));
        var entry := Against(c);
        if entry.Some? {
          against := against + set pair | pair in PairsOf(c.evidence) :: (entry.value, pair);
        }
      }
      assert changes[..|changes|] == changes;
    }

    method AddOverridden(x: (int, int), ghost before: map<int, nat>, ghost counted: set<(int, int)>)
      requires overridden == Counted(before, counted) && x !in counted
      modifies this`overridden
      ensures overridden == Counted(before, counted + {x})
    {
      CountedOneMore(before, counted, x);
      overridden := overridden[x.0 := CountOf(overridden, x.0) + 1];
    }

    method CountAgainst(against: set<(int, int)>)
      modifies this`overridden
      ensures overridden == Counted(old(overridden), against)
    {
      ghost var before, counted: set<(int, int)> := overridden, {};
      CountedNothing(before);
      var rest := against;
      while rest != {}
        invariant counted + rest == against && counted !! rest
        invariant overridden == Counted(before, counted)
        decreases |rest|
      {
        var x := Pick(rest);
        AddOverridden(x, before, counted);
        counted, rest := counted + {x}, rest - {x};
      }
      assert counted == against;
    }

    method ProposeRemoval(entry: int, kinds: map<int, Kind>, ghost before: Proposals, ghost done: set<int>)
      requires entry !in done && proposals == WithRemovals(before, Due(before, done, kinds), kinds)
      modifies this`proposals
      ensures proposals == WithRemovals(before, Due(before, done + {entry}, kinds), kinds)
    {
      ghost var due := Due(before, done, kinds);
      RemovalsDoNotMatter(before, due, kinds, entry);
      OneMoreDue(before, done, kinds, entry);
      var pairs := PairsAgainst(proposals, entry);
      if |pairs| >= RULE_PAIRS && entry in kinds {
        OneMoreRemoval(before, due, kinds, entry);
        UpsertProposal(RemoveKey(entry), pairs, Threshold(kinds[entry]));
      }
    }

    method ProposeRemovals(entries: set<int>, kinds: map<int, Kind>)
      modifies this`proposals
      ensures proposals == WithRemovals(old(proposals), Due(old(proposals), entries, kinds), kinds)
    {
      ghost var before, done: set<int> := proposals, {};
      NoRemovals(before, kinds);
      var rest := entries;
      while rest != {}
        invariant done + rest == entries && done !! rest
        invariant proposals == WithRemovals(before, Due(before, done, kinds), kinds)
        decreases |rest|
      {
        var e := Pick(rest);
        ProposeRemoval(e, kinds, before, done);
        done, rest := done + {e}, rest - {e};
      }
      assert done == entries;
    }

    /** Merges what a comparison found: one proposal a change, each pair counted once against each entry it changed. */
    method Merge(changes: seq<Change>, entries: seq<Entry>, lex: Lexer)
      modifies this
      ensures proposals == Merged(old(proposals), changes, Kinds(entries), lex)
      ensures overridden == Counted(old(overridden), AgainstOf(changes))
    {
      var against := GatherChanges(changes, lex);
      CountAgainst(against);
      ProposeRemovals(EntriesOf(against), Kinds(entries));
    }

    /** A run's batches, one answer after the other; a batch not recorded as done is asked about and merged again. */
    method MergeAnswers(answers: seq<Answer>, lex: Lexer)
      modifies this
      ensures overridden == CountedAll(old(overridden), answers)
    {
      for i := 0 to |answers|
        invariant overridden == CountedAll(old(overridden), answers[..i])
      {
        assert Init(answers[..i + 1]) == answers[..i] && Last(answers[..i + 1]) == answers[i];
        Merge(answers[i].changes, answers[i].entries, lex);
      }
      assert answers[..|answers|] == answers;
    }
  }

  // ---- How often an entry is counted ----

  /** What a comparison found, and the guide as it was then. */
  datatype Answer = Answer(changes: seq<Change>, entries: seq<Entry>)

  function CountedAll(health: map<int, nat>, answers: seq<Answer>): map<int, nat> {
    if answers == [] then health
    else Counted(CountedAll(health, Init(answers)), AgainstOf(Last(answers).changes))
  }

  /** The pairs in which one answer goes against an entry. */
  function PairsIn(answer: Answer, entry: int): set<int> {
    PairsAt(AgainstOf(answer.changes), entry)
  }

  function PairsOver(answers: seq<Answer>, entry: int): set<int> {
    if answers == [] then {} else PairsOver(Init(answers), entry) + PairsIn(Last(answers), entry)
  }

  /** No pair goes against the entry in two of the answers. */
  predicate EachPairOnce(answers: seq<Answer>, entry: int) {
    forall i, j :: 0 <= i < j < |answers| ==> PairsIn(answers[i], entry) !! PairsIn(answers[j], entry)
  }

  predicate AllApart(answers: seq<Answer>, entry: int, pairs: set<int>) {
    forall i :: 0 <= i < |answers| ==> PairsIn(answers[i], entry) !! pairs
  }

  lemma AllApartStep(answers: seq<Answer>, entry: int, pairs: set<int>)
    requires answers != []
    ensures AllApart(answers, entry, pairs)
        <==> AllApart(Init(answers), entry, pairs) && PairsIn(Last(answers), entry) !! pairs
  {
    assert forall i :: 0 <= i < |answers| - 1 ==> answers[i] == Init(answers)[i];
  }

  lemma {:induction false} AllApartExactly(answers: seq<Answer>, entry: int, pairs: set<int>)
    ensures AllApart(answers, entry, pairs) <==> PairsOver(answers, entry) !! pairs
    decreases |answers|
  {
    if answers != [] {
      AllApartExactly(Init(answers), entry, pairs);
      AllApartStep(answers, entry, pairs);
    }
  }

  lemma OnceUpToLast(answers: seq<Answer>, entry: int)
    requires answers != [] && EachPairOnce(answers, entry)
    ensures EachPairOnce(Init(answers), entry) && AllApart(Init(answers), entry, PairsIn(Last(answers), entry))
  {
    forall i | 0 <= i < |answers| - 1
      ensures answers[i] == Init(answers)[i]
      ensures PairsIn(answers[i], entry) !! PairsIn(answers[|answers| - 1], entry)
    {
    }
  }

  lemma OnceWithLast(answers: seq<Answer>, entry: int)
    requires answers != []
    requires EachPairOnce(Init(answers), entry) && AllApart(Init(answers), entry, PairsIn(Last(answers), entry))
    ensures EachPairOnce(answers, entry)
  {
    forall i, j | 0 <= i < j < |answers|
      ensures PairsIn(answers[i], entry) !! PairsIn(answers[j], entry)
    {
      assert answers[i] == Init(answers)[i];
      if j < |answers| - 1 {
        assert answers[j] == Init(answers)[j];
        assert PairsIn(Init(answers)[i], entry) !! PairsIn(Init(answers)[j], entry);
      } else {
        assert answers[j] == Last(answers);
        assert PairsIn(Init(answers)[i], entry) !! PairsIn(Last(answers), entry);
      }
    }
  }

  lemma OnceMore(answers: seq<Answer>, entry: int)
    requires answers != []
    ensures EachPairOnce(answers, entry)
        <==> EachPairOnce(Init(answers), entry) && PairsOver(Init(answers), entry) !! PairsIn(Last(answers), entry)
  {
    AllApartExactly(Init(answers), entry, PairsIn(Last(answers), entry));
    if EachPairOnce(answers, entry) {
      OnceUpToLast(answers, entry);
    } else if EachPairOnce(Init(answers), entry) && AllApart(Init(answers), entry, PairsIn(Last(answers), entry)) {
      OnceWithLast(answers, entry);
    }
  }

  lemma UnionSize(a: set<int>, b: set<int>)
    ensures |a + b| <= |a| + |b|
    ensures |a + b| == |a| + |b| <==> a !! b
  {
    assert a + b == a + (b - a) && a !! (b - a);
    assert b == (b - a) + (b * a) && (b - a) !! (b * a);
  }

  /**
   * Over any answers merged one after the other, an entry is counted at least once for each
   * pair against it, and exactly once for each precisely when no pair is against it in two of them.
   */
  lemma {:induction false} CountedOnceExactly(health: map<int, nat>, answers: seq<Answer>, entry: int)
    ensures CountOf(CountedAll(health, answers), entry) >= CountOf(health, entry) + |PairsOver(answers, entry)|
    ensures CountOf(CountedAll(health, answers), entry) == CountOf(health, entry) + |PairsOver(answers, entry)|
        <==> EachPairOnce(answers, entry)
    decreases |answers|
  {
    if answers != [] {
      CountedOnceExactly(health, Init(answers), entry);
      CountIs(CountedAll(health, Init(answers)), AgainstOf(Last(answers).changes), entry);
      UnionSize(PairsOver(Init(answers), entry), PairsIn(Last(answers), entry));
      OnceMore(answers, entry);
    }
  }

  /** The same answer merged twice: each of its pairs counts twice, so once each only if it has none. */
  lemma MergedTwiceCountsTwice(health: map<int, nat>, x: Answer, entry: int)
    ensures CountOf(CountedAll(health, [x, x]), entry) == CountOf(health, entry) + 2 * |PairsIn(x, entry)|
    ensures PairsOver([x, x], entry) == PairsIn(x, entry)
    ensures EachPairOnce([x, x], entry) <==> PairsIn(x, entry) == {}
  {
    assert Init([x, x]) == [x] && Init([x]) == [];
    var once := Counted(CountedAll(health, []), AgainstOf(x.changes));
    assert CountedAll(health, [x]) == once;
    CountIs(health, AgainstOf(x.changes), entry);
    CountIs(once, AgainstOf(x.changes), entry);
    assert PairsOver([x], entry) == PairsIn(x, entry);
    CountedOnceExactly(health, [x, x], entry);
  }

  // ---- What every merge keeps ----

  /** How many pairs a proposal needs before it shows, at least: two, and three for an edit to a rule. */
  function Needed(key: Key): nat {
    if key.EditKey? && key.kind.Rule? then RULE_PAIRS else GUIDELINE_PAIRS
  }

  predicate IsBacked(key: Key, p: Proposal) {
    p.status.Shown? ==> |p.pairs| >= Needed(key)
  }

  predicate Inv(ps: Proposals) {
    forall key :: key in ps ==> IsBacked(key, ps[key])
  }

  /** One proposal grows into another: it keeps its pairs, its decision if it has one, and stays shown. */
  predicate GrewInto(p: Proposal, q: Proposal) {
    && p.pairs <= q.pairs
    && (!IsOpen(p) ==> q == p)
    && (p.status.Shown? ==> q.status.Shown?)
    && (IsOpen(p) ==> IsOpen(q))
    && (p.shown ==> q.shown)
  }

  /** And it is shown anew only with its pairs. */
  predicate Grew(key: Key, known: Option<Proposal>, q: Proposal) {
    && (known.Some? ==> GrewInto(known.value, q))
    && (q.status.Shown? && !(known.Some? && known.value.status.Shown?) ==> q.shown && IsBacked(key, q))
  }

  predicate AllGrew(ps: Proposals, qs: Proposals) {
    && ps.Keys <= qs.Keys
    && forall key :: key in qs ==> Grew(key, Lookup(ps, key), qs[key])
  }

  lemma MoreIsMore(a: set<int>, b: set<int>)
    requires a <= b
    ensures |a| <= |b|
  {
    assert b == a + (b - a);
  }

  lemma RaisedGrew(key: Key, known: Option<Proposal>, pairs: set<int>, threshold: nat)
    requires threshold >= Needed(key)
    ensures Grew(key, known, Raised(known, pairs, threshold))
  {
  }

  lemma GrewTwice(key: Key, known: Option<Proposal>, q: Proposal, r: Proposal)
    requires Grew(key, known, q) && Grew(key, Some(q), r)
    ensures Grew(key, known, r)
  {
    MoreIsMore(q.pairs, r.pairs);
  }

  lemma AllGrewTwice(ps: Proposals, qs: Proposals, rs: Proposals)
    requires AllGrew(ps, qs) && AllGrew(qs, rs)
    ensures AllGrew(ps, rs)
  {
    forall key | key in rs
      ensures Grew(key, Lookup(ps, key), rs[key])
    {
      if key in qs {
        GrewTwice(key, Lookup(ps, key), qs[key], rs[key]);
      }
    }
  }

  lemma {:induction false} ChangesGrow(ps: Proposals, changes: seq<Change>, lex: Lexer)
    ensures AllGrew(ps, AfterChanges(ps, changes, lex))
    decreases |changes|
  {
    if changes != [] {
      ChangesGrow(ps, Init(changes), lex);
      var before, c := AfterChanges(ps, Init(changes), lex), Last(changes);
      RaisedGrew(KeyOf(c, lex), Lookup(before, KeyOf(c, lex)), PairsOf(c.evidence), Threshold(c.kind));
      AllGrewTwice(ps, before, AfterChanges(ps, changes, lex));
    }
  }

  lemma RemovalsGrow(ps: Proposals, due: set<int>, kinds: map<int, Kind>)
    requires due <= kinds.Keys
    ensures AllGrew(ps, WithRemovals(ps, due, kinds))
  {
    forall e | e in due
      ensures Grew(RemoveKey(e), Lookup(ps, RemoveKey(e)), Removal(ps, e, kinds[e]))
    {
      RaisedGrew(RemoveKey(e), Lookup(ps, RemoveKey(e)), PairsAgainst(ps, e), Threshold(kinds[e]));
    }
  }

  lemma GrewKeepsInv(ps: Proposals, qs: Proposals)
    requires AllGrew(ps, qs) && Inv(ps)
    ensures Inv(qs)
  {
    forall key | key in qs
      ensures IsBacked(key, qs[key])
    {
      assert Grew(key, Lookup(ps, key), qs[key]);
      if key in ps {
        MoreIsMore(ps[key].pairs, qs[key].pairs);
      }
    }
  }

  /**
   * Whatever the store holds, a merge takes no proposal and no pair away, raises no decided
   * one again, hides none, and shows none anew without its pairs.
   */
  lemma MergeKeeps(ps: Proposals, changes: seq<Change>, kinds: map<int, Kind>, lex: Lexer)
    ensures AllGrew(ps, Merged(ps, changes, kinds, lex))
    ensures Inv(ps) ==> Inv(Merged(ps, changes, kinds, lex))
  {
    var after := AfterChanges(ps, changes, lex);
    var due := Due(after, EntriesOf(AgainstOf(changes)), kinds);
    ChangesGrow(ps, changes, lex);
    RemovalsGrow(after, due, kinds);
    AllGrewTwice(ps, after, WithRemovals(after, due, kinds));
    if Inv(ps) {
      GrewKeepsInv(ps, Merged(ps, changes, kinds, lex));
    }
  }

  lemma EnoughRaises(known: Option<Proposal>, pairs: set<int>, threshold: nat)
    requires |pairs| >= threshold
    ensures !Raised(known, pairs, threshold).status.Watching?
  {
    var p := if known.Some? then known.value else NEW;
    MoreIsMore(pairs, p.pairs + pairs);
  }

  /** The entry's removal is shown to the user, or was decided. */
  predicate RemovalProposed(ps: Proposals, entry: int) {
    RemoveKey(entry) in ps && !ps[RemoveKey(entry)].status.Watching?
  }

  lemma GrownHasMoreAgainst(ps: Proposals, qs: Proposals, entry: int)
    requires AllGrew(ps, qs)
    ensures |PairsAgainst(ps, entry)| <= |PairsAgainst(qs, entry)|
  {
    forall pair | pair in PairsAgainst(ps, entry)
      ensures pair in PairsAgainst(qs, entry)
    {
      var key :| key in ps && IsOpen(ps[key]) && EntryOf(key) == Some(entry) && pair in ps[key].pairs;
      assert Grew(key, Lookup(ps, key), qs[key]);
    }
    MoreIsMore(PairsAgainst(ps, entry), PairsAgainst(qs, entry));
  }

  lemma DueIsProposed(ps: Proposals, due: set<int>, kinds: map<int, Kind>, entry: int)
    requires due <= kinds.Keys && entry in due && |PairsAgainst(ps, entry)| >= RULE_PAIRS
    ensures RemovalProposed(WithRemovals(ps, due, kinds), entry)
  {
    EnoughRaises(Lookup(ps, RemoveKey(entry)), PairsAgainst(ps, entry), Threshold(kinds[entry]));
  }

  /**
   * The removal of an entry this answer goes against is shown or decided after the merge exactly
   * if three pairs are behind the open changes to it, or if it was so once the changes were in:
   * pairs that only contradict the entry do not count.
   */
  lemma GoneAgainstIsProposedExactly(ps: Proposals, changes: seq<Change>, kinds: map<int, Kind>, entry: int, lex: Lexer)
    requires entry in EntriesOf(AgainstOf(changes)) && entry in kinds
    ensures RemovalProposed(Merged(ps, changes, kinds, lex), entry)
        <==> |PairsAgainst(Merged(ps, changes, kinds, lex), entry)| >= RULE_PAIRS
             || RemovalProposed(AfterChanges(ps, changes, lex), entry)
  {
    var after := AfterChanges(ps, changes, lex);
    var due := Due(after, EntriesOf(AgainstOf(changes)), kinds);
    RemovalsGrow(after, due, kinds);
    if entry in due {
      DueIsProposed(after, due, kinds, entry);
      GrownHasMoreAgainst(after, WithRemovals(after, due, kinds), entry);
    } else {
      RemovalsDoNotMatter(after, due, kinds, entry);
    }
  }

  lemma AgainstAlone(c: Change, entry: int)
    requires Against(c) == Some(entry)
    ensures PairsAt(AgainstOf([c]), entry) == PairsOf(c.evidence)
  {
    forall pair
      ensures pair in PairsAt(AgainstOf([c]), entry) <==> pair in PairsOf(c.evidence)
    {
      assert pair in PairsAt(AgainstOf([c]), entry) <==> (entry, pair) in AgainstOf([c]);
    }
  }

  /** With nothing but additions in the store nothing is against any entry. */
  lemma OnlyAdditions(ps: Proposals, entries: set<int>, kinds: map<int, Kind>)
    requires forall key :: key in ps ==> key.AddKey?
    ensures WithRemovals(ps, Due(ps, entries, kinds), kinds) == ps
  {
    forall entry
      ensures PairsAgainst(ps, entry) == {}
    {
    }
    NoRemovals(ps, kinds);
    assert Due(ps, entries, kinds) == Due(ps, {}, kinds);
  }

  /**
   * An addition that contradicts an entry, in however many pairs: each is counted against the
   * entry, and its removal is not proposed.
   */
  lemma ContradictedIsNotProposed(c: Change, kinds: map<int, Kind>, health: map<int, nat>, entry: int, lex: Lexer)
    requires c.op.Add? && c.entry.None? && c.contradicts == Some(entry)
    ensures CountOf(Counted(health, AgainstOf([c])), entry) == CountOf(health, entry) + |PairsOf(c.evidence)|
    ensures RemoveKey(entry) !in Merged(map[], [c], kinds, lex)
  {
    assert Init([c]) == [];
    var after := Upserted(AfterChanges(map[], [], lex), KeyOf(c, lex), PairsOf(c.evidence), Threshold(c.kind));
    assert AfterChanges(map[], [c], lex) == after;
    OnlyAdditions(after, EntriesOf(AgainstOf([c])), kinds);
    CountIs(health, AgainstOf([c]), entry);
    AgainstAlone(c, entry);
  }

  lemma {:induction false} KindsOfEntries(entries: seq<Entry>, e: Entry)
    requires e in entries
    ensures e.id in Kinds(entries)
    decreases |entries|
  {
    assert entries == Init(entries) + [Last(entries)];
    if e in Init(entries) {
      KindsOfEntries(Init(entries), e);
    }
  }

  /** Whatever the agent answers, every entry its changes go against is one of the guide's. */
  lemma AgainstAreEntries(items: seq<Json.Value>, pairs: seq<Pair>, entries: seq<Entry>, lex: Lexer)
    ensures EntriesOf(AgainstOf(Changes(items, pairs, entries, lex))) <= Kinds(entries).Keys
  {
    var changes := Changes(items, pairs, entries, lex);
    ChangesAreSound(items, pairs, entries, lex);
    forall x | x in AgainstOf(changes)
      ensures x.0 in Kinds(entries)
    {
      assert x == (x.0, x.1);
      var c :| c in changes && Against(c) == Some(x.0) && x.1 in PairsOf(c.evidence);
      EntryAgainst(c, pairs, entries, lex);
    }
  }

  lemma EntryAgainst(c: Change, pairs: seq<Pair>, entries: seq<Entry>, lex: Lexer)
    requires IsSound(c, pairs, entries, lex) && Against(c).Some?
    ensures Against(c).value in Kinds(entries)
  {
    if IsAddition(c, entries) {
      var e :| e in entries && e.id == c.contradicts.value && e.accepted && !e.kind.Fact?;
      KindsOfEntries(entries, e);
    } else {
      var e :| e in entries && c.entry == Some(e.id) && e.accepted && !e.kind.Fact? && Alters(c, e, lex);
      KindsOfEntries(entries, e);
    }
  }
}
