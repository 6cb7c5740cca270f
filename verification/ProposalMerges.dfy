// What a merge leaves of each proposal and each entry's count, by the changes merged alone.
module ProposalMerges {
  import opened Prelude
  import opened Text
  import opened Compare
  import opened Proposals

  /** The change makes this proposal: of one kind, at one entry, and alike but for case and spaces. */
  predicate IsAbout(c: Change, key: Key, lex: Lexer) {
    match key
    case AddKey(category, statement) => c.op.Add? && c.category == category && Loose(c.statement, lex) == statement
    case EditKey(entry, kind, statement) =>
      && c.op.Edit? && (c.entry == Some(entry) || (c.entry.None? && entry == 0))
      && c.kind == kind && Loose(c.statement, lex) == statement
    case RescopeKey(entry, scope) =>
      c.op.Rescope? && (c.entry == Some(entry) || (c.entry.None? && entry == 0)) && c.scope == scope
    case RemoveKey(entry) => c.op.Remove? && (c.entry == Some(entry) || (c.entry.None? && entry == 0))
  }

  predicate IsAmong(key: Key, changes: seq<Change>, lex: Lexer) {
    exists c :: c in changes && IsAbout(c, key, lex)
  }

  /** The pairs these changes give the proposal. */
  function Given(changes: seq<Change>, key: Key, lex: Lexer): set<int> {
    set c, e | c in changes && IsAbout(c, key, lex) && e in c.evidence :: e.pair
  }

  function Needs(kind: Kind): nat {
    match kind
    case Rule => 3
    case Guideline => 2
    case Fact => 2
  }

  /** With this change, which is about it, the proposal has the pairs the change asks for. */
  predicate ReachedAt(p: Proposal, changes: seq<Change>, key: Key, lex: Lexer, i: nat)
    requires i < |changes|
  {
    IsAbout(changes[i], key, lex) && |p.pairs + Given(changes[..i + 1], key, lex)| >= Needs(changes[i].kind)
  }

  predicate Reached(p: Proposal, changes: seq<Change>, key: Key, lex: Lexer) {
    exists i: nat :: i < |changes| && ReachedAt(p, changes, key, lex, i)
  }

  function Before(ps: Proposals, key: Key): Proposal {
    if key in ps then ps[key] else Proposal(Watching, {}, false)
  }

  /** A decided proposal is left; an open one gains these pairs, and shows once it has enough. */
  predicate Grows(p: Proposal, q: Proposal, pairs: set<int>, enough: bool) {
    if p.status.Accepted? || p.status.Rejected? then q == p
    else
      && q.pairs == p.pairs + pairs
      && q.status == (if p.status.Shown? || enough then Shown else Watching)
      && (q.shown <==> p.shown || (p.status.Watching? && enough))
  }

  lemma OneMoreGiven(changes: seq<Change>, key: Key, lex: Lexer)
    requires changes != []
    ensures Given(changes, key, lex)
         == Given(Init(changes), key, lex)
            + if IsAbout(Last(changes), key, lex) then PairsOf(Last(changes).evidence) else {}
  {
    assert changes == Init(changes) + [Last(changes)];
    forall c
      ensures c in changes <==> c in Init(changes) || c == Last(changes)
    {
    }
  }

  lemma ReachedBefore(p: Proposal, changes: seq<Change>, key: Key, lex: Lexer, i: nat)
    requires i < |changes| - 1
    ensures ReachedAt(p, changes, key, lex, i) <==> ReachedAt(p, Init(changes), key, lex, i)
  {
    assert Init(changes)[i] == changes[i] && Init(changes)[..i + 1] == changes[..i + 1];
  }

  lemma OneMoreReached(p: Proposal, changes: seq<Change>, key: Key, lex: Lexer)
    requires changes != []
    ensures Reached(p, changes, key, lex)
        <==> Reached(p, Init(changes), key, lex) || ReachedAt(p, changes, key, lex, |changes| - 1)
  {
    forall i: nat | i < |changes| - 1
      ensures ReachedAt(p, changes, key, lex, i) <==> ReachedAt(p, Init(changes), key, lex, i)
    {
      ReachedBefore(p, changes, key, lex, i);
    }
  }

  lemma RaisedGrows(q: Proposal, pairs: set<int>, kind: Kind)
    ensures Grows(q, Raised(Some(q), pairs, Threshold(kind)), pairs, |q.pairs + pairs| >= Needs(kind))
  {
  }

  lemma GrowsMore(p: Proposal, q: Proposal, r: Proposal, given: set<int>, enough: bool, pairs: set<int>, now: bool)
    requires Grows(p, q, given, enough) && Grows(q, r, pairs, now)
    ensures Grows(p, r, given + pairs, enough || now)
  {
    assert p.pairs + given + pairs == p.pairs + (given + pairs);
  }

  lemma RaisedAt(ps: Proposals, key: Key, pairs: set<int>, threshold: nat)
    ensures Before(Upserted(ps, key, pairs, threshold), key) == Raised(Some(Before(ps, key)), pairs, threshold)
  {
  }

  lemma KeyIsAbout(c: Change, key: Key, lex: Lexer)
    ensures KeyOf(c, lex) == key <==> IsAbout(c, key, lex)
  {
  }

  lemma GrowsByChange(p: Proposal, q: Proposal, changes: seq<Change>, key: Key, lex: Lexer)
    requires changes != [] && IsAbout(Last(changes), key, lex)
    requires Grows(p, q, Given(Init(changes), key, lex), Reached(p, Init(changes), key, lex))
    ensures Grows(p, Raised(Some(q), PairsOf(Last(changes).evidence), Threshold(Last(changes).kind)),
                  Given(changes, key, lex), Reached(p, changes, key, lex))
  {
    var c, given, enough := Last(changes), Given(Init(changes), key, lex), Reached(p, Init(changes), key, lex);
    var pairs := PairsOf(c.evidence);
    OneMoreGiven(changes, key, lex);
    OneMoreReached(p, changes, key, lex);
    assert changes[..|changes|] == changes;
    assert ReachedAt(p, changes, key, lex, |changes| - 1) <==> |p.pairs + (given + pairs)| >= Needs(c.kind);
    RaisedGrows(q, pairs, c.kind);
    var r := Raised(Some(q), pairs, Threshold(c.kind));
    GrowsMore(p, q, r, given, enough, pairs, |q.pairs + pairs| >= Needs(c.kind));
    assert p.pairs + given + pairs == p.pairs + (given + pairs);
  }

  lemma NothingMore(p: Proposal, changes: seq<Change>, key: Key, lex: Lexer)
    requires changes != [] && !IsAbout(Last(changes), key, lex)
    ensures Given(changes, key, lex) == Given(Init(changes), key, lex)
    ensures Reached(p, changes, key, lex) == Reached(p, Init(changes), key, lex)
  {
    OneMoreGiven(changes, key, lex);
    OneMoreReached(p, changes, key, lex);
  }

  lemma UpsertedElsewhere(ps: Proposals, key: Key, other: Key, pairs: set<int>, threshold: nat)
    requires key != other
    ensures other in Upserted(ps, key, pairs, threshold) <==> other in ps
    ensures Before(Upserted(ps, key, pairs, threshold), other) == Before(ps, other)
  {
  }

  /** What the changes leave at a key, removals apart. */
  lemma {:induction false} ChangesGather(ps: Proposals, changes: seq<Change>, lex: Lexer, key: Key)
    ensures key in AfterChanges(ps, changes, lex) <==> key in ps || IsAmong(key, changes, lex)
    ensures Grows(Before(ps, key), Before(AfterChanges(ps, changes, lex), key), Given(changes, key, lex),
                  Reached(Before(ps, key), changes, key, lex))
    decreases |changes|
  {
    var p := Before(ps, key);
    if changes == [] {
      assert Given(changes, key, lex) == {};
    } else {
      var c, earlier := Last(changes), AfterChanges(ps, Init(changes), lex);
      assert changes == Init(changes) + [c];
      ChangesGather(ps, Init(changes), lex, key);
      KeyIsAbout(c, key, lex);
      if IsAbout(c, key, lex) {
        RaisedAt(earlier, key, PairsOf(c.evidence), Threshold(c.kind));
        GrowsByChange(p, Before(earlier, key), changes, key, lex);
      } else {
        UpsertedElsewhere(earlier, KeyOf(c, lex), key, PairsOf(c.evidence), Threshold(c.kind));
        NothingMore(p, changes, key, lex);
      }
    }
  }

  // ---- Entries gone against ----

  predicate GoesAgainst(c: Change, entry: int) {
    c.entry == Some(entry) || (c.entry.None? && c.contradicts == Some(entry))
  }

  /** The pairs in which these changes go against the entry. */
  function PairsOn(changes: seq<Change>, entry: int): set<int> {
    set c, e | c in changes && GoesAgainst(c, entry) && e in c.evidence :: e.pair
  }

  lemma PairsOnAre(changes: seq<Change>, entry: int)
    ensures PairsAt(AgainstOf(changes), entry) == PairsOn(changes, entry)
  {
    forall pair
      ensures pair in PairsAt(AgainstOf(changes), entry) <==> pair in PairsOn(changes, entry)
    {
      assert pair in PairsAt(AgainstOf(changes), entry) <==> (entry, pair) in AgainstOf(changes);
      if (entry, pair) in AgainstOf(changes) {
        var c :| c in changes && Against(c) == Some(entry) && pair in PairsOf(c.evidence);
        assert GoesAgainst(c, entry);
      }
    }
  }

  /** Each entry is counted once more for each pair in which a change is to it or contradicts it. */
  lemma CountsPairs(health: map<int, nat>, changes: seq<Change>, entry: int)
    ensures CountOf(Counted(health, AgainstOf(changes)), entry)
         == (if entry in health then health[entry] else 0) + |PairsOn(changes, entry)|
  {
    CountIs(health, AgainstOf(changes), entry);
    PairsOnAre(changes, entry);
  }

  /** The pairs behind proposals for the entry that are not decided. */
  function Behind(ps: Proposals, entry: int): set<int> {
    set key, pair | key in ps && !key.AddKey? && key.entry == entry
                    && (ps[key].status.Watching? || ps[key].status.Shown?) && pair in ps[key].pairs :: pair
  }

  /** The changes go against one of the guide's entries, which has three pairs against it by now. */
  predicate IsDue(changes: seq<Change>, kinds: map<int, Kind>, after: Proposals, entry: int) {
    PairsOn(changes, entry) != {} && entry in kinds && |Behind(after, entry)| >= 3
  }

  lemma BehindIs(ps: Proposals, entry: int)
    ensures PairsAgainst(ps, entry) == Behind(ps, entry)
  {
  }

  lemma InEntries(changes: seq<Change>, entry: int)
    ensures entry in EntriesOf(AgainstOf(changes)) <==> PairsOn(changes, entry) != {}
  {
    PairsOnAre(changes, entry);
    if entry in EntriesOf(AgainstOf(changes)) {
      var x :| x in AgainstOf(changes) && x.0 == entry;
      assert x.1 in PairsAt(AgainstOf(changes), entry);
    } else {
      NoPairs(AgainstOf(changes), entry);
    }
  }

  lemma RemovalsTakeNoPair(ps: Proposals, due: set<int>, kinds: map<int, Kind>, entry: int, pair: int)
    requires due <= kinds.Keys && pair in PairsAgainst(ps, entry)
    ensures pair in PairsAgainst(WithRemovals(ps, due, kinds), entry)
  {
    var key :| key in ps && IsOpen(ps[key]) && EntryOf(key) == Some(entry) && pair in ps[key].pairs;
    RemovalsGrow(ps, due, kinds);
    assert Grew(key, Lookup(ps, key), WithRemovals(ps, due, kinds)[key]);
  }

  lemma RemovalsAddNoPair(ps: Proposals, due: set<int>, kinds: map<int, Kind>, entry: int, pair: int)
    requires due <= kinds.Keys && pair in PairsAgainst(WithRemovals(ps, due, kinds), entry)
    ensures pair in PairsAgainst(ps, entry)
  {
    var qs := WithRemovals(ps, due, kinds);
    var key :| key in qs && IsOpen(qs[key]) && EntryOf(key) == Some(entry) && pair in qs[key].pairs;
    if key == RemoveKey(entry) && entry in due {
      RaisedFrom(Lookup(ps, key), PairsAgainst(ps, entry), Threshold(kinds[entry]));
    }
  }

  lemma RaisedFrom(known: Option<Proposal>, pairs: set<int>, threshold: nat)
    ensures Raised(known, pairs, threshold).pairs <= pairs + if known.Some? then known.value.pairs else {}
    ensures IsOpen(Raised(known, pairs, threshold)) ==> known.None? || IsOpen(known.value)
  {
  }

  /** Proposing removals puts no new pair behind anything. */
  lemma RemovalsMoveNoPair(ps: Proposals, due: set<int>, kinds: map<int, Kind>, entry: int)
    requires due <= kinds.Keys
    ensures PairsAgainst(WithRemovals(ps, due, kinds), entry) == PairsAgainst(ps, entry)
  {
    forall pair
      ensures pair in PairsAgainst(WithRemovals(ps, due, kinds), entry) <==> pair in PairsAgainst(ps, entry)
    {
      if pair in PairsAgainst(ps, entry) {
        RemovalsTakeNoPair(ps, due, kinds, entry, pair);
      } else if pair in PairsAgainst(WithRemovals(ps, due, kinds), entry) {
        RemovalsAddNoPair(ps, due, kinds, entry, pair);
      }
    }
  }

  lemma DueExactly(ps: Proposals, changes: seq<Change>, kinds: map<int, Kind>, lex: Lexer, entry: int)
    ensures var after := AfterChanges(ps, changes, lex);
            && Behind(Merged(ps, changes, kinds, lex), entry) == PairsAgainst(after, entry)
            && (entry in Due(after, EntriesOf(AgainstOf(changes)), kinds)
                <==> IsDue(changes, kinds, Merged(ps, changes, kinds, lex), entry))
  {
    var after := AfterChanges(ps, changes, lex);
    RemovalsMoveNoPair(after, Due(after, EntriesOf(AgainstOf(changes)), kinds), kinds, entry);
    BehindIs(Merged(ps, changes, kinds, lex), entry);
    InEntries(changes, entry);
  }

  lemma RemovalGrows(q: Proposal, pairs: set<int>, kind: Kind)
    requires |pairs| >= 3
    ensures Grows(q, Raised(Some(q), pairs, Threshold(kind)), pairs, true)
  {
    MoreIsMore(pairs, q.pairs + pairs);
  }

  lemma RemovalAt(ps: Proposals, due: set<int>, kinds: map<int, Kind>, entry: int)
    requires due <= kinds.Keys && entry in due
    ensures Before(WithRemovals(ps, due, kinds), RemoveKey(entry))
         == Raised(Some(Before(ps, RemoveKey(entry))), PairsAgainst(ps, entry), Threshold(kinds[entry]))
  {
  }

  /**
   * What a merge leaves of each proposal: a decided one as it was; an open or new one has the
   * pairs it had and those of the changes about it, and is shown if it was or once it has
   * reached its pairs. The removal of an entry that is due also has all pairs against the
   * entry, and is shown.
   */
  lemma MergeGathers(ps: Proposals, changes: seq<Change>, kinds: map<int, Kind>, lex: Lexer, key: Key)
    ensures var q := Merged(ps, changes, kinds, lex);
            var due := key.RemoveKey? && IsDue(changes, kinds, q, key.entry);
            && (key in q <==> key in ps || IsAmong(key, changes, lex) || due)
            && Grows(Before(ps, key), Before(q, key),
                     Given(changes, key, lex) + (if due then Behind(q, key.entry) else {}),
                     Reached(Before(ps, key), changes, key, lex) || due)
  {
    var after, p := AfterChanges(ps, changes, lex), Before(ps, key);
    ChangesGather(ps, changes, lex, key);
    assert Given(changes, key, lex) + {} == Given(changes, key, lex);
    if key.RemoveKey? {
      DueExactly(ps, changes, kinds, lex, key.entry);
      if IsDue(changes, kinds, Merged(ps, changes, kinds, lex), key.entry) {
        var q, pairs, kind := Before(after, key), PairsAgainst(after, key.entry), kinds[key.entry];
        RemovalAt(after, Due(after, EntriesOf(AgainstOf(changes)), kinds), kinds, key.entry);
        RemovalGrows(q, pairs, kind);
        GrowsMore(p, q, Raised(Some(q), pairs, Threshold(kind)), Given(changes, key, lex),
                  Reached(p, changes, key, lex), pairs, true);
      }
    }
  }

  predicate IsLatest(entries: seq<Entry>, id: int, i: nat) {
    i < |entries| && entries[i].id == id && forall j :: i < j < |entries| ==> entries[j].id != id
  }

  /** Of two entries with one id, the later listed gives the kind. */
  lemma {:induction false} KindsAre(entries: seq<Entry>, id: int)
    ensures id in Kinds(entries) <==> exists e :: e in entries && e.id == id
    ensures forall i: nat :: IsLatest(entries, id, i) ==> id in Kinds(entries) && Kinds(entries)[id] == entries[i].kind
    decreases |entries|
  {
    if entries != [] {
      KindsAre(Init(entries), id);
      assert entries == Init(entries) + [Last(entries)];
      assert forall i :: 0 <= i < |entries| - 1 ==> entries[i] == Init(entries)[i];
      forall i: nat | IsLatest(entries, id, i)
        ensures id in Kinds(entries) && Kinds(entries)[id] == entries[i].kind
      {
        if i < |entries| - 1 {
          assert IsLatest(Init(entries), id, i);
          assert entries[|entries| - 1].id != id;
        }
      }
    }
  }
}
