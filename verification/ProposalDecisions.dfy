// What deciding, leaving a pair out, undoing and redoing do to each proposal.
module ProposalDecisions {
  import opened Prelude
  import opened Text
  import opened Proposals
  import opened ProposalRuns

  /** The step decides this proposal: an open one of those named, or the one accepted as edited. */
  predicate Decides(d: Desk, e: Event, key: Key) {
    && key in d.proposals
    && match e
       case Deciding(keys, _) => key in keys && (d.proposals[key].status.Watching? || d.proposals[key].status.Shown?)
       case AcceptingEdited(k) => key == k
       case _ => false
  }

  /** Those decided are accepted or rejected, with their pairs; nothing else changes. */
  lemma DecidedAsAsked(d: Desk, e: Event, lex: Lexer)
    requires e.Deciding? || e.AcceptingEdited?
    ensures After(d, e, lex).proposals.Keys == d.proposals.Keys
    ensures forall key :: key in d.proposals ==>
      After(d, e, lex).proposals[key]
      == if Decides(d, e, key)
         then d.proposals[key].(status := if e.Deciding? && !e.accept then Rejected else Accepted)
         else d.proposals[key]
  {
    if e.Deciding? {
      assert forall key :: key in OpenOf(d.proposals, e.keys) <==> Decides(d, e, key);
    }
  }

  /** A pair left out goes from the open proposals; one left with none is watched. Nothing else changes. */
  lemma IgnoredGoes(d: Desk, pair: int, lex: Lexer)
    ensures After(d, Ignoring(pair), lex).proposals.Keys == d.proposals.Keys
    ensures forall key :: key in d.proposals ==>
      var p, q := d.proposals[key], After(d, Ignoring(pair), lex).proposals[key];
      if p.status.Watching? || (p.status.Shown? && p.pairs != {pair}) then q == p.(pairs := p.pairs - {pair})
      else if p.status.Shown? then q == Proposal(Watching, {}, p.shown)
      else q == p
  {
    forall key | key in d.proposals && pair in d.proposals[key].pairs
      ensures d.proposals[key].pairs - {pair} == {} <==> d.proposals[key].pairs == {pair}
    {
      var pairs := d.proposals[key].pairs;
      assert pairs == pairs - {pair} + {pair};
    }
    forall key | key in d.proposals && pair !in d.proposals[key].pairs
      ensures d.proposals[key].pairs - {pair} == d.proposals[key].pairs
    {
    }
  }

  // ---- Undo and redo ----

  lemma {:induction false} RecordsStay(d: Desk, events: seq<Event>, lex: Lexer)
    ensures d.changes <= Run(d, events, lex).changes
    decreases |events|
  {
    if events != [] {
      RecordsStay(After(d, events[0], lex), events[1..], lex);
    }
  }

  lemma DecisionIsRecorded(d: Desk, e: Event, key: Key, lex: Lexer)
    requires (e.Deciding? || e.AcceptingEdited?) && Decides(d, e, key)
    ensures var d1 := After(d, e, lex);
            && |d1.changes| == |d.changes| + 1 && Last(d1.changes).Decision?
            && IsSnapshot(Last(d1.changes).before, d, e, d.proposals)
            && IsSnapshot(Last(d1.changes).after, d, e, d1.proposals)
  {
    DecidedAsAsked(d, e, lex);
    if e.Deciding? {
      assert forall k :: k in OpenOf(d.proposals, e.keys) <==> Decides(d, e, k);
    } else {
      assert key in {e.key} * d.proposals.Keys;
    }
  }

  /** These are the decided proposals, as they are in `ps`. */
  ghost predicate IsSnapshot(snapshot: Proposals, d: Desk, e: Event, ps: Proposals) {
    && (forall k :: k in snapshot <==> Decides(d, e, k))
    && forall k :: k in snapshot ==> k in ps && snapshot[k] == ps[k]
  }

  /** The decided proposals are as `these` have them, and the rest as they are in `those`. */
  ghost predicate Replaced(now: Proposals, d: Desk, e: Event, these: Proposals, those: Proposals) {
    forall k ::
      if Decides(d, e, k) then k in these && k in now && now[k] == these[k]
      else (k in now <==> k in those) && (k in those ==> now[k] == those[k])
  }

  lemma ReplayIs(d: Desk, i: nat, before: Proposals, after: Proposals, lex: Lexer)
    requires i < |d.changes| && d.changes[i] == Decision(before, after)
    ensures After(d, Undoing(i), lex).proposals == d.proposals + before
    ensures After(d, Redoing(i), lex).proposals == d.proposals + after
  {
  }

  lemma StillRecorded(decided: Desk, since: seq<Event>, n: nat, lex: Lexer)
    requires |decided.changes| == n + 1
    ensures n < |Run(decided, since, lex).changes| && Run(decided, since, lex).changes[n] == Last(decided.changes)
  {
    RecordsStay(decided, since, lex);
  }

  /**
   * Whatever happened since, undoing a decision puts the proposals it decided back as they
   * were before it, redoing it makes them what it made them, and neither touches the rest.
   */
  lemma UndoPutsBack(d: Desk, e: Event, key: Key, since: seq<Event>, lex: Lexer)
    requires (e.Deciding? || e.AcceptingEdited?) && Decides(d, e, key)
    ensures var decided := After(d, e, lex);
            var now := Run(decided, since, lex);
            && Replaced(After(now, Undoing(|d.changes|), lex).proposals, d, e, d.proposals, now.proposals)
            && Replaced(After(now, Redoing(|d.changes|), lex).proposals, d, e, decided.proposals, now.proposals)
  {
    var decided := After(d, e, lex);
    var now := Run(decided, since, lex);
    DecisionIsRecorded(d, e, key, lex);
    StillRecorded(decided, since, |d.changes|, lex);
    var record := Last(decided.changes);
    ReplayIs(now, |d.changes|, record.before, record.after, lex);
    SnapshotReplaces(record.before, d, e, d.proposals, now.proposals);
    SnapshotReplaces(record.after, d, e, decided.proposals, now.proposals);
  }

  lemma SnapshotReplaces(snapshot: Proposals, d: Desk, e: Event, these: Proposals, those: Proposals)
    requires IsSnapshot(snapshot, d, e, these)
    ensures Replaced(those + snapshot, d, e, these, those)
  {
    forall k
      ensures if Decides(d, e, k) then k in these && k in those + snapshot && (those + snapshot)[k] == these[k]
              else (k in those + snapshot <==> k in those) && (k in those ==> (those + snapshot)[k] == those[k])
    {
      assert k in snapshot <==> Decides(d, e, k);
    }
  }

  /** Undoing "leave this pair out" shows a proposal that was watched, or leaves watched one that was shown. */
  predicate ComesBackOtherwise(p: Proposal, pair: int) {
    pair in p.pairs && ((p.status.Watching? && p.shown) || (p.status.Shown? && p.pairs == {pair} && !p.shown))
  }

  /**
   * Undone at once, leaving a pair out changes nothing, exactly unless a watched proposal with
   * the pair had been shown some time before, or a shown one with no other pair had not.
   */
  lemma UndoneIgnoringExactly(d: Desk, pair: int, lex: Lexer)
    ensures After(After(d, Ignoring(pair), lex), Undoing(|d.changes|), lex).proposals == d.proposals
        <==> forall key :: key in d.proposals ==> !ComesBackOtherwise(d.proposals[key], pair)
  {
    var without := After(d, Ignoring(pair), lex);
    var back := After(without, Undoing(|d.changes|), lex).proposals;
    assert without.changes[|d.changes|] == Ignored(pair, Carrying(d.proposals, pair));
    assert back.Keys == d.proposals.Keys;
    forall key | key in d.proposals
      ensures back[key] == d.proposals[key] <==> !ComesBackOtherwise(d.proposals[key], pair)
    {
      var p := d.proposals[key];
      if pair in p.pairs {
        assert p.pairs == p.pairs - {pair} + {pair};
        assert p.pairs - {pair} == {} <==> p.pairs == {pair};
      }
    }
  }

  /** Redone at once after it was undone, leaving a pair out has the pair out again. */
  lemma RedoneIgnoring(d: Desk, pair: int, lex: Lexer, key: Key)
    requires key in d.proposals
    ensures var without := After(d, Ignoring(pair), lex);
            var again := After(After(without, Undoing(|d.changes|), lex), Redoing(|d.changes|), lex).proposals;
            && again.Keys == without.proposals.Keys
            && again[key].pairs == without.proposals[key].pairs
            && (again[key] == without.proposals[key]
                <==> !(d.proposals[key].status.Watching? && d.proposals[key].shown
                       && pair in d.proposals[key].pairs && d.proposals[key].pairs != {pair}))
  {
    var without := After(d, Ignoring(pair), lex);
    assert without.changes[|d.changes|] == Ignored(pair, Carrying(d.proposals, pair));
    var p := d.proposals[key];
    if pair in p.pairs {
      assert p.pairs == p.pairs - {pair} + {pair};
      assert p.pairs - {pair} == {} <==> p.pairs == {pair};
      assert p.pairs - {pair} + {pair} - {pair} == p.pairs - {pair};
    }
  }
}
