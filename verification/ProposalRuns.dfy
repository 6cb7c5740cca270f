// Merges, the user's decisions on proposals, pairs left out, and undoing and redoing those
// (`AnalysisStep` and `replay_change` of crates/kaluta-core/src/guide.rs, `drop_pair`,
// `restore_pair` and `restore_proposals` of crates/mail-store/src/analysis.rs).
module ProposalRuns {
  import opened Prelude
  import opened Text
  import opened Compare
  import opened Proposals

  /**
   * What a change recorded for undo and redo: proposals before and after a decision, or what
   * leaving a pair out removed.
   */
  datatype Recorded =
    | Decision(before: Proposals, after: Proposals)
    | Ignored(pair: int, removed: set<Key>)

  datatype Desk = Desk(proposals: Proposals, changes: seq<Recorded>)

  datatype Event =
    | Merging(changes: seq<Change>, kinds: map<int, Kind>)
    | Deciding(keys: set<Key>, accept: bool)
    | AcceptingEdited(key: Key)
    | Ignoring(pair: int)
    | Undoing(change: nat)
    | Redoing(change: nat)

  /** Of these, the open ones: only they are decided. */
  function OpenOf(ps: Proposals, keys: set<Key>): set<Key> {
    set key | key in keys && key in ps && IsOpen(ps[key])
  }

  function Snapshot(ps: Proposals, keys: set<Key>): Proposals {
    map key | key in keys && key in ps :: ps[key]
  }

  function WithStatus(ps: Proposals, keys: set<Key>, status: Status): Proposals {
    map key | key in ps :: if key in keys then ps[key].(status := status) else ps[key]
  }

  function Decided(d: Desk, keys: set<Key>, status: Status): Desk {
    if keys == {} then d
    else
      var after := WithStatus(d.proposals, keys, status);
      Desk(after, d.changes + [Decision(Snapshot(d.proposals, keys), Snapshot(after, keys))])
  }

  predicate Carries(p: Proposal, pair: int) {
    IsOpen(p) && pair in p.pairs
  }

  /** The pair is taken out of every open proposal; one with nothing left behind it is watched again. */
  function Dropped(ps: Proposals, pair: int): Proposals {
    map key | key in ps ::
      if Carries(ps[key], pair) then
        var left := ps[key].pairs - {pair};
        ps[key].(pairs := left, status := if left == {} then Watching else ps[key].status)
      else ps[key]
  }

  function Carrying(ps: Proposals, pair: int): set<Key> {
    set key | key in ps && Carries(ps[key], pair)
  }

  /** The pair is put back where it was taken out; a proposal shown before shows again. */
  function PutBack(ps: Proposals, pair: int, removed: set<Key>): Proposals {
    map key | key in ps ::
      if key in removed then
        ps[key].(pairs := ps[key].pairs + {pair},
                 status := if ps[key].status.Watching? && ps[key].shown then Shown else ps[key].status)
      else ps[key]
  }

  function Replayed(ps: Proposals, change: Recorded, undo: bool): Proposals {
    match change
    case Decision(before, after) => ps + (if undo then before else after)
    case Ignored(pair, removed) => if undo then PutBack(ps, pair, removed) else Dropped(ps, pair)
  }

  function After(d: Desk, e: Event, lex: Lexer): Desk {
    match e
    case Merging(changes, kinds) => d.(proposals := Merged(d.proposals, changes, kinds, lex))
    case Deciding(keys, accept) => Decided(d, OpenOf(d.proposals, keys), if accept then Accepted else Rejected)
    case AcceptingEdited(key) => Decided(d, {key} * d.proposals.Keys, Accepted)
    case Ignoring(pair) =>
      Desk(Dropped(d.proposals, pair), d.changes + [Ignored(pair, Carrying(d.proposals, pair))])
    case Undoing(i) => if i < |d.changes| then d.(proposals := Replayed(d.proposals, d.changes[i], true)) else d
    case Redoing(i) => if i < |d.changes| then d.(proposals := Replayed(d.proposals, d.changes[i], false)) else d
  }

  class Queue {
    var proposals: Proposals
    var changes: seq<Recorded>

    function View(): Desk
      reads this
    {
      Desk(proposals, changes)
    }

    constructor (d: Desk)
      ensures View() == d
    {
      proposals, changes := d.proposals, d.changes;
    }

    /** `drop_pair`: proposal by proposal; gives back where the pair was. */
    method DropPair(pair: int) returns (removed: set<Key>)
      modifies this`proposals
      ensures proposals == Dropped(old(proposals), pair)
      ensures removed == Carrying(old(proposals), pair)
    {
      ghost var before := proposals;
      removed := Carrying(proposals, pair);
      var rest := removed;
      while rest != {}
        invariant rest <= removed && proposals.Keys == before.Keys
        invariant forall key :: key in before ==>
          proposals[key] == if key in removed - rest then Dropped(before, pair)[key] else before[key]
        decreases |rest|
      {
        var key := Pick(rest);
        var p := proposals[key];
        p := p.(pairs := p.pairs - {pair});
        if p.pairs == {} {
          p := p.(status := Watching);
        }
        proposals := proposals[key := p];
        rest := rest - {key};
      }
      forall key | key in before
        ensures proposals[key] == Dropped(before, pair)[key]
      {
        assert key in removed <==> Carries(before[key], pair);
      }
    }

    /** "Ignore Edits to This Message", recorded for undo. */
    method IgnorePair(pair: int, lex: Lexer)
      modifies this
      ensures View() == After(old(View()), Ignoring(pair), lex)
    {
      var removed := DropPair(pair);
      changes := changes + [Ignored(pair, removed)];
    }

    /** Accepts or rejects the open ones of these proposals. */
    method Decide(keys: set<Key>, accept: bool, lex: Lexer)
      modifies this
      ensures View() == After(old(View()), Deciding(keys, accept), lex)
    {
      var targets := OpenOf(proposals, keys);
      if targets == {} {
        return;
      }
      var before := Snapshot(proposals, targets);
      proposals := WithStatus(proposals, targets, if accept then Accepted else Rejected);
      changes := changes + [Decision(before, Snapshot(proposals, targets))];
    }

    /** Undo and redo of a recorded change. */
    method Replay(change: nat, undo: bool, lex: Lexer)
      modifies this
      ensures View() == After(old(View()), if undo then Undoing(change) else Redoing(change), lex)
    {
      if change >= |changes| {
        return;
      }
      match changes[change]
      case Decision(before, after) => proposals := proposals + (if undo then before else after);
      case Ignored(pair, removed) =>
        if undo {
          proposals := PutBack(proposals, pair, removed);
        } else {
          var _ := DropPair(pair);
        }
    }
  }

  // ---- What shows has its pairs: exactly when not ----

  /** Leaving the pair out leaves a proposal shown with too few. */
  predicate LeavesTooFew(ps: Proposals, pair: int) {
    exists key :: key in ps && ps[key].status.Shown? && pair in ps[key].pairs
               && 0 < |ps[key].pairs - {pair}| < Needed(key)
  }

  /** Putting the pair back shows again a proposal that has lost others since. */
  predicate ShowsTooFew(ps: Proposals, pair: int, removed: set<Key>) {
    exists key :: key in ps && key in removed && ps[key].status.Watching? && ps[key].shown
               && |ps[key].pairs + {pair}| < Needed(key)
  }

  /** The step leaves, shows again or puts back a proposal shown with too few pairs. */
  predicate Unbacks(d: Desk, e: Event) {
    match e
    case Ignoring(pair) => LeavesTooFew(d.proposals, pair)
    case Undoing(i) =>
      i < |d.changes| &&
      (match d.changes[i]
       case Decision(before, _) => !Inv(before)
       case Ignored(pair, removed) => ShowsTooFew(d.proposals, pair, removed))
    case Redoing(i) =>
      i < |d.changes| &&
      (match d.changes[i]
       case Decision(_, after) => !Inv(after)
       case Ignored(pair, _) => LeavesTooFew(d.proposals, pair))
    case _ => false
  }

  lemma DroppedExactly(ps: Proposals, pair: int)
    requires Inv(ps)
    ensures Inv(Dropped(ps, pair)) <==> !LeavesTooFew(ps, pair)
  {
    var after := Dropped(ps, pair);
    forall key | key in ps
      ensures IsBacked(key, after[key])
        <==> !(ps[key].status.Shown? && pair in ps[key].pairs && 0 < |ps[key].pairs - {pair}| < Needed(key))
    {
      assert IsBacked(key, ps[key]);
    }
  }

  lemma PutBackExactly(ps: Proposals, pair: int, removed: set<Key>)
    requires Inv(ps)
    ensures Inv(PutBack(ps, pair, removed)) <==> !ShowsTooFew(ps, pair, removed)
  {
    var after := PutBack(ps, pair, removed);
    forall key | key in ps
      ensures IsBacked(key, after[key])
        <==> !(key in removed && ps[key].status.Watching? && ps[key].shown && |ps[key].pairs + {pair}| < Needed(key))
    {
      assert IsBacked(key, ps[key]);
      MoreIsMore(ps[key].pairs, ps[key].pairs + {pair});
    }
  }

  lemma RestoredExactly(ps: Proposals, snapshot: Proposals)
    requires Inv(ps)
    ensures Inv(ps + snapshot) <==> Inv(snapshot)
  {
    var after := ps + snapshot;
    if Inv(after) {
      forall key | key in snapshot
        ensures IsBacked(key, snapshot[key])
      {
        assert key in after && after[key] == snapshot[key];
      }
    }
  }

  lemma WithStatusKeepsInv(ps: Proposals, keys: set<Key>, status: Status)
    requires Inv(ps) && !status.Shown?
    ensures Inv(WithStatus(ps, keys, status))
  {
    forall key | key in ps
      ensures IsBacked(key, WithStatus(ps, keys, status)[key])
    {
      assert IsBacked(key, ps[key]);
    }
  }

  /** A step from a store in which what shows has its pairs leaves one exactly if it does not unback a proposal. */
  lemma StepKeepsInvExactly(d: Desk, e: Event, lex: Lexer)
    requires Inv(d.proposals)
    ensures Inv(After(d, e, lex).proposals) <==> !Unbacks(d, e)
  {
    match e {
      case Merging(changes, kinds) => MergeKeeps(d.proposals, changes, kinds, lex);
      case Deciding(keys, accept) =>
        WithStatusKeepsInv(d.proposals, OpenOf(d.proposals, keys), if accept then Accepted else Rejected);
      case AcceptingEdited(key) => WithStatusKeepsInv(d.proposals, {key} * d.proposals.Keys, Accepted);
      case Ignoring(pair) => DroppedExactly(d.proposals, pair);
      case Undoing(i) => if i < |d.changes| { ReplayedExactly(d, i, true); }
      case Redoing(i) => if i < |d.changes| { ReplayedExactly(d, i, false); }
    }
  }

  lemma ReplayedExactly(d: Desk, i: nat, undo: bool)
    requires Inv(d.proposals) && i < |d.changes|
    ensures Inv(Replayed(d.proposals, d.changes[i], undo)) <==> !Unbacks(d, if undo then Undoing(i) else Redoing(i))
  {
    match d.changes[i]
    case Decision(before, after) => RestoredExactly(d.proposals, if undo then before else after);
    case Ignored(pair, removed) =>
      if undo {
        PutBackExactly(d.proposals, pair, removed);
      } else {
        DroppedExactly(d.proposals, pair);
      }
  }

  // ---- Runs ----

  function Run(d: Desk, events: seq<Event>, lex: Lexer): Desk
    decreases |events|
  {
    if events == [] then d else Run(After(d, events[0], lex), events[1..], lex)
  }

  predicate InvThroughout(d: Desk, events: seq<Event>, lex: Lexer)
    decreases |events|
  {
    Inv(d.proposals) && (events == [] || InvThroughout(After(d, events[0], lex), events[1..], lex))
  }

  predicate NeverUnbacks(d: Desk, events: seq<Event>, lex: Lexer)
    decreases |events|
  {
    events == [] || (!Unbacks(d, events[0]) && NeverUnbacks(After(d, events[0], lex), events[1..], lex))
  }

  /** Over any run, what shows has its pairs all along exactly if no step unbacks a proposal. */
  lemma {:induction false} RunKeepsInvExactly(d: Desk, events: seq<Event>, lex: Lexer)
    requires Inv(d.proposals)
    ensures InvThroughout(d, events, lex) <==> NeverUnbacks(d, events, lex)
    decreases |events|
  {
    if events != [] {
      StepKeepsInvExactly(d, events[0], lex);
      if Inv(After(d, events[0], lex).proposals) {
        RunKeepsInvExactly(After(d, events[0], lex), events[1..], lex);
      }
    }
  }

  /** Nothing recorded leaves out a pair, and what is recorded of decisions has its pairs. */
  predicate DecisionsOnly(d: Desk) {
    forall c :: c in d.changes ==> c.Decision? && Inv(c.before) && Inv(c.after)
  }

  /** As long as nobody leaves a pair out, what shows has its pairs, whatever is merged, decided, undone and redone. */
  lemma {:induction false} WithoutIgnoringAllIsBacked(d: Desk, events: seq<Event>, lex: Lexer)
    requires Inv(d.proposals) && DecisionsOnly(d) && forall e :: e in events ==> !e.Ignoring?
    ensures Inv(Run(d, events, lex).proposals) && DecisionsOnly(Run(d, events, lex))
    decreases |events|
  {
    if events != [] {
      var e := events[0];
      assert e in events && forall x :: x in events[1..] ==> x in events;
      DecisionsUnbackNothing(d, e);
      StepKeepsInvExactly(d, e, lex);
      RecordsAreBacked(d, e, lex);
      WithoutIgnoringAllIsBacked(After(d, e, lex), events[1..], lex);
    }
  }

  lemma DecisionsUnbackNothing(d: Desk, e: Event)
    requires DecisionsOnly(d) && !e.Ignoring?
    ensures !Unbacks(d, e)
  {
    assert forall i :: 0 <= i < |d.changes| ==> d.changes[i] in d.changes;
  }

  lemma RecordsAreBacked(d: Desk, e: Event, lex: Lexer)
    requires Inv(d.proposals) && DecisionsOnly(d) && !e.Ignoring?
    ensures DecisionsOnly(After(d, e, lex))
  {
    if e.Deciding? {
      RecordIsBacked(d, OpenOf(d.proposals, e.keys), if e.accept then Accepted else Rejected);
    } else if e.AcceptingEdited? {
      RecordIsBacked(d, {e.key} * d.proposals.Keys, Accepted);
    }
  }

  lemma RecordIsBacked(d: Desk, keys: set<Key>, status: Status)
    requires Inv(d.proposals) && DecisionsOnly(d) && !status.Shown?
    ensures DecisionsOnly(Decided(d, keys, status))
  {
    WithStatusKeepsInv(d.proposals, keys, status);
    assert Inv(Snapshot(d.proposals, keys));
    assert Inv(Snapshot(WithStatus(d.proposals, keys, status), keys));
  }

  // ---- What holds over all runs ----

  /** What shows has a pair behind it, and is known to have been shown. */
  predicate IsSupported(p: Proposal) {
    p.status.Shown? ==> p.pairs != {} && p.shown
  }

  predicate AllSupported(ps: Proposals) {
    forall key :: key in ps ==> IsSupported(ps[key])
  }

  predicate Supported(d: Desk) {
    && AllSupported(d.proposals)
    && forall c :: c in d.changes && c.Decision? ==> AllSupported(c.before) && AllSupported(c.after)
  }

  lemma GrewKeepsSupport(ps: Proposals, qs: Proposals)
    requires AllGrew(ps, qs) && AllSupported(ps)
    ensures AllSupported(qs)
  {
    forall key | key in qs
      ensures IsSupported(qs[key])
    {
      assert Grew(key, Lookup(ps, key), qs[key]);
      if key in ps {
        assert IsSupported(ps[key]);
      }
    }
  }

  lemma StepKeepsSupport(d: Desk, e: Event, lex: Lexer)
    requires Supported(d)
    ensures AllSupported(After(d, e, lex).proposals)
  {
    if e.Merging? {
      MergeKeeps(d.proposals, e.changes, e.kinds, lex);
      GrewKeepsSupport(d.proposals, Merged(d.proposals, e.changes, e.kinds, lex));
    } else {
      assert forall i :: 0 <= i < |d.changes| ==> d.changes[i] in d.changes;
    }
  }

  lemma StepKeepsRecords(d: Desk, e: Event, lex: Lexer)
    requires Supported(d)
    ensures Supported(After(d, e, lex))
  {
    StepKeepsSupport(d, e, lex);
  }

  /** Over every run, whatever is left out, undone and redone: a proposal shown has a pair behind it. */
  lemma {:induction false} EveryRunSupports(d: Desk, events: seq<Event>, lex: Lexer)
    requires Supported(d)
    ensures Supported(Run(d, events, lex))
    decreases |events|
  {
    if events != [] {
      StepKeepsRecords(d, events[0], lex);
      EveryRunSupports(After(d, events[0], lex), events[1..], lex);
    }
  }

  // ---- What is decided stays decided: exactly when not ----

  predicate IsDecided(d: Desk, key: Key, status: Status) {
    key in d.proposals && d.proposals[key].status == status && !IsOpen(d.proposals[key])
  }

  /** The step accepts a rejected proposal as edited, or puts back another status it had. */
  predicate Reverses(d: Desk, e: Event, key: Key)
    requires key in d.proposals
  {
    var status := d.proposals[key].status;
    match e
    case AcceptingEdited(k) => k == key && !status.Accepted?
    case Undoing(i) =>
      i < |d.changes| && d.changes[i].Decision? && key in d.changes[i].before
          && d.changes[i].before[key].status != status
    case Redoing(i) =>
      i < |d.changes| && d.changes[i].Decision? && key in d.changes[i].after && d.changes[i].after[key].status != status
    case _ => false
  }

  /** A decided proposal keeps its decision in a step exactly if the step does not reverse it. */
  lemma StepKeepsDecisionExactly(d: Desk, e: Event, lex: Lexer, key: Key, status: Status)
    requires IsDecided(d, key, status)
    ensures key in After(d, e, lex).proposals
    ensures After(d, e, lex).proposals[key].status == status <==> !Reverses(d, e, key)
  {
    if e.Merging? {
      MergeKeeps(d.proposals, e.changes, e.kinds, lex);
      var merged := Merged(d.proposals, e.changes, e.kinds, lex);
      assert key in merged && Grew(key, Lookup(d.proposals, key), merged[key]);
    }
  }

  predicate DecidedThroughout(d: Desk, events: seq<Event>, lex: Lexer, key: Key, status: Status)
    decreases |events|
  {
    IsDecided(d, key, status) && (events
        == [] || DecidedThroughout(After(d, events[0], lex), events[1..], lex, key, status))
  }

  predicate NeverReverses(d: Desk, events: seq<Event>, lex: Lexer, key: Key)
    decreases |events|
  {
    events == [] ||
    (key in d.proposals && !Reverses(d, events[0], key)
        && NeverReverses(After(d, events[0], lex), events[1..], lex, key))
  }

  /** Over any run, a decision stays all along exactly if no step reverses it: merging never does. */
  lemma {:induction false} RunKeepsDecisionExactly(d: Desk, events: seq<Event>, lex: Lexer, key: Key, status: Status)
    requires IsDecided(d, key, status)
    ensures DecidedThroughout(d, events, lex, key, status) <==> NeverReverses(d, events, lex, key)
    decreases |events|
  {
    if events != [] {
      var after := After(d, events[0], lex);
      StepKeepsDecisionExactly(d, events[0], lex, key, status);
      if IsDecided(after, key, status) {
        RunKeepsDecisionExactly(after, events[1..], lex, key, status);
      }
    }
  }

  // ---- One at each failing input ----

  /** Shown with two pairs and one of them left out, a proposal stays shown with one. */
  lemma ShownWithOne(key: Key, p: int, q: int, lex: Lexer)
    requires p != q
    ensures var d := Desk(map[key := Proposal(Shown, {p, q}, true)], []);
            var after := After(d, Ignoring(p), lex).proposals;
            after == map[key := Proposal(Shown, {q}, true)] && !Inv(after)
  {
    var d := Desk(map[key := Proposal(Shown, {p, q}, true)], []);
    var after := After(d, Ignoring(p), lex).proposals;
    assert {p, q} - {p} == {q} && |{q}| == 1;
    assert after.Keys == {key} && after[key] == Proposal(Shown, {q}, true);
  }

  /** Undoing a rejection opens the proposal again. */
  lemma UndoneIsOpenAgain(key: Key, p: Proposal, lex: Lexer)
    requires IsOpen(p)
    ensures var d := Desk(map[key := p], []);
            var rejected := After(d, Deciding({key}, false), lex);
            IsDecided(rejected, key, Rejected) && After(rejected, Undoing(0), lex).proposals == d.proposals
  {
    assert OpenOf(map[key := p], {key}) == {key};
  }
}
