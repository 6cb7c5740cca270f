// The order-free description of a matching, and that the two loops meet it.
module MatchingStable {
  import opened Prelude
  import opened Matching
  import opened MatchingLaws

  /** The messages `r` may not be guessed to be: used before, matched exactly, or matched to a newer draft. */
  function Taken(r: Draft, drafts: set<Draft>, used: set<string>, mail: Mail, m: map<int, Outcome>): set<string> {
    used + set q | q in drafts && Precedes(q, r, used, mail) && q.id in m && m[q.id].Matched? :: m[q.id].messageId
  }

  predicate Precedes(q: Draft, r: Draft, used: set<string>, mail: Mail) {
    ExactHit(q, used, mail).Some? || Newer(q, r)
  }

  predicate Maps(m: map<int, Outcome>, id: int, o: Outcome) {
    id in m && m[id] == o
  }

  /** `m` gives `r` its exact match; else its best candidate not taken; else nothing, or `Unmatched` once it is old. */
  predicate Settled(r: Draft, drafts: set<Draft>, used: set<string>, mail: Mail, m: map<int, Outcome>) {
    match ExactHit(r, used, mail)
    case Some(s) => Maps(m, r.id, MatchTo(r, s, SentDraft, mail))
    case None => Follows(r, Choice(Candidates(r, mail), r, Taken(r, drafts, used, mail, m), mail), mail, m)
  }

  predicate Follows(r: Draft, choice: Option<(Sent, Method)>, mail: Mail, m: map<int, Outcome>)
    requires choice.Some? ==> mail.text(choice.value.0.messageId).Some?
  {
    match choice
    case Some(c) => Maps(m, r.id, MatchTo(r, c.0, c.1, mail))
    case None => if Expired(r, mail) then Maps(m, r.id, Unmatched) else r.id !in m
  }

  ghost predicate Stable(drafts: set<Draft>, used: set<string>, mail: Mail, m: map<int, Outcome>) {
    && m.Keys <= (set r | r in drafts :: r.id)
    && forall r :: r in drafts ==> Settled(r, drafts, used, mail, m)
  }

  // ---- There is only one ----

  function NewerThan(r: Draft, drafts: set<Draft>): set<Draft> {
    set q | q in drafts && Newer(q, r)
  }

  lemma NewerShrinks(q: Draft, r: Draft, drafts: set<Draft>)
    requires q in drafts && Newer(q, r)
    ensures NewerThan(q, drafts) < NewerThan(r, drafts)
  {
    assert q in NewerThan(r, drafts) && q !in NewerThan(q, drafts);
  }

  predicate AgreeOn(id: int, m1: map<int, Outcome>, m2: map<int, Outcome>) {
    (id in m1 <==> id in m2) && (id in m1 ==> m1[id] == m2[id])
  }

  lemma SameTaken(r: Draft, drafts: set<Draft>, used: set<string>, mail: Mail, m1: map<int, Outcome>, m2: map<int,
      Outcome>)
    requires forall q :: q in drafts && Precedes(q, r, used, mail) ==> AgreeOn(q.id, m1, m2)
    ensures Taken(r, drafts, used, mail, m1) == Taken(r, drafts, used, mail, m2)
  {
  }

  lemma {:induction false} Agree(r: Draft, drafts: set<Draft>, used: set<string>, mail: Mail,
                                 m1: map<int, Outcome>, m2: map<int, Outcome>)
    requires Stable(drafts, used, mail, m1) && Stable(drafts, used, mail, m2) && r in drafts
    ensures AgreeOn(r.id, m1, m2)
    decreases NewerThan(r, drafts)
  {
    if ExactHit(r, used, mail).Some? {
      assert Settled(r, drafts, used, mail, m1) && Settled(r, drafts, used, mail, m2);
    } else {
      forall q | q in drafts && Precedes(q, r, used, mail)
        ensures AgreeOn(q.id, m1, m2)
      {
        if ExactHit(q, used, mail).Some? {
          assert Settled(q, drafts, used, mail, m1) && Settled(q, drafts, used, mail, m2);
        } else {
          NewerShrinks(q, r, drafts);
          Agree(q, drafts, used, mail, m1, m2);
        }
      }
      SameTaken(r, drafts, used, mail, m1, m2);
      assert Settled(r, drafts, used, mail, m1) && Settled(r, drafts, used, mail, m2);
    }
  }

  lemma StableIsUnique(drafts: set<Draft>, used: set<string>, mail: Mail, m1: map<int, Outcome>, m2: map<int, Outcome>)
    requires Stable(drafts, used, mail, m1) && Stable(drafts, used, mail, m2)
    ensures m1 == m2
  {
    forall r | r in drafts
      ensures AgreeOn(r.id, m1, m2)
    {
      Agree(r, drafts, used, mail, m1, m2);
    }
    assert m1.Keys == m2.Keys;
  }

  /**
   * A stable matching has no blocking pair: a close enough candidate passed over was taken,
   * or `r` got a candidate at least as good.
   */
  lemma StableHasNoBlockingPair(r: Draft, k: nat, drafts: set<Draft>, used: set<string>, mail: Mail, m: map<int,
      Outcome>)
    requires Stable(drafts, used, mail, m) && r in drafts && ExactHit(r, used, mail).None?
    requires k < |Candidates(r, mail)| && CloseEnough(r, Candidates(r, mail)[k].0, mail)
    ensures var candidates := Candidates(r, mail);
            || candidates[k].0.messageId in used
            || (exists q :: q in drafts && Precedes(q, r, used, mail) && q.id in m && m[q.id].Matched?
                            && m[q.id].messageId == candidates[k].0.messageId)
            || (exists j :: 0 <= j <= k && mail.text(candidates[j].0.messageId).Some?
                            && Maps(m, r.id, MatchTo(r, candidates[j].0, candidates[j].1, mail)))
  {
    var candidates, taken := Candidates(r, mail), Taken(r, drafts, used, mail, m);
    assert Settled(r, drafts, used, mail, m);
    if candidates[k].0.messageId !in taken {
      var j := ChoiceIsFirst(candidates, k, r, taken, mail);
    }
  }

  lemma {:induction false} ChoiceIsFirst(candidates: seq<(Sent, Method)>, k: nat, r: Draft, taken: set<string>,
      mail: Mail)
    returns (j: nat)
    requires k < |candidates| && candidates[k].0.messageId !in taken && CloseEnough(r, candidates[k].0, mail)
    ensures j <= k && Choice(candidates, r, taken, mail) == Some(candidates[j])
    decreases |candidates|
  {
    if candidates[0].0.messageId !in taken && CloseEnough(r, candidates[0].0, mail) {
      j := 0;
    } else {
      j := ChoiceIsFirst(candidates[1..], k - 1, r, taken, mail);
      j := j + 1;
    }
  }

  // ---- The loops compute it ----

  /** The results by draft id; a later result for one id replaces an earlier one. */
  function OutcomeMap(out: seq<(int, Outcome)>): map<int, Outcome> {
    if out == [] then map[] else OutcomeMap(Init(out))[Last(out).0 := Last(out).1]
  }

  predicate DistinctResults(out: seq<(int, Outcome)>) {
    forall i, j :: 0 <= i < j < |out| ==> out[i].0 != out[j].0
  }

  lemma {:induction false} MapHolds(out: seq<(int, Outcome)>)
    requires DistinctResults(out)
    ensures OutcomeMap(out).Keys == Ids(out)
    ensures forall id, o :: (id, o) in out <==> Maps(OutcomeMap(out), id, o)
    decreases |out|
  {
    if out != [] {
      MapHolds(Init(out));
      assert out == Init(out) + [(Last(out).0, Last(out).1)];
      IdsWith(Init(out), Last(out).0, Last(out).1);
      assert forall x :: x in out <==> x in Init(out) || x == Last(out);
    }
  }

  /** Two drafts name, by their own Message-IDs, one message that is readable and not in use. */
  predicate Clash(q: Draft, r: Draft, used: set<string>, mail: Mail) {
    && q.id != r.id
    && ExactHit(q, used, mail).Some?
    && ExactHit(r, used, mail).Some?
    && ExactHit(q, used, mail).value.messageId == ExactHit(r, used, mail).value.messageId
  }

  ghost predicate NoClash(drafts: set<Draft>, used: set<string>, mail: Mail) {
    forall q, r :: q in drafts && r in drafts ==> !Clash(q, r, used, mail)
  }

  function SetOf(drafts: seq<Draft>): set<Draft> {
    set r | r in drafts
  }

  function HitIds(drafts: seq<Draft>, used: set<string>, mail: Mail): set<int> {
    set r | r in drafts && ExactHit(r, used, mail).Some? :: r.id
  }

  function ExactResult(r: Draft, used: set<string>, mail: Mail): (int, Outcome)
    requires ExactHit(r, used, mail).Some?
  {
    (r.id, MatchTo(r, ExactHit(r, used, mail).value, SentDraft, mail))
  }

  predicate ExactDone(drafts: seq<Draft>, p: Pass, used: set<string>, mail: Mail) {
    && DistinctResults(p.out)
    && p.decided == Ids(p.out) == HitIds(drafts, used, mail)
    && forall r :: r in drafts && ExactHit(r, used, mail).Some? ==> ExactResult(r, used, mail) in p.out
  }

  lemma {:induction false} ExactPassDone(drafts: seq<Draft>, used: set<string>, mail: Mail)
    requires DistinctIds(drafts) && NoClash(SetOf(drafts), used, mail)
    ensures ExactDone(drafts, ExactPass(drafts, used, mail), used, mail)
    decreases |drafts|
  {
    if drafts != [] {
      var r, before := Last(drafts), ExactPass(Init(drafts), used, mail);
      assert drafts == Init(drafts) + [r] && r in SetOf(drafts) && SetOf(Init(drafts)) <= SetOf(drafts);
      ExactPassDone(Init(drafts), used, mail);
      ExactSound(Init(drafts), used, mail);
      forall q | q in Init(drafts)
        ensures q.id != r.id && !Clash(q, r, used, mail)
      {
        assert q in SetOf(drafts);
      }
      ExactStepDone(Init(drafts), r, before, used, mail);
    }
  }

  /** Without a clash, what earlier drafts took does not matter to `r`. */
  lemma SameHit(earlier: seq<Draft>, r: Draft, before: Pass, used: set<string>, mail: Mail)
    requires ExactDone(earlier, before, used, mail) && Sound(before, used)
    requires forall q :: q in earlier ==> q.id != r.id && !Clash(q, r, used, mail)
    ensures ExactHit(r, before.used, mail) == ExactHit(r, used, mail)
  {
    var hit := ExactHit(r, used, mail);
    if hit.Some? {
      forall o | o in before.out && o.1.Matched?
        ensures o.1.messageId != hit.value.messageId
      {
        assert o.0 in Ids(before.out);
        var q :| q in earlier && ExactHit(q, used, mail).Some? && q.id == o.0;
        SameResult(before.out, o, ExactResult(q, used, mail));
      }
    }
  }

  lemma SameResult(out: seq<(int, Outcome)>, x: (int, Outcome), y: (int, Outcome))
    requires DistinctResults(out) && x in out && y in out && x.0 == y.0
    ensures x == y
  {
  }

  lemma ExactStepDone(earlier: seq<Draft>, r: Draft, before: Pass, used: set<string>, mail: Mail)
    requires ExactDone(earlier, before, used, mail) && Sound(before, used)
    requires forall q :: q in earlier ==> q.id != r.id && !Clash(q, r, used, mail)
    ensures ExactDone(earlier + [r], ExactStep(before, r, mail), used, mail)
  {
    SameHit(earlier, r, before, used, mail);
    var drafts, hit := earlier + [r], ExactHit(r, used, mail);
    assert forall q :: q in drafts <==> q in earlier || q == r;
    if hit.Some? {
      assert r in drafts;
      assert HitIds(drafts, used, mail) == HitIds(earlier, used, mail) + {r.id};
      IdsWith(before.out, r.id, MatchTo(r, hit.value, SentDraft, mail));
      DistinctWith(before.out, ExactResult(r, used, mail));
      assert ExactResult(r, used, mail) in before.out + [ExactResult(r, used, mail)];
    } else {
      assert HitIds(drafts, used, mail) == HitIds(earlier, used, mail);
    }
  }

  lemma DistinctWith(out: seq<(int, Outcome)>, o: (int, Outcome))
    requires DistinctResults(out) && o.0 !in Ids(out)
    ensures DistinctResults(out + [o])
  {
    forall i | 0 <= i < |out|
      ensures out[i].0 != o.0
    {
      assert out[i] in out;
    }
  }

  lemma {:induction false} GuessSplit(p: Pass, a: seq<Draft>, b: seq<Draft>, mail: Mail)
    ensures GuessPass(p, a + b, mail) == GuessPass(GuessPass(p, a, mail), b, mail)
    decreases |b|
  {
    if b == [] {
      assert a + b == a;
    } else {
      assert Init(a + b) == a + Init(b) && Last(a + b) == Last(b);
      GuessSplit(p, a, Init(b), mail);
    }
  }

  lemma {:induction false} GuessDistinct(p: Pass, rest: seq<Draft>, mail: Mail)
    requires DistinctResults(p.out) && DistinctIds(rest) && Ids(p.out) !! IdsOf(rest)
    ensures DistinctResults(GuessPass(p, rest, mail).out)
    ensures forall o :: o in GuessPass(p, rest, mail).out ==> o in p.out || o.0 in IdsOf(rest)
    decreases |rest|
  {
    if rest != [] {
      var r, before := Last(rest), GuessPass(p, Init(rest), mail);
      assert rest == Init(rest) + [r] && r in rest && IdsOf(Init(rest)) <= IdsOf(rest);
      GuessDistinct(p, Init(rest), mail);
      GuessGrows(p, Init(rest), mail);
      match Choice(Candidates(r, mail), r, before.used, mail)
      case Some(c) => DistinctWith(before.out, (r.id, MatchTo(r, c.0, c.1, mail)));
      case None => DistinctWith(before.out, (r.id, Unmatched));
    }
  }

  /** `Follows`, read off the results themselves. */
  predicate FollowsIn(r: Draft, choice: Option<(Sent, Method)>, mail: Mail, out: seq<(int, Outcome)>)
    requires choice.Some? ==> mail.text(choice.value.0.messageId).Some?
  {
    match choice
    case Some(c) => (r.id, MatchTo(r, c.0, c.1, mail)) in out
    case None => if Expired(r, mail) then (r.id, Unmatched) in out else r.id !in Ids(out)
  }

  lemma StepFollows(before: Pass, r: Draft, mail: Mail)
    requires r.id !in Ids(before.out)
    ensures FollowsIn(r, Choice(Candidates(r, mail), r, before.used, mail), mail, GuessStep(before, r, mail).out)
  {
  }

  lemma StillFollows(r: Draft, choice: Option<(Sent, Method)>, mail: Mail, out: seq<(int, Outcome)>,
                     after: seq<(int, Outcome)>, others: set<int>)
    requires choice.Some? ==> mail.text(choice.value.0.messageId).Some?
    requires FollowsIn(r, choice, mail, out) && out <= after && Ids(after) <= Ids(out) + others && r.id !in others
    ensures FollowsIn(r, choice, mail, after)
  {
    assert forall o :: o in out ==> o in after;
  }

  /** A draft's guess follows from what was used when its turn came. */
  lemma GuessFollows(p: Pass, rest: seq<Draft>, mail: Mail, i: nat)
    requires DistinctIds(rest) && Ids(p.out) !! IdsOf(rest) && i < |rest|
    ensures var used := GuessPass(p, rest[..i], mail).used;
            FollowsIn(rest[i], Choice(Candidates(rest[i], mail), rest[i], used, mail), mail,
                GuessPass(p, rest, mail).out)
  {
    var r, before := rest[i], GuessPass(p, rest[..i], mail);
    var choice := Choice(Candidates(r, mail), r, before.used, mail);
    GuessGrows(p, rest[..i], mail);
    HeadBeforeTail(rest, i);
    assert r in rest[i..];
    StepFollows(before, r, mail);
    PassSplitsAt(p, rest, mail, i);
    GuessGrows(GuessStep(before, r, mail), rest[i + 1..], mail);
    HeadBeforeTail(rest, i + 1);
    assert r in rest[..i + 1];
    StillFollows(r, choice, mail, GuessStep(before, r, mail).out, GuessPass(p, rest, mail).out, IdsOf(rest[i + 1..]));
  }

  lemma PassSplitsAt(p: Pass, rest: seq<Draft>, mail: Mail, i: nat)
    requires i < |rest|
    ensures GuessPass(p, rest, mail)
         == GuessPass(GuessStep(GuessPass(p, rest[..i], mail), rest[i], mail), rest[i + 1..], mail)
  {
    assert Init(rest[..i + 1]) == rest[..i] && rest == rest[..i + 1] + rest[i + 1..];
    GuessSplit(p, rest[..i + 1], rest[i + 1..], mail);
  }

  /** The drafts left for guessing: no exact match, newest first. */
  ghost predicate Guessable(rest: seq<Draft>, waiting: seq<Draft>, used: set<string>, mail: Mail) {
    && DistinctIds(rest)
    && SortedByAge(rest)
    && forall r :: r in rest <==> r in waiting && ExactHit(r, used, mail).None?
  }

  lemma RestIsGuessable(waiting: seq<Draft>, used: set<string>, mail: Mail)
    requires DistinctIds(waiting) && ExactDone(waiting, ExactPass(waiting, used, mail), used, mail)
    ensures Guessable(Rest(waiting, ExactPass(waiting, used, mail)), waiting, used, mail)
    ensures Ids(ExactPass(waiting, used, mail).out) !! IdsOf(Rest(waiting, ExactPass(waiting, used, mail)))
  {
    var exact := ExactPass(waiting, used, mail);
    FilterDistinct(waiting, (r: Draft) => r.id !in exact.decided);
    NewestFirstSorts(Filter(waiting, (r: Draft) => r.id !in exact.decided));
    forall q, r | q in waiting && ExactHit(q, used, mail).Some? && r in waiting && ExactHit(r, used, mail).None?
      ensures q.id != r.id
    {
      var i, j :| 0 <= i < |waiting| && 0 <= j < |waiting| && q == waiting[i] && r == waiting[j];
    }
  }

  lemma {:induction false} FilterDistinct(drafts: seq<Draft>, keep: Draft -> bool)
    requires DistinctIds(drafts)
    ensures DistinctIds(Filter(drafts, keep))
    decreases |drafts|
  {
    if drafts != [] {
      FilterDistinct(Init(drafts), keep);
      forall r | r in Filter(Init(drafts), keep)
        ensures r.id != Last(drafts).id
      {
        assert r in Init(drafts);
      }
    }
  }

  /** `done` holds the results when `rest[i]`'s turn comes, `final` those at the end. */
  predicate AtTurn(i: nat, rest: seq<Draft>, waiting: seq<Draft>, done: seq<(int, Outcome)>,
                   final: seq<(int, Outcome)>, used: set<string>, mail: Mail)
    requires i < |rest|
  {
    && DistinctResults(final)
    && (forall o :: o in done ==> o in final && o.0 in HitIds(waiting, used, mail) + IdsOf(rest[..i]))
    && (forall o :: o in final ==> o in done || o.0 in IdsOf(rest[i..]))
  }

  lemma TakenAtTurn(i: nat, rest: seq<Draft>, waiting: seq<Draft>, done: seq<(int, Outcome)>,
                    final: seq<(int, Outcome)>, used: set<string>, mail: Mail)
    requires i < |rest| && DistinctIds(waiting) && Guessable(rest, waiting, used, mail)
    requires AtTurn(i, rest, waiting, done, final, used, mail)
    ensures used + Messages(done) == Taken(rest[i], SetOf(waiting), used, mail, OutcomeMap(final))
  {
    var m, taken := OutcomeMap(final), Taken(rest[i], SetOf(waiting), used, mail, OutcomeMap(final));
    MapHolds(final);
    assert rest[i] in rest;
    forall o | o in done && o.1.Matched?
      ensures o.1.messageId in taken
    {
      assert Maps(m, o.0, o.1);
      var q: Draft;
      if o.0 in HitIds(waiting, used, mail) {
        q :| q in waiting && ExactHit(q, used, mail).Some? && q.id == o.0;
      } else {
        q :| q in rest[..i] && q.id == o.0;
        assert Newer(q, rest[i]) && q in rest;
      }
      assert q in SetOf(waiting) && Precedes(q, rest[i], used, mail);
    }
    forall q | q in waiting && Precedes(q, rest[i], used, mail) && q.id in m && m[q.id].Matched?
      ensures m[q.id].messageId in Messages(done)
    {
      assert (q.id, m[q.id]) in final;
      forall x | x in rest[i..]
        ensures x.id != q.id
      {
        assert x in rest && x in waiting && !Newer(x, rest[i]);
      }
    }
  }

  lemma SplitAt(p: Pass, rest: seq<Draft>, mail: Mail, i: nat)
    requires i <= |rest|
    ensures GuessPass(p, rest, mail) == GuessPass(GuessPass(p, rest[..i], mail), rest[i..], mail)
  {
    assert rest == rest[..i] + rest[i..];
    GuessSplit(p, rest[..i], rest[i..], mail);
  }

  lemma TurnHolds(i: nat, exact: Pass, rest: seq<Draft>, waiting: seq<Draft>, used: set<string>, mail: Mail)
    requires i < |rest| && DistinctIds(rest) && Ids(exact.out) !! IdsOf(rest)
    requires DistinctResults(exact.out) && Ids(exact.out) == HitIds(waiting, used, mail)
    ensures AtTurn(i, rest, waiting, GuessPass(exact, rest[..i], mail).out, GuessPass(exact, rest, mail).out, used,
            mail)
  {
    var before := GuessPass(exact, rest[..i], mail);
    SplitAt(exact, rest, mail, i);
    HeadBeforeTail(rest, i);
    ResultsOfHead(exact, rest[..i], mail);
    ResultsOfTail(before, rest[i..], mail);
    assert forall o :: o in before.out ==> o.0 in Ids(before.out);
  }

  lemma ResultsOfHead(p: Pass, rest: seq<Draft>, mail: Mail)
    requires DistinctResults(p.out) && DistinctIds(rest) && Ids(p.out) !! IdsOf(rest)
    ensures DistinctResults(GuessPass(p, rest, mail).out)
    ensures Ids(GuessPass(p, rest, mail).out) <= Ids(p.out) + IdsOf(rest)
  {
    GuessDistinct(p, rest, mail);
    GuessGrows(p, rest, mail);
  }

  lemma ResultsOfTail(p: Pass, rest: seq<Draft>, mail: Mail)
    requires DistinctResults(p.out) && DistinctIds(rest) && Ids(p.out) !! IdsOf(rest)
    ensures DistinctResults(GuessPass(p, rest, mail).out)
    ensures forall o :: o in p.out ==> o in GuessPass(p, rest, mail).out
    ensures forall o :: o in GuessPass(p, rest, mail).out ==> o in p.out || o.0 in IdsOf(rest)
  {
    GuessDistinct(p, rest, mail);
    GuessGrows(p, rest, mail);
  }

  lemma HeadBeforeTail(rest: seq<Draft>, i: nat)
    requires DistinctIds(rest) && i <= |rest|
    ensures IdsOf(rest[..i]) !! IdsOf(rest[i..])
    ensures IdsOf(rest) == IdsOf(rest[..i]) + IdsOf(rest[i..])
  {
    assert rest == rest[..i] + rest[i..];
    forall x, y | x in rest[..i] && y in rest[i..]
      ensures x.id != y.id
    {
      var j, k :| 0 <= j < i <= k < |rest| && x == rest[j] && y == rest[k];
    }
  }

  /** The loops compute a stable matching of the drafts they are given. */
  lemma ResultsAreStable(waiting: seq<Draft>, used: set<string>, mail: Mail)
    requires DistinctIds(waiting) && NoClash(SetOf(waiting), used, mail)
    ensures Stable(SetOf(waiting), used, mail, OutcomeMap(Results(waiting, used, mail).out))
    ensures DistinctResults(Results(waiting, used, mail).out)
  {
    var exact := ExactPass(waiting, used, mail);
    var rest, final := Rest(waiting, exact), Results(waiting, used, mail);
    var m := OutcomeMap(final.out);
    ExactPassDone(waiting, used, mail);
    RestIsGuessable(waiting, used, mail);
    GuessDistinct(exact, rest, mail);
    GuessGrows(exact, rest, mail);
    MapHolds(final.out);
    forall r | r in SetOf(waiting)
      ensures Settled(r, SetOf(waiting), used, mail, m)
    {
      if ExactHit(r, used, mail).Some? {
        assert ExactResult(r, used, mail) in exact.out;
        assert ExactResult(r, used, mail) in final.out;
      } else {
        var i :| 0 <= i < |rest| && rest[i] == r;
        TurnHolds(i, exact, rest, waiting, used, mail);
        TakenAtTurn(i, rest, waiting, GuessPass(exact, rest[..i], mail).out, final.out, used, mail);
        ExactSound(waiting, used, mail);
        GuessSound(exact, rest[..i], used, mail);
        GuessFollows(exact, rest, mail, i);
      }
    }
    forall id | id in m
      ensures id in set r | r in SetOf(waiting) :: r.id
    {
      var r: Draft;
      if id in Ids(exact.out) {
        r :| r in waiting && ExactHit(r, used, mail).Some? && r.id == id;
      } else {
        r :| r in rest && r.id == id;
      }
      assert r in SetOf(waiting);
    }
  }

  // ---- The order of the drafts ----

  function OutcomesOf(waiting: seq<Draft>, used: set<string>, mail: Mail): map<int, Outcome> {
    OutcomeMap(Results(waiting, used, mail).out)
  }

  lemma OrderDoesNotMatter(waiting: seq<Draft>, other: seq<Draft>, used: set<string>, mail: Mail)
    requires DistinctIds(waiting) && DistinctIds(other) && SetOf(waiting) == SetOf(other)
    requires NoClash(SetOf(waiting), used, mail)
    ensures OutcomesOf(waiting, used, mail) == OutcomesOf(other, used, mail)
  {
    ResultsAreStable(waiting, used, mail);
    ResultsAreStable(other, used, mail);
    StableIsUnique(SetOf(waiting), used, mail, OutcomesOf(waiting, used, mail), OutcomesOf(other, used, mail));
  }

  /** Distinct Message-IDs on both sides rule a clash out. */
  lemma DistinctMessageIdsDoNotClash(waiting: seq<Draft>, used: set<string>, mail: Mail)
    requires forall q, r :: q in waiting && r in waiting && q.id != r.id && q.rfc822.Some? ==> q.rfc822 != r.rfc822
    requires forall i, j :: 0 <= i < j < |mail.sent| ==> mail.sent[i].messageId != mail.sent[j].messageId
    ensures NoClash(SetOf(waiting), used, mail)
  {
    forall q, r | q in waiting && r in waiting && Clash(q, r, used, mail)
      ensures false
    {
      ByRfc822Finds(mail.sent, q.rfc822.value);
      ByRfc822Finds(mail.sent, r.rfc822.value);
    }
  }

  lemma {:induction false} ByRfc822Finds(sent: seq<Sent>, id: string)
    ensures id in ByRfc822(sent) ==> ByRfc822(sent)[id] in sent && ByRfc822(sent)[id].rfc822 == Some(id)
    decreases |sent|
  {
    if sent != [] {
      ByRfc822Finds(Init(sent), id);
      assert sent == Init(sent) + [Last(sent)];
    }
  }

  /** `waiting` with its draft `i` listed first. */
  function Promoted(waiting: seq<Draft>, i: nat): seq<Draft>
    requires i < |waiting|
  {
    [waiting[i]] + waiting[..i] + waiting[i + 1..]
  }

  lemma PromotedSame(waiting: seq<Draft>, i: nat)
    requires i < |waiting| && DistinctIds(waiting)
    ensures SetOf(Promoted(waiting, i)) == SetOf(waiting) && DistinctIds(Promoted(waiting, i))
  {
    assert waiting == waiting[..i] + [waiting[i]] + waiting[i + 1..];
    assert forall r :: r in Promoted(waiting, i) <==> r in waiting;
  }

  lemma {:induction false} FirstDraftWins(drafts: seq<Draft>, used: set<string>, mail: Mail)
    requires drafts != [] && ExactHit(drafts[0], used, mail).Some?
    ensures ExactPass(drafts, used, mail).out != []
    ensures ExactPass(drafts, used, mail).out[0] == ExactResult(drafts[0], used, mail)
    decreases |drafts|
  {
    if |drafts| > 1 {
      FirstDraftWins(Init(drafts), used, mail);
    } else {
      assert Init(drafts) == [];
    }
  }

  /** The first draft listed gets its exact match, and so no other draft gets that message. */
  lemma OnlyFirstGetsIt(drafts: seq<Draft>, q: Draft, used: set<string>, mail: Mail)
    requires drafts != [] && Clash(drafts[0], q, used, mail)
    ensures var m := OutcomesOf(drafts, used, mail); var s := ExactHit(drafts[0], used, mail).value.messageId;
            !(q.id in m && m[q.id].Matched? && m[q.id].messageId == s)
  {
    var out := Results(drafts, used, mail).out;
    var exact := ExactPass(drafts, used, mail);
    FirstDraftWins(drafts, used, mail);
    GuessGrows(exact, Rest(drafts, exact), mail);
    ResultsSound(drafts, used, mail);
    assert out[0] == ExactResult(drafts[0], used, mail);
    MapComesFrom(out);
  }

  lemma {:induction false} MapComesFrom(out: seq<(int, Outcome)>)
    ensures forall id :: id in OutcomeMap(out) ==> (id, OutcomeMap(out)[id]) in out
    decreases |out|
  {
    if out != [] {
      MapComesFrom(Init(out));
    }
  }

  /** Listing a draft first makes sure of its own exact match, whatever else is in the list. */
  lemma FirstKeepsIt(drafts: seq<Draft>, used: set<string>, mail: Mail)
    requires drafts != [] && DistinctIds(drafts) && ExactHit(drafts[0], used, mail).Some?
    ensures Maps(OutcomesOf(drafts, used, mail), drafts[0].id, ExactResult(drafts[0], used, mail).1)
  {
    var exact := ExactPass(drafts, used, mail);
    FirstDraftWins(drafts, used, mail);
    ExactDistinct(drafts, used, mail);
    ExactGrows(drafts, used, mail);
    var keep := (r: Draft) => r.id !in exact.decided;
    NewestFirstSorts(Filter(drafts, keep));
    FilterDistinct(drafts, keep);
    GuessDistinct(exact, Rest(drafts, exact), mail);
    GuessGrows(exact, Rest(drafts, exact), mail);
    MapHolds(Results(drafts, used, mail).out);
    assert Results(drafts, used, mail).out[0] == ExactResult(drafts[0], used, mail);
  }

  lemma {:induction false} ExactDistinct(drafts: seq<Draft>, used: set<string>, mail: Mail)
    requires DistinctIds(drafts)
    ensures DistinctResults(ExactPass(drafts, used, mail).out)
    ensures Ids(ExactPass(drafts, used, mail).out) <= IdsOf(drafts)
    decreases |drafts|
  {
    if drafts != [] {
      var r, before := Last(drafts), ExactPass(Init(drafts), used, mail);
      assert drafts == Init(drafts) + [r] && r in drafts && IdsOf(Init(drafts)) <= IdsOf(drafts);
      ExactDistinct(Init(drafts), used, mail);
      var hit := ExactHit(r, before.used, mail);
      if hit.Some? {
        IdsWith(before.out, r.id, MatchTo(r, hit.value, SentDraft, mail));
        DistinctWith(before.out, (r.id, MatchTo(r, hit.value, SentDraft, mail)));
      }
    }
  }

  /** Each draft gets at most one outcome, clash or no clash. */
  lemma OneOutcomeEach(waiting: seq<Draft>, used: set<string>, mail: Mail)
    requires DistinctIds(waiting)
    ensures DistinctResults(Results(waiting, used, mail).out)
    ensures Ids(Results(waiting, used, mail).out) <= IdsOf(waiting)
  {
    var exact := ExactPass(waiting, used, mail);
    var open := Filter(waiting, (r: Draft) => r.id !in exact.decided);
    ExactDistinct(waiting, used, mail);
    ExactGrows(waiting, used, mail);
    FilterDistinct(waiting, (r: Draft) => r.id !in exact.decided);
    NewestFirstSorts(open);
    var rest := Rest(waiting, exact);
    assert IdsOf(rest) <= IdsOf(waiting) && Ids(exact.out) !! IdsOf(rest);
    GuessDistinct(exact, rest, mail);
  }

  // ---- No blocking pair, clash or no clash ----

  /** The exact phase's results are of drafts that name a Message-ID. */
  lemma {:induction false} ExactIsNamed(drafts: seq<Draft>, used: set<string>, mail: Mail, o: (int, Outcome))
    requires o in ExactPass(drafts, used, mail).out
    ensures o.1.Matched? && o.1.how.SentDraft?
    ensures exists q :: q in drafts && q.id == o.0 && q.rfc822.Some?
    decreases |drafts|
  {
    var r, before := Last(drafts), ExactPass(Init(drafts), used, mail);
    assert drafts == Init(drafts) + [r];
    if o in before.out {
      ExactIsNamed(Init(drafts), used, mail, o);
    }
  }

  /** A draft that may be guessed is left for guessing. */
  lemma CandidatesAreForTheRest(waiting: seq<Draft>, used: set<string>, mail: Mail, r: Draft)
    requires DistinctIds(waiting) && r in waiting && r.rfc822.None?
    ensures r in Rest(waiting, ExactPass(waiting, used, mail))
  {
    var exact := ExactPass(waiting, used, mail);
    ExactGrows(waiting, used, mail);
    if r.id in exact.decided {
      var o :| o in exact.out && o.0 == r.id;
      ExactIsNamed(waiting, used, mail, o);
      assert false;
    }
    NewestFirstSorts(Filter(waiting, (q: Draft) => q.id !in exact.decided));
  }

  /** The drafts left for guessing: distinct, newest first, and none with a result yet. */
  lemma RestIsOrdered(waiting: seq<Draft>, used: set<string>, mail: Mail)
    requires DistinctIds(waiting)
    ensures var exact := ExactPass(waiting, used, mail); var rest := Rest(waiting, exact);
            && DistinctIds(rest) && SortedByAge(rest) && Ids(exact.out) !! IdsOf(rest) && DistinctResults(exact.out)
            && forall r :: r in rest ==> r in waiting
  {
    var exact := ExactPass(waiting, used, mail);
    ExactDistinct(waiting, used, mail);
    ExactGrows(waiting, used, mail);
    FilterDistinct(waiting, (r: Draft) => r.id !in exact.decided);
    NewestFirstSorts(Filter(waiting, (r: Draft) => r.id !in exact.decided));
  }

  /** The results give the message to a draft that names it, or to one newer than `r`. */
  predicate GoneBefore(r: Draft, message: string, waiting: seq<Draft>, out: seq<(int, Outcome)>) {
    exists o :: o in out && o.1.Matched? && o.1.messageId == message && IsBefore(o, r, waiting)
  }

  predicate IsBefore(o: (int, Outcome), r: Draft, waiting: seq<Draft>)
    requires o.1.Matched?
  {
    o.1.how.SentDraft? || exists q :: q in waiting && q.id == o.0 && Newer(q, r)
  }

  lemma UsedAtTurn(waiting: seq<Draft>, used: set<string>, mail: Mail, i: nat, message: string)
    requires DistinctIds(waiting) && i < |Rest(waiting, ExactPass(waiting, used, mail))|
    requires var exact := ExactPass(waiting, used, mail);
      message in GuessPass(exact, Rest(waiting, exact)[..i], mail).used && message !in used
    ensures GoneBefore(Rest(waiting, ExactPass(waiting, used, mail))[i], message, waiting,
            Results(waiting, used, mail).out)
  {
    var exact := ExactPass(waiting, used, mail);
    var rest := Rest(waiting, exact);
    var before := GuessPass(exact, rest[..i], mail);
    RestIsOrdered(waiting, used, mail);
    HeadBeforeTail(rest, i);
    ExactSound(waiting, used, mail);
    GuessSound(exact, rest[..i], used, mail);
    GuessDistinct(exact, rest[..i], mail);
    var o :| o in before.out && o.1.Matched? && o.1.messageId == message;
    StaysInResults(exact, rest, mail, i, o);
    if o in exact.out {
      ExactIsNamed(waiting, used, mail, o);
    } else {
      var j :| 0 <= j < i && rest[j].id == o.0;
      assert rest[j] in rest && Newer(rest[j], rest[i]);
    }
  }

  lemma StaysInResults(p: Pass, rest: seq<Draft>, mail: Mail, i: nat, o: (int, Outcome))
    requires i <= |rest| && o in GuessPass(p, rest[..i], mail).out
    ensures o in GuessPass(p, rest, mail).out
  {
    SplitAt(p, rest, mail, i);
    GuessGrows(GuessPass(p, rest[..i], mail), rest[i..], mail);
    InPrefix(GuessPass(p, rest[..i], mail).out, GuessPass(p, rest, mail).out, o);
  }

  lemma InPrefix<T>(s: seq<T>, t: seq<T>, x: T)
    requires s <= t && x in s
    ensures x in t
  {
    var i :| 0 <= i < |s| && s[i] == x;
    assert t[i] == x;
  }

  /**
   * No blocking pair in what the loops return: a close enough candidate that a draft was
   * not given was in use before, went to a draft that names it or to a newer one, or the
   * draft got a candidate at least as good.
   */
  lemma NoBlockingPair(waiting: seq<Draft>, used: set<string>, mail: Mail, r: Draft, k: nat)
    requires DistinctIds(waiting) && r in waiting
    requires k < |Candidates(r, mail)| && CloseEnough(r, Candidates(r, mail)[k].0, mail)
    ensures var candidates, out := Candidates(r, mail), Results(waiting, used, mail).out;
            || candidates[k].0.messageId in used
            || GoneBefore(r, candidates[k].0.messageId, waiting, out)
            || (exists j :: 0 <= j <= k && mail.text(candidates[j].0.messageId).Some?
                            && (r.id, MatchTo(r, candidates[j].0, candidates[j].1, mail)) in out)
  {
    var candidates, exact := Candidates(r, mail), ExactPass(waiting, used, mail);
    var rest := Rest(waiting, exact);
    CandidatesAreForTheRest(waiting, used, mail, r);
    RestIsOrdered(waiting, used, mail);
    var i :| 0 <= i < |rest| && rest[i] == r;
    var before := GuessPass(exact, rest[..i], mail);
    if candidates[k].0.messageId in before.used {
      if candidates[k].0.messageId !in used {
        UsedAtTurn(waiting, used, mail, i, candidates[k].0.messageId);
      }
    } else {
      GuessFollows(exact, rest, mail, i);
      var j := ChoiceIsFirst(candidates, k, r, before.used, mail);
    }
  }

  /** Every way of listing the drafts gives the same outcomes exactly when no two of them clash. */
  lemma OrderMattersExactlyOnClash(waiting: seq<Draft>, used: set<string>, mail: Mail)
    requires DistinctIds(waiting)
    ensures NoClash(SetOf(waiting), used, mail) <==>
            forall other :: DistinctIds(other) && SetOf(other) == SetOf(waiting) ==>
              OutcomesOf(other, used, mail) == OutcomesOf(waiting, used, mail)
  {
    if NoClash(SetOf(waiting), used, mail) {
      forall other | DistinctIds(other) && SetOf(other) == SetOf(waiting)
        ensures OutcomesOf(other, used, mail) == OutcomesOf(waiting, used, mail)
      {
        OrderDoesNotMatter(other, waiting, used, mail);
      }
    } else {
      var q, r :| q in SetOf(waiting) && r in SetOf(waiting) && Clash(q, r, used, mail);
      var i :| 0 <= i < |waiting| && waiting[i] == q;
      var j :| 0 <= j < |waiting| && waiting[j] == r;
      PromotedSame(waiting, i);
      PromotedSame(waiting, j);
      FirstKeepsIt(Promoted(waiting, i), used, mail);
      OnlyFirstGetsIt(Promoted(waiting, j), q, used, mail);
    }
  }
}
