// What a matching pass guarantees, whatever the order of the drafts.
module MatchingLaws {
  import opened Prelude
  import opened Matching

  predicate DistinctIds(drafts: seq<Draft>) {
    forall i, j :: 0 <= i < j < |drafts| ==> drafts[i].id != drafts[j].id
  }

  function Ids(out: seq<(int, Outcome)>): set<int> {
    set o | o in out :: o.0
  }

  function Messages(out: seq<(int, Outcome)>): set<string> {
    set o | o in out && o.1.Matched? :: o.1.messageId
  }

  // ---- No message twice ----

  /** No message is assigned twice or taken from those already used. */
  predicate NoMessageTwice(out: seq<(int, Outcome)>, already: set<string>) {
    && (forall i :: 0 <= i < |out| && out[i].1.Matched? ==> out[i].1.messageId !in already)
    && (forall i, j :: 0 <= i < j < |out| && out[i].1.Matched? && out[j].1.Matched? ==>
        out[i].1.messageId != out[j].1.messageId)
  }

  predicate Sound(p: Pass, already: set<string>) {
    p.used == already + Messages(p.out) && NoMessageTwice(p.out, already)
  }

  lemma SoundWith(p: Pass, already: set<string>, id: int, o: Outcome)
    requires Sound(p, already) && (o.Matched? ==> o.messageId !in p.used)
    ensures Sound(p.(used := p.used + (if o.Matched? then {o.messageId} else {}), out := p.out + [(id, o)]), already)
  {
    var out := p.out + [(id, o)];
    assert forall x :: x in out <==> x in p.out || x == (id, o);
    assert Messages(out) == Messages(p.out) + (if o.Matched? then {o.messageId} else {}) by {
      if o.Matched? {
        assert (id, o) in out;
      }
    }
    assert forall i :: 0 <= i < |p.out| && p.out[i].1.Matched? ==> p.out[i].1.messageId in Messages(p.out);
  }

  lemma {:induction false} ExactSound(drafts: seq<Draft>, already: set<string>, mail: Mail)
    ensures Sound(ExactPass(drafts, already, mail), already)
    decreases |drafts|
  {
    if drafts != [] {
      ExactSound(Init(drafts), already, mail);
      var p := ExactPass(Init(drafts), already, mail);
      var hit := ExactHit(Last(drafts), p.used, mail);
      if hit.Some? {
        SoundWith(p, already, Last(drafts).id, MatchTo(Last(drafts), hit.value, SentDraft, mail));
      }
    }
  }

  lemma {:induction false} GuessSound(p: Pass, rest: seq<Draft>, already: set<string>, mail: Mail)
    requires Sound(p, already)
    ensures Sound(GuessPass(p, rest, mail), already)
    decreases |rest|
  {
    if rest != [] {
      GuessSound(p, Init(rest), already, mail);
      var r, before := Last(rest), GuessPass(p, Init(rest), mail);
      var choice := Choice(Candidates(r, mail), r, before.used, mail);
      if choice.Some? {
        SoundWith(before, already, r.id, MatchTo(r, choice.value.0, choice.value.1, mail));
      } else if Expired(r, mail) {
        SoundWith(before, already, r.id, Unmatched);
      }
    }
  }

  lemma ResultsSound(waiting: seq<Draft>, already: set<string>, mail: Mail)
    ensures Sound(Results(waiting, already, mail), already)
    ensures NoMessageTwice(Results(waiting, already, mail).out, already)
  {
    var exact := ExactPass(waiting, already, mail);
    ExactSound(waiting, already, mail);
    GuessSound(exact, Rest(waiting, exact), already, mail);
  }

  // ---- Sorting ----

  /** No draft stands before a newer one. */
  predicate SortedByAge(drafts: seq<Draft>) {
    forall i, j :: 0 <= i < j < |drafts| ==> !Newer(drafts[j], drafts[i])
  }

  lemma {:induction false} InsertKeeps(r: Draft, sorted: seq<Draft>)
    ensures |InsertByAge(r, sorted)| == |sorted| + 1
    ensures multiset(InsertByAge(r, sorted)) == multiset(sorted) + multiset{r}
    ensures forall x :: x in InsertByAge(r, sorted) <==> x == r || x in sorted
    decreases |sorted|
  {
    if sorted != [] {
      assert sorted == [sorted[0]] + sorted[1..];
      if Newer(sorted[0], r) {
        InsertKeeps(r, sorted[1..]);
      }
    }
  }

  lemma {:induction false} InsertKeepsDistinct(r: Draft, sorted: seq<Draft>)
    requires DistinctIds(sorted) && forall x :: x in sorted ==> x.id != r.id
    ensures DistinctIds(InsertByAge(r, sorted))
    decreases |sorted|
  {
    if sorted != [] && Newer(sorted[0], r) {
      InsertKeepsDistinct(r, sorted[1..]);
      InsertKeeps(r, sorted[1..]);
      var tail := InsertByAge(r, sorted[1..]);
      assert sorted[0] in sorted;
      assert forall x :: x in tail ==> x.id != sorted[0].id;
      assert InsertByAge(r, sorted) == [sorted[0]] + tail;
    } else if sorted != [] {
      assert InsertByAge(r, sorted) == [r] + sorted;
    }
  }

  lemma {:induction false} InsertKeepsSorted(r: Draft, sorted: seq<Draft>)
    requires SortedByAge(sorted)
    ensures SortedByAge(InsertByAge(r, sorted))
    decreases |sorted|
  {
    if sorted != [] {
      if Newer(sorted[0], r) {
        InsertKeepsSorted(r, sorted[1..]);
        InsertKeeps(r, sorted[1..]);
        var tail := InsertByAge(r, sorted[1..]);
        assert forall x :: x in tail ==> !Newer(x, sorted[0]);
        assert InsertByAge(r, sorted) == [sorted[0]] + tail;
      } else {
        assert forall x :: x in sorted ==> !Newer(x, sorted[0]);
      }
    }
  }

  lemma {:induction false} NewestFirstKeeps(drafts: seq<Draft>)
    ensures |NewestFirst(drafts)| == |drafts|
    ensures multiset(NewestFirst(drafts)) == multiset(drafts)
    ensures forall x :: x in NewestFirst(drafts) <==> x in drafts
    decreases |drafts|
  {
    if drafts != [] {
      assert drafts == [drafts[0]] + drafts[1..];
      NewestFirstKeeps(drafts[1..]);
      InsertKeeps(drafts[0], NewestFirst(drafts[1..]));
    }
  }

  lemma {:induction false} NewestFirstIsSorted(drafts: seq<Draft>)
    ensures SortedByAge(NewestFirst(drafts))
    decreases |drafts|
  {
    if drafts != [] {
      NewestFirstIsSorted(drafts[1..]);
      InsertKeepsSorted(drafts[0], NewestFirst(drafts[1..]));
    }
  }

  lemma {:induction false} NewestFirstIsDistinct(drafts: seq<Draft>)
    requires DistinctIds(drafts)
    ensures DistinctIds(NewestFirst(drafts))
    decreases |drafts|
  {
    if drafts != [] {
      NewestFirstIsDistinct(drafts[1..]);
      NewestFirstKeeps(drafts[1..]);
      InsertKeepsDistinct(drafts[0], NewestFirst(drafts[1..]));
    }
  }

  /** Newest first: a permutation of the drafts, in order. */
  lemma NewestFirstSorts(drafts: seq<Draft>)
    ensures |NewestFirst(drafts)| == |drafts|
    ensures multiset(NewestFirst(drafts)) == multiset(drafts)
    ensures forall x :: x in NewestFirst(drafts) <==> x in drafts
    ensures DistinctIds(drafts) ==> DistinctIds(NewestFirst(drafts))
    ensures SortedByAge(NewestFirst(drafts))
  {
    NewestFirstKeeps(drafts);
    NewestFirstIsSorted(drafts);
    if DistinctIds(drafts) {
      NewestFirstIsDistinct(drafts);
    }
  }

  // ---- Counting ----

  lemma {:induction false} FilterShrinks(s: seq<Draft>, wide: Draft -> bool, narrow: Draft -> bool)
    requires forall r :: narrow(r) ==> wide(r)
    ensures |Filter(s, narrow)| <= |Filter(s, wide)|
    decreases |s|
  {
    if s != [] {
      FilterShrinks(Init(s), wide, narrow);
    }
  }

  lemma {:induction false} ExactCounts(drafts: seq<Draft>, already: set<string>, mail: Mail)
    ensures var p := ExactPass(drafts, already, mail);
            |p.out| + |Filter(drafts, (r: Draft) => r.id !in p.decided)| <= |drafts|
    decreases |drafts|
  {
    if drafts != [] {
      ExactCounts(Init(drafts), already, mail);
      var before := ExactPass(Init(drafts), already, mail);
      var p := ExactPass(drafts, already, mail);
      FilterShrinks(Init(drafts), (r: Draft) => r.id !in before.decided, (r: Draft) => r.id !in p.decided);
    }
  }

  lemma {:induction false} GuessCounts(p: Pass, rest: seq<Draft>, mail: Mail)
    ensures |GuessPass(p, rest, mail).out| <= |p.out| + |rest|
    decreases |rest|
  {
    if rest != [] {
      GuessCounts(p, Init(rest), mail);
    }
  }

  lemma AtMostOneOutcomeEach(waiting: seq<Draft>, already: set<string>, mail: Mail)
    ensures |Results(waiting, already, mail).out| <= |waiting|
  {
    var exact := ExactPass(waiting, already, mail);
    ExactCounts(waiting, already, mail);
    NewestFirstSorts(Filter(waiting, (r: Draft) => r.id !in exact.decided));
    GuessCounts(exact, Rest(waiting, exact), mail);
  }

  datatype MatchSummary = MatchSummary(matched: nat, unmatched: nat, waiting: nat)

  /** How many of the outcomes name a message. */
  function CountMatched(out: seq<(int, Outcome)>): nat {
    |Filter(out, (o: (int, Outcome)) => o.1.Matched?)|
  }

  lemma CountedWithNext(out: seq<(int, Outcome)>, i: nat)
    requires i < |out|
    ensures CountMatched(out[..i + 1]) == CountMatched(out[..i]) + if out[i].1.Matched? then 1 else 0
  {
    assert Init(out[..i + 1]) == out[..i];
  }

  /** The counting of `match_compositions`: `waiting` is a `nat`, so it never goes below zero. */
  method MatchCompositions(waiting: seq<Draft>, already: set<string>, mail: Mail)
    returns (out: seq<(int, Outcome)>, summary: MatchSummary)
    ensures out == Results(waiting, already, mail).out
    ensures summary.matched == CountMatched(out)
    ensures summary.matched + summary.unmatched == |out|
    ensures summary.matched + summary.unmatched + summary.waiting == |waiting|
  {
    AtMostOneOutcomeEach(waiting, already, mail);
    if waiting == [] {
      return [], MatchSummary(0, 0, 0);
    }
    out := MatchRecords(waiting, already, mail);
    summary := MatchSummary(0, 0, |waiting|);
    for i := 0 to |out|
      invariant summary.matched == CountMatched(out[..i])
      invariant summary.matched + summary.unmatched == i
      invariant summary.waiting == |waiting| - i
    {
      CountedWithNext(out, i);
      summary := summary.(waiting := summary.waiting - 1);
      if out[i].1.Matched? {
        summary := summary.(matched := summary.matched + 1);
      } else {
        summary := summary.(unmatched := summary.unmatched + 1);
      }
    }
    assert out[..|out|] == out;
  }

  // ---- One pass reaches a fixed point ----

  lemma {:induction false} ExactGrows(drafts: seq<Draft>, already: set<string>, mail: Mail)
    ensures var p := ExactPass(drafts, already, mail);
            && already <= p.used
            && p.decided == Ids(p.out)
            && forall r :: r in drafts ==> r.id in p.decided || ExactHit(r, p.used, mail).None?
    decreases |drafts|
  {
    if drafts != [] {
      ExactGrows(Init(drafts), already, mail);
      assert drafts == Init(drafts) + [Last(drafts)];
      var before, p := ExactPass(Init(drafts), already, mail), ExactPass(drafts, already, mail);
      var hit := ExactHit(Last(drafts), before.used, mail);
      if hit.Some? {
        IdsWith(before.out, Last(drafts).id, MatchTo(Last(drafts), hit.value, SentDraft, mail));
      }
    }
  }

  lemma IdsWith(out: seq<(int, Outcome)>, id: int, o: Outcome)
    ensures Ids(out + [(id, o)]) == Ids(out) + {id}
  {
    assert (id, o) in out + [(id, o)];
    assert forall x :: x in out + [(id, o)] <==> x in out || x == (id, o);
  }

  function IdsOf(drafts: seq<Draft>): set<int> {
    set r | r in drafts :: r.id
  }

  lemma GuessStepGrows(p: Pass, r: Draft, mail: Mail)
    ensures var after := GuessStep(p, r, mail);
            && p.used <= after.used
            && p.out <= after.out
            && Ids(p.out) <= Ids(after.out) <= Ids(p.out) + {r.id}
            && (r.id in Ids(after.out) || (Choice(Candidates(r, mail), r, after.used, mail).None? && !Expired(r, mail)))
  {
    match Choice(Candidates(r, mail), r, p.used, mail)
    case Some(c) => IdsWith(p.out, r.id, MatchTo(r, c.0, c.1, mail));
    case None => IdsWith(p.out, r.id, Unmatched);
  }

  lemma {:induction false} GuessGrows(p: Pass, rest: seq<Draft>, mail: Mail)
    ensures var after := GuessPass(p, rest, mail);
            && p.used <= after.used
            && p.out <= after.out
            && Ids(p.out) <= Ids(after.out) <= Ids(p.out) + IdsOf(rest)
    decreases |rest|
  {
    if rest != [] {
      GuessGrows(p, Init(rest), mail);
      GuessStepGrows(GuessPass(p, Init(rest), mail), Last(rest), mail);
      assert Last(rest) in rest;
    }
  }

  /** The draft has an outcome, or nothing is left for it now. */
  predicate DoneWith(r: Draft, p: Pass, mail: Mail) {
    r.id in Ids(p.out) || (Choice(Candidates(r, mail), r, p.used, mail).None? && !Expired(r, mail))
  }

  lemma DoneStaysDone(p: Pass, next: Draft, r: Draft, mail: Mail)
    requires DoneWith(r, p, mail)
    ensures DoneWith(r, GuessStep(p, next, mail), mail)
  {
    GuessStepGrows(p, next, mail);
  }

  lemma {:induction false} GuessMissesStay(p: Pass, rest: seq<Draft>, mail: Mail)
    ensures forall r :: r in rest ==> DoneWith(r, GuessPass(p, rest, mail), mail)
    decreases |rest|
  {
    if rest != [] {
      GuessMissesStay(p, Init(rest), mail);
      var before := GuessPass(p, Init(rest), mail);
      GuessStepGrows(before, Last(rest), mail);
      assert rest == Init(rest) + [Last(rest)];
      forall r | r in Init(rest)
        ensures DoneWith(r, GuessPass(p, rest, mail), mail)
      {
        DoneStaysDone(before, Last(rest), r, mail);
      }
    }
  }

  function LeftWaiting(waiting: seq<Draft>, out: seq<(int, Outcome)>): seq<Draft> {
    Filter(waiting, (r: Draft) => r.id !in Ids(out))
  }

  lemma {:induction false} NothingExact(drafts: seq<Draft>, used: set<string>, mail: Mail)
    requires forall r :: r in drafts ==> ExactHit(r, used, mail).None?
    ensures ExactPass(drafts, used, mail) == Pass(used, {}, [])
    decreases |drafts|
  {
    if drafts != [] {
      NothingExact(Init(drafts), used, mail);
    }
  }

  lemma {:induction false} NothingGuessed(p: Pass, rest: seq<Draft>, mail: Mail)
    requires forall r :: r in rest ==> Choice(Candidates(r, mail), r, p.used, mail).None? && !Expired(r, mail)
    ensures GuessPass(p, rest, mail) == p
    decreases |rest|
  {
    if rest != [] {
      NothingGuessed(p, Init(rest), mail);
    }
  }

  /** Run again on what is left, with the new matches used up, a pass finds nothing. */
  lemma PassIsFixedPoint(waiting: seq<Draft>, already: set<string>, mail: Mail)
    ensures var out := Results(waiting, already, mail).out;
            Results(LeftWaiting(waiting, out), already + Messages(out), mail).out == []
  {
    var exact := ExactPass(waiting, already, mail);
    var open := Filter(waiting, (r: Draft) => r.id !in exact.decided);
    var rest := Rest(waiting, exact);
    var done := GuessPass(exact, rest, mail);
    ExactGrows(waiting, already, mail);
    NewestFirstSorts(open);
    GuessGrows(exact, rest, mail);
    GuessMissesStay(exact, rest, mail);
    ResultsSound(waiting, already, mail);
    var left := LeftWaiting(waiting, done.out);
    forall r | r in left
      ensures r in rest && ExactHit(r, done.used, mail).None?
    {
      assert forall x :: x in exact.out ==> x in done.out;
      assert Ids(exact.out) <= Ids(done.out);
    }
    NothingExact(left, done.used, mail);
    var again := Pass(done.used, {}, []);
    NewestFirstSorts(Filter(left, (r: Draft) => r.id !in again.decided));
    NothingGuessed(again, Rest(left, again), mail);
  }
}
