// Which message a draft is guessed to be, by the drafts and the mail alone.
module MatchingGuesses {
  import opened Prelude
  import opened EditDistance
  import opened Text
  import opened Matching
  import opened MatchingLaws
  import opened MatchingStable

  // ---- What a guess may be ----

  /** Still open: a draft in the app, for a day. */
  predicate StillOpen(r: Draft, now: int) {
    r.draftId.Some? && now - r.createdAt < 86_400_000
  }

  /** Reported by an agent in the cloud, not drafted in the app. */
  predicate Reported(r: Draft) {
    r.draftId.None? && r.agent.Some? && "cloud:" <= r.agent.value
  }

  predicate MayBeGuessed(r: Draft, now: int) {
    r.rfc822.None? && !StillOpen(r, now) && !Reported(r)
  }

  predicate GoesTo(s: Sent, people: seq<string>) {
    exists a :: a in people && (a in s.to || a in s.cc)
  }

  /** Sent after the draft was made, in its thread, and the first such. */
  predicate IsNextInThread(r: Draft, sent: seq<Sent>, i: nat) {
    && i < |sent| && sent[i].at > r.createdAt && r.threadId == Some(sent[i].threadId)
    && forall j :: 0 <= j < i && sent[j].at > r.createdAt ==> r.threadId != Some(sent[j].threadId)
  }

  /** Sent after the draft was made, to one of these people, and the first such. */
  predicate IsNextTo(r: Draft, people: seq<string>, sent: seq<Sent>, i: nat) {
    && i < |sent| && sent[i].at > r.createdAt && GoesTo(sent[i], people)
    && forall j :: 0 <= j < i && sent[j].at > r.createdAt ==> !GoesTo(sent[j], people)
  }

  predicate NoneGoesTo(r: Draft, people: seq<string>, sent: seq<Sent>) {
    forall s :: s in sent && s.at > r.createdAt ==> !GoesTo(s, people)
  }

  /** A reply or forward is guessed to be the next in its thread, a new mail or forward the next to its people. */
  predicate IsNext(r: Draft, mail: Mail, i: nat, how: Method) {
    && MayBeGuessed(r, mail.now)
    && match how
       case SentDraft => false
       case ThreadNext => (r.kind.Reply? || r.kind.Forward?) && IsNextInThread(r, mail.sent, i)
       case RecipientNext =>
         && (r.kind.New? || r.kind.Forward?)
         && (|| IsNextTo(r, r.to, mail.sent, i)
             || (NoneGoesTo(r, r.to, mail.sent) && IsNextTo(r, r.cc, mail.sent, i)))
  }

  // ---- And that is what is looked at ----

  /** The first element that is both. */
  predicate IsFirst<T(!new)>(s: seq<T>, f: T -> bool, p: T -> bool, i: nat) {
    i < |s| && f(s[i]) && p(s[i]) && forall j :: 0 <= j < i && f(s[j]) ==> !p(s[j])
  }

  lemma {:induction false} FirstFront<T(!new)>(s: seq<T>, x: T, p: T -> bool)
    ensures First(s + [x], p) == if First(s, p).Some? then First(s, p) else if p(x) then Some(x) else None
    decreases |s|
  {
    if s == [] {
      assert ([] + [x])[1..] == [];
      assert First<T>([], p) == None;
    } else {
      assert (s + [x])[1..] == s[1..] + [x];
      FirstFront(s[1..], x, p);
    }
  }

  lemma {:induction false} FirstOfFiltered<T(!new)>(s: seq<T>, f: T -> bool, p: T -> bool)
    ensures First(Filter(s, f), p).None? <==> forall i :: 0 <= i < |s| && f(s[i]) ==> !p(s[i])
    ensures forall i: nat :: IsFirst(s, f, p, i) ==> First(Filter(s, f), p) == Some(s[i])
    decreases |s|
  {
    if s != [] {
      var before, last := Init(s), Last(s);
      FirstOfFiltered(before, f, p);
      FirstFront(Filter(before, f), last, p);
      assert forall i :: 0 <= i < |before| ==> s[i] == before[i];
      forall i: nat | IsFirst(s, f, p, i)
        ensures First(Filter(s, f), p) == Some(s[i])
      {
        if i < |before| {
          assert IsFirst(before, f, p, i);
        } else {
          assert forall j :: 0 <= j < |before| && f(before[j]) ==> !p(before[j]);
        }
      }
    }
  }

  lemma {:induction false} FirstIsSomewhere<T(!new)>(s: seq<T>, f: T -> bool, p: T -> bool) returns (i: nat)
    requires exists x :: x in s && f(x) && p(x)
    ensures IsFirst(s, f, p, i)
    decreases |s|
  {
    if exists x :: x in Init(s) && f(x) && p(x) {
      i := FirstIsSomewhere(Init(s), f, p);
      assert forall j :: 0 <= j <= i ==> s[j] == Init(s)[j];
    } else {
      i := |s| - 1;
      assert forall j :: 0 <= j < i ==> s[j] == Init(s)[j] && s[j] in Init(s);
      assert s == Init(s) + [Last(s)];
    }
  }

  lemma ThreadCandidateIs(r: Draft, sent: seq<Sent>)
    ensures var c := ThreadCandidate(r, Filter(sent, (s: Sent) => s.at > r.createdAt));
            && (c == [] || (|c| == 1 && c[0].1.ThreadNext?))
            && (c == [] <==> r.kind.New? || forall i: nat :: !IsNextInThread(r, sent, i))
            && forall i: nat :: !r.kind.New? && IsNextInThread(r, sent, i) ==> c == [(sent[i], ThreadNext)]
  {
    var f := (s: Sent) => s.at > r.createdAt;
    if !r.kind.New? && r.threadId.Some? {
      var p := (s: Sent) => s.threadId == r.threadId.value;
      FirstOfFiltered(sent, f, p);
      forall i: nat | IsNextInThread(r, sent, i)
        ensures IsFirst(sent, f, p, i)
      {
      }
      if First(Filter(sent, f), p).Some? {
        var i := FirstIsSomewhere(sent, f, p);
        assert IsNextInThread(r, sent, i);
      }
    }
  }

  /** The first of the mail sent since that goes to these people. */
  lemma NextToIs(r: Draft, people: seq<string>, sent: seq<Sent>)
    ensures var c := First(Filter(sent, (s: Sent) => s.at > r.createdAt), (s: Sent) => SentTo(s, people));
            && (c.None? <==> NoneGoesTo(r, people, sent))
            && (c.None? <==> forall i: nat :: !IsNextTo(r, people, sent, i))
            && forall i: nat :: IsNextTo(r, people, sent, i) ==> c == Some(sent[i])
  {
    var f, p := (s: Sent) => s.at > r.createdAt, (s: Sent) => SentTo(s, people);
    assert forall s :: SentTo(s, people) <==> GoesTo(s, people);
    FirstOfFiltered(sent, f, p);
    forall i: nat | IsNextTo(r, people, sent, i)
      ensures IsFirst(sent, f, p, i)
    {
    }
    if First(Filter(sent, f), p).Some? {
      var i := FirstIsSomewhere(sent, f, p);
      assert IsNextTo(r, people, sent, i);
    } else {
      assert forall s :: s in sent && s.at > r.createdAt ==> !GoesTo(s, people);
    }
  }

  lemma RecipientCandidateIs(r: Draft, sent: seq<Sent>)
    ensures var c := RecipientCandidate(r, Filter(sent, (s: Sent) => s.at > r.createdAt));
            && (c == [] || (|c| == 1 && c[0].1.RecipientNext?))
            && (c == [] <==> r.kind.Reply? || (NoneGoesTo(r, r.to, sent) && NoneGoesTo(r, r.cc, sent)))
            && (forall i: nat :: !r.kind.Reply? && IsNextTo(r, r.to, sent, i) ==> c == [(sent[i], RecipientNext)])
            && forall i: nat :: !r.kind.Reply? && NoneGoesTo(r, r.to, sent) && IsNextTo(r, r.cc, sent, i)
                 ==> c == [(sent[i], RecipientNext)]
  {
    NextToIs(r, r.to, sent);
    NextToIs(r, r.cc, sent);
  }

  lemma NextExists(r: Draft, people: seq<string>, sent: seq<Sent>) returns (i: nat)
    requires !NoneGoesTo(r, people, sent)
    ensures IsNextTo(r, people, sent, i)
  {
    i := FirstIsSomewhere(sent, (s: Sent) => s.at > r.createdAt, (s: Sent) => GoesTo(s, people));
  }

  /** Everything a draft may be guessed to be, the thread's next before the recipients' next, and nothing else. */
  lemma CandidateIsNext(r: Draft, mail: Mail, k: nat) returns (i: nat)
    requires k < |Candidates(r, mail)|
    ensures IsNext(r, mail, i, Candidates(r, mail)[k].1) && Candidates(r, mail)[k].0 == mail.sent[i]
    ensures k > 0 ==> Candidates(r, mail)[0].1.ThreadNext? && Candidates(r, mail)[k].1.RecipientNext?
  {
    ThreadCandidateIs(r, mail.sent);
    RecipientCandidateIs(r, mail.sent);
    if Candidates(r, mail)[k].1.ThreadNext? {
      i :| IsNextInThread(r, mail.sent, i);
    } else if !NoneGoesTo(r, r.to, mail.sent) {
      i := NextExists(r, r.to, mail.sent);
    } else {
      i := NextExists(r, r.cc, mail.sent);
    }
  }

  lemma NextIsCandidate(r: Draft, mail: Mail, i: nat, how: Method) returns (k: nat)
    requires IsNext(r, mail, i, how)
    ensures k < |Candidates(r, mail)| && Candidates(r, mail)[k] == (mail.sent[i], how)
    ensures how.ThreadNext? ==> k == 0
  {
    ThreadCandidateIs(r, mail.sent);
    RecipientCandidateIs(r, mail.sent);
    k := if how.RecipientNext? && |Candidates(r, mail)| > 1 then 1 else 0;
  }

  // ---- How near, and how far ----

  /** Of the words of either, at least three in twenty are shared; or there are none. */
  predicate SharesEnough(a: string, b: string, lex: Lexer) {
    var x, y := (set w | w in Words(a, lex)), (set w | w in Words(b, lex));
    x + y == {} || 20 * |x * y| >= 3 * |x + y|
  }

  lemma Quotient(n: real, d: real) returns (q: real)
    requires d > 0.0
    ensures q == n / d && q * d == n
  {
    q := n / d;
  }

  lemma TimesOrder(x: real, y: real, d: real)
    requires d > 0.0
    ensures x >= y <==> x * d >= y * d
  {
  }

  lemma ThreeInTwenty(n: nat, d: nat)
    requires d > 0
    ensures n as real / d as real >= 0.15 <==> 20 * n >= 3 * d
  {
    var q := Quotient(n as real, d as real);
    TimesOrder(q, 0.15, d as real);
    assert 0.15 * d as real <= n as real <==> (3 * d) as real <= (20 * n) as real;
  }

  lemma OverlapIs(a: string, b: string, lex: Lexer)
    ensures Overlap(a, b, lex) >= MIN_OVERLAP <==> SharesEnough(a, b, lex)
  {
    var x, y := WordSet(a, lex), WordSet(b, lex);
    if x + y != {} {
      ThreeInTwenty(|x * y|, |x + y|);
    }
  }

  predicate IsShare(q: real, n: nat, of: nat) {
    if of == 0 then q == 0.0 else q * of as real == n as real
  }

  lemma ShareIs(n: nat, of: nat)
    ensures IsShare(if of == 0 then 0.0 else n as real / of as real, n, of)
  {
    if of != 0 {
      var _ := Quotient(n as real, of as real);
    }
  }

  /** The distance is the word edits over the longer text's words. */
  predicate IsDistance(d: real, a: string, b: string, lex: Lexer) {
    IsShare(d, Lev(Words(a, lex), Words(b, lex)), Max(|Words(a, lex)|, |Words(b, lex)|))
  }

  lemma DistanceIs(a: string, b: string, lex: Lexer)
    ensures IsDistance(DistanceOf(a, b, lex), a, b, lex)
  {
    ShareIs(Lev(Words(a, lex), Words(b, lex)), Max(|Words(a, lex)|, |Words(b, lex)|));
  }

  // ---- What the loops return ----

  /** The latest listed message with the draft's own Message-ID. */
  predicate IsNamed(r: Draft, sent: seq<Sent>, i: nat) {
    && i < |sent| && r.rfc822.Some? && sent[i].rfc822 == r.rfc822
    && forall j :: i < j < |sent| ==> sent[j].rfc822 != r.rfc822
  }

  function Written(r: Draft): string {
    match r.aiText
    case Some(text) => text
    case None => ""
  }

  /** The outcome is a readable message that may be the draft's, with its text and how far it moved from the draft. */
  ghost predicate IsMatchOf(r: Draft, o: Outcome, mail: Mail, i: nat) {
    && o.Matched? && i < |mail.sent| && o.messageId == mail.sent[i].messageId
    && mail.text(o.messageId) == Some(o.sentText) && IsDistance(o.distance, Written(r), o.sentText, mail.lex)
    && if o.how.SentDraft? then IsNamed(r, mail.sent, i)
       else IsNext(r, mail, i, o.how) && SharesEnough(Written(r), o.sentText, mail.lex)
  }

  ghost predicate IsOutcomeOf(r: Draft, o: Outcome, mail: Mail) {
    if o.Unmatched? then mail.now - r.createdAt > 1_209_600_000
    else exists i: nat :: IsMatchOf(r, o, mail, i)
  }

  lemma {:induction false} NamedIs(sent: seq<Sent>, id: string) returns (i: nat)
    requires id in ByRfc822(sent)
    ensures i < |sent| && sent[i] == ByRfc822(sent)[id] && sent[i].rfc822 == Some(id)
    ensures forall j :: i < j < |sent| ==> sent[j].rfc822 != Some(id)
    decreases |sent|
  {
    if Last(sent).rfc822 == Some(id) {
      i := |sent| - 1;
    } else {
      i := NamedIs(Init(sent), id);
      assert forall j :: 0 <= j < |sent| - 1 ==> sent[j] == Init(sent)[j];
    }
  }

  lemma MatchIs(r: Draft, s: Sent, how: Method, mail: Mail, i: nat)
    requires i < |mail.sent| && mail.sent[i] == s && mail.text(s.messageId).Some?
    requires if how.SentDraft? then IsNamed(r, mail.sent, i)
             else IsNext(r, mail, i, how) && CloseEnough(r, s, mail)
    ensures IsOutcomeOf(r, MatchTo(r, s, how, mail), mail)
  {
    DistanceIs(Written(r), mail.text(s.messageId).value, mail.lex);
    OverlapIs(Written(r), mail.text(s.messageId).value, mail.lex);
    assert IsMatchOf(r, MatchTo(r, s, how, mail), mail, i);
  }

  ghost predicate IsForOne(drafts: seq<Draft>, o: (int, Outcome), mail: Mail) {
    exists r :: r in drafts && r.id == o.0 && IsOutcomeOf(r, o.1, mail)
  }

  lemma {:induction false} ExactIsForOne(drafts: seq<Draft>, used: set<string>, mail: Mail, o: (int, Outcome))
    requires o in ExactPass(drafts, used, mail).out
    ensures IsForOne(drafts, o, mail)
    decreases |drafts|
  {
    var r, before := Last(drafts), ExactPass(Init(drafts), used, mail);
    assert drafts == Init(drafts) + [r];
    if o in before.out {
      ExactIsForOne(Init(drafts), used, mail, o);
      var q :| q in Init(drafts) && q.id == o.0 && IsOutcomeOf(q, o.1, mail);
      assert q in drafts;
    } else {
      var i := NamedIs(mail.sent, r.rfc822.value);
      MatchIs(r, mail.sent[i], SentDraft, mail, i);
      assert r in drafts && IsOutcomeOf(r, o.1, mail);
    }
  }

  lemma {:induction false} ChoiceIsOne(candidates: seq<(Sent, Method)>, r: Draft, used: set<string>, mail: Mail)
    returns (k: nat)
    requires Choice(candidates, r, used, mail).Some?
    ensures k < |candidates| && Choice(candidates, r, used, mail) == Some(candidates[k])
    decreases |candidates|
  {
    if candidates[0].0.messageId !in used && CloseEnough(r, candidates[0].0, mail) {
      k := 0;
    } else {
      k := ChoiceIsOne(candidates[1..], r, used, mail);
      k := k + 1;
    }
  }

  lemma StepIsForOne(p: Pass, r: Draft, mail: Mail, o: (int, Outcome))
    requires o in GuessStep(p, r, mail).out && o !in p.out
    ensures r.id == o.0 && IsOutcomeOf(r, o.1, mail)
  {
    var choice := Choice(Candidates(r, mail), r, p.used, mail);
    if choice.Some? {
      var k := ChoiceIsOne(Candidates(r, mail), r, p.used, mail);
      var i := CandidateIsNext(r, mail, k);
      MatchIs(r, choice.value.0, choice.value.1, mail, i);
    }
  }

  lemma {:induction false} GuessIsForOne(p: Pass, rest: seq<Draft>, mail: Mail, o: (int, Outcome))
    requires o in GuessPass(p, rest, mail).out && o !in p.out
    ensures IsForOne(rest, o, mail)
    decreases |rest|
  {
    var r, before := Last(rest), GuessPass(p, Init(rest), mail);
    assert rest == Init(rest) + [r];
    if o in before.out {
      GuessIsForOne(p, Init(rest), mail, o);
      var q :| q in Init(rest) && q.id == o.0 && IsOutcomeOf(q, o.1, mail);
      assert q in rest;
    } else {
      StepIsForOne(before, r, mail, o);
      assert r in rest;
    }
  }

  /**
   * Whatever is returned is a draft's: the message its own Message-ID names, or one that may be
   * guessed, close enough, with its text and distance; or that it has waited two weeks.
   */
  lemma OutcomesAreRight(waiting: seq<Draft>, used: set<string>, mail: Mail, o: (int, Outcome))
    requires o in Results(waiting, used, mail).out
    ensures IsForOne(waiting, o, mail)
  {
    var exact := ExactPass(waiting, used, mail);
    if o in exact.out {
      ExactIsForOne(waiting, used, mail, o);
    } else {
      GuessIsForOne(exact, Rest(waiting, exact), mail, o);
      NewestFirstSorts(Filter(waiting, (r: Draft) => r.id !in exact.decided));
      var r :| r in Rest(waiting, exact) && r.id == o.0 && IsOutcomeOf(r, o.1, mail);
      assert r in waiting;
    }
  }

  // ---- And nothing that may be is passed over ----

  predicate IsReadable(r: Draft, s: Sent, mail: Mail) {
    match mail.text(s.messageId)
    case Some(text) => SharesEnough(Written(r), text, mail.lex)
    case None => false
  }

  /** The draft is matched to the message, or by its thread where that was by its recipients. */
  ghost predicate IsGiven(r: Draft, mail: Mail, i: nat, how: Method, out: seq<(int, Outcome)>)
    requires i < |mail.sent|
  {
    exists o ::
      && o in out && o.0 == r.id && o.1.Matched?
      && (|| (o.1.messageId == mail.sent[i].messageId && o.1.how == how)
          || (how.RecipientNext? && o.1.how.ThreadNext?))
  }

  predicate WrittenLater(q: Draft, r: Draft) {
    q.createdAt > r.createdAt || (q.createdAt == r.createdAt && q.id > r.id)
  }

  /** The message goes to a draft that names it, or is a guess for one written later. */
  predicate GoesElsewhere(r: Draft, message: string, waiting: seq<Draft>, out: seq<(int, Outcome)>) {
    exists o ::
      && o in out && o.1.Matched? && o.1.messageId == message
      && (o.1.how.SentDraft? || exists q :: q in waiting && q.id == o.0 && WrittenLater(q, r))
  }

  lemma GoneIsElsewhere(r: Draft, message: string, waiting: seq<Draft>, out: seq<(int, Outcome)>)
    requires GoneBefore(r, message, waiting, out)
    ensures GoesElsewhere(r, message, waiting, out)
  {
    var o :| o in out && o.1.Matched? && o.1.messageId == message && IsBefore(o, r, waiting);
    if !o.1.how.SentDraft? {
      var q :| q in waiting && q.id == o.0 && Newer(q, r);
      assert WrittenLater(q, r);
    }
  }

  /**
   * A message that may be a draft's, is readable and close enough is the draft's, or the next
   * in its thread is; unless it was in use before, or goes to a draft that names it or to one
   * written later.
   */
  lemma NextIsGiven(waiting: seq<Draft>, used: set<string>, mail: Mail, r: Draft, i: nat, how: Method)
    requires DistinctIds(waiting) && r in waiting && IsNext(r, mail, i, how) && IsReadable(r, mail.sent[i], mail)
    ensures var out, message := Results(waiting, used, mail).out, mail.sent[i].messageId;
            message in used || GoesElsewhere(r, message, waiting, out) || IsGiven(r, mail, i, how, out)
  {
    var out, message := Results(waiting, used, mail).out, mail.sent[i].messageId;
    var k := NextIsCandidate(r, mail, i, how);
    OverlapIs(Written(r), mail.text(message).value, mail.lex);
    NoBlockingPair(waiting, used, mail, r, k);
    if message !in used {
      if GoneBefore(r, message, waiting, out) {
        GoneIsElsewhere(r, message, waiting, out);
      } else {
        if k > 0 {
          ThreadFirst(r, mail, k);
        }
        BestIsGiven(r, mail, i, how, Candidates(r, mail), k, out);
      }
    }
  }

  lemma BestIsGiven(r: Draft, mail: Mail, i: nat, how: Method, candidates: seq<(Sent, Method)>, k: nat,
                    out: seq<(int, Outcome)>)
    requires i < |mail.sent| && k < |candidates| && candidates[k] == (mail.sent[i], how)
    requires k > 0 ==> k == 1 && candidates[0].1.ThreadNext? && how.RecipientNext?
    requires exists j :: 0 <= j <= k && mail.text(candidates[j].0.messageId).Some?
                         && (r.id, MatchTo(r, candidates[j].0, candidates[j].1, mail)) in out
    ensures IsGiven(r, mail, i, how, out)
  {
    var j :| 0 <= j <= k && mail.text(candidates[j].0.messageId).Some?
          && (r.id, MatchTo(r, candidates[j].0, candidates[j].1, mail)) in out;
    IsGivenBy(r, candidates[j].0, candidates[j].1, mail, i, how, out);
  }

  lemma ThreadFirst(r: Draft, mail: Mail, k: nat)
    requires 0 < k < |Candidates(r, mail)|
    ensures k == 1 && Candidates(r, mail)[0].1.ThreadNext? && Candidates(r, mail)[1].1.RecipientNext?
  {
  }

  lemma IsGivenBy(r: Draft, s: Sent, found: Method, mail: Mail, i: nat, how: Method, out: seq<(int, Outcome)>)
    requires i < |mail.sent| && mail.text(s.messageId).Some? && (r.id, MatchTo(r, s, found, mail)) in out
    requires (s == mail.sent[i] && found == how) || (found.ThreadNext? && how.RecipientNext?)
    ensures IsGiven(r, mail, i, how, out)
  {
    var o := (r.id, MatchTo(r, s, found, mail));
    assert o in out && o.0 == r.id && o.1.Matched? && o.1.how == found;
  }

  /** A readable message goes to the first draft listed that names it, unless it was in use before. */
  lemma NamedIsGiven(waiting: seq<Draft>, used: set<string>, mail: Mail, n: nat, i: nat)
    requires n < |waiting| && IsNamed(waiting[n], mail.sent, i)
    requires mail.text(mail.sent[i].messageId).Some? && mail.sent[i].messageId !in used
    requires forall m, j: nat :: 0 <= m < n && IsNamed(waiting[m], mail.sent, j)
               ==> mail.sent[j].messageId != mail.sent[i].messageId
    ensures exists o :: o in Results(waiting, used, mail).out && o.0 == waiting[n].id
                        && o.1.Matched? && o.1.how.SentDraft? && o.1.messageId == mail.sent[i].messageId
  {
    var r, s, exact := waiting[n], mail.sent[i], ExactPass(waiting, used, mail);
    var before := ExactPass(waiting[..n], used, mail);
    NamedFinds(mail.sent, r, i);
    ExactSound(waiting[..n], used, mail);
    if s.messageId in before.used {
      var o :| o in before.out && o.1.Matched? && o.1.messageId == s.messageId;
      ExactNames(waiting[..n], used, mail, o);
      assert false;
    }
    var o := (r.id, MatchTo(r, s, SentDraft, mail));
    assert Init(waiting[..n + 1]) == waiting[..n] && Last(waiting[..n + 1]) == r;
    assert o in ExactPass(waiting[..n + 1], used, mail).out;
    ExactStays(waiting, used, mail, n + 1, o);
    GuessGrows(exact, Rest(waiting, exact), mail);
    InPrefix(exact.out, Results(waiting, used, mail).out, o);
  }

  lemma {:induction false} NamedFinds(sent: seq<Sent>, r: Draft, i: nat)
    requires IsNamed(r, sent, i)
    ensures r.rfc822.value in ByRfc822(sent) && ByRfc822(sent)[r.rfc822.value] == sent[i]
    decreases |sent|
  {
    if i < |sent| - 1 {
      assert sent[|sent| - 1].rfc822 != r.rfc822;
      NamedFinds(Init(sent), r, i);
    }
  }

  lemma {:induction false} ExactNames(drafts: seq<Draft>, used: set<string>, mail: Mail, o: (int, Outcome))
    requires o in ExactPass(drafts, used, mail).out && o.1.Matched?
    ensures exists m: nat, j: nat :: m < |drafts| && IsNamed(drafts[m], mail.sent, j)
                                    && mail.sent[j].messageId == o.1.messageId
    decreases |drafts|
  {
    var r, before := Last(drafts), ExactPass(Init(drafts), used, mail);
    if o in before.out {
      ExactNames(Init(drafts), used, mail, o);
      var m: nat, j: nat :| m < |Init(drafts)| && IsNamed(Init(drafts)[m], mail.sent, j)
                            && mail.sent[j].messageId == o.1.messageId;
      assert drafts[m] == Init(drafts)[m];
    } else {
      var j := NamedIs(mail.sent, r.rfc822.value);
      assert IsNamed(drafts[|drafts| - 1], mail.sent, j);
    }
  }

  lemma {:induction false} ExactStays(drafts: seq<Draft>, used: set<string>, mail: Mail, n: nat, o: (int, Outcome))
    requires n <= |drafts| && o in ExactPass(drafts[..n], used, mail).out
    ensures o in ExactPass(drafts, used, mail).out
    decreases |drafts|
  {
    if n < |drafts| {
      assert Init(drafts)[..n] == drafts[..n];
      ExactStays(Init(drafts), used, mail, n, o);
    } else {
      assert drafts[..n] == drafts;
    }
  }

  /** A draft is given up exactly when it has waited two weeks and no message is found for it. */
  lemma UnmatchedExactly(waiting: seq<Draft>, used: set<string>, mail: Mail, r: Draft)
    requires DistinctIds(waiting) && r in waiting
    ensures var out := Results(waiting, used, mail).out;
            (r.id, Unmatched) in out
            <==> mail.now - r.createdAt > 1_209_600_000 && forall o :: o in out && o.0 == r.id ==> o.1.Unmatched?
  {
    var out := Results(waiting, used, mail).out;
    if (r.id, Unmatched) in out {
      UnmatchedIsExpired(waiting, used, mail, r);
    } else if mail.now - r.createdAt > 1_209_600_000 {
      ExpiredIsDone(waiting, used, mail, r);
      var o :| o in out && o.0 == r.id;
      assert o == (r.id, o.1);
    }
  }

  lemma UnmatchedIsExpired(waiting: seq<Draft>, used: set<string>, mail: Mail, r: Draft)
    requires DistinctIds(waiting) && r in waiting && (r.id, Unmatched) in Results(waiting, used, mail).out
    ensures mail.now - r.createdAt > 1_209_600_000
    ensures forall o :: o in Results(waiting, used, mail).out && o.0 == r.id ==> o.1.Unmatched?
  {
    var out := Results(waiting, used, mail).out;
    OutcomesAreRight(waiting, used, mail, (r.id, Unmatched));
    SameId(waiting, r, mail);
    OneOutcomeEach(waiting, used, mail);
    forall o | o in out && o.0 == r.id
      ensures o.1.Unmatched?
    {
      SameResult(out, o, (r.id, Unmatched));
    }
  }

  lemma SameId(waiting: seq<Draft>, r: Draft, mail: Mail)
    requires DistinctIds(waiting) && r in waiting && IsForOne(waiting, (r.id, Unmatched), mail)
    ensures mail.now - r.createdAt > 1_209_600_000
  {
    var q :| q in waiting && q.id == r.id && IsOutcomeOf(q, Unmatched, mail);
    assert q == r;
  }

  lemma ExpiredIsDone(waiting: seq<Draft>, used: set<string>, mail: Mail, r: Draft)
    requires r in waiting && mail.now - r.createdAt > 1_209_600_000
    ensures exists o :: o in Results(waiting, used, mail).out && o.0 == r.id
  {
    var exact := ExactPass(waiting, used, mail);
    ExactGrows(waiting, used, mail);
    GuessGrows(exact, Rest(waiting, exact), mail);
    if r.id !in exact.decided {
      NewestFirstSorts(Filter(waiting, (q: Draft) => q.id !in exact.decided));
      GuessMissesStay(exact, Rest(waiting, exact), mail);
    }
    assert r.id in Ids(Results(waiting, used, mail).out);
  }
}
