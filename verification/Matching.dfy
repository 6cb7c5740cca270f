// Matching AI drafts to the messages the user sent
// (crates/kaluta-core/src/analysis_match.rs).
//
// `MatchRecords` is the source's two loops: exact Message-ID matches in the
// order given, then guesses newest record first. `Stable` says, with no loop
// and no order of the records, what a matching must be; it has exactly one
// solution, and unless two drafts claim one message exactly, that solution is
// what the loops compute.
module Matching {
  import opened Prelude
  import opened EditDistance
  import opened Text

  const MATCH_WINDOW_MS: int := 14 * 24 * 60 * 60 * 1000
  const OPEN_DRAFT_MS: int := 24 * 60 * 60 * 1000
  const MIN_OVERLAP: real := 0.15
  const CLOUD_AGENT_PREFIX: string := "cloud:"

  datatype Kind = Reply | Forward | New

  datatype Method = SentDraft | ThreadNext | RecipientNext

  /** An AI composition still waiting for its sent message. */
  datatype Draft = Draft(
    id: int,
    createdAt: int,
    kind: Kind,
    draftId: Option<int>,
    threadId: Option<string>,
    to: seq<string>,
    cc: seq<string>,
    agent: Option<string>,
    aiText: Option<string>,
    rfc822: Option<string>)

  datatype Sent = Sent(
    messageId: string,
    threadId: string,
    rfc822: Option<string>,
    at: int,
    to: seq<string>,
    cc: seq<string>)

  datatype Outcome =
    | Matched(messageId: string, how: Method, sentText: string, distance: real)
    | Unmatched

  /** What one pass looks at besides the drafts: sent mail oldest first, the time, and the texts readable now. */
  datatype Mail = Mail(sent: seq<Sent>, now: int, text: string -> Option<string>, lex: Lexer)

  // ---- Overlap and distance ----

  function WordSet(text: string, lex: Lexer): set<string> {
    set w | w in Words(text, lex)
  }

  /** Shared words over all words (Jaccard). */
  function Overlap(a: string, b: string, lex: Lexer): real {
    var x, y := WordSet(a, lex), WordSet(b, lex);
    if x + y == {} then 1.0 else |x * y| as real / |x + y| as real
  }

  function DistanceOf(a: string, b: string, lex: Lexer): real {
    var x, y := Words(a, lex), Words(b, lex);
    if Max(|x|, |y|) == 0 then 0.0 else Lev(x, y) as real / Max(|x|, |y|) as real
  }

  method Distance(a: string, b: string, lex: Lexer) returns (d: real)
    ensures d == DistanceOf(a, b, lex)
  {
    var x, y := Words(a, lex), Words(b, lex);
    var longest := Max(|x|, |y|);
    if longest == 0 {
      return 0.0;
    }
    var edits := Count(x, y);
    d := edits as real / longest as real;
  }

  /** The distance is a fraction; nothing edited means nothing to overlook in the overlap gate. */
  lemma DistanceLaws(a: string, b: string, lex: Lexer)
    ensures 0.0 <= DistanceOf(a, b, lex) <= 1.0
    ensures DistanceOf(a, b, lex) == 0.0 <==> Words(a, lex) == Words(b, lex)
    ensures DistanceOf(a, b, lex) == DistanceOf(b, a, lex)
    ensures DistanceOf(a, b, lex) == 0.0 ==> Overlap(a, b, lex) == 1.0 >= MIN_OVERLAP
  {
    var x, y := Words(a, lex), Words(b, lex);
    LevBounds(x, y);
    LevZero(x, y);
    LevSymmetric(x, y);
    if Max(|x|, |y|) != 0 {
      FractionLaws(Lev(x, y), Max(|x|, |y|));
    }
    if x == y {
      assert WordSet(a, lex) * WordSet(b, lex) == WordSet(a, lex) + WordSet(b, lex);
    }
  }

  lemma FractionLaws(n: nat, d: nat)
    requires n <= d && d > 0
    ensures 0.0 <= n as real / d as real <= 1.0
    ensures n as real / d as real == 0.0 <==> n == 0
  {
  }

  // ---- Who may match what ----

  predicate IsReported(r: Draft) {
    r.draftId.None? && r.agent.Some? && CLOUD_AGENT_PREFIX <= r.agent.value
  }

  /** Sent messages by Message-ID; of two with one id, the later listed is kept. */
  function ByRfc822(sent: seq<Sent>): map<string, Sent> {
    if sent == [] then map[]
    else
      var earlier := ByRfc822(Init(sent));
      if Last(sent).rfc822.Some? then earlier[Last(sent).rfc822.value := Last(sent)] else earlier
  }

  predicate SentTo(s: Sent, people: seq<string>) {
    exists a :: a in s.to + s.cc && a in people
  }

  /** The messages `r` may be guessed to be, best first. */
  function Candidates(r: Draft, mail: Mail): seq<(Sent, Method)> {
    var open := r.draftId.Some? && mail.now - r.createdAt < OPEN_DRAFT_MS;
    if r.rfc822.Some? || open || IsReported(r) then []
    else
      var later := Filter(mail.sent, (s: Sent) => s.at > r.createdAt);
      ThreadCandidate(r, later) + RecipientCandidate(r, later)
  }

  function ThreadCandidate(r: Draft, later: seq<Sent>): seq<(Sent, Method)> {
    if r.kind.New? || r.threadId.None? then []
    else
      match First(later, (s: Sent) => s.threadId == r.threadId.value)
      case Some(next) => [(next, ThreadNext)]
      case None => []
  }

  function RecipientCandidate(r: Draft, later: seq<Sent>): seq<(Sent, Method)> {
    if r.kind.Reply? then []
    else
      match First(later, (s: Sent) => SentTo(s, r.to))
      case Some(next) => [(next, RecipientNext)]
      case None =>
        match First(later, (s: Sent) => SentTo(s, r.cc))
        case Some(next) => [(next, RecipientNext)]
        case None => []
  }

  function AiText(r: Draft): string {
    if r.aiText.Some? then r.aiText.value else ""
  }

  /** The sent message `r`'s own Message-ID names, if it can be read and is not in `used`. */
  function ExactHit(r: Draft, used: set<string>, mail: Mail): Option<Sent> {
    if r.rfc822.None? || r.rfc822.value !in ByRfc822(mail.sent) then None
    else
      var found := ByRfc822(mail.sent)[r.rfc822.value];
      if found.messageId in used || mail.text(found.messageId).None? then None else Some(found)
  }

  predicate CloseEnough(r: Draft, s: Sent, mail: Mail) {
    mail.text(s.messageId).Some? && Overlap(AiText(r), mail.text(s.messageId).value, mail.lex) >= MIN_OVERLAP
  }

  /** The best candidate that is free, readable and close enough. */
  function Choice(candidates: seq<(Sent, Method)>, r: Draft, used: set<string>, mail: Mail): Option<(Sent, Method)> {
    First(candidates, (c: (Sent, Method)) => c.0.messageId !in used && CloseEnough(r, c.0, mail))
  }

  function MatchTo(r: Draft, s: Sent, how: Method, mail: Mail): Outcome
    requires mail.text(s.messageId).Some?
  {
    var sentText := mail.text(s.messageId).value;
    Matched(s.messageId, how, sentText, DistanceOf(AiText(r), sentText, mail.lex))
  }

  predicate Expired(r: Draft, mail: Mail) {
    mail.now - r.createdAt > MATCH_WINDOW_MS
  }

  predicate Newer(q: Draft, r: Draft) {
    q.createdAt > r.createdAt || (q.createdAt == r.createdAt && q.id > r.id)
  }

  /** What `sort_by_key(Reverse((created_at, id)))` gives: newest first, equal keys in their old order. */
  function NewestFirst(drafts: seq<Draft>): seq<Draft> {
    if drafts == [] then [] else InsertByAge(drafts[0], NewestFirst(drafts[1..]))
  }

  function InsertByAge(r: Draft, sorted: seq<Draft>): seq<Draft> {
    if sorted == [] || !Newer(sorted[0], r) then [r] + sorted
    else [sorted[0]] + InsertByAge(r, sorted[1..])
  }

  // ---- The two loops, one draft at a time ----

  /** The loops' variables: messages taken, drafts matched exactly, results so far. */
  datatype Pass = Pass(used: set<string>, decided: set<int>, out: seq<(int, Outcome)>)

  function ExactStep(p: Pass, r: Draft, mail: Mail): Pass {
    match ExactHit(r, p.used, mail)
    case Some(s) => Pass(p.used + {s.messageId}, p.decided + {r.id}, p.out + [(r.id, MatchTo(r, s, SentDraft, mail))])
    case None => p
  }

  function ExactPass(drafts: seq<Draft>, used: set<string>, mail: Mail): Pass {
    if drafts == [] then Pass(used, {}, [])
    else ExactStep(ExactPass(Init(drafts), used, mail), Last(drafts), mail)
  }

  function GuessStep(p: Pass, r: Draft, mail: Mail): Pass {
    match Choice(Candidates(r, mail), r, p.used, mail)
    case Some(c) => p.(used := p.used + {c.0.messageId}, out := p.out + [(r.id, MatchTo(r, c.0, c.1, mail))])
    case None => if Expired(r, mail) then p.(out := p.out + [(r.id, Unmatched)]) else p
  }

  function GuessPass(p: Pass, rest: seq<Draft>, mail: Mail): Pass {
    if rest == [] then p
    else GuessStep(GuessPass(p, Init(rest), mail), Last(rest), mail)
  }

  function Rest(drafts: seq<Draft>, exact: Pass): seq<Draft> {
    NewestFirst(Filter(drafts, (r: Draft) => r.id !in exact.decided))
  }

  function Results(waiting: seq<Draft>, used: set<string>, mail: Mail): Pass {
    var exact := ExactPass(waiting, used, mail);
    GuessPass(exact, Rest(waiting, exact), mail)
  }

  /** The inner loop: candidates in turn, until one is free, readable and close enough. */
  method FirstCloseEnough(candidates: seq<(Sent, Method)>, r: Draft, used: set<string>, mail: Mail)
    returns (choice: Option<(Sent, Method)>)
    ensures choice == Choice(candidates, r, used, mail)
  {
    for k := 0 to |candidates|
      invariant Choice(candidates, r, used, mail) == Choice(candidates[k..], r, used, mail)
    {
      var (candidate, how) := candidates[k];
      assert candidates[k..][1..] == candidates[k + 1..];
      if candidate.messageId !in used && CloseEnough(r, candidate, mail) {
        return Some((candidate, how));
      }
    }
    return None;
  }

  /** Drafts that name their message, in the order given. */
  method MatchExactly(waiting: seq<Draft>, already: set<string>, mail: Mail)
    returns (used: set<string>, decided: set<int>, out: seq<(int, Outcome)>)
    ensures Pass(used, decided, out) == ExactPass(waiting, already, mail)
  {
    used, decided, out := already, {}, [];
    var byRfc822 := ByRfc822(mail.sent);
    for i := 0 to |waiting|
      invariant Pass(used, decided, out) == ExactPass(waiting[..i], already, mail)
    {
      var r := waiting[i];
      assert Init(waiting[..i + 1]) == waiting[..i];
      if r.rfc822.None? || r.rfc822.value !in byRfc822 {
        continue;
      }
      var found := byRfc822[r.rfc822.value];
      if found.messageId in used {
        continue;
      }
      var readable := mail.text(found.messageId);
      if readable.None? {
        continue;
      }
      used := used + {found.messageId};
      decided := decided + {r.id};
      var d := Distance(AiText(r), readable.value, mail.lex);
      out := out + [(r.id, Matched(found.messageId, SentDraft, readable.value, d))];
    }
    assert waiting[..|waiting|] == waiting;
  }

  method MatchRecords(waiting: seq<Draft>, already: set<string>, mail: Mail) returns (out: seq<(int, Outcome)>)
    ensures out == Results(waiting, already, mail).out
  {
    var used, decided;
    used, decided, out := MatchExactly(waiting, already, mail);
    ghost var exact := Pass(used, decided, out);
    var rest := NewestFirst(Filter(waiting, (r: Draft) => r.id !in decided));
    for i := 0 to |rest|
      invariant Pass(used, decided, out) == GuessPass(exact, rest[..i], mail)
    {
      var r := rest[i];
      assert Init(rest[..i + 1]) == rest[..i];
      var choice := FirstCloseEnough(Candidates(r, mail), r, used, mail);
      if choice.Some? {
        var sentText := mail.text(choice.value.0.messageId).value;
        used := used + {choice.value.0.messageId};
        var d := Distance(AiText(r), sentText, mail.lex);
        out := out + [(r.id, Matched(choice.value.0.messageId, choice.value.1, sentText, d))];
      } else if Expired(r, mail) {
        out := out + [(r.id, Unmatched)];
      }
    }
    assert rest[..|rest|] == rest;
  }
}
