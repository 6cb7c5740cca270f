// `coalesce` (crates/agent-api/src/lib.rs): adjacent deltas of one kind
// become one. `Tokens` is what a transcript shows, character by character;
// merging keeps it, and is a canonical form for it.
module Transcript {
  import opened Prelude
  import opened Events

  predicate Joins(a: AgentEvent, b: AgentEvent) {
    (a.TextDelta? && b.TextDelta?) || (a.ThinkingDelta? && b.ThinkingDelta?)
  }

  function Push(out: seq<AgentEvent>, e: AgentEvent): seq<AgentEvent> {
    if out != [] && Joins(Last(out), e) then out[|out| - 1 := Last(out).(text := Last(out).text + e.text)]
    else out + [e]
  }

  function Merged(events: seq<AgentEvent>): seq<AgentEvent> {
    if events == [] then [] else Push(Merged(Init(events)), Last(events))
  }

  method Coalesce(events: seq<AgentEvent>) returns (out: seq<AgentEvent>)
    ensures out == Merged(events)
  {
    out := [];
    for i := 0 to |events|
      invariant out == Merged(events[..i])
    {
      assert Init(events[..i + 1]) == events[..i];
      var e := events[i];
      if out != [] && Last(out).TextDelta? && e.TextDelta? {
        out := out[|out| - 1 := TextDelta(Last(out).text + e.text)];
      } else if out != [] && Last(out).ThinkingDelta? && e.ThinkingDelta? {
        out := out[|out| - 1 := ThinkingDelta(Last(out).text + e.text)];
      } else {
        out := out + [e];
      }
    }
    assert events[..|events|] == events;
  }

  // ---- What is shown ----

  datatype Token = Said(c: char) | Thought(c: char) | Mark(e: AgentEvent)

  function Each(text: string, token: char -> Token): (tokens: seq<Token>)
    ensures |tokens| == |text| && forall i :: 0 <= i < |text| ==> tokens[i] == token(text[i])
  {
    if text == "" then [] else [token(text[0])] + Each(text[1..], token)
  }

  function Spelled(e: AgentEvent): (tokens: seq<Token>)
    ensures e.IsDelta() ==> |tokens| == |e.text|
  {
    match e
    case TextDelta(text) => Each(text, c => Said(c))
    case ThinkingDelta(text) => Each(text, c => Thought(c))
    case _ => [Mark(e)]
  }

  function Tokens(events: seq<AgentEvent>): seq<Token> {
    FlatMap(events, Spelled)
  }

  lemma TokensWith(events: seq<AgentEvent>, e: AgentEvent)
    ensures Tokens(events + [e]) == Tokens(events) + Spelled(e)
  {
    FlatMapConcat(events, [e], Spelled);
    assert Tokens([e]) == Spelled(e);
  }

  lemma SpelledJoined(x: AgentEvent, e: AgentEvent)
    requires Joins(x, e)
    ensures Spelled(x.(text := x.text + e.text)) == Spelled(x) + Spelled(e)
  {
  }

  lemma PushShows(out: seq<AgentEvent>, e: AgentEvent)
    ensures Tokens(Push(out, e)) == Tokens(out) + Spelled(e)
  {
    if out != [] && Joins(Last(out), e) {
      var start, x := Init(out), Last(out);
      assert out == start + [x] && Push(out, e) == start + [x.(text := x.text + e.text)];
      TokensWith(start, x);
      TokensWith(start, x.(text := x.text + e.text));
      SpelledJoined(x, e);
    } else {
      TokensWith(out, e);
    }
  }

  /** Merging keeps every non-delta event in place and every character said or thought between them. */
  lemma {:induction false} MergedShowsTheSame(events: seq<AgentEvent>)
    ensures Tokens(Merged(events)) == Tokens(events)
    decreases |events|
  {
    if events != [] {
      MergedShowsTheSame(Init(events));
      PushShows(Merged(Init(events)), Last(events));
      TokensWith(Init(events), Last(events));
      assert events == Init(events) + [Last(events)];
    }
  }

  // ---- Normal form ----

  predicate Normal(events: seq<AgentEvent>) {
    forall i :: 0 <= i < |events| - 1 ==> !Joins(events[i], events[i + 1])
  }

  lemma {:induction false} MergedIsNormal(events: seq<AgentEvent>)
    ensures Normal(Merged(events))
    decreases |events|
  {
    if events != [] {
      MergedIsNormal(Init(events));
    }
  }

  lemma {:induction false} NormalStays(events: seq<AgentEvent>)
    requires Normal(events)
    ensures Merged(events) == events
    decreases |events|
  {
    if events != [] {
      NormalStays(Init(events));
      assert events == Init(events) + [Last(events)];
    }
  }

  /** Merging what came so far first makes no difference to merging it with more. */
  lemma {:induction false} MergedThen(a: seq<AgentEvent>, b: seq<AgentEvent>)
    ensures Merged(Merged(a) + b) == Merged(a + b)
    decreases |b|
  {
    if b == [] {
      assert a + b == a && Merged(a) + b == Merged(a);
      MergedIsNormal(a);
      NormalStays(Merged(a));
    } else {
      MergedThen(a, Init(b));
      assert Init(a + b) == a + Init(b) && Init(Merged(a) + b) == Merged(a) + Init(b);
    }
  }

  lemma PushJoined(out: seq<AgentEvent>, x: AgentEvent, e: AgentEvent)
    requires Joins(x, e)
    ensures Push(Push(out, x), e) == Push(out, x.(text := x.text + e.text))
  {
    if out != [] && Joins(Last(out), x) {
      assert Last(out).text + x.text + e.text == Last(out).text + (x.text + e.text);
    }
  }

  lemma {:induction false} ThenMerged(a: seq<AgentEvent>, b: seq<AgentEvent>)
    ensures Merged(a + Merged(b)) == Merged(a + b)
    decreases |b|
  {
    if b != [] {
      var m, e := Merged(Init(b)), Last(b);
      ThenMerged(a, Init(b));
      assert Init(a + b) == a + Init(b);
      if m != [] && Joins(Last(m), e) {
        assert Init(a + m) == a + Init(m) && Last(a + m) == Last(m);
        assert Init(a + Push(m, e)) == a + Init(m);
        PushJoined(Merged(a + Init(m)), Last(m), e);
      } else {
        assert Init(a + Push(m, e)) == a + m;
      }
    }
  }

  /** However events are batched, merging batches and then the whole gives what merging the whole gives. */
  lemma BatchingNeverShows(a: seq<AgentEvent>, b: seq<AgentEvent>)
    ensures Merged(Merged(a) + Merged(b)) == Merged(a + b)
    ensures Merged(Merged(a)) == Merged(a)
  {
    MergedThen(a, Merged(b));
    ThenMerged(a, b);
    MergedIsNormal(a);
    NormalStays(Merged(a));
  }

  // ---- Canonical ----

  /** The stream parser drops empty deltas before they get here. */
  predicate NoEmptyDelta(events: seq<AgentEvent>) {
    forall e :: e in events && e.IsDelta() ==> e.text != []
  }

  lemma {:induction false} MergedHasNoEmptyDelta(events: seq<AgentEvent>)
    requires NoEmptyDelta(events)
    ensures NoEmptyDelta(Merged(events))
    decreases |events|
  {
    if events != [] {
      assert Last(events) in events;
      MergedHasNoEmptyDelta(Init(events));
    }
  }

  /** How the first event's tokens end: the next event's first token is of another kind. */
  lemma HeadEnds(x: seq<AgentEvent>)
    requires Normal(x) && NoEmptyDelta(x) && x != []
    ensures Tokens(x) == Spelled(x[0]) + Tokens(x[1..]) && Spelled(x[0]) != []
    ensures x[0].TextDelta? && Tokens(x[1..]) != [] ==> !Tokens(x[1..])[0].Said?
    ensures x[0].ThinkingDelta? && Tokens(x[1..]) != [] ==> !Tokens(x[1..])[0].Thought?
    ensures x[0].TextDelta? <==> Tokens(x)[0].Said?
    ensures x[0].ThinkingDelta? <==> Tokens(x)[0].Thought?
  {
    assert x[0] in x;
    if |x| > 1 {
      assert x[1] in x && !Joins(x[0], x[1]);
      assert x[1..][0] == x[1];
      assert Spelled(x[1]) != [];
    }
  }

  /** The first `n` tokens, and no more, are of `like`'s kind. */
  predicate HeadRun(tokens: seq<Token>, n: nat, like: Token) {
    && n <= |tokens|
    && (forall i :: 0 <= i < n ==> SameKind(tokens[i], like))
    && (n < |tokens| ==> !SameKind(tokens[n], like))
  }

  predicate SameKind(a: Token, b: Token) {
    (a.Said? && b.Said?) || (a.Thought? && b.Thought?)
  }

  lemma HeadIsRun(x: seq<AgentEvent>)
    requires Normal(x) && NoEmptyDelta(x) && x != [] && x[0].IsDelta()
    ensures HeadRun(Tokens(x), |x[0].text|, Tokens(x)[0])
  {
    HeadEnds(x);
  }

  lemma SameHead(x: seq<AgentEvent>, y: seq<AgentEvent>)
    requires Normal(x) && Normal(y) && NoEmptyDelta(x) && NoEmptyDelta(y)
    requires x != [] && y != [] && Tokens(x) == Tokens(y)
    ensures x[0] == y[0]
  {
    HeadEnds(x);
    HeadEnds(y);
    var t := Tokens(x);
    assert t[0] == Spelled(x[0])[0] && t[0] == Spelled(y[0])[0];
    if x[0].IsDelta() {
      HeadIsRun(x);
      HeadIsRun(y);
      var n := |x[0].text|;
      assert n == |y[0].text|;
      assert t[..n] == Spelled(x[0]) && t[..n] == Spelled(y[0]);
      SpelledSame(x[0], y[0]);
    }
  }

  lemma SpelledSame(a: AgentEvent, b: AgentEvent)
    requires a.IsDelta() && b.IsDelta() && a.text != [] && Spelled(a) == Spelled(b)
    ensures a == b
  {
    assert Spelled(a)[0] == Spelled(b)[0];
    forall i | 0 <= i < |a.text|
      ensures a.text[i] == b.text[i]
    {
      assert Spelled(a)[i] == Spelled(b)[i];
    }
    assert a.text == b.text;
  }

  lemma TailIsNormal(x: seq<AgentEvent>)
    requires Normal(x) && NoEmptyDelta(x) && x != []
    ensures Normal(x[1..]) && NoEmptyDelta(x[1..])
  {
    forall i | 0 <= i < |x[1..]| - 1
      ensures !Joins(x[1..][i], x[1..][i + 1])
    {
      assert !Joins(x[i + 1], x[i + 1 + 1]);
    }
  }

  lemma {:induction false} NormalIsCanonical(x: seq<AgentEvent>, y: seq<AgentEvent>)
    requires Normal(x) && Normal(y) && NoEmptyDelta(x) && NoEmptyDelta(y) && Tokens(x) == Tokens(y)
    ensures x == y
    decreases |x|
  {
    if x != [] {
      HeadEnds(x);
    }
    if y != [] {
      HeadEnds(y);
    }
    if x != [] && y != [] {
      SameHead(x, y);
      assert Tokens(x[1..]) == Tokens(x)[|Spelled(x[0])|..];
      assert Tokens(y[1..]) == Tokens(y)[|Spelled(y[0])|..];
      TailIsNormal(x);
      TailIsNormal(y);
      NormalIsCanonical(x[1..], y[1..]);
      assert x == [x[0]] + x[1..] && y == [y[0]] + y[1..];
    }
  }

  /** Two event lists whose merged lists have no empty delta merge to the same list exactly when they show the same. */
  lemma MergedIsCanonical(a: seq<AgentEvent>, b: seq<AgentEvent>)
    requires NoEmptyDelta(Merged(a)) && NoEmptyDelta(Merged(b))
    ensures Merged(a) == Merged(b) <==> Tokens(a) == Tokens(b)
  {
    MergedShowsTheSame(a);
    MergedShowsTheSame(b);
    MergedIsNormal(a);
    MergedIsNormal(b);
    if Tokens(a) == Tokens(b) {
      NormalIsCanonical(Merged(a), Merged(b));
    }
  }

  predicate ShowsNothing(e: AgentEvent) {
    e.IsDelta() && e.text == []
  }

  /** The events that show something. */
  function Shown(events: seq<AgentEvent>): seq<AgentEvent> {
    Filter(events, (e: AgentEvent) => !ShowsNothing(e))
  }

  lemma {:induction false} FilterShows(events: seq<AgentEvent>, keep: AgentEvent -> bool)
    requires forall e :: e in events && !keep(e) ==> ShowsNothing(e)
    ensures Tokens(Filter(events, keep)) == Tokens(events)
    decreases |events|
  {
    if events != [] {
      var before, e := Init(events), Last(events);
      assert e in events && events == before + [e] && forall x :: x in before ==> x in events;
      FilterShows(before, keep);
      TokensWith(before, e);
      if keep(e) {
        TokensWith(Filter(before, keep), e);
      } else {
        assert Tokens(before) + Spelled(e) == Tokens(before);
      }
    }
  }

  lemma ShownShowsTheSame(events: seq<AgentEvent>)
    ensures Tokens(Shown(events)) == Tokens(events) && NoEmptyDelta(Shown(events))
            && NoEmptyDelta(Merged(Shown(events)))
  {
    FilterShows(events, (e: AgentEvent) => !ShowsNothing(e));
    MergedHasNoEmptyDelta(Shown(events));
  }

  /** `a` merges to what every list showing the same merges to, among those whose merged list has no empty delta. */
  ghost predicate IsCanonical(a: seq<AgentEvent>) {
    forall b :: NoEmptyDelta(Merged(b)) && Tokens(b) == Tokens(a) ==> Merged(b) == Merged(a)
  }

  /** A merged list is the canonical one for what it shows exactly when it has no empty delta. */
  lemma CanonicalExactly(a: seq<AgentEvent>)
    ensures IsCanonical(a) <==> NoEmptyDelta(Merged(a))
  {
    if NoEmptyDelta(Merged(a)) {
      forall b | NoEmptyDelta(Merged(b)) && Tokens(b) == Tokens(a)
        ensures Merged(b) == Merged(a)
      {
        MergedIsCanonical(b, a);
      }
    }
    if IsCanonical(a) {
      ShownShowsTheSame(a);
      assert Merged(Shown(a)) == Merged(a);
    }
  }

  /** A delta that shows nothing and joins none is kept. */
  lemma AnEmptyDeltaIsKept()
    ensures Tokens([TextDelta("")]) == Tokens([]) && Merged([TextDelta("")]) != Merged([])
  {
    assert Merged([TextDelta("")]) == Push(Merged([]), TextDelta(""));
  }
}
