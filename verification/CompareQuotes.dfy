// When an item of an agent's answer is evidence, read off the JSON and the texts themselves.
module CompareQuotes {
  import opened Prelude
  import opened Text
  import opened Json
  import opened Compare

  /** The pair of the batch with this id; of two, the one listed later. */
  predicate IsPair(pairs: seq<Pair>, id: int, i: nat) {
    i < |pairs| && pairs[i].id == id && forall j :: i < j < |pairs| ==> pairs[j].id != id
  }

  /** The quote in the field with white space collapsed, its first three hundred characters. */
  function QuoteIn(item: Value, field: string, lex: Lexer): string {
    match item.At(field)
    case String(s) => var quote := Clean(s, lex); if |quote| <= 300 then quote else quote[..300]
    case _ => ""
  }

  predicate OccursAt(part: string, text: string, i: nat) {
    i + |part| <= |text| && text[i..i + |part|] == part
  }

  predicate Occurs(part: string, text: string) {
    exists i: nat :: i <= |text| && OccursAt(part, text, i)
  }

  /** As the prompt shows a text. */
  function Shown(text: string): string {
    seq(|text|, i requires 0 <= i < |text| => if text[i] == '<' then '\U{2039}' else text[i])
  }

  /** The quote's words follow one another in the text. */
  predicate IsIn(quote: string, text: string, lex: Lexer) {
    Occurs(Loose(quote, lex), Loose(Shown(text), lex))
  }

  lemma {:induction false} PairIs(pairs: seq<Pair>, id: int, i: nat)
    requires IsPair(pairs, id, i)
    ensures PairOf(pairs, id) == Some(pairs[i])
    decreases |pairs|
  {
    if i < |pairs| - 1 {
      assert pairs[|pairs| - 1].id != id;
      assert forall j :: 0 <= j < |pairs| - 1 ==> Init(pairs)[j] == pairs[j];
      PairIs(Init(pairs), id, i);
    }
  }

  lemma ContainsIs(text: string, part: string)
    ensures Contains(text, part) <==> Occurs(part, text)
  {
    forall i: nat | i <= |text|
      ensures ContainsAt(text, part, i) <==> OccursAt(part, text, i)
    {
      if i + |part| <= |text| {
        assert text[i..][..|part|] == text[i..i + |part|];
      }
    }
  }

  lemma QuotesIs(quote: string, text: string, lex: Lexer)
    ensures Quotes(quote, text, lex) <==> IsIn(quote, text, lex)
  {
    assert Fenced(text) == Shown(text);
    ContainsIs(Loose(Shown(text), lex), Loose(quote, lex));
  }

  /**
   * An item about a pair of the batch is evidence exactly if it gives a quote and each it
   * gives is in the text it cites; with those quotes, under the pair's id.
   */
  lemma EvidenceExactly(item: Value, pairs: seq<Pair>, id: int, i: nat, lex: Lexer)
    requires IsPair(pairs, id, i) && item.At("pair") == Integer(id)
    requires -0x8000_0000_0000_0000 <= id < 0x8000_0000_0000_0000
    ensures var sent, ai := QuoteIn(item, "sent", lex), QuoteIn(item, "ai", lex);
            var holds :=
              && (sent != "" || ai != "")
              && (sent != "" ==> IsIn(sent, pairs[i].sent, lex)) && (ai != "" ==> IsIn(ai, pairs[i].ai, lex));
            Checked(item, pairs, lex) == if holds then Some(Evidence(id, sent, ai)) else None
  {
    PairIs(pairs, id, i);
    CheckedExactly(item, pairs, lex);
    QuotesIs(QuoteIn(item, "sent", lex), pairs[i].sent, lex);
    QuotesIs(QuoteIn(item, "ai", lex), pairs[i].ai, lex);
  }

  /** An item about no pair of the batch is none. */
  lemma OthersAreNoEvidence(item: Value, pairs: seq<Pair>, lex: Lexer)
    requires forall p :: p in pairs ==> item.At("pair") != Integer(p.id)
    ensures Checked(item, pairs, lex).None?
  {
  }
}
