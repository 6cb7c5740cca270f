// When the distance of draft matching (crates/kaluta-core/src/analysis_match.rs)
// obeys the triangle law. The word edit count does; over the longer length, it
// depends on how many words the three texts have, and on nothing else.
module DistanceTriangle {
  import opened Prelude
  import opened EditDistance
  import opened Text
  import opened TextLaws
  import opened Matching

  /** The triangle law, for all texts of so many words. */
  ghost predicate HoldsFor(first: nat, between: nat, last: nat, lex: Lexer) {
    forall a, b, c ::
      |Words(a, lex)| == first && |Words(b, lex)| == between && |Words(c, lex)| == last
      ==> DistanceOf(a, c, lex) <= DistanceOf(a, b, lex) + DistanceOf(b, c, lex)
  }

  // ---- Fractions ----

  lemma Share(n: real, d: real) returns (q: real)
    requires d > 0.0
    ensures q == n / d && q * d == n && (n >= 0.0 ==> q >= 0.0)
  {
    q := n / d;
  }

  lemma Distributes(x: real, y: real, d: real)
    ensures (x + y) * d == x * d + y * d
  {
  }

  lemma TimesMore(x: real, less: real, more: real)
    requires x >= 0.0 && less <= more
    ensures x * less <= x * more
  {
  }

  lemma LessTimes(x: real, y: real, d: real)
    requires x < y && d > 0.0
    ensures x * d < y * d
  {
  }

  lemma NoMoreTimes(x: real, y: real, d: real)
    requires x <= y && d > 0.0
    ensures x * d <= y * d
  {
  }

  lemma SumCovers(q: real, x: real, y: real, d: real, d1: real, d2: real)
    requires x >= 0.0 && y >= 0.0 && d > 0.0 && d1 <= d && d2 <= d && q * d <= x * d1 + y * d2
    ensures q <= x + y
  {
    TimesMore(x, d1, d);
    TimesMore(y, d2, d);
    Distributes(x, y, d);
    if x + y < q {
      LessTimes(x + y, q, d);
    }
  }

  lemma FractionsAdd(n: real, d: real, n1: real, d1: real, n2: real, d2: real)
    requires n <= n1 + n2 && 0.0 < d1 <= d && 0.0 < d2 <= d && n1 >= 0.0 && n2 >= 0.0
    ensures n / d <= n1 / d1 + n2 / d2
  {
    var q := Share(n, d);
    var x := Share(n1, d1);
    var y := Share(n2, d2);
    SumCovers(q, x, y, d, d1, d2);
  }

  lemma FractionsReachOne(n1: real, n2: real, e: real)
    requires n1 + n2 >= e > 0.0
    ensures n1 / e + n2 / e >= 1.0
  {
    var x := Share(n1, e);
    var y := Share(n2, e);
    Distributes(x, y, e);
    if x + y < 1.0 {
      LessTimes(x + y, 1.0, e);
    }
  }

  lemma SharesFallShort(q: real, d: real, x: real, e: real, whole: real)
    requires 0.0 < d < e && 0.0 < whole < e && x * e <= whole && (q * d >= whole || q >= 1.0)
    ensures q > x
  {
    if q <= x {
      NoMoreTimes(q, x, e);
      if q >= 1.0 {
        NoMoreTimes(1.0, q, e);
      } else {
        if q <= 0.0 {
          NoMoreTimes(q, 0.0, d);
        }
        LessTimes(d, e, q);
      }
    }
  }

  lemma FractionsFallShort(n: real, d: real, n1: real, n2: real, e: real, whole: real)
    requires 0.0 < d < e && 0.0 < whole < e && n1 + n2 <= whole && (n >= whole || n >= d)
    ensures n / d > n1 / e + n2 / e
  {
    var q := Share(n, d);
    var x := Share(n1, e);
    var y := Share(n2, e);
    Distributes(x, y, e);
    if n >= d && q < 1.0 {
      LessTimes(q, 1.0, d);
    }
    SharesFallShort(q, d, x + y, e, whole);
  }

  // ---- Where the law holds ----

  /** The text between has no more words than the longer of the others. */
  lemma ShortBetween(a: string, b: string, c: string, lex: Lexer)
    requires |Words(b, lex)| <= Max(|Words(a, lex)|, |Words(c, lex)|)
    ensures DistanceOf(a, c, lex) <= DistanceOf(a, b, lex) + DistanceOf(b, c, lex)
  {
    var x, y, z := Words(a, lex), Words(b, lex), Words(c, lex);
    LevTriangle(x, y, z);
    LevBounds(x, z);
    LevBounds(x, y);
    LevBounds(y, z);
    var longest := Max(|x|, |z|);
    if longest > 0 {
      if Max(|x|, |y|) == 0 {
        assert x == y;
      } else if Max(|y|, |z|) == 0 {
        assert y == z;
      } else {
        FractionsAdd(Lev(x, z) as real, longest as real, Lev(x, y) as real, Max(|x|, |y|) as real,
                     Lev(y, z) as real, Max(|y|, |z|) as real);
      }
    }
  }

  /** Or at least as many as both together: then half of it at least is new each time. */
  lemma LongBetween(a: string, b: string, c: string, lex: Lexer)
    requires |Words(b, lex)| >= |Words(a, lex)| + |Words(c, lex)|
    ensures DistanceOf(a, c, lex) <= DistanceOf(a, b, lex) + DistanceOf(b, c, lex)
  {
    var x, y, z := Words(a, lex), Words(b, lex), Words(c, lex);
    LevBounds(x, y);
    LevBounds(y, z);
    DistanceLaws(a, c, lex);
    if y == [] {
      LevZero(x, z);
    } else {
      FractionsReachOne(Lev(x, y) as real, Lev(y, z) as real, |y| as real);
    }
  }

  // ---- And where it fails ----

  function Times<T>(x: T, n: nat): (s: seq<T>)
    ensures |s| == n
  {
    if n == 0 then [] else Times(x, n - 1) + [x]
  }

  lemma {:induction false} TimesOnly<T>(x: T, n: nat)
    ensures forall y :: y in Times(x, n) ==> y == x
  {
    if n > 0 {
      TimesOnly(x, n - 1);
    }
  }

  lemma LastOfTimes<T>(s: seq<T>, x: T, n: nat)
    requires n > 0
    ensures s + Times(x, n) != []
    ensures Init(s + Times(x, n)) == s + Times(x, n - 1) && Last(s + Times(x, n)) == x
  {
  }

  predicate Apart<T(==)>(a: seq<T>, b: seq<T>) {
    forall x :: x in a ==> x !in b
  }

  lemma StillApart<T>(a: seq<T>, b: seq<T>)
    requires Apart(a, b) && a != [] && b != []
    ensures Last(a) != Last(b) && Apart(Init(a), Init(b)) && Apart(Init(a), b) && Apart(a, Init(b))
  {
    assert Last(a) in a && Last(b) in b;
    assert forall x :: x in Init(a) ==> x in a;
    assert forall x :: x in Init(b) ==> x in b;
  }

  /** Between texts without a word in common every word counts. */
  lemma {:induction false} NothingInCommon<T>(a: seq<T>, b: seq<T>)
    requires Apart(a, b)
    ensures Lev(a, b) == Max(|a|, |b|)
    decreases |a| + |b|
  {
    if a != [] && b != [] {
      StillApart(a, b);
      NothingInCommon(Init(a), Init(b));
      NothingInCommon(Init(a), b);
      NothingInCommon(a, Init(b));
    }
  }

  lemma LevAtLeast<T>(a: seq<T>, b: seq<T>, n: nat)
    requires a != [] && b != [] && Lev(Init(a), Init(b)) + Differ(Last(a), Last(b)) >= n
    requires Lev(Init(a), b) + 1 >= n && Lev(a, Init(b)) + 1 >= n
    ensures Lev(a, b) >= n
  {
  }

  /** `k` words of one kind after `p` of another. */
  function TwoRuns<T>(x: T, p: nat, y: T, k: nat): (s: seq<T>)
    ensures |s| == p + k
  {
    Times(x, p) + Times(y, k)
  }

  lemma LastOfRuns<T>(x: T, p: nat, y: T, k: nat)
    requires p + k > 0
    ensures k > 0 ==> Init(TwoRuns(x, p, y, k)) == TwoRuns(x, p, y, k - 1) && Last(TwoRuns(x, p, y, k)) == y
    ensures k == 0 ==> Init(TwoRuns(x, p, y, k)) == TwoRuns(x, p - 1, y, k) && Last(TwoRuns(x, p, y, k)) == x
  {
    if k > 0 {
      LastOfTimes(Times(x, p), y, k);
    } else {
      assert Times(x, p) + [] == Times(x, p) && Times(x, p - 1) + [] == Times(x, p - 1);
      LastOfTimes([], x, p);
      assert [] + Times(x, p) == Times(x, p) && [] + Times(x, p - 1) == Times(x, p - 1);
    }
  }

  lemma RunsApart<T>(u: T, m: T, v: T, p: nat, k: nat, l: nat, r: nat)
    requires u != m && u != v && m != v && (k == 0 || l == 0)
    ensures Apart(TwoRuns(u, p, m, k), TwoRuns(m, l, v, r))
  {
    TimesOnly(u, p);
    TimesOnly(m, k);
    TimesOnly(m, l);
    TimesOnly(v, r);
  }

  /**
   * What comes before the common words of one text, and after those of the other, counts, or
   * every word does.
   */
  lemma {:induction false} EndsCost<T>(u: T, m: T, v: T, p: nat, k: nat, l: nat, r: nat)
    requires u != m && u != v && m != v
    ensures Lev(TwoRuns(u, p, m, k), TwoRuns(m, l, v, r)) >= Min(p + r, Max(p + k, l + r))
    decreases k, l + r
  {
    var a, b := TwoRuns(u, p, m, k), TwoRuns(m, l, v, r);
    if k == 0 || l == 0 {
      RunsApart(u, m, v, p, k, l, r);
      NothingInCommon(a, b);
    } else {
      LastOfRuns(u, p, m, k);
      LastOfRuns(m, l, v, r);
      EndsCost(u, m, v, p, k - 1, l, r);
      if r == 0 {
        EndsCost(u, m, v, p, k - 1, l - 1, 0);
        EndsCost(u, m, v, p, k, l - 1, 0);
      } else {
        EndsCost(u, m, v, p, k - 1, l, r - 1);
        EndsCost(u, m, v, p, k, l, r - 1);
      }
      LevAtLeast(a, b, Min(p + r, Max(p + k, l + r)));
    }
  }

  lemma {:induction false} AtTheEndCosts<T>(a: seq<T>, x: T, n: nat)
    ensures Lev(a, a + Times(x, n)) <= n
  {
    if n == 0 {
      assert a + [] == a;
      LevZero(a, a);
    } else {
      AtTheEndCosts(a, x, n - 1);
      LastOfTimes(a, x, n);
    }
  }

  lemma AtTheFrontCosts<T>(x: T, n: nat, b: seq<T>)
    ensures Lev(Times(x, n) + b, b) <= n
  {
    LevSuffix(Times(x, n), [], b);
    assert [] + b == b;
  }

  /** Two texts with their middle in common, and the one between that has both their ends. */
  lemma TooFar<T>(x: seq<T>, y: seq<T>, z: seq<T>, u: T, m: T, v: T, p: nat, k: nat, r: nat)
    requires u != m && u != v && m != v
    requires x == Times(u, p) + (Times(m, k) + [])
    requires y == Times(u, p) + (Times(m, k) + (Times(v, r) + []))
    requires z == Times(m, k) + (Times(v, r) + [])
    ensures |x| == p + k && |y| == p + k + r && |z| == k + r
    ensures Lev(x, y) <= r && Lev(y, z) <= p && Lev(x, z) >= Min(p + r, Max(p + k, k + r))
  {
    assert x == TwoRuns(u, p, m, k) && z == TwoRuns(m, k, v, r);
    assert y == x + Times(v, r) && y == Times(u, p) + z;
    EndsCost(u, m, v, p, k, k, r);
    AtTheEndCosts(x, v, r);
    AtTheFrontCosts(u, p, z);
  }

  // ---- Texts of given words ----

  /** How a text's field is read as a word. */
  function Read(field: string, lex: Lexer): string {
    lex.lower(Trim(field, c => !lex.isAlphanumeric(c)))
  }

  /** `field` is one word, whatever follows it after a space. */
  predicate IsWord(field: string, lex: Lexer) {
    field != [] && Read(field, lex) != [] && forall c :: c in field ==> !lex.isSpace(c)
  }

  /** Three words the lexer tells apart, and a space to put between. */
  predicate TellsApart(space: char, u: string, m: string, v: string, lex: Lexer) {
    && lex.isSpace(space) && IsWord(u, lex) && IsWord(m, lex) && IsWord(v, lex)
    && Read(u, lex) != Read(m, lex) && Read(u, lex) != Read(v, lex) && Read(m, lex) != Read(v, lex)
  }

  /** `field` so many times, and then the text. */
  function Repeat(field: string, n: nat, space: char, text: string): string {
    if n == 0 then text else field + [space] + Repeat(field, n - 1, space, text)
  }

  lemma WordFirst(field: string, space: char, text: string, lex: Lexer)
    requires IsWord(field, lex) && lex.isSpace(space)
    ensures Words(field + [space] + text, lex) == [Read(field, lex)] + Words(text, lex)
  {
    var s := field + [space] + text;
    assert s == field + ([space] + text);
    UntilPast(field, [space] + text, lex.isSpace);
    assert s[0] == field[0] && s[..|field|] == field && s[|field|..] == [space] + text;
    assert Fields([space] + text, lex.isSpace) == Fields(text, lex.isSpace) by {
      assert ([space] + text)[1..] == text;
    }
    var fields := Fields(s, lex.isSpace);
    assert fields == [field] + Fields(text, lex.isSpace);
    assert fields[1..] == Fields(text, lex.isSpace);
  }

  lemma {:induction false} WordsOfRepeat(field: string, n: nat, space: char, text: string, lex: Lexer)
    requires IsWord(field, lex) && lex.isSpace(space)
    ensures Words(Repeat(field, n, space, text), lex) == Times(Read(field, lex), n) + Words(text, lex)
  {
    if n > 0 {
      WordsOfRepeat(field, n - 1, space, text, lex);
      WordFirst(field, space, Repeat(field, n - 1, space, text), lex);
      TimesFromFront(Read(field, lex), n);
    }
  }

  lemma {:induction false} TimesFromFront<T>(x: T, n: nat)
    requires n > 0
    ensures Times(x, n) == [x] + Times(x, n - 1)
  {
    if n > 1 {
      TimesFromFront(x, n - 1);
    }
  }

  /**
   * For any number of words between that is more than in the longer of the other texts and
   * less than in both together, there are texts of so many words that break the law.
   */
  lemma FractionIsNoMetric(first: nat, between: nat, last: nat, space: char, u: string, m: string, v: string,
      lex: Lexer) returns (a: string, b: string, c: string)
    requires TellsApart(space, u, m, v, lex) && Max(first, last) < between < first + last
    ensures |Words(a, lex)| == first && |Words(b, lex)| == between && |Words(c, lex)| == last
    ensures DistanceOf(a, c, lex) > DistanceOf(a, b, lex) + DistanceOf(b, c, lex)
  {
    var k, p, r := first + last - between, between - last, between - first;
    var end := Repeat(v, r, space, "");
    a, b, c := Repeat(u, p, space, Repeat(m, k, space, "")), Repeat(u, p, space, Repeat(m, k, space, end)),
        Repeat(m, k, space, end);
    WordsOfRepeat(v, r, space, "", lex);
    WordsOfRepeat(m, k, space, "", lex);
    WordsOfRepeat(m, k, space, end, lex);
    WordsOfRepeat(u, p, space, Repeat(m, k, space, ""), lex);
    WordsOfRepeat(u, p, space, c, lex);
    TooFar(Words(a, lex), Words(b, lex), Words(c, lex), Read(u, lex), Read(m, lex), Read(v, lex), p, k, r);
    FractionsFallShort(Lev(Words(a, lex), Words(c, lex)) as real, Max(first, last) as real,
        Lev(Words(a, lex), Words(b, lex)) as real, Lev(Words(b, lex), Words(c, lex)) as real, between as real,
        (p + r) as real);
  }

  /**
   * The triangle law holds for all texts of so many words exactly if the one between has no
   * more than the longer of the others, or at least as many as both together.
   */
  lemma TriangleExactly(first: nat, between: nat, last: nat, space: char, u: string, m: string, v: string, lex: Lexer)
    requires TellsApart(space, u, m, v, lex)
    ensures HoldsFor(first, between, last, lex) <==> between <= Max(first, last) || between >= first + last
  {
    if between <= Max(first, last) || between >= first + last {
      forall a, b, c | |Words(a, lex)| == first && |Words(b, lex)| == between && |Words(c, lex)| == last
        ensures DistanceOf(a, c, lex) <= DistanceOf(a, b, lex) + DistanceOf(b, c, lex)
      {
        if between <= Max(first, last) {
          ShortBetween(a, b, c, lex);
        } else {
          LongBetween(a, b, c, lex);
        }
      }
    } else {
      var a, b, c := FractionIsNoMetric(first, between, last, space, u, m, v, lex);
    }
  }
}
