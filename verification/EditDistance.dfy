// Word edit counts, as draft matching measures how far the sent text moved
// from the draft (crates/kaluta-core/src/analysis_match.rs).
//
// `Count` is the row-by-row loop of the source. It is proved against `Lev`,
// the textbook recursion, and `Lev` against edit scripts: arbitrary runs of
// single insertions, deletions and replacements at any position, in any order.
module EditDistance {
  import opened Prelude

  function Min(x: nat, y: nat): nat {
    if x <= y then x else y
  }

  function Max(x: nat, y: nat): nat {
    if x >= y then x else y
  }

  function Differ<T(==)>(x: T, y: T): nat {
    if x == y then 0 else 1
  }

  /** The recursion on last words. */
  function Lev<T(==)>(a: seq<T>, b: seq<T>): nat
    decreases |a| + |b|
  {
    if a == [] then |b|
    else if b == [] then |a|
    else
      Min(Lev(Init(a), Init(b)) + Differ(Last(a), Last(b)),
          Min(Lev(Init(a), b) + 1, Lev(a, Init(b)) + 1))
  }

  /** The entry of row `i`, column `j`: the edits between the first `i` and the first `j` words. */
  function Cell<T(==)>(a: seq<T>, b: seq<T>, i: nat, j: nat): nat
    requires i <= |a| && j <= |b|
  {
    Lev(a[..i], b[..j])
  }

  lemma CellStep<T>(a: seq<T>, b: seq<T>, i: nat, j: nat)
    requires i < |a| && j < |b|
    ensures Cell(a, b, i + 1, j + 1)
         == Min(Cell(a, b, i, j) + Differ(a[i], b[j]), Min(Cell(a, b, i, j + 1) + 1, Cell(a, b, i + 1, j) + 1))
  {
    assert Init(a[..i + 1]) == a[..i] && Init(b[..j + 1]) == b[..j];
  }

  lemma CellEdges<T>(a: seq<T>, b: seq<T>)
    ensures forall i: nat :: i <= |a| ==> Cell(a, b, i, 0) == i
    ensures forall j: nat :: j <= |b| ==> Cell(a, b, 0, j) == j
    ensures Cell(a, b, |a|, |b|) == Lev(a, b)
  {
    assert a[..|a|] == a && b[..|b|] == b;
  }

  predicate IsRow<T(==)>(row: seq<nat>, upTo: nat, a: seq<T>, b: seq<T>, i: nat)
    requires upTo < |row| == |b| + 1 && i <= |a|
  {
    forall j: nat :: j <= upTo ==> row[j] == Cell(a, b, i, j)
  }

  /** The inner loop: the row of one more word of `a`, from the row before. */
  method NextRow<T(==)>(previous: array<nat>, a: seq<T>, b: seq<T>, i: nat) returns (current: array<nat>)
    requires i < |a| && previous.Length == |b| + 1 && IsRow(previous[..], |b|, a, b, i)
    ensures fresh(current) && current.Length == |b| + 1 && IsRow(current[..], |b|, a, b, i + 1)
  {
    CellEdges(a, b);
    current := new nat[|b| + 1](_ => i + 1);
    ghost var row := previous[..];
    for j := 0 to |b|
      invariant previous[..] == row
      invariant IsRow(current[..], j, a, b, i + 1)
    {
      CellStep(a, b, i, j);
      assert row[j] == Cell(a, b, i, j) && row[j + 1] == Cell(a, b, i, j + 1);
      assert current[..][j] == Cell(a, b, i + 1, j);
      var substitute := previous[j] + Differ(a[i], b[j]);
      ghost var before := current[..];
      current[j + 1] := Min(Min(substitute, previous[j + 1] + 1), current[j] + 1);
      assert current[..] == before[j + 1 := current[j + 1]];
    }
  }

  /** Two rows are kept: `previous` for a word fewer of `a`, the next one for this. */
  method Count<T(==)>(a: seq<T>, b: seq<T>) returns (edits: nat)
    ensures edits == Lev(a, b)
  {
    CellEdges(a, b);
    var previous := new nat[|b| + 1](j => j);
    for i := 0 to |a|
      invariant previous.Length == |b| + 1
      invariant IsRow(previous[..], |b|, a, b, i)
    {
      previous := NextRow(previous, a, b, i);
    }
    assert previous[..][|b|] == Cell(a, b, |a|, |b|);
    edits := previous[|b|];
  }

  // ---- Metric laws ----

  lemma {:induction false} LevBounds<T>(a: seq<T>, b: seq<T>)
    ensures Lev(a, b) <= Max(|a|, |b|)
    ensures |a| <= |b| + Lev(a, b) && |b| <= |a| + Lev(a, b)
    decreases |a| + |b|
  {
    if a != [] && b != [] {
      LevBounds(Init(a), Init(b));
      LevBounds(Init(a), b);
      LevBounds(a, Init(b));
    }
  }

  lemma {:induction false} LevZero<T>(a: seq<T>, b: seq<T>)
    ensures Lev(a, b) == 0 <==> a == b
    decreases |a| + |b|
  {
    if a != [] && b != [] {
      LevZero(Init(a), Init(b));
      assert a == Init(a) + [Last(a)] && b == Init(b) + [Last(b)];
    }
  }

  lemma {:induction false} LevSymmetric<T>(a: seq<T>, b: seq<T>)
    ensures Lev(a, b) == Lev(b, a)
    decreases |a| + |b|
  {
    if a != [] && b != [] {
      LevSymmetric(Init(a), Init(b));
      LevSymmetric(Init(a), b);
      LevSymmetric(a, Init(b));
    }
  }

  lemma {:induction false} LevTriangle<T>(a: seq<T>, b: seq<T>, c: seq<T>)
    ensures Lev(a, c) <= Lev(a, b) + Lev(b, c)
    decreases |a| + |b| + |c|
  {
    LevBounds(a, b);
    LevBounds(b, c);
    LevBounds(a, c);
    if a != [] && b != [] && c != [] {
      LevTriangle(Init(a), b, c);
      LevTriangle(a, b, Init(c));
      LevTriangle(a, Init(b), c);
      LevTriangle(a, Init(b), Init(c));
      LevTriangle(Init(a), Init(b), c);
      LevTriangle(Init(a), Init(b), Init(c));
    }
  }

  // ---- Edit scripts ----

  datatype Edit<T> =
    | Insert(at: nat, word: T)
    | Delete(at: nat)
    | Replace(at: nat, word: T)
  {
    predicate Fits(s: seq<T>) {
      if Insert? then at <= |s| else at < |s|
    }

    function Apply(s: seq<T>): seq<T>
      requires Fits(s)
    {
      match this
      case Insert(at, word) => s[..at] + [word] + s[at..]
      case Delete(at) => s[..at] + s[at + 1..]
      case Replace(at, word) => s[at := word]
    }
  }

  predicate Runs<T(!new)>(s: seq<T>, script: seq<Edit<T>>)
    decreases |script|
  {
    script == [] || (script[0].Fits(s) && Runs(script[0].Apply(s), script[1..]))
  }

  function Run<T(!new)>(s: seq<T>, script: seq<Edit<T>>): seq<T>
    requires Runs(s, script)
    decreases |script|
  {
    if script == [] then s else Run(script[0].Apply(s), script[1..])
  }

  /** A common suffix never adds to the count. */
  lemma {:induction false} LevSuffix<T>(a: seq<T>, b: seq<T>, t: seq<T>)
    ensures Lev(a + t, b + t) <= Lev(a, b)
    decreases |t|
  {
    if t == [] {
      assert a + t == a && b + t == b;
    } else {
      LevSuffix(a, b, Init(t));
      assert Init(a + t) == a + Init(t) && Init(b + t) == b + Init(t);
    }
  }

  lemma InsertCostsOne<T>(p: seq<T>, word: T, t: seq<T>)
    ensures Lev(p + t, p + [word] + t) <= 1
    ensures Lev(p + [word] + t, p + t) <= 1
  {
    LevZero(p, p);
    assert Init(p + [word]) == p;
    LevSuffix(p, p + [word], t);
    LevSuffix(p + [word], p, t);
  }

  lemma ReplaceCostsOne<T>(p: seq<T>, was: T, word: T, t: seq<T>)
    ensures Lev(p + [was] + t, p + [word] + t) <= 1
  {
    LevZero(p, p);
    assert Init(p + [was]) == p && Init(p + [word]) == p;
    LevSuffix(p + [was], p + [word], t);
  }

  lemma EditMovesByOne<T>(s: seq<T>, e: Edit<T>)
    requires e.Fits(s)
    ensures Lev(s, e.Apply(s)) <= 1
  {
    match e
    case Insert(at, word) =>
      assert s == s[..at] + s[at..];
      InsertCostsOne(s[..at], word, s[at..]);
    case Delete(at) =>
      assert s == s[..at] + [s[at]] + s[at + 1..];
      InsertCostsOne(s[..at], s[at], s[at + 1..]);
    case Replace(at, word) =>
      assert s == s[..at] + [s[at]] + s[at + 1..];
      assert e.Apply(s) == s[..at] + [word] + s[at + 1..];
      ReplaceCostsOne(s[..at], s[at], word, s[at + 1..]);
  }

  /** No script is cheaper than the count. */
  lemma {:induction false} NoCheaperScript<T(!new)>(a: seq<T>, script: seq<Edit<T>>)
    requires Runs(a, script)
    ensures Lev(a, Run(a, script)) <= |script|
    decreases |script|
  {
    if script == [] {
      LevZero(a, a);
    } else {
      var next := script[0].Apply(a);
      EditMovesByOne(a, script[0]);
      NoCheaperScript(next, script[1..]);
      LevTriangle(a, next, Run(a, script));
    }
  }

  lemma {:induction false} RunBesideSuffix<T(!new)>(s: seq<T>, t: seq<T>, script: seq<Edit<T>>)
    requires Runs(s, script)
    ensures Runs(s + t, script) && Run(s + t, script) == Run(s, script) + t
    decreases |script|
  {
    if script != [] {
      var e := script[0];
      assert e.Apply(s + t) == e.Apply(s) + t;
      RunBesideSuffix(e.Apply(s), t, script[1..]);
    }
  }

  lemma {:induction false} RunThen<T(!new)>(s: seq<T>, script: seq<Edit<T>>, e: Edit<T>)
    requires Runs(s, script) && e.Fits(Run(s, script))
    ensures Runs(s, script + [e]) && Run(s, script + [e]) == e.Apply(Run(s, script))
    decreases |script|
  {
    if script == [] {
      assert (script + [e])[1..] == [];
    } else {
      RunThen(script[0].Apply(s), script[1..], e);
      assert (script + [e])[1..] == script[1..] + [e];
    }
  }

  /** Extends a script that runs on a prefix: the rest of the words ride along, then `e`. */
  lemma Extend<T(!new)>(a: seq<T>, t: seq<T>, script: seq<Edit<T>>, e: Edit<T>) returns (longer: seq<Edit<T>>)
    requires Runs(a, script) && e.Fits(Run(a, script) + t)
    ensures |longer| == |script| + 1
    ensures Runs(a + t, longer) && Run(a + t, longer) == e.Apply(Run(a, script) + t)
  {
    RunBesideSuffix(a, t, script);
    RunThen(a + t, script, e);
    longer := script + [e];
  }

  lemma ScriptOfDeletion<T(!new)>(a: seq<T>, b: seq<T>, shorter: seq<Edit<T>>) returns (script: seq<Edit<T>>)
    requires a != [] && Runs(Init(a), shorter) && Run(Init(a), shorter) == b
    ensures Runs(a, script) && Run(a, script) == b && |script| == |shorter| + 1
  {
    assert Init(a) + [Last(a)] == a;
    script := Extend(Init(a), [Last(a)], shorter, Delete(|b|));
  }

  lemma ScriptOfInsertion<T(!new)>(a: seq<T>, b: seq<T>, shorter: seq<Edit<T>>) returns (script: seq<Edit<T>>)
    requires b != [] && Runs(a, shorter) && Run(a, shorter) == Init(b)
    ensures Runs(a, script) && Run(a, script) == b && |script| == |shorter| + 1
  {
    assert a + [] == a && Init(b) + [] == Init(b) && Init(b) + [Last(b)] == b;
    script := Extend(a, [], shorter, Insert(|b| - 1, Last(b)));
  }

  lemma ScriptOfReplacement<T(!new)>(a: seq<T>, b: seq<T>, shorter: seq<Edit<T>>) returns (script: seq<Edit<T>>)
    requires a != [] && b != [] && Runs(Init(a), shorter) && Run(Init(a), shorter) == Init(b)
    ensures Runs(a, script) && Run(a, script) == b && |script| == |shorter| + Differ(Last(a), Last(b))
  {
    assert Init(a) + [Last(a)] == a && Init(b) + [Last(b)] == b;
    if Last(a) == Last(b) {
      RunBesideSuffix(Init(a), [Last(a)], shorter);
      script := shorter;
    } else {
      script := Extend(Init(a), [Last(a)], shorter, Replace(|b| - 1, Last(b)));
    }
  }

  /** Some script costs exactly the count. */
  lemma {:induction false} CheapestScript<T(!new)>(a: seq<T>, b: seq<T>) returns (script: seq<Edit<T>>)
    ensures Runs(a, script) && Run(a, script) == b && |script| == Lev(a, b)
    decreases |a| + |b|
  {
    if a == [] && b == [] {
      script := [];
    } else if a != [] && (b == [] || Lev(a, b) == Lev(Init(a), b) + 1) {
      script := CheapestScript(Init(a), b);
      script := ScriptOfDeletion(a, b, script);
    } else if b != [] && (a == [] || Lev(a, b) == Lev(a, Init(b)) + 1) {
      script := CheapestScript(a, Init(b));
      script := ScriptOfInsertion(a, b, script);
    } else {
      script := CheapestScript(Init(a), Init(b));
      script := ScriptOfReplacement(a, b, script);
    }
  }

  /** What the loop returns is exactly the length of the cheapest edit script. */
  lemma CountIsCheapest<T(!new)>(a: seq<T>, b: seq<T>, edits: nat)
    ensures edits == Lev(a, b) <==>
            && (exists script: seq<Edit<T>> :: Runs(a, script) && Run(a, script) == b && |script| == edits)
            && (forall script: seq<Edit<T>> :: Runs(a, script) && Run(a, script) == b ==> edits <= |script|)
  {
    var best := CheapestScript(a, b);
    forall script: seq<Edit<T>> | Runs(a, script) && Run(a, script) == b
      ensures Lev(a, b) <= |script|
    {
      NoCheaperScript(a, script);
    }
  }
}
