// Which agent keeps a mail, by the agents' own fields.
module RoutingRule {
  import opened Prelude
  import opened Text
  import opened TextLaws
  import opened Routing

  /** One of the addresses is the agent's, as compared. */
  predicate IsAddressedTo(a: Agent, addresses: seq<string>, lex: Lexer) {
    exists y :: y in addresses && IsAt(a, Normalize(y, lex), lex)
  }

  /** The agent sends as this address, or the service gave it to the agent. */
  predicate IsAt(a: Agent, normal: string, lex: Lexer) {
    && normal != ""
    && (Normalize(a.address, lex) == normal || (a.managed.Some? && Normalize(a.managed.value, lex) == normal))
  }

  /** As strings are ordered: at the first difference the smaller character, or no difference up to its end. */
  predicate ComesFirst(x: string, y: string) {
    exists k: nat :: k <= |x| && DiffersAt(x, y, k)
  }

  predicate DiffersAt(x: string, y: string, k: nat) {
    k <= |x| && k <= |y| && x[..k] == y[..k] && (k == |x| || (k < |y| && x[k] < y[k]))
  }

  predicate IsFirst(a: Agent, b: Agent) {
    a.createdAt < b.createdAt || (a.createdAt == b.createdAt && ComesFirst(a.id, b.id))
  }

  lemma {:induction false} OrderIs(x: string, y: string)
    ensures StringLe(x, y) <==> ComesFirst(x, y)
    decreases |x|
  {
    if x == "" {
      assert DiffersAt(x, y, 0);
    } else if y != "" && x[0] == y[0] {
      OrderIs(x[1..], y[1..]);
      if StringLe(x[1..], y[1..]) {
        var k: nat :| k <= |x[1..]| && DiffersAt(x[1..], y[1..], k);
        assert x[..k + 1] == [x[0]] + x[1..][..k] && y[..k + 1] == [y[0]] + y[1..][..k];
        assert DiffersAt(x, y, k + 1);
      } else if ComesFirst(x, y) {
        var k: nat :| k <= |x| && DiffersAt(x, y, k);
        assert x[..k][1..] == x[1..][..k - 1] && y[..k][1..] == y[1..][..k - 1];
        assert DiffersAt(x[1..], y[1..], k - 1);
      }
    } else if y != "" && x[0] < y[0] {
      assert DiffersAt(x, y, 0);
    }
  }

  lemma HasIs(a: Agent, addresses: seq<string>, lex: Lexer)
    ensures Has(a, addresses, lex) <==> IsAddressedTo(a, addresses, lex)
  {
    var own := AddressesOf(a);
    assert forall x :: x in own <==> x == a.address || a.managed == Some(x);
    if Has(a, addresses, lex) {
      var x :| x in own && Normalize(x, lex) in Found(addresses, lex);
      assert IsAt(a, Normalize(x, lex), lex);
    }
  }

  lemma AsOnDisk(disk: seq<Agent>, a: Agent, started: Agent)
    requires a in disk && DistinctIds(disk) && started.id == a.id && started.service == a.service
    ensures RoutingFor(disk, a.id, started) == RoutingFor(disk, a.id, a)
  {
    var agents := On(disk, a.service);
    assert a in agents;
    assert First(agents, (b: Agent) => b.id == a.id) == Some(a);
  }

  /**
   * An agent, as it is on disk, whatever it was when its sync started, keeps mail with an
   * address of its own on it; and mail with nobody's exactly if it was created before every
   * other agent of the account, at one time the one with the first id.
   */
  lemma KeepsExactly(disk: seq<Agent>, a: Agent, started: Agent, addresses: seq<string>, lex: Lexer)
    requires a in disk && DistinctIds(disk) && started.id == a.id && started.service == a.service
    ensures var kept := Keeps(RoutingFor(disk, a.id, started), addresses, lex);
            && (kept == Some(Mine) <==> IsAddressedTo(a, addresses, lex))
            && (kept == Some(Unclaimed) <==> forall b :: b in disk && b.service == a.service
                                               ==> !IsAddressedTo(b, addresses, lex) && IsFirst(a, b))
  {
    var agents := On(disk, a.service);
    AsOnDisk(disk, a, started);
    KeepsByTheRule(disk, a, addresses, lex);
    OwnRouting(disk, a);
    HasIs(a, addresses, lex);
    forall b | b in disk && b.service == a.service
      ensures b in agents && (Has(b, addresses, lex) <==> IsAddressedTo(b, addresses, lex))
      ensures NotAfter(a, b) <==> IsFirst(a, b)
    {
      HasIs(b, addresses, lex);
      OrderIs(a.id, b.id);
    }
  }

  /** The sync of an agent that is gone keeps its mail as the agent was; and all mail once no agent is left. */
  lemma GoneKeepsExactly(disk: seq<Agent>, gone: Agent, addresses: seq<string>, lex: Lexer)
    requires forall a :: a in disk ==> a.id != gone.id
    ensures var kept := Keeps(RoutingFor(disk, gone.id, gone), addresses, lex);
            && (kept == Some(Mine) <==> IsAddressedTo(gone, addresses, lex))
            && (kept == Some(Unclaimed) <==>
                 !IsAddressedTo(gone, addresses, lex) && forall a :: a in disk ==> a.service != gone.service)
  {
    HasIs(gone, addresses, lex);
    if On(disk, gone.service) != [] {
      GoneKeepsOnlyItsOwn(disk, gone, addresses, lex);
      var a := On(disk, gone.service)[0];
      assert a in On(disk, gone.service);
    } else {
      assert AllAddresses([]) == [];
      assert forall a :: a in disk ==> a.service != gone.service by {
        assert forall a :: a in disk && a.service == gone.service ==> a in On(disk, gone.service);
      }
    }
  }

  // ---- Addresses as compared ----

  /** White space, brackets around the address and white space in them. */
  datatype Around = Around(outer: string, brackets: string, inner: string)

  predicate IsOpening(x: Around, lex: Lexer) {
    AllOf(x.outer, lex.isSpace) && AllOf(x.brackets, IsLeftBracket) && AllOf(x.inner, lex.isSpace)
  }

  predicate IsClosing(x: Around, lex: Lexer) {
    AllOf(x.outer, lex.isSpace) && AllOf(x.brackets, IsRightBracket) && AllOf(x.inner, lex.isSpace)
  }

  lemma {:induction false} BracketsGo(left: string, s: string, right: string)
    requires AllOf(left, IsLeftBracket) && AllOf(right, IsRightBracket)
    requires s != "" && s[0] != '<' && s[|s| - 1] != '>'
    ensures TrimEnd(TrimStart(left + s + right, IsLeftBracket), IsRightBracket) == s
  {
    assert left + s + right == left + (s + right) && (s + right)[0] == s[0];
    TrimStartDrops(left, s + right, IsLeftBracket);
    TrimEndDrops(s, right, IsRightBracket);
  }

  /** What comparing drops around an address: space, brackets, and space in the brackets. */
  lemma AroundIsDropped(left: Around, core: string, right: Around, lex: Lexer)
    requires IsOpening(left, lex) && IsClosing(right, lex) && !lex.isSpace('<') && !lex.isSpace('>')
    requires core != "" && EndsStay(core, lex.isSpace) && core[0] != '<' && core[|core| - 1] != '>'
    requires (left.brackets == "" ==> left.inner == "") && (right.brackets == "" ==> right.inner == "")
    ensures Normalize(left.outer + left.brackets + left.inner + core + right.inner + right.brackets + right.outer, lex)
         == Untagged(lex.lower(core))
  {
    var inside := left.inner + core + right.inner;
    var bracketed := left.brackets + inside + right.brackets;
    var whole := left.outer + left.brackets + left.inner + core + right.inner + right.brackets + right.outer;
    assert whole == left.outer + bracketed + right.outer;
    FirstOf(left.inner, core + right.inner);
    LastOf(left.inner + core, right.inner);
    assert inside == left.inner + (core + right.inner);
    FirstOf(left.brackets, inside + right.brackets);
    LastOf(left.brackets + inside, right.brackets);
    assert bracketed == left.brackets + (inside + right.brackets);
    TrimDropsEnds(left.outer, bracketed, right.outer, lex.isSpace);
    BracketsGo(left.brackets, inside, right.brackets);
    TrimDropsEnds(left.inner, core, right.inner, lex.isSpace);
  }

  lemma FirstOf(a: string, b: string)
    requires b != ""
    ensures (a + b)[0] == if a == "" then b[0] else a[0]
    ensures a != "" ==> a[0] in a
  {
  }

  lemma LastOf(a: string, b: string)
    requires a != ""
    ensures (a + b)[|a + b| - 1] == if b == "" then a[|a| - 1] else b[|b| - 1]
    ensures b != "" ==> b[|b| - 1] in b
  {
  }
}
