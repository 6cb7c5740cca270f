// Several agents on one Primitive account: whose mail is whose
// (crates/kaluta-core/src/agent_mailbox.rs, crates/provider-primitive/src/routing.rs).
module Routing {
  import opened Prelude
  import opened Text

  /** What routing reads of an `agent.json`. */
  datatype Agent = Agent(id: string, address: string, managed: Option<string>, createdAt: int, service: string)

  /** Which of an account's mail is one agent's. */
  datatype Routing = Routing(own: seq<string>, others: seq<string>, catchAll: bool)

  /** Why an agent keeps a message. */
  datatype Keep = Mine | Unclaimed

  // ---- Addresses as compared ----

  function LastAt(s: string): (at: Option<nat>)
    ensures at.Some? ==> at.value < |s| && s[at.value] == '@' && '@' !in s[at.value + 1..]
    ensures at.None? ==> '@' !in s
  {
    if s == "" then None
    else if Last(s) == '@' then Some(|s| - 1)
    else
      assert s == Init(s) + [Last(s)];
      var at := LastAt(Init(s));
      assert at.Some? ==> s[at.value + 1..] == Init(s)[at.value + 1..] + [Last(s)];
      at
  }

  predicate IsLeftBracket(c: char) {
    c == '<'
  }

  predicate IsRightBracket(c: char) {
    c == '>'
  }

  /** An address without surrounding space or angle brackets, in lower case, without a `+tag`. */
  function Normalize(address: string, lex: Lexer): string {
    var bare := TrimEnd(TrimStart(Trim(address, lex.isSpace), IsLeftBracket), IsRightBracket);
    Untagged(lex.lower(Trim(bare, lex.isSpace)))
  }

  function Untagged(address: string): string {
    match LastAt(address)
    case Some(at) => address[..at][..Until(address[..at], c => c == '+')] + address[at..]
    case None => address
  }

  /** Nothing at either end that comparing drops. */
  predicate IsBare(address: string, lex: Lexer) {
    && address != "" && !lex.isSpace(address[0]) && !lex.isSpace(Last(address))
    && address[0] != '<' && Last(address) != '>'
  }

  lemma NoneTrimmed(s: string, drop: char -> bool)
    requires s != "" && !drop(s[0]) && !drop(Last(s))
    ensures Trim(s, drop) == s && TrimStart(s, drop) == s && TrimEnd(s, drop) == s
  {
  }

  lemma BareIsUntagged(address: string, lex: Lexer)
    requires IsBare(address, lex)
    ensures Normalize(address, lex) == Untagged(lex.lower(address))
  {
    NoneTrimmed(address, lex.isSpace);
  }

  /** Addresses compare without case and without angle brackets around them. */
  lemma CaseAndBracketsDoNotMatter(a: string, b: string, lex: Lexer)
    requires IsBare(a, lex) && IsBare(b, lex) && lex.lower(a) == lex.lower(b)
    requires !lex.isSpace('<') && !lex.isSpace('>')
    ensures Normalize("<" + a + ">", lex) == Normalize(a, lex) == Normalize(b, lex)
  {
    BareIsUntagged(a, lex);
    BareIsUntagged(b, lex);
    NoneTrimmed(a, lex.isSpace);
    var open, shut := "<" + a + ">", a + ">";
    NoneTrimmed(open, lex.isSpace);
    assert open[1..] == shut && shut[..|shut| - 1] == a;
    assert TrimStart(open, IsLeftBracket) == TrimStart(shut, IsLeftBracket) == shut;
    assert TrimEnd(shut, IsRightBracket) == TrimEnd(a, IsRightBracket) == a;
  }

  /** The addresses as compared, without those that come to nothing. */
  function Found(addresses: seq<string>, lex: Lexer): (found: seq<string>)
    ensures forall n :: n in found <==> n != "" && exists a :: a in addresses && Normalize(a, lex) == n
  {
    if addresses == [] then []
    else
      var n := Normalize(addresses[0], lex);
      assert addresses == [addresses[0]] + addresses[1..];
      (if n == "" then [] else [n]) + Found(addresses[1..], lex)
  }

  predicate AnyOf(list: seq<string>, found: seq<string>, lex: Lexer) {
    exists a :: a in list && Normalize(a, lex) in found
  }

  /** Whether an agent keeps mail carrying `addresses`, and why. */
  function Keeps(routing: Routing, addresses: seq<string>, lex: Lexer): Option<Keep> {
    var found := Found(addresses, lex);
    if AnyOf(routing.own, found, lex) then Some(Mine)
    else if !routing.catchAll || AnyOf(routing.others, found, lex) then None
    else Some(Unclaimed)
  }

  // ---- An agent's routing, from the agents on disk ----

  function AddressesOf(a: Agent): seq<string> {
    [a.address] + (if a.managed.Some? && a.managed.value != a.address then [a.managed.value] else [])
  }

  function AllAddresses(agents: seq<Agent>): (all: seq<string>)
    ensures forall x :: x in all <==> exists a :: a in agents && x in AddressesOf(a)
  {
    if agents == [] then []
    else
      assert agents == [agents[0]] + agents[1..];
      AddressesOf(agents[0]) + AllAddresses(agents[1..])
  }

  predicate StringLe(a: string, b: string) {
    a == "" || (b != "" && (a[0] < b[0] || (a[0] == b[0] && StringLe(a[1..], b[1..]))))
  }

  /** Created earlier, or at the same time with the smaller id. */
  predicate NotAfter(a: Agent, b: Agent) {
    a.createdAt < b.createdAt || (a.createdAt == b.createdAt && StringLe(a.id, b.id))
  }

  lemma {:induction false} StringLeIsOrder(a: string, b: string, c: string)
    ensures StringLe(a, b) || StringLe(b, a)
    ensures StringLe(a, b) && StringLe(b, a) ==> a == b
    ensures StringLe(a, b) && StringLe(b, c) ==> StringLe(a, c)
    decreases |a|
  {
    if a != "" && b != "" {
      StringLeIsOrder(a[1..], b[1..], if c == "" then c else c[1..]);
      assert a == [a[0]] + a[1..] && b == [b[0]] + b[1..];
    }
  }

  /** The account's first agent. */
  function Oldest(agents: seq<Agent>): (oldest: Option<Agent>)
    ensures oldest.None? <==> agents == []
    ensures oldest.Some? ==> IsOldest(agents, oldest.value)
  {
    if agents == [] then None
    else
      var last := Last(agents);
      StringLeIsOrder(last.id, last.id, last.id);
      assert agents == Init(agents) + [last];
      match Oldest(Init(agents))
      case None => Some(last)
      case Some(first) =>
        OldestSoFar(Init(agents), first, last);
        if NotAfter(first, last) then Some(first) else Some(last)
  }

  predicate IsOldest(agents: seq<Agent>, a: Agent) {
    a in agents && forall b :: b in agents ==> NotAfter(a, b)
  }

  lemma OldestSoFar(before: seq<Agent>, first: Agent, last: Agent)
    requires IsOldest(before, first)
    ensures !NotAfter(first, last) ==> NotAfter(last, last) && forall b :: b in before ==> NotAfter(last, b)
  {
    StringLeIsOrder(first.id, last.id, last.id);
    StringLeIsOrder(last.id, last.id, last.id);
    forall b | b in before && !NotAfter(first, last)
      ensures NotAfter(last, b)
    {
      StringLeIsOrder(last.id, first.id, b.id);
    }
  }

  function On(disk: seq<Agent>, service: string): seq<Agent> {
    Filter(disk, (a: Agent) => a.service == service)
  }

  function Others(agents: seq<Agent>, id: string): (others: seq<Agent>)
    ensures forall a :: a in others <==> a in agents && a.id != id
  {
    Filter(agents, (a: Agent) => a.id != id)
  }

  /** Which of its account's mail is the agent `id`'s; `fallback` is the agent, should its directory be gone. */
  function RoutingFor(disk: seq<Agent>, id: string, fallback: Agent): Routing {
    var agents := On(disk, fallback.service);
    var first := Oldest(agents);
    var here := First(agents, (a: Agent) => a.id == id);
    Routing(
      AddressesOf(if here.Some? then here.value else fallback),
      AllAddresses(Others(agents, id)),
      first.None? || first.value.id == id)
  }

  // ---- Who keeps a message ----

  /** Directory names: no two agents have one id. */
  predicate DistinctIds(disk: seq<Agent>) {
    forall a, b :: a in disk && b in disk && a.id == b.id ==> a == b
  }

  predicate Has(a: Agent, addresses: seq<string>, lex: Lexer) {
    AnyOf(AddressesOf(a), Found(addresses, lex), lex)
  }

  predicate Claimed(agents: seq<Agent>, addresses: seq<string>, lex: Lexer) {
    exists a :: a in agents && Has(a, addresses, lex)
  }

  /** The rule: an agent keeps mail on which an address of its own is, and the oldest mail on which nobody's is. */
  function ByTheRule(agents: seq<Agent>, a: Agent, addresses: seq<string>, lex: Lexer): Option<Keep> {
    if Has(a, addresses, lex) then Some(Mine)
    else if IsOldest(agents, a) && !Claimed(agents, addresses, lex) then Some(Unclaimed)
    else None
  }

  lemma OldestIsOne(agents: seq<Agent>, a: Agent, b: Agent)
    requires IsOldest(agents, a) && IsOldest(agents, b) && DistinctIds(agents)
    ensures a == b
  {
    StringLeIsOrder(a.id, b.id, a.id);
  }

  lemma AnyOfAll(agents: seq<Agent>, found: seq<string>, lex: Lexer)
    ensures AnyOf(AllAddresses(agents), found, lex) <==> exists a :: a in agents && AnyOf(AddressesOf(a), found, lex)
  {
    if AnyOf(AllAddresses(agents), found, lex) {
      var x :| x in AllAddresses(agents) && Normalize(x, lex) in found;
      var a :| a in agents && x in AddressesOf(a);
      assert AnyOf(AddressesOf(a), found, lex);
    }
  }

  lemma OwnRouting(disk: seq<Agent>, a: Agent)
    requires a in disk && DistinctIds(disk)
    ensures var agents := On(disk, a.service);
            && a in agents && DistinctIds(agents)
            && RoutingFor(disk, a.id, a) == Routing(AddressesOf(a), AllAddresses(Others(agents, a.id)),
                 IsOldest(agents, a))
  {
    var agents := On(disk, a.service);
    assert DistinctIds(agents);
    if IsOldest(agents, a) {
      OldestIsOne(agents, a, Oldest(agents).value);
    }
  }

  /** Every agent on the account keeps exactly what the rule gives it. */
  lemma KeepsByTheRule(disk: seq<Agent>, a: Agent, addresses: seq<string>, lex: Lexer)
    requires a in disk && DistinctIds(disk)
    ensures Keeps(RoutingFor(disk, a.id, a), addresses, lex) == ByTheRule(On(disk, a.service), a, addresses, lex)
  {
    var agents := On(disk, a.service);
    OwnRouting(disk, a);
    AnyOfAll(Others(agents, a.id), Found(addresses, lex), lex);
    if !Has(a, addresses, lex) {
      OthersAreTheRest(agents, a, addresses, lex);
    }
  }

  lemma OthersAreTheRest(agents: seq<Agent>, a: Agent, addresses: seq<string>, lex: Lexer)
    requires a in agents && DistinctIds(agents) && !Has(a, addresses, lex)
    ensures Claimed(Others(agents, a.id), addresses, lex) <==> Claimed(agents, addresses, lex)
  {
  }

  // ---- One keeper each ----

  ghost predicate IsKeeper(disk: seq<Agent>, a: Agent, addresses: seq<string>, lex: Lexer) {
    a in disk && Keeps(RoutingFor(disk, a.id, a), addresses, lex).Some?
  }

  /** No two agents have addresses that compare equal, but for ones that come to nothing. */
  predicate Disjoint(agents: seq<Agent>, lex: Lexer) {
    forall a, b :: a in agents && b in agents && a != b ==> !Clash(a, b, lex)
  }

  predicate Clash(a: Agent, b: Agent, lex: Lexer) {
    exists x, y :: x in AddressesOf(a) && y in AddressesOf(b) && Normalize(x, lex) == Normalize(y, lex) != ""
  }

  /** No mail of an account with agents is lost, whatever is on it and however addresses collide. */
  lemma SomebodyKeeps(disk: seq<Agent>, service: string, addresses: seq<string>, lex: Lexer)
    returns (keeper: Agent)
    requires DistinctIds(disk) && On(disk, service) != []
    ensures keeper in On(disk, service) && IsKeeper(disk, keeper, addresses, lex)
  {
    var agents := On(disk, service);
    if Claimed(agents, addresses, lex) {
      keeper :| keeper in agents && Has(keeper, addresses, lex);
    } else {
      keeper := Oldest(agents).value;
    }
    SameAgents(disk, keeper, service);
    KeepsByTheRule(disk, keeper, addresses, lex);
  }

  lemma SameAgents(disk: seq<Agent>, a: Agent, service: string)
    requires a in On(disk, service)
    ensures a in disk && a.service == service
  {
  }

  /** Mail that two agents keep is addressed to both. */
  lemma KeptTwiceIsAddressedToBoth(disk: seq<Agent>, a: Agent, b: Agent, addresses: seq<string>, lex: Lexer)
    requires DistinctIds(disk) && a != b && a.service == b.service
    requires IsKeeper(disk, a, addresses, lex) && IsKeeper(disk, b, addresses, lex)
    ensures Has(a, addresses, lex) && Has(b, addresses, lex)
  {
    KeepsByTheRule(disk, a, addresses, lex);
    KeepsByTheRule(disk, b, addresses, lex);
    var agents := On(disk, a.service);
    assert DistinctIds(agents);
    if !Has(a, addresses, lex) || !Has(b, addresses, lex) {
      assert IsOldest(agents, a) && IsOldest(agents, b);
      OldestIsOne(agents, a, b);
    }
  }

  ghost predicate OneKeeperEach(disk: seq<Agent>, service: string, lex: Lexer) {
    forall a: Agent, b: Agent, address | a.service == b.service == service ::
      IsKeeper(disk, a, [address], lex) && IsKeeper(disk, b, [address], lex) ==> a == b
  }

  lemma HasOne(a: Agent, address: string, lex: Lexer)
    ensures var n := Normalize(address, lex);
            Has(a, [address], lex) <==> n != "" && exists x :: x in AddressesOf(a) && Normalize(x, lex) == n
  {
    var found := Found([address], lex);
    assert forall n :: n in found <==> n != "" && n == Normalize(address, lex);
  }

  /** Each address belongs to exactly one agent precisely when no two agents' addresses compare equal. */
  lemma OneKeeperExactlyWhenDisjoint(disk: seq<Agent>, service: string, lex: Lexer)
    requires DistinctIds(disk)
    ensures OneKeeperEach(disk, service, lex) <==> Disjoint(On(disk, service), lex)
  {
    if Disjoint(On(disk, service), lex) {
      DisjointGivesOneKeeper(disk, service, lex);
    }
    if OneKeeperEach(disk, service, lex) {
      OneKeeperGivesDisjoint(disk, service, lex);
    }
  }

  lemma BothHaveClash(a: Agent, b: Agent, address: string, lex: Lexer)
    requires Has(a, [address], lex) && Has(b, [address], lex)
    ensures Clash(a, b, lex)
  {
    HasOne(a, address, lex);
    HasOne(b, address, lex);
    var x :| x in AddressesOf(a) && Normalize(x, lex) == Normalize(address, lex);
    var y :| y in AddressesOf(b) && Normalize(y, lex) == Normalize(address, lex);
  }

  lemma DisjointGivesOneKeeper(disk: seq<Agent>, service: string, lex: Lexer)
    requires DistinctIds(disk) && Disjoint(On(disk, service), lex)
    ensures OneKeeperEach(disk, service, lex)
  {
    forall a: Agent, b: Agent, address | a.service == b.service == service && a != b
                        && IsKeeper(disk, a, [address], lex) && IsKeeper(disk, b, [address], lex)
      ensures Clash(a, b, lex) && a in On(disk, service) && b in On(disk, service)
    {
      KeptTwiceIsAddressedToBoth(disk, a, b, [address], lex);
      BothHaveClash(a, b, address, lex);
    }
  }

  lemma KeepsItsOwn(disk: seq<Agent>, a: Agent, x: string, address: string, lex: Lexer)
    requires DistinctIds(disk) && a in disk && x in AddressesOf(a)
    requires Normalize(x, lex) == Normalize(address, lex) != ""
    ensures IsKeeper(disk, a, [address], lex)
  {
    HasOne(a, address, lex);
    KeepsByTheRule(disk, a, [address], lex);
  }

  lemma OneKeeperGivesDisjoint(disk: seq<Agent>, service: string, lex: Lexer)
    requires DistinctIds(disk) && OneKeeperEach(disk, service, lex)
    ensures Disjoint(On(disk, service), lex)
  {
    forall a, b | a in On(disk, service) && b in On(disk, service) && Clash(a, b, lex)
      ensures a == b
    {
      var x, y :| x in AddressesOf(a) && y in AddressesOf(b) && Normalize(x, lex) == Normalize(y, lex) != "";
      KeepsItsOwn(disk, a, x, x, lex);
      KeepsItsOwn(disk, b, y, x, lex);
    }
  }

  // ---- Removing an agent ----

  /** What is left once an agent's directory is gone. */
  function Without(disk: seq<Agent>, gone: Agent): (left: seq<Agent>)
    ensures forall a :: a in left <==> a in disk && a != gone
  {
    Filter(disk, (a: Agent) => a != gone)
  }

  /** Mail addressed to an agent that stays is kept as before by all that stay. */
  lemma RemovalLeavesTheRest(disk: seq<Agent>, gone: Agent, a: Agent, b: Agent, addresses: seq<string>, lex: Lexer)
    requires DistinctIds(disk) && gone in disk && a in disk && b in disk && a != gone && b != gone
    requires a.service == b.service == gone.service && Has(b, addresses, lex)
    ensures Keeps(RoutingFor(Without(disk, gone), a.id, a), addresses, lex)
            == Keeps(RoutingFor(disk, a.id, a), addresses, lex)
  {
    KeepsByTheRule(disk, a, addresses, lex);
    KeepsByTheRule(Without(disk, gone), a, addresses, lex);
    assert b in On(disk, gone.service) && b in On(Without(disk, gone), gone.service);
    assert Claimed(On(disk, gone.service), addresses, lex);
    assert Claimed(On(Without(disk, gone), gone.service), addresses, lex);
  }

  /** The rest, once the removed agent's own or nobody's, is all and only the next oldest's. */
  lemma RemovalHandsOn(disk: seq<Agent>, gone: Agent, a: Agent, addresses: seq<string>, lex: Lexer)
    requires DistinctIds(disk) && gone in disk && a in Without(disk, gone) && a.service == gone.service
    requires !Claimed(On(Without(disk, gone), gone.service), addresses, lex)
    ensures var left := On(Without(disk, gone), gone.service);
            && left != []
            && (Keeps(RoutingFor(Without(disk, gone), a.id, a), addresses, lex)
               == if a == Oldest(left).value then Some(Unclaimed) else None)
  {
    var left := On(Without(disk, gone), gone.service);
    assert a in left;
    KeepsByTheRule(Without(disk, gone), a, addresses, lex);
    assert DistinctIds(left);
    if IsOldest(left, a) {
      OldestIsOne(left, a, Oldest(left).value);
    }
  }

  /** Removing any agent but the oldest leaves the catch-all where it was. */
  lemma RemovalKeepsTheOldest(disk: seq<Agent>, gone: Agent, first: Agent, a: Agent)
    requires DistinctIds(disk) && gone in disk && a in Without(disk, gone) && a.service == gone.service
    requires IsOldest(On(disk, gone.service), first) && first != gone
    ensures RoutingFor(Without(disk, gone), a.id, a).catchAll <==> a == first
  {
    var left := Without(disk, gone);
    assert first in disk && first.service == gone.service by {
      SameAgents(disk, first, gone.service);
    }
    assert IsOldest(On(left, gone.service), first);
    OwnRouting(left, a);
    if IsOldest(On(left, gone.service), a) {
      OldestIsOne(On(left, gone.service), a, first);
    }
  }

  /** A sync still running for a removed agent keeps, while any agent is left, only mail to its own addresses. */
  lemma GoneKeepsOnlyItsOwn(disk: seq<Agent>, gone: Agent, addresses: seq<string>, lex: Lexer)
    requires forall a :: a in disk ==> a.id != gone.id
    requires On(disk, gone.service) != []
    ensures Keeps(RoutingFor(disk, gone.id, gone), addresses, lex)
            == if Has(gone, addresses, lex) then Some(Mine) else None
  {
    var agents := On(disk, gone.service);
    assert Oldest(agents).value in disk;
    assert RoutingFor(disk, gone.id, gone).own == AddressesOf(gone);
  }
}
