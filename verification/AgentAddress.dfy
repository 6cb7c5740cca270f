// Changing the address an agent sends and receives as
// (`set_agent_address` of crates/kaluta-core/src/agent_mailbox.rs), and what that does to routing.
module AgentAddress {
  import opened Prelude
  import opened Text
  import opened Routing

  datatype Error = InvalidInput | NotFound | Service | Storage | Provider

  /** What the world does to one call: the verified domains the service answers with, and the steps that fail. */
  datatype Faults = Faults(domains: Option<set<string>>, write: bool, provider: bool, revert: bool, afterwards: bool)

  function Find(disk: seq<Agent>, id: string): Option<Agent> {
    First(disk, (a: Agent) => a.id == id)
  }

  /** Another agent of the service account has exactly this address. */
  predicate Taken(disk: seq<Agent>, me: Agent, address: string) {
    exists b :: b in disk && b.id != me.id && b.service == me.service
             && (b.address == address || b.managed == Some(address))
  }

  /** The addresses `set_agent_address` can read: a local part without white space, and an `@`. */
  predicate WellFormed(address: string, lex: Lexer) {
    var at := LastAt(address);
    at.Some? && at.value > 0 && forall c :: c in address[..at.value] ==> !lex.isSpace(c)
  }

  function DomainOf(address: string): string
    requires LastAt(address).Some?
  {
    address[LastAt(address).value + 1..]
  }

  function Given(typed: string, lex: Lexer): string {
    lex.lower(Trim(typed, lex.isSpace))
  }

  /** The agents with `id` at `address`. */
  function Moved(disk: seq<Agent>, id: string, address: string): (moved: seq<Agent>)
    ensures |moved| == |disk|
    ensures forall i :: 0 <= i < |disk| ==>
      moved[i] == if disk[i].id == id then disk[i].(address := address) else disk[i]
  {
    if disk == [] then []
    else [if disk[0].id == id then disk[0].(address := address) else disk[0]] + Moved(disk[1..], id, address)
  }

  /** What the call refuses before it changes anything. */
  function Refusal(disk: seq<Agent>, id: string, address: string, faults: Faults, lex: Lexer): Option<Error> {
    var me := Find(disk, id);
    if !WellFormed(address, lex) then Some(InvalidInput)
    else if me.None? then Some(NotFound)
    else if Taken(disk, me.value, address) then Some(InvalidInput)
    else if me.value.managed == Some(address) then None
    else if faults.domains.None? then Some(Service)
    else if DomainOf(address) !in faults.domains.value then Some(InvalidInput)
    else None
  }

  /** The agents after the call, and its answer. */
  function Changed(disk: seq<Agent>, id: string, typed: string, faults: Faults, lex: Lexer)
    : (seq<Agent>, Result<(), Error>)
  {
    var address := Given(typed, lex);
    var refusal := Refusal(disk, id, address, faults, lex);
    if refusal.Some? then (disk, Err(refusal.value))
    else if faults.write then (disk, Err(Storage))
    else if faults.provider then
      if faults.revert then (Moved(disk, id, address), Err(Storage)) else (disk, Err(Provider))
    else (Moved(disk, id, address), if faults.afterwards then Err(Storage) else Ok(()))
  }

  class Accounts {
    /** Every `agent.json`, by directory. */
    var disk: seq<Agent>

    constructor (disk: seq<Agent>)
      ensures this.disk == disk
    {
      this.disk := disk;
    }

    /** Writes an agent's `agent.json`; a failed write leaves the old one. */
    method WriteMeta(id: string, address: string, fails: bool) returns (ok: bool)
      modifies this
      ensures ok == !fails
      ensures disk == if fails then old(disk) else Moved(old(disk), id, address)
    {
      ok := !fails;
      if ok {
        disk := Moved(disk, id, address);
      }
    }

    /** Send and receive as another address. */
    method SetAddress(id: string, typed: string, faults: Faults, lex: Lexer) returns (r: Result<(), Error>)
      requires DistinctIds(disk)
      modifies this
      ensures (disk, r) == Changed(old(disk), id, typed, faults, lex)
    {
      var address := lex.lower(Trim(typed, lex.isSpace));
      if !WellFormed(address, lex) {
        return Err(InvalidInput);
      }
      var me := Find(disk, id);
      if me.None? {
        return Err(NotFound);
      }
      if Taken(disk, me.value, address) {
        return Err(InvalidInput);
      }
      var managed := me.value.managed.Some? && me.value.managed.value == address;
      if !managed {
        if faults.domains.None? {
          return Err(Service);
        }
        if DomainOf(address) !in faults.domains.value {
          return Err(InvalidInput);
        }
      }
      var written := WriteMeta(id, address, faults.write);
      if !written {
        return Err(Storage);
      }
      if faults.provider {
        MovedBack(old(disk), me.value, address);
        var reverted := WriteMeta(id, me.value.address, faults.revert);
        return Err(if reverted then Provider else Storage);
      }
      r := if faults.afterwards then Err(Storage) else Ok(());
    }
  }

  /** Writing the previous `agent.json` undoes the change. */
  lemma {:induction false} MovedBack(disk: seq<Agent>, me: Agent, address: string)
    requires DistinctIds(disk) && me in disk
    ensures Moved(Moved(disk, me.id, address), me.id, me.address) == disk
  {
    var back := Moved(Moved(disk, me.id, address), me.id, me.address);
    forall i | 0 <= i < |disk|
      ensures back[i] == disk[i]
    {
      if disk[i].id == me.id {
        assert disk[i] in disk && disk[i] == me;
      }
    }
  }

  // ---- What the call can do ----

  /**
   * Whatever fails, the agents are as before or the one is moved; a refusal changes nothing,
   * and success really moves it.
   */
  lemma MovedOrAsBefore(disk: seq<Agent>, id: string, typed: string, faults: Faults, lex: Lexer)
    ensures var (after, r) := Changed(disk, id, typed, faults, lex);
            && (after == disk || after == Moved(disk, id, Given(typed, lex)))
            && (r.Err? && r.error != Storage ==> after == disk)
            && (after != disk || r.Ok? ==> Refusal(disk, id, Given(typed, lex), faults, lex).None?)
            && (r.Ok? ==> after == Moved(disk, id, Given(typed, lex)))
            && (r.Ok? ==> exists a :: a in after && a.id == id && a.address == Given(typed, lex))
  {
    var (after, r) := Changed(disk, id, typed, faults, lex);
    if r.Ok? {
      var me := Find(disk, id).value;
      var i :| 0 <= i < |disk| && disk[i] == me;
      assert after[i] in after;
    }
  }

  // ---- And to routing ----

  /** Another agent of the account has an address that compares equal. */
  predicate TakenAsCompared(disk: seq<Agent>, me: Agent, address: string, lex: Lexer) {
    exists b :: b in disk && b.id != me.id && b.service == me.service && At(b, address, lex)
  }

  predicate At(b: Agent, address: string, lex: Lexer) {
    exists y :: y in AddressesOf(b) && Normalize(y, lex) == Normalize(address, lex) != ""
  }

  /** Who is there after a move: the one moved, and all others as they were. */
  predicate IsThere(disk: seq<Agent>, me: Agent, address: string, b: Agent) {
    b == me.(address := address) || (b in disk && b.id != me.id)
  }

  lemma MovedHas(disk: seq<Agent>, me: Agent, address: string, b: Agent)
    requires DistinctIds(disk) && me in disk
    ensures b in Moved(disk, me.id, address) <==> IsThere(disk, me, address, b)
  {
    var moved := Moved(disk, me.id, address);
    if b in moved {
      var i :| 0 <= i < |moved| && moved[i] == b;
      assert disk[i] in disk;
    }
    if IsThere(disk, me, address, b) {
      var a := if b == me.(address := address) then me else b;
      var i :| 0 <= i < |disk| && disk[i] == a;
      assert moved[i] == b;
    }
  }

  lemma MovedHolds(disk: seq<Agent>, me: Agent, address: string)
    requires DistinctIds(disk) && me in disk
    ensures DistinctIds(Moved(disk, me.id, address))
    ensures forall b :: b in Moved(disk, me.id, address) <==> IsThere(disk, me, address, b)
  {
    forall b
      ensures b in Moved(disk, me.id, address) <==> IsThere(disk, me, address, b)
    {
      MovedHas(disk, me, address, b);
    }
  }

  lemma MovedClash(me: Agent, b: Agent, address: string, lex: Lexer)
    requires !Clash(me, b, lex)
    ensures Clash(me.(address := address), b, lex) <==> At(b, address, lex)
    ensures Clash(b, me.(address := address), lex) <==> At(b, address, lex)
  {
    var moved := me.(address := address);
    assert address in AddressesOf(moved);
    assert forall x :: x in AddressesOf(moved) ==> x == address || x in AddressesOf(me);
  }

  lemma MovedAmong(disk: seq<Agent>, me: Agent, address: string)
    requires DistinctIds(disk) && me in disk
    ensures var moved := me.(address := address);
            var before, after := On(disk, me.service), On(Moved(disk, me.id, address), me.service);
            && me in before && moved in after
            && forall b :: b in after && b != moved <==> b in before && b.id != me.id
  {
    var moved := me.(address := address);
    var before, after := On(disk, me.service), On(Moved(disk, me.id, address), me.service);
    MovedHolds(disk, me, address);
    forall b
      ensures b in after && b != moved <==> b in before && b.id != me.id
    {
      assert b in Moved(disk, me.id, address) <==> IsThere(disk, me, address, b);
    }
  }

  lemma FreeKeepsDisjoint(disk: seq<Agent>, me: Agent, address: string, lex: Lexer)
    requires DistinctIds(disk) && me in disk && Disjoint(On(disk, me.service), lex)
    requires !TakenAsCompared(disk, me, address, lex)
    ensures Disjoint(On(Moved(disk, me.id, address), me.service), lex)
  {
    MovedAmong(disk, me, address);
    MovedHolds(disk, me, address);
    var moved, after := me.(address := address), On(Moved(disk, me.id, address), me.service);
    forall b | b in after && b != moved
      ensures !Clash(moved, b, lex) && !Clash(b, moved, lex)
    {
      MovedClash(me, b, address, lex);
    }
  }

  lemma TakenClashes(disk: seq<Agent>, me: Agent, address: string, lex: Lexer)
    requires DistinctIds(disk) && me in disk && Disjoint(On(disk, me.service), lex)
    requires TakenAsCompared(disk, me, address, lex)
    ensures !Disjoint(On(Moved(disk, me.id, address), me.service), lex)
  {
    MovedAmong(disk, me, address);
    var moved, after := me.(address := address), On(Moved(disk, me.id, address), me.service);
    var b :| b in disk && b.id != me.id && b.service == me.service && At(b, address, lex);
    assert b in On(disk, me.service);
    assert b in after && b != moved;
    MovedClash(me, b, address, lex);
  }

  /**
   * Moving an agent keeps the account's addresses apart exactly when no other agent of it
   * is at the new address as routing compares them.
   */
  lemma MoveKeepsDisjointExactly(disk: seq<Agent>, me: Agent, address: string, lex: Lexer)
    requires DistinctIds(disk) && me in disk && Disjoint(On(disk, me.service), lex)
    ensures Disjoint(On(Moved(disk, me.id, address), me.service), lex) <==> !TakenAsCompared(disk, me, address, lex)
  {
    if TakenAsCompared(disk, me, address, lex) {
      TakenClashes(disk, me, address, lex);
    } else {
      FreeKeepsDisjoint(disk, me, address, lex);
    }
  }

  // ---- Runs of calls ----

  predicate Plain(address: string, lex: Lexer) {
    Normalize(address, lex) == address
  }

  predicate AllPlain(disk: seq<Agent>, lex: Lexer) {
    forall a, x :: a in disk && x in AddressesOf(a) ==> Plain(x, lex)
  }

  ghost predicate Apart(disk: seq<Agent>, lex: Lexer) {
    DistinctIds(disk) && AllPlain(disk, lex) && forall service :: Disjoint(On(disk, service), lex)
  }

  /** Among addresses as routing compares them, the check the call makes is the one that is needed. */
  lemma PlainChecksEnough(disk: seq<Agent>, me: Agent, address: string, lex: Lexer)
    requires AllPlain(disk, lex) && Plain(address, lex) && address != ""
    ensures Taken(disk, me, address) <==> TakenAsCompared(disk, me, address, lex)
  {
    forall b | b in disk
      ensures At(b, address, lex) <==> (b.address == address || b.managed == Some(address))
    {
      PlainIsAt(disk, b, address, lex);
    }
  }

  lemma PlainIsAt(disk: seq<Agent>, b: Agent, address: string, lex: Lexer)
    requires AllPlain(disk, lex) && b in disk && Plain(address, lex) && address != ""
    ensures At(b, address, lex) <==> (b.address == address || b.managed == Some(address))
  {
    assert forall y :: y in AddressesOf(b) ==> Normalize(y, lex) == y by {
      assert forall y :: y in AddressesOf(b) ==> Plain(y, lex);
    }
    assert address in AddressesOf(b) <==> (b.address == address || b.managed == Some(address));
    if address in AddressesOf(b) {
      assert Normalize(address, lex) == address;
    }
  }

  lemma OtherAccountsStay(disk: seq<Agent>, me: Agent, address: string, service: string, lex: Lexer)
    requires DistinctIds(disk) && me in disk && service != me.service && Disjoint(On(disk, service), lex)
    ensures Disjoint(On(Moved(disk, me.id, address), service), lex)
  {
    MovedHolds(disk, me, address);
    var before, after := On(disk, service), On(Moved(disk, me.id, address), service);
    assert forall b :: b in after ==> b in before;
  }

  lemma MovedPlain(disk: seq<Agent>, me: Agent, address: string, lex: Lexer)
    requires DistinctIds(disk) && me in disk && AllPlain(disk, lex) && Plain(address, lex)
    ensures AllPlain(Moved(disk, me.id, address), lex)
  {
    MovedHolds(disk, me, address);
    var moved := me.(address := address);
    assert forall x :: x in AddressesOf(moved) ==> x == address || x in AddressesOf(me);
  }

  lemma CallKeepsApart(disk: seq<Agent>, id: string, typed: string, faults: Faults, lex: Lexer)
    requires Apart(disk, lex) && Plain(Given(typed, lex), lex)
    ensures Apart(Changed(disk, id, typed, faults, lex).0, lex)
  {
    var address, after := Given(typed, lex), Changed(disk, id, typed, faults, lex).0;
    MovedOrAsBefore(disk, id, typed, faults, lex);
    if after != disk {
      var me := Find(disk, id).value;
      PlainChecksEnough(disk, me, address, lex);
      MovedHolds(disk, me, address);
      MovedPlain(disk, me, address, lex);
      forall service
        ensures Disjoint(On(after, service), lex)
      {
        if service == me.service {
          MoveKeepsDisjointExactly(disk, me, address, lex);
        } else {
          OtherAccountsStay(disk, me, address, service, lex);
        }
      }
    }
  }

  datatype Call = Call(id: string, typed: string, faults: Faults)

  function After(disk: seq<Agent>, calls: seq<Call>, lex: Lexer): seq<Agent>
    decreases |calls|
  {
    if calls == [] then disk
    else
      var call := Last(calls);
      Changed(After(disk, Init(calls), lex), call.id, call.typed, call.faults, lex).0
  }

  /** Over any calls with addresses as routing compares them, whatever fails, every address stays one agent's. */
  lemma {:induction false} CallsKeepOneKeeper(disk: seq<Agent>, calls: seq<Call>, service: string, lex: Lexer)
    requires Apart(disk, lex) && forall call :: call in calls ==> Plain(Given(call.typed, lex), lex)
    ensures Apart(After(disk, calls, lex), lex) && OneKeeperEach(After(disk, calls, lex), service, lex)
    decreases |calls|
  {
    if calls != [] {
      CallsKeepOneKeeper(disk, Init(calls), service, lex);
      var call := Last(calls);
      CallKeepsApart(After(disk, Init(calls), lex), call.id, call.typed, call.faults, lex);
    }
    OneKeeperExactlyWhenDisjoint(After(disk, calls, lex), service, lex);
  }

  // ---- Where the check is not enough: a `+tag` ----

  predicate IsPart(s: string, lex: Lexer) {
    s != "" && forall c :: c in s ==> c !in {'@', '<', '>'} && !lex.isSpace(c)
  }

  lemma {:induction false} LastAtIs(local: string, domain: string)
    requires '@' !in domain
    ensures LastAt(local + "@" + domain) == Some(|local|)
    decreases |domain|
  {
    var s := local + "@" + domain;
    if domain == "" {
      assert Last(s) == '@';
    } else {
      assert Last(s) == Last(domain) && Last(domain) in domain;
      assert Init(s) == local + "@" + Init(domain);
      LastAtIs(local, Init(domain));
    }
  }

  lemma UntaggedIs(local: string, tag: string, domain: string)
    requires '+' !in local && '@' !in domain && (tag == "" || tag[0] == '+')
    ensures Untagged(local + tag + "@" + domain) == local + "@" + domain
  {
    var address := local + tag + "@" + domain;
    LastAtIs(local + tag, domain);
    assert address[..|local + tag|] == local + tag;
    assert address[|local + tag|..] == "@" + domain;
    UntilTag(local, tag);
    assert (local + tag)[..|local|] == local;
    assert local + ("@" + domain) == local + "@" + domain;
    assert Untagged(address) == (local + tag)[..Until(local + tag, c => c == '+')] + ("@" + domain);
  }

  lemma UntilTag(local: string, tag: string)
    requires '+' !in local && (tag == "" || tag[0] == '+')
    ensures Until(local + tag, c => c == '+') == |local|
  {
    var s := local + tag;
    assert forall i :: 0 <= i < |local| ==> s[i] == local[i] && local[i] in local;
    assert tag != "" ==> s[|local|] == '+';
    assert Until(s, c => c == '+') >= |local|;
  }

  /** A `+tag` is not part of an address as compared. */
  lemma TagIsDropped(local: string, tag: string, domain: string, lex: Lexer)
    requires IsPart(local, lex) && IsPart(domain, lex) && '+' !in local && (tag == "" || tag[0] == '+')
    requires lex.lower(local + tag + "@" + domain) == local + tag + "@" + domain
    ensures Normalize(local + tag + "@" + domain, lex) == local + "@" + domain
  {
    var address := local + tag + "@" + domain;
    assert address[0] == local[0] && local[0] in local;
    assert Last(address) == Last(domain) && Last(domain) in domain;
    UntaggedIs(local, tag, domain);
    BareIsUntagged(address, lex);
  }

  lemma NoTagIsDropped(local: string, domain: string, lex: Lexer)
    requires IsPart(local, lex) && IsPart(domain, lex) && '+' !in local
    requires lex.lower(local + "@" + domain) == local + "@" + domain
    ensures Normalize(local + "@" + domain, lex) == local + "@" + domain
  {
    assert local + "" == local;
    TagIsDropped(local, "", domain, lex);
  }

  lemma SameMeansClash(a: Agent, b: Agent, lex: Lexer)
    requires Normalize(a.address, lex) == Normalize(b.address, lex) != ""
    ensures Clash(a, b, lex)
  {
    assert a.address in AddressesOf(a) && b.address in AddressesOf(b);
  }

  lemma TagsClash(moved: Agent, other: Agent, local: string, tag: string, domain: string, lex: Lexer)
    requires IsPart(local, lex) && IsPart(domain, lex) && '+' !in local && tag != "" && tag[0] == '+'
    requires other.address == local + "@" + domain && lex.lower(other.address) == other.address
    requires moved.address == local + tag + "@" + domain && lex.lower(moved.address) == moved.address
    ensures Clash(moved, other, lex)
  {
    TagIsDropped(local, tag, domain, lex);
    NoTagIsDropped(local, domain, lex);
    SameMeansClash(moved, other, lex);
  }

  /** A move to an address nobody has exactly, at a verified domain, goes through. */
  lemma FreeAddressIsAccepted(disk: seq<Agent>, me: Agent, local: string, domain: string, lex: Lexer)
    requires DistinctIds(disk) && me in disk && '@' !in domain
    requires var address := local + "@" + domain;
      Given(address, lex) == address && WellFormed(address, lex) && !Taken(disk, me, address)
    ensures var address := local + "@" + domain;
      Changed(disk, me.id, address, Faults(Some({domain}), false, false, false, false), lex)
      == (Moved(disk, me.id, address), Ok(()))
  {
    var address := local + "@" + domain;
    LastAtIs(local, domain);
    assert DomainOf(address) == domain;
    assert Find(disk, me.id) == Some(me);
  }

  /**
   * So two agents of one account can end up with one address as compared: a move that only
   * adds a `+tag` to another's address is accepted.
   */
  lemma TagSlipsThrough(disk: seq<Agent>, me: Agent, other: Agent, local: string, tag: string, domain: string,
      lex: Lexer)
    requires DistinctIds(disk) && me in disk && other in disk && me.id != other.id && me.service == other.service
    requires IsPart(local, lex) && IsPart(domain, lex) && '+' !in local && tag != "" && tag[0] == '+'
    requires other.address == local + "@" + domain && lex.lower(other.address) == other.address
    requires var address := local + tag + "@" + domain;
      Given(address, lex) == address && WellFormed(address, lex) && !Taken(disk, me, address) && lex.lower(address)
          == address
    ensures var (after, r) := Changed(disk, me.id, local + tag + "@" + domain,
            Faults(Some({domain}), false, false, false, false), lex);
            r == Ok(()) && !Disjoint(On(after, me.service), lex)
  {
    var address := local + tag + "@" + domain;
    var moved := me.(address := address);
    FreeAddressIsAccepted(disk, me, local + tag, domain, lex);
    TagsClash(moved, other, local, tag, domain, lex);
    MovedAmong(disk, me, address);
    assert other in On(disk, me.service);
  }
}
