// What changing an agent's address answers and leaves, by what was typed, the agents and the service alone.
module AddressAnswers {
  import opened Prelude
  import opened Text
  import opened TextLaws
  import opened Routing
  import opened AgentAddress

  /** What was typed is this address, in any case and with white space around. */
  ghost predicate IsTyped(typed: string, address: string, lex: Lexer) {
    exists before, s, after ::
      && typed == before + s + after && AllOf(before, lex.isSpace) && AllOf(after, lex.isSpace)
      && EndsStay(s, lex.isSpace) && lex.lower(s) == address
  }

  /** Another agent of the same service account has the address. */
  predicate IsAnothers(disk: seq<Agent>, me: Agent, address: string) {
    exists b :: b in disk && b.id != me.id && b.service == me.service
             && (b.address == address || b.managed == Some(address))
  }

  predicate IsLocal(local: string, lex: Lexer) {
    local != "" && forall c :: c in local ==> !lex.isSpace(c)
  }

  predicate IsVerified(domain: string, faults: Faults) {
    match faults.domains
    case Some(domains) => domain in domains
    case None => false
  }

  /** The address is well formed, no other agent's, and the agent's first one or at a verified domain. */
  predicate MayMove(disk: seq<Agent>, me: Agent, local: string, domain: string, faults: Faults, lex: Lexer) {
    && IsLocal(local, lex) && !IsAnothers(disk, me, local + "@" + domain)
    && (me.managed == Some(local + "@" + domain) || IsVerified(domain, faults))
  }

  lemma GivenIs(typed: string, address: string, lex: Lexer)
    requires IsTyped(typed, address, lex)
    ensures Given(typed, lex) == address
  {
    var before, s, after :| typed == before + s + after && AllOf(before, lex.isSpace) && AllOf(after, lex.isSpace)
                            && EndsStay(s, lex.isSpace) && lex.lower(s) == address;
    TrimDropsEnds(before, s, after, lex.isSpace);
  }

  lemma PartsAre(local: string, domain: string, lex: Lexer)
    requires '@' !in domain
    ensures LastAt(local + "@" + domain) == Some(|local|)
    ensures WellFormed(local + "@" + domain, lex) <==> IsLocal(local, lex)
    ensures DomainOf(local + "@" + domain) == domain
  {
    LastAtIs(local, domain);
    assert (local + "@" + domain)[..|local|] == local;
    assert (local + "@" + domain)[|local| + 1..] == domain;
  }

  lemma TakenIs(disk: seq<Agent>, me: Agent, address: string)
    ensures Taken(disk, me, address) <==> IsAnothers(disk, me, address)
  {
  }

  /** Each answer, exactly when it is given. */
  lemma AnswersExactly(disk: seq<Agent>, me: Agent, typed: string, local: string, domain: string, faults: Faults,
                       lex: Lexer)
    requires DistinctIds(disk) && me in disk
    requires IsTyped(typed, local + "@" + domain, lex) && '@' !in domain
    ensures var r := Changed(disk, me.id, typed, faults, lex).1;
            var may, first := MayMove(disk, me, local, domain, faults, lex), me.managed == Some(local + "@" + domain);
            var free := IsLocal(local, lex) && !IsAnothers(disk, me, local + "@" + domain);
            && (r.Ok? <==> may && !faults.write && !faults.provider && !faults.afterwards)
            && (r == Err(InvalidInput) <==> !free || (!first && faults.domains.Some? && !IsVerified(domain, faults)))
            && (r == Err(Service) <==> free && !first && faults.domains.None?)
            && (r == Err(Provider) <==> may && !faults.write && faults.provider && !faults.revert)
            && r != Err(NotFound)
  {
    GivenIs(typed, local + "@" + domain, lex);
    PartsAre(local, domain, lex);
    TakenIs(disk, me, local + "@" + domain);
    assert Find(disk, me.id) == Some(me);
  }

  /** The agent moves exactly if it may and is written, unless it is moved back; nobody else does. */
  lemma MovesExactly(disk: seq<Agent>, me: Agent, typed: string, local: string, domain: string, faults: Faults,
                     lex: Lexer)
    requires DistinctIds(disk) && me in disk
    requires IsTyped(typed, local + "@" + domain, lex) && '@' !in domain
    ensures var after := Changed(disk, me.id, typed, faults, lex).0;
            var moves := MayMove(disk, me, local, domain, faults, lex)
                         && !faults.write && (!faults.provider || faults.revert);
            && |after| == |disk|
            && forall i :: 0 <= i < |disk| ==>
                 after[i] == if disk[i].id == me.id && moves then disk[i].(address := local + "@" + domain) else disk[i]
  {
    GivenIs(typed, local + "@" + domain, lex);
    PartsAre(local, domain, lex);
    TakenIs(disk, me, local + "@" + domain);
    assert Find(disk, me.id) == Some(me);
  }

  /** What has no `@` is no address. */
  lemma NoAddress(disk: seq<Agent>, id: string, typed: string, address: string, faults: Faults, lex: Lexer)
    requires IsTyped(typed, address, lex) && '@' !in address
    ensures Changed(disk, id, typed, faults, lex) == (disk, Err(InvalidInput))
  {
    GivenIs(typed, address, lex);
  }

  lemma NoSuchAgent(disk: seq<Agent>, id: string, typed: string, local: string, domain: string, faults: Faults,
                    lex: Lexer)
    requires IsTyped(typed, local + "@" + domain, lex) && '@' !in domain && forall a :: a in disk ==> a.id != id
    ensures Changed(disk, id, typed, faults, lex)
         == (disk, Err(if IsLocal(local, lex) then NotFound else InvalidInput))
  {
    GivenIs(typed, local + "@" + domain, lex);
    PartsAre(local, domain, lex);
  }
}
