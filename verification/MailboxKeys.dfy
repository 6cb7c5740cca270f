// Whether a stored AgentMail key still works, with the service as
// `FakeMailboxService` plays it: signing up again for an email gives its
// organisation a new key and the old one stops working.
module MailboxKeys {
  import opened Prelude
  import opened Text
  import opened Names
  import opened Mailbox
  import opened MailboxAccounts
  import opened MailboxLaws

  /** Service account `s`'s stored key is its email's organisation's, and works. */
  predicate Live(w: World, s: string, email: string, lex: Lexer) {
    && s in w.keys
    && lex.lower(email) in w.agentMail.organisations
    && w.agentMail.organisations[lex.lower(email)] == w.keys[s]
    && w.keys[s] in w.agentMail.accounts
  }

  // ---- Which attempts end a key ----

  /** The attempt asks AgentMail for a sign-up, and reaches it. */
  predicate Asks(w: World, req: Request, f: Faults, lex: Lexer) {
    && req.service.AgentMail? && Acceptable(req, lex) && req.id !in w.agents && !Refused(w, req, f, lex)
    && !LooksAtKept(w, req, f)
    && !f.signUp.Unreached?
  }

  function Who(req: Request, lex: Lexer): string
    requires req.service.AgentMail? && Acceptable(req, lex)
  {
    lex.lower(HumanEmail(req, lex).value)
  }

  lemma AgentMailAfter(w: World, req: Request, f: Faults, lex: Lexer)
    ensures Create(w, req, f, lex).0.agentMail
         == if Asks(w, req, f, lex)
            then AskAgentMail(w.agentMail, TidyName(req, lex), req.id, HumanEmail(req, lex).value, lex).0
            else w.agentMail
    ensures Asks(w, req, f, lex) ==> req.id !in w.keys
  {
    if Acceptable(req, lex) {
      if req.service.AgentMail? && req.id in w.agents {
        FinishedLeaves(w, req.id, w.agents[req.id], f, lex);
      } else if !Refused(w, req, f, lex) {
        var (w', r) := SignedUpFor(w, req, f, lex);
        SignedUpAgentMail(w, req, f, lex);
        if r.Ok? {
          RegisteredLeaves(w', req, r.value, f, lex);
        }
      }
    }
  }

  lemma AskedAgentMail(w: World, req: Request, f: Faults, lex: Lexer)
    requires Acceptable(req, lex)
    ensures Asked(w, req, f, lex).0.agentMail
         == if req.service.AgentMail? && !f.signUp.Unreached?
            then AskAgentMail(w.agentMail, TidyName(req, lex), req.id, HumanEmail(req, lex).value, lex).0
            else w.agentMail
  {
  }

  /** The attempt goes by what is kept, or stops looking. */
  predicate LooksAtKept(w: World, req: Request, f: Faults) {
    req.service.AgentMail? && req.id in w.pending && (f.keyReadAgain || req.id in w.keys)
  }

  lemma SignedUpIsAsked(w: World, req: Request, f: Faults, lex: Lexer)
    requires Acceptable(req, lex)
    ensures SignedUpFor(w, req, f, lex).0.agentMail
         == if LooksAtKept(w, req, f) then w.agentMail else Asked(w, req, f, lex).0.agentMail
  {
    if !LooksAtKept(w, req, f) {
      var (w1, asked) := Asked(w, req, f, lex);
      if asked.Ok? {
        KeptHere(w1, req, asked.value.key, Answer(req, asked.value, lex), f);
      }
    }
  }

  lemma SignedUpAgentMail(w: World, req: Request, f: Faults, lex: Lexer)
    requires Acceptable(req, lex) && !Refused(w, req, f, lex) && (req.service.AgentMail? ==> req.id !in w.agents)
    ensures SignedUpFor(w, req, f, lex).0.agentMail
         == if Asks(w, req, f, lex)
            then AskAgentMail(w.agentMail, TidyName(req, lex), req.id, HumanEmail(req, lex).value, lex).0
            else w.agentMail
  {
    SignedUpIsAsked(w, req, f, lex);
    AskedAgentMail(w, req, f, lex);
  }

  /** The sign-ups asked for are those of the attempts that ask. */
  lemma SignsUpExactly(w: World, req: Request, f: Faults, lex: Lexer)
    ensures Create(w, req, f, lex).0.signUps
         == if Asks(w, req, f, lex) then w.signUps + [SignUp(req.id, HumanEmail(req, lex).value)] else w.signUps
  {
    if Acceptable(req, lex) {
      if req.service.AgentMail? && req.id in w.agents {
        FinishedLeaves(w, req.id, w.agents[req.id], f, lex);
      } else if !Refused(w, req, f, lex) {
        SignedUpSignUps(w, req, f, lex);
        var (w', r) := SignedUpFor(w, req, f, lex);
        if r.Ok? {
          RegisteredLeaves(w', req, r.value, f, lex);
        }
      }
    }
  }

  lemma SignedUpSignUps(w: World, req: Request, f: Faults, lex: Lexer)
    requires Acceptable(req, lex) && !Refused(w, req, f, lex) && (req.service.AgentMail? ==> req.id !in w.agents)
    ensures SignedUpFor(w, req, f, lex).0.signUps
         == if Asks(w, req, f, lex) then w.signUps + [SignUp(req.id, HumanEmail(req, lex).value)] else w.signUps
  {
    if !LooksAtKept(w, req, f) {
      var (w1, asked) := Asked(w, req, f, lex);
      if asked.Ok? {
        KeptHere(w1, req, asked.value.key, Answer(req, asked.value, lex), f);
      }
    }
  }

  /** It signs up for an organisation whose key is the stored one. */
  predicate Replaces(w: World, req: Request, f: Faults, s: string, lex: Lexer)
    requires s in w.keys
  {
    && Asks(w, req, f, lex)
    && Who(req, lex) in w.agentMail.organisations
    && w.agentMail.organisations[Who(req, lex)] == w.keys[s]
  }

  /** Or it stores Primitive's key in its place. */
  predicate Overwrites(w: World, req: Request, f: Faults, s: string, lex: Lexer)
    requires s in w.keys
  {
    StoresPrimitiveKey(req, f, lex) && req.id == s && w.keys[s] != Fresh(s)
  }

  predicate Ends(w: World, req: Request, f: Faults, s: string, lex: Lexer)
    requires s in w.keys
  {
    Replaces(w, req, f, s, lex) || Overwrites(w, req, f, s, lex)
  }

  /** What one sign-up does to an organisation's working key. */
  lemma AskingEndsExactly(r: Remote, name: string, id: string, email: string, lex: Lexer, other: string)
    requires other in r.organisations && r.organisations[other] in r.accounts
    ensures var r', who := AskAgentMail(r, name, id, email, lex).0, lex.lower(email);
            && other in r'.organisations
            && (if who in r.organisations && r.organisations[who] == r.organisations[other]
                then r.organisations[other] !in r'.accounts
                else r'.organisations[other] == r.organisations[other] && r.organisations[other] in r'.accounts)
  {
    NotItsOwnSuccessor(r.organisations[other], r.rotations + 1);
  }

  /** A working key works on after an attempt exactly if the attempt does not end it. */
  lemma LiveExactly(w: World, req: Request, f: Faults, s: string, email: string, lex: Lexer)
    requires Live(w, s, email, lex)
    ensures s in Create(w, req, f, lex).0.keys
    ensures Live(Create(w, req, f, lex).0, s, email, lex) <==> !Ends(w, req, f, s, lex)
  {
    AgentMailAfter(w, req, f, lex);
    StoredKeyStaysExactly(w, req, f, lex, s);
    if Asks(w, req, f, lex) {
      AskingEndsExactly(w.agentMail, TidyName(req, lex), req.id, HumanEmail(req, lex).value, lex, lex.lower(email));
    }
  }

  /** No two organisations have one key. */
  predicate KeysApart(r: Remote) {
    forall x, y :: x in r.organisations && y in r.organisations && r.organisations[x] == r.organisations[y] ==> x == y
  }

  /** With a key to each organisation: exactly if it asks for a sign-up for the same email, or overwrites the key. */
  lemma LiveExactlyUnlessItsEmail(w: World, req: Request, f: Faults, s: string, email: string, lex: Lexer)
    requires Live(w, s, email, lex) && KeysApart(w.agentMail)
    ensures Live(Create(w, req, f, lex).0, s, email, lex)
        <==> !(Asks(w, req, f, lex) && Who(req, lex) == lex.lower(email)) && !Overwrites(w, req, f, s, lex)
  {
    LiveExactly(w, req, f, s, email, lex);
  }

  /** The id asks for an organisation nobody has, though its first key is still another's. */
  predicate Shares(w: World, req: Request, f: Faults, lex: Lexer) {
    && Asks(w, req, f, lex)
    && Who(req, lex) !in w.agentMail.organisations
    && !Taken(w.agentMail, LocalPart(TidyName(req, lex), lex) + "@" + AGENTMAIL_DOMAIN)
    && exists x :: x in w.agentMail.organisations && w.agentMail.organisations[x] == Fresh(req.id)
  }

  /** A key was first given to its id, or replaced an older one at most as many replacements ago as there were. */
  predicate GivenTo(k: Key, id: string, rotations: nat) {
    match k
    case Fresh(first) => first == id
    case Rotated(_, n) => n <= rotations
  }

  predicate Counted(r: Remote) {
    forall x :: x in r.organisations && r.organisations[x].Rotated? ==> r.organisations[x].n <= r.rotations
  }

  lemma SharesExactly(w: World, req: Request, f: Faults, lex: Lexer)
    requires KeysApart(w.agentMail) && Counted(w.agentMail)
    ensures Counted(Create(w, req, f, lex).0.agentMail)
    ensures KeysApart(Create(w, req, f, lex).0.agentMail) <==> !Shares(w, req, f, lex)
  {
    AgentMailAfter(w, req, f, lex);
    if Asks(w, req, f, lex) {
      AskingSharesExactly(w.agentMail, TidyName(req, lex), req.id, HumanEmail(req, lex).value, lex);
    }
  }

  lemma AskingSharesExactly(r: Remote, name: string, id: string, email: string, lex: Lexer)
    requires KeysApart(r) && Counted(r)
    ensures Counted(AskAgentMail(r, name, id, email, lex).0)
    ensures KeysApart(AskAgentMail(r, name, id, email, lex).0)
        <==> !(&& lex.lower(email) !in r.organisations
               && !Taken(r, LocalPart(name, lex) + "@" + AGENTMAIL_DOMAIN)
               && exists x :: x in r.organisations && r.organisations[x] == Fresh(id))
  {
    var r', who := AskAgentMail(r, name, id, email, lex).0, lex.lower(email);
    if who !in r.organisations && !Taken(r, LocalPart(name, lex) + "@" + AGENTMAIL_DOMAIN) {
      assert who in r'.organisations && r'.organisations[who] == Fresh(id);
      if x :| x in r.organisations && r.organisations[x] == Fresh(id) {
        assert r'.organisations[x] == Fresh(id);
      }
    }
  }

  // ---- Any number of attempts ----

  /** Every stored key was given to its id. */
  predicate Given(w: World) {
    forall id :: id in w.keys ==> GivenTo(w.keys[id], id, w.agentMail.rotations)
  }

  lemma KeptIsGiven(w: World, req: Request, key: Key, answer: PendingSignUp, f: Faults)
    requires Given(w) && GivenTo(key, req.id, w.agentMail.rotations)
    ensures Given(Kept(w, req, key, answer, f).0)
  {
    var w' := Kept(w, req, key, answer, f).0;
    KeptHere(w, req, key, answer, f);
    forall id | id in w'.keys
      ensures GivenTo(w'.keys[id], id, w'.agentMail.rotations)
    {
      if id != req.id {
        KeptElsewhere(w, req, key, answer, f, id);
      }
    }
  }

  lemma AnsweredIsGiven(r: Remote, name: string, id: string, email: string, lex: Lexer)
    ensures var (r', answer) := AskAgentMail(r, name, id, email, lex);
            r'.rotations >= r.rotations && (answer.Ok? ==> GivenTo(answer.value.key, id, r'.rotations))
  {
  }

  lemma AskedIsGiven(w: World, req: Request, f: Faults, lex: Lexer)
    requires Given(w) && Acceptable(req, lex)
    ensures var (w', r) := Asked(w, req, f, lex);
            Given(w') && (r.Ok? ==> GivenTo(r.value.key, req.id, w'.agentMail.rotations))
  {
    AskedElsewhere(w, req, f, lex);
    if req.service.AgentMail? {
      AnsweredIsGiven(w.agentMail, TidyName(req, lex), req.id, HumanEmail(req, lex).value, lex);
    }
  }

  lemma SignedUpIsGiven(w: World, req: Request, f: Faults, lex: Lexer)
    requires Given(w) && Acceptable(req, lex)
    ensures Given(SignedUpFor(w, req, f, lex).0)
  {
    if !LooksAtKept(w, req, f) {
      var (w1, asked) := Asked(w, req, f, lex);
      AskedIsGiven(w, req, f, lex);
      if asked.Ok? {
        KeptIsGiven(w1, req, asked.value.key, Answer(req, asked.value, lex), f);
      }
    }
  }

  lemma CreateKeepsGiven(w: World, req: Request, f: Faults, lex: Lexer)
    requires Given(w)
    ensures Given(Create(w, req, f, lex).0)
  {
    if Acceptable(req, lex) {
      if req.service.AgentMail? && req.id in w.agents {
        FinishedLeaves(w, req.id, w.agents[req.id], f, lex);
      } else if !Refused(w, req, f, lex) {
        SignedUpIsGiven(w, req, f, lex);
        var (w', r) := SignedUpFor(w, req, f, lex);
        if r.Ok? {
          RegisteredLeaves(w', req, r.value, f, lex);
        }
      }
    }
  }

  /** A key that has ended for good: gone from the service, or not what was given for the email any more. */
  predicate Dead(w: World, s: string, email: string, lex: Lexer) {
    && s in w.keys && GivenTo(w.keys[s], s, w.agentMail.rotations)
    && lex.lower(email) in w.agentMail.organisations
    && var theirs := w.agentMail.organisations[lex.lower(email)];
       if w.keys[s].Fresh? then theirs.Rotated? || w.keys[s] !in w.agentMail.accounts
       else theirs.Rotated? && w.keys[s] !in w.agentMail.accounts
  }

  lemma DeadIsNotLive(w: World, s: string, email: string, lex: Lexer)
    requires Dead(w, s, email, lex)
    ensures !Live(w, s, email, lex)
  {
  }

  lemma EndedIsDead(w: World, req: Request, f: Faults, s: string, email: string, lex: Lexer)
    requires Given(w) && Live(w, s, email, lex) && Ends(w, req, f, s, lex)
    ensures Dead(Create(w, req, f, lex).0, s, email, lex)
  {
    AgentMailAfter(w, req, f, lex);
    StoredKey(w, req, f, lex, s);
    if Asks(w, req, f, lex) {
      AskingEndsExactly(w.agentMail, TidyName(req, lex), req.id, HumanEmail(req, lex).value, lex, lex.lower(email));
    }
  }

  lemma DeadStaysDead(w: World, req: Request, f: Faults, s: string, email: string, lex: Lexer)
    requires Dead(w, s, email, lex)
    ensures Dead(Create(w, req, f, lex).0, s, email, lex)
  {
    AgentMailAfter(w, req, f, lex);
    StoredKey(w, req, f, lex, s);
  }

  /** None of the attempts ends the key. */
  predicate NoneEnds(w: World, attempts: seq<(Request, Faults)>, s: string, lex: Lexer) {
    attempts == [] ||
    (&& NoneEnds(w, Init(attempts), s, lex)
     && var before := Attempts(w, Init(attempts), lex);
        s in before.keys && !Ends(before, Last(attempts).0, Last(attempts).1, s, lex))
  }

  /**
   * Over any attempts, with either service and whatever fails, a working key works at the
   * end exactly if none of them ends it.
   */
  lemma {:induction false} LiveExactlyOverRuns(w: World, attempts: seq<(Request, Faults)>, s: string, email: string,
      lex: Lexer)
    requires Given(w) && Live(w, s, email, lex)
    ensures var w' := Attempts(w, attempts, lex);
            && Given(w')
            && (Live(w', s, email, lex) <==> NoneEnds(w, attempts, s, lex))
            && (!NoneEnds(w, attempts, s, lex) ==> Dead(w', s, email, lex))
    decreases |attempts|
  {
    if attempts != [] {
      LiveExactlyOverRuns(w, Init(attempts), s, email, lex);
      RunStep(Attempts(w, Init(attempts), lex), Last(attempts).0, Last(attempts).1, s, email, lex);
    }
  }

  lemma RunStep(w: World, req: Request, f: Faults, s: string, email: string, lex: Lexer)
    requires Given(w) && (Live(w, s, email, lex) || Dead(w, s, email, lex))
    ensures var w' := Create(w, req, f, lex).0;
            && Given(w') && s in w.keys
            && (Live(w', s, email, lex) <==> Live(w, s, email, lex) && !Ends(w, req, f, s, lex))
            && (!Live(w', s, email, lex) ==> Dead(w', s, email, lex))
  {
    CreateKeepsGiven(w, req, f, lex);
    var w' := Create(w, req, f, lex).0;
    if Live(w, s, email, lex) {
      LiveExactly(w, req, f, s, email, lex);
      if Ends(w, req, f, s, lex) {
        EndedIsDead(w, req, f, s, email, lex);
      }
    } else {
      DeadStaysDead(w, req, f, s, email, lex);
      DeadIsNotLive(w', s, email, lex);
    }
  }

  // ---- Attempts that cannot end an agent's key ----

  /** The request id a key was first given to. */
  function Root(k: Key): string {
    match k
    case Fresh(id) => id
    case Rotated(earlier, _) => Root(earlier)
  }

  /** Each id asks with one email, but for its case, however often it asks. */
  predicate OneEmailEach(req: Request, emailOf: string -> string, lex: Lexer) {
    req.service.AgentMail? && HumanEmail(req, lex).Some? ==> lex.lower(HumanEmail(req, lex).value) == emailOf(req.id)
  }

  /** An organisation's key goes back to an id that asked with its email. */
  predicate KeysOfTheirEmail(r: Remote, emailOf: string -> string) {
    forall who :: who in r.organisations ==> emailOf(Root(r.organisations[who])) == who
  }

  /** Asking with the account's email, the Mac can tell: the cases it ignores are those the service does. */
  predicate CaseAgrees(req: Request, recorded: string, email: string, lex: Lexer) {
    req.service.AgentMail? && HumanEmail(req, lex).Some? && lex.lower(HumanEmail(req, lex).value)
        == lex.lower(email) ==>
      SameEmail(recorded, HumanEmail(req, lex).value, lex)
  }

  /** Everything asked of the requests: one email an id, its case as the service sees it, Primitive under other ids. */
  predicate Careful(req: Request, emailOf: string -> string, recorded: string, email: string, a: string, s: string,
      lex: Lexer) {
    && OneEmailEach(req, emailOf, lex)
    && CaseAgrees(req, recorded, email, lex)
    && (req.service.Primitive? ==> req.id !in {a, s})
  }

  lemma AskingKeepsEmails(r: Remote, name: string, id: string, email: string, lex: Lexer, emailOf: string -> string)
    requires KeysOfTheirEmail(r, emailOf) && emailOf(id) == lex.lower(email)
    ensures KeysOfTheirEmail(AskAgentMail(r, name, id, email, lex).0, emailOf)
  {
  }

  lemma SameMeansHasAccount(w: World, a: string, recorded: string, email: string, lex: Lexer)
    requires AccountOf(w, a, recorded, lex) && SameEmail(recorded, email, lex)
    ensures HasAccount(w, email, lex)
  {
  }

  /** A careful attempt ends no such key. */
  lemma CarefulEndsNothing(w: World, req: Request, f: Faults, lex: Lexer, emailOf: string -> string,
                           a: string, s: string, recorded: string, email: string)
    requires KeysOfTheirEmail(w.agentMail, emailOf) && HoldsAccount(w, a, s, recorded, lex) && Live(w, s, email, lex)
    requires Careful(req, emailOf, recorded, email, a, s, lex)
    ensures !Ends(w, req, f, s, lex)
    ensures KeysOfTheirEmail(Create(w, req, f, lex).0.agentMail, emailOf)
  {
    AgentMailAfter(w, req, f, lex);
    if Asks(w, req, f, lex) {
      AskingKeepsEmails(w.agentMail, TidyName(req, lex), req.id, HumanEmail(req, lex).value, lex, emailOf);
    }
    if Replaces(w, req, f, s, lex) {
      assert emailOf(Root(w.keys[s])) == Who(req, lex) == lex.lower(email);
      SameMeansHasAccount(w, a, recorded, HumanEmail(req, lex).value, lex);
      assert false;
    }
  }

  predicate AllCareful(attempts: seq<(Request, Faults)>, emailOf: string -> string, recorded: string, email: string,
                       a: string, s: string, lex: Lexer) {
    forall x :: x in attempts ==> Careful(x.0, emailOf, recorded, email, a, s, lex)
  }

  /** The key of an AgentMail agent on this Mac goes on working through any careful attempts at creating others. */
  lemma {:induction false} KeyOfAnAgentStaysLive(w: World, attempts: seq<(Request, Faults)>, lex: Lexer,
      emailOf: string -> string, a: string, s: string, recorded: string, email: string)
    requires AccountsHaveKeys(w) && HoldsAccount(w, a, s, recorded, lex) && Live(w, s, email, lex)
    requires KeysOfTheirEmail(w.agentMail, emailOf) && AllCareful(attempts, emailOf, recorded, email, a, s, lex)
    ensures var w' := Attempts(w, attempts, lex);
            && AccountsHaveKeys(w') && HoldsAccount(w', a, s, recorded, lex) && Live(w', s, email, lex)
            && KeysOfTheirEmail(w'.agentMail, emailOf)
    decreases |attempts|
  {
    if attempts != [] {
      assert Last(attempts) in attempts && forall x :: x in Init(attempts) ==> x in attempts;
      KeyOfAnAgentStaysLive(w, Init(attempts), lex, emailOf, a, s, recorded, email);
      CarefulStep(Attempts(w, Init(attempts), lex), Last(attempts).0, Last(attempts).1, lex, emailOf, a, s, recorded,
          email);
    }
  }

  lemma CarefulStep(w: World, req: Request, f: Faults, lex: Lexer, emailOf: string -> string,
                    a: string, s: string, recorded: string, email: string)
    requires AccountsHaveKeys(w) && HoldsAccount(w, a, s, recorded, lex) && Live(w, s, email, lex)
    requires KeysOfTheirEmail(w.agentMail, emailOf) && Careful(req, emailOf, recorded, email, a, s, lex)
    ensures var w' := Create(w, req, f, lex).0;
            && AccountsHaveKeys(w') && HoldsAccount(w', a, s, recorded, lex) && Live(w', s, email, lex)
            && KeysOfTheirEmail(w'.agentMail, emailOf)
  {
    CarefulEndsNothing(w, req, f, lex, emailOf, a, s, recorded, email);
    LiveExactly(w, req, f, s, email, lex);
    CreateKeepsKeys(w, req, f, lex);
    EmailNotSignedUpNow(w, req, f, lex, a, s, recorded);
  }

  function Generation(k: Key): nat {
    match k
    case Fresh(_) => 0
    case Rotated(earlier, _) => Generation(earlier) + 1
  }

  lemma NotItsOwnSuccessor(k: Key, n: nat)
    ensures k != Rotated(k, n)
  {
    assert Generation(Rotated(k, n)) == Generation(k) + 1;
  }
}
