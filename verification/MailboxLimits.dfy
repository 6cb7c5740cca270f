// A mailbox creation that goes well, and each way in which a stored AgentMail key
// stops working or an agent changes hands without anything being refused.
module MailboxLimits {
  import opened Prelude
  import opened Text
  import opened Names
  import opened Mailbox
  import opened MailboxAccounts
  import opened MailboxLaws
  import opened MailboxKeys

  const SMOOTH := Faults(false, false, Answers, Whole, false, false, false, false, false, false, false)

  function AddressFor(req: Request, lex: Lexer): string {
    LocalPart(TidyName(req, lex), lex) + "@" + AGENTMAIL_DOMAIN
  }

  /** Nothing here is `req`'s yet, and its email has no account here. */
  predicate NewHere(w: World, req: Request, lex: Lexer) {
    && req.service.AgentMail? && Acceptable(req, lex)
    && req.id !in w.keys && req.id !in w.pending && req.id !in w.agents && req.id !in w.records
    && !HasAccount(w, HumanEmail(req, lex).value, lex)
  }

  /** Nor at the service. */
  predicate Unknown(w: World, req: Request, lex: Lexer) {
    && NewHere(w, req, lex)
    && Fresh(req.id) !in w.agentMail.accounts
    && Who(req, lex) !in w.agentMail.organisations
    && !Taken(w.agentMail, AddressFor(req, lex))
  }

  lemma NewIsNotRefused(w: World, req: Request, f: Faults, lex: Lexer)
    requires NewHere(w, req, lex) && !f.keyRead
    ensures !Refused(w, req, f, lex) && !LooksAtKept(w, req, f)
  {
  }

  /** A first sign-up that goes through: its answer and its key are kept. */
  lemma FirstSignUp(w: World, req: Request, f: Faults, lex: Lexer)
    requires Unknown(w, req, lex) && f.signUp.Answers? && f.pendingWrite.Whole? && !f.keyWrite
    ensures var (w', r) := SignedUpFor(w, req, f, lex);
            && w' == w.(pending := w'.pending, keys := w'.keys, givenBy := w'.givenBy, agentMail := w'.agentMail,
                 signUps := w'.signUps)
            && w'.keys == w.keys[req.id := Fresh(req.id)]
            && r.Ok? && w'.pending == w.pending[req.id := r.value]
            && r.value.plan.email == Some(Who(req, lex))
            && Live(w', req.id, HumanEmail(req, lex).value, lex)
  {
    FirstAsked(w, req, f, lex);
    var (w1, asked) := Asked(w, req, f, lex);
    var answer := Answer(req, asked.value, lex);
    KeptMaps(w1, req, asked.value.key, answer, f);
    KeptHere(w1, req, asked.value.key, answer, f);
  }

  lemma FirstAsked(w: World, req: Request, f: Faults, lex: Lexer)
    requires Unknown(w, req, lex) && f.signUp.Answers?
    ensures var (w', r) := Asked(w, req, f, lex);
            && w' == w.(agentMail := w'.agentMail, signUps := w'.signUps)
            && r.Ok? && r.value.key == Fresh(req.id) && r.value.plan.email == Some(Who(req, lex))
            && Who(req, lex) in w'.agentMail.organisations
            && w'.agentMail.organisations[Who(req, lex)] == Fresh(req.id)
            && Fresh(req.id) in w'.agentMail.accounts
  {
  }

  /** No file an account could be read from has changed. */
  lemma SameAccounts(w: World, w': World, email: string, lex: Lexer)
    requires w'.records == w.records && w'.agents == w.agents
    ensures HasAccount(w', email, lex) == HasAccount(w, email, lex)
  {
    assert forall s :: ReadService(w', s, lex) == ReadService(w, s, lex);
  }

  // ---- A creation that goes well ----

  /**
   * A creation nothing interrupts leaves an agent whose account is the email's, as the
   * service lower-cases it, and a key that works.
   */
  lemma CreatedIsLive(w: World, req: Request, lex: Lexer)
    requires Unknown(w, req, lex)
    ensures var (w', r) := Create(w, req, SMOOTH, lex);
            && r.Ok? && (Inv(w) ==> Inv(w'))
            && HoldsAccount(w', req.id, req.id, Who(req, lex), lex)
            && w'.records[req.id].humanEmail == Some(Who(req, lex))
            && Live(w', req.id, HumanEmail(req, lex).value, lex)
            && w'.keys[req.id] == Fresh(req.id)
  {
    NewIsNotRefused(w, req, SMOOTH, lex);
    FirstSignUp(w, req, SMOOTH, lex);
    var (w1, asked) := SignedUpFor(w, req, SMOOTH, lex);
    assert Create(w, req, SMOOTH, lex) == Registered(w1, req, asked.value, SMOOTH, lex);
    if Inv(w) {
      CreateKeepsInv(w, req, SMOOTH, lex);
    }
    WrittenIsAccount(w1, req, asked.value, lex, Who(req, lex));
    RegisteredLeaves(w1, req, asked.value, SMOOTH, lex);
  }

  lemma WrittenIsAccount(w: World, req: Request, p: PendingSignUp, lex: Lexer, who: string)
    requires req.service.AgentMail? && ValidId(req.id) && req.id !in w.records && req.id !in w.agents
    requires p.plan.email == Some(who)
    ensures var (w', r) := Registered(w, req, p, SMOOTH, lex);
            && r.Ok? && HoldsAccount(w', req.id, req.id, who, lex) && w'.records[req.id].humanEmail == Some(who)
            && (forall a :: a in w'.agents ==> a == req.id || (a in w.agents && w'.agents[a] == w.agents[a]))
            && (forall s :: s in w'.records ==> s == req.id || (s in w.records && w'.records[s] == w.records[s]))
  {
    FinishedLeaves(Written(w, req, p, lex), req.id, NewAgent(req, p, lex), SMOOTH, lex);
  }

  // ---- A key that stops working, with nothing refused ----

  /** A replaced key is gone from the service, and still the one stored. */
  lemma ReplacedIsGone(w: World, req: Request, f: Faults, s: string, email: string, lex: Lexer)
    requires Live(w, s, email, lex) && Replaces(w, req, f, s, lex)
    ensures var w' := Create(w, req, f, lex).0;
            s in w'.keys && w'.keys[s] == w.keys[s] && w'.keys[s] !in w'.agentMail.accounts
  {
    AgentMailAfter(w, req, f, lex);
    StoredKey(w, req, f, lex, s);
    AskingEndsExactly(w.agentMail, TidyName(req, lex), req.id, HumanEmail(req, lex).value, lex, lex.lower(email));
  }

  /** A new id of its own, for the email or another the service lower-cases to it, replaces the key. */
  lemma NewIdReplaces(w: World, y: Request, s: string, email: string, lex: Lexer)
    requires Live(w, s, email, lex) && NewHere(w, y, lex) && Who(y, lex) == lex.lower(email)
    ensures var w' := Create(w, y, SMOOTH, lex).0;
            s in w'.keys && w'.keys[s] == w.keys[s] && w'.keys[s] !in w'.agentMail.accounts
  {
    NewIsNotRefused(w, y, SMOOTH, lex);
    ReplacedIsGone(w, y, SMOOTH, s, email, lex);
  }

  lemma CreatedElsewhere(w: World, x: Request, y: Request, lex: Lexer)
    requires Unknown(w, x, lex) && NewHere(w, y, lex) && x.id != y.id
    requires !SameEmail(Who(x, lex), HumanEmail(y, lex).value, lex)
    ensures NewHere(Create(w, x, SMOOTH, lex).0, y, lex)
  {
    NewIsNotRefused(w, x, SMOOTH, lex);
    FirstSignUp(w, x, SMOOTH, lex);
    var (w1, asked) := SignedUpFor(w, x, SMOOTH, lex);
    assert Create(w, x, SMOOTH, lex) == Registered(w1, x, asked.value, SMOOTH, lex);
    RegisteredElsewhere(w1, x, asked.value, lex, Who(x, lex), y);
  }

  lemma RegisteredElsewhere(w: World, x: Request, p: PendingSignUp, lex: Lexer, who: string, y: Request)
    requires x.service.AgentMail? && ValidId(x.id) && x.id !in w.records && x.id !in w.agents && p.plan.email
            == Some(who)
    requires NewHere(w, y, lex) && x.id != y.id && !SameEmail(who, HumanEmail(y, lex).value, lex)
    ensures NewHere(Registered(w, x, p, SMOOTH, lex).0, y, lex)
  {
    WrittenIsAccount(w, x, p, lex, who);
    RegisteredLeaves(w, x, p, SMOOTH, lex);
    FinishedLeaves(Written(w, x, p, lex), x.id, NewAgent(x, p, lex), SMOOTH, lex);
    var w', email := Registered(w, x, p, SMOOTH, lex).0, HumanEmail(y, lex).value;
    forall a | a in w'.agents && a != x.id
      ensures AccountOf(w', a, email, lex)
              ==> a in w.agents && (AccountOf(w, a, email, lex) || w.agents[a].serviceAccount == x.id)
    {
      OtherAccount(w, w', x.id, a, email, lex);
    }
  }

  lemma OtherAccount(w: World, w': World, id: string, a: string, email: string, lex: Lexer)
    requires a in w'.agents && a in w.agents && w'.agents[a] == w.agents[a]
    requires forall s :: s in w.records && s != id ==> s in w'.records && w'.records[s] == w.records[s]
    requires forall s :: s in w'.records ==> s == id || (s in w.records && w'.records[s] == w.records[s])
    requires forall s :: s in w'.agents ==> s == id || (s in w.agents && w'.agents[s] == w.agents[s])
    ensures AccountOf(w', a, email, lex) ==> AccountOf(w, a, email, lex) || w.agents[a].serviceAccount == id
  {
  }

  /**
   * An email with a letter beyond ASCII in upper case: the agent's record has it as the
   * service lower-cased it, the Mac does not take the two for one email, and asking with it
   * again under another id ends the agent's key.
   */
  lemma CaseBeyondAscii(w: World, x: Request, y: Request, lex: Lexer)
    requires Unknown(w, x, lex) && NewHere(w, y, lex) && x.id != y.id
    requires HumanEmail(y, lex) == HumanEmail(x, lex) && !SameEmail(Who(x, lex), HumanEmail(x, lex).value, lex)
    ensures var w1 := Create(w, x, SMOOTH, lex).0;
            var w2 := Create(w1, y, SMOOTH, lex).0;
            && Create(w, x, SMOOTH, lex).1.Ok? && Live(w1, x.id, HumanEmail(x, lex).value, lex)
            && x.id in w2.keys && w2.keys[x.id] == w1.keys[x.id] && w2.keys[x.id] !in w2.agentMail.accounts
  {
    CreatedIsLive(w, x, lex);
    CreatedElsewhere(w, x, y, lex);
    NewIdReplaces(Create(w, x, SMOOTH, lex).0, y, x.id, HumanEmail(x, lex).value, lex);
  }

  /** Stopped before its record is written. */
  lemma StoppedAfterKey(w: World, req: Request, lex: Lexer)
    requires Unknown(w, req, lex)
    ensures var w' := Create(w, req, SMOOTH.(recordWrite := true), lex).0;
            && w'.records == w.records && w'.agents == w.agents
            && w'.keys == w.keys[req.id := Fresh(req.id)]
            && req.id in w'.pending && w'.pending.Keys == w.pending.Keys + {req.id}
            && Live(w', req.id, HumanEmail(req, lex).value, lex)
  {
    var stopped := SMOOTH.(recordWrite := true);
    NewIsNotRefused(w, req, stopped, lex);
    FirstSignUp(w, req, stopped, lex);
  }

  lemma StillPending(w: World, y: Request, lex: Lexer, id: string)
    requires NewHere(w, y, lex) && y.id != id && id in w.pending
    ensures var w' := Create(w, y, SMOOTH.(recordWrite := true), lex).0;
            id in w'.pending && w'.records == w.records && w'.agents == w.agents
  {
    var stopped := SMOOTH.(recordWrite := true);
    NewIsNotRefused(w, y, stopped, lex);
    AskedElsewhere(w, y, stopped, lex);
    var (w1, asked) := Asked(w, y, stopped, lex);
    if asked.Ok? {
      var answer := Answer(y, asked.value, lex);
      KeptHere(w1, y, asked.value.key, answer, stopped);
      KeptElsewhere(w1, y, asked.value.key, answer, stopped, id);
    }
  }

  /**
   * Two ids that sign up for one email before either has its agent here: the first is
   * finished without complaint, with a key that no longer works.
   */
  lemma TwoIdsForOneEmail(w: World, x: Request, y: Request, lex: Lexer)
    requires AccountsHaveKeys(w) && Unknown(w, x, lex) && NewHere(w, y, lex)
    requires x.id != y.id && Who(x, lex) == Who(y, lex)
    ensures var stopped := SMOOTH.(recordWrite := true);
            var w2 := Create(Create(w, x, stopped, lex).0, y, stopped, lex).0;
            var (w3, r) := Create(w2, x, SMOOTH, lex);
            && r.Ok? && x.id in w3.keys && w3.keys[x.id] !in w3.agentMail.accounts
  {
    var stopped := SMOOTH.(recordWrite := true);
    StoppedAfterKey(w, x, lex);
    CreateKeepsKeys(w, x, stopped, lex);
    var w1 := Create(w, x, stopped, lex).0;
    SameAccounts(w, w1, HumanEmail(y, lex).value, lex);
    StoppedTwice(w1, x, y, lex);
    StillPending(w1, y, lex, x.id);
    var w2 := Create(w1, y, stopped, lex).0;
    SameAccounts(w1, w2, HumanEmail(x, lex).value, lex);
    SameAccounts(w, w1, HumanEmail(x, lex).value, lex);
    CreateKeepsKeys(w1, y, stopped, lex);
    RetryFinishesExactly(w2, x, SMOOTH, lex);
  }

  lemma StoppedTwice(w: World, x: Request, y: Request, lex: Lexer)
    requires x.service.AgentMail? && Acceptable(x, lex) && NewHere(w, y, lex) && Who(x, lex) == Who(y, lex)
    requires Live(w, x.id, HumanEmail(x, lex).value, lex)
    ensures var w' := Create(w, y, SMOOTH.(recordWrite := true), lex).0;
            x.id in w'.keys && w'.keys[x.id] !in w'.agentMail.accounts
  {
    var stopped := SMOOTH.(recordWrite := true);
    NewIsNotRefused(w, y, stopped, lex);
    ReplacedIsGone(w, y, stopped, x.id, HumanEmail(x, lex).value, lex);
  }

  // ---- One id, two emails ----

  /** A first sign-up whose answer is lost: only the service knows of it. */
  lemma LostAnswer(w: World, x: Request, lex: Lexer)
    requires Unknown(w, x, lex)
    ensures var w' := Create(w, x, SMOOTH.(signUp := AnswerLost), lex).0;
            && w' == w.(agentMail := w'.agentMail, signUps := w'.signUps)
            && w'.agentMail.organisations == w.agentMail.organisations[Who(x, lex) := Fresh(x.id)]
            && w'.agentMail.accounts == w.agentMail.accounts[Fresh(x.id) := Plan(false, Some(Who(x, lex)))]
            && w'.agentMail.inboxes == w.agentMail.inboxes[Fresh(x.id) := [AddressFor(x, lex)]]
  {
    var f := SMOOTH.(signUp := AnswerLost);
    NewIsNotRefused(w, x, f, lex);
    assert Create(w, x, f, lex) == SignedUpLost(w, x, lex);
  }

  function SignedUpLost(w: World, x: Request, lex: Lexer): (World, Result<Created, Failed>)
    requires x.service.AgentMail? && Acceptable(x, lex)
  {
    var email := HumanEmail(x, lex).value;
    (w.(agentMail := AskAgentMail(w.agentMail, TidyName(x, lex), x.id, email, lex).0,
        signUps := w.signUps + [SignUp(x.id, email)]),
     Err(Network))
  }

  /** Asked again under the same id for another email, the service gives the first key and its plan again. */
  lemma SecondEmailAsked(w: World, x: Request, who: string, lex: Lexer)
    requires NewHere(w, x, lex) && Who(x, lex) !in w.agentMail.organisations && !Taken(w.agentMail, AddressFor(x, lex))
    requires Fresh(x.id) in w.agentMail.accounts && w.agentMail.accounts[Fresh(x.id)] == Plan(false, Some(who))
    ensures var (w', r) := Asked(w, x, SMOOTH, lex);
            && w' == w.(agentMail := w'.agentMail, signUps := w'.signUps)
            && r.Ok? && r.value.key == Fresh(x.id) && r.value.plan.email == Some(who)
            && Who(x, lex) in w'.agentMail.organisations
            && w'.agentMail.organisations[Who(x, lex)] == Fresh(x.id) && Fresh(x.id) in w'.agentMail.accounts
  {
  }

  /** And the creation goes through: its account is recorded as the first email's, its key is both organisations'. */
  lemma SecondEmailCreates(w: World, x: Request, who: string, y: Request, lex: Lexer)
    requires NewHere(w, x, lex) && Who(x, lex) !in w.agentMail.organisations
            && !Taken(w.agentMail, AddressFor(x, lex))
    requires Fresh(x.id) in w.agentMail.accounts && w.agentMail.accounts[Fresh(x.id)] == Plan(false, Some(who))
    requires NewHere(w, y, lex) && x.id != y.id && !SameEmail(who, HumanEmail(y, lex).value, lex)
    ensures var (w', r) := Create(w, x, SMOOTH, lex);
            && r.Ok? && x.id in w'.agents && Live(w', x.id, HumanEmail(x, lex).value, lex)
            && NewHere(w', y, lex)
  {
    NewIsNotRefused(w, x, SMOOTH, lex);
    SecondEmailAsked(w, x, who, lex);
    var (w1, asked) := Asked(w, x, SMOOTH, lex);
    var answer := Answer(x, asked.value, lex);
    KeptMaps(w1, x, asked.value.key, answer, SMOOTH);
    KeptHere(w1, x, asked.value.key, answer, SMOOTH);
    var w2 := Kept(w1, x, asked.value.key, answer, SMOOTH).0;
    assert SignedUpFor(w, x, SMOOTH, lex) == (w2, Ok(answer));
    assert Create(w, x, SMOOTH, lex) == Registered(w2, x, answer, SMOOTH, lex);
    WrittenIsAccount(w2, x, answer, lex, who);
    RegisteredLeaves(w2, x, answer, SMOOTH, lex);
    SameAccounts(w, w2, HumanEmail(y, lex).value, lex);
    RegisteredElsewhere(w2, x, answer, lex, who, y);
  }

  /**
   * One id that asks for one email, has its answer lost, and goes on with another email and
   * name: its agent is made with the first key, its account recorded as the first email's.
   * A second id for the other email is not refused, and ends the agent's key.
   */
  lemma OneIdTwoEmails(w: World, x: Request, x': Request, y: Request, lex: Lexer)
    requires Unknown(w, x, lex) && x'.id == x.id && Unknown(w, x', lex)
    requires Who(x', lex) != Who(x, lex) && AddressFor(x', lex) != AddressFor(x, lex)
    requires NewHere(w, y, lex) && y.id != x.id && Who(y, lex) == Who(x', lex)
    requires !SameEmail(Who(x, lex), HumanEmail(y, lex).value, lex)
    ensures var w1 := Create(w, x, SMOOTH.(signUp := AnswerLost), lex).0;
            var (w2, made) := Create(w1, x', SMOOTH, lex);
            var w3 := Create(w2, y, SMOOTH, lex).0;
            && made.Ok? && x.id in w2.agents && Live(w2, x.id, HumanEmail(x', lex).value, lex)
            && x.id in w3.keys && w3.keys[x.id] == w2.keys[x.id] && w3.keys[x.id] !in w3.agentMail.accounts
  {
    LostAnswer(w, x, lex);
    var w1 := Create(w, x, SMOOTH.(signUp := AnswerLost), lex).0;
    SameAccounts(w, w1, HumanEmail(x', lex).value, lex);
    SameAccounts(w, w1, HumanEmail(y, lex).value, lex);
    StillFree(w.agentMail, w1.agentMail, Fresh(x.id), AddressFor(x, lex), AddressFor(x', lex));
    SecondEmailCreates(w1, x', Who(x, lex), y, lex);
    NewIdReplaces(Create(w1, x', SMOOTH, lex).0, y, x.id, HumanEmail(x', lex).value, lex);
  }

  lemma StillFree(r: Remote, r': Remote, key: Key, address: string, other: string)
    requires r'.inboxes == r.inboxes[key := [address]] && !Taken(r, other) && other != address
    ensures !Taken(r', other)
  {
  }

  // ---- One id, two services ----

  lemma PrimitiveKept(w: World, req: Request, lex: Lexer)
    requires req.service.Primitive? && Acceptable(req, lex)
    ensures var (w', r) := SignedUpFor(w, req, SMOOTH, lex);
            && r.Ok? && r.value.plan.email.None?
            && w' == w.(primitive := w'.primitive, keys := w.keys[req.id := Fresh(req.id)], givenBy := w'.givenBy)
  {
    var (w1, asked) := Asked(w, req, SMOOTH, lex);
    KeptMaps(w1, req, asked.value.key, Answer(req, asked.value, lex), SMOOTH);
  }

  lemma RegisteredSmoothly(w: World, req: Request, p: PendingSignUp, lex: Lexer)
    ensures var (w', r) := Registered(w, req, p, SMOOTH, lex);
            && r.Ok? && w'.keys == w.keys && w'.signUps == w.signUps && w'.pending.Keys <= w.pending.Keys
            && w'.records == w.records[req.id := Recorded(w, req, p, lex)]
            && w'.agents == w.agents[req.id := NewAgent(req, p, lex)]
  {
    FinishedLeaves(Written(w, req, p, lex), req.id, NewAgent(req, p, lex), SMOOTH, lex);
  }

  /**
   * A Primitive creation with the id of an AgentMail agent whose key was replaced once goes
   * through: it stores Primitive's key and makes the agent Primitive's, while the record still
   * says AgentMail.
   */
  lemma PrimitiveTakesOver(w: World, req: Request, lex: Lexer)
    requires req.service.Primitive? && Acceptable(req, lex)
    requires req.id in w.agents && w.agents[req.id].service.AgentMail?
    requires req.id in w.records && w.records[req.id].service.AgentMail?
    requires req.id in w.keys && w.keys[req.id].Rotated?
    ensures var (w', r) := Create(w, req, SMOOTH, lex);
            && r.Ok? && w'.keys[req.id] == Fresh(req.id) != w.keys[req.id]
            && w'.agents[req.id].service.Primitive?
            && req.id in w'.records && w'.records[req.id].service.AgentMail?
  {
    StoredKey(w, req, SMOOTH, lex, req.id);
    AgentStaysExactly(w, req, SMOOTH, lex, req.id);
    PrimitiveKept(w, req, lex);
    var (w1, asked) := SignedUpFor(w, req, SMOOTH, lex);
    assert Create(w, req, SMOOTH, lex) == Registered(w1, req, asked.value, SMOOTH, lex);
    RegisteredSmoothly(w1, req, asked.value, lex);
  }

  /** The one record and the one agent an attempt has written: Primitive's. */
  predicate TakenOver(w: World, w': World, id: string) {
    && id in w'.records && w'.records == w.records[id := w'.records[id]] && w'.records[id].service.Primitive?
    && id in w'.agents && w'.agents == w.agents[id := w'.agents[id]] && w'.agents[id].serviceAccount == id
    && w'.keys == w.keys[id := Fresh(id)] && w'.signUps == w.signUps && w'.pending.Keys <= w.pending.Keys
  }

  lemma PrimitiveTakesAgent(w: World, req: Request, lex: Lexer)
    requires req.service.Primitive? && Acceptable(req, lex) && !Readable(w, req.id)
    ensures var (w', r) := Create(w, req, SMOOTH, lex);
            r.Ok? && TakenOver(w, w', req.id)
  {
    PrimitiveKept(w, req, lex);
    var (w1, asked) := SignedUpFor(w, req, SMOOTH, lex);
    RegisteredSmoothly(w1, req, asked.value, lex);
    assert Create(w, req, SMOOTH, lex) == Registered(w1, req, asked.value, SMOOTH, lex);
  }

  lemma TakenOverLeavesNone(w: World, w': World, id: string, email: string, lex: Lexer)
    requires TakenOver(w, w', id)
    requires forall a :: a in w.agents && a != id ==> !AccountOf(w, a, email, lex)
    ensures !HasAccount(w', email, lex)
  {
    forall a | a in w'.agents
      ensures !AccountOf(w', a, email, lex)
    {
      if a != id {
        assert !AccountOf(w, a, email, lex);
      }
    }
  }

  /**
   * The only agent of an email's account, added to it later and taken over by a Primitive
   * creation: that goes through, leaves the email without an account here, and a new id
   * signs it up again.
   */
  lemma AddedAgentTakenOver(w: World, req: Request, y: Request, lex: Lexer)
    requires req.service.Primitive? && Acceptable(req, lex) && req.id in w.agents && req.id !in w.records
    requires y.service.AgentMail? && Acceptable(y, lex)
    requires y.id !in w.keys && y.id !in w.pending && y.id !in w.agents && y.id !in w.records
    requires AccountOf(w, req.id, HumanEmail(y, lex).value, lex)
    requires forall a :: a in w.agents && a != req.id ==> !AccountOf(w, a, HumanEmail(y, lex).value, lex)
    ensures var (w1, taken) := Create(w, req, SMOOTH, lex);
            var w2 := Create(w1, y, SMOOTH, lex).0;
            && taken.Ok? && HasAccount(w, HumanEmail(y, lex).value, lex) && NewHere(w1, y, lex)
            && !Refused(w1, y, SMOOTH, lex)
            && w2.signUps == w.signUps + [SignUp(y.id, HumanEmail(y, lex).value)]
  {
    AccountIsRecorded(w, req.id, HumanEmail(y, lex).value, lex);
    PrimitiveTakesAgent(w, req, lex);
    var w1 := Create(w, req, SMOOTH, lex).0;
    TakenOverLeavesNone(w, w1, req.id, HumanEmail(y, lex).value, lex);
    NewIsNotRefused(w1, y, SMOOTH, lex);
    SignsUpExactly(w1, y, SMOOTH, lex);
  }

  // ---- One account, two emails ----

  /** Service account `s` is of another email than its kept answer, and has no agent of its own. */
  predicate Unsettled(w: World, s: string, email: string, lex: Lexer) {
    && s !in w.agents && s in w.records && IsAccount(w.records[s], email, lex)
    && s in w.keys && s in w.pending && w.pending[s].plan.email.Some?
    && !SameEmail(w.pending[s].plan.email.value, email, lex)
  }

  lemma ReaddressedLeavesNone(w: World, w': World, s: string, r: Record, agent: Agent, email: string, lex: Lexer)
    requires w'.records == w.records[s := r] && w'.agents == w.agents[s := agent] && agent.serviceAccount == s
    requires !IsAccount(r, email, lex)
    requires forall a :: a in w.agents && AccountOf(w, a, email, lex) ==> w.agents[a].serviceAccount == s
    ensures !HasAccount(w', email, lex)
  {
    forall a | a in w'.agents
      ensures !AccountOf(w', a, email, lex)
    {
      if a != s && w.agents[a].serviceAccount != s {
        assert !AccountOf(w, a, email, lex);
      }
    }
  }

  /**
   * An account with a kept answer of another email, and only agents added to it: finishing
   * its creation goes through and writes that email down, and a new id signs the account's
   * email up again.
   */
  lemma FinishedForAnother(w: World, req: Request, a: string, y: Request, lex: Lexer)
    requires y.service.AgentMail? && Acceptable(y, lex) && Unsettled(w, req.id, HumanEmail(y, lex).value, lex)
    requires y.id !in w.keys && y.id !in w.pending && y.id !in w.agents && y.id !in w.records
    requires req.service.AgentMail? && Acceptable(req, lex) && !HasAccount(w, HumanEmail(req, lex).value, lex)
    requires a in w.agents && w.agents[a].serviceAccount == req.id
    requires forall b :: b in w.agents && AccountOf(w, b, HumanEmail(y, lex).value, lex)
               ==> w.agents[b].serviceAccount == req.id
    ensures var (w1, r) := Create(w, req, SMOOTH, lex);
            var w2 := Create(w1, y, SMOOTH, lex).0;
            && AccountOf(w, a, HumanEmail(y, lex).value, lex) && r.Ok? && NewHere(w1, y, lex)
            && w2.signUps == w.signUps + [SignUp(y.id, HumanEmail(y, lex).value)]
  {
    var p := w.pending[req.id];
    assert SignedUpFor(w, req, SMOOTH, lex) == (w, Ok(p));
    assert Create(w, req, SMOOTH, lex) == Registered(w, req, p, SMOOTH, lex);
    RegisteredSmoothly(w, req, p, lex);
    var w1, email := Create(w, req, SMOOTH, lex).0, HumanEmail(y, lex).value;
    ReaddressedLeavesNone(w, w1, req.id, Recorded(w, req, p, lex), NewAgent(req, p, lex), email, lex);
    NewIsNotRefused(w1, y, SMOOTH, lex);
    SignsUpExactly(w1, y, SMOOTH, lex);
  }
}
