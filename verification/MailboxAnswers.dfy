// What a creation that goes through leaves, by what the service answered.
module MailboxAnswers {
  import opened Prelude
  import opened Text
  import opened Names
  import opened TextLaws
  import opened Mailbox
  import opened MailboxLaws

  /** The agent's address: the one given, or the agent's name at the domain given. */
  predicate IsAddressFor(address: string, given: string, name: string, lex: Lexer) {
    if '@' in given then address == given
    else address == LocalPart(name, lex) + "@" + given
  }

  /** What comes after the last `@`. */
  predicate IsDomainIn(domain: string, address: string) {
    '@' !in domain && |address| > |domain| && address[|address| - |domain|..] == domain
    && address[|address| - |domain| - 1] == '@'
  }

  lemma {:induction false} DomainIs(address: string)
    requires '@' in address
    ensures IsDomainIn(AfterLastAt(address), address)
    decreases |address|
  {
    var at := Until(address, c => c == '@');
    var rest := address[at + 1..];
    assert at < |address| && address == address[..at] + "@" + rest;
    if '@' in rest {
      DomainIs(rest);
    } else {
      assert AfterLastAt(rest) == rest;
    }
  }

  /** The plan answered; AgentMail's is for the request's email unless it says which. */
  predicate IsPlanOf(plan: Plan, answered: Plan, req: Request, lex: Lexer) {
    && plan.verified == answered.verified
    && plan.email == (if answered.email.Some? then answered.email
                      else if req.service.AgentMail? then HumanEmail(req, lex) else None)
  }

  /** The record written: what was known with the plan answered, or a new one. */
  ghost predicate IsRecorded(record: Record, known: Option<Record>, plan: Plan, address: string, req: Request,
      lex: Lexer)
  {
    && record.plan.Some? && IsPlanOf(record.plan.value, plan, req, lex)
    && record.humanEmail == (if record.plan.value.email.Some? then record.plan.value.email
                             else if known.Some? && known.value.humanEmail.Some? then known.value.humanEmail
                             else HumanEmail(req, lex))
    && record.service == (if known.Some? then known.value.service else req.service)
    && (known.Some? ==> record.managedDomain == known.value.managedDomain)
    && (known.None? && '@' in address ==>
         exists domain :: IsDomainIn(domain, address) && record.managedDomain == Some(lex.lower(domain)))
  }

  /** Key, agent, store, index and record as `s` answered. */
  ghost predicate IsCreated(before: World, after: World, req: Request, s: SignedUp, c: Created, lex: Lexer) {
    && c.id == req.id && IsAddressFor(c.address, s.address, Clean(req.name, lex), lex)
    && req.id in after.agents
    && after.agents[req.id] == Agent(req.service, c.address, Clean(req.name, lex), c.address, req.id, s.inboxId)
    && req.id in after.stores && after.stores[req.id] == c.address
    && req.id in after.index && after.index[req.id] == c.address
    && req.id in after.keys && after.keys[req.id] == s.key
    && req.id in after.records
    && IsRecorded(after.records[req.id], ReadService(before, req.id, lex), s.plan, c.address, req, lex)
  }

  lemma RegisteredAll(w: World, req: Request, p: PendingSignUp, f: Faults, lex: Lexer)
    requires Registered(w, req, p, f, lex).1.Ok?
    ensures var (w', r) := Registered(w, req, p, f, lex);
            && r.value == Created(req.id, p.address) && w'.keys == w.keys
            && req.id in w'.agents && w'.agents[req.id] == NewAgent(req, p, lex)
            && req.id in w'.stores && w'.stores[req.id] == p.address
            && req.id in w'.index && w'.index[req.id] == p.address
            && req.id in w'.records && w'.records[req.id] == Recorded(w, req, p, lex)
  {
    FinishedLeaves(Written(w, req, p, lex), req.id, NewAgent(req, p, lex), f, lex);
  }

  /** Whatever a service answers, an attempt that keeps it and registers it creates just that. */
  lemma CreatesWhatIsAnswered(w: World, req: Request, s: SignedUp, f: Faults, lex: Lexer)
    requires Acceptable(req, lex) && KeptAs(w, req, s, f, lex).1.Ok?
    requires var (w1, kept) := KeptAs(w, req, s, f, lex); Registered(w1, req, kept.value, f, lex).1.Ok?
    ensures var (w1, kept) := KeptAs(w, req, s, f, lex); var (w2, r) := Registered(w1, req, kept.value, f, lex);
            IsCreated(w, w2, req, s, r.value, lex)
  {
    var (w1, kept) := KeptAs(w, req, s, f, lex);
    KeptHere(w, req, s.key, Answer(req, s, lex), f);
    RegisteredAll(w1, req, kept.value, f, lex);
    assert ReadService(w1, req.id, lex) == ReadService(w, req.id, lex);
    if '@' in kept.value.address {
      DomainIs(kept.value.address);
    }
  }

  /** What the service would answer now. */
  function ServiceAnswer(w: World, req: Request, lex: Lexer): Result<SignedUp, Failed>
    requires Acceptable(req, lex)
  {
    match req.service
    case AgentMail =>
      AskAgentMail(w.agentMail, Clean(req.name, lex), req.id, HumanEmail(req, lex).value, lex).1
    case Primitive => AskPrimitive(w.primitive, Clean(req.name, lex), req.id, lex).1
  }

  /** Nothing of the creation is kept: no agent of AgentMail's, and no answer with its key. */
  predicate IsNew(w: World, req: Request) {
    req.service.AgentMail? ==> req.id !in w.agents && !(req.id in w.pending && req.id in w.keys)
  }

  lemma AskedIs(w: World, req: Request, f: Faults, lex: Lexer)
    requires Acceptable(req, lex)
    ensures SameHere(w, Asked(w, req, f, lex).0)
    ensures Asked(w, req, f, lex).1 == (if f.signUp.Answers? then ServiceAnswer(w, req, lex) else Err(Network))
  {
    AskedElsewhere(w, req, f, lex);
  }

  /** An attempt that asks the service is the kept answer's, registered. */
  lemma AskedAndKept(w: World, req: Request, f: Faults, lex: Lexer)
    requires Acceptable(req, lex) && Create(w, req, f, lex).1.Ok? && IsNew(w, req)
    ensures var (w1, answer) := Asked(w, req, f, lex);
            && answer.Ok?
            && var (w2, kept) := KeptAs(w1, req, answer.value, f, lex);
               kept.Ok? && Create(w, req, f, lex) == Registered(w2, req, kept.value, f, lex)
  {
  }

  /**
   * With either service, a new creation that goes through answers, and leaves in agent, store
   * and index, the address the service answered, or the agent's name at the domain it
   * answered; and in Keychain and record the key and the plan.
   */
  lemma NewCreationIsAsAnswered(w: World, req: Request, f: Faults, lex: Lexer)
    requires Create(w, req, f, lex).1.Ok? && IsNew(w, req)
    ensures Acceptable(req, lex) && ServiceAnswer(w, req, lex).Ok?
    ensures var (w', r) := Create(w, req, f, lex);
            IsCreated(w, w', req, ServiceAnswer(w, req, lex).value, r.value, lex)
  {
    AskedAndKept(w, req, f, lex);
    AskedIs(w, req, f, lex);
    var w1, s := Asked(w, req, f, lex).0, ServiceAnswer(w, req, lex).value;
    CreatesWhatIsAnswered(w1, req, s, f, lex);
    assert ReadService(w1, req.id, lex) == ReadService(w, req.id, lex);
  }

  /** The services answer with the name's address at their domain, AgentMail with its inbox too. */
  lemma AnswersWith(w: World, req: Request, lex: Lexer)
    requires Acceptable(req, lex) && ServiceAnswer(w, req, lex).Ok?
    ensures var s, local := ServiceAnswer(w, req, lex).value, LocalPart(Clean(req.name, lex), lex);
            && (req.service.AgentMail? ==> s.address == local + "@agentmail.to" && s.inboxId == Some(s.address))
            && (req.service.Primitive? ==> s.address == local + "@demo.primitive.email" && s.inboxId.None?)
  {
    if req.service.AgentMail? {
      AgentMailAnswersWith(w.agentMail, Clean(req.name, lex), req.id, HumanEmail(req, lex).value, lex);
    }
  }

  lemma AgentMailAnswersWith(r: Remote, name: string, id: string, email: string, lex: Lexer)
    ensures var answer := AskAgentMail(r, name, id, email, lex).1;
            answer.Ok? ==>
              && answer.value.address == LocalPart(name, lex) + "@agentmail.to"
              && answer.value.inboxId == Some(answer.value.address)
  {
    var answer, local := AskAgentMail(r, name, id, email, lex).1, LocalPart(name, lex);
    if answer.Ok? {
      AnswersAtDomain(r, name, id, email, lex);
      assert local + "@" + AGENTMAIL_DOMAIN == local + "@agentmail.to";
    }
  }

  lemma AnswersAtDomain(r: Remote, name: string, id: string, email: string, lex: Lexer)
    ensures var answer := AskAgentMail(r, name, id, email, lex).1;
            var address := LocalPart(name, lex) + "@" + AGENTMAIL_DOMAIN;
            answer.Ok? ==> answer.value.address == address && answer.value.inboxId == Some(address)
  {
  }

  // ---- What is refused ----

  predicate IsEmailGiven(email: Option<string>, lex: Lexer) {
    email.Some? && '@' in Trim(email.value, lex.isSpace)
  }

  /** A name of 1 to 100 characters, an id of 1 to 64 letters, digits and dashes, and for AgentMail an email. */
  predicate MayBeAsked(req: Request, lex: Lexer) {
    && 1 <= |Clean(req.name, lex)| <= 100
    && 1 <= |req.id| <= 64
    && (forall c :: c in req.id ==> 'a' <= c <= 'z' || 'A' <= c <= 'Z' || '0' <= c <= '9' || c == '-')
    && (req.service.AgentMail? ==> IsEmailGiven(req.email, lex))
  }

  lemma AcceptableIs(req: Request, lex: Lexer)
    ensures Acceptable(req, lex) <==> MayBeAsked(req, lex)
  {
  }

  predicate IsLater(e: Failed) {
    e.Network? || e.Keychain? || e.Storage? || e.UsernameTaken? || e.Unauthorized?
  }

  lemma FailsLater(w: World, req: Request, f: Faults, lex: Lexer)
    requires Acceptable(req, lex)
    ensures var r := SignedUpFor(w, req, f, lex).1;
            r.Err? ==> IsLater(r.error)
  {
  }

  lemma RegisteringFails(w: World, req: Request, p: PendingSignUp, f: Faults, lex: Lexer)
    ensures var r := Registered(w, req, p, f, lex).1;
            r.Err? ==> IsLater(r.error)
  {
  }

  lemma FinishingFails(w: World, id: string, agent: Agent, f: Faults, lex: Lexer)
    ensures var r := Finished(w, id, agent, f, lex).1;
            r.Err? ==> IsLater(r.error)
  {
  }

  /** An attempt past what is refused fails, if at all, in a later step. */
  lemma GoesOn(w: World, req: Request, f: Faults, lex: Lexer)
    requires Acceptable(req, lex) && !Refused(w, req, f, lex)
    ensures var r := Create(w, req, f, lex).1;
            r.Err? ==> IsLater(r.error)
  {
    if req.service.AgentMail? && req.id in w.agents {
      FinishingFails(w, req.id, w.agents[req.id], f, lex);
    } else {
      FailsLater(w, req, f, lex);
      var (w', r) := SignedUpFor(w, req, f, lex);
      if r.Ok? {
        RegisteringFails(w', req, r.value, f, lex);
      }
    }
  }

  /**
   * Before the service is asked: a request that is not acceptable, an email with an account
   * here, and an id whose key is here without its answer; each with its own error, and only then.
   */
  lemma RefusedExactly(w: World, req: Request, f: Faults, lex: Lexer)
    ensures var r := Create(w, req, f, lex).1;
            && (r == Err(Invalid) <==> !MayBeAsked(req, lex))
            && (r == Err(EmailHasAccount) <==>
                 && MayBeAsked(req, lex) && req.service.AgentMail? && req.id !in w.agents
                 && HasAccount(w, HumanEmail(req, lex).value, lex))
            && (r == Err(AlreadyWentThrough) <==>
                 && MayBeAsked(req, lex) && req.service.AgentMail? && req.id !in w.agents
                 && !HasAccount(w, HumanEmail(req, lex).value, lex)
                 && !f.keyRead && req.id in w.keys && req.id !in w.pending)
  {
    AcceptableIs(req, lex);
    if Acceptable(req, lex) {
      if !Refused(w, req, f, lex) {
        GoesOn(w, req, f, lex);
      } else if req.id in w.agents {
        FinishingFails(w, req.id, w.agents[req.id], f, lex);
      }
    }
  }

  // ---- And what fails after that ----

  /** Past what is refused, with nothing to go by: no agent, and no answer with its key. */
  predicate AsksService(w: World, req: Request, f: Faults, lex: Lexer) {
    && MayBeAsked(req, lex)
    && (req.service.AgentMail? ==>
         && req.id !in w.agents && !HasAccount(w, HumanEmail(req, lex).value, lex) && !f.keyRead
         && (req.id in w.keys ==> req.id in w.pending)
         && (req.id in w.pending ==> !f.keyReadAgain && req.id !in w.keys))
  }

  /** The key of an earlier sign-up cannot be read. */
  predicate CannotReadKey(w: World, req: Request, f: Faults, lex: Lexer) {
    && MayBeAsked(req, lex) && req.service.AgentMail? && req.id !in w.agents
    && !HasAccount(w, HumanEmail(req, lex).value, lex)
    && (f.keyRead || (req.id in w.pending && f.keyReadAgain))
  }

  /** What AgentMail's answer is kept in is written, or need not be. */
  predicate AnswerIsWritten(req: Request, f: Faults) {
    req.service.AgentMail? ==> f.pendingWrite.Whole?
  }

  lemma KeepingFails(w: World, req: Request, s: SignedUp, f: Faults, lex: Lexer)
    ensures var r := KeptAs(w, req, s, f, lex).1;
            && (r.Ok? <==> AnswerIsWritten(req, f) && !f.keyWrite)
            && (r == Err(Keychain) <==> AnswerIsWritten(req, f) && f.keyWrite)
            && (r.Err? ==> r.error in {Storage, Keychain})
  {
  }

  lemma SigningUpFails(w: World, req: Request, f: Faults, lex: Lexer)
    requires AsksService(w, req, f, lex) && Acceptable(req, lex)
    ensures var r, answer := SignedUpFor(w, req, f, lex).1, ServiceAnswer(w, req, lex);
            if !f.signUp.Answers? then r == Err(Network)
            else if answer.Err? then r == Err(answer.error)
            else
              && (r.Ok? <==> AnswerIsWritten(req, f) && !f.keyWrite)
              && (r == Err(Keychain) <==> AnswerIsWritten(req, f) && f.keyWrite)
              && (r.Err? ==> r.error in {Storage, Keychain})
  {
    AskedIs(w, req, f, lex);
    var (w', answer) := Asked(w, req, f, lex);
    if answer.Ok? {
      KeepingFails(w', req, answer.value, f, lex);
    }
  }

  lemma RegisteringIsStorage(w: World, req: Request, p: PendingSignUp, f: Faults, lex: Lexer)
    ensures var r := Registered(w, req, p, f, lex).1;
            r.Err? ==> r == Err(Storage)
  {
  }

  lemma FinishingIsStorage(w: World, id: string, agent: Agent, f: Faults, lex: Lexer)
    ensures var r := Finished(w, id, agent, f, lex).1;
            r.Err? ==> r == Err(Storage)
  {
  }

  lemma AskingFails(w: World, req: Request, f: Faults, lex: Lexer)
    requires AsksService(w, req, f, lex) && Acceptable(req, lex)
    ensures var r, answer := Create(w, req, f, lex).1, ServiceAnswer(w, req, lex);
            if !f.signUp.Answers? then r == Err(Network)
            else if answer.Err? then r == Err(answer.error)
            else
              && (r == Err(Keychain) <==> AnswerIsWritten(req, f) && f.keyWrite)
              && (r.Err? ==> r.error in {Storage, Keychain})
  {
    SigningUpFails(w, req, f, lex);
    assert Create(w, req, f, lex)
        == match SignedUpFor(w, req, f, lex)
           case (w', Ok(p)) => Registered(w', req, p, f, lex)
           case (w', Err(e)) => (w', Err(e));
    var (w', r) := SignedUpFor(w, req, f, lex);
    if r.Ok? {
      RegisteringIsStorage(w', req, r.value, f, lex);
    }
  }

  lemma OthersFail(w: World, req: Request, f: Faults, lex: Lexer)
    requires !AsksService(w, req, f, lex) && Acceptable(req, lex)
    ensures var r := Create(w, req, f, lex).1;
            && (r == Err(Keychain) <==> CannotReadKey(w, req, f, lex))
            && (r.Err? ==> r.error in {EmailHasAccount, AlreadyWentThrough, Keychain, Storage})
  {
    AcceptableIs(req, lex);
    if req.id in w.agents {
      FinishingIsStorage(w, req.id, w.agents[req.id], f, lex);
    } else if req.id in w.pending {
      RegisteringIsStorage(w, req, w.pending[req.id], f, lex);
    }
  }

  /**
   * The service that cannot be reached or whose answer is lost, the service's own refusal, and a
   * Keychain that fails, each if and only if it is what the attempt answers.
   */
  lemma FailsExactly(w: World, req: Request, f: Faults, lex: Lexer)
    ensures var r, asks := Create(w, req, f, lex).1, AsksService(w, req, f, lex);
            && (r == Err(Network) <==> asks && !f.signUp.Answers?)
            && (r == Err(Keychain) <==>
                 CannotReadKey(w, req, f, lex)
                 || (asks && f.signUp.Answers? && Answered(w, req, lex) && AnswerIsWritten(req, f) && f.keyWrite))
            && (r.Err? && r.error in {UsernameTaken, Unauthorized} <==>
                 asks && f.signUp.Answers? && !Answered(w, req, lex))
  {
    AcceptableIs(req, lex);
    if Acceptable(req, lex) {
      if AsksService(w, req, f, lex) {
        ServiceRefusesExactly(w, req, lex);
        AskingFails(w, req, f, lex);
      } else {
        OthersFail(w, req, f, lex);
      }
    }
  }

  predicate Answered(w: World, req: Request, lex: Lexer) {
    Acceptable(req, lex) && ServiceAnswer(w, req, lex).Ok?
  }

  /** AgentMail refuses an email whose organisation's key has gone, and a new one whose address is another's. */
  lemma ServiceRefusesExactly(w: World, req: Request, lex: Lexer)
    requires Acceptable(req, lex)
    ensures var r, address := ServiceAnswer(w, req, lex), LocalPart(Clean(req.name, lex), lex) + "@agentmail.to";
            if req.service.Primitive? then r.Ok?
            else
              var who := lex.lower(HumanEmail(req, lex).value);
              var known := who in w.agentMail.organisations;
              && (r == Err(Unauthorized) <==> known && w.agentMail.organisations[who] !in w.agentMail.accounts)
              && (r == Err(UsernameTaken) <==> !known && IsSomeones(w.agentMail, address))
              && (r.Err? ==> r.error in {Unauthorized, UsernameTaken})
  {
    var address := LocalPart(Clean(req.name, lex), lex) + "@agentmail.to";
    assert LocalPart(Clean(req.name, lex), lex) + "@" + AGENTMAIL_DOMAIN == address;
    assert Taken(w.agentMail, address) <==> IsSomeones(w.agentMail, address);
  }

  predicate IsSomeones(r: Remote, address: string) {
    exists k :: k in r.inboxes && address in r.inboxes[k]
  }

  // ---- Records and emails ----

  /** A record is read where it is written; or from the agent its service account is named after. */
  lemma ReadsWhatIsThere(w: World, id: string, lex: Lexer)
    ensures var record := ReadService(w, id, lex);
            if !ValidId(id) then record.None?
            else if id in w.records then record == Some(w.records[id])
            else if id in w.agents && w.agents[id].serviceAccount == id then
              var managed := w.agents[id].managedAddress;
              && record.Some? && record.value.service == w.agents[id].service
              && record.value.humanEmail.None? && record.value.plan.None?
              && if '@' !in managed then record.value.managedDomain.None?
                 else exists domain :: IsDomainIn(domain, managed)
                                       && record.value.managedDomain == Some(lex.lower(domain))
            else record.None?
  {
    if id in w.agents && '@' in w.agents[id].managedAddress {
      DomainIs(w.agents[id].managedAddress);
    }
  }

  /** Alike but for the case of an ASCII letter. */
  predicate SameLetter(a: char, b: char) {
    || a == b
    || ('A' <= a <= 'Z' && b as int == a as int + 32)
    || ('A' <= b <= 'Z' && a as int == b as int + 32)
  }

  predicate SameLetters(a: string, b: string) {
    |a| == |b| && forall i :: 0 <= i < |a| ==> SameLetter(a[i], b[i])
  }

  lemma LoweredSame(a: string, b: string)
    ensures LowerAscii(a) == LowerAscii(b) <==> SameLetters(a, b)
  {
    var x, y := LowerAscii(a), LowerAscii(b);
    if |a| == |b| {
      forall i | 0 <= i < |a|
        ensures x[i] == y[i] <==> SameLetter(a[i], b[i])
      {
      }
      assert x == y <==> forall i :: 0 <= i < |a| ==> x[i] == y[i];
    }
  }

  /** Two emails are one if they are alike, but for white space around them and the case of ASCII letters. */
  lemma SameEmailExactly(a: string, b: string, before: string, after: string, lex: Lexer)
    requires EndsStay(a, lex.isSpace) && EndsStay(b, lex.isSpace)
    requires AllOf(before, lex.isSpace) && AllOf(after, lex.isSpace)
    ensures SameEmail(before + a + after, b, lex) <==> SameLetters(a, b)
    ensures SameEmail(b, before + a + after, lex) <==> SameLetters(b, a)
  {
    TrimDropsEnds(before, a, after, lex.isSpace);
    TrimDropsEnds("", b, "", lex.isSpace);
    assert "" + b + "" == b;
    LoweredSame(a, b);
    LoweredSame(b, a);
  }

  /** A request's email is what it gives without white space around, if that is anything. */
  lemma EmailIsTrimmed(req: Request, before: string, email: string, after: string, lex: Lexer)
    requires EndsStay(email, lex.isSpace) && AllOf(before, lex.isSpace) && AllOf(after, lex.isSpace)
    requires req.email == Some(before + email + after)
    ensures HumanEmail(req, lex) == if email == "" then None else Some(email)
  {
    TrimDropsEnds(before, email, after, lex.isSpace);
  }
}
