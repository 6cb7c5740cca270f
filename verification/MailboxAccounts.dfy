// When an email's account stays its account: what one attempt, and any number of
// them, do to an agent whose AgentMail service account was made with an email.
module MailboxAccounts {
  import opened Prelude
  import opened Text
  import opened Mailbox
  import opened MailboxLaws

  // ---- One attempt ----

  /** Agent `a` is of an AgentMail service account made with `email`. */
  predicate AccountOf(w: World, a: string, email: string, lex: Lexer) {
    && a in w.agents
    && var record := ReadService(w, w.agents[a].serviceAccount, lex);
       record.Some? && IsAccount(record.value, email, lex)
  }

  /** What agent `a`'s own record, if it has one, is of once the request has written it again. */
  predicate OwnIsAccount(w: World, req: Request, a: string, email: string, lex: Lexer) {
    && a in w.records
    && IsAccount(w.records[a].(humanEmail := Or(w.records[a].humanEmail, HumanEmail(req, lex))), email, lex)
  }

  /** A Primitive attempt makes the agent its own, of a service account that is not the email's. */
  predicate TakesAgent(w: World, req: Request, f: Faults, a: string, email: string, lex: Lexer)
    requires a in w.agents
  {
    && WritesPrimitiveAgent(req, f, lex) && req.id == a != w.agents[a].serviceAccount
    && !OwnIsAccount(w, req, a, email, lex)
  }

  /** An AgentMail attempt goes on with the account's kept answer, which is of another email, and writes that down. */
  predicate Readdresses(w: World, req: Request, f: Faults, s: string, email: string, lex: Lexer) {
    && req.service.AgentMail? && Acceptable(req, lex) && req.id == s && s !in w.agents && !Refused(w, req, f, lex)
    && Resumes(w, req) && !f.keyReadAgain && !f.recordWrite
    && w.pending[s].plan.email.Some? && !SameEmail(w.pending[s].plan.email.value, email, lex)
  }

  predicate TakesAccount(w: World, req: Request, f: Faults, a: string, email: string, lex: Lexer)
    requires a in w.agents
  {
    TakesAgent(w, req, f, a, email, lex) || Readdresses(w, req, f, w.agents[a].serviceAccount, email, lex)
  }

  lemma AccountIsRecorded(w: World, a: string, email: string, lex: Lexer)
    requires AccountOf(w, a, email, lex)
    ensures var s := w.agents[a].serviceAccount;
            ValidId(s) && s in w.records && IsAccount(w.records[s], email, lex)
  {
  }

  /** An agent that stays as it was: it is its service account's record that counts. */
  lemma SameAgent(w: World, w': World, a: string, email: string, lex: Lexer)
    requires AccountOf(w, a, email, lex) && a in w'.agents && w'.agents[a].serviceAccount == w.agents[a].serviceAccount
    requires w.agents[a].serviceAccount in w'.records
    ensures AccountOf(w', a, email, lex) <==> IsAccount(w'.records[w.agents[a].serviceAccount], email, lex)
  {
    AccountIsRecorded(w, a, email, lex);
  }

  /** The world once an attempt has registered what it was answered: the record, and perhaps the agent. */
  lemma RegisteredIs(w: World, req: Request, p: PendingSignUp, f: Faults, lex: Lexer)
    ensures var w' := Registered(w, req, p, f, lex).0;
            && w'.records == (if f.recordWrite then w.records else w.records[req.id := Recorded(w, req, p, lex)])
            && w'.agents == (if f.recordWrite || f.agentWrite then w.agents
                 else w.agents[req.id := NewAgent(req, p, lex)])
  {
    if !f.recordWrite && !f.agentWrite {
      FinishedLeaves(Written(w, req, p, lex), req.id, NewAgent(req, p, lex), f, lex);
    }
  }

  /** Written again, a record is of the same email, unless the answer gives another. */
  lemma WrittenAgain(w: World, req: Request, p: PendingSignUp, lex: Lexer, email: string)
    requires ValidId(req.id) && req.id in w.records && IsAccount(w.records[req.id], email, lex)
    ensures IsAccount(Recorded(w, req, p, lex), email, lex)
        <==> p.plan.email.Some? ==> SameEmail(p.plan.email.value, email, lex)
  {
  }

  /** The second half of an attempt, with another id than the agent's or with the agent's service account's. */
  lemma RegisteredAccount(w: World, req: Request, p: PendingSignUp, f: Faults, lex: Lexer, a: string, email: string)
    requires Acceptable(req, lex) && AccountOf(w, a, email, lex)
    requires req.id == a ==> w.agents[a].serviceAccount == a || f.recordWrite || f.agentWrite
    ensures AccountOf(Registered(w, req, p, f, lex).0, a, email, lex)
        <==> !(&& !f.recordWrite && req.id == w.agents[a].serviceAccount
               && p.plan.email.Some? && !SameEmail(p.plan.email.value, email, lex))
  {
    RegisteredIs(w, req, p, f, lex);
    AccountIsRecorded(w, a, email, lex);
    SameAgent(w, Registered(w, req, p, f, lex).0, a, email, lex);
    if req.id == w.agents[a].serviceAccount {
      WrittenAgain(w, req, p, lex, email);
    }
  }

  /** And with the agent's own, which becomes the service account of the agent written. */
  lemma RegisteredOverAgent(w: World, req: Request, p: PendingSignUp, f: Faults, lex: Lexer, email: string)
    requires Acceptable(req, lex) && AccountOf(w, req.id, email, lex) && w.agents[req.id].serviceAccount != req.id
    requires req.service.Primitive? && p.plan.email.None? && !f.recordWrite && !f.agentWrite
    ensures AccountOf(Registered(w, req, p, f, lex).0, req.id, email, lex) <==> OwnIsAccount(w, req, req.id, email, lex)
  {
    RegisteredIs(w, req, p, f, lex);
  }

  /** An AgentMail attempt with the id of a service account known here is refused, or goes on with what is kept. */
  lemma KnownResumes(w: World, req: Request, f: Faults, lex: Lexer)
    requires AccountsHaveKeys(w) && Acceptable(req, lex) && req.service.AgentMail? && req.id in w.keys
    requires !Refused(w, req, f, lex)
    ensures Resumes(w, req)
    ensures SignedUpFor(w, req, f, lex).1 == if f.keyReadAgain then Err(Keychain) else Ok(w.pending[req.id])
  {
  }

  lemma SignedUpAnswer(w: World, req: Request, f: Faults, lex: Lexer)
    requires Acceptable(req, lex)
    ensures var r := SignedUpFor(w, req, f, lex).1;
            req.service.Primitive? && r.Ok? ==> r.value.plan.email.None?
  {
  }

  lemma PrimitiveGoesOn(w: World, req: Request, f: Faults, lex: Lexer)
    requires req.service.Primitive? && Acceptable(req, lex)
    ensures SignedUpFor(w, req, f, lex).1.Ok? <==> StoresPrimitiveKey(req, f, lex)
  {
  }

  lemma AgentMailAccount(w: World, req: Request, f: Faults, lex: Lexer, a: string, email: string)
    requires AccountsHaveKeys(w) && AccountOf(w, a, email, lex)
    requires Acceptable(req, lex) && !Refused(w, req, f, lex) && req.service.AgentMail? && req.id !in w.agents
    ensures AccountOf(Create(w, req, f, lex).0, a, email, lex)
        <==> !Readdresses(w, req, f, w.agents[a].serviceAccount, email, lex)
  {
    AccountIsRecorded(w, a, email, lex);
    SignedUpLeaves(w, req, f, lex);
    var (w', r) := SignedUpFor(w, req, f, lex);
    SameAgent(w, w', a, email, lex);
    if req.id == w.agents[a].serviceAccount {
      KnownResumes(w, req, f, lex);
    }
    if r.Ok? {
      assert Create(w, req, f, lex) == Registered(w', req, r.value, f, lex);
      RegisteredAccount(w', req, r.value, f, lex, a, email);
    }
  }

  lemma PrimitiveAccount(w: World, req: Request, f: Faults, lex: Lexer, a: string, email: string)
    requires AccountOf(w, a, email, lex) && Acceptable(req, lex) && req.service.Primitive?
    ensures AccountOf(Create(w, req, f, lex).0, a, email, lex) <==> !TakesAgent(w, req, f, a, email, lex)
  {
    AccountIsRecorded(w, a, email, lex);
    SignedUpLeaves(w, req, f, lex);
    SignedUpAnswer(w, req, f, lex);
    PrimitiveGoesOn(w, req, f, lex);
    var (w', r) := SignedUpFor(w, req, f, lex);
    SameAgent(w, w', a, email, lex);
    if r.Ok? {
      assert Create(w, req, f, lex) == Registered(w', req, r.value, f, lex);
      if req.id == a && w.agents[a].serviceAccount != a && !f.recordWrite && !f.agentWrite {
        RegisteredOverAgent(w', req, r.value, f, lex, email);
      } else {
        RegisteredAccount(w', req, r.value, f, lex, a, email);
      }
    }
  }

  /**
   * An email's account stays its account through an attempt exactly if that neither takes the
   * agent away from it nor writes another email down for it.
   */
  lemma AccountStaysExactly(w: World, req: Request, f: Faults, lex: Lexer, a: string, email: string)
    requires AccountsHaveKeys(w) && AccountOf(w, a, email, lex)
    ensures AccountOf(Create(w, req, f, lex).0, a, email, lex) <==> !TakesAccount(w, req, f, a, email, lex)
  {
    if Acceptable(req, lex) {
      if req.service.Primitive? {
        PrimitiveAccount(w, req, f, lex, a, email);
      } else if req.id in w.agents {
        AccountIsRecorded(w, a, email, lex);
        FinishedLeaves(w, req.id, w.agents[req.id], f, lex);
        SameAgent(w, Create(w, req, f, lex).0, a, email, lex);
      } else if !Refused(w, req, f, lex) {
        AgentMailAccount(w, req, f, lex, a, email);
      }
    }
  }

  // ---- Any number of attempts ----

  /** The agent is of the email's account before, between and after the attempts. */
  predicate AccountThroughout(w: World, attempts: seq<(Request, Faults)>, a: string, email: string, lex: Lexer) {
    && AccountOf(Attempts(w, attempts, lex), a, email, lex)
    && (attempts == [] || AccountThroughout(w, Init(attempts), a, email, lex))
  }

  predicate NoneTakes(w: World, attempts: seq<(Request, Faults)>, a: string, email: string, lex: Lexer) {
    attempts == [] ||
    (&& NoneTakes(w, Init(attempts), a, email, lex)
     && var before := Attempts(w, Init(attempts), lex);
        a in before.agents && !TakesAccount(before, Last(attempts).0, Last(attempts).1, a, email, lex))
  }

  /** Over any attempts, whatever fails, an email's account stays its account exactly if none of them takes it. */
  lemma {:induction false} AccountStaysExactlyOverRuns(w: World, attempts: seq<(Request, Faults)>, lex: Lexer,
                                                       a: string, email: string)
    requires AccountsHaveKeys(w) && AccountOf(w, a, email, lex)
    ensures AccountThroughout(w, attempts, a, email, lex) <==> NoneTakes(w, attempts, a, email, lex)
    decreases |attempts|
  {
    if attempts != [] {
      AccountStaysExactlyOverRuns(w, Init(attempts), lex, a, email);
      AttemptsKeepKeys(w, Init(attempts), lex);
      var before := Attempts(w, Init(attempts), lex);
      if NoneTakes(w, Init(attempts), a, email, lex) {
        LastOfThroughout(w, Init(attempts), a, email, lex);
        AccountStaysExactly(before, Last(attempts).0, Last(attempts).1, lex, a, email);
      }
    }
  }

  lemma LastOfThroughout(w: World, attempts: seq<(Request, Faults)>, a: string, email: string, lex: Lexer)
    requires AccountThroughout(w, attempts, a, email, lex)
    ensures AccountOf(Attempts(w, attempts, lex), a, email, lex)
  {
  }

  /** None of the sign-ups asked for since is of the email. */
  predicate NotSignedUpSince(before: seq<SignUp>, after: seq<SignUp>, email: string, lex: Lexer) {
    && before <= after
    && forall i :: |before| <= i < |after| ==> !SameEmail(after[i].email, email, lex)
  }

  lemma NotSignedUpTwice(x: seq<SignUp>, y: seq<SignUp>, z: seq<SignUp>, email: string, lex: Lexer)
    requires NotSignedUpSince(x, y, email, lex) && NotSignedUpSince(y, z, email, lex)
    ensures NotSignedUpSince(x, z, email, lex)
  {
  }

  /** An attempt signs up no email that has an account with an agent here. */
  lemma AccountNotSignedUp(w: World, req: Request, f: Faults, lex: Lexer, a: string, email: string)
    requires AccountOf(w, a, email, lex)
    ensures NotSignedUpSince(w.signUps, Create(w, req, f, lex).0.signUps, email, lex)
  {
    SignsUpOnlyFirst(w, req, f, lex);
    if HumanEmail(req, lex).Some? && SameEmail(HumanEmail(req, lex).value, email, lex) {
      assert HasAccount(w, HumanEmail(req, lex).value, lex);
    }
  }

  /** And as long as none takes it, the email is not signed up again, under any id. */
  lemma {:induction false} NotTakenNotSignedUp(w: World, attempts: seq<(Request, Faults)>, lex: Lexer, a: string,
      email: string)
    requires AccountsHaveKeys(w) && AccountOf(w, a, email, lex) && NoneTakes(w, attempts, a, email, lex)
    ensures AccountOf(Attempts(w, attempts, lex), a, email, lex)
    ensures NotSignedUpSince(w.signUps, Attempts(w, attempts, lex).signUps, email, lex)
    decreases |attempts|
  {
    if attempts != [] {
      NotTakenNotSignedUp(w, Init(attempts), lex, a, email);
      AttemptsKeepKeys(w, Init(attempts), lex);
      var before := Attempts(w, Init(attempts), lex);
      var (req, f) := Last(attempts);
      AccountStaysExactly(before, req, f, lex, a, email);
      AccountNotSignedUp(before, req, f, lex, a, email);
      NotSignedUpTwice(w.signUps, before.signUps, Create(before, req, f, lex).0.signUps, email, lex);
    }
  }

  // ---- Attempts that cannot take it ----

  /** Finishing a creation for service account `s` would not change its record's email. */
  predicate Settled(w: World, s: string) {
    s in w.agents || s !in w.pending || s !in w.records || w.pending[s].plan.email.None?
    || w.records[s].humanEmail == w.pending[s].plan.email
  }

  /** No Primitive attempt is made with the agent's id, unless that is its service account's too. */
  predicate Spares(req: Request, a: string, s: string) {
    req.service.Primitive? && req.id == a ==> a == s
  }

  lemma ServiceAccountStays(w: World, req: Request, f: Faults, lex: Lexer, a: string)
    requires a in w.agents && Spares(req, a, w.agents[a].serviceAccount)
    ensures a in Create(w, req, f, lex).0.agents
    ensures Create(w, req, f, lex).0.agents[a].serviceAccount == w.agents[a].serviceAccount
  {
    if Acceptable(req, lex) {
      if req.service.AgentMail? && req.id in w.agents {
        FinishedLeaves(w, req.id, w.agents[req.id], f, lex);
      } else if !Refused(w, req, f, lex) {
        SignedUpLeaves(w, req, f, lex);
        var (w', r) := SignedUpFor(w, req, f, lex);
        if r.Ok? {
          RegisteredIs(w', req, r.value, f, lex);
        }
      }
    }
  }

  /** An email's account stays its account. */
  lemma AccountStays(w: World, req: Request, f: Faults, lex: Lexer, a: string, email: string)
    requires AccountsHaveKeys(w) && AccountOf(w, a, email, lex)
    requires Settled(w, w.agents[a].serviceAccount) && Spares(req, a, w.agents[a].serviceAccount)
    ensures var w' := Create(w, req, f, lex).0;
            AccountOf(w', a, email, lex) && w'.agents[a].serviceAccount == w.agents[a].serviceAccount
  {
    AccountIsRecorded(w, a, email, lex);
    AccountStaysExactly(w, req, f, lex, a, email);
    ServiceAccountStays(w, req, f, lex, a);
  }

  lemma SignedUpKeepsSettled(w: World, req: Request, f: Faults, lex: Lexer, s: string)
    requires AccountsHaveKeys(w) && s in w.records && Settled(w, s) && Acceptable(req, lex) && !Refused(w, req, f, lex)
    ensures Settled(SignedUpFor(w, req, f, lex).0, s)
  {
    if !Resumes(w, req) {
      AskedElsewhere(w, req, f, lex);
      var (w1, asked) := Asked(w, req, f, lex);
      if asked.Ok? {
        var answer := Answer(req, asked.value, lex);
        KeptHere(w1, req, asked.value.key, answer, f);
        if s != req.id {
          KeptElsewhere(w1, req, asked.value.key, answer, f, s);
        }
      }
    }
  }

  lemma SignedUpKept(w: World, req: Request, f: Faults, lex: Lexer)
    requires Acceptable(req, lex) && (req.service.AgentMail? ==> req.id !in w.agents)
    ensures var (w', r) := SignedUpFor(w, req, f, lex);
            r.Ok? ==> Ready(w', req, r.value)
  {
    if !Resumes(w, req) {
      AskedElsewhere(w, req, f, lex);
      var (w1, asked) := Asked(w, req, f, lex);
      if asked.Ok? {
        KeptHere(w1, req, asked.value.key, Answer(req, asked.value, lex), f);
      }
    }
  }

  lemma RegisteredKeepsSettled(w: World, req: Request, p: PendingSignUp, f: Faults, lex: Lexer, s: string)
    requires Acceptable(req, lex) && Ready(w, req, p) && Settled(w, s) && s in w.records
    requires req.service.Primitive? ==> p.plan.email.None?
    ensures Settled(Registered(w, req, p, f, lex).0, s)
  {
    RegisteredLeaves(w, req, p, f, lex);
    if !f.recordWrite && !f.agentWrite {
      FinishedLeaves(Written(w, req, p, lex), req.id, NewAgent(req, p, lex), f, lex);
    }
  }

  lemma CreateKeepsSettled(w: World, req: Request, f: Faults, lex: Lexer, s: string)
    requires AccountsHaveKeys(w) && s in w.records && Settled(w, s)
    ensures s in Create(w, req, f, lex).0.records && Settled(Create(w, req, f, lex).0, s)
  {
    if Acceptable(req, lex) {
      if req.service.AgentMail? && req.id in w.agents {
        FinishedLeaves(w, req.id, w.agents[req.id], f, lex);
      } else if !Refused(w, req, f, lex) {
        SignedUpKept(w, req, f, lex);
        SignedUpLeaves(w, req, f, lex);
        SignedUpKeepsSettled(w, req, f, lex, s);
        SignedUpAnswer(w, req, f, lex);
        var (w', r) := SignedUpFor(w, req, f, lex);
        if r.Ok? {
          RegisteredLeaves(w', req, r.value, f, lex);
          RegisteredKeepsSettled(w', req, r.value, f, lex, s);
        }
      }
    }
  }

  predicate AllSpare(attempts: seq<(Request, Faults)>, a: string, s: string) {
    forall x :: x in attempts ==> Spares(x.0, a, s)
  }

  /** Agent `a` is of service account `s`, which is the email's, and nothing is under way that would change that. */
  predicate HoldsAccount(w: World, a: string, s: string, email: string, lex: Lexer) {
    AccountOf(w, a, email, lex) && w.agents[a].serviceAccount == s && Settled(w, s)
  }

  lemma EmailNotSignedUpNow(w: World, req: Request, f: Faults, lex: Lexer, a: string, s: string, email: string)
    requires AccountsHaveKeys(w) && HoldsAccount(w, a, s, email, lex) && Spares(req, a, s)
    ensures var w' := Create(w, req, f, lex).0;
            HoldsAccount(w', a, s, email, lex) && NotSignedUpSince(w.signUps, w'.signUps, email, lex)
  {
    AccountNotSignedUp(w, req, f, lex, a, email);
    AccountStays(w, req, f, lex, a, email);
    CreateKeepsSettled(w, req, f, lex, s);
  }

  /**
   * An email whose service account has an agent here, with no other answer kept for it, is never
   * signed up again, under any id, if no Primitive attempt is made with the agent's own.
   */
  lemma {:induction false} EmailNeverSignedUpAgain(w: World, attempts: seq<(Request, Faults)>, lex: Lexer,
                                                   a: string, s: string, email: string)
    requires AccountsHaveKeys(w) && HoldsAccount(w, a, s, email, lex) && AllSpare(attempts, a, s)
    ensures var w' := Attempts(w, attempts, lex);
            && AccountsHaveKeys(w') && HoldsAccount(w', a, s, email, lex)
            && NotSignedUpSince(w.signUps, w'.signUps, email, lex)
    decreases |attempts|
  {
    if attempts != [] {
      var before := Attempts(w, Init(attempts), lex);
      var (req, f) := Last(attempts);
      assert Last(attempts) in attempts && forall x :: x in Init(attempts) ==> x in attempts;
      EmailNeverSignedUpAgain(w, Init(attempts), lex, a, s, email);
      CreateKeepsKeys(before, req, f, lex);
      EmailNotSignedUpNow(before, req, f, lex, a, s, email);
      NotSignedUpTwice(w.signUps, before.signUps, Create(before, req, f, lex).0.signUps, email, lex);
    }
  }

  /** And for the agent an account was created with never, whatever is attempted with either service. */
  lemma FirstAgentsEmailNeverSignedUpAgain(w: World, attempts: seq<(Request, Faults)>, lex: Lexer, a: string,
      email: string)
    requires AccountsHaveKeys(w) && AccountOf(w, a, email, lex) && w.agents[a].serviceAccount == a
    ensures var w' := Attempts(w, attempts, lex);
            AccountOf(w', a, email, lex) && NotSignedUpSince(w.signUps, w'.signUps, email, lex)
  {
    EmailNeverSignedUpAgain(w, attempts, lex, a, a, email);
  }
}
