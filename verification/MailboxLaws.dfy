// What holds of mailbox creation over any number of attempts, each failing
// anywhere or nowhere.
module MailboxLaws {
  import opened Prelude
  import opened Text
  import opened Mailbox

  // ---- The invariant ----

  /** An agent's service account can be read and has its key, and so has every record. */
  predicate AccountsHaveKeys(w: World) {
    && (forall a :: a in w.agents ==> Readable(w, w.agents[a].serviceAccount) && w.agents[a].serviceAccount in w.keys)
    && w.records.Keys <= w.keys.Keys
  }

  /** A key AgentMail gave is for an agent, or its sign-up's answer is kept. */
  predicate KeysAreFor(w: World) {
    && w.givenBy.Keys == w.keys.Keys
    && forall id :: id in w.keys && w.givenBy[id].AgentMail? ==> id in w.pending || id in w.agents
  }

  predicate Inv(w: World) {
    AccountsHaveKeys(w) && KeysAreFor(w)
  }

  // ---- Part by part ----

  /** The service apart, two worlds are alike. */
  predicate SameHere(w: World, w': World) {
    w' == w.(agentMail := w'.agentMail, primitive := w'.primitive, signUps := w'.signUps)
  }

  lemma AskedElsewhere(w: World, req: Request, f: Faults, lex: Lexer)
    requires Acceptable(req, lex)
    ensures SameHere(w, Asked(w, req, f, lex).0)
    ensures Asked(w, req, f, lex).0.signUps == w.signUps
         || (req.service.AgentMail? && Asked(w, req, f, lex).0.signUps
              == w.signUps + [SignUp(req.id, HumanEmail(req, lex).value)])
  {
  }

  /** What the second half of an attempt may rely on. */
  predicate Ready(w: World, req: Request, p: PendingSignUp) {
    && req.id in w.keys
    && (req.service.AgentMail? ==> req.id !in w.agents && req.id in w.pending && w.pending[req.id] == p)
  }

  predicate SameAt<T(==)>(m: map<string, T>, m': map<string, T>, k: string) {
    (k in m' <==> k in m) && (k in m ==> m'[k] == m[k])
  }

  lemma UpdatedElsewhere<T>(m: map<string, T>, id: string, x: T, k: string)
    requires k != id
    ensures SameAt(m, m[id := x], k) && SameAt(m, m - {id}, k)
  {
  }

  function PendingAfter(w: World, req: Request, answer: PendingSignUp, f: Faults): map<string, PendingSignUp> {
    if !req.service.AgentMail? || f.pendingWrite.Fails? then w.pending
    else if f.pendingWrite.Torn? then w.pending - {req.id}
    else w.pending[req.id := answer]
  }

  predicate KeepsKey(req: Request, f: Faults) {
    (req.service.AgentMail? ==> f.pendingWrite.Whole?) && !f.keyWrite
  }

  lemma KeptMaps(w: World, req: Request, key: Key, answer: PendingSignUp, f: Faults)
    ensures Kept(w, req, key, answer, f).0
         == w.(pending := PendingAfter(w, req, answer, f),
               keys := if KeepsKey(req, f) then w.keys[req.id := key] else w.keys,
               givenBy := if KeepsKey(req, f) then w.givenBy[req.id := req.service] else w.givenBy)
  {
  }

  /** Keeping an answer and its key touches nothing of another id. */
  lemma KeptElsewhere(w: World, req: Request, key: Key, answer: PendingSignUp, f: Faults, k: string)
    requires k != req.id
    ensures var w' := Kept(w, req, key, answer, f).0;
            SameAt(w.pending, w'.pending, k) && SameAt(w.keys, w'.keys, k) && SameAt(w.givenBy, w'.givenBy, k)
  {
    KeptMaps(w, req, key, answer, f);
    UpdatedElsewhere(w.pending, req.id, answer, k);
    UpdatedElsewhere(w.keys, req.id, key, k);
    UpdatedElsewhere(w.givenBy, req.id, req.service, k);
  }

  lemma KeptHere(w: World, req: Request, key: Key, answer: PendingSignUp, f: Faults)
    ensures var (w', r) := Kept(w, req, key, answer, f);
            && w' == w.(pending := w'.pending, keys := w'.keys, givenBy := w'.givenBy)
            && w.keys.Keys <= w'.keys.Keys
            && (req.service.Primitive? ==> w'.pending == w.pending)
            && (r.Ok? ==> r.value == answer)
            && (r.Ok? ==> req.id in w'.keys && w'.keys[req.id] == key)
            && (r.Ok? ==> req.id in w'.givenBy && w'.givenBy[req.id] == req.service)
            && (r.Err? ==> w'.keys == w.keys && w'.givenBy == w.givenBy)
            && (r.Ok? && req.service.AgentMail? ==> req.id in w'.pending && w'.pending[req.id] == r.value)
  {
  }

  lemma KeptReady(w: World, req: Request, key: Key, answer: PendingSignUp, f: Faults)
    requires Inv(w) && (req.service.AgentMail? ==> req.id !in w.agents && req.id !in w.keys)
    ensures var (w', r) := Kept(w, req, key, answer, f);
            Inv(w') && (r.Ok? ==> Ready(w', req, r.value))
  {
    KeptHere(w, req, key, answer, f);
    var w' := Kept(w, req, key, answer, f).0;
    forall k | k != req.id
      ensures SameAt(w.pending, w'.pending, k) && SameAt(w.keys, w'.keys, k) && SameAt(w.givenBy, w'.givenBy, k)
    {
      KeptElsewhere(w, req, key, answer, f, k);
    }
  }

  /** A sign-up is asked for only if the id has no key with its answer kept. */
  predicate Resumes(w: World, req: Request) {
    req.service.AgentMail? && req.id in w.pending && req.id in w.keys
  }

  /** An attempt's first half: a key and the answer that came with it. */
  lemma SignedUpReady(w: World, req: Request, f: Faults, lex: Lexer)
    requires Inv(w) && Acceptable(req, lex)
    requires req.service.AgentMail? ==> req.id !in w.agents && (req.id in w.keys ==> req.id in w.pending)
    ensures var (w', r) := SignedUpFor(w, req, f, lex);
            Inv(w') && (r.Ok? ==> Ready(w', req, r.value))
  {
    if !Resumes(w, req) {
      AskedElsewhere(w, req, f, lex);
      var (w1, asked) := Asked(w, req, f, lex);
      if asked.Ok? {
        KeptReady(w1, req, asked.value.key, Answer(req, asked.value, lex), f);
      }
    }
  }

  lemma SignedUpLeaves(w: World, req: Request, f: Faults, lex: Lexer)
    requires Acceptable(req, lex)
    ensures var (w', r) := SignedUpFor(w, req, f, lex);
            && w'.agents == w.agents && w'.records == w.records
            && w.keys.Keys <= w'.keys.Keys
            && (r.Ok? ==> req.id in w'.keys)
            && (Resumes(w, req) ==> w' == w)
            && (w'.signUps == w.signUps
                || (req.service.AgentMail? && !Resumes(w, req)
                    && w'.signUps == w.signUps + [SignUp(req.id, HumanEmail(req, lex).value)]))
  {
    if !Resumes(w, req) {
      AskedElsewhere(w, req, f, lex);
      var (w1, asked) := Asked(w, req, f, lex);
      if asked.Ok? {
        KeptHere(w1, req, asked.value.key, Answer(req, asked.value, lex), f);
      }
    }
  }

  lemma FinishLeaves(w: World, id: string, agent: Agent, f: Faults, lex: Lexer)
    ensures var (w', r) := Finish(w, id, agent, f, lex);
            && w' == w.(records := w'.records, stores := w'.stores, index := w'.index)
            && (forall s :: s in w.records ==> s in w'.records && w'.records[s] == w.records[s])
            && (agent.serviceAccount in w.records ==> w'.records == w.records)
            && (r.Ok? ==> w'.stores == w.stores[id := agent.address] && w'.index == w.index[id := agent.address])
  {
  }

  /** The last steps add a missing record and list the agent. */
  lemma FinishedLeaves(w: World, id: string, agent: Agent, f: Faults, lex: Lexer)
    ensures var (w', r) := Finished(w, id, agent, f, lex);
            && w'.agents == w.agents && w'.keys == w.keys && w'.givenBy == w.givenBy
            && w'.signUps == w.signUps && w'.agentMail == w.agentMail
            && (forall s :: s in w.records ==> s in w'.records && w'.records[s] == w.records[s])
            && (agent.serviceAccount in w.records ==> w'.records == w.records)
            && (w'.pending == w.pending || w'.pending == w.pending - {id})
            && (r.Ok? ==> && r.value == Created(id, agent.address)
                          && id in w'.stores && w'.stores[id] == agent.address
                          && id in w'.index && w'.index[id] == agent.address
                          && (f.removal || id !in w'.pending))
  {
    FinishLeaves(w, id, agent, f, lex);
  }

  lemma FinishedKeeps(w: World, id: string, agent: Agent, f: Faults, lex: Lexer)
    requires Inv(w) && id in w.agents && w.agents[id] == agent
    ensures Inv(Finished(w, id, agent, f, lex).0)
  {
    FinishedLeaves(w, id, agent, f, lex);
  }

  /** The world with the service record and the agent of a request written. */
  function Written(w: World, req: Request, p: PendingSignUp, lex: Lexer): World {
    w.(records := w.records[req.id := Recorded(w, req, p, lex)], agents := w.agents[req.id := NewAgent(req, p, lex)])
  }

  lemma WrittenKeeps(w: World, req: Request, p: PendingSignUp, lex: Lexer)
    requires Inv(w) && Acceptable(req, lex) && Ready(w, req, p)
    ensures Inv(Written(w, req, p, lex))
  {
  }

  lemma RegisteredKeeps(w: World, req: Request, p: PendingSignUp, f: Faults, lex: Lexer)
    requires Inv(w) && Acceptable(req, lex) && Ready(w, req, p)
    ensures Inv(Registered(w, req, p, f, lex).0)
  {
    if !f.recordWrite && !f.agentWrite {
      WrittenKeeps(w, req, p, lex);
      FinishedKeeps(Written(w, req, p, lex), req.id, NewAgent(req, p, lex), f, lex);
    }
  }

  predicate Refused(w: World, req: Request, f: Faults, lex: Lexer)
    requires Acceptable(req, lex)
  {
    req.service.AgentMail? && Refusal(w, HumanEmail(req, lex).value, req.id, f, lex).Some?
  }

  /**
   * Every attempt, with either service and wherever it stops, keeps: `agent.json` implies a
   * record, or that it can be read as one, and its key, a record implies its key, and a key
   * AgentMail gave implies a kept answer or `agent.json`.
   */
  lemma CreateKeepsInv(w: World, req: Request, f: Faults, lex: Lexer)
    requires Inv(w)
    ensures Inv(Create(w, req, f, lex).0)
  {
    if Acceptable(req, lex) {
      if req.service.AgentMail? && req.id in w.agents {
        FinishedKeeps(w, req.id, w.agents[req.id], f, lex);
      } else if !Refused(w, req, f, lex) {
        SignedUpReady(w, req, f, lex);
        var (w', r) := SignedUpFor(w, req, f, lex);
        if r.Ok? {
          RegisteredKeeps(w', req, r.value, f, lex);
        }
      }
    }
  }

  lemma RegisteredLeaves(w: World, req: Request, p: PendingSignUp, f: Faults, lex: Lexer)
    ensures var w' := Registered(w, req, p, f, lex).0;
            && w'.keys == w.keys && w'.givenBy == w.givenBy && w'.signUps == w.signUps && w'.agentMail == w.agentMail
            && w.agents.Keys <= w'.agents.Keys
            && (forall a :: a in w.agents && a != req.id ==> w'.agents[a] == w.agents[a])
            && (forall s :: s in w.records && s != req.id ==> s in w'.records && w'.records[s] == w.records[s])
            && (req.id in w.records ==> req.id in w'.records)
            && (req.id in w.records ==> w'.records[req.id] in {w.records[req.id], Recorded(w, req, p, lex)})
  {
    if !f.recordWrite && !f.agentWrite {
      FinishedLeaves(Written(w, req, p, lex), req.id, NewAgent(req, p, lex), f, lex);
    }
  }

  lemma RegisteredKeepsKeys(w: World, req: Request, p: PendingSignUp, f: Faults, lex: Lexer)
    requires AccountsHaveKeys(w) && Acceptable(req, lex) && req.id in w.keys
    ensures AccountsHaveKeys(Registered(w, req, p, f, lex).0)
  {
    if !f.recordWrite && !f.agentWrite {
      FinishedLeaves(Written(w, req, p, lex), req.id, NewAgent(req, p, lex), f, lex);
    }
  }

  /** That accounts and records have their keys is kept on its own, whatever AgentMail keys there are. */
  lemma CreateKeepsKeys(w: World, req: Request, f: Faults, lex: Lexer)
    requires AccountsHaveKeys(w)
    ensures AccountsHaveKeys(Create(w, req, f, lex).0)
  {
    if Acceptable(req, lex) {
      if req.service.AgentMail? && req.id in w.agents {
        FinishedLeaves(w, req.id, w.agents[req.id], f, lex);
      } else if !Refused(w, req, f, lex) {
        SignedUpLeaves(w, req, f, lex);
        var (w', r) := SignedUpFor(w, req, f, lex);
        if r.Ok? {
          RegisteredKeepsKeys(w', req, r.value, f, lex);
        }
      }
    }
  }

  /** An agent has its service account's record written. */
  predicate RecordsWritten(w: World) {
    forall a :: a in w.agents ==> w.agents[a].serviceAccount in w.records
  }

  lemma RegisteredKeepsRecords(w: World, req: Request, p: PendingSignUp, f: Faults, lex: Lexer)
    requires RecordsWritten(w)
    ensures RecordsWritten(Registered(w, req, p, f, lex).0)
  {
    RegisteredLeaves(w, req, p, f, lex);
    if !f.recordWrite && !f.agentWrite {
      FinishedLeaves(Written(w, req, p, lex), req.id, NewAgent(req, p, lex), f, lex);
    }
  }

  /** With every agent's record written to begin with, every attempt keeps it so: the record comes first. */
  lemma CreateKeepsRecords(w: World, req: Request, f: Faults, lex: Lexer)
    requires RecordsWritten(w)
    ensures RecordsWritten(Create(w, req, f, lex).0)
  {
    if Acceptable(req, lex) {
      if req.service.AgentMail? && req.id in w.agents {
        FinishedLeaves(w, req.id, w.agents[req.id], f, lex);
      } else if !Refused(w, req, f, lex) {
        SignedUpLeaves(w, req, f, lex);
        var (w', r) := SignedUpFor(w, req, f, lex);
        if r.Ok? {
          RegisteredKeepsRecords(w', req, r.value, f, lex);
        }
      }
    }
  }

  // ---- Who is signed up, and when ----

  /**
   * The only AgentMail sign-up an attempt can ask for is its own, and only if its id has
   * no key and no agent yet and its email no account with an agent here.
   */
  lemma SignsUpOnlyFirst(w: World, req: Request, f: Faults, lex: Lexer)
    ensures var w' := Create(w, req, f, lex).0;
            || w'.signUps == w.signUps
            || (&& req.service.AgentMail? && Acceptable(req, lex)
                && req.id !in w.keys && req.id !in w.agents
                && !HasAccount(w, HumanEmail(req, lex).value, lex)
                && w'.signUps == w.signUps + [SignUp(req.id, HumanEmail(req, lex).value)])
  {
    if Acceptable(req, lex) {
      if req.service.AgentMail? && req.id in w.agents {
        FinishedLeaves(w, req.id, w.agents[req.id], f, lex);
      } else if !Refused(w, req, f, lex) {
        SignedUpLeaves(w, req, f, lex);
        var (w', r) := SignedUpFor(w, req, f, lex);
        if r.Ok? {
          RegisteredLeaves(w', req, r.value, f, lex);
        }
      }
    }
  }

  lemma KeysAreNotLost(w: World, req: Request, f: Faults, lex: Lexer)
    ensures w.keys.Keys <= Create(w, req, f, lex).0.keys.Keys
  {
    if Acceptable(req, lex) {
      if req.service.AgentMail? && req.id in w.agents {
        FinishedLeaves(w, req.id, w.agents[req.id], f, lex);
      } else if !Refused(w, req, f, lex) {
        SignedUpLeaves(w, req, f, lex);
        var (w', r) := SignedUpFor(w, req, f, lex);
        if r.Ok? {
          RegisteredLeaves(w', req, r.value, f, lex);
        }
      }
    }
  }

  // ---- Which attempts change a stored key, or an agent ----

  /** A Primitive attempt that gets as far as its key. */
  predicate StoresPrimitiveKey(req: Request, f: Faults, lex: Lexer) {
    req.service.Primitive? && Acceptable(req, lex) && f.signUp.Answers? && !f.keyWrite
  }

  /** What an attempt leaves of an id's stored key and who gave it. */
  lemma StoredKey(w: World, req: Request, f: Faults, lex: Lexer, id: string)
    requires id in w.keys
    ensures var w' := Create(w, req, f, lex).0;
            && id in w'.keys
            && (if StoresPrimitiveKey(req, f, lex) && req.id == id
                then w'.keys[id] == Fresh(id) && id in w'.givenBy && w'.givenBy[id].Primitive?
                else w'.keys[id] == w.keys[id] && SameAt(w.givenBy, w'.givenBy, id))
  {
    if Acceptable(req, lex) {
      if req.service.AgentMail? && req.id in w.agents {
        FinishedLeaves(w, req.id, w.agents[req.id], f, lex);
      } else if !Refused(w, req, f, lex) {
        SignedUpKey(w, req, f, lex, id);
        var (w', r) := SignedUpFor(w, req, f, lex);
        if r.Ok? {
          RegisteredLeaves(w', req, r.value, f, lex);
        }
      }
    }
  }

  lemma SignedUpKey(w: World, req: Request, f: Faults, lex: Lexer, id: string)
    requires id in w.keys && Acceptable(req, lex) && !Refused(w, req, f, lex)
    ensures var w' := SignedUpFor(w, req, f, lex).0;
            && id in w'.keys
            && (if StoresPrimitiveKey(req, f, lex) && req.id == id
                then w'.keys[id] == Fresh(id) && id in w'.givenBy && w'.givenBy[id].Primitive?
                else w'.keys[id] == w.keys[id] && SameAt(w.givenBy, w'.givenBy, id))
  {
    if !Resumes(w, req) {
      AskedElsewhere(w, req, f, lex);
      var (w1, asked) := Asked(w, req, f, lex);
      if asked.Ok? {
        var answer := Answer(req, asked.value, lex);
        KeptHere(w1, req, asked.value.key, answer, f);
        if id != req.id {
          KeptElsewhere(w1, req, asked.value.key, answer, f, id);
        }
      }
    }
  }

  /**
   * A stored key is replaced exactly by a Primitive attempt with its id that gets as far as
   * its key, if that is another.
   */
  lemma StoredKeyStaysExactly(w: World, req: Request, f: Faults, lex: Lexer, id: string)
    requires id in w.keys
    ensures id in Create(w, req, f, lex).0.keys
    ensures Create(w, req, f, lex).0.keys[id] == w.keys[id]
        <==> !(StoresPrimitiveKey(req, f, lex) && req.id == id && w.keys[id] != Fresh(id))
  {
    StoredKey(w, req, f, lex, id);
  }

  /** A Primitive attempt that gets as far as its agent. */
  predicate WritesPrimitiveAgent(req: Request, f: Faults, lex: Lexer) {
    StoresPrimitiveKey(req, f, lex) && !f.recordWrite && !f.agentWrite
  }

  /** An AgentMail agent stays as it is exactly if no Primitive attempt with its id gets as far as its agent. */
  lemma AgentStaysExactly(w: World, req: Request, f: Faults, lex: Lexer, a: string)
    requires a in w.agents && w.agents[a].service.AgentMail?
    ensures var w' := Create(w, req, f, lex).0;
            && a in w'.agents
            && (w'.agents[a] == w.agents[a] <==> !(WritesPrimitiveAgent(req, f, lex) && req.id == a))
            && (w'.agents[a] != w.agents[a] ==> w'.agents[a].service.Primitive? && w'.agents[a].serviceAccount == a)
  {
    if Acceptable(req, lex) {
      if req.service.AgentMail? && req.id in w.agents {
        FinishedLeaves(w, req.id, w.agents[req.id], f, lex);
      } else if !Refused(w, req, f, lex) {
        SignedUpLeaves(w, req, f, lex);
        var (w', r) := SignedUpFor(w, req, f, lex);
        if r.Ok? {
          RegisteredLeaves(w', req, r.value, f, lex);
          if !f.recordWrite && !f.agentWrite {
            FinishedLeaves(Written(w', req, r.value, lex), req.id, NewAgent(req, r.value, lex), f, lex);
          }
        }
      }
    }
  }

  // ---- Any number of attempts ----

  /** Attempts one after the other, each with what goes wrong in it. */
  function Attempts(w: World, attempts: seq<(Request, Faults)>, lex: Lexer): World {
    if attempts == [] then w
    else Create(Attempts(w, Init(attempts), lex), Last(attempts).0, Last(attempts).1, lex).0
  }

  lemma {:induction false} AttemptsKeepKeys(w: World, attempts: seq<(Request, Faults)>, lex: Lexer)
    requires AccountsHaveKeys(w)
    ensures AccountsHaveKeys(Attempts(w, attempts, lex))
    decreases |attempts|
  {
    if attempts != [] {
      AttemptsKeepKeys(w, Init(attempts), lex);
      CreateKeepsKeys(Attempts(w, Init(attempts), lex), Last(attempts).0, Last(attempts).1, lex);
    }
  }

  lemma {:induction false} AttemptsKeep(w: World, attempts: seq<(Request, Faults)>, lex: Lexer)
    requires Inv(w)
    ensures Inv(Attempts(w, attempts, lex))
    ensures w.keys.Keys <= Attempts(w, attempts, lex).keys.Keys
    decreases |attempts|
  {
    if attempts != [] {
      AttemptsKeep(w, Init(attempts), lex);
      var before := Attempts(w, Init(attempts), lex);
      CreateKeepsInv(before, Last(attempts).0, Last(attempts).1, lex);
      KeysAreNotLost(before, Last(attempts).0, Last(attempts).1, lex);
    }
  }

  /** Once a request's key is stored, no later attempt signs that request up again, whatever fails. */
  lemma {:induction false} NeverSignedUpAgain(w: World, attempts: seq<(Request, Faults)>, lex: Lexer, id: string)
    requires id in w.keys
    ensures var w' := Attempts(w, attempts, lex);
            && id in w'.keys && w.signUps <= w'.signUps
            && forall i :: |w.signUps| <= i < |w'.signUps| ==> w'.signUps[i].id != id
    decreases |attempts|
  {
    if attempts != [] {
      NeverSignedUpAgain(w, Init(attempts), lex, id);
      var before := Attempts(w, Init(attempts), lex);
      SignsUpOnlyFirst(before, Last(attempts).0, Last(attempts).1, lex);
      KeysAreNotLost(before, Last(attempts).0, Last(attempts).1, lex);
    }
  }

  // ---- What success leaves ----

  /** Key, record, agent, store and index are there and agree on the address answered. */
  predicate Complete(w: World, c: Created) {
    && c.id in w.agents && w.agents[c.id].address == c.address
    && w.agents[c.id].serviceAccount in w.records
    && w.agents[c.id].serviceAccount in w.keys
    && c.id in w.stores && w.stores[c.id] == c.address
    && c.id in w.index && w.index[c.id] == c.address
  }

  lemma OkIsComplete(w: World, req: Request, f: Faults, lex: Lexer)
    requires AccountsHaveKeys(w) && Create(w, req, f, lex).1.Ok?
    ensures Complete(Create(w, req, f, lex).0, Create(w, req, f, lex).1.value)
    ensures Create(w, req, f, lex).1.value.id == req.id
    ensures req.id in Create(w, req, f, lex).0.pending ==> f.removal
  {
    CreateKeepsKeys(w, req, f, lex);
    if req.service.AgentMail? && req.id in w.agents {
      FinishedLeaves(w, req.id, w.agents[req.id], f, lex);
    } else {
      var (w', r) := SignedUpFor(w, req, f, lex);
      FinishedLeaves(Written(w', req, r.value, lex), req.id, NewAgent(req, r.value, lex), f, lex);
    }
  }

  /** An attempt in which nothing fails. */
  predicate NothingFails(f: Faults) {
    && !f.keyRead && !f.keyReadAgain && f.signUp.Answers? && f.pendingWrite.Whole? && !f.keyWrite
    && !f.recordWrite && !f.agentWrite && !f.rewrite && !f.store && !f.index
  }

  /** The creation has its agent, or its answer, and no agent of another id the email's account. */
  predicate CanFinish(w: World, req: Request, lex: Lexer)
    requires req.service.AgentMail? && Acceptable(req, lex)
  {
    req.id in w.agents || (req.id in w.pending && !HasAccount(w, HumanEmail(req, lex).value, lex))
  }

  /**
   * Once a request's key is stored, an AgentMail retry in which nothing fails goes through
   * exactly if it can finish: with that key, the address first answered, and no sign-up.
   */
  lemma RetryFinishesExactly(w: World, req: Request, f: Faults, lex: Lexer)
    requires AccountsHaveKeys(w) && req.service.AgentMail? && Acceptable(req, lex)
    requires NothingFails(f) && req.id in w.keys
    ensures var (w', r) := Create(w, req, f, lex);
            && w'.keys == w.keys && w'.signUps == w.signUps && w'.agentMail == w.agentMail
            && (r.Ok? <==> CanFinish(w, req, lex))
            && (r.Ok? ==> Complete(w', r.value))
            && (r.Ok? ==> r.value.address == (if req.id in w.agents
                 then w.agents[req.id].address else w.pending[req.id].address))
  {
    if req.id in w.agents {
      FinishedLeaves(w, req.id, w.agents[req.id], f, lex);
    } else if CanFinish(w, req, lex) {
      var p := w.pending[req.id];
      assert Create(w, req, f, lex) == Registered(w, req, p, f, lex);
      FinishedLeaves(Written(w, req, p, lex), req.id, NewAgent(req, p, lex), f, lex);
    }
    if Create(w, req, f, lex).1.Ok? {
      OkIsComplete(w, req, f, lex);
    }
  }

  /** However a creation failed after AgentMail's key was stored, a retry in which nothing fails finishes it. */
  lemma RetryFinishes(w: World, req: Request, f: Faults, lex: Lexer)
    requires Inv(w) && req.service.AgentMail? && Acceptable(req, lex) && NothingFails(f)
    requires req.id in w.keys && w.givenBy[req.id].AgentMail?
    requires req.id in w.agents || !HasAccount(w, HumanEmail(req, lex).value, lex)
    ensures var (w', r) := Create(w, req, f, lex);
            && r.Ok? && Complete(w', r.value)
            && w'.keys == w.keys && w'.signUps == w.signUps && w'.agentMail == w.agentMail
            && r.value.address == (if req.id in w.agents then w.agents[req.id].address else w.pending[req.id].address)
  {
    RetryFinishesExactly(w, req, f, lex);
  }
}
