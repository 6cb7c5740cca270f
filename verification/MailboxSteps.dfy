// How far a creation gets: which of its writes are made, and in what order, wherever it stops.
module MailboxSteps {
  import opened Prelude
  import opened Text
  import opened Mailbox
  import opened MailboxLaws

  /** One map after another attempt: as it was, or written at the key. */
  predicate WrittenAt<K, V(==)>(before: map<K, V>, after: map<K, V>, key: K) {
    after == before || (key in after && after == before[key := after[key]])
  }

  /** The index after the store, the store after the agent and its service account's record. */
  predicate ListedInOrder(w: World, w': World, id: string) {
    && WrittenAt(w.index, w'.index, id) && WrittenAt(w.stores, w'.stores, id)
    && (w'.index != w.index ==> id in w'.stores && w'.index[id] == w'.stores[id])
    && (w'.stores != w.stores || w'.index != w.index ==>
         && id in w'.agents && id in w'.stores && w'.stores[id] == w'.agents[id].address
         && w'.agents[id].serviceAccount in w'.records)
  }

  /** The agent after its record, and the record after the key; the key after AgentMail's answer. */
  predicate MadeInOrder(w: World, w': World, req: Request) {
    && WrittenAt(w.agents, w'.agents, req.id) && WrittenAt(w.keys, w'.keys, req.id)
    && (w'.agents != w.agents ==> req.id in w'.records && req.id in w'.keys)
    && (w'.records != w.records && !(req.service.AgentMail? && req.id in w.agents) ==> req.id in w'.keys)
    && (w'.keys != w.keys && req.service.AgentMail? ==> req.id in w'.pending || req.id in w'.index)
  }

  /** A write that fails, and all that come after it, are not made. */
  predicate StopsAtFailure(w: World, w': World, f: Faults) {
    && (f.keyWrite ==> w'.keys == w.keys)
    && (f.store ==> w'.stores == w.stores && w'.index == w.index)
    && (f.index ==> w'.index == w.index)
  }

  predicate StopsBeforeAgent(w: World, w': World, f: Faults) {
    && (f.recordWrite ==> w'.records == w.records)
    && (f.recordWrite || f.agentWrite ==> w'.agents == w.agents && w'.stores == w.stores && w'.index == w.index)
  }

  lemma FinishSteps(w: World, id: string, agent: Agent, f: Faults, lex: Lexer)
    ensures var w' := Finish(w, id, agent, f, lex).0;
            && w' == w.(records := w'.records, stores := w'.stores, index := w'.index)
            && WrittenAt(w.records, w'.records, agent.serviceAccount)
            && (f.store ==> w'.stores == w.stores && w'.index == w.index) && (f.index ==> w'.index == w.index)
  {
  }

  lemma FinishInOrder(w: World, id: string, agent: Agent, f: Faults, lex: Lexer)
    requires id in w.agents && w.agents[id] == agent
    ensures ListedInOrder(w, Finish(w, id, agent, f, lex).0, id)
  {
  }

  lemma FinishedSteps(w: World, id: string, agent: Agent, f: Faults, lex: Lexer)
    requires id in w.agents && w.agents[id] == agent
    ensures var (w', r) := Finished(w, id, agent, f, lex);
            && w' == w.(records := w'.records, stores := w'.stores, index := w'.index, pending := w'.pending)
            && WrittenAt(w.records, w'.records, agent.serviceAccount)
            && ListedInOrder(w, w', id) && StopsAtFailure(w, w', f)
            && (w'.pending == w.pending || (r.Ok? && !f.removal && w'.pending == w.pending - {id} && id in w'.index))
  {
    FinishSteps(w, id, agent, f, lex);
    FinishInOrder(w, id, agent, f, lex);
  }

  lemma RegisteredSteps(w: World, req: Request, p: PendingSignUp, f: Faults, lex: Lexer)
    requires req.id in w.keys
    ensures var (w', r) := Registered(w, req, p, f, lex);
            && w'.keys == w.keys && WrittenAt(w.records, w'.records, req.id) && WrittenAt(w.agents, w'.agents, req.id)
            && (w'.agents != w.agents ==> req.id in w'.records)
            && ListedInOrder(w, w', req.id) && StopsAtFailure(w, w', f) && StopsBeforeAgent(w, w', f)
            && (w'.pending == w.pending || (r.Ok? && !f.removal && w'.pending == w.pending - {req.id}
                                            && req.id in w'.index))
  {
    if !f.recordWrite && !f.agentWrite {
      FinishedSteps(Written(w, req, p, lex), req.id, NewAgent(req, p, lex), f, lex);
    }
  }

  /** Signing up writes the answer and the key alone, the answer first. */
  lemma SignedUpSteps(w: World, req: Request, f: Faults, lex: Lexer)
    requires Acceptable(req, lex)
    ensures var (w', r) := SignedUpFor(w, req, f, lex);
            && w'.records == w.records && w'.agents == w.agents && w'.stores == w.stores && w'.index == w.index
            && WrittenAt(w.keys, w'.keys, req.id) && (f.keyWrite ==> w'.keys == w.keys)
            && (w'.keys != w.keys && req.service.AgentMail? ==> req.id in w'.pending)
            && (r.Ok? ==> req.id in w'.keys && (req.service.AgentMail? ==> req.id in w'.pending))
            && (req.service.AgentMail? && !f.pendingWrite.Whole? ==> w'.keys == w.keys)
  {
    AskedElsewhere(w, req, f, lex);
    var (w1, answer) := Asked(w, req, f, lex);
    if answer.Ok? {
      KeptMaps(w1, req, answer.value.key, Answer(req, answer.value, lex), f);
      KeptHere(w1, req, answer.value.key, Answer(req, answer.value, lex), f);
    }
  }

  lemma NothingAfter(w: World, w1: World, w': World, req: Request, f: Faults)
    requires w1.records == w.records && w1.agents == w.agents && w1.stores == w.stores && w1.index == w.index
    requires WrittenAt(w.keys, w1.keys, req.id) && (f.keyWrite ==> w1.keys == w.keys) && w'.keys == w1.keys
    requires ListedInOrder(w1, w', req.id) && StopsAtFailure(w1, w', f)
    ensures ListedInOrder(w, w', req.id) && StopsAtFailure(w, w', f)
  {
  }

  /**
   * Wherever an attempt stops, with either service: index, store, agent, record, key and kept
   * answer are each written only where those to be written before are; each write touches its own
   * id alone; and a write that fails is not made, nor any after it.
   */
  lemma WritesInOrder(w: World, req: Request, f: Faults, lex: Lexer)
    ensures var w' := Create(w, req, f, lex).0;
            && ListedInOrder(w, w', req.id) && MadeInOrder(w, w', req) && StopsAtFailure(w, w', f)
            && (!(req.service.AgentMail? && req.id in w.agents) ==> StopsBeforeAgent(w, w', f))
  {
    if Acceptable(req, lex) {
      if req.service.AgentMail? && req.id in w.agents {
        FinishedSteps(w, req.id, w.agents[req.id], f, lex);
      } else if !Refused(w, req, f, lex) {
        NewInOrder(w, req, f, lex);
      }
    }
  }

  lemma NewInOrder(w: World, req: Request, f: Faults, lex: Lexer)
    requires Acceptable(req, lex) && !Refused(w, req, f, lex) && !(req.service.AgentMail? && req.id in w.agents)
    ensures var w' := Create(w, req, f, lex).0;
            && ListedInOrder(w, w', req.id) && MadeInOrder(w, w', req) && StopsAtFailure(w, w', f)
            && StopsBeforeAgent(w, w', f)
  {
    SignedUpSteps(w, req, f, lex);
    var (w1, r) := SignedUpFor(w, req, f, lex);
    if r.Ok? {
      RegisteredSteps(w1, req, r.value, f, lex);
      NothingAfter(w, w1, Registered(w1, req, r.value, f, lex).0, req, f);
    }
  }
}
