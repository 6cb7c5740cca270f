// Creating an agent mailbox (crates/kaluta-core/src/agent_mailbox.rs): a
// sign-up at a remote service and then a file, a Keychain item, a service
// record, the agent's own file, its store and the index, any of which may
// fail or be the last thing before a crash. `Mac` is what is written where;
// `Create` says what one attempt leaves and answers.
module Mailbox {
  import opened Prelude
  import opened Text
  import opened Names

  datatype Service = Primitive | AgentMail

  /** An API key: as first given to a request id, or given for an older one. */
  datatype Key = Fresh(id: string) | Rotated(earlier: Key, n: nat)

  datatype Plan = Plan(verified: bool, email: Option<string>)

  datatype SignedUp = SignedUp(key: Key, address: string, plan: Plan, inboxId: Option<string>)

  /** The service, as `FakeMailboxService` plays it. */
  datatype Remote = Remote(
    accounts: map<Key, Plan>,
    organisations: map<string, Key>,
    inboxes: map<Key, seq<string>>,
    rotations: nat)

  datatype PendingSignUp = PendingSignUp(address: string, inboxId: Option<string>, plan: Plan)

  datatype Record = Record(service: Service, humanEmail: Option<string>, plan: Option<Plan>,
      managedDomain: Option<string>)

  datatype Agent = Agent(
    service: Service, address: string, name: string, managedAddress: string, serviceAccount: string,
        inboxId: Option<string>)

  datatype SignUp = SignUp(id: string, email: string)

  /**
   * Everything an attempt reads or writes. And what happened: `givenBy` says which service
   * gave each stored key, `signUps` lists the AgentMail sign-ups asked for.
   */
  datatype World = World(
    pending: map<string, PendingSignUp>,
    keys: map<string, Key>,
    givenBy: map<string, Service>,
    records: map<string, Record>,
    agents: map<string, Agent>,
    stores: map<string, string>,
    index: map<string, string>,
    agentMail: Remote,
    primitive: Remote,
    signUps: seq<SignUp>)

  datatype Request = Request(service: Service, name: string, email: Option<string>, id: string)

  datatype Reach = Answers | Unreached | AnswerLost

  datatype FileWrite = Whole | Fails | Torn

  /** What goes wrong in an attempt: `true` for a step that fails. */
  datatype Faults = Faults(
    keyRead: bool, keyReadAgain: bool, signUp: Reach, pendingWrite: FileWrite, keyWrite: bool, recordWrite: bool,
    agentWrite: bool, rewrite: bool, store: bool, index: bool, removal: bool)

  datatype Failed =
    Invalid | EmailHasAccount | AlreadyWentThrough | UsernameTaken | Unauthorized | Network | Keychain | Storage

  datatype Created = Created(id: string, address: string)

  // ---- Addresses and ids ----

  /** `a.trim().eq_ignore_ascii_case(b.trim())` */
  predicate SameEmail(a: string, b: string, lex: Lexer) {
    LowerAscii(Trim(a, lex.isSpace)) == LowerAscii(Trim(b, lex.isSpace))
  }

  predicate ValidId(id: string) {
    0 < |id| <= 64 && forall c :: c in id ==> IsAsciiAlphanumeric(c) || c == '-'
  }

  function DomainOf(address: string, lex: Lexer): Option<string> {
    if '@' in address then Some(lex.lower(AfterLastAt(address))) else None
  }

  function AfterLastAt(address: string): string {
    if '@' in address then AfterLastAt(address[Until(address, c => c == '@') + 1..]) else address
  }

  /** The email of a request, trimmed, if it gives one. */
  function HumanEmail(req: Request, lex: Lexer): Option<string> {
    if req.email.Some? && Trim(req.email.value, lex.isSpace) != ""
        then Some(Trim(req.email.value, lex.isSpace)) else None
  }

  function TidyName(req: Request, lex: Lexer): string {
    Clean(req.name, lex)
  }

  predicate Acceptable(req: Request, lex: Lexer) {
    && 0 < |TidyName(req, lex)| <= 100
    && ValidId(req.id)
    && (req.service.AgentMail? ==> HumanEmail(req, lex).Some? && '@' in HumanEmail(req, lex).value)
  }

  // ---- The remote service ----

  const AGENTMAIL_DOMAIN: string := "agentmail.to"
  const PRIMITIVE_DOMAIN: string := "demo.primitive.email"

  function Moved<T>(m: map<Key, T>, from: Key, to: Key): map<Key, T> {
    if from in m then (m - {from})[to := m[from]] else m
  }

  predicate Taken(r: Remote, address: string) {
    exists k :: k in r.inboxes && address in r.inboxes[k]
  }

  /** An organisation per email: asked again, it gives a new key and the old one stops working. */
  function AskAgentMail(r: Remote, name: string, id: string, email: string, lex: Lexer)
    : (Remote, Result<SignedUp, Failed>)
  {
    var address := LocalPart(name, lex) + "@" + AGENTMAIL_DOMAIN;
    var who := lex.lower(email);
    if who in r.organisations then
      var earlier := r.organisations[who];
      if earlier !in r.accounts then (r, Err(Unauthorized))
      else
        var next := Rotated(earlier, r.rotations + 1);
        (Remote(Moved(r.accounts, earlier, next), r.organisations[who := next], Moved(r.inboxes, earlier, next),
            r.rotations + 1),
         Ok(SignedUp(next, address, r.accounts[earlier], Some(address))))
    else if Taken(r, address) then (r, Err(UsernameTaken))
    else
      var key := Fresh(id);
      var plan := if key in r.accounts then r.accounts[key] else Plan(false, Some(who));
      (Remote(r.accounts[key := plan], r.organisations[who := key], r.inboxes[key := [address]], r.rotations),
       Ok(SignedUp(key, address, plan, Some(address))))
  }

  /** The request id is the idempotency key: asked again, it answers the same. */
  function AskPrimitive(r: Remote, name: string, id: string, lex: Lexer): (Remote, Result<SignedUp, Failed>) {
    var plan := Plan(false, None);
    (r.(accounts := r.accounts[Fresh(id) := plan]),
     Ok(SignedUp(Fresh(id), LocalPart(name, lex) + "@" + PRIMITIVE_DOMAIN, plan, None)))
  }

  // ---- One attempt, part by part ----

  /** A service account's record is there, or can be read from the agent it is named after. */
  predicate Readable(w: World, id: string) {
    ValidId(id) && (id in w.records || (id in w.agents && w.agents[id].serviceAccount == id))
  }

  /** A service account's record, or the one its agent stands for. */
  function ReadService(w: World, id: string, lex: Lexer): (record: Option<Record>)
    ensures record.Some? <==> Readable(w, id)
  {
    if !ValidId(id) then None
    else if id in w.records then Some(w.records[id])
    else if id in w.agents && w.agents[id].serviceAccount == id then
      Some(Record(w.agents[id].service, None, None, DomainOf(w.agents[id].managedAddress, lex)))
    else None
  }

  /** The record is of an AgentMail service account made with `email`. */
  predicate IsAccount(record: Record, email: string, lex: Lexer) {
    record.service.AgentMail? && record.humanEmail.Some? && SameEmail(record.humanEmail.value, email, lex)
  }

  /** The email has an AgentMail service account with an agent on this Mac. */
  predicate HasAccount(w: World, email: string, lex: Lexer) {
    exists a :: a in w.agents &&
      var record := ReadService(w, w.agents[a].serviceAccount, lex);
      record.Some? && IsAccount(record.value, email, lex)
  }

  function Refusal(w: World, email: string, id: string, f: Faults, lex: Lexer): Option<Failed> {
    if HasAccount(w, email, lex) then Some(EmailHasAccount)
    else if f.keyRead then Some(Keychain)
    else if id in w.keys && id !in w.pending then Some(AlreadyWentThrough)
    else None
  }

  /** Asking the service: what is known of its answer, and what it did. */
  function Asked(w: World, req: Request, f: Faults, lex: Lexer): (World, Result<SignedUp, Failed>)
    requires Acceptable(req, lex)
  {
    if f.signUp.Unreached? then (w, Err(Network))
    else
      match req.service
      case AgentMail =>
        var email := HumanEmail(req, lex).value;
        var (remote, answer) := AskAgentMail(w.agentMail, TidyName(req, lex), req.id, email, lex);
        (w.(agentMail := remote, signUps := w.signUps + [SignUp(req.id, email)]),
         if f.signUp.AnswerLost? then Err(Network) else answer)
      case Primitive =>
        var (remote, answer) := AskPrimitive(w.primitive, TidyName(req, lex), req.id, lex);
        (w.(primitive := remote), if f.signUp.AnswerLost? then Err(Network) else answer)
  }

  function Answer(req: Request, s: SignedUp, lex: Lexer): PendingSignUp {
    var plan := if req.service.AgentMail? && s.plan.email.None? then s.plan.(email := HumanEmail(req, lex)) else s.plan;
    PendingSignUp(MailboxAddress(s.address, TidyName(req, lex), lex), s.inboxId, plan)
  }

  /** AgentMail's answer is kept before its key is; then the key. */
  function Kept(w: World, req: Request, key: Key, answer: PendingSignUp, f: Faults)
    : (World, Result<PendingSignUp, Failed>)
  {
    if req.service.AgentMail? && !f.pendingWrite.Whole? then
      (if f.pendingWrite.Torn? then w.(pending := w.pending - {req.id}) else w, Err(Storage))
    else
      var w' := if req.service.AgentMail? then w.(pending := w.pending[req.id := answer]) else w;
      if f.keyWrite then (w', Err(Keychain))
      else (w'.(keys := w'.keys[req.id := key], givenBy := w'.givenBy[req.id := req.service]), Ok(answer))
  }

  /** What the service answered, kept. */
  function KeptAs(w: World, req: Request, s: SignedUp, f: Faults, lex: Lexer): (World, Result<PendingSignUp, Failed>) {
    Kept(w, req, s.key, Answer(req, s, lex), f)
  }

  /** The answer of an earlier sign-up whose key was kept, or of a new one. */
  function SignedUpFor(w: World, req: Request, f: Faults, lex: Lexer): (World, Result<PendingSignUp, Failed>)
    requires Acceptable(req, lex)
  {
    if req.service.AgentMail? && req.id in w.pending && f.keyReadAgain then (w, Err(Keychain))
    else if req.service.AgentMail? && req.id in w.pending && req.id in w.keys then (w, Ok(w.pending[req.id]))
    else
      match Asked(w, req, f, lex)
      case (w', Ok(s)) => KeptAs(w', req, s, f, lex)
      case (w', Err(e)) => (w', Err(e))
  }

  function Or<T>(a: Option<T>, b: Option<T>): Option<T> {
    if a.Some? then a else b
  }

  function Recorded(w: World, req: Request, p: PendingSignUp, lex: Lexer): Record {
    var known := ReadService(w, req.id, lex);
    var record := if known.Some? then known.value else Record(req.service, None, None, DomainOf(p.address, lex));
    record.(humanEmail := Or(Or(p.plan.email, record.humanEmail), HumanEmail(req, lex)), plan := Some(p.plan))
  }

  /** The last steps, safe to repeat. */
  function Finish(w: World, id: string, agent: Agent, f: Faults, lex: Lexer): (World, Result<(), Failed>) {
    var s := agent.serviceAccount;
    if s !in w.records && (ReadService(w, s, lex).None? || f.rewrite) then (w, Err(Storage))
    else
      var w1 := if s in w.records then w else w.(records := w.records[s := ReadService(w, s, lex).value]);
      if f.store then (w1, Err(Storage))
      else
        var w2 := w1.(stores := w1.stores[id := agent.address]);
        if f.index then (w2, Err(Storage))
        else (w2.(index := w2.index[id := agent.address]), Ok(()))
  }

  function Cleared(w: World, id: string, f: Faults): World {
    if f.removal then w else w.(pending := w.pending - {id})
  }

  function Finished(w: World, id: string, agent: Agent, f: Faults, lex: Lexer): (World, Result<Created, Failed>) {
    match Finish(w, id, agent, f, lex)
    case (w', Ok(_)) => (Cleared(w', id, f), Ok(Created(id, agent.address)))
    case (w', Err(e)) => (w', Err(e))
  }

  function NewAgent(req: Request, p: PendingSignUp, lex: Lexer): Agent {
    Agent(req.service, p.address, TidyName(req, lex), p.address, req.id, p.inboxId)
  }

  function Registered(w: World, req: Request, p: PendingSignUp, f: Faults, lex: Lexer)
    : (World, Result<Created, Failed>)
  {
    if f.recordWrite then (w, Err(Storage))
    else
      var w1 := w.(records := w.records[req.id := Recorded(w, req, p, lex)]);
      if f.agentWrite then (w1, Err(Storage))
      else
        var agent := NewAgent(req, p, lex);
        Finished(w1.(agents := w1.agents[req.id := agent]), req.id, agent, f, lex)
  }

  function Create(w: World, req: Request, f: Faults, lex: Lexer): (World, Result<Created, Failed>) {
    if !Acceptable(req, lex) then (w, Err(Invalid))
    else if req.service.AgentMail? && req.id in w.agents then Finished(w, req.id, w.agents[req.id], f, lex)
    else
      var refused := if req.service.AgentMail? then Refusal(w, HumanEmail(req, lex).value, req.id, f, lex) else None;
      if refused.Some? then (w, Err(refused.value))
      else
        match SignedUpFor(w, req, f, lex)
        case (w', Ok(p)) => Registered(w', req, p, f, lex)
        case (w', Err(e)) => (w', Err(e))
  }

  // ---- The same, written step by step ----

  class Mac {
    const lex: Lexer
    var pending: map<string, PendingSignUp>
    var keys: map<string, Key>
    var givenBy: map<string, Service>
    var records: map<string, Record>
    var agents: map<string, Agent>
    var stores: map<string, string>
    var index: map<string, string>
    var agentMail: Remote
    var primitive: Remote
    var signUps: seq<SignUp>

    function View(): World
      reads this
    {
      World(pending, keys, givenBy, records, agents, stores, index, agentMail, primitive, signUps)
    }

    constructor (w: World, lex: Lexer)
      ensures View() == w && this.lex == lex
    {
      this.lex := lex;
      pending, keys, givenBy, records, agents := w.pending, w.keys, w.givenBy, w.records, w.agents;
      stores, index, agentMail, primitive, signUps := w.stores, w.index, w.agentMail, w.primitive, w.signUps;
    }

    method CreateAgentMailbox(req: Request, f: Faults) returns (r: Result<Created, Failed>)
      modifies this
      ensures (View(), r) == Create(old(View()), req, f, lex)
    {
      if !Acceptable(req, lex) {
        return Err(Invalid);
      }
      if req.service.AgentMail? {
        if req.id in agents {
          r := FinishAndClear(req.id, agents[req.id], f);
          return;
        }
        var refused := Refusal(View(), HumanEmail(req, lex).value, req.id, f, lex);
        if refused.Some? {
          return Err(refused.value);
        }
      }
      var signedUp := ResumeOrSignUp(req, f);
      if signedUp.Err? {
        return Err(signedUp.error);
      }
      var p := signedUp.value;
      if f.recordWrite {
        return Err(Storage);
      }
      records := records[req.id := Recorded(View(), req, p, lex)];
      if f.agentWrite {
        return Err(Storage);
      }
      var agent := NewAgent(req, p, lex);
      agents := agents[req.id := agent];
      r := FinishAndClear(req.id, agent, f);
    }

    method ResumeOrSignUp(req: Request, f: Faults) returns (r: Result<PendingSignUp, Failed>)
      requires Acceptable(req, lex)
      modifies this
      ensures (View(), r) == SignedUpFor(old(View()), req, f, lex)
    {
      if req.service.AgentMail? && req.id in pending {
        if f.keyReadAgain {
          return Err(Keychain);
        }
        if req.id in keys {
          return Ok(pending[req.id]);
        }
      }
      var asked := AskService(req, f);
      if asked.Err? {
        return Err(asked.error);
      }
      var answer := Answer(req, asked.value, lex);
      if req.service.AgentMail? {
        if !f.pendingWrite.Whole? {
          if f.pendingWrite.Torn? {
            pending := pending - {req.id};
          }
          return Err(Storage);
        }
        pending := pending[req.id := answer];
      }
      if f.keyWrite {
        return Err(Keychain);
      }
      keys := keys[req.id := asked.value.key];
      givenBy := givenBy[req.id := req.service];
      r := Ok(answer);
    }

    method AskService(req: Request, f: Faults) returns (r: Result<SignedUp, Failed>)
      requires Acceptable(req, lex)
      modifies this`agentMail, this`primitive, this`signUps
      ensures (View(), r) == Asked(old(View()), req, f, lex)
    {
      if f.signUp.Unreached? {
        return Err(Network);
      }
      if req.service.AgentMail? {
        var email := HumanEmail(req, lex).value;
        var (remote, answer) := AskAgentMail(agentMail, TidyName(req, lex), req.id, email, lex);
        agentMail := remote;
        signUps := signUps + [SignUp(req.id, email)];
        r := answer;
      } else {
        var (remote, answer) := AskPrimitive(primitive, TidyName(req, lex), req.id, lex);
        primitive := remote;
        r := answer;
      }
      if f.signUp.AnswerLost? {
        r := Err(Network);
      }
    }

    method FinishAndClear(id: string, agent: Agent, f: Faults) returns (r: Result<Created, Failed>)
      modifies this
      ensures (View(), r) == Finished(old(View()), id, agent, f, lex)
    {
      var s := agent.serviceAccount;
      if s !in records {
        var record := ReadService(View(), s, lex);
        if record.None? || f.rewrite {
          return Err(Storage);
        }
        records := records[s := record.value];
      }
      if f.store {
        return Err(Storage);
      }
      stores := stores[id := agent.address];
      if f.index {
        return Err(Storage);
      }
      index := index[id := agent.address];
      if !f.removal {
        pending := pending - {id};
      }
      r := Ok(Created(id, agent.address));
    }
  }
}
