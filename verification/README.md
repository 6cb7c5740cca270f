# A verified model of Kaluta's agent core

Kaluta lets AI agents read and write a user's mail. This project models the parts of its Rust core where several
steps, several writers or several runs have to agree, and proves what they promise.

| files | what they model |
|---|---|
| `EditDistance`, `Matching`, `DistanceTriangle`, `MatchingLaws`, `MatchingStable`, `MatchingGuesses` | which sent message an AI draft became, and how much the user edited it |
| `Mailbox`, `MailboxLaws`, `MailboxAccounts`, `MailboxKeys`, `MailboxLimits`, `MailboxAnswers`, `MailboxSteps` | creating an agent's mailbox: a remote sign-up and seven local writes, any of which may fail, and any number of retries |
| `Wire`, `Socket`, `SocketLaws`, `SocketAnswers`, `SocketBytes` | the framed socket between the app and an agent's MCP shim, with concurrent calls, over frames and over bytes |
| `Json`, `Events`, `Stream`, `StreamLines`, `Session`, `SessionTurns`, `SessionCalls`, `Transcript` | a Claude session: one process and one reading task a turn, its output lines, and the event log shown |
| `Routing`, `RoutingRule`, `AgentAddress`, `AddressAnswers` | several agents on one Primitive account: whose mail is whose, and changing an agent's address |
| `Compare`, `CompareItems`, `CompareQuotes`, `Proposals`, `ProposalMerges`, `ProposalRuns`, `ProposalDecisions` | reading an agent's comparison of drafts with sent mail, whatever JSON it is, gathering proposals from it, and what the user does with them |
| `CodexConfig`, `CodexLines`, `Names`, `Shell` | putting an agent's server into Codex's config file, and the shell command to paste instead |
| `Version`, `FindCode`, `Prelude`, `Text`, `TextLaws` | agent versions, verification codes, and shared helpers |

Objects the source updates in place are classes here (`Pipe`, `ShimClient`, `Connection`, `StreamParser`,
`ClaudeSession`, `Mac`, `Accounts`, `Store`, `Queue`), and loops are loops. Each method is proved equal to a function of the
state before it; the laws are lemmas about those functions, over every input, every interleaving or every run. Among them
are laws that say what an operation answers and leaves by its inputs and its history alone: `MatchingGuesses`,
`MailboxAnswers`, `MailboxSteps`, `SocketAnswers`, `StreamLines`, `SessionTurns`, `SessionCalls`, `RoutingRule`, `AddressAnswers`,
`CompareItems`, `CompareQuotes`, `ProposalMerges`, `ProposalDecisions`, `CodexLines` and `TextLaws`.

## How the model stands to the code

- Unicode's white space, alphanumerics and lower-casing come in as a `Lexer`. Lemmas that need a property of it say so
  (lower-casing leaves no upper-case ASCII letter, angle brackets or certain letters are not white space).
- `f64` is `real`. The overlap gate compares a ratio of two word counts with 0.15; the ratio differs from 0.15 by at
  least one part in twenty times its denominator unless it equals it, so rounding does not change the outcome.
- `i64`, `u64` and `u32` are unbounded where they are ids, times and counts. Widths are written out where they matter:
  frame lengths, JSON numbers and version parts.
- Library calls are parameters: the codec of a frame, the TOML reader, how arguments are shortened for display, the
  text of a message that is readable now.
- A step of `Socket` or `Session` is what one task does between two points where another may run. `Socket` sends whole
  frames. `SocketBytes` has the two streams as bytes, the writer's lock, and writes of any number of moves that may stop
  anywhere; every run of it does what some run over frames does. Of how a request becomes text it takes what JSON gives:
  a value that fits a frame reads back, only UTF-8 without zero bytes reads as a request, and nothing that stops before a
  request's closing brace does, with up to three bytes before it.
- In `Mailbox` each attempt comes with the steps that fail in it, so a crash is an attempt whose next step fails.
  Attempts at creating mailboxes do not overlap in time. The service is the fake of the repository's own tests: an
  organisation per email as it lower-cases it, a new key for every further sign-up. Its keys are a datatype, so a key
  given anew is never taken for one first given to another id. `givenBy` and `signUps` record what happened; nothing
  reads them.
- In `ProposalRuns` a proposal is known by its key, which the store keeps unique and never deletes; any recorded change
  may be undone or redone at any time.

## Where the code differs from what is said of it

- `read_frame` (`crates/agent-mcp/src/wire.rs:101-107`) is documented to answer `None` at a clean end of stream. It
  answers `None` also when the stream ends inside a length. `ReadAnyPrefix` states the stop exactly.
- `set_agent_address` (`crates/kaluta-core/src/agent_mailbox.rs:994-998`) compares addresses exactly, while routing
  compares them without a `+tag`. Moving an agent to another's address with a tag is accepted, and then two agents keep
  that mail: `TagSlipsThrough`. `MoveKeepsDisjointExactly` gives the exact condition, and `CallsKeepOneKeeper` shows
  that the check is enough among addresses as routing compares them.
- `ShimClient::call` (`crates/agent-mcp/src/client.rs:144-162`) is described as failing calls rather than hanging the agent
  when the app goes away. A caller that drops a call in the middle of its write leaves part of a frame on the stream, and
  then no frame behind it is read as a request, whatever bytes come: `UnfinishedIsNotRead`. No call whose frame was not out
  whole by then is answered: `DroppedMidWrite`. None is answered with another's outcome either: `BytesReturnTheirOwn`.
  Whether the MCP library drops calls is not part of this model.
- `match_records` depends on the order of its records exactly when two of them name one readable, unused message by
  their own Message-IDs: `OrderMattersExactlyOnClash`. Records with distinct Message-IDs never do.
- The word edit count is a metric; `distance`, the count over the longer length, is not. Its triangle law holds for all
  texts of given word counts exactly if the text between has no more words than the longer of the others, or at least as
  many as both together: `TriangleExactly`. For every count in between `FractionIsNoMetric` makes texts that break it.
- A stored AgentMail key that works goes on working through an attempt exactly if the attempt does not end it
  (`LiveExactly`), and through any number of them exactly if none does (`LiveExactlyOverRuns`): with a key to each
  organisation, exactly if no attempt asks AgentMail for the same email as the service lower-cases it and none stores
  Primitive's key over it (`LiveExactlyUnlessItsEmail`). `refuse_second_sign_up`
  (`crates/kaluta-core/src/agent_mailbox.rs:680-721`) does not prevent each such attempt:
  - two request ids that sign up for one email before either has its agent on this Mac: `TwoIdsForOneEmail`;
  - an email with a capital letter beyond ASCII: the service lower-cases it (`:1261`), the Mac compares without ASCII case
    only (`:697`), so the same email under another id is not refused: `CaseBeyondAscii`;
  - one id that asks for one email, loses the answer and goes on with another, which the app's sheet allows
    (`macos/Kaluta/Features/Accounts/AgentMailbox.swift:304-305`): the agent's key is then both organisations', its record
    names the first email only, and a second id asking for the other ends the key: `OneIdTwoEmails`. Two organisations
    come to have one key in exactly this way: `SharesExactly`;
  - one id used with both services, which the sheet also allows (`AgentMailbox.swift:318-345`): a Primitive creation with
    an AgentMail agent's id is not refused, stores Primitive's key and makes the agent Primitive's while its record still
    says AgentMail: `PrimitiveTakesOver`. No other attempt changes an agent's key or the agent: `StoredKeyStaysExactly`,
    `AgentStaysExactly`.

  Attempts that ask with one email an id, in a case the Mac and the service agree on, and with Primitive under other ids,
  never end the key of an agent here: `KeyOfAnAgentStaysLive`.
- An email that has a service account with an agent here is not signed up again as long as that stays so
  (`NotTakenNotSignedUp`), and it stays so exactly if no attempt takes the account from the agent
  (`AccountStaysExactly`, `AccountStaysExactlyOverRuns`). Two kinds of attempt do: a Primitive creation with the agent's
  id, if that is not its service account's and its own record is not of the email; and an AgentMail creation with the
  service account's id, which has no agent, that goes on with a kept answer of another email. `AddedAgentTakenOver` has an
  input of the first kind and `FinishedForAnother` one of the second, and after either the email is signed up again under
  a new id.
- `coalesce` keeps a delta with no text that joins no other (`AnEmptyDeltaIsKept`). A merged list is the canonical one for
  what it shows exactly if it has no such delta left: `CanonicalExactly`. The stream parser makes no empty delta.
- `merge_compare` is described as counting each pair once against each entry
  (`crates/kaluta-core/src/analysis_compare.rs:398-403`). Over several answers that is so exactly if no pair goes against
  the entry in two of them: `CountedOnceExactly`. A batch is merged in one transaction and recorded as done in another
  (`crates/kaluta-core/src/analysis_run.rs:448-464`), so stopping between them has the batch asked about and merged again.
  The same answer merged twice counts each of its pairs twice: `MergedTwiceCountsTwice`.
- An entry's removal is shown, or was decided, after a merge that goes against the entry exactly if three pairs are behind
  the open edits, rescopes and removals of it, or a change proposed it already: `GoneAgainstIsProposedExactly`. Pairs in
  which additions contradict it are counted and do not lead to a proposal: `ContradictedIsNotProposed`.
- A proposal is described as showing with the pairs it needs (`crates/kaluta-core/src/analysis_compare.rs:22-24`).
  Leaving a pair out takes it from a shown proposal and hides that only when no pair is left
  (`crates/mail-store/src/analysis.rs:549-568`), so it can stay shown with one: `ShownWithOne`. `RunKeepsInvExactly` says
  which runs keep what shows with its pairs, and `EveryRunSupports` what holds over all of them.
- `restore_pair` is described as the undo of `drop_pair` (`crates/mail-store/src/analysis.rs:570-587`). It puts every pair back,
  and it shows each watched proposal with the pair that has been shown some time before, also one that was watched when the
  pair was left out. Undone at once, leaving a pair out changes nothing exactly if there is none such:
  `UndoneIgnoringExactly`.
- A rejected proposal is described as not proposed again (`crates/kaluta-core/src/analysis_queue.rs:399-402`). Merging never
  raises it, but undoing its rejection does, and accepting it as edited does not look at its status
  (`crates/kaluta-core/src/analysis_queue.rs:491-511`): `RunKeepsDecisionExactly`, `UndoneIsOpenAgain`.

## Model

| member | source | states |
|---|---|---|
| `EditDistance.NextRow` | crates/kaluta-core/src/analysis_match.rs:76-82 | the inner loop turns the row of prefix distances for one prefix of the draft into the row for one word more |
| `EditDistance.Count` | crates/kaluta-core/src/analysis_match.rs:69-85 | the two rolling rows end at the recursive Levenshtein distance of the whole word sequences |
| `EditDistance.CountIsCheapest` | crates/kaluta-core/src/analysis_match.rs:69-85 | the count is the length of some edit script from one text's words to the other's, and no script is shorter |
| `EditDistance.NoCheaperScript` | crates/kaluta-core/src/analysis_match.rs:69-85 | every run of insertions, deletions and replacements is at least as long as the count |
| `EditDistance.LevZero` | crates/kaluta-core/src/analysis_match.rs:69-85 | no edits exactly between equal word sequences |
| `EditDistance.LevSymmetric` | crates/kaluta-core/src/analysis_match.rs:69-85 | as many edits one way as the other |
| `EditDistance.LevTriangle` | crates/kaluta-core/src/analysis_match.rs:69-85 | the triangle law of the edit count |
| `EditDistance.LevBounds` | crates/kaluta-core/src/analysis_match.rs:69-85 | between the difference of the lengths and the longer length |
| `Matching.Distance` | crates/kaluta-core/src/analysis_match.rs:69-85 | `distance` is that count over the longer length, 0 for two empty texts |
| `Matching.DistanceLaws` | crates/kaluta-core/src/analysis_match.rs:61-85 | it lies in 0..1, and distance 0 forces overlap 1, so an unedited draft passes the overlap gate |
| `TextLaws.WordsOneByOne` | crates/kaluta-core/src/analysis_match.rs:52-58 | the words of a text, one by one: its pieces between white space in lower case, without punctuation around them, if anything is left |
| `TextLaws.NoWords` | crates/kaluta-core/src/analysis_match.rs:52-58 | white space alone has none |
| `DistanceTriangle.TriangleExactly` | crates/kaluta-core/src/analysis_match.rs:67-85 | the triangle law of `distance` for all texts of given word counts: if and only if the middle text has no more words than the longer of the others, or at least as many as both together |
| `DistanceTriangle.FractionIsNoMetric` | crates/kaluta-core/src/analysis_match.rs:67-85 | for every number of words between those there are texts of so many words that break the law |
| `DistanceTriangle.EndsCost` | crates/kaluta-core/src/analysis_match.rs:67-85 | a lower bound of the edit count, whatever the alignment: what comes before the common words of one text and after those of the other counts in full, or every word does |
| `Matching.FirstCloseEnough` | crates/kaluta-core/src/analysis_match.rs:160-181 | the candidate loop finds the first one unused, readable and close enough |
| `Matching.MatchExactly` | crates/kaluta-core/src/analysis_match.rs:98-125 | the exact phase, as a loop over its three collections, is the pass of the specification |
| `Matching.MatchRecords` | crates/kaluta-core/src/analysis_match.rs:91-187 | both phases of the matching, as loops, give the outcomes of the specification |
| `MatchingLaws.ResultsSound` | crates/kaluta-core/src/analysis_match.rs:91-187 | no message is assigned twice or taken from those used before |
| `MatchingLaws.NewestFirstSorts` | crates/kaluta-core/src/analysis_match.rs:127-128 | the guess phase's order is a permutation with no draft before a newer one |
| `MatchingLaws.AtMostOneOutcomeEach` | crates/kaluta-core/src/analysis_match.rs:91-187 | no more outcomes than records |
| `MatchingLaws.MatchCompositions` | crates/kaluta-core/src/analysis_match.rs:200-234 | matched, unmatched and waiting always add up to the records, and the subtraction never goes below zero |
| `MatchingLaws.PassIsFixedPoint` | crates/kaluta-core/src/analysis_match.rs:91-187 | a second pass over what is left, with the new matches used up, yields nothing |
| `MatchingStable.NoBlockingPair` | crates/kaluta-core/src/analysis_match.rs:98-187 | in what the loops return, clash or no clash: a close enough candidate a draft was not given was in use before, went to a draft that names it or to a newer one, unless the draft got one at least as good |
| `MatchingStable.StableHasNoBlockingPair` | crates/kaluta-core/src/analysis_match.rs:129-184 | the same of every matching that meets the order-free description |
| `MatchingStable.OneOutcomeEach` | crates/kaluta-core/src/analysis_match.rs:91-187 | with distinct record ids each record gets at most one outcome |
| `MatchingStable.StableIsUnique` | crates/kaluta-core/src/analysis_match.rs:91-187 | the order-free description of a matching has at most one solution |
| `MatchingStable.ResultsAreStable` | crates/kaluta-core/src/analysis_match.rs:91-187 | without a clash the loops' outcomes are that solution |
| `MatchingStable.OrderDoesNotMatter` | crates/kaluta-core/src/analysis_match.rs:91-187 | the same drafts in any order get the same outcomes, if no two clash |
| `MatchingStable.DistinctMessageIdsDoNotClash` | crates/kaluta-core/src/analysis_match.rs:103-125 | drafts with distinct Message-IDs, and sent messages with distinct ids, do not clash |
| `MatchingStable.OrderMattersExactlyOnClash` | crates/kaluta-core/src/analysis_match.rs:91-187 | every order gives the same outcomes if and only if no two drafts clash |
| `MatchingGuesses.OutcomesAreRight` | crates/kaluta-core/src/analysis_match.rs:91-187 | each outcome returned is a waiting draft's: the latest listed message with its own Message-ID; or, of a draft that names none, is not open and not reported, the first message of its thread sent after it (a reply or forward), or the first sent after it to one of its people, to before cc (a new mail or forward), sharing three words in twenty; with the text read and its word distance; or that it has waited more than 14 days |
| `MatchingGuesses.NextIsGiven` | crates/kaluta-core/src/analysis_match.rs:129-184 | and the converse: such a message, readable and sharing enough, is the draft's, or the next in its thread is, unless it was used before or goes to a draft that names it or to one made later |
| `MatchingGuesses.NamedIsGiven` | crates/kaluta-core/src/analysis_match.rs:98-125 | a readable unused message goes to the first draft listed that names it |
| `MatchingGuesses.UnmatchedExactly` | crates/kaluta-core/src/analysis_match.rs:181-184 | a draft is given up if and only if it has waited more than 14 days and no message is found for it |
| `Mailbox.Mac.CreateAgentMailbox` | crates/kaluta-core/src/agent_mailbox.rs:775-904 | one attempt, step by step over file, Keychain, record, agent, store and index, leaves and answers what the specification says |
| `Mailbox.Mac.ResumeOrSignUp` | crates/kaluta-core/src/agent_mailbox.rs:829-859 | an attempt whose key and answer are kept goes on with them, another asks the service and keeps answer and then key |
| `Mailbox.Mac.AskService` | crates/kaluta-core/src/agent_mailbox.rs:1251-1313 | the sign-up of the fake service: an AgentMail organisation per email with a rotating key, Primitive idempotent by request id |
| `Mailbox.Mac.FinishAndClear` | crates/kaluta-core/src/agent_mailbox.rs:726-745 | the last steps add a missing record, write store and index, and clear the kept answer |
| `MailboxLaws.CreateKeepsInv` | crates/kaluta-core/src/agent_mailbox.rs:775-904 | wherever an attempt with either service stops: `agent.json` implies its key and a record, written or read from an agent made before there were records, a record implies its key, and a key AgentMail gave implies a kept answer or `agent.json` |
| `MailboxLaws.CreateKeepsKeys` | crates/kaluta-core/src/agent_mailbox.rs:843-897 | on its own, whatever AgentMail keys there are: an agent has its key and a record or what can be read as one, and a record its key |
| `MailboxLaws.CreateKeepsRecords` | crates/kaluta-core/src/agent_mailbox.rs:864-897 | if every agent's record is written, every attempt leaves it so |
| `MailboxLaws.StoredKeyStaysExactly` | crates/kaluta-core/src/agent_mailbox.rs:843-857 | a stored key is replaced if and only if a Primitive attempt with its id gets as far as its key and that is another |
| `MailboxLaws.AgentStaysExactly` | crates/kaluta-core/src/agent_mailbox.rs:885-897 | an AgentMail agent stays as it is if and only if no Primitive attempt with its id gets as far as its agent |
| `MailboxLaws.SignsUpOnlyFirst` | crates/kaluta-core/src/agent_mailbox.rs:688-721 | an attempt asks AgentMail for at most one sign-up, its own, and only with no key, no agent and no account of that email here |
| `MailboxLaws.NeverSignedUpAgain` | crates/kaluta-core/src/agent_mailbox.rs:829-859 | once a request's key is stored, no later attempts, whatever fails in them, sign it up again |
| `MailboxAccounts.AccountStaysExactly` | crates/kaluta-core/src/agent_mailbox.rs:860-897 | an email's account stays the agent's through an attempt if and only if that neither makes the agent Primitive's own nor goes on with a kept answer of another email |
| `MailboxAccounts.AccountStaysExactlyOverRuns` | crates/kaluta-core/src/agent_mailbox.rs:775-904 | over any attempts, whatever fails, it is the agent's all along if and only if none of them takes it |
| `MailboxAccounts.NotTakenNotSignedUp` | crates/kaluta-core/src/agent_mailbox.rs:680-708 | and as long as none does, the email is not signed up again under any id |
| `MailboxAccounts.EmailNeverSignedUpAgain` | crates/kaluta-core/src/agent_mailbox.rs:680-708 | an email whose service account has an agent here is never signed up again under any id, as long as no Primitive attempt uses the agent's id, if that is not its service account's, and no kept answer would change the record |
| `MailboxAccounts.FirstAgentsEmailNeverSignedUpAgain` | crates/kaluta-core/src/agent_mailbox.rs:680-708 | for the agent an account was created with: whatever is attempted with either service |
| `MailboxLaws.OkIsComplete` | crates/kaluta-core/src/agent_mailbox.rs:775-904 | an attempt that answers Ok leaves key, record, agent, store and index, agreeing on the address answered |
| `MailboxAnswers.NewCreationIsAsAnswered` | crates/kaluta-core/src/agent_mailbox.rs:775-904 | with either service, a new creation that goes through answers, and leaves in agent, store and index, exactly the address the service answered, or the name's local part at the domain it answered; with its key, inbox and plan |
| `MailboxAnswers.CreatesWhatIsAnswered` | crates/kaluta-core/src/agent_mailbox.rs:207-222 | the same for whatever a service may answer, a whole address or a bare domain |
| `MailboxSteps.WritesInOrder` | crates/kaluta-core/src/agent_mailbox.rs:829-904 | wherever an attempt stops: index, store, agent, record, key and kept answer are each written only where those before it are, with what those hold, at the attempt's own id alone; a write that fails is not made, nor any after it |
| `MailboxAnswers.AnswersWith` | crates/kaluta-core/src/agent_mailbox.rs:1251-1313 | what the two services answer a name with |
| `MailboxAnswers.AcceptableIs` | crates/kaluta-core/src/agent_mailbox.rs:775-799 | which requests are taken: a tidied name of 1 to 100 characters, an id of 1 to 64 letters, digits and dashes, and for AgentMail an email with an `@` |
| `MailboxAnswers.EmailIsTrimmed` | crates/kaluta-core/src/agent_mailbox.rs:789 | a request's email is what it gives without white space around, if that is anything |
| `MailboxAnswers.RefusedExactly` | crates/kaluta-core/src/agent_mailbox.rs:680-721 | each refusal before the service is asked, if and only if it is given |
| `MailboxAnswers.FailsExactly` | crates/kaluta-core/src/agent_mailbox.rs:829-859 | a service not reached or its answer lost, the service's own refusal, and a Keychain that fails, each if and only if it is what the attempt answers |
| `MailboxAnswers.ServiceRefusesExactly` | crates/kaluta-core/src/agent_mailbox.rs:1260-1276 | AgentMail refuses if and only if the email's organisation has lost its key, or the email is new and the name's address another's; Primitive never does |
| `MailboxAnswers.ReadsWhatIsThere` | crates/kaluta-core/src/agent_mailbox/service_account.rs:72-121 | a service account's record, written or read from the agent it is named after, with the managed address's domain in lower case |
| `MailboxAnswers.SameEmailExactly` | crates/kaluta-core/src/agent_mailbox.rs:694-698 | two emails are one if and only if they are alike but for white space around them and the case of ASCII letters |
| `MailboxLaws.RetryFinishesExactly` | crates/kaluta-core/src/agent_mailbox.rs:800-859 | once a key is stored, an AgentMail retry in which nothing fails goes through if and only if the agent is here or the answer is kept and the email has no account here: with that key and address, without a sign-up |
| `MailboxLaws.RetryFinishes` | crates/kaluta-core/src/agent_mailbox.rs:762-768 | so it does after any failure past storing the key AgentMail gave |
| `MailboxKeys.SignsUpExactly` | crates/kaluta-core/src/agent_mailbox.rs:800-859 | an attempt asks for its own sign-up if it is not refused, has no agent and no answer to go by, and reaches the service, and for none otherwise |
| `MailboxKeys.LiveExactly` | crates/kaluta-core/src/agent_mailbox.rs:1260-1276 | a key that works works after an attempt if and only if the attempt neither signs up for an organisation with that key nor stores Primitive's over it |
| `MailboxKeys.LiveExactlyUnlessItsEmail` | crates/kaluta-core/src/agent_mailbox.rs:688-721 | with a key to each organisation: if and only if it does not ask AgentMail for the email as the service lower-cases it, nor stores Primitive's key |
| `MailboxKeys.SharesExactly` | crates/kaluta-core/src/agent_mailbox.rs:1277-1292 | two organisations come to share a key if and only if an id whose first key is still an organisation's asks for an email nobody has signed up for |
| `MailboxKeys.LiveExactlyOverRuns` | crates/kaluta-core/src/agent_mailbox.rs:775-904 | over any attempts with either service, whatever fails, a key that works works at the end if and only if none of them ends it |
| `MailboxKeys.KeyOfAnAgentStaysLive` | crates/kaluta-core/src/agent_mailbox.rs:680-708 | the key of an agent here stays through any attempts that ask with one email an id, in a case the Mac and the service agree on, and with Primitive under other ids than the agent's and its account's |
| `MailboxLimits.CreatedIsLive` | crates/kaluta-core/src/agent_mailbox.rs:775-904 | a creation nothing interrupts leaves a key that works and an account recorded as the email the service lower-cased |
| `MailboxLimits.TwoIdsForOneEmail` | crates/kaluta-core/src/agent_mailbox.rs:688-699 | two ids racing for one email: the first is finished with a key that no longer works |
| `MailboxLimits.CaseBeyondAscii` | crates/kaluta-core/src/agent_mailbox.rs:694-698 | an email the service lower-cases beyond ASCII, asked for again under another id: not refused, and the agent's key ends |
| `MailboxLimits.OneIdTwoEmails` | crates/kaluta-core/src/agent_mailbox.rs:1277-1302 | one id asking for two emails: its agent is made, and a second id asking for the later email ends its key |
| `MailboxLimits.PrimitiveTakesOver` | crates/kaluta-core/src/agent_mailbox.rs:843-897 | a Primitive creation with an AgentMail agent's id goes through, with Primitive's key and agent and an AgentMail record |
| `MailboxLimits.AddedAgentTakenOver` | crates/kaluta-core/src/agent_mailbox.rs:688-708 | if an agent taken over was its account's only one and added later, the email has no account here any more, and a new id is not refused and signs it up again |
| `MailboxLimits.FinishedForAnother` | crates/kaluta-core/src/agent_mailbox.rs:829-884 | an account with a kept answer of another email and only agents added to it: finishing its creation writes that email down, and a new id signs the account's email up again |
| `Wire.Pipe.WriteFrame` | crates/agent-mcp/src/wire.rs:90-99 | a frame is its big-endian length and payload, refused above the maximum, and a failed write leaves a beginning of it |
| `Wire.Pipe.ReadExact` | crates/agent-mcp/src/wire.rs:102-116 | fills a buffer byte by byte from the stream, or reports its end |
| `Wire.Pipe.ReadFrame` | crates/agent-mcp/src/wire.rs:102-116 | one frame off the stream, with each way it can stop |
| `Wire.Pipe.ReadFrames` | crates/agent-mcp/src/client.rs:125-131 | the reading loop gives the values of all frames up to the first answer that is none |
| `Wire.ReadAnyPrefix` | crates/agent-mcp/src/wire.rs:90-116 | reading any beginning of written frames gives exactly the whole ones, then stops: cleanly in a length, with an error in a body |
| `Wire.CutIsWhole` | crates/agent-mcp/src/wire.rs:102-116 | the frames counted as whole are those that fit, and the next does not |
| `Wire.FramesRoundTrip` | crates/agent-mcp/src/wire.rs:90-116 | reading what was written gives back the values, and a clean end |
| `Wire.ReadsOnlyWhatIsThere` | crates/agent-mcp/src/wire.rs:102-116 | from any bytes, the values read are those of payloads the stream begins with |
| `Wire.TooLargeExactly` | crates/agent-mcp/src/wire.rs:108-112 | a frame is refused as too large if and only if its length bytes say more than 8 MiB |
| `Wire.LengthRoundTrip` | crates/agent-mcp/src/wire.rs:96-110 | a 32-bit length survives its big-endian bytes |
| `Wire.LengthReadsBack` | crates/agent-mcp/src/wire.rs:96-110 | any four bytes are the length they read as |
| `Socket.ShimClient.Number` | crates/agent-mcp/src/client.rs:144-147 | a call takes the next id and a channel of its own |
| `Socket.ShimClient.Register` | crates/agent-mcp/src/client.rs:148-156 | a call's waiter goes into the map, or the call returns at once when the reader has ended |
| `Socket.ShimClient.Route` | crates/agent-mcp/src/client.rs:125-131 | a reply takes its waiter from the map and is sent to it, or is dropped |
| `Socket.ShimClient.EndReader` | crates/agent-mcp/src/client.rs:132-135 | the reader's end takes the map, and with it every waiter |
| `Socket.ShimClient.Wake` | crates/agent-mcp/src/client.rs:157-162 | a call returns what its channel got, or that the app is not there |
| `Socket.Connection.Accept` | crates/agent-mcp/src/server.rs:172-176 | each request read gets a task of its own |
| `Socket.Connection.Answer` | crates/agent-mcp/src/server.rs:176-190 | a task sends one reply under its request's id: the handler's outcome, or the one for a tool there is not |
| `Socket.Connection.StopReading` | crates/agent-mcp/src/server.rs:193-196 | when the shim is gone, calls under way are aborted |
| `SocketLaws.StepKeepsInv` | crates/agent-mcp/src/client.rs:113-162 | every step of either end keeps what ties requests, tasks, replies, waiters and calls together |
| `SocketLaws.CallsReturnTheirOwn` | crates/agent-mcp/src/client.rs:144-162 | in every interleaving a call returns only the outcome given for its own request, or `app_unavailable`; with the reader ended nothing can hold it |
| `SocketLaws.RunSettles` | crates/agent-mcp/src/client.rs:124-162 | each waiter is resolved at most once, each request answered at most once, and a closed connection stays closed |
| `SocketAnswers.ReturnsExactly` | crates/agent-mcp/src/client.rs:113-162 | in every interleaving, what a call returns: `app_unavailable` if its write failed or its caller dropped it; else, if its reply came while it was waiting, what the server answered; else `app_unavailable`, and then the reader has ended |
| `SocketAnswers.ServedReturns` | crates/agent-mcp/src/client.rs:144-162 | the run in which a call is served, which returns what the handler gave, or `unknown_tool` for a tool there is not |
| `SocketAnswers.LateCallIsRefused` | crates/agent-mcp/src/client.rs:148-156 | in every run, a call that comes to register after the reader's end is back with `app_unavailable` and nothing of it is sent |
| `SocketAnswers.StopsServing` | crates/agent-mcp/src/server.rs:193-196 | once the server stops reading nothing it was serving is answered, in any run |
| `SocketAnswers.StopsWriting` | crates/agent-mcp/src/server.rs:160-167 | once the writer stops no further reply is written, in any run |
| `SocketLaws.ClosedCallsReturn` | crates/agent-mcp/src/client.rs:132-162 | once the reader has ended, in every run: a call takes at most four steps of its own, has returned when it took as many as it had ahead, and until then can take the next |
| `SocketBytes.UnfinishedIsNotRead` | crates/agent-mcp/src/wire.rs:101-116 | a stream that begins with part of a frame gives no value, whatever frames and parts of frames are behind it |
| `SocketBytes.ReadsExactly` | crates/agent-mcp/src/wire.rs:90-116 | of frames and parts of frames laid end to end, a value is read if and only if the first is whole, and it is that one's |
| `SocketBytes.MoveFits` | crates/agent-mcp/src/client.rs:113-162 | every move over bytes, of part of a frame too, does to the frames under way what one step over frames does, or nothing |
| `SocketBytes.BytesRefineFrames` | crates/agent-mcp/src/server.rs:157-196 | every run over bytes leaves both ends as some run over frames does, which gives up a call or ends the reader only where the bytes do |
| `SocketBytes.BytesReturnTheirOwn` | crates/agent-mcp/src/client.rs:144-162 | so over bytes too, wherever writes stop and calls are dropped, a call returns only the outcome given for its own request, or `app_unavailable` |
| `SocketBytes.BytesReturnTheAnswer` | crates/agent-mcp/src/client.rs:144-162 | over bytes too, a call nobody gives up, on a connection whose reader goes on, returns nothing but its answer |
| `SocketBytes.UnfinishedEndsRequests` | crates/agent-mcp/src/server.rs:172-196 | once part of a frame is left on the stream, in every run only what was read or whole before it is answered |
| `SocketBytes.DroppedMidWrite` | crates/agent-mcp/src/client.rs:157-162 | in any run, after a call is dropped in the middle of its write no call whose frame was not out whole returns anything but `app_unavailable` |
| `SocketBytes.CanDropMidWrite` | crates/agent-mcp/src/client.rs:144-162 | a run in which a call is in the middle of its write |
| `Stream.StreamParser.ParseLine` | crates/agent-claude/src/stream.rs:37-47 | a line's events and the parser after it, for every JSON value and for a line that is none |
| `Stream.StreamParser.OnInit` | crates/agent-claude/src/stream.rs:49-67 | the missing-server notice is given once a turn |
| `Stream.StreamParser.OnAssistant` | crates/agent-claude/src/stream.rs:86-101 | tool calls not announced before, in order |
| `Stream.StreamParser.OnToolResults` | crates/agent-claude/src/stream.rs:103-121 | each tool result, whether it failed, and its text |
| `Stream.ResultLinesEndTurns` | crates/agent-claude/src/stream.rs:37-148 | a line ends the turn exactly when it is a `result`, with exactly one event, and no line speaks of starts and ends of sessions |
| `Stream.ToolCallsStartOnce` | crates/agent-claude/src/stream.rs:86-101 | over a whole turn each tool call is announced at most once |
| `StreamLines.ResultSays` | crates/agent-claude/src/stream.rs:123-148 | a `result` line fails the turn, with the message shown, if and only if its `is_error` is true or its `subtype` is a string other than "success", and else completes it with its usage and cost |
| `StreamLines.PiecesAreShown` | crates/agent-claude/src/stream.rs:69-84 | a piece of text or of thinking is shown as it is, and nothing else of a `stream_event` |
| `StreamLines.InitWarnsOf` | crates/agent-claude/src/stream.rs:56-66 | the first `init` line of a turn warns with the status of the first server named kaluta, unless that is "connected" or no string |
| `StreamLines.InitWarnsOfNone` | crates/agent-claude/src/stream.rs:56-66 | or that it is not there |
| `StreamLines.InitWarnsOnce` | crates/agent-claude/src/stream.rs:49-56 | no later `init` line warns |
| `StreamLines.SessionIdSays` | crates/agent-claude/src/stream.rs:49-52 | the session id is the last one an `init` or `result` line names |
| `StreamLines.AssistantAnnounces` | crates/agent-claude/src/stream.rs:86-101 | an assistant's message announces exactly its calls with ids not known before, once each and in order, by id, own name and arguments |
| `StreamLines.UserReports` | crates/agent-claude/src/stream.rs:103-121 | a user's message reports exactly its tool results, in order, whether each failed and its texts joined |
| `StreamLines.OthersSayNothing` | crates/agent-claude/src/stream.rs:37-47 | any other line, or one that is not JSON, says nothing and changes nothing |
| `Session.ClaudeSession.SendTurn` | crates/agent-claude/src/session.rs:126-170 | refused while a turn is running, given back when the process cannot start, else a turn with a task of its own |
| `Session.ClaudeSession.TaskReadsLine` | crates/agent-claude/src/session.rs:171-187 | a line's events go to the sink, then a session id that is news |
| `Session.ClaudeSession.ProcessExits` | crates/agent-claude/src/session.rs:195-206 | a turn without a `result` line fails with one event |
| `Session.ClaudeSession.CancelTurn` | crates/agent-claude/src/session.rs:215-233 | lets go of the turn and changes nothing else |
| `Session.StepKeepsInv` | crates/agent-claude/src/session.rs:117-243 | every step of a caller or a task keeps the tie between the running flag, the tasks and the log |
| `Session.EveryTurnEnds` | crates/agent-claude/src/session.rs:117-233 | in every run, between one `TurnStarted` and the next are exactly max(1, `result` lines read) terminal events, and in the last turn too once the session is free; all that is said after a `TurnStarted` and before any next one is that turn's own |
| `Session.AtMostOneTask` | crates/agent-claude/src/session.rs:126-209 | at most one task is alive, and exactly while the session is busy |
| `SessionTurns.EveryTurnSaysItsLines` | crates/agent-claude/src/session.rs:171-206 | in every run, what a turn's task says, session ids apart, is what the lines it read say one after the other, and one failure more exactly if none was a `result` |
| `SessionTurns.TurnEndsAsItsLines` | crates/agent-claude/src/session.rs:171-206 | so a turn's terminal events are, one by one, those its `result` lines call for; one success line alone completes it |
| `SessionTurns.SessionIdIsNamed` | crates/agent-claude/src/session.rs:179-186 | in every run the session's id is the last one said, one is said only when it is news, and a line that names one makes it the session's |
| `SessionCalls.CancelsTheLatest` | crates/agent-claude/src/session.rs:163-233 | after a cancel or close the turn a further cancel is for is the one started last since, or none |
| `SessionCalls.ExitFailsExactly` | crates/agent-claude/src/session.rs:195-206 | in every run, a process's end fails its turn, with the process's message, if and only if the turn read no `result` line |
| `SessionCalls.OpensAndCloses` | crates/agent-claude/src/session.rs:29-243 | over any run a session first says which session it takes up, says it ended once a close, and of itself only its turns' starts besides |
| `Transcript.Coalesce` | crates/agent-api/src/lib.rs:222-234 | the loop that extends the last delta gives the merged list of the specification |
| `Transcript.MergedShowsTheSame` | crates/agent-api/src/lib.rs:220-234 | every non-delta event stays in its place and every character said or thought between |
| `Transcript.MergedIsNormal` | crates/agent-api/src/lib.rs:222-234 | no two deltas of one kind are left side by side |
| `Transcript.NormalStays` | crates/agent-api/src/lib.rs:222-234 | merging a merged list changes nothing |
| `Transcript.BatchingNeverShows` | crates/agent-api/src/lib.rs:222-234 | merging batches and then the whole gives what merging the whole gives |
| `Transcript.MergedIsCanonical` | crates/agent-api/src/lib.rs:222-234 | two lists that merge to ones without empty deltas merge to one list if and only if they show the same |
| `Transcript.CanonicalExactly` | crates/agent-api/src/lib.rs:222-234 | a merged list is the canonical one for what it shows if and only if it has no empty delta |
| `Routing.KeepsByTheRule` | crates/kaluta-core/src/agent_mailbox.rs:343-365 | with the routing computed from disk an agent keeps mail to its own addresses, and mail to nobody's exactly if it is the oldest |
| `RoutingRule.KeepsExactly` | crates/kaluta-core/src/agent_mailbox.rs:343-365 | an agent as it is on disk, whatever it was when its sync started, keeps mail carrying its address or the one the service gave it, and mail to nobody's if and only if no agent of the account was created before it, nor at its time with an id before its own |
| `RoutingRule.GoneKeepsExactly` | crates/kaluta-core/src/agent_mailbox.rs:343-365 | the sync of an agent that is gone keeps mail to the addresses it had, and any other if and only if no agent of the account is left |
| `Routing.SomebodyKeeps` | crates/provider-primitive/src/routing.rs:58-72 | no mail of an account with agents is lost |
| `Routing.OneKeeperExactlyWhenDisjoint` | crates/provider-primitive/src/routing.rs:58-72 | each address belongs to exactly one agent if and only if no two agents' addresses compare equal |
| `Routing.KeptTwiceIsAddressedToBoth` | crates/provider-primitive/src/routing.rs:58-72 | mail that two agents keep is addressed to both |
| `Routing.RemovalLeavesTheRest` | crates/kaluta-core/src/agent_mailbox.rs:348-365 | removing an agent does not move mail addressed to an agent that stays |
| `Routing.RemovalHandsOn` | crates/kaluta-core/src/agent_mailbox.rs:348-365 | all other mail is then kept by the oldest that is left, and by no other |
| `Routing.RemovalKeepsTheOldest` | crates/kaluta-core/src/agent_mailbox.rs:348-365 | removing any agent but the oldest leaves the catch-all where it was |
| `Routing.GoneKeepsOnlyItsOwn` | crates/kaluta-core/src/agent_mailbox.rs:343-365 | a sync still running for a removed agent keeps only mail to its own addresses |
| `Routing.CaseAndBracketsDoNotMatter` | crates/provider-primitive/src/routing.rs:91-101 | addresses compare without case and without angle brackets |
| `RoutingRule.AroundIsDropped` | crates/provider-primitive/src/routing.rs:91-101 | what comparing drops around an address: white space, angle brackets and white space in them, and nothing of the address |
| `AgentAddress.TagIsDropped` | crates/provider-primitive/src/routing.rs:91-101 | addresses compare without a `+tag` on the local part |
| `AgentAddress.Accounts.SetAddress` | crates/kaluta-core/src/agent_mailbox.rs:985-1031 | every refusal and failure of a change of address, and the agents it leaves |
| `AgentAddress.MovedOrAsBefore` | crates/kaluta-core/src/agent_mailbox.rs:985-1031 | the agents are as before or the one is moved, a refusal changes nothing, and success moves it |
| `AddressAnswers.AnswersExactly` | crates/kaluta-core/src/agent_mailbox.rs:985-1031 | each answer if and only if it is given: an address that is not well formed, another agent's, or at a domain not verified is invalid unless it is the agent's first; domains that cannot be read; a failed provider; success |
| `AddressAnswers.MovesExactly` | crates/kaluta-core/src/agent_mailbox.rs:985-1031 | the agent moves if and only if it may and is written, unless it is moved back, and nobody else changes |
| `AddressAnswers.NoAddress` | crates/kaluta-core/src/agent_mailbox.rs:986-989 | what has no `@` is invalid and changes nothing |
| `AddressAnswers.NoSuchAgent` | crates/kaluta-core/src/agent_mailbox.rs:990-993 | an agent that is not there |
| `AgentAddress.MovedBack` | crates/kaluta-core/src/agent_mailbox.rs:1018-1031 | writing the previous `agent.json` after a failed provider undoes the change |
| `AgentAddress.MoveKeepsDisjointExactly` | crates/kaluta-core/src/agent_mailbox.rs:994-998 | a move keeps the account's addresses apart if and only if no other agent of it has the new one as routing compares addresses |
| `AgentAddress.PlainChecksEnough` | crates/kaluta-core/src/agent_mailbox.rs:994-998 | among addresses as compared, the check made is that condition |
| `AgentAddress.CallsKeepOneKeeper` | crates/kaluta-core/src/agent_mailbox.rs:985-1031 | over any calls with such addresses, whatever fails, every address stays one agent's |
| `AgentAddress.TagSlipsThrough` | crates/kaluta-core/src/agent_mailbox.rs:994-998 | another's address with a `+tag` is accepted, and two agents then share it |
| `Compare.ReadEvidence` | crates/kaluta-core/src/analysis_compare.rs:228-247 | the evidence loop with its set of pairs seen keeps the first item that holds for each pair |
| `Compare.Parse` | crates/kaluta-core/src/analysis_compare.rs:215-317 | the loop over an answer gives the changes of the specification, each of them sound, for every JSON value |
| `Compare.ChangesAreSound` | crates/kaluta-core/src/analysis_compare.rs:201-317 | each change has evidence, one item a pair, of pairs of the batch, with every quote in the text it cites; its entry is accepted and no fact; an edit or rescope really differs from it and changes nothing else |
| `Compare.EvidenceIsComplete` | crates/kaluta-core/src/analysis_compare.rs:228-247 | a pair is evidence if and only if some item about it holds |
| `Compare.CheckedExactly` | crates/kaluta-core/src/analysis_compare.rs:201-247 | an item is evidence if and only if its pair is in the batch, it gives a quote and every quote it gives is in the text it cites, and then with those quotes |
| `TextLaws.LooseKeepsWords` | crates/kaluta-core/src/guide_ai.rs:54-57 | texts are compared by their pieces in lower case with single spaces between |
| `TextLaws.CleanKeepsWords` | crates/kaluta-core/src/guide.rs:407-409 | a tidied text has the same pieces, with single spaces between and none around |
| `Compare.KeptExactlyIfItAlters` | crates/kaluta-core/src/analysis_compare.rs:255-314 | a change to an accepted entry is kept if and only if it really alters it |
| `CompareItems.AdditionKeptExactly` | crates/kaluta-core/src/analysis_compare.rs:256-271 | an item that adds, or has no op, is kept if and only if it has evidence, a category of the guide's that is no content rule, and a statement: with that category and statement, the kind and scope asked for, and against the accepted entry it names |
| `CompareItems.AlterationKeptExactly` | crates/kaluta-core/src/analysis_compare.rs:272-314 | an item that edits, rescopes or removes an accepted entry is kept if and only if it has evidence and would change something, as just that change |
| `CompareItems.OthersAreDropped` | crates/kaluta-core/src/analysis_compare.rs:249-255 | any other item is dropped |
| `CompareItems.ItemByItem` | crates/kaluta-core/src/analysis_compare.rs:226-316 | items are read one by one, in order |
| `CompareItems.EvidenceIsFirst` | crates/kaluta-core/src/analysis_compare.rs:228-247 | an item's evidence is, in order, the first that holds about each pair |
| `CompareItems.CategoriesAre` | crates/kaluta-core/src/guide.rs:43-141 | the categories are the numbered ones of the eight groups |
| `CompareQuotes.EvidenceExactly` | crates/kaluta-core/src/analysis_compare.rs:201-247 | an item about a pair of the batch is evidence, with its quotes tidied and cut to 300 characters, if and only if it gives one and each it gives occurs, case and white space apart, in the text it cites as shown |
| `CompareQuotes.OthersAreNoEvidence` | crates/kaluta-core/src/analysis_compare.rs:228-231 | an item about no pair of the batch is none |
| `Compare.GivenIsNotBlank` | crates/kaluta-core/src/analysis_compare.rs:201-239 | trimming and collapsing white space agree on which quotes are empty |
| `Proposals.KeyTextSeparates` | crates/kaluta-core/src/analysis_compare.rs:77-87 | two changes have one key text if and only if they are the same proposal |
| `Proposals.Store.UpsertProposal` | crates/mail-store/src/analysis.rs:335-395 | a proposal is added or grown by pairs, shown at its threshold, and left alone once decided |
| `Proposals.Store.Merge` | crates/kaluta-core/src/analysis_compare.rs:404-457 | the three loops of a merge leave the proposals and the counts of the specification |
| `Proposals.MergeKeeps` | crates/kaluta-core/src/analysis_compare.rs:398-457 | from any store, a merge takes no proposal and no pair away, raises no decided one again, hides none, and shows none anew without its pairs |
| `ProposalMerges.MergeGathers` | crates/kaluta-core/src/analysis_compare.rs:404-457 | what a merge leaves of each proposal: a decided one as it was; any other with the pairs it had and those given it, shown exactly if it was or once two of them, three for a rule, are behind it; the removal of an entry gone against in three pairs with all of those, shown |
| `ProposalMerges.CountsPairs` | crates/kaluta-core/src/analysis_compare.rs:420-431 | each entry is counted once more for each pair in which a change is to it or contradicts it |
| `ProposalMerges.KindsAre` | crates/kaluta-core/src/analysis_compare.rs:411-414 | of two entries with one id the later gives the kind |
| `ProposalRuns.Queue.IgnorePair` | crates/mail-store/src/analysis.rs:546-568 | a pair is taken out of every open proposal, one with nothing left is watched again, and what was removed is recorded |
| `ProposalRuns.Queue.Decide` | crates/kaluta-core/src/guide.rs:706-721 | the open ones of these proposals are accepted or rejected, recorded as before and after |
| `ProposalRuns.Queue.Replay` | crates/kaluta-core/src/guide.rs:652-684 | undo and redo put decided proposals back as recorded, and a pair back or out again |
| `ProposalDecisions.DecidedAsAsked` | crates/kaluta-core/src/guide.rs:706-721 | those of the named proposals that are open are accepted, or rejected, as asked, and the one accepted as edited; pairs and all others stay |
| `ProposalDecisions.IgnoredGoes` | crates/mail-store/src/analysis.rs:546-568 | a pair left out goes from every open proposal, and one with no other pair is watched again; nothing else changes |
| `ProposalDecisions.UndoPutsBack` | crates/kaluta-core/src/guide.rs:652-684 | whatever happened since a decision, undoing it puts what it decided back as it was, redoing it makes it what the decision made it, and neither touches the rest |
| `ProposalDecisions.UndoneIgnoringExactly` | crates/mail-store/src/analysis.rs:570-587 | undone at once, leaving a pair out changes nothing, if and only if no watched proposal with the pair had been shown before, and no shown one with no other pair had not |
| `ProposalDecisions.RedoneIgnoring` | crates/mail-store/src/analysis.rs:546-587 | redone after that, it has the pair out again everywhere; whether a proposal then shows differs exactly as stated |
| `ProposalRuns.StepKeepsInvExactly` | crates/mail-store/src/analysis.rs:546-587 | a step leaves what shows with its pairs if and only if it does not leave a shown proposal too few, show one again with too few, or put back one recorded so |
| `ProposalRuns.RunKeepsInvExactly` | crates/mail-store/src/analysis.rs:546-587 | over any run of merges, decisions, pairs left out, undo and redo: all along if and only if no step does |
| `ProposalRuns.WithoutIgnoringAllIsBacked` | crates/mail-store/src/analysis.rs:335-395 | as long as no pair is left out, what shows has its pairs whatever else is done |
| `ProposalRuns.EveryRunSupports` | crates/mail-store/src/analysis.rs:546-587 | over every run, a proposal shown has a pair behind it |
| `ProposalRuns.StepKeepsDecisionExactly` | crates/kaluta-core/src/guide.rs:692-731 | a decided proposal keeps its decision in a step if and only if that does not accept a rejected one as edited or put back another status |
| `ProposalRuns.RunKeepsDecisionExactly` | crates/kaluta-core/src/analysis_queue.rs:399-402 | over any run: all along if and only if no step reverses it |
| `ProposalRuns.ShownWithOne` | crates/mail-store/src/analysis.rs:563-565 | a proposal shown with two pairs, one of them left out, stays shown with one |
| `ProposalRuns.UndoneIsOpenAgain` | crates/mail-store/src/analysis.rs:495-531 | undoing a rejection opens the proposal again |
| `Proposals.GoneAgainstIsProposedExactly` | crates/kaluta-core/src/analysis_compare.rs:435-452 | the removal of an entry the answer goes against is shown or decided after the merge if and only if three pairs are behind the open changes to it, or the changes themselves had proposed it |
| `Proposals.ContradictedIsNotProposed` | crates/kaluta-core/src/analysis_compare.rs:411-452 | an addition that contradicts an entry in any number of pairs: each is counted against it, and its removal is not proposed |
| `Proposals.AgainstAreEntries` | crates/kaluta-core/src/analysis_compare.rs:411-434 | whatever the agent answers, every entry gone against is one of the guide's |
| `Proposals.Store.MergeAnswers` | crates/kaluta-core/src/analysis_run.rs:448-466 | a run's answers merged one after the other count as the specification says |
| `Proposals.CountedOnceExactly` | crates/kaluta-core/src/analysis_compare.rs:398-434 | over any answers an entry is counted at least once for each pair against it, and exactly once for each if and only if no pair is against it in two of them |
| `Proposals.MergedTwiceCountsTwice` | crates/kaluta-core/src/analysis_run.rs:448-464 | one answer merged twice counts every pair twice, so exactly once only if it has none |
| `CodexConfig.Update` | crates/kaluta-core/src/agent_connect.rs:186-237 | the edited text, or the error for a file or a result that does not read as it must |
| `CodexConfig.KeptText` | crates/kaluta-core/src/agent_connect.rs:200-212 | the line loop with its skipping flag keeps the lines whose last header above is none of ours |
| `CodexConfig.EditKeepsTheRest` | crates/kaluta-core/src/agent_connect.rs:194-220 | every line in no table of ours stays, in order and unchanged, up to blank lines at the end, then a blank line and the entry |
| `CodexLines.EditExactly` | crates/kaluta-core/src/agent_connect.rs:194-220 | by the lines before and the names alone: every line whose last table header above is not of our name or the old one, bare or quoted, stays in order and unchanged, but for blank ones at the end; then a blank line, if any stayed, and the entry |
| `CodexLines.LineByLine` | crates/kaluta-core/src/agent_connect.rs:200 | a line ends at its line feed and loses one carriage return before it |
| `CodexLines.LastLine` | crates/kaluta-core/src/agent_connect.rs:200 | what comes after the last line feed is a line, if there is anything |
| `CodexConfig.EditTwiceIsOnce` | crates/kaluta-core/src/agent_connect.rs:194-220 | editing the result again changes nothing, also with only our own name looked for |
| `CodexConfig.OneHeader` | crates/kaluta-core/src/agent_connect.rs:194-220 | exactly one line of the result opens a table of ours: the entry's first |
| `CodexConfig.OnlyOurNamesAreOurs` | crates/kaluta-core/src/agent_connect.rs:194-208 | a table or sub-table line is dropped if and only if its server's name is ours or the old one, bare or quoted |
| `CodexConfig.TableIsEntry` | crates/kaluta-core/src/agent_connect.rs:143-149 | the table written is one table, opened by a header of ours |
| `CodexConfig.LinesOfTable` | crates/kaluta-core/src/agent_connect.rs:143-149 | the four lines of the table written |
| `CodexConfig.ConnectTwiceIsOnce` | crates/kaluta-core/src/agent_connect.rs:143-220 | connecting under a name twice writes what connecting once did |
| `CodexConfig.ConnectMailboxTwiceIsOnce` | crates/kaluta-core/src/agent_connect.rs:59-220 | connecting a mailbox twice, under the names made from its address, writes what connecting it once did, whether or not the old entry was there |
| `Names.LocalPartIsLocal` | crates/kaluta-core/src/agent_mailbox.rs:209-215 | a local part has only lower-case letters, digits and single dashes inside |
| `TextLaws.LocalPartHasTheRuns` | crates/kaluta-core/src/agent_mailbox.rs:207-215 | it has the name's runs of letters and digits between its dashes, and is `agent` for a name with none |
| `TextLaws.NamedAfterLocalPart` | crates/kaluta-core/src/agent_connect.rs:58-68 | a server is named after what comes before the first `@` of its mailbox's address |
| `Shell.ShellWordReads` | crates/kaluta-core/src/agent_connect.rs:71-77 | a shell reads a quoted word back, whatever the word and whatever follows it |
| `Shell.CodexPasteReads` | crates/kaluta-core/src/agent_connect.rs:123 | the Codex command to paste splits into exactly its eight words |
| `Shell.ClaudePasteReads` | crates/kaluta-core/src/agent_connect.rs:111-115 | the Claude Code command into exactly its ten |
| `Version.VersionRoundTrip` | crates/agent-api/src/process.rs:122-134 | a printed version of 64-bit parts reads back, also inside text without digits or dots at its edges |
| `Version.WordByWord` | crates/agent-api/src/process.rs:122-130 | the first run of digits and dots that reads as a version is the text's |
| `Version.NoVersion` | crates/agent-api/src/process.rs:122-130 | a text without digits and dots has none |
| `Version.WordExactly` | crates/agent-api/src/process.rs:124-130 | a run reads as one if and only if its first two parts are numerals of 64 bits, and the third is 0 unless it is one too |
| `Version.OnePartIsNone` | crates/agent-api/src/process.rs:124-130 | a run without a dot is none |
| `Version.TooLargeParts` | crates/agent-api/src/process.rs:124-130 | a part beyond 64 bits is refused, or read as 0 when it is the third |
| `FindCode.FindCode` | crates/kaluta-core/src/agent_mailbox.rs:368-387 | the leftmost six digits on their own, or nothing exactly when there are none |

## Left out

- Text and store of the mail, SQLite, HTTP, IMAP, the Keychain and the file system: maps and parameters stand for what the modelled code asks of them.
- Codex sessions: they can report two failures for one turn when the server closes while it starts.
- The JSON edit of Claude Code's config file: one entry set and one removed in a map.
- Finding the JSON object in an agent's answer, and the prompts: a library call and text.
- The hello exchange of the socket and its permission checks, and opening and closing sessions from outside the app.
- Session.ClaudeSession.SendTurn: the short wait for a process that has answered but not exited is not modelled; it only delays the call.
- Session.ClaudeSession.CancelTurn: the signal and the kill after three seconds are not modelled; what the process still says, or that it stops, are steps of its task.
- Socket.ShimClient.Number: ids do not wrap around at 64 bits.
- Mailbox.Mac.CreateAgentMailbox: the plan's sending limits, timestamps and the list of verifications under way are not part of the state.
- Mailbox.Mac.AskService: verifying an email, which changes a plan at the service, is not modelled, so a Primitive account's plan is as first made.
- MailboxKeys.KeyOfAnAgentStaysLive: one way, of attempts as its row describes; `LiveExactlyOverRuns` is the statement for all attempts.
- MailboxAccounts.EmailNeverSignedUpAgain: one way, of attempts as its row describes; `AccountStaysExactlyOverRuns` is the statement for all attempts.
- AgentAddress.Accounts.SetAddress: the store, the index and the restart of sync after the write are one step that may fail.
- Routing.KeepsByTheRule: reading addresses out of a message's headers is not modelled; the addresses are given.
- CodexConfig.EditKeepsTheRest: texts in which a line ends in a carriage return of its own are excluded; TOML does not allow them.
- CodexConfig.TableIsEntry: a path or address that TOML writes over several lines is excluded.
- Shell.ShellWordReads: the splitter knows blanks, single quotes and backslashes and refuses every other special character outside quotes; it does not model assignments before a command.
- ProposalRuns.Queue.Decide: the guide's own entries, and which proposals are passed over because their entry has gone, are not modelled.
- Proposals.Store.UpsertProposal: the quotes kept with a pair, the first contradiction noted and the times are not part of the state.
- Matching.MatchRecords: the sort by creation time and id is a stable insertion sort.
