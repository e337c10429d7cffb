# Verified model of the agent network SDK and reference seed

This project models, in Dafny, how agents of the network sign, negotiate, execute and find
each other's work, and proves what those parts are for.

* **Canonical JSON, signatures and transport** (`Text`, `Utf8`, `Json`, `JsonText`,
  `CanonicalText`, `Transport`, `Rounding`, `Crypto`). Every hash and signature is taken over
  canonical JSON, and signed objects travel through protobuf Structs, which turn ints into
  doubles and lose key order. The printer is inverted by a parser, so the bytes determine the
  value up to key order; a hop gives a value back exactly when its numbers are safe.
* **Two-party negotiation** (`Records`, `Negotiation`, `NegotiationProofs`,
  `ContractFields`, `Terms`, `Session`, `Agreement`).
  The executor builds and signs a contract, the requester rebuilds and countersigns it, and
  the executor checks it on delivery; `Session.Negotiate` runs all of it over a network of
  hops and ends admitted exactly when the verification is readable, in a contract that names
  the two parties and says what the caller asked for.
* **Idempotent execution** (`Idempotency`, `Server`, `ServerAnswers`). A message handler over
  a TTL store with two keys and tasks that are shared, mutable objects; at-most-once and
  replay provenance hold over every run.
* **Seed directory and leases** (`Seed`, `SeedProofs`, `SeedAnswers`, `Lease`). Join, renew,
  leave and discover, composed with the client's renew timer.
* **Verification quorum and version constraints** (`Python`, `Quorum`, `Verifiers`, `Verdicts`,
  `QuorumAnswers`, `Versions`, `VersionMeanings`, `VersionJoins`). Verifications and receipts
  are JSON values, whatever they hold.
* **Identity files, key provider, artifacts** (`Identities`, `Base64`, `Artifact`).

Code that updates state in the source is a class here (`IdempotencyStore`, `A2AServer`,
`Handlers`, `AgentNetwork`, `IdentityFiles`, `InMemoryKeyProvider`), each method proved
equal to a transition function or relation; the theorems are about those and their runs.

How foreign parts enter:

* SHA-256 and Ed25519 are ideal. A hash text carries the hashed bytes, a signature text the
  signed bytes and the signer's public key, so equal texts mean equal bytes.
* Doubles are exact (integral, odd numerator over a power of two, negative zero, infinite,
  NaN). `float.__repr__` is a `FloatFormat`, assumed to round-trip and never to look like an
  int; that such a format exists is proved.
* Clock readings, new ids and keys, handler outcomes, network answers and `str()` of values
  that are not strings are inputs. Several readings in one call are separate, ordered inputs.

Where the code and its documentation differ, the model follows the code:

* The contract's status is signed. Setting it to SIGNED while countersigning is harmless only
  because it already was SIGNED (`CountersigningPreservesIff`).
* `agent-network-spec/docs/canonical-json.md:24-25` names fewer derived hashes than the code
  omits; the model has the code's list.

Findings, each with a lemma that shows the failing input and one that gives the exact condition:

* A row that `IdempotencyStore.get` reloads after a restart has no expiry in memory, so it is
  served after its deadline (`ReloadedKeyOutlivesItsTtl`, `GetRefines`).
* `policy_hash` raises on policies that `validate_verification` accepts, such as a count of
  "many" under REQUESTER_SELECTS; then no contract is offered (`AcceptedButUnreadable`,
  `ManyPassesNeverSettle`). The condition is `HashDefinedIff`, and it survives every hop
  (`HopReadable`).
* Message keys of different senders can be equal (`MessageKeyCollision`), exactly when the
  text can be split at another `:` (`KeySharedIff`), and an idempotency key can be another
  sender's message key (`KeyReplaysForeignMessage`, `LikeMessageKeyIff`).
* A comma need not intersect when the second text, or a first one that is a list, ends in
  `.x`: `1.x,2.x` accepts 1.5.0 and `>=1.2,2.x` raises
  (`JoinedWildcardsAreNotIntersected`, `RangeThenWildcardRaises`, `ListThenRangeDiffers`). `JoinedAlwaysIff` has the condition on the texts.
* Policies with entries other than strings and ints: canonicalising is not idempotent for a
  count that reads as 0 (`CountTextZero`, `CanonicalIdempotentIff`); a number next to its own
  text counts as two names and one verifier, so an accepted quorum can be out of reach
  (`TwiceNamedIsUnreachable`, `ValidatedIsReachable`); defaulting appends a number again and
  again (`NumberIsAppendedAgain`, `DefaultingIsStableIff`), and authorizes the number 1 next
  to a listed 1.0 (`DefaultingAddsSpelling`, `DefaultingKeepsAuthorizedIff`); verifiers that
  are dicts decide by their key order under one hash (`KeyOrderSplitsVerdict`,
  `HashFixesDecisionIff`), and dicts read as lists change the hash with it
  (`DictAcceptanceLosesHash`, `SameVerificationSameHashIff`).
* The constraint `any` matches every version, but with a space before it only 0.0.0
  (`PaddedAnyIsAVersion`, `SpacesIgnored`).
* The renew timer lets leases of up to 30 and of 3000 or more seconds lapse
  (`LapsesOutsideRange`, `TimerFitsExactly`).
* An identity whose recovery file cannot supply its private key, next to an operational file
  that is not combined, gets a new recovery key on every load (`StrippedRecoveryNeverSettles`, `OneLoadSettlesIff`).

## Model

| member | source | states |
|---|---|---|
| JsonText.CanonicalForm | agent-network-sdk-python/src/agent_network/crypto.py:30-37 | Two well-formed values without NaN or infinity have the same canonical bytes if and only if they are equal up to key order. |
| JsonText.CanonicalRoundTrip | agent-network-sdk-python/src/agent_network/crypto.py:30-37 | The canonical bytes are UTF-8, and a parser for the grammar of RFC 8259, but for whitespace and surrogate escapes, reads them back as the value with every object sorted. |
| JsonText.EmitParses | agent-network-sdk-python/src/agent_network/crypto.py:30-37 | The parser inverts the printer on every value, followed by any text that can follow a value: literals, ints, floats, escaped strings, nested arrays and objects. |
| CanonicalText.PlainTextPrints | agent-network-sdk-python/src/agent_network/crypto.py:33 | A string without quotes, backslashes and control characters stands in the bytes as itself between quotes, in UTF-8, whatever other characters it holds. |
| CanonicalText.StringIsShortest | agent-network-sdk-python/src/agent_network/crypto.py:30-37 | No text that reads as a string is shorter than the printed one, so the two-character escapes are used wherever there is one, and nothing is escaped that need not be. |
| CanonicalText.EscapesAreLowerCase | agent-network-sdk-python/src/agent_network/crypto.py:30-37 | Escapes are written with lower-case letters. |
| Text.LessMeans | agent-network-sdk-python/src/agent_network/crypto.py:34 | The order of keys: a text comes before another exactly when, at the first difference, its code point is smaller or it has ended. |
| JsonText.SameGivesSameBytes | agent-network-spec/docs/canonical-json.md:14-22 | Key order alone never changes the result, also when the result is the refusal of NaN. |
| JsonText.SameFiniteNumbers | agent-network-sdk-python/src/agent_network/crypto.py:36 | Whether `allow_nan=False` refuses a value does not depend on key order. |
| JsonText.FaithfulFormatExists | agent-network-sdk-python/src/agent_network/crypto.py:30-37 | A float format that round-trips every finite double and never reads as an int exists, so the theorems about faithful formats are not empty. |
| Json.SortKeysDecidesSame | agent-network-sdk-python/src/agent_network/crypto.py:34 | Equality up to key order is equality after recursive sorting by code point. |
| Json.SortMembersKeeps | agent-network-sdk-python/src/agent_network/crypto.py:34 | Sorting an object keeps its members as a multiset. |
| Json.SortMembersAscending | agent-network-sdk-python/src/agent_network/crypto.py:34 | Distinct keys come out strictly ascending in code-point order. |
| Utf8.RoundTrip | agent-network-sdk-python/src/agent_network/crypto.py:37 | Decoding the UTF-8 bytes of any string gives the string back. |
| Crypto.VerifyMeansSigned | agent-network-sdk-python/src/agent_network/crypto.py:99-106 | A signature over one object verifies on another exactly when it is checked under the signer's key and the objects agree, up to key order, outside the omitted fields. |
| Crypto.HashMeansSame | agent-network-sdk-python/src/agent_network/crypto.py:168-169 | Two objects have the same `object_hash` exactly when they agree, up to key order, outside the omitted fields. |
| Crypto.UnsignedPayloadMembers | agent-network-sdk-python/src/agent_network/crypto.py:40-41 | `unsigned_payload` keeps exactly the members whose keys are neither signature nor derived-hash fields, and keeps keys distinct. |
| ContractFields.OmittedNames | agent-network-sdk-python/src/agent_network/crypto.py:17-27 | Every omitted key holds the word `signature` or `hash`. |
| Crypto.PutOmittedKeepsPayload | agent-network-spec/docs/canonical-json.md:24-25 | Writing a signature or derived hash into an object, in place or at the end, leaves the signed payload unchanged. |
| Crypto.UnsignedRespectsSame | agent-network-sdk-python/src/agent_network/crypto.py:40-41 | Objects equal up to key order have unsigned payloads equal up to key order. |
| Crypto.TextsAreTagged | agent-network-sdk-python/src/agent_network/crypto.py:48-76 | Hash texts start with `sha256:` and signature texts with `ed25519:`. |
| Crypto.SignatureTextInjective | agent-network-sdk-python/src/agent_network/crypto.py:85-96 | Equal ideal signature texts carry equal keys and equal signed bytes. |
| Transport.HopDelivers | agent-network-sdk-python/src/agent_network/a2a_official.py:56-64 | One hop (ints to nearest doubles, keys in any order, `restore_json_numbers`) delivers the value up to key order if and only if it has no int of magnitude 2^53 or more and no integral float below 2^53. |
| Transport.RestoreUndoesStruct | agent-network-sdk-python/src/agent_network/a2a_official.py:56-64 | The same equivalence for conversion and restoration without reordering. |
| Transport.HopCleans | agent-network-sdk-python/src/agent_network/a2a_official.py:56-64 | Whatever was sent, what arrives is well formed, finite and number-safe, so a second hop delivers it unchanged. |
| Transport.CanonicalBytesSurvive | agent-network-sdk-python/src/agent_network/a2a_official.py:56-64 | Canonical bytes before and after a hop are equal exactly when the numbers are safe. |
| Crypto.SignaturesSurviveHop | agent-network-sdk-python/src/agent_network/a2a_official.py:56-64 | After a hop the `object_hash` is unchanged, and the sender's own signature verifies, exactly when the signed part is number-safe; then `verify_object` answers the same for every key and signature. |
| Crypto.HopOfUnsigned | agent-network-sdk-python/src/agent_network/a2a_official.py:56-64 | A hop commutes with dropping the omitted fields. |
| Transport.ToDoubleIsNearest | agent-network-sdk-python/src/agent_network/a2a_official.py:57 | The double that stands for an int in a Struct is a binary64 value, and none is nearer. |
| Transport.RoundsToDouble | agent-network-sdk-python/src/agent_network/a2a_official.py:57 | Rounding to 53 significant bits, with the carry into the next exponent, always yields a binary64 value. |
| Transport.ExactBelow53 | agent-network-sdk-python/src/agent_network/a2a_official.py:58 | Ints below 2^53 in magnitude are doubles themselves. |
| Rounding.TiesToEven | agent-network-sdk-python/src/agent_network/a2a_official.py:57 | Halfway between two doubles an int becomes the one with an even significand. |
| Rounding.OverflowsFrom | agent-network-sdk-python/src/agent_network/a2a_official.py:57 | An int cannot stand in a Struct exactly from 2^1024 - 2^970 in magnitude on. |
| Records.ContractRebuilt | agent-network-sdk-python/src/agent_network/models.py:142-146 | `from_dict` of any dict equal, up to key order, to a contract's `to_dict` gives a contract with an equal dict. |
| Records.ProposalRebuilt | agent-network-sdk-python/src/agent_network/proposal.py:69-82 | The same for a proposal, for every key that the dict has. |
| Records.ContractOmits | agent-network-sdk-python/src/agent_network/crypto.py:17-27 | Both signatures and the contract hash are outside what a contract's signatures cover. |
| Records.ProposalOmits | agent-network-sdk-python/src/agent_network/crypto.py:17-27 | The signature is outside what a proposal's signature covers. |
| ContractFields.ContractSigns | agent-network-sdk-python/src/agent_network/crypto.py:40-41 | All 26 fields of a contract but the two signatures and the contract hash stand in what is signed, with their values. |
| ContractFields.SamePayloadIff | agent-network-sdk-python/src/agent_network/crypto.py:40-41 | What is signed of two contracts is the same, up to key order, if and only if each of the 23 fields is. |
| ContractFields.OneHashIff | agent-network-sdk-python/src/agent_network/crypto.py:168-169 | Two contracts without NaN have one `object_hash` if and only if each of the 23 fields agrees up to key order. |
| ContractFields.OneProposalHash | agent-network-sdk-python/src/agent_network/crypto.py:168-169 | Two proposals with one hash agree in each of their twelve signed fields. |
| ContractFields.ContractNames | agent-network-sdk-python/src/agent_network/models.py:80-109 | Under which name each of the 26 fields of a contract is found in its dict. |
| ContractFields.ProposalNames | agent-network-sdk-python/src/agent_network/proposal.py:12-29 | The same for the thirteen fields of a proposal. |
| ContractFields.ContractDefaults | agent-network-sdk-python/src/agent_network/models.py:142-146 | `from_dict` succeeds exactly when nine fields are there; the values that the others get when they are not. |
| Negotiation.Propose | agent-network-sdk-python/src/agent_network/client.py:41-74 | The proposal sent carries the requester's signature and says what the caller asked for, field by field: requester, target, capability, objective, the two lists, the policy, side effects and idempotency key; a required policy is a valid one; it fails only when validation, a list conversion or canonical JSON does. |
| Negotiation.SignProposal | agent-network-sdk-python/src/agent_network/client.py:74 | Signing succeeds exactly when the proposal has canonical bytes, and the signature covers the signed proposal itself. |
| Negotiation.RequesterPolicy | agent-network-sdk-python/src/agent_network/client.py:41-43 | The proposed verification is the caller's, entry by entry, but for a required one without a policy, which gets REQUESTER_SELECTS, and an empty one, which is replaced by one that is not required. |
| Negotiation.CreatedAsAsked | agent-network-sdk-python/src/agent_network/proposal.py:41-66 | A proposal can be created exactly when both lists are lists and a required policy is valid; then it says what was asked for. |
| Negotiation.BareRequestRead | agent-network-sdk-python/src/agent_network/a2a_server.py:264-275 | What the executor reads from a request without a proposal id: each field of the proposal from its entry, the sender or the executor itself. |
| Negotiation.PayloadEntries | agent-network-sdk-python/src/agent_network/proposal.py:69-82 | A request with a proposal id is taken entry by entry; a capability that is text becomes a reference, and what is missing gets its default. |
| Negotiation.CapabilityIs | agent-network-sdk-python/src/agent_network/a2a_server.py:257-259 | Which capability a request is for: a text, the id of a reference, or else the entry `capability_id`. |
| Negotiation.CreateContract | agent-network-sdk-python/src/agent_network/models.py:111-140 | `TaskContract.create`: its fields, and that it raises exactly when a list or dict conversion or the policy hash does. |
| Negotiation.HandlePropose | agent-network-sdk-python/src/agent_network/a2a_server.py:245-310 | When the executor accepts bare, refuses, rejects or offers; an offer is a contract built field by field from the proposal and signed and hashed over itself; of the delivered requests that are not rejected exactly the buildable ones get one, and a policy that cannot be hashed is not buildable. |
| Negotiation.BuildOffer | agent-network-sdk-python/src/agent_network/a2a_server.py:282-303 | The offered contract: every field, the proposal hash, the policy hash, the executor's signature over the finished contract and its own hash; it exists exactly for delivered proposals whose shapes fit and whose policy is readable. |
| Negotiation.SignOffer | agent-network-sdk-python/src/agent_network/a2a_server.py:302-303 | Signature and hash are taken over the contract that ends up carrying them. |
| Negotiation.Countersign | agent-network-sdk-python/src/agent_network/client.py:89-116 | When the requester returns, counters, countersigns or fails; a counter is the proposal read from the answer, signed; a countersigned contract is the rebuilt one, which carried an executor signature, with signature, status and hash replaced. |
| Negotiation.SignContract | agent-network-sdk-python/src/agent_network/client.py:114-116 | The requester's signature covers the contract as it arrived, the hash the contract as it leaves. |
| NegotiationProofs.NegotiationCompletes | agent-network-sdk-python/src/agent_network/client.py:110-116 | End to end over two hops: the executor's delivery check admits the countersigned contract, both parties hold the same contract hash, and both signatures cover the final contract, whatever numbers the request held. |
| NegotiationProofs.OfferIsCountersignable | agent-network-sdk-python/src/agent_network/client.py:110-113 | The answer, after any hop, holds a contract that the requester can rebuild and countersign, equal to the executor's up to key order. |
| NegotiationProofs.ContractTravels | agent-network-sdk-python/src/agent_network/client.py:113 | A contract with delivered numbers survives hop and `from_dict` up to key order. |
| NegotiationProofs.GateAdmitsWhatWasSigned | agent-network-sdk-python/src/agent_network/a2a_server.py:170-193 | With the executor's signature over a contract, the delivery check admits a presented contract exactly when the two agree, up to key order, outside signatures and derived hashes; otherwise it reports a mismatch. |
| ContractFields.GateMeans | agent-network-sdk-python/src/agent_network/a2a_server.py:170-193 | The delivery check on every value: none is admitted; a dict counts as unsigned exactly when one of the two signatures is missing, is admitted exactly when both are there and the executor's verifies, and is a mismatch exactly when it does not; other values raise. |
| ContractFields.OfferAloneIsUnsigned | agent-network-sdk-python/src/agent_network/a2a_server.py:170-178 | An offer that nobody has countersigned is not admitted. |
| ContractFields.AdmittedAgrees | agent-network-sdk-python/src/agent_network/a2a_server.py:170-193 | A contract presented with the executor's signature over another is admitted if and only if it has a requester's signature and agrees with it, up to key order, in each of the 23 signed fields. |
| NegotiationProofs.CountersigningPreservesIff | agent-network-sdk-python/src/agent_network/client.py:114-116 | Countersigning leaves the executor's signature valid if and only if the contract arrived with status SIGNED. |
| NegotiationProofs.ProposalHashAgrees | agent-network-sdk-python/src/agent_network/a2a_server.py:294 | The `proposal_hash` in the contract equals the requester's own hash of its proposal if and only if the signed part of the proposal is number-safe. |
| NegotiationProofs.HopOfMember | agent-network-sdk-python/src/agent_network/a2a_official.py:56-64 | A hop of a dict is a hop of each of its values. |
| NegotiationProofs.RawEntries | agent-network-sdk-python/src/agent_network/a2a_server.py:253-256 | The proposal in the metadata overrides the data part, key by key. |
| Session.Negotiate | agent-network-sdk-python/src/agent_network/client.py:41-136 | The whole negotiation over any network whose deliveries are hops, from the caller's arguments on: it settles if and only if the caller's verification is readable; then the executor's check admits, both hold one contract hash, both signatures cover the final contract, it names the two parties and their keys, the capability, the objective and the side effects that the caller gave, its lists, policy and metadata are hops of the caller's, and the executor's proposal hash is the requester's exactly when the signed part of the proposal is number-safe. |
| Session.SendProposal | agent-network-sdk-python/src/agent_network/client.py:62-74 | Whenever the proposal can be created, it is signed, can be sent, whatever its numbers, and says field by field what the caller asked for. |
| Terms.ProposalIsReadAsSent | agent-network-sdk-python/src/agent_network/a2a_server.py:253-275 | The executor reads each of the twelve fields of a delivered proposal as a hop of the one sent. |
| Session.ProposalIsRecognised | agent-network-sdk-python/src/agent_network/a2a_server.py:245-281 | A proposal sent by the requester's code and delivered by two hops is read and recognised by the executor's code, its shapes fit, and its verification is readable exactly when the one sent was. |
| Session.HopReadable | agent-network-sdk-python/src/agent_network/verification_policy.py:69-81 | A hop makes no policy readable or unreadable. |
| Session.ManyPassesNeverSettle | agent-network-sdk-python/src/agent_network/verification_policy.py:63-66 | The failing input: with `required_passes` "many" under REQUESTER_SELECTS validation accepts, the proposal is created, and the negotiation does not settle. |
| Session.AnswerProposal | agent-network-sdk-python/src/agent_network/a2a_server.py:245-310 | The executor answers a recognised request with an offered contract, whose values a further hop delivers unchanged, if and only if its verification is readable. |
| Session.Settle | agent-network-sdk-python/src/agent_network/client.py:89-136 | From an offered contract on, countersigning always succeeds, the delivered contract is always admitted, and it agrees with the offer in each of the 23 signed fields. |
| Session.HopAbsent | agent-network-sdk-python/src/agent_network/a2a_official.py:56-64 | A hop adds no keys. |
| Session.DeliveryIsRead | agent-network-sdk-python/src/agent_network/client.py:117-136 | What the server finds in the metadata of a delivered message: capability, sender and idempotency key as sent, no other sender or message id, and hops of contract, proposal and task id. |
| Session.PlainNetworkCarries | agent-network-sdk-python/src/agent_network/a2a_official.py:56-64 | A network that keeps key order and only converts numbers is one of those covered. |
| Agreement.SignContractFromProposal | agent-network-sdk-python/src/agent_network/proposal.py:85-116 | Which proposals can be signed directly (validated if required, readable policy, fitting shapes; exactly those when the numbers are clean), every field of the contract, and both parties' signatures and the hash over the finished contract. |
| Agreement.SignBoth | agent-network-sdk-python/src/agent_network/proposal.py:113-116 | Two signatures over one payload: the second and the hash do not disturb the first. |
| Agreement.SignedDeliveryAdmittedIff | agent-network-sdk-python/src/agent_network/a2a_server.py:170-193 | A contract signed by both parties and sent over a hop is admitted exactly when what was signed is number-safe. |
| Agreement.BothBuildersStoreOwnHash | agent-network-sdk-python/src/agent_network/proposal.py:112 | A contract built on either path stores the policy hash of its own verification, also when the proposal had none. |
| Agreement.SameVerificationSameHashIff | agent-network-sdk-python/src/agent_network/verification_policy.py:69-87 | Verifications equal up to key order have the same policy hash if and only if no dict that is read as a list of verifiers or acceptance terms changes its key order. |
| Agreement.OwnHashTravelsIff | agent-network-sdk-python/src/agent_network/client.py:113 | The contract rebuilt on the other side stores its own hash under the same condition. |
| Agreement.DictAcceptanceLosesHash | agent-network-sdk-python/src/agent_network/verification_policy.py:79 | The failing input: an acceptance dict with two keys in the other order has another hash. |
| Agreement.StoredHashFixesDecision | agent-network-sdk-python/src/agent_network/verification_policy.py:143-165 | Any verification with the stored hash decides every quorum as the contract's verification does if and only if they are not required, or authorize the same verifiers, or neither authorizes as many as it asks for; without a dict of two keys among them they do authorize the same. |
| Idempotency.IdempotencyStore.constructor | agent-network-sdk-python/src/agent_network/idempotency.py:13-24 | A new store has empty memory and, with a path, the table as it is on disk. |
| Idempotency.IdempotencyStore.Purge | agent-network-sdk-python/src/agent_network/idempotency.py:32-41 | Drops exactly the expired keys from memory and table, by a loop over the expired keys. |
| Idempotency.IdempotencyStore.Get | agent-network-sdk-python/src/agent_network/idempotency.py:43-55 | State and answer of a read: purge, memory, then the table, whose rows are reloaded without an expiry. |
| Idempotency.IdempotencyStore.Put | agent-network-sdk-python/src/agent_network/idempotency.py:57-66 | Value and deadline under the key in memory and table; nothing else changes. |
| Idempotency.IdempotencyStore.Run | agent-network-sdk-python/src/agent_network/idempotency.py:74-80 | The function is called exactly when the key has no live value or that value is None, and then its result is stored. |
| Idempotency.GetRefines | agent-network-sdk-python/src/agent_network/idempotency.py:43-55 | A read answers like a plain map with expiry if and only if the key is not one that was reloaded and has since passed its deadline. |
| Idempotency.PutRefines | agent-network-sdk-python/src/agent_network/idempotency.py:57-66 | A put is a put in the plain map with expiry. |
| Idempotency.RestartRefines | agent-network-sdk-python/src/agent_network/idempotency.py:43-55 | A fresh instance on the same path is still that map, and its first read of any key is right. |
| Idempotency.RunRefines | agent-network-sdk-python/src/agent_network/idempotency.py:32-66 | Over every run of puts, reads and restarts the store refines the map; without restarts memory and table agree key by key. |
| Idempotency.NewStoreRefines | agent-network-sdk-python/src/agent_network/idempotency.py:13-66 | So does every run that starts with a new store, with or without a table. |
| Idempotency.AgreementKept | agent-network-sdk-python/src/agent_network/idempotency.py:32-66 | Purge, read and put each keep memory and table equal in keys, values and deadlines. |
| Idempotency.AgreeingGet | agent-network-sdk-python/src/agent_network/idempotency.py:43-55 | So a single instance always answers like the map with expiry. |
| Idempotency.ReloadedKeyOutlivesItsTtl | agent-network-sdk-python/src/agent_network/idempotency.py:54 | A concrete run in which a reloaded key is served after its TTL. |
| Server.A2AServer.constructor | agent-network-sdk-python/src/agent_network/a2a_server.py:38-56 | A new server has no tasks and an empty store without a path, and knows `task.propose`. |
| Server.A2AServer.HandleMessage | agent-network-sdk-python/src/agent_network/a2a_server.py:143-243 | One call is one transition of tasks, store and executions and keeps the safety invariant. An unknown capability, a contract dict that lacks a signature, and one that the executor's signature does not cover are answered with their error, or from the cache, and run nothing; no contract, or one with both signatures that verifies, is let through; a task that ran has the outcome's state and error. |
| Server.A2AServer.FindCached | agent-network-sdk-python/src/agent_network/a2a_server.py:161-168 | The message key is looked up before the idempotency key; the first hit wins. |
| Server.A2AServer.Remember | agent-network-sdk-python/src/agent_network/a2a_server.py:239-242 | The task is stored under each key the message has. |
| Server.A2AServer.Cancel | agent-network-sdk-python/src/agent_network/a2a_official.py:243-247 | Cancelling changes the stored task object in place, so every cached entry that is this object now replays as canceled, and no other does. |
| ServerAnswers.CallAnswers | agent-network-sdk-python/src/agent_network/a2a_server.py:158-242 | A call is replayed exactly when a live entry stands under its message key, or else under its idempotency key, and then nothing else changes; on a miss the handler runs exactly when the contract is admitted, and the call raises exactly when the check or the handler does. |
| ServerAnswers.CallStores | agent-network-sdk-python/src/agent_network/a2a_server.py:238-242 | What is stored under any key after a call: the new task, for the TTL, under both keys of a completed execution, and what was there before under all others. |
| Server.TransitionSafe | agent-network-sdk-python/src/agent_network/a2a_server.py:143-243 | Every call keeps the invariant: executions are covered by live entries, separated by the TTL, and every entry has its execution. |
| Server.RunSafe | agent-network-sdk-python/src/agent_network/a2a_server.py:143-243 | The invariant holds after every prefix of every run with a non-decreasing clock. |
| Server.AtMostOnce | agent-network-sdk-python/src/agent_network/a2a_server.py:158-168 | In every run two executions that share a non-empty idempotency key, or a non-empty sender and message id, are separated by at least the TTL after the first one's store time. |
| Server.ReplayProvenance | agent-network-sdk-python/src/agent_network/a2a_server.py:161-168 | When senders hold no `:` and idempotency keys do not have the form of a message key, every cached reply is the very task of an earlier execution with the same key or the same sender and message id. |
| Server.ReplayedWasProduced | agent-network-sdk-python/src/agent_network/a2a_server.py:161-168 | Without that assumption: the reply was stored by an execution under a key of this request. |
| Server.WriteOnce | agent-network-sdk-python/src/agent_network/a2a_server.py:238-242 | No call changes or drops an entry that has not expired by the end of the call. |
| Server.MessageKeyInjective | agent-network-sdk-python/src/agent_network/idempotency.py:68-72 | Without `:` in senders, equal message keys mean equal sender and message id. |
| Server.MessageKeyCollision | agent-network-sdk-python/src/agent_network/idempotency.py:68-72 | The failing input: senders `a:b` and `a` with message ids `c` and `b:c` share a key. |
| Server.KeySharedIff | agent-network-sdk-python/src/agent_network/idempotency.py:68-72 | A non-empty sender and message id share their key with another such pair if and only if the sender holds `:` after its first character or the message id holds `:` before its last. |
| Server.LikeMessageKeyIff | agent-network-sdk-python/src/agent_network/idempotency.py:68-72 | An idempotency key is the message key of some non-empty sender and message id exactly when it has that form: `msg:`, text, `:`, text. |
| Server.KeyReplaysForeignMessage | agent-network-sdk-python/src/agent_network/a2a_server.py:161-168 | The failing input: the idempotency key `msg:alice:m1` is answered with the task of another sender's message. |
| Server.LookupCovers | agent-network-sdk-python/src/agent_network/idempotency.py:43-55 | A lookup keeps every promise not to run again, and a miss shows that the key's deadline has passed. |
| Seed.GrantedLease | reference-seed/src/reference_seed/app.py:88 | A granted lease lies between 30 and 7200 seconds, and is the wanted one when that does. |
| SeedAnswers.TextOfMeans | reference-seed/src/reference_seed/app.py:83-85 | What `str(body.get(key) or "")` is for texts, for what is false, and for other values. |
| SeedAnswers.OnlyTheOwnerActs | reference-seed/src/reference_seed/app.py:81-124 | A step that changes the directory changes the entry its body names and no other, and carries the signature over its body by the key of that entry, or, for a first join, by the key it brings. |
| SeedAnswers.TheOwnerMayAct | reference-seed/src/reference_seed/app.py:81-124 | Which joins, renewals and leaves are accepted, in the texts of the body. |
| SeedAnswers.JoinWrites | reference-seed/src/reference_seed/app.py:88-99 | The entry that a join writes: each text from its own entry of the body, 1800 seconds if no lease is asked for and otherwise the one asked for within 30 to 7200, the status, and one descriptor for each capability. |
| SeedAnswers.DescriptorIsRead | agent-network-sdk-python/src/agent_network/capability.py:18-28 | How a capability is read from a text or a dict, and when it raises. |
| SeedAnswers.RenewAndLeaveWrite | reference-seed/src/reference_seed/app.py:106-124 | A renewal moves the two times, a leave ends the lease and takes the agent offline; both keep everything else. |
| Seed.Entry.constructor | reference-seed/src/reference_seed/app.py:90-99 | An entry object holds the data it is made from. |
| Seed.Handlers.constructor | reference-seed/src/reference_seed/app.py:78-79 | A new directory is empty. |
| Seed.Handlers.Put | reference-seed/src/reference_seed/app.py:34-35 | Replaces the entry of the agent or adds it at the end, and nothing else. |
| Seed.Handlers.HandleJoin | reference-seed/src/reference_seed/app.py:81-104 | A join is accepted exactly when the body is signed by the key it holds, its lease, capabilities and availability can be read, and the known key of the agent it names is the same; otherwise it is refused, or raises on a NaN or on those entries, and the directory stays. |
| Seed.Handlers.HandleRenew | reference-seed/src/reference_seed/app.py:106-114 | A renewal whose body is signed by the key of the agent it names sets the last-seen time and a lease of 1800 seconds; any other is refused or raises and changes nothing. |
| Seed.Handlers.HandleLeave | reference-seed/src/reference_seed/app.py:116-124 | A leave whose body is signed by the key of the agent it names takes that agent offline now; any other is refused or raises and changes nothing. |
| Seed.ReadCapabilities | agent-network-sdk-python/src/agent_network/capability.py:18-28 | The descriptors of an announcement: one for each entry, or none at all when one of them raises. |
| Seed.Handlers.Discover | reference-seed/src/reference_seed/app.py:40-67 | The nested loops compute the filtered, sorted and sliced rows, or raise where the version constraint does. |
| Seed.FindDescriptor | reference-seed/src/reference_seed/app.py:46-51 | The inner loop stops at the first descriptor that matches or raises. |
| SeedProofs.RunKeeps | reference-seed/src/reference_seed/app.py:81-124 | Over every run no entry is removed, an agent's first accepted public key never changes, and every available entry has between 30 and 7200 seconds from last seen to expiry. |
| SeedProofs.LeftStaysHidden | reference-seed/src/reference_seed/app.py:116-124 | After an accepted leave the agent is in no discovery result until its own next accepted join, through all other steps. |
| SeedProofs.DiscoveryIsExact | reference-seed/src/reference_seed/app.py:40-67 | For a limit of at least one, discovery returns distinct agents in (last seen descending, id ascending) order, only qualifying rows, and every qualifying row that it omits comes after a full result; it raises exactly when some listed agent makes the constraint raise. |
| SeedAnswers.LatestFirst | reference-seed/src/reference_seed/app.py:66 | Rows come by last seen, latest first, and by id at one moment; so do omitted rows after listed ones. |
| SeedAnswers.RowMeans | reference-seed/src/reference_seed/app.py:43-53 | An agent has a row exactly when its lease runs, it is AVAILABLE, and a descriptor of its own matches. |
| SeedAnswers.SliceMeans | reference-seed/src/reference_seed/app.py:67 | `rows[:limit]` is a prefix, and how long it is for limits of either sign. |
| SeedProofs.DiscoveryIgnoresOrder | reference-seed/src/reference_seed/app.py:43-67 | The result does not depend on the order in which agents joined. |
| SeedProofs.FirstMatchIsFirst | reference-seed/src/reference_seed/app.py:46-53 | The descriptor in a row is the agent's first match; none is found exactly when all of that capability fail; it raises only at the first that does not fail. |
| SeedProofs.SortRowsKeeps | reference-seed/src/reference_seed/app.py:66 | Sorting the rows is a permutation. |
| SeedProofs.SortRowsOrdered | reference-seed/src/reference_seed/app.py:66 | Sorted rows of distinct agents are strictly ordered by the sort key. |
| Lease.TimerFitsExactly | agent-network-sdk-python/src/agent_network/network.py:215 | The renew interval is strictly inside both the granted lease and the 1800 seconds of a renewal, and leaves a positive slack, exactly for requests from 31 to 2999 seconds. |
| Lease.RenewIntervalMeans | agent-network-sdk-python/src/agent_network/network.py:215 | The interval is 30 seconds for leases below 50, and otherwise three fifths rounded down. |
| Lease.LeaseContinuity | agent-network-sdk-python/src/agent_network/network.py:208-224 | Joined as available with such a lease, with renewals accepted within the interval plus a delay below the slack and no leave, the agent is listed at every instant, whatever other agents do. |
| Lease.LapsesOutsideRange | agent-network-sdk-python/src/agent_network/network.py:215 | Outside that range the agent is no longer listed when the timer first fires after the join, or after a renewal. |
| Lease.AgentNetwork.constructor | agent-network-sdk-python/src/agent_network/network.py:49-71 | A new client has joined nothing and runs no timer. |
| Lease.AgentNetwork.Join | agent-network-sdk-python/src/agent_network/network.py:116-132 | The first seed that completes is joined and starts the timer once, given an event loop; if none does, nothing changes. |
| Lease.AgentNetwork.StartRenew | agent-network-sdk-python/src/agent_network/network.py:208-216 | A running timer is kept, and without an event loop none is started; otherwise one starts with the computed interval. |
| Lease.AgentNetwork.MessageAny | agent-network-sdk-python/src/agent_network/network.py:81-89 | The first seed that answers decides, joined seeds before the others; it fails exactly when no seed can be reached. |
| Lease.AgentNetwork.Leave | agent-network-sdk-python/src/agent_network/network.py:144-152 | Joined seeds and timer are cleared exactly when some seed has answered. |
| Quorum.QualifyingPassVerifiers | agent-network-sdk-python/src/agent_network/verification_policy.py:101-126 | A verifier is in the result if and only if some receipt in the list names the contract, its hash and the artifact asked for, has the result PASS and a signature, and its verifier, in text, is that non-empty name and is authorized if anyone is; or it raises where the policy cannot be canonicalised. |
| QuorumAnswers.QuorumMeans | agent-network-sdk-python/src/agent_network/verification_policy.py:143-165 | A policy that is not required is met without receipts; a required one is met exactly when as many verifiers qualify as it asks for, and never without receipts. |
| QuorumAnswers.PassCountMeans | agent-network-sdk-python/src/agent_network/verification_policy.py:94-98 | The count asked for: none if not required, the policy's own if it is at least one, and otherwise one. |
| QuorumAnswers.AuthorizedMeans | agent-network-sdk-python/src/agent_network/verification_policy.py:90-91 | Who is authorized: the true listed values, in text, and the single verifier unless an equal value is listed. |
| QuorumAnswers.CanonicalMeans | agent-network-sdk-python/src/agent_network/verification_policy.py:69-81 | The dict that is hashed, entry by entry. |
| Quorum.HashDefinedIff | agent-network-sdk-python/src/agent_network/verification_policy.py:69-87 | Without NaN the policy hash exists if and only if the policy is readable: absent, or a dict that is not required, or one whose lists can be iterated over and whose count `int` can read. |
| Quorum.CanonicalIdempotentIff | agent-network-sdk-python/src/agent_network/verification_policy.py:69-81 | Canonicalising twice is canonicalising once if and only if no required policy has an entry `required_passes` that reads as 0. |
| Quorum.CountTextZero | agent-network-sdk-python/src/agent_network/verification_policy.py:78 | The failing input: the count "0" reads as 0, and 0 as 1. |
| Quorum.DecisionIsCanonical | agent-network-sdk-python/src/agent_network/verification_policy.py:143-165 | The quorum decision, the authorized verifiers and the pass count of any policy are those of its canonical form. |
| Quorum.HashMeansSamePolicy | agent-network-sdk-python/src/agent_network/verification_policy.py:84-87 | Two verifications have the same hash if and only if their canonical policies agree up to key order. |
| Verdicts.HashFixesDecisionIff | agent-network-sdk-python/src/agent_network/verification_policy.py:84-98 | Policies with the same hash, whatever their entries, decide alike on all receipts for a contract and artifact if and only if they are not required, or authorize the same verifiers, or neither authorizes as many as it asks for. |
| Verdicts.AlikeIff | agent-network-sdk-python/src/agent_network/verification_policy.py:143-165 | Two non-empty sets of authorized verifiers decide alike on all receipts if and only if they are equal or neither has as many members as there must be passes. |
| Quorum.PolicyHashFixesDecision | agent-network-sdk-python/src/agent_network/verification_policy.py:84-98 | Policies with the same hash ask for the same count, and authorize the same verifiers when `str` does not tell corresponding ones apart, so in particular when none holds a dict of two keys. |
| Quorum.KeyOrderSplitsVerdict | agent-network-sdk-python/src/agent_network/verification_policy.py:90-91 | The failing input: one verifier that is a dict of two keys, in both orders, gives one hash and two verdicts. |
| Verifiers.NamesAgainstAuthorized | agent-network-sdk-python/src/agent_network/verification_policy.py:15-20 | The named verifiers and the authorized set are the same and equally many when the single verifier is counted once, and otherwise there is one name more. |
| Verifiers.ValidatedIsReachable | agent-network-sdk-python/src/agent_network/verification_policy.py:41-66 | An accepted required MULTI_VERIFIER or REPUTATION_WEIGHTED policy has authorized verifiers, all of them named and none of them the executor, and asks for at least one pass; it asks for no more than there are if and only if the single verifier is counted once or it asks for fewer than it names. |
| Verifiers.TwiceNamedIsUnreachable | agent-network-sdk-python/src/agent_network/verification_policy.py:15-20 | The failing input: the number 5 next to the string "5" validates with two passes, and no receipts meet it. |
| Verifiers.ValidatedQuorumIsIndependent | agent-network-sdk-python/src/agent_network/verification_policy.py:90-98 | Then the executor never qualifies, only authorized verifiers do, and with a counting receipt from each the quorum is met exactly when it is reachable. |
| Verifiers.QuorumIsMonotone | agent-network-sdk-python/src/agent_network/verification_policy.py:143-165 | Receipts in any order, repetition or addition never take a qualifying verifier away, so a met quorum stays met. |
| Verifiers.IrrelevantReceiptsIgnored | agent-network-sdk-python/src/agent_network/verification_policy.py:109-125 | Receipts for another contract or artifact, with another result than PASS, without a signature or without a verifier change no decision, wherever they stand. |
| QuorumAnswers.SelectsMeans | agent-network-sdk-python/src/agent_network/verification_policy.py:63-66 | Under REQUESTER_SELECTS a verifier has to be named, and not the executor. |
| QuorumAnswers.NamedPoliciesMean | agent-network-sdk-python/src/agent_network/verification_policy.py:23-62 | MULTI_VERIFIER and REPUTATION_WEIGHTED are valid if and only if the executor is not named and the count lies between 2, or 1, and the number of names; a missing count is an error for the one and 1 for the other. |
| QuorumAnswers.NamedMeans | agent-network-sdk-python/src/agent_network/verification_policy.py:15-20 | Who is named: the true listed values and the single verifier, in text. |
| QuorumAnswers.OtherPoliciesMean | agent-network-sdk-python/src/agent_network/verification_policy.py:44-48 | Reserved policies are unsupported, and other names invalid. |
| QuorumAnswers.UnrequiredIsValid | agent-network-sdk-python/src/agent_network/verification_policy.py:41-43 | Without a required policy nothing is checked. |
| Verifiers.DefaultingIsStableIff | agent-network-sdk-python/src/agent_network/verification_policy.py:129-140 | Quorum defaulting is idempotent if and only if the single verifier is not a value other than a string whose text is not listed. |
| QuorumAnswers.DefaultingMeans | agent-network-sdk-python/src/agent_network/verification_policy.py:129-140 | What defaulting fills in: the names in text, an explicit count as the int it reads as, and otherwise 2, or 1 for a single name; only under REPUTATION_WEIGHTED, and no other entry. |
| Verifiers.NumberIsAppendedAgain | agent-network-sdk-python/src/agent_network/verification_policy.py:18-19 | The failing input: the number 5 alone is named once by the first call and twice by the second. |
| Verifiers.DefaultingKeepsAuthorizedIff | agent-network-sdk-python/src/agent_network/verification_policy.py:129-140 | Defaulting never lowers the pass count, and keeps the authorized set if and only if no listed verifier equals the single one under another spelling. |
| Verifiers.DefaultingAddsSpelling | agent-network-sdk-python/src/agent_network/verification_policy.py:135 | The failing input: a listed 1.0 with the single verifier 1. |
| Verifiers.DefaultedValidatesIff | agent-network-sdk-python/src/agent_network/verification_policy.py:129-140 | A defaulted required REPUTATION_WEIGHTED policy validates if and only if it has a name, the executor is not among them, and an explicit count lies between 1 and their number, one more where the single verifier is appended again. |
| Verifiers.AcceptedButUnreadable | agent-network-sdk-python/src/agent_network/verification_policy.py:63-66 | Validation accepts a policy that cannot be hashed. |
| Python.EqualRespectsSame | agent-network-sdk-python/src/agent_network/verification_policy.py:73 | Key order does not matter to `==`, and so to `in`. |
| Python.EqualMeans | agent-network-sdk-python/src/agent_network/verification_policy.py:73 | `==` on all JSON values: numbers, True and False by value, texts by their characters, lists item by item, dicts key by key, and nothing else. |
| Python.FalseValues | agent-network-sdk-python/src/agent_network/verification_policy.py:16 | What is false: None, what equals False, and what is empty. |
| Python.IntTruncates | agent-network-sdk-python/src/agent_network/verification_policy.py:78 | `int` of a float is the next integer toward zero. |
| Text.IntOfMeans | agent-network-sdk-python/src/agent_network/verification_policy.py:78 | `int` of a text: white space around it, one sign, and digits with single underscores between them; the value is that of the digits. |
| Versions.ParseVersionLoop | agent-network-sdk-python/src/agent_network/capability.py:31-42 | The two loops of `parse_version` give the triple of the first three parts, with 0 for missing or unreadable ones. |
| Versions.PartsRead | agent-network-sdk-python/src/agent_network/capability.py:31-42 | Each part of a version text is its own int, and 0 where it is missing or cannot be read; white space around the text is not part of it. |
| Versions.LeadingV | agent-network-sdk-python/src/agent_network/capability.py:32 | A leading `v` or `V` changes nothing. |
| Versions.VersionReads | agent-network-sdk-python/src/agent_network/capability.py:31-42 | A version triple of ints written out in decimal is read back, with or without a leading `v`. |
| Versions.ConstraintIsInterval | agent-network-sdk-python/src/agent_network/capability.py:45-63 | If two versions match a constraint, every version between them does. |
| Versions.OperatorsPartition | agent-network-sdk-python/src/agent_network/capability.py:54-63 | For every plain version text exactly one of `<`, plain and `>` matches; `>=` and `<=` add equality and are closed upward and downward; a version matches itself. |
| VersionJoins.JoinedMeans | agent-network-sdk-python/src/agent_network/capability.py:45-63 | What two constraints without spaces mean when a comma joins them: a text that ends in `.x` is one wildcard on what stands before its first dot, and raises when that holds the comma; any other is taken part by part. |
| VersionMeanings.ConstraintMeans | agent-network-sdk-python/src/agent_network/capability.py:45-63 | Every constraint text, with spaces or not, denotes a window of versions computed from it, outside which the answer is False and inside which it is True or, if the code gets to a wildcard it cannot read, a ValueError. |
| VersionMeanings.SameConstraintsIff | agent-network-sdk-python/src/agent_network/capability.py:45-63 | Two constraints have the same answer for every version if and only if their windows and endings are the same, or both windows are empty. |
| VersionMeanings.Told | agent-network-sdk-python/src/agent_network/capability.py:45-63 | Meanings that differ are told apart by a version. |
| VersionJoins.JoinedIsIntersectionIff | agent-network-sdk-python/src/agent_network/capability.py:45-63 | On one version a join is the intersection if and only if the version is inside both or neither of the two windows and, if inside, both raise or neither does. |
| VersionJoins.JoinedAlwaysIff | agent-network-sdk-python/src/agent_network/capability.py:45-63 | For all constraints without spaces, lists included, a join is the intersection on every version if and only if a condition on the two texts holds: always, unless the second ends in `.x` or the first is a list that does; then by whether the first wildcards can be read, which majors they name, and what the other parts accept. |
| VersionJoins.ListCovers | agent-network-sdk-python/src/agent_network/capability.py:53 | A list holds of every version of a major if and only if each of its parts does: it matches everything, is that wildcard, or a bound at another major. |
| VersionJoins.ListFull | agent-network-sdk-python/src/agent_network/capability.py:53 | A list raises for every version if and only if its first part that does not match everything is a wildcard that cannot be read. |
| VersionJoins.ComparisonThenWildcardRaises | agent-network-sdk-python/src/agent_network/capability.py:49-51 | A comparison with `<` or `>` joined with a constraint ending in `.x` raises for every version. |
| VersionJoins.RangeThenWildcardRaises | agent-network-sdk-python/src/agent_network/capability.py:49-51 | The failing input: `>=1.2,2.x` raises, though each part has an answer. |
| VersionJoins.JoinedWildcardsAreNotIntersected | agent-network-sdk-python/src/agent_network/capability.py:49-51 | The failing input: `1.x,2.x` accepts 1.5.0, which `2.x` refuses. |
| VersionJoins.ListThenRangeDiffers | agent-network-sdk-python/src/agent_network/capability.py:49-53 | The failing input: `1.x,2.x` joined with `>=1` refuses 1.5.0, which both accept. |
| Versions.WildcardMajor | agent-network-sdk-python/src/agent_network/capability.py:49-51 | What a constraint ending in `.x` means: the int before its first dot, or a ValueError. |
| Versions.UnconstrainedMatches | agent-network-sdk-python/src/agent_network/capability.py:46-47 | No constraint, and the three texts that stand for none, match every version. |
| Versions.SpacesIgnored | agent-network-sdk-python/src/agent_network/capability.py:48 | White space around a constraint is not part of it. |
| Versions.PaddedAnyIsAVersion | agent-network-sdk-python/src/agent_network/capability.py:46-48 | The exception: `any` with a space before it is read as the version 0.0.0. |
| Identities.IdentityFiles.LoadOrCreate | agent-network-sdk-python/src/agent_network/crypto.py:328-346 | One load: the identity returned and both files afterwards, for absent, combined, split and mismatched files. |
| Identities.LoadReads | agent-network-sdk-python/src/agent_network/crypto.py:296-346 | What is loaded from which file: agent, key, id, revision, time and recovery key, with the drawn values where an entry is missing; another agent's file and an unreadable key are refused and nothing is written. |
| Identities.LoadWrites | agent-network-sdk-python/src/agent_network/crypto.py:256-346 | After a successful load the operational file holds no recovery private key; what was written names each key by its own public text. |
| Identities.SettledExactly | agent-network-sdk-python/src/agent_network/crypto.py:328-346 | Files are complete and split if and only if any two loads, whatever they draw, return the same identity and write nothing. |
| Identities.OneLoadSettlesIff | agent-network-sdk-python/src/agent_network/crypto.py:328-346 | One successful load settles the files, and later loads return the same identity, if and only if there was no operational file, it was combined, the recovery file was missing, or the files were settled before. |
| Identities.StrippedRecoveryNeverSettles | agent-network-sdk-python/src/agent_network/crypto.py:310-316 | A concrete case that never settles: a complete operational file next to a recovery file without its private key gives another recovery key on every load. |
| Identities.WrittenReadsBack | agent-network-sdk-python/src/agent_network/crypto.py:256-293 | Writing an identity to both files settles them, and they read back as that identity. |
| Identities.OperationalKeyStays | agent-network-sdk-python/src/agent_network/crypto.py:328-346 | Over every run of loads for any agents an existing operational key and agent id never change. |
| Identities.SettledStays | agent-network-sdk-python/src/agent_network/crypto.py:328-346 | Settled files stay as they are over every run of loads. |
| Identities.SplittingKeepsRecoveryKey | agent-network-sdk-python/src/agent_network/crypto.py:338-341 | Splitting a combined file moves its first recovery key into the recovery file and out of the operational one. |
| Identities.InMemoryKeyProvider.constructor | agent-network-sdk-python/src/agent_network/trust/key_provider.py:19-22 | A new provider is empty. |
| Identities.InMemoryKeyProvider.Add | agent-network-sdk-python/src/agent_network/trust/key_provider.py:24-28 | A key replaces the one under its id; the first one, or one asked for, becomes current. |
| Identities.InMemoryKeyProvider.Sign | agent-network-sdk-python/src/agent_network/trust/key_provider.py:33-34 | A signature that the key under the id verifies on the object; there is one exactly when there is such a key and the object has canonical bytes. |
| Identities.Provide | agent-network-sdk-python/src/agent_network/crypto.py:151-156 | A new identity's provider holds its operational and recovery key and has the operational one current. |
| Identities.Rotate | agent-network-sdk-python/src/agent_network/crypto.py:171-178 | The rotated identity and the keys in its provider. |
| Identities.SignsAsItselfIff | agent-network-sdk-python/src/agent_network/crypto.py:162-166 | An identity's own public key verifies what it signs if and only if its recovery key does not stand under the same id with other bytes. |
| Identities.RotationsSignAsThemselves | agent-network-sdk-python/src/agent_network/crypto.py:171-178 | Along every chain of rotations from a generated identity the revision counts them, agent and recovery key stay, and signatures verify under the current key. |
| Base64.RoundTrip | agent-network-sdk-python/src/agent_network/crypto.py:63-68 | Every byte string survives base64, with the lenient decoder that Python uses. |
| Base64.StrayCharacters | agent-network-sdk-python/src/agent_network/crypto.py:67-68 | An ASCII character outside the alphabet changes nothing when a text is read, wherever it stands, and any other makes reading fail. |
| Base64.UnpaddedIsRefused | agent-network-sdk-python/src/agent_network/crypto.py:67-68 | Padding may not be left out. |
| Base64.EncodedGroups | agent-network-sdk-python/src/agent_network/crypto.py:63-64 | Three bytes are written as the four letters whose values make the same number; one or two at the end are filled up with zero bits and padding. |
| Base64.LettersAreTheAlphabet | agent-network-sdk-python/src/agent_network/crypto.py:63-64 | The letters are those of RFC 4648. |
| Artifact.InlineRoundTrip | agent-network-sdk-python/src/agent_network/artifact_ref.py:48-94 | Data is accepted inline exactly up to 65536 bytes, and materialising the reference gives the data back. |
| Artifact.RevisionsAddUp | agent-network-sdk-python/src/agent_network/artifact_ref.py:72-82 | Any number of revisions adds exactly that many, keeps id, task, producer and locations, and ends with the last body; it fails exactly when a body is too large. |
| Artifact.FetchArtifact | agent-network-sdk-python/src/agent_network/artifact_ref.py:142-176 | The loop over locations returns the inline body, or what the first location that is not passed over gives. |
| Artifact.FirstAnswerDecides | agent-network-sdk-python/src/agent_network/artifact_ref.py:162-172 | A body is fetched if and only if the first location that is not passed over answers with it and it hashes to the reference. |
| Artifact.FirstAnswerFails | agent-network-sdk-python/src/agent_network/artifact_ref.py:162-176 | The fetch finds nothing exactly when every location is passed over; otherwise the first other one decides whether it is a mismatch or unreachable. |
| Artifact.PassedOver | agent-network-sdk-python/src/agent_network/artifact_ref.py:164-168 | A location is passed over exactly when it is no HTTP one or is answered with a status of 400 or more. |
| Artifact.InlineMeans | agent-network-sdk-python/src/agent_network/artifact_ref.py:85-94 | Inline text is base64, or UTF-8 when nothing or that is named, and its bytes must hash to the reference. |
| Artifact.InlineSays | agent-network-sdk-python/src/agent_network/artifact_ref.py:48-70 | Each field of an inline reference, and the limit of 65536 bytes. |
| Artifact.BodyIsGenuine | agent-network-sdk-python/src/agent_network/artifact_ref.py:85-94 | Any body obtained for a reference that names the hash of some data is that data. |

## Left out

- HTTP, JSON-RPC and Starlette routing, agent cards and environment settings: plumbing; transport is modelled as one hop on JSON values.
- `protobuf_message_to_dict`, `dict_to_protobuf_task` and `normalize_task_result`: only their effect on JSON values (numbers and key order) is modelled.
- Strings with lone surrogates: a Dafny char is a Unicode scalar value, so the encoding error that Python raises for them has no counterpart.
- Strings are not normalised and only ASCII digits are read in versions; Python's `int` also reads other Unicode digits.
- The text of non-integral floats: a parameter with the round-trip law, not an algorithm.
- SQLite and the JSON text of its rows: a table is a map, and a row reads back as the value written; with a path, stored values must not be changed afterwards.
- Server.A2AServer.HandleMessage: one call is atomic, because overlap while a handler is awaited is outside the at-most-once claim.
- Server.AtMostOnce: an execution whose handler raises stores nothing and may be repeated at once, as in the code; the claim is about executions that returned.
- Server.Request: message fields are given as the strings the code reads; the content of a task beyond id, state and error (artifacts, envelopes, timestamps) is not modelled.
- `_publish_artifact`, `artifact_blobs` and `authorize_artifact_get`: blobs on disk and HTTP headers around parts that are modelled elsewhere.
- Negotiation.Propose: schema checks and the merging of `capability_input` into the task metadata happen before it and only add error exits or metadata.
- Negotiation.HandlePropose: `dict()` of a list of pairs is a TypeError here, while Python would accept it.
- Session.Negotiate: the executor's code never counters, so that branch of Negotiation.Countersign is not taken; text parts, message ids and the deduplication of the messages are left to `Server`.
- `TaskProposal.counter`: a copy with the next revision; no code of the SDK sends one, and the requester's side of a counter is modelled in Negotiation.Countersign.
- Lease.RenewInterval: `int(lease_seconds * 0.6)` is taken as the floor of three fifths; rounding of the product is not modelled.
- Verifiers.ValidatedIsReachable: REQUESTER_SELECTS is not included, because the code checks neither its pass count nor its list of verifiers.
- VersionJoins.JoinedAlwaysIff: texts with spaces are left out; the code strips each part, but only the ends of the whole before it looks for `.x`.
- Python.IntOfValue: ASCII digits only, and no limit on their number, where Python stops at 4300.
- Python.Equal: NaN equals itself, as in `in` for one object; a policy that holds one has no hash.
- Lease.AgentNetwork.Leave: a cancelled timer is just absent, and the sleeping loop is represented by the times of accepted renewals. `renew` before any join is a join and needs no model of its own.
- Seed.FindDescriptor: descriptors are kept as read once; reading the stored dict again, as the code does, gives the same one.
- Seed.Handlers.Discover: the query's own checks (a missing capability, the default of ten results) and the constant columns of a row are not modelled.
- Artifact.Materialize: codecs other than base64 and UTF-8 are an input.
- Identities.Loaded: file contents are typed records, so a file that is not JSON or lacks its private key entry counts as one whose key cannot be read.
- Identity messages (recovery policy, enrollment, rotation, revocation, recovery): dicts that are signed like any other.
- Merkle proofs, evidence ledger, key history, federation and the task lifecycle: described in `agent-network-spec/docs`, but no code implements them.
- `schema_validate`, `report_unreachable`, `a2a_card.py`, `errors.py` and the example agents: single branches and lookups.
