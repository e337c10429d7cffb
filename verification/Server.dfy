/**
 * `A2AServer.handle_message` over its idempotency store. One call is atomic: the handler is
 * awaited between the lookups and the store, and calls that overlap there are outside the
 * claims. The message is given as the strings the code reads from its metadata; what the
 * handler does is an input.
 */
module Server {
  import opened Wrappers
  import opened Json
  import opened JsonText
  import opened Crypto
  import opened Python
  import opened Negotiation
  import ContractFields
  import opened Idempotency

  /** A sender and message id that the store is used for. */
  predicate Usable(sender: string, id: string) {
    sender != "" && id != ""
  }

  function KeyText(sender: string, id: string): string {
    "msg:" + sender + ":" + id
  }

  /** `capability`, `task_id`, `idempotency_key`, `messageId`, sender and contract of a message. */
  datatype Request = Request(
    capability: string, taskId: string, idempotencyKey: string, messageId: string, sender: string, contract: Value)
  {
    predicate HasKey() {
      idempotencyKey != ""
    }

    predicate HasMessage() {
      Usable(sender, messageId)
    }

    function MessageKey(): string {
      KeyText(sender, messageId)
    }
  }

  /** The clock readings of one call, in the order the code takes them; the handler runs at `started`. */
  datatype Clock = Clock(messageLookup: real, keyLookup: real, started: real, keyStored: real, messageStored: real)
  {
    predicate From(now: real) {
      now <= messageLookup <= keyLookup <= started <= keyStored <= messageStored
    }
  }

  datatype Outcome = Returned(status: string, errorCode: Option<string>) | HandlerRaised

  datatype Reply<T> = Fresh(task: T) | Replayed(task: T) | Exception

  /** A handler execution; no task when the handler raised. */
  datatype Execution<T> = Execution(request: Request, clock: Clock, task: Option<T>)

  datatype ServerState<T> = ServerState(tasks: map<string, T>, store: State<T>, log: seq<Execution<T>>)

  datatype Call = Call(request: Request, known: bool, gate: GateResult, completes: bool, clock: Clock)

  /** The error code of a call that is answered without running the handler. */
  function Refusal(call: Call): string {
    if !call.known then "UNSUPPORTED_CAPABILITY"
    else if call.gate.UnsignedContract? then "TASK_REJECTED"
    else "INVALID_SIGNATURE"
  }

  // ------------------------------------------------- one call as a relation

  function MessageLookup<T>(s: State<T>, q: Request, c: Clock): (State<T>, Option<T>) {
    if q.HasMessage() then Got(s, q.MessageKey(), c.messageLookup, c.messageLookup) else (s, None)
  }

  function KeyLookup<T>(s: State<T>, q: Request, c: Clock): (State<T>, Option<T>) {
    if q.HasKey() then Got(s, q.idempotencyKey, c.keyLookup, c.keyLookup) else (s, None)
  }

  function StoreReply<T>(s: State<T>, q: Request, c: Clock, ttl: real, task: T): State<T> {
    var a := if q.HasKey() then Written(s, q.idempotencyKey, task, c.keyStored + ttl) else s;
    if q.HasMessage() then Written(a, q.MessageKey(), task, c.messageStored + ttl) else a
  }

  ghost predicate Transition<T>(s: ServerState<T>, call: Call, ttl: real, reply: Reply<T>, s': ServerState<T>) {
    var q, c := call.request, call.clock;
    if !call.known then
      reply.Fresh? && s' == s.(tasks := s.tasks[q.taskId := reply.task])
    else
      var (a, hit1) := MessageLookup(s.store, q, c);
      if hit1.Some? then reply == Replayed(hit1.value) && s' == s.(store := a)
      else
        var (b, hit2) := KeyLookup(a, q, c);
        if hit2.Some? then reply == Replayed(hit2.value) && s' == s.(store := b)
        else if call.gate.GateRaised? then reply == Exception && s' == s.(store := b)
        else if !call.gate.Admitted? then
          reply.Fresh? && s' == s.(store := b, tasks := s.tasks[q.taskId := reply.task])
        else if !call.completes then
          reply == Exception && s' == s.(store := b, log := s.log + [Execution(q, c, None)])
        else
          && reply.Fresh?
          && s' == ServerState(
               s.tasks[q.taskId := reply.task], StoreReply(b, q, c, ttl, reply.task),
               s.log + [Execution(q, c, Some(reply.task))])
  }

  // -------------------------------------------------------------- the class

  class Task {
    const id: string
    const error: Option<string>
    var state: string

    constructor (id: string, state: string, error: Option<string>)
      ensures this.id == id && this.state == state && this.error == error
    {
      this.id, this.state, this.error := id, state, error;
    }
  }

  class A2AServer {
    const publicKey: string
    const handlers: set<string>
    const ff: FloatFormat
    const idempotency: IdempotencyStore<Task>
    var tasks: map<string, Task>
    ghost var log: seq<Execution<Task>>
    ghost var clock: real

    /** `IdempotencyStore()` without a path. */
    constructor (publicKey: string, handlers: set<string>, ff: FloatFormat, ttl: real)
      ensures Valid() && log == [] && tasks == map[]
      ensures fresh(idempotency) && idempotency.ttl == ttl
      ensures this.publicKey == publicKey && this.ff == ff && this.handlers == handlers + {"task.propose"}
    {
      this.publicKey, this.handlers, this.ff := publicKey, handlers + {"task.propose"}, ff;
      this.idempotency := new IdempotencyStore(false, map[], ttl);
      this.tasks, this.log, this.clock := map[], [], 0.0;
      new;
      EmptyServerSafe<Task>(0.0, ttl);
    }

    ghost function Current(): ServerState<Task>
      reads this, idempotency
    {
      ServerState(tasks, idempotency.Current(), log)
    }

    ghost predicate Valid()
      reads this, idempotency
    {
      Safe(Current(), clock, idempotency.ttl)
    }

    function ReadCall(q: Request, outcome: Outcome, c: Clock): Call {
      Call(q, q.capability in handlers, Gate(publicKey, q.contract, q.capability, ff), outcome.Returned?, c)
    }

    /** The message presents a contract dict for work other than negotiation. */
    static predicate Presents(q: Request) {
      q.capability != "task.propose" && q.contract.Obj? && q.contract.members != []
    }

    static predicate BothSignatures(contract: seq<Member>) {
      Truthy(At(contract, "requester_signature")) && Truthy(At(contract, "executor_signature"))
    }

    /** `verify_object` with this server's key; None: it raises. */
    function ExecutorCheck(contract: seq<Member>): Option<bool> {
      match At(contract, "executor_signature")
      case Str(signature) =>
        (match VerifyObject(publicKey, contract, signature, ff)
         case Success(ok) => Some(ok)
         case Failure(_) => None)
      case _ => None
    }

    static predicate FailedWith(reply: Reply<Task>, taskId: string, code: string)
      reads if reply.Fresh? then {reply.task} else {}
    {
      reply.Fresh? && reply.task.id == taskId && reply.task.state == "failed" && reply.task.error == Some(code)
    }

    /** What a new task says: the outcome's state and error if the handler ran, the refusal otherwise. */
    static predicate Describes(task: Task, call: Call, outcome: Outcome, ran: bool)
      requires ran ==> outcome.Returned?
      reads task
    {
      && task.id == call.request.taskId
      && task.state == (if ran && outcome.status == "completed" then "completed" else "failed")
      && task.error == if ran then outcome.errorCode else Some(Refusal(call))
    }

    method HandleMessage(q: Request, outcome: Outcome, c: Clock) returns (reply: Reply<Task>)
      requires Valid() && c.From(clock)
      modifies this, idempotency
      ensures Valid() && clock == c.messageStored
      ensures Transition(old(Current()), ReadCall(q, outcome, c), idempotency.ttl, reply, Current())
      ensures reply.Fresh? ==> fresh(reply.task) && Describes(reply.task, ReadCall(q, outcome, c), outcome, |log| > |old(log)|)
      ensures q.capability !in handlers ==> log == old(log) && FailedWith(reply, q.taskId, "UNSUPPORTED_CAPABILITY")
      ensures q.capability in handlers && Presents(q) && !BothSignatures(q.contract.members) ==>
                log == old(log) && (reply.Replayed? || FailedWith(reply, q.taskId, "TASK_REJECTED"))
      ensures q.capability in handlers && Presents(q) && BothSignatures(q.contract.members)
              && ExecutorCheck(q.contract.members) == Some(false) ==>
                log == old(log) && (reply.Replayed? || FailedWith(reply, q.taskId, "INVALID_SIGNATURE"))
      ensures |log| > |old(log)| && q.capability != "task.propose" && Truthy(q.contract) ==>
                q.contract.Obj? && BothSignatures(q.contract.members) && ExecutorCheck(q.contract.members) == Some(true)
      ensures q.capability in handlers
              && (q.capability == "task.propose" || !Truthy(q.contract)
                  || (q.contract.Obj? && BothSignatures(q.contract.members)
                      && ExecutorCheck(q.contract.members) == Some(true))) ==>
                reply.Replayed? || (|log| == |old(log)| + 1 && (reply.Fresh? <==> outcome.Returned?))
      ensures |log| > |old(log)| && reply.Fresh? ==>
                && outcome.Returned? && reply.task.id == q.taskId && reply.task.error == outcome.errorCode
                && reply.task.state == (if outcome.status == "completed" then "completed" else "failed")
    {
      clock := c.messageStored;
      ghost var before := Current();
      ContractFields.GateMeans(publicKey, q.contract, q.capability, ff);
      LoggedMeans(Current(), ReadCall(q, outcome, c), idempotency.ttl);
      hide Transition, Safe, Gate;
      reply := Dispatch(q, outcome, c);
      TransitionSafe(before, ReadCall(q, outcome, c), idempotency.ttl, reply, Current(), old(clock));
    }

    method Dispatch(q: Request, outcome: Outcome, c: Clock) returns (reply: Reply<Task>)
      modifies this`tasks, this`log, idempotency
      ensures Transition(old(Current()), ReadCall(q, outcome, c), idempotency.ttl, reply, Current())
      ensures reply.Fresh? ==> fresh(reply.task) && Describes(reply.task, ReadCall(q, outcome, c), outcome, |log| > |old(log)|)
    {
      if q.capability !in handlers {
        var unsupported := new Task(q.taskId, "failed", Some("UNSUPPORTED_CAPABILITY"));
        tasks := tasks[q.taskId := unsupported];
        return Fresh(unsupported);
      }
      var cached := FindCached(q, c);
      if cached.Some? {
        return Replayed(cached.value);
      }
      var gate := Gate(publicKey, q.contract, q.capability, ff);
      if gate.GateRaised? {
        return Exception;
      }
      if !gate.Admitted? {
        var refused := new Task(q.taskId, "failed",
                                Some(if gate.UnsignedContract? then "TASK_REJECTED" else "INVALID_SIGNATURE"));
        tasks := tasks[q.taskId := refused];
        return Fresh(refused);
      }
      if outcome.HandlerRaised? {
        log := log + [Execution(q, c, None)];
        return Exception;
      }
      var task := new Task(q.taskId, if outcome.status == "completed" then "completed" else "failed", outcome.errorCode);
      tasks := tasks[q.taskId := task];
      Remember(q, c, task);
      log := log + [Execution(q, c, Some(task))];
      return Fresh(task);
    }

    /** The lookup under the message key, then the one under the idempotency key. */
    method FindCached(q: Request, c: Clock) returns (hit: Option<Task>)
      modifies idempotency
      ensures var (a, hit1) := MessageLookup(old(idempotency.Current()), q, c);
              var (b, hit2) := KeyLookup(a, q, c);
              && hit == (if hit1.Some? then hit1 else hit2)
              && idempotency.Current() == if hit1.Some? then a else b
    {
      if q.messageId != "" && q.sender != "" {
        hit := idempotency.Get(q.MessageKey(), c.messageLookup, c.messageLookup);
        if hit.Some? {
          return;
        }
      }
      if q.idempotencyKey != "" {
        hit := idempotency.Get(q.idempotencyKey, c.keyLookup, c.keyLookup);
        return;
      }
      return None;
    }

    method Remember(q: Request, c: Clock, task: Task)
      modifies idempotency
      ensures idempotency.Current() == StoreReply(old(idempotency.Current()), q, c, idempotency.ttl, task)
    {
      if q.idempotencyKey != "" {
        idempotency.Put(q.idempotencyKey, task, c.keyStored);
      }
      if q.messageId != "" && q.sender != "" {
        idempotency.Put(q.MessageKey(), task, c.messageStored);
      }
    }

    /** `SkillAgentExecutor.cancel`: changes the stored task object in place. */
    method Cancel(taskId: string)
      requires Valid()
      modifies if taskId in tasks then {tasks[taskId]} else {}
      ensures Valid() && Current() == old(Current())
      ensures taskId in tasks ==> tasks[taskId].state == "canceled"
      ensures taskId in tasks ==>
                forall k | k in idempotency.values ::
                  idempotency.values[k].state ==
                  if idempotency.values[k] == tasks[taskId] then "canceled" else old(idempotency.values[k].state)
    {
      if taskId in tasks {
        tasks[taskId].state := "canceled";
      }
    }
  }

  /** The log grows only when the gate admits; a call that is refused never raises. */
  lemma LoggedMeans<T>(s: ServerState<T>, call: Call, ttl: real)
    ensures forall reply, s' | Transition(s, call, ttl, reply, s') ::
              && (|s'.log| > |s.log| ==> call.known && call.gate.Admitted?)
              && (!call.known || !call.gate.Admitted? ==> s'.log == s.log)
              && (!call.known ==> reply.Fresh?)
              && (|s'.log| > |s.log| && reply.Fresh? ==> call.completes)
              && (call.known && call.gate.Admitted? && !reply.Replayed? ==>
                    |s'.log| == |s.log| + 1 && (reply.Fresh? <==> call.completes))
              && (call.gate.UnsignedContract? || call.gate.SignatureMismatch? ==> reply.Fresh? || reply.Replayed?)
  {
  }

  // ------------------------------------------------------------ the invariant

  /** The store still refuses `key` until `deadline`. */
  ghost predicate Covered<T>(s: State<T>, key: string, deadline: real, now: real) {
    deadline <= now || (key in s.expires && s.expires[key] >= deadline)
  }

  ghost predicate ExecutionCovered<T>(s: State<T>, e: Execution<T>, now: real, ttl: real) {
    e.task.Some? ==>
      && e.clock.keyStored <= now && e.clock.messageStored <= now
      && (e.request.HasKey() ==> Covered(s, e.request.idempotencyKey, e.clock.keyStored + ttl, now))
      && (e.request.HasMessage() ==> Covered(s, e.request.MessageKey(), e.clock.messageStored + ttl, now))
  }

  predicate SharesKey(q: Request, r: Request) {
    q.HasKey() && q.idempotencyKey == r.idempotencyKey
  }

  predicate SharesMessage(q: Request, r: Request) {
    q.HasMessage() && q.sender == r.sender && q.messageId == r.messageId
  }

  /** `later` ran only after the deadline that `earlier` stored. */
  predicate Apart<T>(earlier: Execution<T>, later: Execution<T>, ttl: real) {
    earlier.task.Some? ==>
      && (SharesKey(earlier.request, later.request) ==>
            later.clock.started >= earlier.clock.keyStored + ttl)
      && (SharesMessage(earlier.request, later.request) ==>
            later.clock.started >= earlier.clock.messageStored + ttl)
  }

  ghost predicate Separated<T>(log: seq<Execution<T>>, ttl: real) {
    forall i, j | 0 <= i < j < |log| :: Apart(log[i], log[j], ttl)
  }

  /** `e` produced `task` and stored it under `key`. */
  predicate Produced<T(==)>(e: Execution<T>, key: string, task: T) {
    && e.task == Some(task)
    && ((e.request.HasKey() && key == e.request.idempotencyKey) ||
        (e.request.HasMessage() && key == e.request.MessageKey()))
  }

  ghost predicate Provenance<T>(s: State<T>, log: seq<Execution<T>>) {
    forall k | k in s.values :: exists i | 0 <= i < |log| :: Produced(log[i], k, s.values[k])
  }

  ghost predicate Safe<T>(s: ServerState<T>, now: real, ttl: real) {
    && s.store.table.None?
    && Agrees(s.store)
    && (forall i | 0 <= i < |s.log| :: ExecutionCovered(s.store, s.log[i], now, ttl))
    && Separated(s.log, ttl)
    && Provenance(s.store, s.log)
  }

  function NoCalls<T>(): ServerState<T> {
    ServerState(map[], State(map[], map[], None), [])
  }

  lemma EmptyServerSafe<T>(now: real, ttl: real)
    ensures Safe(NoCalls<T>(), now, ttl)
  {
  }

  /** A lookup keeps every cover, and a miss shows that the deadline has passed. */
  lemma LookupCovers<T>(s: State<T>, key: string, now: real, at: real)
    requires s.table.None? && Agrees(s) && now <= at
    ensures var (p, hit) := Got(s, key, at, at);
            && p.table.None? && Agrees(p)
            && (forall k, d | Covered(s, k, d, now) :: Covered(p, k, d, at))
            && (hit.None? ==> key !in p.values && forall d | Covered(s, key, d, now) :: d <= at)
            && (forall k | k in p.values :: k in s.values && p.values[k] == s.values[k])
            && (hit.Some? ==> key in s.values && hit.value == s.values[key])
  {
    PurgeAgrees(s, at);
  }

  /** Nothing but time passes: covers and provenance carry over to a purged store. */
  lemma LookupSafe<T>(s: ServerState<T>, key: string, now: real, at: real, ttl: real)
    requires Safe(s, now, ttl) && now <= at
    ensures Safe(s.(store := Got(s.store, key, at, at).0), at, ttl)
  {
    LookupCovers(s.store, key, now, at);
    var p := Got(s.store, key, at, at).0;
    forall k | k in p.values
      ensures exists i | 0 <= i < |s.log| :: Produced(s.log[i], k, p.values[k])
    {
      assert k in s.store.values;
    }
  }

  lemma LaterSafe<T>(s: ServerState<T>, now: real, at: real, ttl: real)
    requires Safe(s, now, ttl) && now <= at
    ensures Safe(s, at, ttl)
  {
  }

  /** After both lookups missed, a new execution stands apart from every earlier one. */
  lemma MissedApart<T>(s: ServerState<T>, q: Request, c: Clock, now: real, ttl: real, task: Option<T>)
    requires Safe(s, now, ttl) && c.From(now)
    requires var (a, hit1) := MessageLookup(s.store, q, c); hit1.None? && KeyLookup(a, q, c).1.None?
    ensures Separated(s.log + [Execution(q, c, task)], ttl)
  {
    var (a, hit1) := MessageLookup(s.store, q, c);
    if q.HasMessage() {
      LookupCovers(s.store, q.MessageKey(), now, c.messageLookup);
    }
    var between := if q.HasMessage() then c.messageLookup else now;
    if q.HasKey() {
      LookupCovers(a, q.idempotencyKey, between, c.keyLookup);
    }
    var e := Execution(q, c, task);
    forall i | 0 <= i < |s.log|
      ensures Apart(s.log[i], e, ttl)
    {
      assert ExecutionCovered(s.store, s.log[i], now, ttl);
    }
  }

  /** Storing the reply covers the new execution and keeps every earlier cover. */
  lemma StoreCovers<T>(s: State<T>, key: string, value: T, stored: real, now: real, ttl: real)
    requires s.table.None? && Agrees(s) && now <= stored
    ensures var w := Written(s, key, value, stored + ttl);
            && w.table.None? && Agrees(w)
            && Covered(w, key, stored + ttl, stored)
            && (forall k, d | d <= now + ttl && Covered(s, k, d, now) :: Covered(w, k, d, stored))
  {
    AgreementKept(s, key, value, now, now, stored + ttl);
  }

  /** Provenance of a store after one write, given an execution that produced the value. */
  lemma WrittenProvenance<T>(s: State<T>, log: seq<Execution<T>>, key: string, value: T, expires: real)
    requires Provenance(s, log)
    requires exists i | 0 <= i < |log| :: Produced(log[i], key, value)
    ensures Provenance(Written(s, key, value, expires), log)
  {
    var w := Written(s, key, value, expires);
    forall k | k in w.values
      ensures exists i | 0 <= i < |log| :: Produced(log[i], k, w.values[k])
    {
      if k != key {
        assert k in s.values;
      }
    }
  }

  lemma ExtendedProvenance<T>(s: State<T>, log: seq<Execution<T>>, e: Execution<T>)
    requires Provenance(s, log)
    ensures Provenance(s, log + [e])
  {
    forall k | k in s.values
      ensures exists i | 0 <= i < |log + [e]| :: Produced((log + [e])[i], k, s.values[k])
    {
      var i :| 0 <= i < |log| && Produced(log[i], k, s.values[k]);
      assert (log + [e])[i] == log[i];
    }
  }

  /** The writes at the end of a call cover the new execution and every earlier one. */
  lemma RepliesCovered<T>(s: ServerState<T>, q: Request, c: Clock, now: real, ttl: real, task: T)
    requires s.store.table.None? && Agrees(s.store) && now <= c.keyStored <= c.messageStored
    requires forall i | 0 <= i < |s.log| :: ExecutionCovered(s.store, s.log[i], now, ttl)
    ensures var b := StoreReply(s.store, q, c, ttl, task);
            && b.table.None? && Agrees(b)
            && ExecutionCovered(b, Execution(q, c, Some(task)), c.messageStored, ttl)
            && forall i | 0 <= i < |s.log| :: ExecutionCovered(b, s.log[i], c.messageStored, ttl)
  {
    hide Agrees, Written, Covered;
    var a := if q.HasKey() then Written(s.store, q.idempotencyKey, task, c.keyStored + ttl) else s.store;
    var b := StoreReply(s.store, q, c, ttl, task);
    StoreCovers(s.store, q.idempotencyKey, task, c.keyStored, now, ttl);
    var between := if q.HasKey() then c.keyStored else now;
    StoreCovers(a, q.MessageKey(), task, c.messageStored, between, ttl);
    var end := if q.HasMessage() then c.messageStored else between;
    assert q.HasKey() ==> Covered(b, q.idempotencyKey, c.keyStored + ttl, end);
    assert q.HasMessage() ==> Covered(b, q.MessageKey(), c.messageStored + ttl, end);
    CoveredLater(b, end, c.messageStored);
    forall i | 0 <= i < |s.log|
      ensures ExecutionCovered(b, s.log[i], c.messageStored, ttl)
    {
      assert ExecutionCovered(s.store, s.log[i], now, ttl);
    }
  }

  lemma CoveredLater<T>(s: State<T>, now: real, at: real)
    requires now <= at
    ensures forall k, d | Covered(s, k, d, now) :: Covered(s, k, d, at)
  {
  }

  lemma RepliesProvenance<T>(s: ServerState<T>, q: Request, c: Clock, ttl: real, task: T)
    requires Provenance(s.store, s.log)
    ensures Provenance(StoreReply(s.store, q, c, ttl, task), s.log + [Execution(q, c, Some(task))])
  {
    hide Provenance, Written;
    var e := Execution(q, c, Some(task));
    var log := s.log + [e];
    var a := if q.HasKey() then Written(s.store, q.idempotencyKey, task, c.keyStored + ttl) else s.store;
    ExtendedProvenance(s.store, s.log, e);
    assert log[|s.log|] == e;
    if q.HasKey() {
      assert Produced(log[|s.log|], q.idempotencyKey, task);
      WrittenProvenance(s.store, log, q.idempotencyKey, task, c.keyStored + ttl);
    }
    if q.HasMessage() {
      assert Produced(log[|s.log|], q.MessageKey(), task);
      WrittenProvenance(a, log, q.MessageKey(), task, c.messageStored + ttl);
    }
  }

  /** The writes at the end of a call keep the whole invariant. */
  lemma StoredSafe<T>(s: ServerState<T>, q: Request, c: Clock, now: real, ttl: real, task: T)
    requires Safe(s, now, ttl) && now <= c.keyStored <= c.messageStored
    requires Separated(s.log + [Execution(q, c, Some(task))], ttl)
    ensures Safe(s.(store := StoreReply(s.store, q, c, ttl, task), log := s.log + [Execution(q, c, Some(task))]),
                 c.messageStored, ttl)
  {
    hide Agrees, StoreReply, Provenance, ExecutionCovered, Separated;
    RepliesCovered(s, q, c, now, ttl, task);
    RepliesProvenance(s, q, c, ttl, task);
  }

  /** A raising execution is logged without storing anything. */
  lemma RaisedSafe<T>(s: ServerState<T>, q: Request, c: Clock, now: real, ttl: real)
    requires Safe(s, now, ttl) && Separated(s.log + [Execution(q, c, None)], ttl)
    ensures Safe(s.(log := s.log + [Execution(q, c, None)]), now, ttl)
  {
    ExtendedProvenance(s.store, s.log, Execution(q, c, None));
  }

  /** State after the two lookups, when both miss. */
  lemma LookupsSafe<T>(s: ServerState<T>, q: Request, c: Clock, now: real, ttl: real)
    requires Safe(s, now, ttl) && c.From(now)
    ensures var (a, hit1) := MessageLookup(s.store, q, c);
            && Safe(s.(store := a), c.messageLookup, ttl)
            && Safe(s.(store := KeyLookup(a, q, c).0), c.keyLookup, ttl)
  {
    var (a, hit1) := MessageLookup(s.store, q, c);
    if q.HasMessage() {
      LookupSafe(s, q.MessageKey(), now, c.messageLookup, ttl);
    } else {
      LaterSafe(s, now, c.messageLookup, ttl);
    }
    if q.HasKey() {
      LookupSafe(s.(store := a), q.idempotencyKey, c.messageLookup, c.keyLookup, ttl);
    } else {
      LaterSafe(s.(store := a), c.messageLookup, c.keyLookup, ttl);
    }
  }

  /** Every call keeps the invariant. */
  lemma TransitionSafe<T>(s: ServerState<T>, call: Call, ttl: real, reply: Reply<T>, s': ServerState<T>, now: real)
    requires Safe(s, now, ttl) && call.clock.From(now) && Transition(s, call, ttl, reply, s')
    ensures Safe(s', call.clock.messageStored, ttl)
  {
    var q, c := call.request, call.clock;
    LookupsSafe(s, q, c, now, ttl);
    if !call.known {
      LaterSafe(s', now, c.messageStored, ttl);
    } else {
      var (a, hit1) := MessageLookup(s.store, q, c);
      var (b, hit2) := KeyLookup(a, q, c);
      var s2 := s.(store := b);
      if hit1.Some? {
        LaterSafe(s', c.messageLookup, c.messageStored, ttl);
      } else if hit2.Some? || !call.gate.Admitted? {
        LaterSafe(s', c.keyLookup, c.messageStored, ttl);
      } else if !call.completes {
        MissedApart(s, q, c, now, ttl, None);
        RaisedSafe(s2, q, c, c.keyLookup, ttl);
        LaterSafe(s', c.keyLookup, c.messageStored, ttl);
      } else {
        MissedApart(s, q, c, now, ttl, Some(reply.task));
        StoredSafe(s2, q, c, c.keyLookup, ttl, reply.task);
      }
    }
  }

  // ------------------------------------------------------------ whole runs

  /** A run from the empty server: states, calls and replies, with a clock that never goes back. */
  ghost predicate Run<T>(states: seq<ServerState<T>>, calls: seq<Call>, replies: seq<Reply<T>>, start: real, ttl: real) {
    && |states| == |calls| + 1 && |replies| == |calls|
    && states[0] == NoCalls()
    && (forall n | 0 <= n < |calls| ::
          && calls[n].clock.From(Before(calls, start, n))
          && Transition(states[n], calls[n], ttl, replies[n], states[n + 1]))
  }

  function Before(calls: seq<Call>, start: real, n: nat): real
    requires n <= |calls|
  {
    if n == 0 then start else calls[n - 1].clock.messageStored
  }

  lemma {:induction false} RunSafe<T>(states: seq<ServerState<T>>, calls: seq<Call>, replies: seq<Reply<T>>,
                                      start: real, ttl: real, n: nat)
    requires Run(states, calls, replies, start, ttl) && n <= |calls|
    ensures Safe(states[n], Before(calls, start, n), ttl)
  {
    if n == 0 {
      EmptyServerSafe<T>(start, ttl);
    } else {
      RunSafe(states, calls, replies, start, ttl, n - 1);
      TransitionSafe(states[n - 1], calls[n - 1], ttl, replies[n - 1], states[n], Before(calls, start, n - 1));
    }
  }

  /**
   * At most once: in every run, two executions that share an idempotency key, or a sender
   * and message id, are separated by at least the TTL after the first one's store time.
   */
  lemma AtMostOnce<T>(states: seq<ServerState<T>>, calls: seq<Call>, replies: seq<Reply<T>>, start: real, ttl: real,
                      n: nat, i: nat, j: nat)
    requires Run(states, calls, replies, start, ttl) && n <= |calls| && i < j < |states[n].log|
    requires states[n].log[i].task.Some?
    ensures SharesKey(states[n].log[i].request, states[n].log[j].request) ==>
              states[n].log[j].clock.started >= states[n].log[i].clock.keyStored + ttl
    ensures SharesMessage(states[n].log[i].request, states[n].log[j].request) ==>
              states[n].log[j].clock.started >= states[n].log[i].clock.messageStored + ttl
  {
    RunSafe(states, calls, replies, start, ttl, n);
    assert Apart(states[n].log[i], states[n].log[j], ttl);
  }

  // ------------------------------------------------------- replay provenance

  /** A key of the form that message keys have: both parts after "msg:" are there. */
  predicate LikeMessageKey(key: string) {
    "msg:" <= key && exists i | 5 <= i < |key| - 1 :: key[i] == ':'
  }

  predicate Unambiguous(q: Request) {
    ':' !in q.sender && !LikeMessageKey(q.idempotencyKey)
  }

  /** Exactly such keys are message keys of some message that the store is used for. */
  lemma LikeMessageKeyIff(key: string)
    ensures LikeMessageKey(key) <==> exists q: Request :: q.HasMessage() && q.MessageKey() == key
  {
    if LikeMessageKey(key) {
      var i :| 5 <= i < |key| - 1 && key[i] == ':';
      var q := Request("", "", "", key[i + 1..], key[4..i], Null);
      assert key == "msg:" + key[4..i] + ":" + key[i + 1..];
      assert q.HasMessage() && q.MessageKey() == key;
    }
    forall q: Request | q.HasMessage() && q.MessageKey() == key
      ensures LikeMessageKey(key)
    {
      assert key[..4] == "msg:";
      assert key[4 + |q.sender|] == ':';
    }
  }

  /** Without ':' in senders, equal message keys come from equal senders and message ids. */
  lemma MessageKeyInjective(q: Request, r: Request)
    requires ':' !in q.sender && ':' !in r.sender
    requires q.MessageKey() == r.MessageKey()
    ensures q.sender == r.sender && q.messageId == r.messageId
  {
    var s := q.MessageKey();
    var n, m := |q.sender|, |r.sender|;
    assert s[4..] == q.sender + ":" + q.messageId == r.sender + ":" + r.messageId;
    var t := s[4..];
    assert t[n] == ':' && t[m] == ':';
    assert forall i | 0 <= i < n :: t[i] == q.sender[i];
    assert forall i | 0 <= i < m :: t[i] == r.sender[i];
    assert n == m;
    assert q.sender == t[..n] == r.sender;
    assert q.messageId == t[n + 1..] == r.messageId;
  }

  /** Another place at which the key could be split into a sender and a message id. */
  predicate Splittable(sender: string, id: string) {
    || (exists i | 1 <= i < |sender| :: sender[i] == ':')
    || (exists j | 0 <= j < |id| - 1 :: id[j] == ':')
  }

  /**
   * A sender and message id share their key with another usable pair exactly when the sender
   * holds ':' after its first character, or the message id holds ':' before its last one.
   */
  lemma KeySharedIff(sender: string, id: string)
    requires Usable(sender, id)
    ensures Splittable(sender, id) <==>
            exists s, m :: Usable(s, m) && (s, m) != (sender, id) && KeyText(s, m) == KeyText(sender, id)
  {
    if Splittable(sender, id) {
      var (s, m) := OtherSplit(sender, id);
      assert Usable(s, m) && (s, m) != (sender, id) && KeyText(s, m) == KeyText(sender, id);
    }
    forall s, m | Usable(s, m) && (s, m) != (sender, id) && KeyText(s, m) == KeyText(sender, id)
      ensures Splittable(sender, id)
    {
      SharedKeySplits(sender, id, s, m);
    }
  }

  ghost function OtherSplit(sender: string, id: string): (r: (string, string))
    requires Usable(sender, id) && Splittable(sender, id)
    ensures Usable(r.0, r.1) && r != (sender, id) && KeyText(r.0, r.1) == KeyText(sender, id)
  {
    if i :| 1 <= i < |sender| && sender[i] == ':' then
      assert sender == sender[..i] + ":" + sender[i + 1..];
      assert "msg:" + sender[..i] + ":" + (sender[i + 1..] + ":" + id) == KeyText(sender, id);
      (sender[..i], sender[i + 1..] + ":" + id)
    else
      var j :| 0 <= j < |id| - 1 && id[j] == ':';
      assert id == id[..j] + ":" + id[j + 1..];
      assert "msg:" + (sender + ":" + id[..j]) + ":" + id[j + 1..] == KeyText(sender, id);
      (sender + ":" + id[..j], id[j + 1..])
  }

  lemma SplitAt(sender: string, id: string, s: string, m: string)
    requires sender + ":" + id == s + ":" + m && |s| == |sender|
    ensures s == sender && m == id
  {
    var t := sender + ":" + id;
    assert s == t[..|s|] == sender && m == t[|s| + 1..] == id;
  }

  lemma SharedKeySplits(sender: string, id: string, s: string, m: string)
    requires Usable(sender, id) && Usable(s, m) && (s, m) != (sender, id) && KeyText(s, m) == KeyText(sender, id)
    ensures Splittable(sender, id)
  {
    var t := sender + ":" + id;
    assert KeyText(sender, id)[4..] == t && KeyText(s, m)[4..] == s + ":" + m;
    assert t == s + ":" + m;
    assert t[|s|] == ':';
    if |s| < |sender| {
      assert sender[|s|] == ':';
    } else if |s| == |sender| {
      SplitAt(sender, id, s, m);
    } else {
      assert id[|s| - |sender| - 1] == ':';
    }
  }

  /** With ':' allowed they need not: two different pairs share one key. */
  lemma MessageKeyCollision()
    ensures var q := Request("c", "t", "", "c", "a:b", Null);
            var r := Request("c", "t", "", "b:c", "a", Null);
            q.sender != r.sender && q.messageId != r.messageId && q.MessageKey() == r.MessageKey()
  {
    assert "a:b" + ":" + "c" == "a" + ":" + "b:c";
    assert "msg:" + "a:b" + ":" + "c" == "msg:" + ("a:b" + ":" + "c");
    assert "msg:" + "a" + ":" + "b:c" == "msg:" + ("a" + ":" + "b:c");
  }

  /** A reply from the cache is the task that some earlier execution stored under a key of this request. */
  lemma ReplayedWasProduced<T>(s: ServerState<T>, call: Call, ttl: real, reply: Reply<T>, s': ServerState<T>, now: real)
    requires Safe(s, now, ttl) && call.clock.From(now) && Transition(s, call, ttl, reply, s') && reply.Replayed?
    ensures exists i | 0 <= i < |s.log| ::
              || (call.request.HasMessage() && Produced(s.log[i], call.request.MessageKey(), reply.task))
              || (call.request.HasKey() && Produced(s.log[i], call.request.idempotencyKey, reply.task))
  {
    var q, c := call.request, call.clock;
    var (a, hit1) := MessageLookup(s.store, q, c);
    if q.HasMessage() {
      LookupCovers(s.store, q.MessageKey(), now, c.messageLookup);
    }
    if hit1.Some? {
      var i :| 0 <= i < |s.log| && Produced(s.log[i], q.MessageKey(), reply.task);
    } else {
      LookupCovers(a, q.idempotencyKey, if q.HasMessage() then c.messageLookup else now, c.keyLookup);
      assert q.idempotencyKey in s.store.values;
      var i :| 0 <= i < |s.log| && Produced(s.log[i], q.idempotencyKey, reply.task);
    }
  }

  /**
   * Replay provenance over runs: when no sender holds ':' and no idempotency key has the form
   * of a message key, every cached reply is the very task of an earlier execution with the same
   * idempotency key or the same sender and message id.
   */
  lemma ReplayProvenance<T>(states: seq<ServerState<T>>, calls: seq<Call>, replies: seq<Reply<T>>, start: real,
                            ttl: real, n: nat)
    requires Run(states, calls, replies, start, ttl) && n < |calls| && replies[n].Replayed?
    requires Unambiguous(calls[n].request) && forall i | 0 <= i < |states[n].log| :: Unambiguous(states[n].log[i].request)
    ensures exists i | 0 <= i < |states[n].log| ::
              && states[n].log[i].task == Some(replies[n].task)
              && (SharesKey(states[n].log[i].request, calls[n].request)
                  || SharesMessage(states[n].log[i].request, calls[n].request))
  {
    hide Transition, Safe;
    var q, log := calls[n].request, states[n].log;
    RunSafe(states, calls, replies, start, ttl, n);
    ReplayedWasProduced(states[n], calls[n], ttl, replies[n], states[n + 1], Before(calls, start, n));
    var i :| 0 <= i < |log| &&
             ((q.HasMessage() && Produced(log[i], q.MessageKey(), replies[n].task)) ||
              (q.HasKey() && Produced(log[i], q.idempotencyKey, replies[n].task)));
    var r := log[i].request;
    LikeMessageKeyIff(q.idempotencyKey);
    LikeMessageKeyIff(r.idempotencyKey);
    if r.HasMessage() && q.HasMessage() && q.MessageKey() == r.MessageKey() {
      MessageKeyInjective(q, r);
    }
    assert SharesKey(r, q) || SharesMessage(r, q);
  }

  /**
   * The failing input for idempotency keys: bob's key "msg:alice:m1" is answered with the task
   * that alice's message m1 produced.
   */
  lemma KeyReplaysForeignMessage<T>(task: T, known: Call, foreign: Call, ttl: real)
    requires known.request == Request("work", "t1", "", "m1", "alice", Null) && known.known && known.gate.Admitted?
    requires known.completes && known.clock.From(0.0)
    requires foreign.request == Request("work", "t2", "msg:alice:m1", "m9", "bob", Null) && foreign.known
    requires foreign.clock.From(known.clock.messageStored) && foreign.clock.keyLookup < known.clock.messageStored + ttl
    ensures var first := ServerState(map["t1" := task], StoreReply(State(map[], map[], None), known.request, known.clock, ttl, task),
                                     [Execution(known.request, known.clock, Some(task))]);
            && Transition(NoCalls(), known, ttl, Fresh(task), first)
            && (exists next :: Transition(first, foreign, ttl, Replayed(task), next))
            && !SharesKey(known.request, foreign.request) && !SharesMessage(known.request, foreign.request)
  {
    var q, f := known.request, foreign.request;
    assert q.MessageKey() == "msg:alice:m1" && f.MessageKey() == "msg:bob:m9";
    assert "msg:bob:m9"[4] != "msg:alice:m1"[4];
    var store: State<T> := State(map[], map[], None);
    var stored := StoreReply(store, q, known.clock, ttl, task);
    assert stored == State(map["msg:alice:m1" := task], map["msg:alice:m1" := known.clock.messageStored + ttl], None);
    var first := ServerState(map["t1" := task], stored, [Execution(q, known.clock, Some(task))]);
    var (a, miss) := MessageLookup(stored, f, foreign.clock);
    var (b, hit) := KeyLookup(a, f, foreign.clock);
    assert miss.None? && hit == Some(task);
    assert Transition(first, foreign, ttl, Replayed(task), first.(store := b));
  }

  /** An entry is write-once: a call cannot change what it stores before it expires. */
  lemma WriteOnce<T>(s: ServerState<T>, call: Call, ttl: real, reply: Reply<T>, s': ServerState<T>, now: real, key: string)
    requires Safe(s, now, ttl) && call.clock.From(now) && Transition(s, call, ttl, reply, s')
    requires key in s.store.values && s.store.expires[key] > call.clock.messageStored
    ensures HoldsSame(s.store, s'.store, key)
  {
    hide Got, Purged, Separated, Provenance, ExecutionCovered;
    if call.known {
      var q, c := call.request, call.clock;
      LookupsLeaveLive(s.store, q, c, now, key);
      var (a, hit1) := MessageLookup(s.store, q, c);
      var (b, hit2) := KeyLookup(a, q, c);
      if hit1.None? && hit2.None? {
        assert HoldsSame(s.store, StoreReply(b, q, c, ttl, if reply.Fresh? then reply.task else s.store.values[key]), key);
      }
    } else {
      assert key in s.store.expires.Keys;
    }
  }

  predicate HoldsSame<T(==)>(s: State<T>, p: State<T>, key: string) {
    && key in s.values && key in p.values && p.values[key] == s.values[key]
    && key in s.expires && key in p.expires && p.expires[key] == s.expires[key]
  }

  lemma LookupsLeaveLive<T>(s: State<T>, q: Request, c: Clock, now: real, key: string)
    requires s.table.None? && Agrees(s) && c.From(now)
    requires key in s.values && s.expires[key] > c.messageStored
    ensures var (a, hit1) := MessageLookup(s, q, c);
            var (b, hit2) := KeyLookup(a, q, c);
            && HoldsSame(s, a, key) && HoldsSame(s, b, key)
            && (hit1.None? && q.HasMessage() ==> key != q.MessageKey())
            && (hit2.None? && q.HasKey() ==> key != q.idempotencyKey)
  {
    hide Got;
    var (a, hit1) := MessageLookup(s, q, c);
    if q.HasMessage() {
      LiveEntryStays(s, q.MessageKey(), c.messageLookup, key);
    }
    if q.HasKey() {
      LiveEntryStays(a, q.idempotencyKey, c.keyLookup, key);
    }
  }

  /** A lookup leaves a live entry alone; a miss means the looked-up key is another one. */
  lemma LiveEntryStays<T>(s: State<T>, lookup: string, at: real, key: string)
    requires s.table.None? && Agrees(s) && key in s.values && s.expires[key] > at
    ensures var (p, hit) := Got(s, lookup, at, at);
            && p.table.None? && Agrees(p)
            && HoldsSame(s, p, key)
            && (hit.None? ==> key != lookup)
  {
    PurgeAgrees(s, at);
  }
}
