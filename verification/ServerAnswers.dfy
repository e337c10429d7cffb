/**
 * What every call of `handle_message` answers, in terms of the entries that the store holds
 * before it: which lookup wins, what a miss leads to, and what is stored in the end.
 */
module ServerAnswers {
  import opened Wrappers
  import opened Negotiation
  import opened Idempotency
  import opened Server

  /** The value stored under `key`, if its deadline is after `at`. */
  function Held<T>(s: State<T>, key: string, at: real): Option<T> {
    if key in s.values && key in s.expires && s.expires[key] > at then Some(s.values[key]) else None
  }

  lemma GotHeld<T>(s: State<T>, key: string, at: real)
    requires s.table.None? && Agrees(s)
    ensures Got(s, key, at, at).1 == Held(s, key, at)
    ensures forall k, later | later >= at :: Held(Got(s, key, at, at).0, k, later) == Held(s, k, later)
    ensures Got(s, key, at, at).0.table.None? && Agrees(Got(s, key, at, at).0)
  {
    PurgeAgrees(s, at);
  }

  /** The reply under the message key comes first, then the one under the idempotency key. */
  ghost function Cached<T>(s: State<T>, q: Request, c: Clock): Option<T> {
    if q.sender != "" && q.messageId != "" && Held(s, "msg:" + q.sender + ":" + q.messageId, c.messageLookup).Some?
    then Held(s, "msg:" + q.sender + ":" + q.messageId, c.messageLookup)
    else if q.idempotencyKey != "" then Held(s, q.idempotencyKey, c.keyLookup)
    else None
  }

  lemma LookupsAreCached<T>(s: State<T>, q: Request, c: Clock, now: real)
    requires s.table.None? && Agrees(s) && c.From(now)
    ensures var (a, hit1) := MessageLookup(s, q, c);
            var (b, hit2) := KeyLookup(a, q, c);
            && Cached(s, q, c) == (if hit1.Some? then hit1 else hit2)
            && (forall k :: Held(b, k, c.keyLookup) == Held(s, k, c.keyLookup))
  {
    hide Got, Held;
    var a := MessageLookup(s, q, c).0;
    if q.HasMessage() {
      GotHeld(s, q.MessageKey(), c.messageLookup);
    }
    if q.HasKey() {
      GotHeld(a, q.idempotencyKey, c.keyLookup);
    }
  }

  /**
   * A call for a known capability replays what is cached for it, and otherwise runs the
   * handler exactly when its contract is admitted. A task that the handler completed is then
   * stored under both keys of the request; nothing else is stored.
   */
  lemma CallAnswers<T>(s: ServerState<T>, call: Call, ttl: real, reply: Reply<T>, s': ServerState<T>, now: real)
    requires Safe(s, now, ttl) && call.clock.From(now) && Transition(s, call, ttl, reply, s') && call.known
    ensures var cached := Cached(s.store, call.request, call.clock);
            && (reply.Replayed? <==> cached.Some?)
            && (cached.Some? ==> reply == Replayed(cached.value) && s'.tasks == s.tasks && s'.log == s.log)
            && (cached.None? && call.gate.Admitted? ==>
                  (|s'.log| == |s.log| + 1 && s'.log[..|s.log|] == s.log && s'.log[|s.log|].request == call.request))
            && (cached.None? && !call.gate.Admitted? ==> s'.log == s.log)
            && (reply == Exception <==>
                cached.None? && (call.gate.GateRaised? || (call.gate.Admitted? && !call.completes)))
            && (reply == Exception ==> s'.tasks == s.tasks)
            && (reply.Fresh? ==> s'.tasks == s.tasks[call.request.taskId := reply.task])
  {
    hide Safe, StoreReply;
    SafeStore(s, now, ttl);
    LookupsAreCached(s.store, call.request, call.clock, now);
    hide Cached, MessageLookup, KeyLookup;
  }

  lemma SafeStore<T>(s: ServerState<T>, now: real, ttl: real)
    requires Safe(s, now, ttl)
    ensures s.store.table.None? && Agrees(s.store)
  {
  }

  /** What the call leaves in the store, when it is read at `at` after the call. */
  lemma CallStores<T>(s: ServerState<T>, call: Call, ttl: real, reply: Reply<T>, s': ServerState<T>, now: real,
                      key: string, at: real)
    requires Safe(s, now, ttl) && call.clock.From(now) && Transition(s, call, ttl, reply, s') && call.known
    requires at >= call.clock.messageStored
    ensures var q, c := call.request, call.clock;
            var forMessage := q.sender != "" && q.messageId != "" && key == "msg:" + q.sender + ":" + q.messageId;
            var forKey := q.idempotencyKey != "" && key == q.idempotencyKey;
            Held(s'.store, key, at) ==
            if reply.Fresh? && |s'.log| > |s.log| && forMessage then
              (if at < c.messageStored + ttl then Some(reply.task) else None)
            else if reply.Fresh? && |s'.log| > |s.log| && forKey then
              (if at < c.keyStored + ttl then Some(reply.task) else None)
            else Held(s.store, key, at)
  {
    hide Safe, StoreReply;
    var q, c := call.request, call.clock;
    SafeStore(s, now, ttl);
    LookupsHold(s.store, q, c, now, key, at);
    var (a, hit1) := MessageLookup(s.store, q, c);
    var (b, hit2) := KeyLookup(a, q, c);
    if reply.Fresh? {
      StoredHolds(b, q, c, ttl, reply.task, key, at);
    }
    hide MessageLookup, KeyLookup, Held;
  }

  lemma LookupsHold<T>(s: State<T>, q: Request, c: Clock, now: real, key: string, at: real)
    requires s.table.None? && Agrees(s) && c.From(now) && at >= c.keyLookup
    ensures var (a, hit1) := MessageLookup(s, q, c);
            var (b, hit2) := KeyLookup(a, q, c);
            Held(a, key, at) == Held(s, key, at) && Held(b, key, at) == Held(s, key, at)
  {
    hide Got, Held;
    var a := MessageLookup(s, q, c).0;
    if q.HasMessage() {
      GotHeld(s, q.MessageKey(), c.messageLookup);
    }
    if q.HasKey() {
      GotHeld(a, q.idempotencyKey, c.keyLookup);
    }
  }

  lemma StoredHolds<T>(s: State<T>, q: Request, c: Clock, ttl: real, task: T, key: string, at: real)
    ensures Held(StoreReply(s, q, c, ttl, task), key, at) ==
            if q.HasMessage() && key == q.MessageKey() then (if at < c.messageStored + ttl then Some(task) else None)
            else if q.HasKey() && key == q.idempotencyKey then (if at < c.keyStored + ttl then Some(task) else None)
            else Held(s, key, at)
  {
  }
}
