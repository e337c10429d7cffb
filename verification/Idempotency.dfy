/**
 * `IdempotencyStore`: a TTL cache in memory, optionally backed by a SQLite table. The table
 * is a map from key to (value, expiry); the JSON text of a row is read back as the value
 * that was written, so stored values must not be mutated while a table is in use.
 */
module Idempotency {
  import opened Wrappers

  datatype Entry<T> = Entry(value: T, expires: real)

  /** The whole state of a store: the two memory maps and, with a path, the table. */
  datatype State<T> = State(values: map<string, T>, expires: map<string, real>, table: Option<map<string, Entry<T>>>)

  function Alive(expires: map<string, real>, now: real): set<string> {
    set k | k in expires && expires[k] > now
  }

  function Dead(expires: map<string, real>, now: real): set<string> {
    set k | k in expires && expires[k] <= now
  }

  function LiveRows<T>(rows: map<string, Entry<T>>, now: real): map<string, Entry<T>> {
    map k | k in rows && rows[k].expires > now :: rows[k]
  }

  /** Drops what has expired; a value without an expiry stays. */
  function Purged<T>(s: State<T>, now: real): State<T> {
    State(
      s.values - Dead(s.expires, now),
      s.expires - Dead(s.expires, now),
      match s.table case None => None case Some(rows) => Some(LiveRows(rows, now)))
  }

  /** `get`: the purge reads the clock at `now`, the check of a row reads it at `later`. */
  function Got<T>(s: State<T>, key: string, now: real, later: real): (State<T>, Option<T>) {
    var p := Purged(s, now);
    if key in p.values then (p, Some(p.values[key]))
    else
      match p.table
      case None => (p, None)
      case Some(rows) =>
        if key !in rows || rows[key].expires <= later then (p, None)
        else (p.(values := p.values[key := rows[key].value]), Some(rows[key].value))
  }

  function Written<T>(s: State<T>, key: string, value: T, expires: real): State<T> {
    State(
      s.values[key := value],
      s.expires[key := expires],
      match s.table case None => None case Some(rows) => Some(rows[key := Entry(value, expires)]))
  }

  /** A new process on the same path: empty memory, the table as it was. */
  function Restarted<T>(s: State<T>): State<T> {
    State(map[], map[], s.table)
  }

  function Empty<T>(persistent: bool): State<T> {
    State(map[], map[], if persistent then Some(map[]) else None)
  }

  lemma RemovalStep<V>(m: map<string, V>, dead: set<string>, todo: set<string>, key: string)
    requires todo <= dead && key in todo
    ensures m - (dead - todo) - {key} == m - (dead - (todo - {key}))
  {
    assert (dead - todo) + {key} == dead - (todo - {key});
  }

  class IdempotencyStore<T> {
    var values: map<string, T>
    var expires: map<string, real>
    var rows: map<string, Entry<T>>
    const persistent: bool
    const ttl: real

    constructor (persistent: bool, rows: map<string, Entry<T>>, ttl: real)
      ensures this.persistent == persistent && this.ttl == ttl
      ensures Current() == State(map[], map[], if persistent then Some(rows) else None)
    {
      this.values, this.expires, this.rows := map[], map[], rows;
      this.persistent, this.ttl := persistent, ttl;
    }

    function Current(): State<T>
      reads this
    {
      State(values, expires, if persistent then Some(rows) else None)
    }

    method Purge(now: real)
      modifies this
      ensures Current() == Purged(old(Current()), now)
    {
      var dead := Dead(expires, now);
      var todo := dead;
      while todo != {}
        invariant todo <= dead && dead == Dead(old(expires), now)
        invariant values == old(values) - (dead - todo)
        invariant expires == old(expires) - (dead - todo)
        invariant rows == old(rows)
        decreases |todo|
      {
        var key :| key in todo;
        RemovalStep(old(values), dead, todo, key);
        RemovalStep(old(expires), dead, todo, key);
        values := values - {key};
        expires := expires - {key};
        todo := todo - {key};
      }
      assert dead - todo == dead;
      if persistent {
        rows := LiveRows(rows, now);
      }
    }

    method Get(key: string, now: real, later: real) returns (r: Option<T>)
      modifies this
      ensures (Current(), r) == Got(old(Current()), key, now, later)
    {
      Purge(now);
      if key in values {
        return Some(values[key]);
      }
      if !persistent {
        return None;
      }
      if key !in rows || rows[key].expires <= later {
        return None;
      }
      values := values[key := rows[key].value];
      return Some(rows[key].value);
    }

    method Put(key: string, value: T, now: real)
      modifies this
      ensures Current() == Written(old(Current()), key, value, now + ttl)
    {
      var deadline := now + ttl;
      values := values[key := value];
      expires := expires[key := deadline];
      if persistent {
        rows := rows[key := Entry(value, deadline)];
      }
    }

    /**
     * `run`: `computed` is what `fn` would return; `called` tells whether it was called. A
     * stored value that is Python's None reads as a miss.
     */
    method Run(key: string, computed: T, isNone: T -> bool, now: real, later: real, done: real)
      returns (value: T, called: bool)
      modifies this
      ensures var (s, hit) := Got(old(Current()), key, now, later);
              && called == (hit.None? || isNone(hit.value))
              && value == (if called then computed else hit.value)
              && Current() == if called then Written(s, key, computed, done + ttl) else s
    {
      var hit := Get(key, now, later);
      if hit.Some? && !isNone(hit.value) {
        return hit.value, false;
      }
      Put(key, computed, done);
      return computed, true;
    }
  }

  // --------------------------------------------- the reference: one TTL map

  /** A plain map with expiry: the last entry put under each key, never purged. */
  type History<T> = map<string, Entry<T>>

  function Lookup<T>(h: History<T>, key: string, now: real): Option<T> {
    if key in h && h[key].expires > now then Some(h[key].value) else None
  }

  /**
   * The store holds nothing but last entries, and has lost none that is still alive at
   * `clock`. A value in memory without an expiry is one that `get` reloaded from the table.
   */
  ghost predicate Refines<T>(s: State<T>, h: History<T>, clock: real) {
    && (forall k | k in s.values :: k in h && s.values[k] == h[k].value)
    && (forall k | k in s.expires :: k in s.values && s.expires[k] == h[k].expires)
    && (s.table.Some? ==> forall k | k in s.table.value :: k in h && s.table.value[k] == h[k])
    && (forall k | k in h && h[k].expires > clock ::
          if s.table.Some? then k in s.table.value else k in s.expires)
  }

  /** A reloaded key whose deadline has passed: the purge does not see it. */
  predicate Overdue<T>(s: State<T>, h: History<T>, key: string, now: real) {
    key in s.values && key !in s.expires && key in h && h[key].expires <= now
  }

  lemma EmptyRefines<T>(persistent: bool, clock: real)
    ensures Refines(Empty<T>(persistent), map[], clock)
  {
  }

  lemma PurgeKeeps<T>(s: State<T>, h: History<T>, clock: real, now: real)
    requires Refines(s, h, clock) && clock <= now
    ensures Refines(Purged(s, now), h, now)
    ensures forall k | k in h && k !in Purged(s, now).values ::
              Lookup(h, k, now).Some? <==> s.table.Some? && k in Purged(s, now).table.value
    ensures forall k | k in Purged(s, now).expires :: h[k].expires > now
  {
  }

  /**
   * `get` answers like the plain TTL map, at the clock reading of the branch it took,
   * exactly when the key is not overdue in memory.
   */
  lemma GetRefines<T>(s: State<T>, h: History<T>, clock: real, key: string, now: real, later: real)
    requires Refines(s, h, clock) && clock <= now <= later
    ensures Refines(Got(s, key, now, later).0, h, later)
    ensures var r := Got(s, key, now, later).1;
            var at := if key in Purged(s, now).values then now else later;
            r == Lookup(h, key, at) <==> !Overdue(s, h, key, now)
  {
    PurgeKeeps(s, h, clock, now);
  }

  lemma PutRefines<T>(s: State<T>, h: History<T>, clock: real, key: string, value: T, now: real, deadline: real)
    requires Refines(s, h, clock) && clock <= now
    ensures Refines(Written(s, key, value, deadline), h[key := Entry(value, deadline)], now)
  {
  }

  /** A restart on the same path loses nothing, and the first read of any key is right. */
  lemma RestartRefines<T>(s: State<T>, h: History<T>, clock: real, key: string, now: real, later: real)
    requires Refines(s, h, clock) && clock <= now <= later && s.table.Some?
    ensures Refines(Restarted(s), h, clock)
    ensures Got(Restarted(s), key, now, later).1 == Lookup(h, key, later)
  {
    GetRefines(Restarted(s), h, clock, key, now, later);
  }

  /** Memory and table hold the same keys, values and deadlines. */
  ghost predicate Agrees<T>(s: State<T>) {
    && s.values.Keys == s.expires.Keys
    && (s.table.Some? ==>
          && s.table.value.Keys == s.values.Keys
          && forall k | k in s.values :: s.table.value[k] == Entry(s.values[k], s.expires[k]))
  }

  lemma PurgeAgrees<T>(s: State<T>, now: real)
    requires Agrees(s)
    ensures Agrees(Purged(s, now))
  {
    var p := Purged(s, now);
    assert p.values.Keys == p.expires.Keys;
    if s.table.Some? {
      assert p.table.value.Keys == p.values.Keys;
    }
  }

  /** Without a restart memory and table agree key by key after every operation. */
  lemma AgreementKept<T>(s: State<T>, key: string, value: T, now: real, later: real, deadline: real)
    requires Agrees(s)
    ensures Agrees(Purged(s, now)) && Agrees(Got(s, key, now, later).0) && Agrees(Written(s, key, value, deadline))
  {
    PurgeAgrees(s, now);
    assert Written(s, key, value, deadline).values.Keys == s.values.Keys + {key};
  }

  /** So, without a restart, no key is ever overdue and `get` is exactly a TTL lookup. */
  lemma AgreeingGet<T>(s: State<T>, h: History<T>, clock: real, key: string, now: real, later: real)
    requires Refines(s, h, clock) && Agrees(s) && clock <= now <= later
    ensures Got(s, key, now, later).1 == Lookup(h, key, now)
  {
    GetRefines(s, h, clock, key, now, later);
    PurgeKeeps(s, h, clock, now);
    PurgeAgrees(s, now);
  }

  /**
   * After a restart a reloaded key never expires: put at 0 with a TTL of 10, reloaded at 5,
   * it is still served at 20, when the plain TTL map has nothing.
   */
  lemma ReloadedKeyOutlivesItsTtl()
    ensures var s := Restarted(Written(Empty<int>(true), "k", 7, 10.0));
            var reloaded := Got(s, "k", 5.0, 5.0).0;
            && Overdue(reloaded, map["k" := Entry(7, 10.0)], "k", 20.0)
            && Got(reloaded, "k", 20.0, 20.0).1 == Some(7)
            && Lookup(map["k" := Entry(7, 10.0)], "k", 20.0) == None
  {
  }

  // ------------------------------------------------------------ whole runs

  datatype Op<T> =
    | PutOp(key: string, value: T, now: real, deadline: real)
    | GetOp(key: string, now: real, later: real)
    | RestartOp

  function Apply<T>(s: State<T>, op: Op<T>): State<T> {
    match op
    case PutOp(key, value, _, deadline) => Written(s, key, value, deadline)
    case GetOp(key, now, later) => Got(s, key, now, later).0
    case RestartOp => Restarted(s)
  }

  function Record<T>(h: History<T>, op: Op<T>): History<T> {
    match op
    case PutOp(key, value, _, deadline) => h[key := Entry(value, deadline)]
    case _ => h
  }

  /** The clock after `op`, when its readings continue from `clock`. */
  function Tick<T>(clock: real, op: Op<T>): Option<real> {
    match op
    case PutOp(_, _, now, _) => if clock <= now then Some(now) else None
    case GetOp(_, now, later) => if clock <= now <= later then Some(later) else None
    case RestartOp => Some(clock)
  }

  /** State, history and clock after a run; None when the clock ran backwards. */
  function RunStore<T>(s: State<T>, h: History<T>, clock: real, ops: seq<Op<T>>): Option<(State<T>, History<T>, real)>
    decreases |ops|
  {
    if ops == [] then Some((s, h, clock))
    else
      match Tick(clock, ops[0])
      case None => None
      case Some(next) => RunStore(Apply(s, ops[0]), Record(h, ops[0]), next, ops[1..])
  }

  /**
   * Any run of puts, gets and restarts of a store with a table keeps the store a refinement
   * of the TTL map; without restarts memory and table also agree key by key.
   */
  lemma {:induction false} RunRefines<T>(s: State<T>, h: History<T>, clock: real, ops: seq<Op<T>>)
    requires Refines(s, h, clock)
    requires s.table.Some? || RestartOp !in ops
    ensures var r := RunStore(s, h, clock, ops);
            r.Some? ==>
              && Refines(r.value.0, r.value.1, r.value.2)
              && (Agrees(s) && RestartOp !in ops ==> Agrees(r.value.0))
    decreases |ops|
  {
    if ops != [] && Tick(clock, ops[0]).Some? {
      match ops[0] {
        case PutOp(key, value, now, deadline) =>
          PutRefines(s, h, clock, key, value, now, deadline);
          if Agrees(s) {
            AgreementKept(s, key, value, now, now, deadline);
          }
        case GetOp(key, now, later) =>
          GetRefines(s, h, clock, key, now, later);
          if Agrees(s) {
            PurgeAgrees(s, now);
          }
        case RestartOp =>
      }
      assert ops[0] in ops;
      assert forall op | op in ops[1..] :: op in ops;
      RunRefines(Apply(s, ops[0]), Record(h, ops[0]), Tick(clock, ops[0]).value, ops[1..]);
    }
  }

  /** From a new store on, every run of one instance, or of several over one table, refines the map. */
  lemma NewStoreRefines<T>(persistent: bool, start: real, ops: seq<Op<T>>)
    requires persistent || RestartOp !in ops
    ensures var r := RunStore(Empty<T>(persistent), map[], start, ops);
            r.Some? ==>
              && Refines(r.value.0, r.value.1, r.value.2)
              && (RestartOp !in ops ==> Agrees(r.value.0))
  {
    EmptyRefines<T>(persistent, start);
    RunRefines(Empty<T>(persistent), map[], start, ops);
  }
}
