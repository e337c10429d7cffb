/**
 * The reference seed: a directory of leases that agents join, renew and leave, and that
 * discovery filters, sorts and truncates. Clock readings are inputs.
 */
module Seed {
  import opened Wrappers
  import opened Text
  import opened Json
  import opened JsonText
  import opened Crypto
  import opened Python
  import opened Versions

  /** A `CapabilityDescriptor`; the id of a dict is whatever stands there. */
  datatype Capability = Capability(id: Value, version: string, inputSchema: Value, outputSchema: Value, sideEffects: string)

  /** The fields of an `Entry` at one moment. */
  datatype EntryData = EntryData(
    agentId: string, publicKey: string, cardUrl: string, endpoint: string, capabilities: seq<Capability>,
    availability: string, leaseExpiresAt: real, lastSeen: real)

  type Dir = map<string, EntryData>

  const AVAILABLE: string := "AVAILABLE"
  const OFFLINE: string := "OFFLINE"

  predicate Verified(publicKey: string, signed: seq<Member>, signature: string, ff: FloatFormat) {
    VerifyObject(publicKey, signed, signature, ff) == Success(true)
  }

  /** `max(30, min(wanted, 7200))`. */
  function GrantedLease(wanted: int): (lease: int)
    ensures 30 <= lease <= 7200
    ensures 30 <= wanted <= 7200 ==> lease == wanted
  {
    var capped := if wanted < 7200 then wanted else 7200;
    if capped > 30 then capped else 30
  }

  /** `int(requested or 1800)`; None: the code raises. */
  function WantedLease(requested: Value): Option<int> {
    if Truthy(requested) then IntOfValue(requested) else Some(1800)
  }

  const RENEWED_LEASE: real := 1800.0

  // ---------------------------------------------------- what a body says

  /** `str(body.get(key) or "")`. */
  function TextOf(w: World, body: seq<Member>, key: string): string {
    StrOf(w.str, OrElse(At(body, key), Str("")))
  }

  function AgentId(w: World, body: seq<Member>): string {
    TextOf(w, body, "agent_id")
  }

  function PublicKeyOf(w: World, body: seq<Member>): string {
    TextOf(w, body, "public_key")
  }

  function SignatureOf(w: World, body: seq<Member>): string {
    TextOf(w, body, "signature")
  }

  /** `CapabilityDescriptor.from_value`; None: it raises. */
  function ReadCapability(w: World, v: Value): Option<Capability> {
    match v
    case Str(_) => Some(Capability(v, "1.0.0", Obj([]), Obj([]), "NONE"))
    case Obj(ms) =>
      (match (Get(ms, "id"), DictOf(At(ms, "input_schema")), DictOf(At(ms, "output_schema")))
       case (Some(id), Some(input), Some(output)) =>
         Some(Capability(id, StrOf(w.str, OrElse(At(ms, "version"), Str("1.0.0"))), input, output,
                         StrOf(w.str, OrElse(At(ms, "side_effects"), Str("NONE")))))
       case _ => None)
    case _ => None
  }

  function ReadCapabilities(w: World, items: seq<Value>): (r: Option<seq<Capability>>)
    ensures r.Some? <==> forall i | 0 <= i < |items| :: ReadCapability(w, items[i]).Some?
    ensures r.Some? ==> |r.value| == |items| && forall i | 0 <= i < |items| :: ReadCapability(w, items[i]) == Some(r.value[i])
  {
    if items == [] then Some([])
    else
      assert items == [items[0]] + items[1..];
      match (ReadCapability(w, items[0]), ReadCapabilities(w, items[1..]))
      case (Some(cap), Some(rest)) => Some([cap] + rest)
      case _ => None
  }

  /** `str((body.get("availability") or {}).get("status") or "AVAILABLE")`; None: it raises. */
  function StatusOf(w: World, body: seq<Member>): Option<string> {
    match DictOf(At(body, "availability"))
    case Some(Obj(ms)) => Some(StrOf(w.str, OrElse(At(ms, "status"), Str(AVAILABLE))))
    case _ => None
  }

  /** What a join needs besides the identity of the agent. */
  datatype Announcement = Announcement(lease: int, capabilities: seq<Capability>, status: string)

  /** None: a lease, a capability or an availability that raises. */
  function ReadAnnouncement(w: World, body: seq<Member>): Option<Announcement> {
    match (WantedLease(At(body, "requested_lease_seconds")), Items(At(body, "capabilities")), StatusOf(w, body))
    case (Some(wanted), Some(items), Some(status)) =>
      (match ReadCapabilities(w, items)
       case Some(caps) => Some(Announcement(GrantedLease(wanted), caps, status))
       case None => None)
    case _ => None
  }

  function JoinEntry(w: World, body: seq<Member>, a: Announcement, now: real): EntryData {
    EntryData(AgentId(w, body), PublicKeyOf(w, body), TextOf(w, body, "agent_card_url"), TextOf(w, body, "endpoint"),
              a.capabilities, a.status, now + a.lease as real, now)
  }

  /** The body names an agent, a key and a signature. */
  predicate Named(w: World, body: seq<Member>) {
    AgentId(w, body) != "" && PublicKeyOf(w, body) != "" && SignatureOf(w, body) != ""
  }

  /** The signature in the body is by the key in the body, over the rest of the body. */
  predicate SelfSigned(w: World, body: seq<Member>) {
    Named(w, body) && Verified(PublicKeyOf(w, body), body, SignatureOf(w, body), w.ff)
  }

  predicate JoinAccepted(dir: Dir, body: seq<Member>, w: World) {
    && SelfSigned(w, body)
    && ReadAnnouncement(w, body).Some?
    && (AgentId(w, body) in dir ==> dir[AgentId(w, body)].publicKey == PublicKeyOf(w, body))
  }

  /** The signed dict has no canonical form, so `verify_object` raises. */
  predicate Unsignable(signed: seq<Member>, ff: FloatFormat) {
    SignedBytes(signed, ff).Failure?
  }

  lemma SignableVerifies(publicKey: string, signed: seq<Member>, signature: string, ff: FloatFormat)
    ensures Verified(publicKey, signed, signature, ff) ==> !Unsignable(signed, ff)
  {
  }

  /** A join raises on a body with a NaN, and, once its signature holds, on an announcement that cannot be read. */
  predicate JoinRaises(body: seq<Member>, w: World) {
    Named(w, body) && (Unsignable(body, w.ff) || (SelfSigned(w, body) && ReadAnnouncement(w, body).None?))
  }

  /** Renew and leave check the signature against the key the entry already has. */
  predicate OwnerSigned(dir: Dir, body: seq<Member>, w: World) {
    AgentId(w, body) in dir && Verified(dir[AgentId(w, body)].publicKey, body, SignatureOf(w, body), w.ff)
  }

  /** A message about the agent that its body names. */
  datatype Step = Join(body: seq<Member>, now: real) | Renew(body: seq<Member>, now: real) | Leave(body: seq<Member>, now: real)

  predicate Accepted(dir: Dir, step: Step, w: World) {
    if step.Join? then JoinAccepted(dir, step.body, w) else OwnerSigned(dir, step.body, w)
  }

  function Subject(step: Step, w: World): string {
    AgentId(w, step.body)
  }

  function Apply(dir: Dir, step: Step, w: World): Dir {
    if !Accepted(dir, step, w) then dir
    else
      var id := Subject(step, w);
      match step
      case Join(body, now) => dir[id := JoinEntry(w, body, ReadAnnouncement(w, body).value, now)]
      case Renew(_, now) => dir[id := dir[id].(lastSeen := now, leaseExpiresAt := now + RENEWED_LEASE)]
      case Leave(_, now) => dir[id := dir[id].(availability := OFFLINE, leaseExpiresAt := now)]
  }

  function ApplyAll(dir: Dir, steps: seq<Step>, w: World): Dir
    decreases |steps|
  {
    if steps == [] then dir else ApplyAll(Apply(dir, steps[0], w), steps[1..], w)
  }

  // -------------------------------------------------------------- discovery

  datatype Row = Row(entry: EntryData, capability: Capability)

  /** The agent's first matching descriptor; the outer None is a ValueError from the constraint. */
  function FirstMatch(caps: seq<Capability>, id: string, version: Option<string>): Option<Option<Capability>> {
    if caps == [] then Some(None)
    else if caps[0].id != Str(id) then FirstMatch(caps[1..], id, version)
    else
      match VersionMatches(caps[0].version, version)
      case None => None
      case Some(ok) => if ok then Some(Some(caps[0])) else FirstMatch(caps[1..], id, version)
  }

  predicate Listed(e: EntryData, now: real) {
    e.leaseExpiresAt > now && e.availability == AVAILABLE
  }

  /** The row of one entry: Some(None) when it has none, None when the constraint raises on it. */
  function RowOf(e: EntryData, id: string, version: Option<string>, now: real): Option<Option<Row>> {
    if !Listed(e, now) then Some(None)
    else
      match FirstMatch(e.capabilities, id, version)
      case None => None
      case Some(None) => Some(None)
      case Some(Some(cap)) => Some(Some(Row(e, cap)))
  }

  function Collect(dir: Dir, order: seq<string>, id: string, version: Option<string>, now: real): Option<seq<Row>>
    requires forall a | a in order :: a in dir
  {
    if order == [] then Some([])
    else
      match (Collect(dir, order[..|order| - 1], id, version, now), RowOf(dir[order[|order| - 1]], id, version, now))
      case (Some(rows), Some(None)) => Some(rows)
      case (Some(rows), Some(Some(row))) => Some(rows + [row])
      case _ => None
  }

  /** The sort key `(-last_seen, agent_id)`, strictly. */
  predicate Before(a: Row, b: Row) {
    a.entry.lastSeen > b.entry.lastSeen
    || (a.entry.lastSeen == b.entry.lastSeen && Less(a.entry.agentId, b.entry.agentId))
  }

  function InsertRow(r: Row, rows: seq<Row>): seq<Row> {
    if rows == [] || !Before(rows[0], r) then [r] + rows else [rows[0]] + InsertRow(r, rows[1..])
  }

  function SortRows(rows: seq<Row>): seq<Row> {
    if rows == [] then [] else InsertRow(rows[0], SortRows(rows[1..]))
  }

  /** `rows[:limit]`. */
  function Slice(rows: seq<Row>, limit: int): seq<Row> {
    if limit >= |rows| then rows
    else if limit >= 0 then rows[..limit]
    else if limit > -|rows| then rows[..|rows| + limit]
    else []
  }

  function Discovered(dir: Dir, order: seq<string>, id: string, version: Option<string>, limit: int, now: real): Option<seq<Row>>
    requires forall a | a in order :: a in dir
  {
    match Collect(dir, order, id, version, now)
    case None => None
    case Some(rows) => Some(Slice(SortRows(rows), limit))
  }

  // -------------------------------------------------------------- the class

  class Entry {
    const agentId: string
    const publicKey: string
    const cardUrl: string
    const endpoint: string
    const capabilities: seq<Capability>
    var availability: string
    var leaseExpiresAt: real
    var lastSeen: real

    constructor (d: EntryData)
      ensures Data() == d
    {
      agentId, publicKey, cardUrl, endpoint := d.agentId, d.publicKey, d.cardUrl, d.endpoint;
      capabilities, availability := d.capabilities, d.availability;
      leaseExpiresAt, lastSeen := d.leaseExpiresAt, d.lastSeen;
    }

    function Data(): EntryData
      reads this
    {
      EntryData(agentId, publicKey, cardUrl, endpoint, capabilities, availability, leaseExpiresAt, lastSeen)
    }
  }

  /** A refusal is an answer; an exception is not. None of the two changes the directory. */
  datatype Answer = Done(leaseExpiresAt: real) | Refused | Raised

  function Objects(agents: map<string, Entry>): set<Entry> {
    set id | id in agents :: agents[id]
  }

  function Snapshot(agents: map<string, Entry>): Dir
    reads Objects(agents)
  {
    map id | id in agents :: agents[id].Data()
  }

  lemma SnapshotPut(agents: map<string, Entry>, entry: Entry)
    ensures Snapshot(agents[entry.agentId := entry]) == Snapshot(agents)[entry.agentId := entry.Data()]
  {
  }

  /** `Handlers` with its `ReferenceDirectory`: entries by id, and the ids in insertion order. */
  class Handlers {
    const w: World
    var agents: map<string, Entry>
    var order: seq<string>

    constructor (w: World)
      ensures Valid() && Current() == map[] && this.w == w
    {
      this.w, agents, order := w, map[], [];
    }

    ghost predicate Valid()
      reads this
    {
      && (forall a, b | a in agents && b in agents && a != b :: agents[a] != agents[b])
      && (forall a :: a in order <==> a in agents)
      && (forall i, j | 0 <= i < j < |order| :: order[i] != order[j])
    }

    function Entries(): set<Entry>
      reads this
    {
      Objects(agents)
    }

    function Current(): Dir
      reads this, Entries()
    {
      Snapshot(agents)
    }

    /** `ReferenceDirectory.put`. */
    method Put(entry: Entry)
      requires Valid() && entry !in Entries()
      modifies this
      ensures Valid()
      ensures Current() == old(Current())[entry.agentId := entry.Data()]
      ensures order == if entry.agentId in old(agents) then old(order) else old(order) + [entry.agentId]
    {
      hide Snapshot;
      ghost var was, before := agents, Snapshot(agents);
      if entry.agentId !in agents {
        order := order + [entry.agentId];
      }
      agents := agents[entry.agentId := entry];
      assert Snapshot(was) == before;
      SnapshotPut(was, entry);
    }

    method HandleJoin(body: seq<Member>, now: real) returns (r: Answer)
      requires Valid()
      modifies this
      ensures Valid()
      ensures Current() == Apply(old(Current()), Join(body, now), w)
      ensures if JoinAccepted(old(Current()), body, w) then r == Done(now + ReadAnnouncement(w, body).value.lease as real)
              else r == if JoinRaises(body, w) then Raised else Refused
    {
      hide Verified, ReadAnnouncement, AgentId, PublicKeyOf, SignatureOf, Unsignable;
      var agentId, publicKey, signature := AgentId(w, body), PublicKeyOf(w, body), SignatureOf(w, body);
      if agentId == "" || publicKey == "" || signature == "" {
        return Refused;
      }
      SignableVerifies(publicKey, body, signature, w.ff);
      if Unsignable(body, w.ff) {
        return Raised;
      }
      if !Verified(publicKey, body, signature, w.ff) {
        return Refused;
      }
      var announced := ReadAnnouncement(w, body);
      if announced.None? {
        return Raised;
      }
      if agentId in agents && agents[agentId].publicKey != publicKey {
        return Refused;
      }
      var entry := new Entry(JoinEntry(w, body, announced.value, now));
      Put(entry);
      return Done(entry.leaseExpiresAt);
    }

    method HandleRenew(body: seq<Member>, now: real) returns (r: Answer)
      requires Valid()
      modifies Entries()
      ensures Valid()
      ensures Current() == Apply(old(Current()), Renew(body, now), w)
      ensures r == if OwnerSigned(old(Current()), body, w) then Done(now + RENEWED_LEASE)
                   else if AgentId(w, body) in old(agents) && Unsignable(body, w.ff) then Raised else Refused
    {
      hide Verified, Unsignable, AgentId, SignatureOf;
      var agentId, signature := AgentId(w, body), SignatureOf(w, body);
      if agentId in agents {
        SignableVerifies(agents[agentId].publicKey, body, signature, w.ff);
        if Unsignable(body, w.ff) {
          return Raised;
        }
      }
      if agentId !in agents || !Verified(agents[agentId].publicKey, body, signature, w.ff) {
        return Refused;
      }
      var entry := agents[agentId];
      entry.lastSeen := now;
      entry.leaseExpiresAt := entry.lastSeen + RENEWED_LEASE;
      return Done(entry.leaseExpiresAt);
    }

    method HandleLeave(body: seq<Member>, now: real) returns (r: Answer)
      requires Valid()
      modifies Entries()
      ensures Valid()
      ensures Current() == Apply(old(Current()), Leave(body, now), w)
      ensures r == if OwnerSigned(old(Current()), body, w) then Done(now)
                   else if AgentId(w, body) in old(agents) && Unsignable(body, w.ff) then Raised else Refused
    {
      hide Verified, Unsignable, AgentId, SignatureOf;
      var agentId, signature := AgentId(w, body), SignatureOf(w, body);
      if agentId in agents {
        SignableVerifies(agents[agentId].publicKey, body, signature, w.ff);
        if Unsignable(body, w.ff) {
          return Raised;
        }
      }
      if agentId !in agents || !Verified(agents[agentId].publicKey, body, signature, w.ff) {
        return Refused;
      }
      var entry := agents[agentId];
      entry.availability := OFFLINE;
      entry.leaseExpiresAt := now;
      return Done(now);
    }

    /** `ReferenceDirectory.discover`. */
    method Discover(capability: string, version: Option<string>, limit: int, now: real) returns (r: Option<seq<Row>>)
      requires Valid()
      ensures r == Discovered(Current(), order, capability, version, limit, now)
    {
      hide Collect, FirstMatch, SortRows, Slice, RowOf;
      ghost var dir := Current();
      var rows: seq<Row> := [];
      var i := 0;
      CollectNothing(dir, capability, version, now);
      assert order[..0] == [];
      while i < |order|
        invariant 0 <= i <= |order| && Current() == dir
        invariant Collect(dir, order[..i], capability, version, now) == Some(rows)
      {
        assert order[i] in agents;
        var entry := agents[order[i]];
        assert dir[order[i]] == entry.Data();
        CollectStep(dir, order, i, capability, version, now);
        if entry.leaseExpiresAt > now && entry.availability == AVAILABLE {
          var found := FindDescriptor(entry.capabilities, capability, version);
          assert Current() == dir;
          RowFromFound(entry.Data(), capability, version, now, found);
          if found.None? {
            PrefixRaises(dir, order, i + 1, capability, version, now);
            return None;
          }
          if found.value.Some? {
            rows := rows + [Row(entry.Data(), found.value.value)];
          }
        } else {
          UnlistedRow(entry.Data(), capability, version, now);
        }
        i := i + 1;
      }
      assert order[..|order|] == order;
      return Some(Slice(SortRows(rows), limit));
    }
  }

  lemma RowFromFound(e: EntryData, id: string, version: Option<string>, now: real, found: Option<Option<Capability>>)
    requires Listed(e, now) && found == FirstMatch(e.capabilities, id, version)
    ensures found.None? ==> RowOf(e, id, version, now).None?
    ensures found == Some(None) ==> RowOf(e, id, version, now) == Some(None)
    ensures found.Some? && found.value.Some? ==> RowOf(e, id, version, now) == Some(Some(Row(e, found.value.value)))
  {
  }

  lemma UnlistedRow(e: EntryData, id: string, version: Option<string>, now: real)
    requires !Listed(e, now)
    ensures RowOf(e, id, version, now) == Some(None)
  {
  }

  lemma CollectNothing(dir: Dir, id: string, version: Option<string>, now: real)
    ensures Collect(dir, [], id, version, now) == Some([])
  {
  }

  lemma CollectStep(dir: Dir, order: seq<string>, i: nat, id: string, version: Option<string>, now: real)
    requires i < |order| && forall a | a in order :: a in dir
    requires Collect(dir, order[..i], id, version, now).Some?
    ensures var rows := Collect(dir, order[..i], id, version, now).value;
            var next := Collect(dir, order[..i + 1], id, version, now);
            var row := RowOf(dir[order[i]], id, version, now);
            && (row.None? ==> next.None?)
            && (row == Some(None) ==> next == Some(rows))
            && (row.Some? && row.value.Some? ==> next == Some(rows + [row.value.value]))
  {
    assert order[..i + 1][..i] == order[..i];
  }

  /** The inner loop of `discover`, which stops at the first match. */
  method FindDescriptor(caps: seq<Capability>, id: string, version: Option<string>) returns (r: Option<Option<Capability>>)
    ensures r == FirstMatch(caps, id, version)
  {
    var i := 0;
    while i < |caps|
      invariant 0 <= i <= |caps|
      invariant FirstMatch(caps, id, version) == FirstMatch(caps[i..], id, version)
    {
      assert caps[i..][1..] == caps[i + 1..];
      if caps[i].id == Str(id) {
        var ok := VersionMatches(caps[i].version, version);
        if ok.None? {
          return None;
        }
        if ok.value {
          return Some(Some(caps[i]));
        }
      }
      i := i + 1;
    }
    return Some(None);
  }

  lemma {:induction false} PrefixRaises(dir: Dir, order: seq<string>, n: nat, id: string, version: Option<string>, now: real)
    requires n <= |order| && forall a | a in order :: a in dir
    requires Collect(dir, order[..n], id, version, now).None?
    ensures Collect(dir, order, id, version, now).None?
    decreases |order|
  {
    if n == |order| {
      assert order[..n] == order;
    } else {
      var front := order[..|order| - 1];
      assert front[..n] == order[..n];
      assert forall a | a in front :: a in order;
      PrefixRaises(dir, front, n, id, version, now);
    }
  }
}
