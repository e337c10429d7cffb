/**
 * What the seed writes down, entry by entry: who can change an entry, what a join, a renewal
 * and a leave leave behind, and in which order discovery lists the agents.
 */
module SeedAnswers {
  import opened Wrappers
  import opened Text
  import opened Json
  import opened JsonText
  import opened Crypto
  import opened Python
  import opened Versions
  import opened Seed
  import opened SeedProofs

  /** `str(body.get(key) or "")` for the texts and other values a body can hold. */
  lemma TextOfMeans(w: World, body: seq<Member>, key: string)
    ensures At(body, key).Str? ==> TextOf(w, body, key) == At(body, key).s
    ensures !Truthy(At(body, key)) ==> TextOf(w, body, key) == ""
    ensures Truthy(At(body, key)) && !At(body, key).Str? ==> TextOf(w, body, key) == w.str(At(body, key))
  {
  }

  /**
   * A step that changes the directory changes the entry its body names and no other, and its
   * body carries the signature over that body, by the key of the entry if there is one and
   * by the key in the body otherwise. A join also has to name that same key.
   */
  lemma OnlyTheOwnerActs(dir: Dir, step: Step, w: World)
    requires Apply(dir, step, w) != dir
    ensures var id := TextOf(w, step.body, "agent_id");
            var next := Apply(dir, step, w);
            var key := if id in dir then dir[id].publicKey else TextOf(w, step.body, "public_key");
            && SignObject(key, step.body, w.ff) == Success(TextOf(w, step.body, "signature"))
            && (step.Join? ==> id != "" && key != "" && key == TextOf(w, step.body, "public_key"))
            && (!step.Join? ==> id in dir)
            && id in next && next.Keys == dir.Keys + {id}
            && (forall other | other in dir && other != id :: next[other] == dir[other])
  {
    hide ReadAnnouncement, JoinEntry, TextOf;
  }

  /** A signed, named and readable join by an agent that is new, or keeps its key, is accepted; so is any signed renewal or leave. */
  lemma TheOwnerMayAct(dir: Dir, step: Step, w: World)
    ensures var id := TextOf(w, step.body, "agent_id");
            var key := TextOf(w, step.body, "public_key");
            var signature := TextOf(w, step.body, "signature");
            if step.Join? then
              Accepted(dir, step, w) <==>
              && id != "" && key != "" && signature != "" && SignObject(key, step.body, w.ff) == Success(signature)
              && ReadAnnouncement(w, step.body).Some? && (id in dir ==> dir[id].publicKey == key)
            else
              Accepted(dir, step, w) <==> id in dir && SignObject(dir[id].publicKey, step.body, w.ff) == Success(signature)
  {
    hide ReadAnnouncement, TextOf;
  }

  /** What an accepted join writes. */
  lemma JoinWrites(dir: Dir, body: seq<Member>, now: real, w: World)
    requires Accepted(dir, Join(body, now), w)
    ensures var id := TextOf(w, body, "agent_id");
            var next := Apply(dir, Join(body, now), w);
            id in next &&
            var e := next[id];
            && e.agentId == id && e.publicKey == TextOf(w, body, "public_key")
            && e.cardUrl == TextOf(w, body, "agent_card_url") && e.endpoint == TextOf(w, body, "endpoint")
            && e.lastSeen == now
            && LeaseAsked(At(body, "requested_lease_seconds"), e.leaseExpiresAt - now)
            && AvailabilitySays(w, At(body, "availability"), e.availability)
            && Items(At(body, "capabilities")).Some?
            && var items := Items(At(body, "capabilities")).value;
               |e.capabilities| == |items| && forall i | 0 <= i < |items| :: DescriptorSays(w, items[i], e.capabilities[i])
  {
    hide Verified, TextOf, Items;
    var a := ReadAnnouncement(w, body).value;
    LeaseIsAsked(At(body, "requested_lease_seconds"));
    StatusSays(w, body);
    var items := Items(At(body, "capabilities")).value;
    forall i | 0 <= i < |items|
      ensures DescriptorSays(w, items[i], a.capabilities[i])
    {
      assert ReadCapability(w, items[i]) == Some(a.capabilities[i]);
      DescriptorIsRead(w, items[i]);
    }
  }

  /** 1800 seconds when nothing is asked for; otherwise what is asked for, within 30 to 7200. */
  predicate LeaseAsked(requested: Value, lease: real) {
    if !Truthy(requested) then lease == 1800.0
    else
      match IntOfValue(requested)
      case None => false
      case Some(n) => if n < 30 then lease == 30.0 else if n > 7200 then lease == 7200.0 else lease == n as real
  }

  lemma LeaseIsAsked(requested: Value)
    ensures WantedLease(requested).Some? ==> LeaseAsked(requested, GrantedLease(WantedLease(requested).value) as real)
  {
    hide IntOfValue;
  }

  predicate AvailabilitySays(w: World, availability: Value, status: string) {
    if !Truthy(availability) then status == "AVAILABLE"
    else
      availability.Obj? &&
      status == (if Truthy(At(availability.members, "status")) then StrOf(w.str, At(availability.members, "status"))
                 else "AVAILABLE")
  }

  lemma StatusSays(w: World, body: seq<Member>)
    ensures StatusOf(w, body).Some? ==> AvailabilitySays(w, At(body, "availability"), StatusOf(w, body).value)
  {
    NothingHere();
    hide At;
  }

  lemma NothingHere()
    ensures At([], "status") == Null
  {
  }

  /** A capability given by its id alone, or as a dict. */
  predicate DescriptorSays(w: World, v: Value, cap: Capability) {
    match v
    case Str(_) =>
      cap.id == v && cap.version == "1.0.0" && cap.inputSchema == Obj([]) && cap.outputSchema == Obj([]) && cap.sideEffects == "NONE"
    case Obj(ms) =>
      && Get(ms, "id") == Some(cap.id)
      && cap.version == (if Truthy(At(ms, "version")) then StrOf(w.str, At(ms, "version")) else "1.0.0")
      && cap.inputSchema == (if Truthy(At(ms, "input_schema")) then At(ms, "input_schema") else Obj([]))
      && cap.outputSchema == (if Truthy(At(ms, "output_schema")) then At(ms, "output_schema") else Obj([]))
      && cap.sideEffects == (if Truthy(At(ms, "side_effects")) then StrOf(w.str, At(ms, "side_effects")) else "NONE")
    case _ => false
  }

  lemma DescriptorIsRead(w: World, v: Value)
    ensures ReadCapability(w, v).Some? ==> DescriptorSays(w, v, ReadCapability(w, v).value)
    ensures ReadCapability(w, v).Some? <==>
            v.Str? || (v.Obj? && Get(v.members, "id").Some?
                       && (!Truthy(At(v.members, "input_schema")) || At(v.members, "input_schema").Obj?)
                       && (!Truthy(At(v.members, "output_schema")) || At(v.members, "output_schema").Obj?))
  {
    hide At, Get;
  }

  /** A renewal moves the two times and a leave ends the lease; both keep everything else. */
  lemma RenewAndLeaveWrite(dir: Dir, step: Step, w: World)
    requires !step.Join? && Accepted(dir, step, w)
    ensures var id := TextOf(w, step.body, "agent_id");
            && id in dir && id in Apply(dir, step, w)
            && var e, f := dir[id], Apply(dir, step, w)[id];
               && f.agentId == e.agentId && f.publicKey == e.publicKey && f.cardUrl == e.cardUrl
               && f.endpoint == e.endpoint && f.capabilities == e.capabilities
               && (step.Renew? ==>
                     f.lastSeen == step.now && f.leaseExpiresAt == step.now + 1800.0 && f.availability == e.availability)
               && (step.Leave? ==>
                     f.lastSeen == e.lastSeen && f.leaseExpiresAt == step.now && f.availability == "OFFLINE")
  {
    hide Verified, TextOf;
  }

  // -------------------------------------------------------------- discovery

  /** An agent has a row exactly when its lease runs, it is available, and a descriptor of its own matches. */
  lemma RowMeans(e: EntryData, id: string, version: Option<string>, now: real, row: Row)
    ensures RowOf(e, id, version, now) == Some(Some(row)) <==>
            && e.leaseExpiresAt > now && e.availability == "AVAILABLE"
            && row.entry == e && FirstMatch(e.capabilities, id, version) == Some(Some(row.capability))
    ensures RowOf(e, id, version, now).None? <==>
            e.leaseExpiresAt > now && e.availability == "AVAILABLE" && FirstMatch(e.capabilities, id, version).None?
  {
    hide FirstMatch;
  }

  /** The agent seen last comes first; agents seen at one moment are listed by id. */
  lemma LatestFirst(dir: Dir, order: seq<string>, id: string, version: Option<string>, limit: int, now: real)
    requires Sound(dir) && Enumerates(dir, order) && limit >= 1
    requires Discovered(dir, order, id, version, limit, now).Some?
    ensures var found := Discovered(dir, order, id, version, limit, now).value;
            && (forall i, j | 0 <= i < j < |found| ::
                  && found[i].entry.lastSeen >= found[j].entry.lastSeen
                  && (found[i].entry.lastSeen == found[j].entry.lastSeen ==>
                        Less(found[i].entry.agentId, found[j].entry.agentId)))
            && (forall row, r | Qualifies(dir, row, id, version, now) && row !in found && r in found ::
                  && r.entry.lastSeen >= row.entry.lastSeen
                  && (r.entry.lastSeen == row.entry.lastSeen ==> Less(r.entry.agentId, row.entry.agentId)))
  {
    hide Discovered, Qualifies;
    DiscoveryIsExact(dir, order, id, version, limit, now);
  }

  /** `rows[:limit]`: the first rows, counted from the front, or without so many at the end. */
  lemma SliceMeans(rows: seq<Row>, limit: int)
    ensures Slice(rows, limit) <= rows
    ensures limit >= 0 ==> |Slice(rows, limit)| == if limit < |rows| then limit else |rows|
    ensures limit < 0 ==> |Slice(rows, limit)| == if |rows| + limit > 0 then |rows| + limit else 0
  {
  }
}
