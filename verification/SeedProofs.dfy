/** What the seed keeps over every run, and what discovery returns. */
module SeedProofs {
  import opened Wrappers
  import opened Text
  import opened Json
  import opened Python
  import opened Versions
  import opened Seed

  // ------------------------------------------------------ safety over runs

  /** Entries sit under their own id, and an available one has a lease within the bounds. */
  ghost predicate Sound(dir: Dir) {
    forall id | id in dir ::
      && dir[id].agentId == id
      && (dir[id].availability == AVAILABLE ==> 30.0 <= dir[id].leaseExpiresAt - dir[id].lastSeen <= 7200.0)
  }

  lemma ApplyKeeps(dir: Dir, step: Step, w: World)
    requires Sound(dir)
    ensures Sound(Apply(dir, step, w))
    ensures forall id | id in dir :: id in Apply(dir, step, w) && Apply(dir, step, w)[id].publicKey == dir[id].publicKey
  {
    hide Verified;
  }

  /**
   * Over every run from a sound directory (the empty one is sound): no entry is removed, an
   * agent's first accepted public key never changes, and lease bounds hold.
   */
  lemma {:induction false} RunKeeps(dir: Dir, steps: seq<Step>, w: World)
    requires Sound(dir)
    ensures Sound(ApplyAll(dir, steps, w))
    ensures forall id | id in dir ::
              id in ApplyAll(dir, steps, w) && ApplyAll(dir, steps, w)[id].publicKey == dir[id].publicKey
    decreases |steps|
  {
    if steps != [] {
      ApplyKeeps(dir, steps[0], w);
      RunKeeps(Apply(dir, steps[0], w), steps[1..], w);
    }
  }

  /** No step of the run is an accepted join of `id`. */
  predicate NoJoinOf(dir: Dir, steps: seq<Step>, id: string, w: World)
    decreases |steps|
  {
    steps == [] ||
    (!(steps[0].Join? && Subject(steps[0], w) == id && Accepted(dir, steps[0], w)) &&
     NoJoinOf(Apply(dir, steps[0], w), steps[1..], id, w))
  }

  lemma {:induction false} StaysUnlisted(dir: Dir, steps: seq<Step>, id: string, w: World)
    requires id in dir && dir[id].availability != AVAILABLE && NoJoinOf(dir, steps, id, w)
    ensures id in ApplyAll(dir, steps, w) && ApplyAll(dir, steps, w)[id].availability != AVAILABLE
    decreases |steps|
  {
    hide Verified;
    if steps != [] {
      StaysUnlisted(Apply(dir, steps[0], w), steps[1..], id, w);
    }
  }

  /**
   * After a successful leave the agent is not returned by discovery, through any renewals
   * and other agents' steps, until its own next successful join.
   */
  lemma LeftStaysHidden(dir: Dir, leave: Step, steps: seq<Step>, w: World, order: seq<string>,
                        capability: string, version: Option<string>, limit: int, now: real)
    requires Sound(dir) && leave.Leave? && Accepted(dir, leave, w)
    requires NoJoinOf(Apply(dir, leave, w), steps, AgentId(w, leave.body), w)
    requires forall a | a in order :: a in ApplyAll(Apply(dir, leave, w), steps, w)
    ensures var found := Discovered(ApplyAll(Apply(dir, leave, w), steps, w), order, capability, version, limit, now);
            found.Some? ==> forall row | row in found.value :: row.entry.agentId != AgentId(w, leave.body)
  {
    hide Verified, Collect, SortRows;
    var left := Apply(dir, leave, w);
    var end := ApplyAll(left, steps, w);
    ApplyKeeps(dir, leave, w);
    RunKeeps(left, steps, w);
    StaysUnlisted(left, steps, AgentId(w, leave.body), w);
    var rows := Collect(end, order, capability, version, now);
    if rows.Some? {
      CollectMembers(end, order, capability, version, now);
      SortRowsKeeps(rows.value);
      forall row | row in Slice(SortRows(rows.value), limit)
        ensures row.entry.agentId != AgentId(w, leave.body)
      {
        SliceMembers(SortRows(rows.value), limit, row);
        assert row in multiset(SortRows(rows.value));
        assert row in rows.value;
        var a :| a in order && RowOf(end[a], capability, version, now) == Some(Some(row));
      }
    }
  }

  // ------------------------------------------------------------ discovery

  /** The descriptor at `i` decides: no earlier one of that capability matches. */
  predicate DecidesAt(caps: seq<Capability>, id: string, version: Option<string>, i: int) {
    && 0 <= i < |caps| && caps[i].id == Str(id) && VersionMatches(caps[i].version, version) != Some(false)
    && forall j | 0 <= j < i && caps[j].id == Str(id) :: VersionMatches(caps[j].version, version) == Some(false)
  }

  /**
   * The agent's first matching descriptor: the one found is the first that does not fail to
   * match, a constraint raises at that place, and nothing is found exactly when all fail.
   */
  lemma {:induction false} FirstMatchIsFirst(caps: seq<Capability>, id: string, version: Option<string>)
    ensures match FirstMatch(caps, id, version)
            case None =>
              exists i :: DecidesAt(caps, id, version, i) && VersionMatches(caps[i].version, version).None?
            case Some(None) =>
              forall i | 0 <= i < |caps| && caps[i].id == Str(id) :: VersionMatches(caps[i].version, version) == Some(false)
            case Some(Some(cap)) =>
              exists i :: DecidesAt(caps, id, version, i) && VersionMatches(caps[i].version, version) == Some(true)
                          && caps[i] == cap
  {
    hide VersionMatches;
    if caps != [] {
      var tail := caps[1..];
      assert forall i | 0 <= i < |tail| :: tail[i] == caps[i + 1];
      if caps[0].id == Str(id) && VersionMatches(caps[0].version, version) != Some(false) {
        assert DecidesAt(caps, id, version, 0);
      } else {
        FirstMatchIsFirst(tail, id, version);
        assert forall i | 0 < i < |caps| :: caps[i] == tail[i - 1];
        match FirstMatch(tail, id, version)
        case None =>
          var i :| DecidesAt(tail, id, version, i) && VersionMatches(tail[i].version, version).None?;
          LaterDecides(caps, id, version, i);
        case Some(None) =>
        case Some(Some(cap)) =>
          var i :| DecidesAt(tail, id, version, i) && VersionMatches(tail[i].version, version) == Some(true) && tail[i] == cap;
          LaterDecides(caps, id, version, i);
      }
    }
  }

  lemma LaterDecides(caps: seq<Capability>, id: string, version: Option<string>, i: int)
    requires caps != [] && DecidesAt(caps[1..], id, version, i)
    requires caps[0].id == Str(id) ==> VersionMatches(caps[0].version, version) == Some(false)
    ensures DecidesAt(caps, id, version, i + 1) && caps[i + 1] == caps[1..][i]
  {
    var tail := caps[1..];
    forall j | 0 <= j < i + 1 && caps[j].id == Str(id)
      ensures VersionMatches(caps[j].version, version) == Some(false)
    {
      if j > 0 {
        assert tail[j - 1] == caps[j];
      }
    }
  }

  /** Every row collected comes from an agent in the order, and every agent's row is collected. */
  lemma {:induction false} CollectMembers(dir: Dir, order: seq<string>, id: string, version: Option<string>, now: real)
    requires forall a | a in order :: a in dir
    ensures var rows := Collect(dir, order, id, version, now);
            && (rows.None? <==> exists a | a in order :: RowOf(dir[a], id, version, now).None?)
            && (rows.Some? ==> forall row :: row in rows.value <==>
                  exists a | a in order :: RowOf(dir[a], id, version, now) == Some(Some(row)))
  {
    hide RowOf;
    if order != [] {
      var front, last := order[..|order| - 1], order[|order| - 1];
      assert order == front + [last];
      CollectMembers(dir, front, id, version, now);
    }
  }

  predicate DistinctRows(rows: seq<Row>) {
    forall i, j | 0 <= i < j < |rows| :: rows[i].entry.agentId != rows[j].entry.agentId
  }

  ghost predicate Enumerates(dir: Dir, order: seq<string>) {
    && (forall a :: a in order <==> a in dir)
    && (forall i, j | 0 <= i < j < |order| :: order[i] != order[j])
  }

  lemma RowHasOwner(e: EntryData, id: string, version: Option<string>, now: real)
    ensures var r := RowOf(e, id, version, now); r.Some? && r.value.Some? ==> r.value.value.entry == e
  {
  }

  lemma {:induction false} CollectDistinct(dir: Dir, order: seq<string>, id: string, version: Option<string>, now: real)
    requires Sound(dir) && forall a | a in order :: a in dir
    requires forall i, j | 0 <= i < j < |order| :: order[i] != order[j]
    ensures var rows := Collect(dir, order, id, version, now); rows.Some? ==> DistinctRows(rows.value)
  {
    hide RowOf;
    if order != [] {
      var front, last := order[..|order| - 1], order[|order| - 1];
      CollectDistinct(dir, front, id, version, now);
      CollectMembers(dir, front, id, version, now);
      RowHasOwner(dir[last], id, version, now);
      var rows := Collect(dir, front, id, version, now);
      if rows.Some? {
        forall i | 0 <= i < |rows.value|
          ensures rows.value[i].entry.agentId != last
        {
          assert rows.value[i] in rows.value;
          var a :| a in front && RowOf(dir[a], id, version, now) == Some(Some(rows.value[i]));
          RowHasOwner(dir[a], id, version, now);
        }
      }
    }
  }

  predicate Ordered(rows: seq<Row>) {
    forall i, j | 0 <= i < j < |rows| :: Before(rows[i], rows[j])
  }

  lemma BeforeTransitive(a: Row, b: Row, c: Row)
    requires Before(a, b) && Before(b, c)
    ensures Before(a, c)
  {
    if a.entry.lastSeen == c.entry.lastSeen {
      LessTransitive(a.entry.agentId, b.entry.agentId, c.entry.agentId);
    }
  }

  lemma BeforeTotal(a: Row, b: Row)
    requires a.entry.agentId != b.entry.agentId
    ensures Before(a, b) || Before(b, a)
  {
    LessTotal(a.entry.agentId, b.entry.agentId);
  }

  lemma BeforeIrreflexive(a: Row)
    ensures !Before(a, a)
  {
    LessIrreflexive(a.entry.agentId);
  }

  lemma {:induction false} InsertRowAdds(r: Row, rows: seq<Row>)
    ensures multiset(InsertRow(r, rows)) == multiset(rows) + multiset{r}
  {
    if rows != [] && Before(rows[0], r) {
      InsertRowAdds(r, rows[1..]);
      assert rows == [rows[0]] + rows[1..];
    }
  }

  lemma {:induction false} InsertRowOrdered(r: Row, rows: seq<Row>)
    requires Ordered(rows) && forall i | 0 <= i < |rows| :: rows[i].entry.agentId != r.entry.agentId
    ensures Ordered(InsertRow(r, rows))
  {
    if rows == [] {
    } else if !Before(rows[0], r) {
      BeforeTotal(rows[0], r);
      forall j | 0 < j < |rows|
        ensures Before(r, rows[j])
      {
        BeforeTransitive(r, rows[0], rows[j]);
      }
    } else {
      var tail := rows[1..];
      InsertRowOrdered(r, tail);
      InsertRowAdds(r, tail);
      forall x | x in InsertRow(r, tail)
        ensures Before(rows[0], x)
      {
        assert x in multiset(InsertRow(r, tail));
        assert x == r || x in tail;
      }
    }
  }

  /** `rows.sort(key=...)` is a permutation. */
  lemma {:induction false} SortRowsKeeps(rows: seq<Row>)
    ensures multiset(SortRows(rows)) == multiset(rows)
  {
    if rows != [] {
      SortRowsKeeps(rows[1..]);
      InsertRowAdds(rows[0], SortRows(rows[1..]));
      assert rows == [rows[0]] + rows[1..];
    }
  }

  lemma SortedMembers(rows: seq<Row>)
    ensures forall r :: r in SortRows(rows) <==> r in rows
  {
    SortRowsKeeps(rows);
    assert forall r :: r in SortRows(rows) <==> r in multiset(SortRows(rows));
  }

  /** Sorted rows of distinct agents are strictly ordered. */
  lemma {:induction false} SortRowsOrdered(rows: seq<Row>)
    requires DistinctRows(rows)
    ensures Ordered(SortRows(rows))
  {
    if rows != [] {
      var tail := SortRows(rows[1..]);
      assert forall i | 0 <= i < |rows[1..]| :: rows[1..][i] == rows[i + 1];
      SortRowsOrdered(rows[1..]);
      SortedMembers(rows[1..]);
      forall i | 0 <= i < |tail|
        ensures tail[i].entry.agentId != rows[0].entry.agentId
      {
        assert tail[i] in rows[1..];
      }
      InsertRowOrdered(rows[0], tail);
    }
  }

  lemma SliceMembers(rows: seq<Row>, limit: int, row: Row)
    ensures row in Slice(rows, limit) ==> row in rows
  {
  }

  lemma RowsInhabited(rows: seq<Row>)
    ensures rows != [] ==> exists r :: r in rows
  {
    if rows != [] {
      assert rows[0] in rows;
    }
  }

  lemma RowsTail(rows: seq<Row>, r: Row)
    requires Ordered(rows) && rows != []
    ensures r in rows[1..] <==> r in rows && r != rows[0]
  {
    BeforeIrreflexive(rows[0]);
    assert rows == [rows[0]] + rows[1..];
  }

  /** Two ordered lists with the same rows are the same list. */
  lemma {:induction false} OrderedUnique(rows: seq<Row>, more: seq<Row>)
    requires Ordered(rows) && Ordered(more) && forall r :: r in rows <==> r in more
    ensures rows == more
    decreases |rows|
  {
    hide Before;
    if rows == [] {
      RowsInhabited(more);
    } else {
      assert rows[0] in more;
      assert more != [] && more[0] in rows;
      var i :| 0 <= i < |rows| && rows[i] == more[0];
      var j :| 0 <= j < |more| && more[j] == rows[0];
      BeforeIrreflexive(rows[0]);
      if i > 0 && j > 0 {
        BeforeTransitive(rows[0], rows[i], rows[0]);
      }
      assert rows[0] == more[0];
      forall r
        ensures r in rows[1..] <==> r in more[1..]
      {
        RowsTail(rows, r);
        RowsTail(more, r);
      }
      OrderedUnique(rows[1..], more[1..]);
      assert rows == [rows[0]] + rows[1..] && more == [more[0]] + more[1..];
    }
  }

  /** `row` is the row of some agent of the directory. */
  ghost predicate Qualifies(dir: Dir, row: Row, id: string, version: Option<string>, now: real) {
    exists a | a in dir :: RowOf(dir[a], id, version, now) == Some(Some(row))
  }

  /**
   * Discovery is exact: for a limit of at least one, the result lists distinct agents in
   * (last_seen descending, agent_id ascending) order, every row belongs to an unexpired
   * available agent with that first matching descriptor, and a qualifying row is missing
   * only when the list is full and everything in it comes before that row.
   */
  lemma DiscoveryIsExact(dir: Dir, order: seq<string>, id: string, version: Option<string>, limit: int, now: real)
    requires Sound(dir) && Enumerates(dir, order) && limit >= 1
    ensures var found := Discovered(dir, order, id, version, limit, now);
            && (found.None? <==> exists a | a in dir :: RowOf(dir[a], id, version, now).None?)
            && (found.Some? ==>
                  && |found.value| <= limit
                  && DistinctRows(found.value) && Ordered(found.value)
                  && (forall row | row in found.value :: Qualifies(dir, row, id, version, now))
                  && (forall row | Qualifies(dir, row, id, version, now) ::
                        row in found.value ||
                        (|found.value| == limit && forall r | r in found.value :: Before(r, row))))
  {
    hide RowOf, Collect, SortRows;
    CollectMembers(dir, order, id, version, now);
    CollectDistinct(dir, order, id, version, now);
    var rows := Collect(dir, order, id, version, now);
    if rows.Some? {
      var sorted := SortRows(rows.value);
      SortRowsKeeps(rows.value);
      SortRowsOrdered(rows.value);
      SortedDistinct(sorted, rows.value);
      var found := Slice(sorted, limit);
      assert forall row :: row in sorted <==> row in multiset(sorted);
      forall row | row in found
        ensures Qualifies(dir, row, id, version, now)
      {
        SliceMembers(sorted, limit, row);
        assert row in rows.value;
      }
      forall row | Qualifies(dir, row, id, version, now)
        ensures row in found || (|found| == limit && forall r | r in found :: Before(r, row))
      {
        assert row in rows.value;
        assert row in multiset(sorted);
        SlicedBefore(sorted, limit, row);
      }
    }
  }

  lemma SortedDistinct(sorted: seq<Row>, rows: seq<Row>)
    requires Ordered(sorted) && DistinctRows(rows) && multiset(sorted) == multiset(rows)
    ensures DistinctRows(sorted)
  {
    forall i, j | 0 <= i < j < |sorted|
      ensures sorted[i].entry.agentId != sorted[j].entry.agentId
    {
      BeforeIrreflexive(sorted[i]);
      assert sorted[i] != sorted[j];
      assert sorted[i] in multiset(rows) && sorted[j] in multiset(rows);
      assert sorted[i] in rows && sorted[j] in rows;
    }
  }

  lemma SlicedBefore(sorted: seq<Row>, limit: int, row: Row)
    requires Ordered(sorted) && row in sorted && limit >= 1
    ensures row in Slice(sorted, limit) ||
            (|Slice(sorted, limit)| == limit && forall r | r in Slice(sorted, limit) :: Before(r, row))
  {
    var i :| 0 <= i < |sorted| && sorted[i] == row;
    if i < limit {
      assert i < |sorted| && Slice(sorted, limit)[i] == row;
    }
  }

  /** The result does not depend on the order in which agents joined. */
  lemma DiscoveryIgnoresOrder(dir: Dir, order: seq<string>, other: seq<string>, id: string, version: Option<string>,
                              limit: int, now: real)
    requires Sound(dir) && Enumerates(dir, order) && Enumerates(dir, other)
    ensures Discovered(dir, order, id, version, limit, now) == Discovered(dir, other, id, version, limit, now)
  {
    hide RowOf, Collect, SortRows;
    CollectMembers(dir, order, id, version, now);
    CollectMembers(dir, other, id, version, now);
    CollectDistinct(dir, order, id, version, now);
    CollectDistinct(dir, other, id, version, now);
    var rows, more := Collect(dir, order, id, version, now), Collect(dir, other, id, version, now);
    if rows.Some? {
      SortRowsOrdered(rows.value);
      SortRowsOrdered(more.value);
      SortedMembers(rows.value);
      SortedMembers(more.value);
      OrderedUnique(SortRows(rows.value), SortRows(more.value));
    }
  }
}
