/**
 * The client half of the lease protocol, and the two halves together: with a suitable
 * requested lease and renewals that arrive in time, an agent is listed at every instant.
 *
 * `int(lease_seconds * 0.6)` is taken as the floor of three fifths.
 */
module Lease {
  import opened Wrappers
  import opened Json
  import opened Python
  import opened Seed

  /** `max(30, int(lease_seconds * 0.6))`. */
  function RenewInterval(leaseSeconds: int): int {
    var three := 3 * leaseSeconds / 5;
    if three > 30 then three else 30
  }

  /** The timer runs for three fifths of the lease, rounded down, but never for less than half a minute. */
  lemma RenewIntervalMeans(leaseSeconds: int)
    ensures leaseSeconds < 50 ==> RenewInterval(leaseSeconds) == 30
    ensures leaseSeconds >= 50 ==> 5 * RenewInterval(leaseSeconds) <= 3 * leaseSeconds < 5 * (RenewInterval(leaseSeconds) + 1)
  {
  }

  /** The shorter of the granted lease and the lease that every renewal grants. */
  function ShortestLease(leaseSeconds: int): int {
    var granted := GrantedLease(leaseSeconds);
    if granted < 1800 then granted else 1800
  }

  /** The timer fires strictly inside both leases exactly for requests from 31 to 2999 seconds. */
  lemma TimerFitsExactly(leaseSeconds: int)
    requires leaseSeconds >= 1
    ensures RenewInterval(leaseSeconds) < GrantedLease(leaseSeconds) && RenewInterval(leaseSeconds) < 1800 <==>
            31 <= leaseSeconds <= 2999
    ensures ShortestLease(leaseSeconds) - RenewInterval(leaseSeconds) > 0 <==> 31 <= leaseSeconds <= 2999
  {
  }

  // ------------------------------------------------- client and seed together

  function Time(step: Step): real {
    step.now
  }

  /** An accepted join of `id` for the same lease and status, or an accepted renewal. */
  predicate Refreshes(dir: Dir, step: Step, id: string, leaseSeconds: int, w: World) {
    && Subject(step, w) == id && Accepted(dir, step, w)
    && match step
       case Join(body, _) =>
         At(body, "requested_lease_seconds") == Int(leaseSeconds) && ReadAnnouncement(w, body).value.status == AVAILABLE
       case Renew(_, _) => true
       case Leave(_, _) => false
  }

  /** An accepted step about `id` that is not a refresh: a leave, or a join on other terms. */
  predicate Disturbs(dir: Dir, step: Step, id: string, leaseSeconds: int, w: World) {
    Subject(step, w) == id && Accepted(dir, step, w) && !Refreshes(dir, step, id, leaseSeconds, w)
  }

  /**
   * From the refresh at `last` up to the instant `end`, nothing disturbs the agent, time
   * does not go back, and no instant is more than `gap` after the latest refresh.
   */
  predicate Punctual(dir: Dir, steps: seq<Step>, id: string, leaseSeconds: int, last: real, gap: real, end: real, w: World)
    decreases |steps|
  {
    if steps == [] then last <= end <= last + gap
    else
      var next := Apply(dir, steps[0], w);
      && last <= Time(steps[0]) <= last + gap
      && !Disturbs(dir, steps[0], id, leaseSeconds, w)
      && Punctual(next, steps[1..], id, leaseSeconds,
                  if Refreshes(dir, steps[0], id, leaseSeconds, w) then Time(steps[0]) else last, gap, end, w)
  }

  /** The entry is available and its lease reaches the shortest lease past `last`. */
  ghost predicate Alive(dir: Dir, id: string, leaseSeconds: int, last: real) {
    id in dir && dir[id].availability == AVAILABLE
    && dir[id].leaseExpiresAt >= last + ShortestLease(leaseSeconds) as real
  }

  lemma RefreshRevives(dir: Dir, step: Step, id: string, leaseSeconds: int, last: real, w: World)
    requires Refreshes(dir, step, id, leaseSeconds, w)
    requires step.Join? || Alive(dir, id, leaseSeconds, last)
    ensures Alive(Apply(dir, step, w), id, leaseSeconds, Time(step))
  {
    hide Verified;
  }

  lemma OthersDoNotMatter(dir: Dir, step: Step, id: string, leaseSeconds: int, last: real, w: World)
    requires Alive(dir, id, leaseSeconds, last)
    requires !Refreshes(dir, step, id, leaseSeconds, w) && !Disturbs(dir, step, id, leaseSeconds, w)
    ensures Alive(Apply(dir, step, w), id, leaseSeconds, last)
  {
    hide Verified;
  }

  lemma {:induction false} PunctualStaysAlive(dir: Dir, steps: seq<Step>, id: string, leaseSeconds: int, last: real,
                                              gap: real, end: real, w: World)
    requires Alive(dir, id, leaseSeconds, last) && gap < ShortestLease(leaseSeconds) as real
    requires Punctual(dir, steps, id, leaseSeconds, last, gap, end, w)
    ensures id in ApplyAll(dir, steps, w) && Listed(ApplyAll(dir, steps, w)[id], end)
    decreases |steps|
  {
    hide Apply, Refreshes, Disturbs;
    if steps != [] {
      var next := Apply(dir, steps[0], w);
      if Refreshes(dir, steps[0], id, leaseSeconds, w) {
        RefreshRevives(dir, steps[0], id, leaseSeconds, last, w);
        PunctualStaysAlive(next, steps[1..], id, leaseSeconds, Time(steps[0]), gap, end, w);
      } else {
        OthersDoNotMatter(dir, steps[0], id, leaseSeconds, last, w);
        PunctualStaysAlive(next, steps[1..], id, leaseSeconds, last, gap, end, w);
      }
    }
  }

  /**
   * Lease continuity: an agent joins as available with a lease of 31 to 2999 seconds; from
   * then on, in any run of steps by any agents, its renewals are accepted at most one timer
   * interval plus `delay` apart, with a delay below the slack, and it does not leave. Then
   * it is unexpired and available at the instant `end`, whatever instant that is.
   */
  lemma LeaseContinuity(dir: Dir, join: Step, steps: seq<Step>, id: string, leaseSeconds: int, delay: real, end: real,
                        w: World)
    requires 31 <= leaseSeconds <= 2999
    requires join.Join? && Refreshes(dir, join, id, leaseSeconds, w)
    requires 0.0 <= delay < (ShortestLease(leaseSeconds) - RenewInterval(leaseSeconds)) as real
    requires Punctual(Apply(dir, join, w), steps, id, leaseSeconds, Time(join),
                      RenewInterval(leaseSeconds) as real + delay, end, w)
    ensures var now := ApplyAll(Apply(dir, join, w), steps, w); id in now && Listed(now[id], end)
  {
    RefreshRevives(dir, join, id, leaseSeconds, Time(join), w);
    PunctualStaysAlive(Apply(dir, join, w), steps, id, leaseSeconds, Time(join),
                       RenewInterval(leaseSeconds) as real + delay, end, w);
  }

  /**
   * Outside that range the timer alone lets the lease lapse, even without any delay: a short
   * request right after joining, a long one right after its first renewal.
   */
  lemma LapsesOutsideRange(dir: Dir, step: Step, id: string, leaseSeconds: int, w: World)
    requires leaseSeconds >= 1 && !(31 <= leaseSeconds <= 2999)
    requires Subject(step, w) == id && Accepted(dir, step, w)
    requires leaseSeconds <= 30 ==> step.Join? && At(step.body, "requested_lease_seconds") == Int(leaseSeconds)
    requires leaseSeconds >= 3000 ==> step.Renew?
    ensures var next := Apply(dir, step, w);
            id in next && !Listed(next[id], Time(step) + RenewInterval(leaseSeconds) as real)
  {
    hide Verified;
    TimerFitsExactly(leaseSeconds);
  }

  // ---------------------------------------------------------------- the client

  /** What a seed did with a message: answered, answered with a failed state, or could not be reached. */
  datatype SeedReply = Completed | FailedState | Unreachable

  /** `AgentNetwork`'s membership state: joined seeds and the interval of the running timer. */
  class AgentNetwork {
    const seeds: seq<string>
    const leaseSeconds: int
    var joined: set<string>
    var renewTimer: Option<int>

    constructor (seeds: seq<string>, leaseSeconds: int)
      ensures this.seeds == seeds && this.leaseSeconds == leaseSeconds && joined == {} && renewTimer == None
    {
      this.seeds, this.leaseSeconds, joined, renewTimer := seeds, leaseSeconds, {}, None;
    }

    /** `loopRunning`: there is an event loop to run the timer in. */
    method StartRenew(loopRunning: bool)
      modifies this`renewTimer
      ensures renewTimer == if old(renewTimer).Some? || !loopRunning then old(renewTimer) else Some(RenewInterval(leaseSeconds))
    {
      if renewTimer.Some? || !loopRunning {
        return;
      }
      renewTimer := Some(RenewInterval(leaseSeconds));
    }

    /** `join`: `replies[i]` is what the i-th seed does; None is NetworkError("NO_SEED"). */
    method Join(replies: seq<SeedReply>, loopRunning: bool) returns (seed: Option<string>)
      requires |replies| == |seeds|
      modifies this
      ensures seed.None? ==>
                && (forall i | 0 <= i < |seeds| :: !replies[i].Completed?)
                && joined == old(joined) && renewTimer == old(renewTimer)
      ensures seed.Some? ==>
                && (exists i | 0 <= i < |seeds| ::
                      && seed.value == seeds[i] && replies[i].Completed?
                      && forall j | 0 <= j < i :: !replies[j].Completed?)
                && joined == old(joined) + {seed.value}
                && renewTimer == if old(renewTimer).Some? || !loopRunning then old(renewTimer) else Some(RenewInterval(leaseSeconds))
    {
      var i := 0;
      while i < |seeds|
        invariant 0 <= i <= |seeds|
        invariant joined == old(joined) && renewTimer == old(renewTimer)
        invariant forall j | 0 <= j < i :: !replies[j].Completed?
      {
        if replies[i].Completed? {
          joined := joined + {seeds[i]};
          StartRenew(loopRunning);
          return Some(seeds[i]);
        }
        i := i + 1;
      }
      return None;
    }

    /** `list(self._joined)`, in any order, and then the other seeds. */
    ghost predicate TryOrder(ordered: seq<string>)
      reads this
    {
      && (forall s :: s in ordered <==> s in joined || s in seeds)
      && (forall i, j | 0 <= i < j < |ordered| && ordered[j] in joined :: ordered[i] in joined)
    }

    /** `_message_any`: the first seed that answers, joined ones before the others; None is NetworkError("NO_SEED"). */
    method MessageAny(ordered: seq<string>, reply: string -> SeedReply) returns (answer: Option<SeedReply>)
      requires TryOrder(ordered)
      ensures answer.None? <==> forall s | s in joined || s in seeds :: reply(s).Unreachable?
      ensures answer.Some? ==>
                exists i | 0 <= i < |ordered| ::
                  && reply(ordered[i]) == answer.value && !answer.value.Unreachable?
                  && forall j | 0 <= j < i :: reply(ordered[j]).Unreachable?
    {
      for i := 0 to |ordered|
        invariant forall j | 0 <= j < i :: reply(ordered[j]).Unreachable?
      {
        if !reply(ordered[i]).Unreachable? {
          assert ordered[i] in ordered;
          return Some(reply(ordered[i]));
        }
      }
      return None;
    }

    /** `leave`: the state is cleared once any seed has answered, whatever it answered. */
    method Leave(ordered: seq<string>, reply: string -> SeedReply) returns (answer: Option<SeedReply>)
      requires TryOrder(ordered)
      modifies this
      ensures answer.None? <==> forall s | s in old(joined) || s in seeds :: reply(s).Unreachable?
      ensures if answer.Some? then joined == {} && renewTimer == None
              else joined == old(joined) && renewTimer == old(renewTimer)
    {
      answer := MessageAny(ordered, reply);
      if answer.Some? {
        joined := {};
        renewTimer := None;
      }
    }
  }
}
