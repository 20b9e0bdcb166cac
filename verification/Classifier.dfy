/**
  The health policy for one replica: a classification from what the current check shows and
  from two timers that survive from one check to the next.
*/
module Classifier {
  import opened GoStrings
  import opened Options
  import opened DataInfo

  /** Nanoseconds since Go's zero time; `NEVER`, the zero time itself, means "timer not running". */
  type Time = int

  type Duration = int64

  const NEVER: Time := 0

  const GRACE_PERIOD: Duration := 30_000_000_000

  /** `t.Sub(u)`, which saturates. */
  function Sub(t: Time, u: Time): Duration {
    if t - u > MAX_INT64 then MAX_INT64 else if t - u < MIN_INT64 then MIN_INT64 else t - u
  }

  datatype Class = Healthy | Lagging | Transient | DataChannelDown | InvalidState | UnknownStatus | BehindTooLong
  {
    predicate IsHealthy() { Healthy? || Lagging? || Transient? }

    predicate ChannelUp() { !DataChannelDown? && !Transient? && !InvalidState? && !UnknownStatus? }
  }

  datatype Timers = Timers(behindSince: Time, channelDownSince: Time)

  const STOPPED := Timers(NEVER, NEVER)

  /** Unlike the summary, the classifier also trims white space. */
  function DbStatus(db: DBInfo): Option<Status> {
    Recognise(ToLower(TrimQuotes(TrimSpace(db.status))))
  }

  predicate AnyInvalid(m: DBMap) { exists k <- m :: DbStatus(m[k]) == Some(Invalid) }

  predicate AnyUnknown(m: DBMap) { exists k <- m :: DbStatus(m[k]) == None }

  predicate AnyBehind(m: DBMap) { exists k <- m :: m[k].behind > 0 }

  function Started(timer: Time, now: Time): Time { if timer == NEVER then now else timer }

  /** The timers after a check that shows `m`. */
  function TimersAfter(t: Timers, m: DBMap, now: Time): Timers {
    if m.Keys == {} then Timers(NEVER, Started(t.channelDownSince, now))
    else if AnyInvalid(m) then Timers(t.behindSince, NEVER)
    else if AnyBehind(m) then Timers(Started(t.behindSince, now), NEVER)
    else STOPPED
  }

  /** The classification, given the timers after the check: the order of the tests is their priority. */
  function ClassOf(after: Timers, m: DBMap, now: Time, threshold: Duration): Class {
    if m.Keys == {} then
      if Sub(now, after.channelDownSince) > GRACE_PERIOD then DataChannelDown else Transient
    else if AnyInvalid(m) then InvalidState
    else if AnyBehind(m) && Sub(now, after.behindSince) > threshold then BehindTooLong
    else if AnyUnknown(m) then UnknownStatus
    else if AnyBehind(m) then Lagging
    else Healthy
  }

  class ReplicaState {
    var behindSince: Time
    var channelDownSince: Time

    /** Where the state is kept, so that no two places share a state. */
    ghost const place: (string, string)

    constructor (ghost place: (string, string))
      ensures Value() == STOPPED && this.place == place
    {
      behindSince, channelDownSince := NEVER, NEVER;
      this.place := place;
    }

    function Value(): Timers
      reads this
    {
      Timers(behindSince, channelDownSince)
    }
  }

  /**
    Both loops pick the entries of the map in any order, and the second may return from the middle
    after having started a timer; the outcome is the same for every order.
  */
  method ClassifyReplica(replica: ReplicaInfo, state: ReplicaState, now: Time, threshold: Duration)
    returns (class_: Class)
    modifies state
    ensures state.Value() == TimersAfter(old(state.Value()), replica.dataInfo, now)
    ensures class_ == ClassOf(state.Value(), replica.dataInfo, now, threshold)
  {
    hide DbStatus;
    var m := replica.dataInfo;
    if |m| == 0 {
      assert m.Keys == {};
      if state.channelDownSince == NEVER {
        state.channelDownSince := now;
      }
      state.behindSince := NEVER;
      if Sub(now, state.channelDownSince) > GRACE_PERIOD {
        return DataChannelDown;
      }
      return Transient;
    }
    state.channelDownSince := NEVER;

    var remaining := m.Keys;
    while remaining != {}
      invariant remaining <= m.Keys
      invariant forall k <- m.Keys - remaining :: DbStatus(m[k]) != Some(Invalid)
    {
      var k :| k in remaining;
      if DbStatus(m[k]) == Some(Invalid) {
        return InvalidState;
      }
      remaining := remaining - {k};
    }
    assert !AnyInvalid(m);

    var worst := Healthy;
    var anyBehind := false;
    remaining := m.Keys;
    while remaining != {}
      invariant remaining <= m.Keys
      invariant anyBehind <==> exists k <- m.Keys - remaining :: m[k].behind > 0
      invariant state.channelDownSince == NEVER
      invariant state.behindSince == if anyBehind then Started(old(state.behindSince), now) else old(state.behindSince)
      invariant anyBehind ==> Sub(now, state.behindSince) <= threshold
      invariant worst == if exists k <- m.Keys - remaining :: DbStatus(m[k]) == None then UnknownStatus
                         else if anyBehind then Lagging else Healthy
    {
      var k :| k in remaining;
      var db := m[k];
      ghost var before := m.Keys - remaining;
      remaining := remaining - {k};
      assert m.Keys - remaining == before + {k};
      if DbStatus(db) == None {
        worst := UnknownStatus;
      }
      if db.behind > 0 {
        anyBehind := true;
        if state.behindSince == NEVER {
          state.behindSince := now;
        }
        if Sub(now, state.behindSince) > threshold {
          return BehindTooLong;
        }
        if worst == Healthy {
          worst := Lagging;
        }
      }
    }
    assert m.Keys - remaining == m.Keys;
    if !anyBehind {
      state.behindSince := NEVER;
    }
    return worst;
  }
}
