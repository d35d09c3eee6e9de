/** The sliding-window limiter shared by renewal and JWT exchange. */
module RenewalLimiter {
  import opened Prelude

  type Id = string
  type Time = int

  datatype Row = Row(id: Id, at: Time)

  datatype Limits = Limits(max: nat, window: Time)

  predicate ValidLimits(lim: Limits) { lim.max > 0 && lim.window > 0 }

  // ---- The two operations ----------------------------------------------------------

  predicate Matches(r: Row, id: Id, cutoff: Time) { r.id == id && r.at > cutoff }

  function Count(rows: seq<Row>, id: Id, cutoff: Time): nat {
    if rows == [] then 0
    else Count(rows[..|rows| - 1], id, cutoff) + if Matches(rows[|rows| - 1], id, cutoff) then 1 else 0
  }

  function Earliest(rows: seq<Row>, id: Id, cutoff: Time): Option<Time> {
    if rows == [] then None
    else
      var rest, last := Earliest(rows[..|rows| - 1], id, cutoff), rows[|rows| - 1];
      if !Matches(last, id, cutoff) || (rest.Some? && rest.value <= last.at) then rest else Some(last.at)
  }

  predicate Allows(rows: seq<Row>, lim: Limits, id: Id, now: Time) { Count(rows, id, now - lim.window) < lim.max }

  function RetryAfter(rows: seq<Row>, lim: Limits, id: Id, now: Time): Time {
    var first := Earliest(rows, id, now - lim.window);
    if first.None? || first.value + lim.window - now <= 0 then 1 else first.value + lim.window - now
  }

  /** Delete the rows of every identity at or before the cutoff. */
  function Pruned(rows: seq<Row>, cutoff: Time): seq<Row> {
    if rows == [] then []
    else Pruned(rows[..|rows| - 1], cutoff) + if rows[|rows| - 1].at > cutoff then [rows[|rows| - 1]] else []
  }

  function Recorded(rows: seq<Row>, lim: Limits, id: Id, now: Time): seq<Row> {
    Pruned(rows + [Row(id, now)], now - lim.window)
  }

  // ---- Runs ------------------------------------------------------------------------

  /** The table, everything ever recorded, the latest pruning and the clock. */
  datatype State = State(rows: seq<Row>, log: seq<Row>, cutoff: Time, clock: Time)

  datatype Call = Call(id: Id, now: Time, succeeds: bool)

  /** The handlers: ask, do the work, and record at the same reading of the clock if it succeeded. */
  function Next(s: State, lim: Limits, c: Call): State {
    if Allows(s.rows, lim, c.id, c.now) && c.succeeds
    then State(Recorded(s.rows, lim, c.id, c.now), s.log + [Row(c.id, c.now)], c.now - lim.window, c.now)
    else s.(clock := c.now)
  }

  ghost predicate IsRun(states: seq<State>, lim: Limits, calls: seq<Call>) {
    && |states| == |calls| + 1
    && states[0].rows == [] && states[0].log == [] && states[0].cutoff <= states[0].clock - lim.window
    && forall i :: 0 <= i < |calls| ==>
      calls[i].now >= states[i].clock && states[i + 1] == Next(states[i], lim, calls[i])
  }

  // ---- Counting --------------------------------------------------------------------

  lemma {:induction false} PrunedCounts(rows: seq<Row>, p: Time, id: Id, cutoff: Time)
    requires p <= cutoff
    ensures Count(Pruned(rows, p), id, cutoff) == Count(rows, id, cutoff)
    ensures Earliest(Pruned(rows, p), id, cutoff) == Earliest(rows, id, cutoff)
  {
    if rows != [] {
      var front, last := rows[..|rows| - 1], rows[|rows| - 1];
      PrunedCounts(front, p, id, cutoff);
      if last.at > p { assert (Pruned(front, p) + [last])[..|Pruned(front, p)|] == Pruned(front, p); }
      else { assert Pruned(front, p) + [] == Pruned(front, p); }
    }
  }

  lemma PrunedSnoc(rows: seq<Row>, last: Row, cutoff: Time)
    ensures Pruned(rows + [last], cutoff) == Pruned(rows, cutoff) + if last.at > cutoff then [last] else []
  {
    assert (rows + [last])[..|rows|] == rows;
  }

  lemma PrunedTwice(rows: seq<Row>, p: Time, q: Time, last: Row)
    requires p <= q
    ensures Pruned(Pruned(rows, p) + [last], q) == Pruned(rows + [last], q)
  {
    PrunedAgain(rows, p, q);
    PrunedSnoc(Pruned(rows, p), last, q);
    PrunedSnoc(rows, last, q);
  }

  lemma {:induction false} PrunedAgain(rows: seq<Row>, p: Time, q: Time)
    requires p <= q
    ensures Pruned(Pruned(rows, p), q) == Pruned(rows, q)
  {
    if rows != [] {
      var front, last := rows[..|rows| - 1], rows[|rows| - 1];
      PrunedAgain(front, p, q);
      if last.at > p { PrunedSnoc(Pruned(front, p), last, q); }
      else { assert Pruned(front, p) + [] == Pruned(front, p); }
    }
  }

  function CountBetween(rows: seq<Row>, id: Id, lo: Time, hi: Time): nat {
    if rows == [] then 0
    else
      var last := rows[|rows| - 1];
      CountBetween(rows[..|rows| - 1], id, lo, hi) + if last.id == id && lo < last.at <= hi then 1 else 0
  }

  lemma {:induction false} BetweenIsFewer(rows: seq<Row>, id: Id, lo: Time, hi: Time, cutoff: Time)
    requires cutoff <= lo
    ensures CountBetween(rows, id, lo, hi) <= Count(rows, id, cutoff)
  {
    if rows != [] { BetweenIsFewer(rows[..|rows| - 1], id, lo, hi, cutoff); }
  }

  predicate NoneAfter(rows: seq<Row>, hi: Time) { forall i :: 0 <= i < |rows| ==> rows[i].at <= hi }

  lemma {:induction false} AllBefore(rows: seq<Row>, id: Id, lo: Time, hi: Time)
    requires NoneAfter(rows, hi)
    ensures CountBetween(rows, id, lo, hi) == Count(rows, id, lo)
  {
    if rows != [] { AllBefore(rows[..|rows| - 1], id, lo, hi); }
  }

  /** The rows at the earliest match are gone once the cutoff reaches it, and not before. */
  lemma {:induction false} EarliestBounds(rows: seq<Row>, id: Id, cutoff: Time, later: Time)
    requires cutoff <= later
    ensures var first := Earliest(rows, id, cutoff);
      && (first.None? <==> Count(rows, id, cutoff) == 0)
      && (first.Some? ==> first.value > cutoff)
      && (first.Some? && later < first.value ==> Count(rows, id, later) == Count(rows, id, cutoff))
      && (first.Some? && later >= first.value ==> Count(rows, id, later) < Count(rows, id, cutoff))
      && Count(rows, id, later) <= Count(rows, id, cutoff)
  {
    if rows != [] { EarliestBounds(rows[..|rows| - 1], id, cutoff, later); }
  }

  // ---- The invariant ---------------------------------------------------------------

  /** Each success found fewer than the maximum in the window before it. */
  ghost predicate Spaced(log: seq<Row>, lim: Limits) {
    log == [] ||
    (var front, last := log[..|log| - 1], log[|log| - 1];
     Spaced(front, lim) && Count(front, last.id, last.at - lim.window) < lim.max)
  }

  ghost predicate Inv(s: State, lim: Limits) {
    && s.cutoff <= s.clock - lim.window
    && s.rows == Pruned(s.log, s.cutoff)
    && NoneAfter(s.log, s.clock)
    && Spaced(s.log, lim)
  }

  lemma NextInv(s: State, lim: Limits, c: Call)
    requires ValidLimits(lim) && Inv(s, lim) && c.now >= s.clock
    ensures Inv(Next(s, lim, c), lim)
  {
    if Allows(s.rows, lim, c.id, c.now) && c.succeeds {
      AllowedOnLog(s.log, s.cutoff, lim, c.id, c.now);
      RecordInv(s, lim, Row(c.id, c.now));
    } else {
      WaitInv(s, lim, c.now);
    }
  }

  lemma WaitInv(s: State, lim: Limits, now: Time)
    requires Inv(s, lim) && now >= s.clock
    ensures Inv(s.(clock := now), lim)
  {
  }

  lemma AllowedOnLog(log: seq<Row>, cutoff: Time, lim: Limits, id: Id, now: Time)
    requires cutoff <= now - lim.window
    ensures Allows(Pruned(log, cutoff), lim, id, now) <==> Count(log, id, now - lim.window) < lim.max
  {
    PrunedCounts(log, cutoff, id, now - lim.window);
  }

  lemma RecordInv(s: State, lim: Limits, row: Row)
    requires Inv(s, lim) && row.at >= s.clock && Count(s.log, row.id, row.at - lim.window) < lim.max
    ensures Inv(State(Recorded(s.rows, lim, row.id, row.at), s.log + [row], row.at - lim.window, row.at), lim)
  {
    var log, cutoff := s.log + [row], row.at - lim.window;
    PrunedTwice(s.log, s.cutoff, cutoff, row);
    SpacedSnoc(s.log, lim, row);
    assert Recorded(s.rows, lim, row.id, row.at) == Pruned(log, cutoff);
    assert NoneAfter(log, row.at);
  }

  lemma SpacedSnoc(log: seq<Row>, lim: Limits, row: Row)
    requires Spaced(log, lim) && Count(log, row.id, row.at - lim.window) < lim.max
    ensures Spaced(log + [row], lim)
  {
    assert (log + [row])[..|log|] == log;
  }

  lemma {:induction false} RunInv(states: seq<State>, lim: Limits, calls: seq<Call>, i: nat)
    requires ValidLimits(lim) && IsRun(states, lim, calls) && i <= |calls|
    ensures Inv(states[i], lim)
  {
    if i > 0 {
      RunInv(states, lim, calls, i - 1);
      NextInv(states[i - 1], lim, calls[i - 1]);
      assert states[i - 1 + 1] == Next(states[i - 1], lim, calls[i - 1]);
    }
  }

  lemma {:induction false} SpacedBound(log: seq<Row>, lim: Limits, id: Id, lo: Time)
    requires Spaced(log, lim)
    ensures CountBetween(log, id, lo, lo + lim.window) <= lim.max
  {
    if log != [] {
      var front, last := log[..|log| - 1], log[|log| - 1];
      SpacedBound(front, lim, id, lo);
      if last.id == id && lo < last.at <= lo + lim.window {
        BetweenIsFewer(front, id, lo, lo + lim.window, last.at - lim.window);
      }
    }
  }

  // ---- The main results ------------------------------------------------------------

  /** No window of the configured length ever holds more than the maximum of one identity's successes. */
  lemma WindowHoldsAtMostMax(states: seq<State>, lim: Limits, calls: seq<Call>, i: nat, id: Id, lo: Time)
    requires ValidLimits(lim) && IsRun(states, lim, calls) && i <= |calls|
    ensures CountBetween(states[i].log, id, lo, lo + lim.window) <= lim.max
  {
    RunInv(states, lim, calls, i);
    SpacedBound(states[i].log, lim, id, lo);
  }

  /** Pruning, though it drops rows of every identity, never changes a later answer. */
  lemma PruningIsInvisible(states: seq<State>, lim: Limits, calls: seq<Call>, i: nat, id: Id, now: Time)
    requires ValidLimits(lim) && IsRun(states, lim, calls) && i <= |calls| && now >= states[i].clock
    ensures Allows(states[i].rows, lim, id, now) == Allows(states[i].log, lim, id, now)
    ensures RetryAfter(states[i].rows, lim, id, now) == RetryAfter(states[i].log, lim, id, now)
  {
    RunInv(states, lim, calls, i);
    PrunedCounts(states[i].log, states[i].cutoff, id, now - lim.window);
  }

  /** A caller is allowed exactly while fewer than the maximum of its own successes lie in the window that
      ends now. */
  lemma AllowedIff(states: seq<State>, lim: Limits, calls: seq<Call>, i: nat, id: Id, now: Time)
    requires ValidLimits(lim) && IsRun(states, lim, calls) && i <= |calls| && now >= states[i].clock
    ensures Allows(states[i].rows, lim, id, now) <==> CountBetween(states[i].log, id, now - lim.window, now) < lim.max
  {
    RunInv(states, lim, calls, i);
    PruningIsInvisible(states, lim, calls, i, id, now);
    AllBefore(states[i].log, id, now - lim.window, now);
  }

  /** A blocked caller that waits the returned time is allowed then, and at no moment before, if nothing
      is recorded in between. */
  lemma RetryIsExact(states: seq<State>, lim: Limits, calls: seq<Call>, i: nat, id: Id, now: Time, at: Time)
    requires ValidLimits(lim) && IsRun(states, lim, calls) && i <= |calls| && now >= states[i].clock
    requires !Allows(states[i].rows, lim, id, now) && at >= now
    ensures RetryAfter(states[i].rows, lim, id, now) > 0
    ensures Allows(states[i].rows, lim, id, at) <==> at >= now + RetryAfter(states[i].rows, lim, id, now)
  {
    RunInv(states, lim, calls, i);
    PruningIsInvisible(states, lim, calls, i, id, now);
    PruningIsInvisible(states, lim, calls, i, id, at);
    RetryOnLog(states[i], lim, id, now, at);
  }

  lemma RetryOnLog(s: State, lim: Limits, id: Id, now: Time, at: Time)
    requires ValidLimits(lim) && Inv(s, lim) && s.clock <= now <= at && !Allows(s.log, lim, id, now)
    ensures RetryAfter(s.log, lim, id, now) > 0
    ensures Allows(s.log, lim, id, at) <==> at >= now + RetryAfter(s.log, lim, id, now)
  {
    AllBefore(s.log, id, now - lim.window, now);
    SpacedBound(s.log, lim, id, now - lim.window);
    EarliestBounds(s.log, id, now - lim.window, at - lim.window);
  }

  // ---- The table as it runs --------------------------------------------------------

  class RenewalEvents {
    const lim: Limits
    var rows: seq<Row>

    constructor (lim: Limits)
      requires ValidLimits(lim)
      ensures this.lim == lim && rows == []
    {
      this.lim, rows := lim, [];
    }

    /** Count and earliest match in one pass. */
    method Allow(id: Id, now: Time) returns (ok: bool, retry: Time)
      ensures ok == Allows(rows, lim, id, now)
      ensures retry == if ok then 0 else RetryAfter(rows, lim, id, now)
    {
      var cutoff := now - lim.window;
      var count := 0;
      var first: Option<Time> := None;
      for i := 0 to |rows|
        invariant count == Count(rows[..i], id, cutoff) && first == Earliest(rows[..i], id, cutoff)
      {
        assert rows[..i + 1][..i] == rows[..i];
        if rows[i].id == id && rows[i].at > cutoff {
          count := count + 1;
          if first.None? || rows[i].at < first.value { first := Some(rows[i].at); }
        }
      }
      assert rows[..|rows|] == rows;
      if count < lim.max { return true, 0; }
      if first.None? { return false, 1; }
      retry := first.value + lim.window - now;
      if retry <= 0 { retry := 1; }
      ok := false;
    }

    method Record(id: Id, now: Time)
      modifies this`rows
      ensures rows == Recorded(old(rows), lim, id, now)
    {
      rows := rows + [Row(id, now)];
      var kept: seq<Row> := [];
      for i := 0 to |rows|
        invariant kept == Pruned(rows[..i], now - lim.window)
      {
        assert rows[..i + 1][..i] == rows[..i];
        if rows[i].at > now - lim.window { kept := kept + [rows[i]]; }
      }
      assert rows[..|rows|] == rows;
      rows := kept;
    }
  }
}
