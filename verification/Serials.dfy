/** The issuer's serial generator under any interleaving of concurrent calls. */
module Serials {
  type Tid = nat

  const SHIFT := 0x10_0000

  /** Where a call of Next stands between its atomic operations. */
  datatype Phase =
    | Begin
    | SawZero
    | Ready
    | Numbered(n: nat)
    | Done(n: nat, serial: nat)

  datatype World = World(base: nat, n: nat, threads: map<Tid, Phase>)

  /** Each step is one atomic operation of one call; `now` is the clock in nanoseconds. */
  datatype Step = Enter(tid: Tid) | LoadBase(tid: Tid) | Swap(tid: Tid, now: nat) | Add(tid: Tid) | Finish(tid: Tid)

  function Next(w: World, s: Step): World {
    if s.Enter? then
      (if s.tid in w.threads then w else w.(threads := w.threads[s.tid := Begin]))
    else if s.tid !in w.threads then w
    else
      var p := w.threads[s.tid];
      match s
      case Enter(tid) => w
      case LoadBase(tid) =>
        if p.Begin? then w.(threads := w.threads[tid := if w.base == 0 then SawZero else Ready]) else w
      case Swap(tid, now) =>
        if p.SawZero? then World(if w.base == 0 then now else w.base, w.n, w.threads[tid := Ready]) else w
      case Add(tid) =>
        if p.Ready? then World(w.base, w.n + 1, w.threads[tid := Numbered(w.n + 1)]) else w
      case Finish(tid) =>
        if p.Numbered? then w.(threads := w.threads[tid := Done(p.n, w.base * SHIFT + p.n)]) else w
  }

  const START := World(0, 0, map[])

  function Run(steps: seq<Step>): World {
    if steps == [] then START else Next(Run(steps[..|steps| - 1]), steps[|steps| - 1])
  }

  /** The clock reads after the epoch. */
  predicate ClockRuns(steps: seq<Step>) { forall s :: s in steps && s.Swap? ==> s.now > 0 }

  // ---- The invariant ---------------------------------------------------------------

  predicate Holds(p: Phase, n: nat) { (p.Numbered? || p.Done?) && p.n == n }

  ghost predicate Taken(w: World, k: nat) { exists t :: t in w.threads && Holds(w.threads[t], k) }

  ghost predicate Inv(w: World) {
    && (forall t ::
          t in w.threads && (w.threads[t].Ready? || w.threads[t].Numbered? || w.threads[t].Done?) ==> w.base > 0)
    && (forall t, k: nat :: t in w.threads && Holds(w.threads[t], k) ==> 1 <= k <= w.n)
    && (forall a, b, k: nat ::
          a in w.threads && b in w.threads && Holds(w.threads[a], k) && Holds(w.threads[b], k) ==> a == b)
    && (forall k: nat :: 1 <= k <= w.n ==> Taken(w, k))
    && (forall t :: t in w.threads && w.threads[t].Done? ==> w.threads[t].serial == w.base * SHIFT + w.threads[t].n)
  }

  lemma NextInv(w: World, s: Step)
    requires Inv(w) && (s.Swap? ==> s.now > 0)
    ensures Inv(Next(w, s))
  {
    var v := Next(w, s);
    forall t, k: nat | t in v.threads && Holds(v.threads[t], k)
      ensures (t in w.threads && Holds(w.threads[t], k)) || (t == s.tid && k == w.n + 1 == v.n)
    {
    }
    forall k: nat | 1 <= k <= v.n ensures Taken(v, k) {
      if k <= w.n {
        assert Taken(w, k);
        var t :| t in w.threads && Holds(w.threads[t], k);
        assert t in v.threads && Holds(v.threads[t], k);
      } else {
        assert Holds(v.threads[s.tid], k);
      }
    }
  }

  lemma {:induction false} RunInv(steps: seq<Step>)
    requires ClockRuns(steps)
    ensures Inv(Run(steps))
  {
    if steps != [] {
      assert steps[|steps| - 1] in steps;
      RunInv(steps[..|steps| - 1]);
      NextInv(Run(steps[..|steps| - 1]), steps[|steps| - 1]);
    }
  }

  /** This step read the clock as the base. */
  ghost predicate ReadAt(steps: seq<Step>, k: nat, base: nat) { k < |steps| && steps[k].Swap? && steps[k].now == base }

  /** The base of a process is a reading of its clock, taken once. */
  lemma {:induction false} BaseIsReading(steps: seq<Step>)
    requires Run(steps).base > 0
    ensures exists k: nat ::
      ReadAt(steps, k, Run(steps).base) && forall j :: k < j <= |steps| ==> Run(steps[..j]).base == Run(steps).base
  {
    var front, last, base := steps[..|steps| - 1], steps[|steps| - 1], Run(steps).base;
    assert steps[..|steps|] == steps;
    if Run(front).base == 0 {
      assert ReadAt(steps, |front|, base);
    } else {
      BaseIsReading(front);
      var k: nat :| ReadAt(front, k, Run(front).base) && forall j :: k < j <= |front| ==>
        Run(front[..j]).base == Run(front).base;
      assert ReadAt(steps, k, base);
      forall j | k < j <= |steps| ensures Run(steps[..j]).base == base {
        if j < |steps| { assert steps[..j] == front[..j]; }
      }
    }
  }

  ghost function Issued(w: World): set<nat> {
    set t | t in w.threads && w.threads[t].Done? :: w.threads[t].serial
  }

  // ---- The main results ------------------------------------------------------------

  /** However concurrent calls interleave, no two of them return the same serial. */
  lemma SerialsAreDistinct(steps: seq<Step>, a: Tid, b: Tid)
    requires ClockRuns(steps)
    requires var w := Run(steps); a in w.threads && b in w.threads && w.threads[a].Done? && w.threads[b].Done?
    requires Run(steps).threads[a].serial == Run(steps).threads[b].serial
    ensures a == b
  {
    RunInv(steps);
    var w := Run(steps);
    assert Holds(w.threads[a], w.threads[a].n) && Holds(w.threads[b], w.threads[b].n);
  }

  /** Every call that has ended has a serial between the base and the count. */
  lemma IssuedRange(steps: seq<Step>, s: nat)
    requires ClockRuns(steps) && s in Issued(Run(steps))
    ensures var w := Run(steps); w.base > 0 && w.base * 1_048_576 + 1 <= s <= w.base * 1_048_576 + w.n
  {
    RunInv(steps);
    var w := Run(steps);
    var t :| t in w.threads && w.threads[t].Done? && w.threads[t].serial == s;
    assert Holds(w.threads[t], w.threads[t].n);
  }

  /** Serials are positive and fit the 20 octets of section 4.1.2.2 of RFC 5280, sign bit included, for any
      64-bit clock and count. */
  lemma SerialsFit(steps: seq<Step>, s: nat)
    requires ClockRuns(steps) && s in Issued(Run(steps))
    requires Run(steps).base < 0x8000_0000_0000_0000 && Run(steps).n < 0x8000_0000_0000_0000
    ensures 0 < s < 0x8000000000000000000000000000000000000000
  {
    IssuedRange(steps, s);
  }

  /** The serials that calls have taken, returned or not: a process may stop with calls in flight. */
  ghost function TakenSerials(w: World): set<nat> {
    set t | t in w.threads && (w.threads[t].Numbered? || w.threads[t].Done?) :: w.base * SHIFT + w.threads[t].n
  }

  lemma TakenRange(steps: seq<Step>)
    requires ClockRuns(steps)
    ensures var w := Run(steps);
      forall s: nat :: s in TakenSerials(w) <==> w.base * SHIFT + 1 <= s <= w.base * SHIFT + w.n
  {
    RunInv(steps);
    var w := Run(steps);
    forall s: nat | s in TakenSerials(w) ensures w.base * SHIFT + 1 <= s <= w.base * SHIFT + w.n {
      var t :| t in w.threads && (w.threads[t].Numbered? || w.threads[t].Done?) && s == w.base * SHIFT + w.threads[t].n;
      assert Holds(w.threads[t], w.threads[t].n);
    }
    forall s: nat | w.base * SHIFT + 1 <= s <= w.base * SHIFT + w.n ensures s in TakenSerials(w) {
      var k := s - w.base * SHIFT;
      assert Taken(w, k);
      var t :| t in w.threads && Holds(w.threads[t], k);
      assert w.base * SHIFT + w.threads[t].n == s;
    }
  }

  /** No call is between taking its number and returning. */
  predicate AtRest(w: World) { forall t :: t in w.threads ==> !w.threads[t].Numbered? }

  /** What was returned was taken, and all of it once no call is in flight. */
  lemma IssuedIsTaken(steps: seq<Step>)
    requires ClockRuns(steps)
    ensures Issued(Run(steps)) <= TakenSerials(Run(steps))
    ensures AtRest(Run(steps)) ==> Issued(Run(steps)) == TakenSerials(Run(steps))
  {
    RunInv(steps);
    var w := Run(steps);
    forall t | t in w.threads && w.threads[t].Done? ensures w.threads[t].serial in TakenSerials(w) {
      assert w.threads[t].serial == w.base * SHIFT + w.threads[t].n;
    }
    if AtRest(w) {
      forall s | s in TakenSerials(w) ensures s in Issued(w) {
        var t :| t in w.threads && w.threads[t].Done? && s == w.base * SHIFT + w.threads[t].n;
        assert w.threads[t].serial == s;
      }
    }
  }

  /** Wherever two process runs stop, with any calls in flight, they take disjoint serials exactly when the
      earlier took at most 2^20 for each nanosecond between the bases, or the later none. Then what they
      return is disjoint too, and exactly then if no call is in flight. */
  lemma RestartsAreDisjointIff(first: seq<Step>, second: seq<Step>)
    requires ClockRuns(first) && ClockRuns(second) && Run(first).base < Run(second).base
    ensures var v, w := Run(first), Run(second);
      var apart := v.n <= 1_048_576 * (w.base - v.base) || w.n == 0;
      && (TakenSerials(v) !! TakenSerials(w) <==> apart)
      && (apart ==> Issued(v) !! Issued(w))
      && (AtRest(v) && AtRest(w) ==> (Issued(v) !! Issued(w) <==> apart))
  {
    var v, w := Run(first), Run(second);
    TakenRange(first);
    TakenRange(second);
    IssuedIsTaken(first);
    IssuedIsTaken(second);
    if v.n > SHIFT * (w.base - v.base) && w.n > 0 {
      var s := w.base * SHIFT + 1;
      assert s in TakenSerials(v) && s in TakenSerials(w);
    }
  }

  // ---- The generator as it runs ----------------------------------------------------

  class SerialGenerator {
    var base: nat
    var n: nat

    constructor ()
      ensures base == 0 && n == 0
    {
      base, n := 0, 0;
    }

    /** One call with no other beside it. */
    method Take(now: nat) returns (serial: nat)
      requires now > 0
      modifies this
      ensures base == (if old(base) == 0 then now else old(base)) && n == old(n) + 1
      ensures serial == base * SHIFT + n && serial > old(base) * SHIFT + old(n)
    {
      if base == 0 { base := now; }
      n := n + 1;
      serial := base * SHIFT + n;
    }
  }
}
