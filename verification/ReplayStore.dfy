/** Replay protection for signed assertions: a store that forgets expired identifiers. */
module ReplayStore {

  type Jti = string
  type Time = int

  datatype Op = Witness(jti: Jti, expiresAt: Time, now: Time) | Sweep(now: Time)

  /** A success: which identifier, until when, and when it was witnessed. */
  datatype Seen = Seen(jti: Jti, expiresAt: Time, at: Time)

  predicate IsReplay(seen: map<Jti, Time>, jti: Jti, now: Time) { jti in seen && seen[jti] > now }

  function Swept(seen: map<Jti, Time>, now: Time): map<Jti, Time> {
    map j | j in seen && seen[j] > now :: seen[j]
  }

  /** The store, the log of every success, and the clock. */
  datatype State = State(seen: map<Jti, Time>, log: seq<Seen>, clock: Time)

  function Next(s: State, op: Op): State {
    match op
    case Witness(jti, expiresAt, now) =>
      if IsReplay(s.seen, jti, now) then s.(clock := now)
      else State(s.seen[jti := expiresAt], s.log + [Seen(jti, expiresAt, now)], now)
    case Sweep(now) => s.(seen := Swept(s.seen, now), clock := now)
  }

  ghost predicate IsRun(states: seq<State>, ops: seq<Op>) {
    && |states| == |ops| + 1
    && states[0].seen == map[] && states[0].log == []
    && forall i :: 0 <= i < |ops| ==> ops[i].now >= states[i].clock && states[i + 1] == Next(states[i], ops[i])
  }

  /** A store that never forgets would call this a replay. */
  ghost predicate EverSeen(log: seq<Seen>, jti: Jti, now: Time) {
    exists e :: e in log && e.jti == jti && e.expiresAt > now
  }

  ghost predicate Inv(s: State) {
    && (forall e :: e in s.log && e.expiresAt > s.clock ==> e.jti in s.seen && s.seen[e.jti] == e.expiresAt)
    && (forall j :: j in s.seen ==> exists e :: e in s.log && e.jti == j && e.expiresAt == s.seen[j])
    && (forall i, j :: 0 <= i < j < |s.log| && s.log[i].jti == s.log[j].jti ==> s.log[j].at >= s.log[i].expiresAt)
    && (forall e :: e in s.log ==> e.at <= s.clock)
  }

  /** Whatever has been swept, the answer is that of the full log. */
  lemma AnswersAlike(s: State, jti: Jti, now: Time)
    requires Inv(s) && now >= s.clock
    ensures IsReplay(s.seen, jti, now) <==> EverSeen(s.log, jti, now)
  {
  }

  lemma NextInv(s: State, op: Op)
    requires Inv(s) && op.now >= s.clock
    ensures Inv(Next(s, op))
  {
    var t := Next(s, op);
    if op.Witness? {
      AnswersAlike(s, op.jti, op.now);
      if !IsReplay(s.seen, op.jti, op.now) {
        var e := Seen(op.jti, op.expiresAt, op.now);
        assert t.log[|s.log|] == e;
        forall j | j in t.seen ensures exists x :: x in t.log && x.jti == j && x.expiresAt == t.seen[j] {
          if j == op.jti { assert e in t.log; } else {
            var x :| x in s.log && x.jti == j && x.expiresAt == s.seen[j];
            assert x in t.log;
          }
        }
        forall i | 0 <= i < |s.log| && s.log[i].jti == op.jti ensures op.now >= s.log[i].expiresAt {
          assert s.log[i] in s.log;
        }
      }
    }
  }

  lemma {:induction false} RunInv(states: seq<State>, ops: seq<Op>, i: nat)
    requires IsRun(states, ops) && i <= |ops|
    ensures Inv(states[i])
  {
    if i > 0 {
      RunInv(states, ops, i - 1);
      NextInv(states[i - 1], ops[i - 1]);
      assert states[i - 1 + 1] == Next(states[i - 1], ops[i - 1]);
    }
  }

  /** Over any run with a clock that never goes back, wherever sweeps fall, the store answers like one
      that remembers every success. */
  lemma NeverForgets(states: seq<State>, ops: seq<Op>, i: nat, jti: Jti, now: Time)
    requires IsRun(states, ops) && i <= |ops| && now >= states[i].clock
    ensures IsReplay(states[i].seen, jti, now) <==> EverSeen(states[i].log, jti, now)
  {
    RunInv(states, ops, i);
    AnswersAlike(states[i], jti, now);
  }

  /** An identifier succeeds at most once before the expiry recorded with it; a later success comes at
      that instant or after it. */
  lemma AtMostOnce(states: seq<State>, ops: seq<Op>, i: nat, a: nat, b: nat)
    requires IsRun(states, ops) && i <= |ops| && a < b < |states[i].log|
    requires states[i].log[a].jti == states[i].log[b].jti
    ensures states[i].log[b].at >= states[i].log[a].expiresAt
  {
    RunInv(states, ops, i);
  }

  /** And it does succeed again at that instant: after a success, wherever sweeps fall, the same identifier
      succeeds exactly from its recorded expiry on. */
  lemma {:induction false} AgainIff(s: State, jti: Jti, expiresAt: Time, at: Time, sweeps: seq<Time>, now: Time)
    requires !IsReplay(s.seen, jti, at) && forall i :: 0 <= i < |sweeps| ==> at <= sweeps[i] <= now
    ensures IsReplay(SweptAt(Next(s, Witness(jti, expiresAt, at)).seen, sweeps), jti, now) <==> now < expiresAt
  {
    if sweeps != [] {
      AgainIff(s, jti, expiresAt, at, sweeps[..|sweeps| - 1], now);
    }
  }

  function SweptAt(seen: map<Jti, Time>, sweeps: seq<Time>): map<Jti, Time> {
    if sweeps == [] then seen else Swept(SweptAt(seen, sweeps[..|sweeps| - 1]), sweeps[|sweeps| - 1])
  }

  // ---- The store as it runs --------------------------------------------------------

  class MemoryStore {
    var seen: map<Jti, Time>

    constructor ()
      ensures seen == map[]
    {
      seen := map[];
    }

    /** A stale entry is overwritten as if it were new. */
    method WitnessOne(jti: Jti, expiresAt: Time, now: Time) returns (replay: bool)
      modifies this`seen
      ensures replay == IsReplay(old(seen), jti, now)
      ensures seen == if replay then old(seen) else old(seen)[jti := expiresAt]
    {
      if jti in seen && seen[jti] > now { return true; }
      seen := seen[jti := expiresAt];
      return false;
    }

    method SweepAll(now: Time)
      modifies this`seen
      ensures seen == Swept(old(seen), now)
    {
      var todo := seen.Keys;
      while todo != {}
        invariant todo <= old(seen).Keys
        invariant seen == map j | j in old(seen) && (j in todo || old(seen)[j] > now) :: old(seen)[j]
      {
        var j :| j in todo;
        if seen[j] <= now { seen := seen - {j}; }
        todo := todo - {j};
      }
    }
  }
}
