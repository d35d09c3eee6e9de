/** The identity service as it runs: stores changed by single statements, requests that read, decide
    and write in order. Each request is proved to do what its program says. */
module IdentityService {
  import opened Prelude
  import opened IdentityModel
  import opened IdentityProofs
  import T = IdentityTheorems
  import X = Text

  // ---- What the queries may answer -------------------------------------------------

  lemma {:induction false} EarliestExists(issued: map<Serial, Svid>, ss: set<Serial>)
    requires ss != {} && forall s :: s in ss ==> s in issued
    ensures exists m :: m in ss && forall s :: s in ss ==> issued[m].issuedAt <= issued[s].issuedAt
    decreases |ss|
  {
    var a :| a in ss;
    assert ss == {a} + (ss - {a});
    if ss - {a} != {} {
      EarliestExists(issued, ss - {a});
      var m :| m in ss - {a} && forall s :: s in ss - {a} ==> issued[m].issuedAt <= issued[s].issuedAt;
      assert forall s :: s in ss ==> s == a || s in ss - {a};
      var least := if issued[a].issuedAt <= issued[m].issuedAt then a else m;
      assert least in ss && forall s :: s in ss ==> issued[least].issuedAt <= issued[s].issuedAt;
    }
  }

  /** `priors` lists `ss` without repeats, oldest first. */
  ghost predicate Lists(issued: map<Serial, Svid>, ss: set<Serial>, priors: seq<Serial>) {
    && (forall s :: s in priors <==> s in ss)
    && (forall s :: s in priors ==> s in issued)
    && (forall i, j :: 0 <= i < j < |priors| ==>
          priors[i] != priors[j] && issued[priors[i]].issuedAt <= issued[priors[j]].issuedAt)
  }

  ghost predicate Picks(issued: map<Serial, Svid>, ss: set<Serial>, latest: Option<Serial>) {
    && (forall s :: s in ss ==> s in issued)
    && (latest.None? <==> ss == {})
    && (latest.Some? ==>
          latest.value in ss && forall s :: s in ss ==> issued[s].issuedAt <= issued[latest.value].issuedAt)
  }

  lemma AnsweredBy(t: Tables, c: Call)
    requires Lists(t.issued, LiveSerials(t, Subject(t, c.request), c.now), c.priors)
    requires Picks(t.issued, LiveSerials(t, Subject(t, c.request), c.now), c.latest)
    ensures Answered(t, c)
  {
  }

  lemma ListsSnoc(issued: map<Serial, Svid>, ss: set<Serial>, priors: seq<Serial>, m: Serial)
    requires Lists(issued, ss, priors) && m !in ss && m in issued
    requires forall p :: p in priors ==> issued[p].issuedAt <= issued[m].issuedAt
    ensures Lists(issued, ss + {m}, priors + [m])
  {
    assert forall i :: 0 <= i < |priors| ==> priors[i] in priors;
  }

  lemma LastIsLatest(issued: map<Serial, Svid>, ss: set<Serial>, priors: seq<Serial>)
    requires Lists(issued, ss, priors)
    ensures Picks(issued, ss, if priors == [] then None else Some(priors[|priors| - 1]))
  {
    forall s | s in ss ensures priors != [] && issued[s].issuedAt <= issued[priors[|priors| - 1]].issuedAt {
      var i :| 0 <= i < |priors| && priors[i] == s;
    }
    if priors != [] { assert priors[|priors| - 1] in priors; }
  }

  /** The rows of `ss` in the order of their issue. */
  method InIssueOrder(issued: map<Serial, Svid>, ss: set<Serial>) returns (priors: seq<Serial>)
    requires forall s :: s in ss ==> s in issued
    ensures Lists(issued, ss, priors)
  {
    priors := [];
    var rest := ss;
    while rest != {}
      invariant rest <= ss && Lists(issued, ss - rest, priors)
      invariant forall p, s :: p in priors && s in rest ==> issued[p].issuedAt <= issued[s].issuedAt
      decreases |rest|
    {
      EarliestExists(issued, rest);
      var m :| m in rest && forall s :: s in rest ==> issued[m].issuedAt <= issued[s].issuedAt;
      ListsSnoc(issued, ss - rest, priors, m);
      assert ss - (rest - {m}) == (ss - rest) + {m};
      priors, rest := priors + [m], rest - {m};
    }
    assert ss - {} == ss;
  }

  lemma {:induction false} SomeOrder(issued: map<Serial, Svid>, ss: set<Serial>) returns (priors: seq<Serial>)
    requires forall s :: s in ss ==> s in issued
    ensures Lists(issued, ss, priors)
    decreases |ss|
  {
    if ss == {} {
      priors := [];
    } else {
      EarliestExists(issued, ss);
      var m :| m in ss && forall s :: s in ss ==> issued[m].issuedAt <= issued[s].issuedAt;
      var rest := SomeOrder(issued, ss - {m});
      priors := [m] + rest;
    }
  }

  /** The queries can always be answered; a request that asks nothing is matched with any answer. */
  lemma SomeAnswer(t: Tables, r: Request, now: Time, policy: Policy) returns (c: Call)
    ensures c.request == r && c.now == now && c.policy == policy && Answered(t, c)
  {
    var live := LiveSerials(t, Subject(t, r), now);
    var priors := SomeOrder(t.issued, live);
    LastIsLatest(t.issued, live, priors);
    c := Call(r, now, policy, priors, if priors == [] then None else Some(priors[|priors| - 1]));
    AnsweredBy(t, c);
  }

  // ---- The order of the revocation list --------------------------------------------

  function HexDigit(d: nat): char
    requires d < 16
  {
    if d < 10 then ('0' as int + d) as char else ('A' as int + d - 10) as char
  }

  /** The upper-case text of a serial. */
  function Hex(n: nat): string {
    if n < 16 then [HexDigit(n)] else Hex(n / 16) + [HexDigit(n % 16)]
  }

  /** By time of revocation, then by serial text. */
  predicate Sooner(a: (Serial, RevocationEntry), b: (Serial, RevocationEntry)) {
    || a.1.revokedAt < b.1.revokedAt
    || (a.1.revokedAt == b.1.revokedAt && X.LexLeq(Hex(a.0), Hex(b.0)))
  }

  predicate InListOrder(out: seq<(Serial, RevocationEntry)>) {
    forall i, j :: 0 <= i < j < |out| ==> out[i].0 != out[j].0 && Sooner(out[i], out[j])
  }

  lemma SoonerTotal(a: (Serial, RevocationEntry), b: (Serial, RevocationEntry))
    ensures Sooner(a, b) || Sooner(b, a)
  {
    X.LexTotal(Hex(a.0), Hex(b.0));
  }

  lemma SoonerTransitive(a: (Serial, RevocationEntry), b: (Serial, RevocationEntry), c: (Serial, RevocationEntry))
    requires Sooner(a, b) && Sooner(b, c)
    ensures Sooner(a, c)
  {
    if a.1.revokedAt == b.1.revokedAt == c.1.revokedAt { X.LexTransitive(Hex(a.0), Hex(b.0), Hex(c.0)); }
  }

  predicate Soonest(revoked: map<Serial, RevocationEntry>, ss: set<Serial>, m: Serial)
    requires forall s :: s in ss ==> s in revoked
  {
    m in ss && forall s :: s in ss ==> Sooner((m, revoked[m]), (s, revoked[s]))
  }

  lemma SoonestOfMore(revoked: map<Serial, RevocationEntry>, ss: set<Serial>, a: Serial, m: Serial)
    requires a in ss && (forall s :: s in ss ==> s in revoked) && Soonest(revoked, ss - {a}, m)
    ensures Soonest(revoked, ss, a) || Soonest(revoked, ss, m)
  {
    SoonerTotal((a, revoked[a]), (a, revoked[a]));
    SoonerTotal((a, revoked[a]), (m, revoked[m]));
    if Sooner((a, revoked[a]), (m, revoked[m])) {
      forall s | s in ss ensures Sooner((a, revoked[a]), (s, revoked[s])) {
        if s != a { SoonerTransitive((a, revoked[a]), (m, revoked[m]), (s, revoked[s])); }
      }
    }
  }

  lemma {:induction false} SoonestExists(revoked: map<Serial, RevocationEntry>, ss: set<Serial>)
    requires ss != {} && forall s :: s in ss ==> s in revoked
    ensures exists m :: Soonest(revoked, ss, m)
    decreases |ss|
  {
    var a :| a in ss;
    if ss == {a} {
      SoonerTotal((a, revoked[a]), (a, revoked[a]));
      assert Soonest(revoked, ss, a);
    } else {
      SoonestExists(revoked, ss - {a});
      var m :| Soonest(revoked, ss - {a}, m);
      SoonestOfMore(revoked, ss, a, m);
    }
  }

  lemma InListOrderSnoc(out: seq<(Serial, RevocationEntry)>, p: (Serial, RevocationEntry))
    requires InListOrder(out) && forall q :: q in out ==> q.0 != p.0 && Sooner(q, p)
    ensures InListOrder(out + [p])
  {
    assert forall i :: 0 <= i < |out| ==> out[i] in out;
  }

  lemma ListIsPublished(t: Tables, now: Time, out: seq<(Serial, RevocationEntry)>)
    requires forall p :: p in out <==> p.0 in t.revoked && t.revoked[p.0] == p.1 && p.1.notAfter > now
    ensures (set p | p in out :: (p.0, p.1.fingerprint)) == T.Published(t, now)
  {
    forall s | s in t.revoked && t.revoked[s].notAfter > now
      ensures (s, t.revoked[s].fingerprint) in set p | p in out :: (p.0, p.1.fingerprint)
    {
      assert (s, t.revoked[s]) in out;
    }
  }

  /** What a method that serves a request promises. */
  twostate predicate Serves(svc: Service, r: Request, now: Time, policy: Policy, outcome: Outcome, c: Call)
    reads svc
  {
    && c.request == r && c.now == now && c.policy == policy
    && Answered(old(svc.Snapshot()), c)
    && outcome == ProgramOf(old(svc.Snapshot()), c).outcome
    && svc.Snapshot() == ApplyAll(old(svc.Snapshot()), ProgramOf(old(svc.Snapshot()), c).writes)
  }

  class Service {
    var ldis: map<Uuid, LdiStatus>
    var bindings: map<Esi, Binding>
    var issued: map<Serial, Svid>
    var revoked: map<Serial, RevocationEntry>
    var tickets: map<TicketHash, Ticket>

    function Snapshot(): Tables
      reads this
    {
      Tables(ldis, bindings, issued, revoked, tickets)
    }

    // ---- Stores --------------------------------------------------------------------

    method ActiveBySpiffe(id: SpiffeId, now: Time) returns (priors: seq<Serial>)
      ensures Lists(issued, LiveSerials(Snapshot(), id, now), priors)
    {
      priors := InIssueOrder(issued, LiveSerials(Snapshot(), id, now));
    }

    method LatestActive(id: SpiffeId, now: Time) returns (latest: Option<Serial>)
      ensures Picks(issued, LiveSerials(Snapshot(), id, now), latest)
    {
      var priors := InIssueOrder(issued, LiveSerials(Snapshot(), id, now));
      LastIsLatest(issued, LiveSerials(Snapshot(), id, now), priors);
      if priors == [] { return None; }
      latest := Some(priors[|priors| - 1]);
    }

    method Revoke(serial: Serial, entry: RevocationEntry) returns (newly: bool)
      modifies this`revoked
      ensures Snapshot() == Apply(old(Snapshot()), ListRevoked(serial, entry)) && newly == (serial !in old(revoked))
    {
      newly := serial !in revoked;
      if newly { revoked := revoked[serial := entry]; }
    }

    method MarkRevoked(serial: Serial)
      modifies this`issued
      ensures Snapshot() == Apply(old(Snapshot()), IdentityModel.MarkRevoked(serial))
    {
      if serial in issued { issued := issued[serial := issued[serial].(revoked := true)]; }
    }

    method Record(serial: Serial, v: Svid)
      modifies this`issued
      ensures Snapshot() == Apply(old(Snapshot()), RecordIssued(serial, v))
    {
      issued := issued[serial := v];
    }

    method PruneExpired(now: Time)
      modifies this`revoked
      ensures Snapshot() == Apply(old(Snapshot()), IdentityModel.PruneExpired(now))
    {
      revoked := map s | s in revoked && revoked[s].notAfter > now :: revoked[s];
    }

    /** The unexpired entries in order, and the time of the latest. */
    method List(now: Time) returns (out: seq<(Serial, RevocationEntry)>, latest: Option<Time>)
      ensures forall p :: p in out <==> p.0 in revoked && revoked[p.0] == p.1 && p.1.notAfter > now
      ensures (set p | p in out :: (p.0, p.1.fingerprint)) == T.Published(Snapshot(), now)
      ensures InListOrder(out)
      ensures latest == if out == [] then None else Some(out[|out| - 1].1.revokedAt)
    {
      var rest := set s | s in revoked && revoked[s].notAfter > now;
      ghost var all := rest;
      out, latest := [], None;
      while rest != {}
        invariant rest <= all
        invariant forall p :: p in out <==> p.0 in all - rest && p.1 == revoked[p.0]
        invariant InListOrder(out)
        invariant forall p, s :: p in out && s in rest ==> Sooner(p, (s, revoked[s]))
        invariant latest == if out == [] then None else Some(out[|out| - 1].1.revokedAt)
      {
        SoonestExists(revoked, rest);
        var s :| s in rest && Soonest(revoked, rest, s);
        if out != [] { assert out[|out| - 1] in out; }
        InListOrderSnoc(out, (s, revoked[s]));
        out := out + [(s, revoked[s])];
        if latest.None? || revoked[s].revokedAt > latest.value { latest := Some(revoked[s].revokedAt); }
        rest := rest - {s};
      }
      ListIsPublished(Snapshot(), now, out);
    }

    /** Read the ticket, check it, and flip it if it is still unused. */
    method ValidateTicket(hash: TicketHash, now: Time) returns (ldi: Option<Uuid>)
      modifies this`tickets
      ensures var ok := hash in old(tickets) && now < old(tickets)[hash].expiresAt && !old(tickets)[hash].consumed;
        && Snapshot() == (if ok then Apply(old(Snapshot()), ConsumeTicket(hash)) else old(Snapshot()))
        && ldi == if ok then Some(old(tickets)[hash].ldi) else None
    {
      if hash !in tickets || now >= tickets[hash].expiresAt || tickets[hash].consumed { return None; }
      ldi := Some(tickets[hash].ldi);
      tickets := tickets[hash := tickets[hash].(consumed := true)];
    }

    // ---- Requests ------------------------------------------------------------------

    /** List and mark every live SVID, oldest first; report those not listed before. */
    method RevokeActivePriors(id: SpiffeId, reason: string, now: Time)
      returns (newly: seq<Serial>, already: seq<Serial>, ghost priors: seq<Serial>)
      modifies this`issued, this`revoked
      ensures Lists(old(issued), LiveSerials(old(Snapshot()), id, now), priors)
      ensures Snapshot() == ApplyAll(old(Snapshot()), RevokeEach(old(Snapshot()), priors, reason, now))
      ensures forall s :: s in newly <==> s in priors && s !in old(revoked)
      ensures forall s :: s in already <==> s in priors && s in old(revoked)
    {
      var rows := ActiveBySpiffe(id, now);
      ghost var t := Snapshot();
      var before := issued;
      priors, newly, already := rows, [], [];
      for i := 0 to |rows|
        invariant Snapshot() == ApplyAll(t, RevokeEach(t, rows[..i], reason, now))
        invariant forall s :: s in newly <==> s in rows[..i] && s !in t.revoked
        invariant forall s :: s in already <==> s in rows[..i] && s in t.revoked
      {
        var s := rows[i];
        assert rows[..i + 1] == rows[..i] + [s];
        RevokeEachSnoc(t, rows[..i], s, reason, now);
        NotYetListed(t, rows, i, reason, now);
        var isNew := Revoke(s, RevocationEntry(FingerprintOf(s, before[s]), now, reason, before[s].notAfter));
        MarkRevoked(s);
        if isNew { newly := newly + [s]; } else { already := already + [s]; }
      }
      assert rows[..|rows|] == rows;
    }

    /** What issuing adds to the writes before it. */
    method Issue(
      status: nat, id: SpiffeId, key: Key, minted: Option<Minted>, now: Time, ghost t: Tables,
      ghost before: seq<Write>)
      returns (outcome: Outcome)
      requires Snapshot() == ApplyAll(t, before)
      modifies this`issued
      ensures outcome == IssueAfter(before, status, id, key, minted, now).outcome
      ensures Snapshot() == ApplyAll(t, IssueAfter(before, status, id, key, minted, now).writes)
    {
      if minted.None? { return Refused(IssuerFailed); }
      var v := Svid(id, key, now, minted.value.notAfter, false);
      Record(minted.value.serial, v);
      ApplyConcat(t, before, [RecordIssued(minted.value.serial, v)]);
      T.ApplyOne(ApplyAll(t, before), RecordIssued(minted.value.serial, v));
      return Issued(status, id, minted.value.serial);
    }

    method Enroll(
      esi: Esi, key: Key, replacement: Option<Replacement>, uuid: Uuid, minted: Option<Minted>, now: Time,
      policy: Policy)
      returns (outcome: Outcome, ghost c: Call)
      modifies this
      ensures Serves(this, IdentityModel.Enroll(esi, key, replacement, uuid, minted), now, policy, outcome, c)
    {
      ghost var t, r := Snapshot(), IdentityModel.Enroll(esi, key, replacement, uuid, minted);
      if esi !in bindings {
        if replacement.Some? {
          outcome, c := HandleReplacement(esi, key, replacement.value, uuid, minted, now, policy);
        } else {
          outcome, c := HandleInitial(esi, key, uuid, minted, now, policy);
        }
        return;
      }
      if !bindings[esi].active || replacement.Some? {
        c := SomeAnswer(t, r, now, policy);
        return Refused(if bindings[esi].active then SpuriousReplacement else ReplacementNotAuthorized), c;
      }
      outcome, c := HandleReEnrollment(bindings[esi].ldi, esi, key, uuid, minted, now, policy);
    }

    method HandleInitial(esi: Esi, key: Key, uuid: Uuid, minted: Option<Minted>, now: Time, policy: Policy)
      returns (outcome: Outcome, ghost c: Call)
      requires esi !in bindings
      modifies this
      ensures Serves(this, IdentityModel.Enroll(esi, key, None, uuid, minted), now, policy, outcome, c)
    {
      ghost var t := Snapshot();
      c := SomeAnswer(t, IdentityModel.Enroll(esi, key, None, uuid, minted), now, policy);
      if !policy.allowNewLdi { return Refused(NewLdiForbidden), c; }
      if uuid in ldis { return Refused(StoreConflict), c; }
      T.ApplyOne(t, InsertLdiAndBind(uuid, esi));
      ldis, bindings := ldis[uuid := Active], bindings[esi := Binding(uuid, true)];
      outcome := Issue(201, Device(uuid), key, minted, now, t, [InsertLdiAndBind(uuid, esi)]);
    }

    method HandleReEnrollment(
      ldi: Uuid, esi: Esi, key: Key, uuid: Uuid, minted: Option<Minted>, now: Time, policy: Policy)
      returns (outcome: Outcome, ghost c: Call)
      requires esi in bindings && bindings[esi] == Binding(ldi, true)
      modifies this
      ensures Serves(this, IdentityModel.Enroll(esi, key, None, uuid, minted), now, policy, outcome, c)
    {
      ghost var t := Snapshot();
      c := SomeAnswer(t, IdentityModel.Enroll(esi, key, None, uuid, minted), now, policy);
      if ldi !in ldis || ldis[ldi] != Active { return Refused(ReplacementNotAuthorized), c; }
      var latest := LatestActive(Device(ldi), now);
      c := c.(latest := latest);
      AnsweredBy(t, c);
      if latest.Some? && issued[latest.value].key != key && !policy.allowKeyRotation {
        return Refused(KeyRotationNotPermitted), c;
      }
      ghost var priors;
      var newly, already;
      newly, already, priors := RevokeActivePriors(Device(ldi), "re-enrollment", now);
      c := c.(priors := priors);
      AnsweredBy(t, c);
      ReEnrolls(t, c, ldi);
      outcome := Issue(200, Device(ldi), key, minted, now, t, RevokeEach(t, priors, "re-enrollment", now));
    }

    /** The ticket is used first, then the binding moves, then old SVIDs go, then a new one is issued. */
    method HandleReplacement(
      esi: Esi, key: Key, presented: Replacement, uuid: Uuid, minted: Option<Minted>, now: Time, policy: Policy)
      returns (outcome: Outcome, ghost c: Call)
      requires esi !in bindings
      modifies this
      ensures Serves(this, IdentityModel.Enroll(esi, key, Some(presented), uuid, minted), now, policy, outcome, c)
    {
      ghost var t := Snapshot();
      c := SomeAnswer(t, IdentityModel.Enroll(esi, key, Some(presented), uuid, minted), now, policy);
      if !presented.isOperatorTicket { return Refused(UnsupportedReplacementMethod), c; }
      var target := ValidateTicket(presented.hash, now);
      if target.None? { return Refused(ReplacementNotAuthorized), c; }
      var ldi := target.value;
      T.ApplyOne(t, ConsumeTicket(presented.hash));
      if ldi !in ldis || ldis[ldi] != Active { return Refused(ReplacementNotAuthorized), c; }
      ghost var before := [ConsumeTicket(presented.hash), Rebind(ldi, esi)];
      bindings := Retire(bindings, ldi)[esi := Binding(ldi, true)];
      TwoWrites(t, ConsumeTicket(presented.hash), Rebind(ldi, esi));
      ghost var t2 := Snapshot();
      assert LiveSerials(t2, Device(ldi), now) == LiveSerials(t, Device(ldi), now);
      ghost var priors;
      var newly, already;
      newly, already, priors := RevokeActivePriors(Device(ldi), "replacement", now);
      c := c.(priors := priors);
      AnsweredBy(t, c);
      Replaces(t, c, ldi);
      ghost var revokes := RevokeEach(t, priors, "replacement", now);
      SameRevokes(t, t2, priors, "replacement", now);
      ApplyConcat(t, before, revokes);
      outcome := Issue(200, Device(ldi), key, minted, now, t, before + revokes);
    }

    method Renew(id: SpiffeId, key: Key, minted: Option<Minted>, now: Time, policy: Policy)
      returns (outcome: Outcome, ghost c: Call)
      modifies this
      ensures Serves(this, IdentityModel.Renew(id, key, minted), now, policy, outcome, c)
    {
      ghost var t := Snapshot();
      c := SomeAnswer(t, IdentityModel.Renew(id, key, minted), now, policy);
      if !id.Device? || id.uuid !in ldis || ldis[id.uuid] != Active { return Refused(NotFound), c; }
      var latest := LatestActive(id, now);
      c := c.(latest := latest);
      AnsweredBy(t, c);
      if latest.None? { return Refused(NotFound), c; }
      var keyChanged := issued[latest.value].key != key;
      if keyChanged && !policy.allowKeyRotation { return Refused(KeyRotationNotPermitted), c; }
      ghost var before := [];
      if keyChanged {
        ghost var priors;
        var newly, already;
        newly, already, priors := RevokeActivePriors(id, "key-rotation", now);
        c := c.(priors := priors);
        AnsweredBy(t, c);
        before := RevokeEach(t, priors, "key-rotation", now);
      }
      outcome := Issue(200, id, key, minted, now, t, before);
    }

    method RevokeSpiffe(id: SpiffeId, reason: string, now: Time, policy: Policy)
      returns (outcome: Outcome, newly: seq<Serial>, already: seq<Serial>, ghost c: Call)
      modifies this
      ensures Serves(this, IdentityModel.RevokeSpiffe(id, reason), now, policy, outcome, c)
      ensures outcome == Done <==> id.Device? && id.uuid in old(ldis)
      ensures outcome == Done ==> ldis == old(ldis)[id.uuid := Revoked]
      ensures outcome != Done ==> outcome == Refused(NotFound) && Snapshot() == old(Snapshot())
      ensures outcome == Done ==>
        forall s :: s in newly <==> s in LiveSerials(old(Snapshot()), id, now) && s !in old(revoked)
      ensures outcome == Done ==>
        forall s :: s in already <==> s in LiveSerials(old(Snapshot()), id, now) && s in old(revoked)
    {
      ghost var t := Snapshot();
      newly, already := [], [];
      c := SomeAnswer(t, IdentityModel.RevokeSpiffe(id, reason), now, policy);
      if !id.Device? || id.uuid !in ldis { return Refused(NotFound), newly, already, c; }
      ghost var priors;
      newly, already, priors := RevokeActivePriors(id, reason, now);
      c := c.(priors := priors);
      AnsweredBy(t, c);
      ghost var before := RevokeEach(t, priors, reason, now);
      RevokeEachEffect(t, t, priors, reason, now);
      ApplyConcat(t, before, [SetRevokedStatus(id.uuid)]);
      T.ApplyOne(Snapshot(), SetRevokedStatus(id.uuid));
      ldis := ldis[id.uuid := Revoked];
      outcome := Done;
    }

    method CreateTicket(hash: TicketHash, ldi: Uuid, ttl: Time, now: Time, policy: Policy)
      returns (outcome: Outcome, ghost c: Call)
      modifies this
      ensures Serves(this, IdentityModel.CreateTicket(hash, ldi, ttl), now, policy, outcome, c)
    {
      ghost var t := Snapshot();
      c := SomeAnswer(t, IdentityModel.CreateTicket(hash, ldi, ttl), now, policy);
      if ttl <= 0 || ldi !in ldis { return Refused(BadRequest), c; }
      if hash in tickets { return Refused(StoreConflict), c; }
      T.ApplyOne(t, InsertTicket(hash, ldi, now + ttl));
      tickets := tickets[hash := Ticket(ldi, false, now + ttl)];
      outcome := Done;
    }
  }

  lemma ReEnrolls(t: Tables, c: Call, ldi: Uuid)
    requires Answered(t, c) && c.request.Enroll? && c.request.replacement.None?
    requires c.request.esi in t.bindings && t.bindings[c.request.esi] == Binding(ldi, true) && ldi in t.ldis &&
      t.ldis[ldi] == Active
    requires !KeyChanged(t, c, c.request.key) || c.policy.allowKeyRotation
    ensures var r := c.request;
            var revokes := RevokeEach(t, c.priors, "re-enrollment", c.now);
            ProgramOf(t, c) == IssueAfter(revokes, 200, Device(ldi), r.key, r.minted, c.now)
  {
  }

  lemma Replaces(t: Tables, c: Call, ldi: Uuid)
    requires Answered(t, c) && c.request.Enroll? && c.request.esi !in t.bindings && c.request.replacement.Some?
    requires var p := c.request.replacement.value;
             p.isOperatorTicket && p.hash in t.tickets && c.now < t.tickets[p.hash].expiresAt &&
               !t.tickets[p.hash].consumed && t.tickets[p.hash].ldi == ldi
    requires ldi in t.ldis && t.ldis[ldi] == Active
    ensures var r := c.request;
            var moves := [ConsumeTicket(r.replacement.value.hash), Rebind(ldi, r.esi)];
            ProgramOf(t, c) == IssueAfter(moves + RevokeEach(t, c.priors, "replacement", c.now),
                                          200, Device(ldi), r.key, r.minted, c.now)
  {
  }

  lemma TwoWrites(t: Tables, a: Write, b: Write)
    ensures ApplyAll(t, [a, b]) == Apply(Apply(t, a), b)
  {
    assert [a, b] == [a] + [b];
    ApplyConcat(t, [a], [b]);
    T.ApplyOne(t, a);
    T.ApplyOne(Apply(t, a), b);
  }

  lemma {:induction false} SameRevokes(t: Tables, u: Tables, priors: seq<Serial>, reason: string, now: Time)
    requires t.issued == u.issued && forall s :: s in priors ==> s in t.issued
    ensures RevokeEach(t, priors, reason, now) == RevokeEach(u, priors, reason, now)
  {
    if priors != [] { SameRevokes(t, u, priors[1..], reason, now); }
  }

  lemma NotYetListed(t: Tables, rows: seq<Serial>, i: nat, reason: string, now: Time)
    requires i < |rows| && (forall s :: s in rows ==> s in t.issued) && (forall j :: 0 <= j < i ==> rows[j] != rows[i])
    ensures rows[i] in ApplyAll(t, RevokeEach(t, rows[..i], reason, now)).revoked <==> rows[i] in t.revoked
  {
    RevokeEachEffect(t, t, rows[..i], reason, now);
  }

  lemma {:induction false} RevokeEachSnoc(t: Tables, front: seq<Serial>, s: Serial, reason: string, now: Time)
    requires s in t.issued && forall p :: p in front ==> p in t.issued
    ensures var u := ApplyAll(t, RevokeEach(t, front, reason, now));
            ApplyAll(t, RevokeEach(t, front + [s], reason, now)) ==
            Apply(Apply(u, RevokeOne(t, s, reason, now)[0]), RevokeOne(t, s, reason, now)[1])
  {
    var one := RevokeOne(t, s, reason, now);
    RevokeEachAppend(t, front, s, reason, now);
    ApplyConcat(t, RevokeEach(t, front, reason, now), one);
    assert one == [one[0]] + [one[1]];
    ApplyConcat(ApplyAll(t, RevokeEach(t, front, reason, now)), [one[0]], [one[1]]);
    T.ApplyOne(ApplyAll(t, RevokeEach(t, front, reason, now)), one[0]);
    T.ApplyOne(Apply(ApplyAll(t, RevokeEach(t, front, reason, now)), one[0]), one[1]);
  }

  lemma {:induction false} RevokeEachAppend(t: Tables, front: seq<Serial>, s: Serial, reason: string, now: Time)
    requires s in t.issued && forall p :: p in front ==> p in t.issued
    ensures RevokeEach(t, front + [s], reason, now) == RevokeEach(t, front, reason, now) + RevokeOne(t, s, reason, now)
    decreases |front|
  {
    if front == [] {
      assert front + [s] == [s] && [s][1..] == [];
    } else {
      RevokeEachAppend(t, front[1..], s, reason, now);
      assert (front + [s])[1..] == front[1..] + [s];
    }
  }
}
