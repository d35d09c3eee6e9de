/** What each request of the identity service answers and leaves behind, stated on the tables alone: when
    it issues, when and why it refuses, and what the tables are once it ran to its end. */
module IdentityEffects {
  import opened Prelude
  import opened IdentityModel
  import opened IdentityProofs
  import T = IdentityTheorems

  // ---- Who may be issued what ------------------------------------------------------

  predicate ActiveLdi(t: Tables, u: Uuid) { u in t.ldis && t.ldis[u] == Active }

  /** No live SVID of the SPIFFE ID has another key, or policy allows rotation. */
  predicate KeyAllowed(t: Tables, c: Call, id: SpiffeId, key: Key) {
    c.policy.allowKeyRotation || forall s :: s in LiveSerials(t, id, c.now) ==> t.issued[s].key == key
  }

  predicate CanCreate(t: Tables, c: Call)
    requires c.request.Enroll?
  {
    var r := c.request;
    r.esi !in t.bindings && r.replacement.None? && c.policy.allowNewLdi && r.uuid !in t.ldis
  }

  /** The ticket is there, unused, and not expired. */
  predicate GoodTicket(t: Tables, h: TicketHash, now: Time) {
    h in t.tickets && !t.tickets[h].consumed && now < t.tickets[h].expiresAt
  }

  /** An unbound subject presents a good operator ticket. */
  predicate PresentsTicket(t: Tables, c: Call)
    requires c.request.Enroll?
  {
    var r := c.request;
    && r.esi !in t.bindings && r.replacement.Some? && r.replacement.value.isOperatorTicket
    && GoodTicket(t, r.replacement.value.hash, c.now)
  }

  predicate CanReplace(t: Tables, c: Call)
    requires c.request.Enroll?
  {
    PresentsTicket(t, c) && ActiveLdi(t, t.tickets[c.request.replacement.value.hash].ldi)
  }

  predicate BoundActive(t: Tables, esi: Esi) { esi in t.bindings && t.bindings[esi].active }

  predicate CanReEnroll(t: Tables, c: Call)
    requires c.request.Enroll?
  {
    var r := c.request;
    && BoundActive(t, r.esi) && r.replacement.None? && ActiveLdi(t, t.bindings[r.esi].ldi)
    && KeyAllowed(t, c, Device(t.bindings[r.esi].ldi), r.key)
  }

  predicate CanRenew(t: Tables, c: Call)
    requires c.request.Renew?
  {
    var r := c.request;
    && r.spiffe.Device? && ActiveLdi(t, r.spiffe.uuid) && LiveSerials(t, r.spiffe, c.now) != {}
    && KeyAllowed(t, c, r.spiffe, r.key)
  }

  /** The latest live SVID has another key exactly if any live one has. */
  lemma LatestTells(t: Tables, c: Call, key: Key)
    requires Inv(t, c.now) && Answered(t, c)
    ensures KeyChanged(t, c, key) <==>
              exists s :: s in LiveSerials(t, Subject(t, c.request), c.now) && t.issued[s].key != key
  {
    forall s | s in LiveSerials(t, Subject(t, c.request), c.now)
      ensures t.issued[s].key == t.issued[c.latest.value].key
    {
      assert c.latest.value in LiveSerials(t, Subject(t, c.request), c.now);
    }
  }

  // ---- Enrollment ------------------------------------------------------------------

  /** An enrollment is answered 201 exactly if it may create, 200 exactly if it may replace or re-enroll, each
      if the issuer signs; and it fails for the issuer exactly if it may and the issuer does not. */
  lemma EnrollIssuesIff(t: Tables, c: Call)
    requires c.request.Enroll? && Inv(t, c.now) && Answered(t, c)
    ensures var r, o := c.request, ProgramOf(t, c).outcome;
      var may := CanCreate(t, c) || CanReplace(t, c) || CanReEnroll(t, c);
      && (o.Issued? <==> may && r.minted.Some?)
      && (o == Refused(IssuerFailed) <==> may && r.minted.None?)
      && (o.Issued? && CanCreate(t, c) ==> o == Issued(201, Device(r.uuid), r.minted.value.serial))
      && (o.Issued? && !CanCreate(t, c) ==> o == Issued(200, Subject(t, r), r.minted.value.serial))
  {
    LatestTells(t, c, c.request.key);
  }

  /** Why an enrollment is refused otherwise. */
  lemma EnrollRefusesIff(t: Tables, c: Call)
    requires c.request.Enroll? && Inv(t, c.now) && Answered(t, c)
    ensures var r, o := c.request, ProgramOf(t, c).outcome;
      var unbound := r.esi !in t.bindings;
      && (o == Refused(NewLdiForbidden) <==> unbound && r.replacement.None? && !c.policy.allowNewLdi)
      && (o == Refused(StoreConflict) <==>
            unbound && r.replacement.None? && c.policy.allowNewLdi && r.uuid in t.ldis)
      && (o == Refused(UnsupportedReplacementMethod) <==>
            unbound && r.replacement.Some? && !r.replacement.value.isOperatorTicket)
      && (o == Refused(SpuriousReplacement) <==> BoundActive(t, r.esi) && r.replacement.Some?)
      && (o == Refused(KeyRotationNotPermitted) <==>
            && BoundActive(t, r.esi) && r.replacement.None? && ActiveLdi(t, t.bindings[r.esi].ldi)
            && !KeyAllowed(t, c, Device(t.bindings[r.esi].ldi), r.key))
      && (o == Refused(ReplacementNotAuthorized) <==>
            || (!unbound && !t.bindings[r.esi].active)
            || (BoundActive(t, r.esi) && r.replacement.None? && !ActiveLdi(t, t.bindings[r.esi].ldi))
            || (unbound && r.replacement.Some? && r.replacement.value.isOperatorTicket && !CanReplace(t, c)))
  {
    LatestTells(t, c, c.request.key);
  }

  // ---- Renewal, revocation and the rest --------------------------------------------

  lemma RenewIssuesIff(t: Tables, c: Call)
    requires c.request.Renew? && Inv(t, c.now) && Answered(t, c)
    ensures var r, o := c.request, ProgramOf(t, c).outcome;
      && (o.Issued? <==> CanRenew(t, c) && r.minted.Some?)
      && (o.Issued? ==> o == Issued(200, r.spiffe, r.minted.value.serial))
      && (o == Refused(IssuerFailed) <==> CanRenew(t, c) && r.minted.None?)
      && (o == Refused(NotFound) <==>
            !(r.spiffe.Device? && ActiveLdi(t, r.spiffe.uuid)) || LiveSerials(t, r.spiffe, c.now) == {})
      && (o == Refused(KeyRotationNotPermitted) <==>
            && r.spiffe.Device? && ActiveLdi(t, r.spiffe.uuid) && LiveSerials(t, r.spiffe, c.now) != {}
            && !KeyAllowed(t, c, r.spiffe, r.key))
  {
    LatestTells(t, c, c.request.key);
  }

  /** A JWT is issued exactly for an active identity, and nothing is written. */
  lemma ExchangeIff(t: Tables, c: Call)
    requires c.request.ExchangeJwt? && Answered(t, c)
    ensures var id, p := c.request.spiffe, ProgramOf(t, c);
      && (p.outcome == TokenIssued(id) <==> id.Device? && ActiveLdi(t, id.uuid))
      && (p.outcome != TokenIssued(id) ==> p.outcome == Refused(NotFound))
      && p.writes == []
  {
  }

  /** A ticket is created exactly for a known identity with a positive lifetime under a new hash; it is unused,
      and runs out when its lifetime is over. */
  lemma CreateTicketIff(t: Tables, c: Call)
    requires c.request.CreateTicket? && Answered(t, c)
    ensures var r, p := c.request, ProgramOf(t, c);
      var u := ApplyAll(t, p.writes);
      && (p.outcome == Done <==> r.ttl > 0 && r.ldi in t.ldis && r.hash !in t.tickets)
      && (p.outcome == Done ==>
            && u == t.(tickets := u.tickets) && u.tickets.Keys == t.tickets.Keys + {r.hash}
            && (forall h :: h in t.tickets ==> u.tickets[h] == t.tickets[h])
            && (forall at :: GoodTicket(u, r.hash, at) <==> at < c.now + r.ttl)
            && u.tickets[r.hash].ldi == r.ldi)
      && (p.outcome != Done ==> u == t)
  {
    T.ApplyOne(t, InsertTicket(c.request.hash, c.request.ldi, c.now + c.request.ttl));
  }

  /** Pruning drops exactly the entries that have expired. */
  lemma PruneLeaves(t: Tables, c: Call)
    requires c.request.Prune? && Answered(t, c)
    ensures var u := ApplyAll(t, ProgramOf(t, c).writes);
      && ProgramOf(t, c).outcome == Done && u == t.(revoked := u.revoked)
      && (forall s :: s in u.revoked <==> s in t.revoked && t.revoked[s].notAfter > c.now)
      && (forall s :: s in u.revoked ==> u.revoked[s] == t.revoked[s])
  {
    T.ApplyOne(t, PruneExpired(c.now));
  }

  /** From `t` to `u` exactly the given serials were revoked: marked, and listed with the given reason at the
      given time unless they were listed before. Every other row and entry is as it was. */
  ghost predicate ExactlyRevoked(t: Tables, u: Tables, ss: set<Serial>, reason: string, now: Time) {
    && u.issued.Keys == t.issued.Keys && u.revoked.Keys == t.revoked.Keys + ss && ss <= t.issued.Keys
    && (forall s :: s in ss ==> u.issued[s] == t.issued[s].(revoked := true))
    && (forall s :: s in t.issued && s !in ss ==> u.issued[s] == t.issued[s])
    && (forall s :: s in t.revoked ==> u.revoked[s] == t.revoked[s])
    && (forall s :: s in ss && s !in t.revoked ==>
          u.revoked[s] ==
          RevocationEntry(FingerprintOf(s, t.issued[s]), now, reason, t.issued[s].notAfter))
  }

  lemma RevokeEachExactly(t0: Tables, t: Tables, priors: seq<Serial>, reason: string, now: Time)
    requires SameLeaves(t0, t, priors)
    ensures var u := ApplyAll(t, RevokeEach(t0, priors, reason, now));
      ExactlyRevoked(t, u, ToSet(priors), reason, now) && OnlySvids(t, u)
  {
    RevokeEachEffect(t0, t, priors, reason, now);
  }

  ghost predicate OnlySvids(t: Tables, u: Tables) {
    u.ldis == t.ldis && u.bindings == t.bindings && u.tickets == t.tickets
  }

  /** Revoking what the query answered revokes the live SVIDs, also after other tables have changed. */
  lemma RevokeLive(t: Tables, t2: Tables, c: Call, reason: string) returns (v: Tables)
    requires Answered(t, c) && t2.issued == t.issued
    ensures v == ApplyAll(t2, RevokeEach(t, c.priors, reason, c.now))
    ensures ExactlyRevoked(t2, v, LiveSerials(t, Subject(t, c.request), c.now), reason, c.now) && OnlySvids(t2, v)
  {
    v := ApplyAll(t2, RevokeEach(t, c.priors, reason, c.now));
    RevokeEachExactly(t, t2, c.priors, reason, c.now);
    assert ToSet(c.priors) == LiveSerials(t, Subject(t, c.request), c.now);
  }

  /** A revocation succeeds exactly for a known identity, live SVIDs or not. It then revokes exactly the live SVIDs of
      the SPIFFE ID, for the reason given, and the identity itself; otherwise it finds nothing and writes nothing. */
  lemma RevocationIff(t: Tables, c: Call)
    requires c.request.RevokeSpiffe? && Answered(t, c)
    ensures var r, p := c.request, ProgramOf(t, c);
      var u := ApplyAll(t, p.writes);
      && (p.outcome == Done <==> r.spiffe.Device? && r.spiffe.uuid in t.ldis)
      && (p.outcome != Done ==> p.outcome == Refused(NotFound) && u == t)
      && (p.outcome == Done ==>
            && ExactlyRevoked(t, u, LiveSerials(t, r.spiffe, c.now), r.reason, c.now)
            && u.ldis == t.ldis[r.spiffe.uuid := Revoked] && u.bindings == t.bindings && u.tickets == t.tickets)
  {
    var r := c.request;
    if Known(t, r.spiffe) {
      var before, last := RevokeEach(t, c.priors, r.reason, c.now), SetRevokedStatus(r.spiffe.uuid);
      var v := RevokeLive(t, t, c, r.reason);
      ApplyConcat(t, before, [last]);
      T.ApplyOne(v, last);
      SameIssued(t, v, Apply(v, last), LiveSerials(t, r.spiffe, c.now), r.reason, c.now);
    }
  }

  lemma SameIssued(t: Tables, v: Tables, u: Tables, ss: set<Serial>, reason: string, now: Time)
    requires ExactlyRevoked(t, v, ss, reason, now) && u.issued == v.issued && u.revoked == v.revoked
    ensures ExactlyRevoked(t, u, ss, reason, now)
  {
  }

  // ---- What issuing leaves behind --------------------------------------------------

  /** The tables hold the new SVID, and are otherwise as they were. */
  ghost predicate Recorded(t: Tables, u: Tables, id: SpiffeId, key: Key, now: Time, minted: Option<Minted>) {
    u == if minted.None? then t
         else t.(issued := t.issued[minted.value.serial := Svid(id, key, now, minted.value.notAfter, false)])
  }

  lemma IssueLeaves(
    t: Tables, before: seq<Write>, status: nat, id: SpiffeId, key: Key, minted: Option<Minted>, now: Time)
    ensures var p := IssueAfter(before, status, id, key, minted, now);
            Recorded(ApplyAll(t, before), ApplyAll(t, p.writes), id, key, now, minted)
  {
    if minted.Some? {
      var record := RecordIssued(minted.value.serial, Svid(id, key, now, minted.value.notAfter, false));
      ApplyConcat(t, before, [record]);
      T.ApplyOne(ApplyAll(t, before), record);
    }
  }

  /** Creating adds the identity, active and bound to the subject, and records the SVID; nothing is revoked. */
  lemma CreateLeaves(t: Tables, c: Call)
    requires c.request.Enroll? && Answered(t, c) && CanCreate(t, c)
    ensures var r := c.request;
      var made := t.(ldis := t.ldis[r.uuid := Active], bindings := t.bindings[r.esi := Binding(r.uuid, true)]);
      Recorded(made, ApplyAll(t, ProgramOf(t, c).writes), Device(r.uuid), r.key, c.now, r.minted)
  {
    var r := c.request;
    T.ApplyOne(t, InsertLdiAndBind(r.uuid, r.esi));
    IssueLeaves(t, [InsertLdiAndBind(r.uuid, r.esi)], 201, Device(r.uuid), r.key, r.minted, c.now);
  }

  lemma RevokeThenRecord(t: Tables, c: Call, reason: string, id: SpiffeId, key: Key, minted: Option<Minted>)
    returns (v: Tables)
    requires Answered(t, c) && Subject(t, c.request) == id
    ensures var p := IssueAfter(RevokeEach(t, c.priors, reason, c.now), 200, id, key, minted, c.now);
      && ExactlyRevoked(t, v, LiveSerials(t, id, c.now), reason, c.now) && OnlySvids(t, v)
      && Recorded(v, ApplyAll(t, p.writes), id, key, c.now, minted)
  {
    v := RevokeLive(t, t, c, reason);
    IssueLeaves(t, RevokeEach(t, c.priors, reason, c.now), 200, id, key, minted, c.now);
  }

  lemma ReEnrollIs(t: Tables, c: Call)
    requires c.request.Enroll? && Inv(t, c.now) && Answered(t, c) && CanReEnroll(t, c)
    ensures var r := c.request;
      ProgramOf(t, c) ==
      IssueAfter(RevokeEach(t, c.priors, "re-enrollment", c.now), 200, Subject(t, r), r.key, r.minted, c.now)
  {
    LatestTells(t, c, c.request.key);
  }

  lemma RenewIs(t: Tables, c: Call)
    requires c.request.Renew? && Inv(t, c.now) && Answered(t, c) && CanRenew(t, c)
    ensures var r := c.request;
      ProgramOf(t, c) ==
      IssueAfter(if KeyChanged(t, c, r.key) then RevokeEach(t, c.priors, "key-rotation", c.now) else [],
                 200, r.spiffe, r.key, r.minted, c.now)
  {
    LatestTells(t, c, c.request.key);
  }

  /** Re-enrolling revokes every live SVID of the identity, whether or not the key changes, and records the
      new one. */
  lemma ReEnrollLeaves(t: Tables, c: Call) returns (v: Tables)
    requires c.request.Enroll? && Inv(t, c.now) && Answered(t, c) && CanReEnroll(t, c)
    ensures var r := c.request;
      && ExactlyRevoked(t, v, LiveSerials(t, Subject(t, r), c.now), "re-enrollment", c.now) && OnlySvids(t, v)
      && Recorded(v, ApplyAll(t, ProgramOf(t, c).writes), Subject(t, r), r.key, c.now, r.minted)
  {
    var r := c.request;
    ReEnrollIs(t, c);
    v := RevokeThenRecord(t, c, "re-enrollment", Subject(t, r), r.key, r.minted);
  }

  /** Some live SVID of the SPIFFE ID has another key. */
  ghost predicate Rotates(t: Tables, id: SpiffeId, key: Key, now: Time) {
    exists s :: s in LiveSerials(t, id, now) && t.issued[s].key != key
  }

  /** Renewing revokes the live SVIDs exactly if the key changes, and records the new one. */
  lemma RenewLeaves(t: Tables, c: Call) returns (v: Tables)
    requires c.request.Renew? && Inv(t, c.now) && Answered(t, c) && CanRenew(t, c)
    ensures var r := c.request;
      && (if Rotates(t, r.spiffe, r.key, c.now)
          then ExactlyRevoked(t, v, LiveSerials(t, r.spiffe, c.now), "key-rotation", c.now) && OnlySvids(t, v)
          else v == t)
      && Recorded(v, ApplyAll(t, ProgramOf(t, c).writes), r.spiffe, r.key, c.now, r.minted)
  {
    var r := c.request;
    LatestTells(t, c, r.key);
    RenewIs(t, c);
    if KeyChanged(t, c, r.key) {
      v := RevokeThenRecord(t, c, "key-rotation", r.spiffe, r.key, r.minted);
    } else {
      IssueLeaves(t, [], 200, r.spiffe, r.key, r.minted, c.now);
      v := t;
    }
  }

  /** The ticket is used and everything else is as it was. */
  ghost predicate TicketUsed(t: Tables, u: Tables, h: TicketHash) {
    h in t.tickets && u == t.(tickets := t.tickets[h := t.tickets[h].(consumed := true)])
  }

  /** The identity's bindings are retired and the subject is bound to it; everything else is as it was. */
  ghost predicate BindingMoved(t: Tables, u: Tables, ldi: Uuid, esi: Esi) {
    && u == t.(bindings := u.bindings) && u.bindings.Keys == t.bindings.Keys + {esi}
    && u.bindings[esi] == Binding(ldi, true)
    && (forall e :: e in t.bindings && e != esi ==>
          u.bindings[e] == Binding(t.bindings[e].ldi, t.bindings[e].active && t.bindings[e].ldi != ldi))
  }

  /** A good ticket for an identity that is not active is used up for nothing. */
  lemma WastedTicket(t: Tables, c: Call)
    requires c.request.Enroll? && Answered(t, c) && PresentsTicket(t, c) && !CanReplace(t, c)
    ensures TicketUsed(t, ApplyAll(t, ProgramOf(t, c).writes), c.request.replacement.value.hash)
  {
    T.ApplyOne(t, ConsumeTicket(c.request.replacement.value.hash));
  }

  lemma MoveLeaves(t: Tables, h: TicketHash, ldi: Uuid, esi: Esi) returns (t1: Tables, t2: Tables)
    requires h in t.tickets
    ensures TicketUsed(t, t1, h) && BindingMoved(t1, t2, ldi, esi)
    ensures t2 == ApplyAll(t, [ConsumeTicket(h), Rebind(ldi, esi)])
  {
    var moves := [ConsumeTicket(h), Rebind(ldi, esi)];
    t1 := Apply(t, moves[0]);
    t2 := Apply(t1, moves[1]);
    assert moves == [moves[0]] + [moves[1]];
    ApplyConcat(t, [moves[0]], [moves[1]]);
    T.ApplyOne(t, moves[0]);
    T.ApplyOne(t1, moves[1]);
  }

  lemma ReplaceIs(t: Tables, c: Call)
    requires c.request.Enroll? && Answered(t, c) && CanReplace(t, c)
    ensures var r := c.request;
      var moves := [ConsumeTicket(r.replacement.value.hash), Rebind(Subject(t, r).uuid, r.esi)];
      ProgramOf(t, c) ==
      IssueAfter(moves + RevokeEach(t, c.priors, "replacement", c.now), 200, Subject(t, r), r.key, r.minted, c.now)
  {
  }

  /** Replacing uses the ticket, moves the binding, revokes every live SVID and records the new one. */
  lemma ReplaceLeaves(t: Tables, c: Call) returns (t1: Tables, t2: Tables, v: Tables)
    requires c.request.Enroll? && Answered(t, c) && CanReplace(t, c)
    ensures var r := c.request;
      var id := Subject(t, r);
      && TicketUsed(t, t1, r.replacement.value.hash) && id.Device? && BindingMoved(t1, t2, id.uuid, r.esi)
      && ExactlyRevoked(t2, v, LiveSerials(t, id, c.now), "replacement", c.now) && OnlySvids(t2, v)
      && Recorded(v, ApplyAll(t, ProgramOf(t, c).writes), id, r.key, c.now, r.minted)
  {
    var r := c.request;
    var h, id := r.replacement.value.hash, Subject(t, r);
    var moves, revokes := [ConsumeTicket(h), Rebind(id.uuid, r.esi)], RevokeEach(t, c.priors, "replacement", c.now);
    ReplaceIs(t, c);
    t1, t2 := MoveLeaves(t, h, id.uuid, r.esi);
    v := RevokeLive(t, t2, c, "replacement");
    ApplyConcat(t, moves, revokes);
    IssueLeaves(t, moves + revokes, 200, id, r.key, r.minted, c.now);
  }

  /** Any other enrollment or renewal that is refused, and not by the issuer, writes nothing. */
  lemma RefusedWritesNothing(t: Tables, c: Call)
    requires Answered(t, c) && ProgramOf(t, c).outcome.Refused? && ProgramOf(t, c).outcome.why != IssuerFailed
    requires c.request.Enroll? ==> !PresentsTicket(t, c)
    ensures ProgramOf(t, c).writes == []
  {
  }
}
