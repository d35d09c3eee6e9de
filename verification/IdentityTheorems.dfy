/** The main results about the identity service, over whole runs. */
module IdentityTheorems {
  import opened Prelude
  import opened IdentityModel
  import opened IdentityProofs

  // ---- One key ---------------------------------------------------------------------

  /** At any moment of any run, all live SVIDs of a SPIFFE ID carry the same key. */
  lemma OneLiveKey(worlds: seq<World>, events: seq<Event>, i: nat, now: Time, a: Serial, b: Serial)
    requires IsRun(worlds, events) && i <= |events| && worlds[i].clock <= now
    requires a in worlds[i].tables.issued && LiveAt(worlds[i].tables.issued[a], now)
    requires b in worlds[i].tables.issued && LiveAt(worlds[i].tables.issued[b], now)
    requires worlds[i].tables.issued[a].spiffe == worlds[i].tables.issued[b].spiffe
    ensures worlds[i].tables.issued[a].key == worlds[i].tables.issued[b].key
  {
    ReachableInv(worlds, events, i);
  }

  /** So it does not matter which of several latest SVIDs the query picks. */
  lemma LatestDoesNotMatter(worlds: seq<World>, events: seq<Event>, i: nat, c: Call, other: Serial)
    requires IsRun(worlds, events) && i <= |events| && worlds[i].clock <= c.now
    requires Answered(worlds[i].tables, c) && Answered(worlds[i].tables, c.(latest := Some(other)))
    ensures ProgramOf(worlds[i].tables, c) == ProgramOf(worlds[i].tables, c.(latest := Some(other)))
  {
    ReachableInv(worlds, events, i);
    var t, d := worlds[i].tables, c.(latest := Some(other));
    assert other in LiveSerials(t, Subject(t, c.request), c.now);
    assert c.latest.Some? && c.latest.value in LiveSerials(t, Subject(t, c.request), c.now);
    assert t.issued[c.latest.value].key == t.issued[other].key;
    if c.request.Enroll? && c.request.esi in t.bindings {
      assert KeyChanged(t, c, c.request.key) == KeyChanged(t, d, c.request.key);
    }
  }

  // ---- The revocation list ---------------------------------------------------------

  /** What the endpoint publishes at an instant. */
  ghost function Published(t: Tables, now: Time): set<(Serial, Fingerprint)> {
    set s | s in t.revoked && t.revoked[s].notAfter > now :: (s, t.revoked[s].fingerprint)
  }

  /** The SVIDs that are revoked and have not expired. */
  ghost function RevokedUnexpired(t: Tables, now: Time): set<(Serial, Fingerprint)> {
    set s | s in t.issued && t.issued[s].revoked && t.issued[s].notAfter > now :: (s, FingerprintOf(s, t.issued[s]))
  }

  /** Wherever requests stopped, a revoked and unexpired SVID is on the list. */
  lemma RevokedIsPublished(worlds: seq<World>, events: seq<Event>, i: nat, now: Time)
    requires IsRun(worlds, events) && i <= |events| && worlds[i].clock <= now
    ensures RevokedUnexpired(worlds[i].tables, now) <= Published(worlds[i].tables, now)
  {
    ReachableInv(worlds, events, i);
    var t := worlds[i].tables;
    forall s | s in t.issued && t.issued[s].revoked && t.issued[s].notAfter > now
      ensures (s, FingerprintOf(s, t.issued[s])) in Published(t, now)
    {
      assert EntryMatches(t, s, t.revoked[s]);
    }
  }

  /** With no request cut short, the list marks only what is revoked. */
  ghost predicate MarkedIfListed(t: Tables) {
    forall s :: s in t.revoked ==> s in t.issued && t.issued[s].revoked
  }

  lemma IssueMarks(
    t: Tables, before: seq<Write>, status: nat, id: SpiffeId, key: Key, minted: Option<Minted>, now: Time)
    requires MarkedIfListed(ApplyAll(t, before)) &&
      (minted.Some? ==> minted.value.serial !in ApplyAll(t, before).issued)
    ensures MarkedIfListed(ApplyAll(t, IssueAfter(before, status, id, key, minted, now).writes))
  {
    if minted.Some? {
      var record := RecordIssued(minted.value.serial, Svid(id, key, now, minted.value.notAfter, false));
      ApplyConcat(t, before, [record]);
      ApplyOne(ApplyAll(t, before), record);
    }
  }

  lemma ApplyOne(t: Tables, w: Write)
    ensures ApplyAll(t, [w]) == Apply(t, w)
  {
    assert [w][1..] == [];
  }

  lemma RevokeEachMarks(t0: Tables, t: Tables, priors: seq<Serial>, reason: string, now: Time)
    requires SameLeaves(t0, t, priors) && MarkedIfListed(t)
    ensures MarkedIfListed(ApplyAll(t, RevokeEach(t0, priors, reason, now)))
    ensures ApplyAll(t, RevokeEach(t0, priors, reason, now)).issued.Keys == t.issued.Keys
  {
    RevokeEachEffect(t0, t, priors, reason, now);
  }

  lemma CompleteMarks(t: Tables, c: Call)
    requires Inv(t, c.now) && Answered(t, c) && FreshSerial(t, c) && MarkedIfListed(t)
    ensures MarkedIfListed(ApplyAll(t, ProgramOf(t, c).writes))
  {
    match c.request {
      case Enroll(_, _, _, _, _) => EnrollMarks(t, c);
      case Renew(_, _, _) => RenewMarks(t, c);
      case RevokeSpiffe(_, _) => RevokeMarks(t, c);
      case CreateTicket(hash, ldi, ttl) => ApplyOne(t, InsertTicket(hash, ldi, c.now + ttl));
      case Prune => ApplyOne(t, PruneExpired(c.now));
      case ExchangeJwt(_) =>
    }
  }

  lemma EnrollMarks(t: Tables, c: Call)
    requires c.request.Enroll? && Inv(t, c.now) && Answered(t, c) && FreshSerial(t, c) && MarkedIfListed(t)
    ensures MarkedIfListed(ApplyAll(t, ProgramOf(t, c).writes))
  {
    var r, p := c.request, ProgramOf(t, c);
    if r.esi in t.bindings {
      if t.bindings[r.esi].active && r.replacement.None? && p != Refuse(ReplacementNotAuthorized) &&
        p != Refuse(KeyRotationNotPermitted)
      {
        RevokeThenIssueMarks(t, c, "re-enrollment", Device(t.bindings[r.esi].ldi), r.key, r.minted);
      }
    } else if r.replacement.Some? {
      ReplaceMarks(t, c);
    } else if c.policy.allowNewLdi && r.uuid !in t.ldis {
      var w := InsertLdiAndBind(r.uuid, r.esi);
      ApplyOne(t, w);
      MintedIsFresh(t, c, [w], 201, Device(r.uuid), r.key, r.minted);
      IssueMarks(t, [w], 201, Device(r.uuid), r.key, r.minted, c.now);
    }
  }

  lemma RenewMarks(t: Tables, c: Call)
    requires c.request.Renew? && Answered(t, c) && FreshSerial(t, c) && MarkedIfListed(t)
    ensures MarkedIfListed(ApplyAll(t, ProgramOf(t, c).writes))
  {
    var r := c.request;
    if Known(t, r.spiffe) && t.ldis[r.spiffe.uuid] == Active && c.latest.Some? {
      if !KeyChanged(t, c, r.key) {
        MintedIsFresh(t, c, [], 200, r.spiffe, r.key, r.minted);
        IssueMarks(t, [], 200, r.spiffe, r.key, r.minted, c.now);
      } else if c.policy.allowKeyRotation {
        RevokeThenIssueMarks(t, c, "key-rotation", r.spiffe, r.key, r.minted);
      }
    }
  }

  lemma RevokeMarks(t: Tables, c: Call)
    requires c.request.RevokeSpiffe? && Answered(t, c) && MarkedIfListed(t)
    ensures MarkedIfListed(ApplyAll(t, ProgramOf(t, c).writes))
  {
    var r := c.request;
    if Known(t, r.spiffe) {
      var before := RevokeEach(t, c.priors, r.reason, c.now);
      RevokeEachMarks(t, t, c.priors, r.reason, c.now);
      ApplyConcat(t, before, [SetRevokedStatus(r.spiffe.uuid)]);
      ApplyOne(ApplyAll(t, before), SetRevokedStatus(r.spiffe.uuid));
    }
  }

  lemma RevokeThenIssueMarks(t: Tables, c: Call, reason: string, id: SpiffeId, key: Key, minted: Option<Minted>)
    requires Answered(t, c) && FreshSerial(t, c) && MarkedIfListed(t)
    requires ProgramOf(t, c) == IssueAfter(RevokeEach(t, c.priors, reason, c.now), 200, id, key, minted, c.now)
    ensures MarkedIfListed(ApplyAll(t, ProgramOf(t, c).writes))
  {
    RevokeEachMarks(t, t, c.priors, reason, c.now);
    MintedIsFresh(t, c, RevokeEach(t, c.priors, reason, c.now), 200, id, key, minted);
    IssueMarks(t, RevokeEach(t, c.priors, reason, c.now), 200, id, key, minted, c.now);
  }

  lemma ReplaceMarks(t: Tables, c: Call)
    requires Inv(t, c.now) && Answered(t, c) && FreshSerial(t, c) && MarkedIfListed(t)
    requires c.request.Enroll? && c.request.esi !in t.bindings && c.request.replacement.Some?
    ensures MarkedIfListed(ApplyAll(t, ProgramOf(t, c).writes))
  {
    var r := c.request;
    var h := r.replacement.value.hash;
    ApplyOne(t, ConsumeTicket(h));
    if r.replacement.value.isOperatorTicket && h in t.tickets && c.now < t.tickets[h].expiresAt &&
      !t.tickets[h].consumed
    {
      var ldi := t.tickets[h].ldi;
      if ldi in t.ldis && t.ldis[ldi] == Active {
        var before, t2 := TicketThenRebind(t, c.now, h, r.esi);
        var revokes := RevokeEach(t, c.priors, "replacement", c.now);
        RevokeEachMarks(t, t2, c.priors, "replacement", c.now);
        ApplyConcat(t, before, revokes);
        MintedIsFresh(t, c, before + revokes, 200, Device(ldi), r.key, r.minted);
        IssueMarks(t, before + revokes, 200, Device(ldi), r.key, r.minted, c.now);
      }
    }
  }

  ghost predicate CompleteAt(worlds: seq<World>, events: seq<Event>, i: nat)
    requires |worlds| == |events| + 1 && i < |events|
  {
    StepsAt(worlds, events, i) && Complete(worlds[i].tables, events[i])
  }

  ghost predicate AllComplete(worlds: seq<World>, events: seq<Event>)
    requires IsRun(worlds, events)
  {
    forall i: nat :: i < |events| ==> CompleteAt(worlds, events, i)
  }

  lemma {:induction false} CompleteRunMarks(worlds: seq<World>, events: seq<Event>, i: nat)
    requires IsRun(worlds, events) && AllComplete(worlds, events) && i <= |events|
    ensures MarkedIfListed(worlds[i].tables)
  {
    if i > 0 {
      var w, e := worlds[i - 1], events[i - 1];
      CompleteRunMarks(worlds, events, i - 1);
      ReachableInv(worlds, events, i - 1);
      assert CompleteAt(worlds, events, i - 1);
      CompleteNextMarks(w, e);
    }
  }

  lemma CompleteNextMarks(w: World, e: Event)
    requires Inv(w.tables, w.clock) && Possible(w, e) && Complete(w.tables, e) && MarkedIfListed(w.tables)
    ensures MarkedIfListed(Next(w, e).tables)
  {
    LaterInv(w.tables, w.clock, e.call.now);
    CompleteMarks(w.tables, e.call);
  }

  /** With requests run to their end, wherever pruning falls, the published list is exactly the set
      of SVIDs that are revoked and have not expired. */
  lemma PublishedIsRevoked(worlds: seq<World>, events: seq<Event>, i: nat, now: Time)
    requires IsRun(worlds, events) && AllComplete(worlds, events) && i <= |events| && worlds[i].clock <= now
    ensures Published(worlds[i].tables, now) == RevokedUnexpired(worlds[i].tables, now)
  {
    RevokedIsPublished(worlds, events, i, now);
    ReachableInv(worlds, events, i);
    CompleteRunMarks(worlds, events, i);
    var t := worlds[i].tables;
    forall s | s in t.revoked && t.revoked[s].notAfter > now
      ensures (s, t.revoked[s].fingerprint) in RevokedUnexpired(t, now)
    {
      assert EntryMatches(t, s, t.revoked[s]);
    }
  }

  // ---- What never comes back -------------------------------------------------------

  /** Bindings stay with their identity and never revive; an identity changes only to revoked; a used
      ticket stays used; an issued SVID stays what it is, and revoked once it is. */
  ghost predicate Onward(t: Tables, u: Tables) {
    && (forall e :: e in t.bindings ==>
          e in u.bindings && u.bindings[e].ldi == t.bindings[e].ldi && (u.bindings[e].active ==> t.bindings[e].active))
    && (forall x :: x in t.ldis ==> x in u.ldis && (u.ldis[x] == t.ldis[x] || u.ldis[x] == Revoked))
    && (forall h :: h in t.tickets ==>
          h in u.tickets && u.tickets[h].ldi == t.tickets[h].ldi && (t.tickets[h].consumed ==> u.tickets[h].consumed))
    && (forall s :: s in t.issued ==>
          s in u.issued && (u.issued[s] == t.issued[s] || u.issued[s] == t.issued[s].(revoked := true)))
  }

  lemma WriteOnward(t: Tables, now: Time, w: Write)
    requires Allowed(t, now, w)
    ensures Onward(t, Apply(t, w))
  {
  }

  lemma {:induction false} WritesOnward(t: Tables, now: Time, ws: seq<Write>, k: nat)
    requires AllAllowed(t, now, ws) && k <= |ws|
    ensures Onward(t, ApplyAll(t, ws[..k]))
    decreases k
  {
    if k > 0 {
      WriteOnward(t, now, ws[0]);
      WritesOnward(Apply(t, ws[0]), now, ws[1..], k - 1);
      assert ws[..k][1..] == ws[1..][..k - 1];
    }
  }

  /** Between any two moments of any run. */
  lemma {:induction false} RunOnward(worlds: seq<World>, events: seq<Event>, i: nat, j: nat)
    requires IsRun(worlds, events) && i <= j <= |events|
    ensures worlds[i].clock <= worlds[j].clock && Onward(worlds[i].tables, worlds[j].tables)
    decreases j
  {
    if i < j {
      RunOnward(worlds, events, i, j - 1);
      StepOnward(worlds, events, worlds[i].tables, j - 1);
    }
  }

  lemma StepOnward(worlds: seq<World>, events: seq<Event>, t: Tables, k: nat)
    requires IsRun(worlds, events) && k < |events| && Onward(t, worlds[k].tables)
    ensures worlds[k].clock <= worlds[k + 1].clock && Onward(t, worlds[k + 1].tables)
  {
    ReachableInv(worlds, events, k);
    assert StepsAt(worlds, events, k);
    OnwardOn(t, worlds[k], events[k], worlds[k + 1]);
  }

  lemma OnwardOn(t: Tables, w: World, e: Event, v: World)
    requires Onward(t, w.tables) && Inv(w.tables, w.clock) && Possible(w, e) && v == Next(w, e)
    ensures w.clock <= v.clock && Onward(t, v.tables)
  {
    NextOnward(w, e);
    OnwardTrans(t, w.tables, v.tables);
  }

  lemma NextOnward(w: World, e: Event)
    requires Inv(w.tables, w.clock) && Possible(w, e)
    ensures w.clock <= Next(w, e).clock && Onward(w.tables, Next(w, e).tables)
  {
    var ws := ProgramOf(w.tables, e.call).writes;
    LaterInv(w.tables, w.clock, e.call.now);
    ProgramAllowed(w.tables, e.call);
    WritesOnward(w.tables, e.call.now, ws, if e.writes < |ws| then e.writes else |ws|);
    assert ws[..|ws|] == ws;
  }

  lemma OnwardTrans(t: Tables, u: Tables, v: Tables)
    requires Onward(t, u) && Onward(u, v)
    ensures Onward(t, v)
  {
  }

  // ---- Bindings and tickets --------------------------------------------------------

  /** At any moment each identity has exactly one active binding, and its retired bindings are no
      more than the used tickets that name it. */
  lemma BindingsAreAccounted(worlds: seq<World>, events: seq<Event>, i: nat, u: Uuid)
    requires IsRun(worlds, events) && i <= |events| && u in worlds[i].tables.ldis
    ensures exists e ::
      ActiveBinding(worlds[i].tables, u, e) && forall f :: ActiveBinding(worlds[i].tables, u, f) ==> f == e
    ensures |RetiredOf(worlds[i].tables, u)| <= |ConsumedFor(worlds[i].tables, u)|
  {
    ReachableInv(worlds, events, i);
    var e :| ActiveBinding(worlds[i].tables, u, e);
  }

  lemma {:induction false} RevokeEachOnlyRevokes(t: Tables, priors: seq<Serial>, reason: string, now: Time)
    requires forall s :: s in priors ==> s in t.issued
    ensures forall w :: w in RevokeEach(t, priors, reason, now) ==> w.ListRevoked? || w.MarkRevoked?
  {
    if priors != [] { RevokeEachOnlyRevokes(t, priors[1..], reason, now); }
  }

  /** A request from a bound subject uses up no ticket, whatever it presents. */
  lemma BoundUsesNoTicket(t: Tables, c: Call, w: Write)
    requires Answered(t, c) && c.request.Enroll? && c.request.esi in t.bindings
    requires w in ProgramOf(t, c).writes
    ensures !w.ConsumeTicket? && !w.Rebind?
  {
    RevokeEachOnlyRevokes(t, c.priors, "re-enrollment", c.now);
  }

  /** A subject that is retired at some moment of a run is refused, without a write, at every later one. */
  lemma RetiredIsRefused(worlds: seq<World>, events: seq<Event>, i: nat, j: nat, c: Call)
    requires IsRun(worlds, events) && i <= j <= |events| && Answered(worlds[j].tables, c) && c.request.Enroll?
    requires c.request.esi in worlds[i].tables.bindings && !worlds[i].tables.bindings[c.request.esi].active
    ensures ProgramOf(worlds[j].tables, c) == Refuse(ReplacementNotAuthorized)
  {
    RunOnward(worlds, events, i, j);
  }

  // ---- Policies and authorizations -------------------------------------------------

  /** A binding moves only for an unused, unexpired operator ticket that names an active identity, to the
      subject that presents it. */
  lemma RebindNeedsTicket(t: Tables, c: Call, u: Uuid, e: Esi)
    requires Answered(t, c) && Rebind(u, e) in ProgramOf(t, c).writes
    ensures c.request.Enroll? && c.request.esi == e && e !in t.bindings
    ensures c.request.replacement.Some? && c.request.replacement.value.isOperatorTicket
    ensures var h := c.request.replacement.value.hash;
      && h in t.tickets && t.tickets[h].ldi == u && !t.tickets[h].consumed && c.now < t.tickets[h].expiresAt
      && u in t.ldis && t.ldis[u] == Active
  {
    OnlyRevokes(t, c);
  }

  lemma OnlyRevokes(t: Tables, c: Call)
    requires Answered(t, c)
    ensures forall w :: w in RevokeEach(t, c.priors, "replacement", c.now) ==> w.ListRevoked? || w.MarkRevoked?
    ensures forall w :: w in RevokeEach(t, c.priors, "re-enrollment", c.now) ==> w.ListRevoked? || w.MarkRevoked?
    ensures forall w :: w in RevokeEach(t, c.priors, "key-rotation", c.now) ==> w.ListRevoked? || w.MarkRevoked?
    ensures c.request.RevokeSpiffe? ==>
      forall w :: w in RevokeEach(t, c.priors, c.request.reason, c.now) ==> w.ListRevoked? || w.MarkRevoked?
  {
    RevokeEachOnlyRevokes(t, c.priors, "replacement", c.now);
    RevokeEachOnlyRevokes(t, c.priors, "re-enrollment", c.now);
    RevokeEachOnlyRevokes(t, c.priors, "key-rotation", c.now);
    if c.request.RevokeSpiffe? { RevokeEachOnlyRevokes(t, c.priors, c.request.reason, c.now); }
  }

  /** An identity is created only if policy allows it, exactly when the answer is 201 (or its issuing failed). */
  lemma CreationNeedsPolicy(t: Tables, c: Call, u: Uuid, e: Esi)
    requires Answered(t, c) && InsertLdiAndBind(u, e) in ProgramOf(t, c).writes
    ensures c.policy.allowNewLdi && c.request.Enroll? && c.request.esi == e && e !in t.bindings && u !in t.ldis
    ensures ProgramOf(t, c).outcome.Issued? ==>
      ProgramOf(t, c).outcome.status == 201 && ProgramOf(t, c).outcome.spiffe == Device(u)
  {
    OnlyRevokes(t, c);
  }

  /** While a live SVID of the identity exists, only a permitted rotation or a replacement records one
      with another key. */
  lemma RotationNeedsPolicy(t: Tables, c: Call, s: Serial, v: Svid, live: Serial)
    requires Inv(t, c.now) && Answered(t, c) && RecordIssued(s, v) in ProgramOf(t, c).writes
    requires live in LiveSerials(t, v.spiffe, c.now) && t.issued[live].key != v.key
    ensures c.policy.allowKeyRotation || exists u, e :: Rebind(u, e) in ProgramOf(t, c).writes
  {
    OnlyRevokes(t, c);
    assert Known(t, t.issued[live].spiffe);
    var r, ws := c.request, ProgramOf(t, c).writes;
    if r.Enroll? && r.esi !in t.bindings && r.replacement.Some? {
      assert ws[1] == Rebind(v.spiffe.uuid, r.esi);
    } else if !(r.Enroll? && r.esi !in t.bindings) {
      assert v.spiffe == Subject(t, r);
      assert c.latest.Some? && t.issued[c.latest.value].key == t.issued[live].key;
    }
  }

  // ---- Revocation is final ---------------------------------------------------------

  /** A completed revocation leaves the identity revoked. */
  lemma RevokedAfter(t: Tables, c: Call)
    requires Inv(t, c.now) && Answered(t, c) && c.request.RevokeSpiffe? && ProgramOf(t, c).outcome == Done
    ensures var u := ApplyAll(t, ProgramOf(t, c).writes);
      c.request.spiffe.Device? && c.request.spiffe.uuid in u.ldis && u.ldis[c.request.spiffe.uuid] == Revoked
  {
    var before, last := RevokeEach(t, c.priors, c.request.reason, c.now), SetRevokedStatus(c.request.spiffe.uuid);
    RevokeEachEffect(t, t, c.priors, c.request.reason, c.now);
    ApplyConcat(t, before, [last]);
    ApplyOne(ApplyAll(t, before), last);
  }

  ghost predicate IssuesTo(p: Program, id: SpiffeId) {
    || (p.outcome.Issued? && p.outcome.spiffe == id)
    || (p.outcome.TokenIssued? && p.outcome.to == id)
    || (exists s, v :: RecordIssued(s, v) in p.writes && v.spiffe == id)
  }

  /** Nothing is issued for an identity that exists and is not active. */
  lemma InactiveGetsNothing(t: Tables, c: Call, u: Uuid)
    requires Inv(t, c.now) && Answered(t, c) && u in t.ldis && t.ldis[u] != Active
    ensures !IssuesTo(ProgramOf(t, c), Device(u))
  {
    OnlyRevokes(t, c);
  }

  /** Once a revocation completes, at every later moment of the run the identity is revoked, has no
      live SVID, and no request of any kind issues for it. */
  lemma RevocationIsFinal(worlds: seq<World>, events: seq<Event>, i: nat, j: nat, now: Time)
    requires IsRun(worlds, events) && i < j <= |events| && worlds[j].clock <= now
    requires StepsAt(worlds, events, i) && events[i].call.request.RevokeSpiffe? && Complete(worlds[i].tables, events[i])
    requires ProgramOf(worlds[i].tables, events[i].call).outcome == Done
    ensures var id := events[i].call.request.spiffe;
      && id.Device? && id.uuid in worlds[j].tables.ldis && worlds[j].tables.ldis[id.uuid] == Revoked
      && LiveSerials(worlds[j].tables, id, now) == {}
      && forall c :: Answered(worlds[j].tables, c) && c.now >= worlds[j].clock ==>
        !IssuesTo(ProgramOf(worlds[j].tables, c), id)
  {
    var id, t := events[i].call.request.spiffe, worlds[j].tables;
    ReachableInv(worlds, events, i);
    LaterInv(worlds[i].tables, worlds[i].clock, events[i].call.now);
    RevokedAfter(worlds[i].tables, events[i].call);
    RunOnward(worlds, events, i + 1, j);
    ReachableInv(worlds, events, j);
    InactiveFrom(t, worlds[j].clock, id.uuid, now);
  }

  lemma InactiveFrom(t: Tables, clock: Time, u: Uuid, now: Time)
    requires Inv(t, clock) && u in t.ldis && t.ldis[u] != Active && clock <= now
    ensures LiveSerials(t, Device(u), now) == {}
    ensures forall c :: Answered(t, c) && c.now >= clock ==> !IssuesTo(ProgramOf(t, c), Device(u))
  {
    forall s | s in t.issued && t.issued[s].spiffe == Device(u) ensures !LiveAt(t.issued[s], now) {}
    forall c | Answered(t, c) && c.now >= clock ensures !IssuesTo(ProgramOf(t, c), Device(u)) {
      LaterInv(t, clock, c.now);
      InactiveGetsNothing(t, c, u);
    }
  }
}
