/** The identity service and a device agent together: a revocation at the service reaches the device that
    holds the SVID, whatever requests, checks, renewals, crashes and restarts lie between. */
module RevocationReach {
  import opened Prelude
  import I = IdentityModel
  import IP = IdentityProofs
  import IT = IdentityTheorems
  import E = IdentityEffects
  import L = LatchModel

  // ---- What the endpoint serves ----------------------------------------------------

  ghost function Named(t: I.Tables, now: I.Time): set<I.Fingerprint> {
    set s | s in t.revoked && t.revoked[s].notAfter > now :: t.revoked[s].fingerprint
  }

  ghost function RevokedAt(t: I.Tables, f: I.Fingerprint): I.Time {
    if f.serial in t.revoked then t.revoked[f.serial].revokedAt else 0
  }

  /** The body of the revocation list at an instant. */
  ghost function ServedList(t: I.Tables, now: I.Time): L.List {
    L.List(map f | f in Named(t, now) :: RevokedAt(t, f))
  }

  /** The body names exactly the fingerprints that the store publishes. */
  lemma ServedIsPublished(t: I.Tables, now: I.Time, f: I.Fingerprint)
    requires IP.Inv(t, now)
    ensures f in ServedList(t, now).entries <==> (f.serial, f) in IT.Published(t, now)
  {
    if f in Named(t, now) {
      var s :| s in t.revoked && t.revoked[s].notAfter > now && t.revoked[s].fingerprint == f;
      assert IP.EntryMatches(t, s, t.revoked[s]);
    }
  }

  // ---- Runs of both ----------------------------------------------------------------

  datatype World = World(service: I.World, agent: L.Agent)

  /** Any request to the service; a check by the agent, served at `now`; the agent's own renewal; and what
      the agent does alone. */
  datatype Event =
    | Serve(event: I.Event)
    | Fetch(now: I.Time, file: L.CertificateFile, at: L.Time, saves: bool)
    | Renewal(event: I.Event, wrote: bool, saves: bool)
    | Alone(step: L.Step)

  /** An agent that proceeds asks for its own SPIFFE ID. */
  ghost predicate Possible(w: World, e: Event) {
    match e
    case Serve(ev) => I.Possible(w.service, ev)
    case Fetch(now, _, _, _) => now >= w.service.clock
    case Renewal(ev, _, _) =>
      && I.Possible(w.service, ev) && ev.call.request.Renew?
      && ev.call.request.spiffe == w.agent.certificate.spiffe
      && w.agent.memory.Some? && !w.agent.memory.value.revoked
    case Alone(step) => !step.Check? && !step.Renew?
  }

  /** The leaf that answers a renewal, if the service got as far as recording and answering. */
  ghost function LeafFrom(w: I.World, ev: I.Event): Option<I.Fingerprint>
    requires I.Possible(w, ev)
  {
    var outcome, after := I.ProgramOf(w.tables, ev.call).outcome, I.Next(w, ev).tables;
    if I.Complete(w.tables, ev) && outcome.Issued? && outcome.serial in after.issued
    then Some(I.FingerprintOf(outcome.serial, after.issued[outcome.serial])) else None
  }

  ghost function AgentStep(w: World, e: Event): Option<L.Step>
    requires Possible(w, e)
  {
    match e
    case Serve(_) => None
    case Fetch(now, file, at, saves) => Some(L.Check(ServedList(w.service.tables, now), file, at, saves))
    case Renewal(ev, wrote, saves) =>
      var leaf := LeafFrom(w.service, ev);
      if leaf.Some? then Some(L.Renew(leaf.value, wrote, saves)) else None
    case Alone(step) => Some(step)
  }

  ghost function ServiceAfter(w: World, e: Event): I.World
    requires Possible(w, e)
  {
    match e
    case Serve(ev) => I.Next(w.service, ev)
    case Fetch(now, _, _, _) => I.World(w.service.tables, now)
    case Renewal(ev, _, _) => I.Next(w.service, ev)
    case Alone(_) => w.service
  }

  ghost function Next(w: World, e: Event): World
    requires Possible(w, e)
  {
    var step := AgentStep(w, e);
    World(ServiceAfter(w, e), if step.Some? then L.Next(w.agent, step.value) else w.agent)
  }

  /** Each time a new list arrives, the certificate file reads and parses. */
  ghost predicate Readable(w: World, e: Event) {
    e.Fetch? && w.agent.memory.Some? && !L.NotModified(w.agent, ServedList(w.service.tables, e.now)) ==> e.file.Leaf?
  }

  ghost predicate StepsAt(worlds: seq<World>, events: seq<Event>, i: nat)
    requires |worlds| == |events| + 1 && i < |events|
  {
    Possible(worlds[i], events[i]) && Readable(worlds[i], events[i]) && worlds[i + 1] == Next(worlds[i], events[i])
  }

  /** The certificate is one the service has issued. */
  ghost predicate HoldsLeaf(t: I.Tables, f: I.Fingerprint) {
    f.serial in t.issued && I.FingerprintOf(f.serial, t.issued[f.serial]) == f
  }

  /** A run of both, from a newly enrolled device and a service with any past. */
  ghost predicate IsRun(past: seq<I.World>, requests: seq<I.Event>, worlds: seq<World>, events: seq<Event>) {
    && I.IsRun(past, requests) && |worlds| == |events| + 1
    && worlds[0].service == past[|requests|]
    && worlds[0].agent.memory.None? && worlds[0].agent.disk == L.Saved(None, None)
    && HoldsLeaf(worlds[0].service.tables, worlds[0].agent.certificate)
    && forall i: nat :: i < |events| ==> StepsAt(worlds, events, i)
  }

  // ---- The invariant ---------------------------------------------------------------

  /** A list that was seen names only what has been issued. */
  ghost predicate NamesIssued(t: I.Tables, s: L.Saved) {
    s.etag.Some? ==> forall f :: f in s.etag.value.entries ==> f.serial in t.issued
  }

  ghost predicate AgentKnows(t: I.Tables, a: L.Agent) {
    && HoldsLeaf(t, a.certificate)
    && NamesIssued(t, a.disk) && (a.memory.Some? ==> NamesIssued(t, a.memory.value.state))
  }

  ghost predicate Inv(w: World) {
    && IP.Inv(w.service.tables, w.service.clock)
    && L.LatchOk(w.agent) && L.NothingHidden(w.agent)
    && AgentKnows(w.service.tables, w.agent)
  }

  lemma KnowsOnward(t: I.Tables, u: I.Tables, a: L.Agent)
    requires AgentKnows(t, a) && IT.Onward(t, u)
    ensures AgentKnows(u, a)
  {
  }

  lemma {:induction false} ServiceOnward(w: World, e: Event)
    requires IP.Inv(w.service.tables, w.service.clock) && Possible(w, e)
    ensures var v := ServiceAfter(w, e);
      IP.Inv(v.tables, v.clock) && w.service.clock <= v.clock && IT.Onward(w.service.tables, v.tables)
  {
    match e {
      case Serve(ev) => IP.NextInv(w.service, ev); IT.NextOnward(w.service, ev);
      case Fetch(now, _, _, _) => IP.LaterInv(w.service.tables, w.service.clock, now);
      case Renewal(ev, _, _) => IP.NextInv(w.service, ev); IT.NextOnward(w.service, ev);
      case Alone(_) =>
    }
  }

  lemma ServedNamesIssued(t: I.Tables, clock: I.Time, now: I.Time)
    requires IP.Inv(t, clock)
    ensures forall f :: f in ServedList(t, now).entries ==> f.serial in t.issued
  {
    forall f | f in Named(t, now) ensures f.serial in t.issued {
      var s :| s in t.revoked && t.revoked[s].notAfter > now && t.revoked[s].fingerprint == f;
      assert IP.EntryMatches(t, s, t.revoked[s]);
    }
  }

  lemma RenewIssues(t: I.Tables, c: I.Call) returns (before: seq<I.Write>)
    requires I.Answered(t, c) && c.request.Renew? && I.ProgramOf(t, c).outcome.Issued?
    ensures I.ProgramOf(t, c) == I.IssueAfter(before, 200, c.request.spiffe, c.request.key, c.request.minted, c.now)
  {
    before := if I.KeyChanged(t, c, c.request.key) then I.RevokeEach(t, c.priors, "key-rotation", c.now) else [];
  }

  lemma IssueRecords(
    t: I.Tables, p: I.Program, before: seq<I.Write>, id: I.SpiffeId, key: I.Key, m: Option<I.Minted>, now: I.Time)
    requires p == I.IssueAfter(before, 200, id, key, m, now) && p.outcome.Issued?
    ensures var after := I.ApplyAll(t, p.writes).issued;
      p.outcome.serial in after && after[p.outcome.serial] == I.Svid(id, key, now, m.value.notAfter, false)
    ensures I.RecordIssued(p.outcome.serial, I.Svid(id, key, now, m.value.notAfter, false)) in p.writes
  {
    var record := I.RecordIssued(m.value.serial, I.Svid(id, key, now, m.value.notAfter, false));
    IP.ApplyConcat(t, before, [record]);
    IT.ApplyOne(I.ApplyAll(t, before), record);
  }

  /** The leaf of a renewal is new, is recorded, and is for the SPIFFE ID that asked. */
  lemma LeafIsNew(w: I.World, ev: I.Event)
    requires I.Possible(w, ev) && ev.call.request.Renew? && LeafFrom(w, ev).Some?
    ensures var f := LeafFrom(w, ev).value;
      f.serial !in w.tables.issued && HoldsLeaf(I.Next(w, ev).tables, f) && f.spiffe == ev.call.request.spiffe
  {
    var r, p := ev.call.request, I.ProgramOf(w.tables, ev.call);
    var before := RenewIssues(w.tables, ev.call);
    IssueRecords(w.tables, p, before, r.spiffe, r.key, r.minted, ev.call.now);
    assert I.Next(w, ev).tables == I.ApplyAll(w.tables, p.writes);
  }

  lemma AgentStepsOn(w: World, e: Event)
    requires Inv(w) && Possible(w, e) && Readable(w, e)
    ensures L.LatchOk(Next(w, e).agent) && L.NothingHidden(Next(w, e).agent)
    ensures w.agent.disk.revokedAt.Some? ==> Next(w, e).agent.disk.revokedAt == w.agent.disk.revokedAt
  {
    var step := AgentStep(w, e);
    if step.Some? {
      if e.Renewal? {
        LeafIsNew(w.service, e.event);
        assert L.FreshLeaf(w.agent, step.value.leaf);
      }
      L.NextLatchOk(w.agent, step.value);
      L.NextNothingHidden(w.agent, step.value);
    }
  }

  lemma StepStillKnows(t: I.Tables, a: L.Agent, step: L.Step)
    requires AgentKnows(t, a)
    requires step.Check? ==> NamesIssued(t, L.Saved(Some(step.served), None))
    requires step.Renew? ==> HoldsLeaf(t, step.leaf) && step.leaf.spiffe == a.certificate.spiffe
    ensures AgentKnows(t, L.Next(a, step)) && L.Next(a, step).certificate.spiffe == a.certificate.spiffe
  {
  }

  lemma AgentStillKnows(w: World, e: Event)
    requires Inv(w) && Possible(w, e)
    ensures AgentKnows(ServiceAfter(w, e).tables, Next(w, e).agent)
    ensures Next(w, e).agent.certificate.spiffe == w.agent.certificate.spiffe
  {
    var u, step := ServiceAfter(w, e).tables, AgentStep(w, e);
    ServiceOnward(w, e);
    KnowsOnward(w.service.tables, u, w.agent);
    if step.Some? {
      if e.Fetch? { ServedNamesIssued(u, w.service.clock, e.now); }
      if e.Renewal? { LeafIsNew(w.service, e.event); }
      StepStillKnows(u, w.agent, step.value);
    }
  }

  lemma NextInv(w: World, e: Event)
    requires Inv(w) && Possible(w, e) && Readable(w, e)
    ensures Inv(Next(w, e))
  {
    ServiceOnward(w, e);
    AgentStepsOn(w, e);
    AgentStillKnows(w, e);
  }

  lemma {:induction false} RunInv(
    past: seq<I.World>, requests: seq<I.Event>, worlds: seq<World>, events: seq<Event>, i: nat)
    requires IsRun(past, requests, worlds, events) && i <= |events|
    ensures Inv(worlds[i])
  {
    if i == 0 {
      IP.ReachableInv(past, requests, |requests|);
    } else {
      RunInv(past, requests, worlds, events, i - 1);
      assert StepsAt(worlds, events, i - 1);
      NextInv(worlds[i - 1], events[i - 1]);
    }
  }

  // ---- From the revocation on ------------------------------------------------------

  /** The SPIFFE ID that the device holds is that of a revoked identity. */
  ghost predicate Doomed(w: World) {
    var id := w.agent.certificate.spiffe;
    id.Device? && id.uuid in w.service.tables.ldis && w.service.tables.ldis[id.uuid] == I.Revoked
  }

  /** The event revokes the identity whose SVID the device holds, and runs to its end. */
  ghost predicate Revokes(w: World, e: Event) {
    && Possible(w, e) && e.Serve? && e.event.call.request.RevokeSpiffe?
    && e.event.call.request.spiffe == w.agent.certificate.spiffe
    && I.Complete(w.service.tables, e.event)
    && I.ProgramOf(w.service.tables, e.event.call).outcome == I.Done
  }

  lemma RevokedIsDoomed(w: World, e: Event)
    requires Inv(w) && Revokes(w, e)
    ensures Doomed(Next(w, e))
  {
    IP.LaterInv(w.service.tables, w.service.clock, e.event.call.now);
    IT.RevokedAfter(w.service.tables, e.event.call);
  }

  lemma NoLeafForInactive(w: I.World, ev: I.Event, u: I.Uuid)
    requires IP.Inv(w.tables, w.clock) && I.Possible(w, ev) && u in w.tables.ldis && w.tables.ldis[u] != I.Active
    requires ev.call.request.Renew? && ev.call.request.spiffe == I.Device(u)
    ensures LeafFrom(w, ev).None?
  {
    IP.LaterInv(w.tables, w.clock, ev.call.now);
    IT.InactiveGetsNothing(w.tables, ev.call, u);
    if I.ProgramOf(w.tables, ev.call).outcome.Issued? { var _ := RenewIssues(w.tables, ev.call); }
  }

  lemma CertificateKept(a: L.Agent, step: L.Step)
    requires !step.Renew?
    ensures L.Next(a, step).certificate == a.certificate
  {
  }

  /** A renewal of a doomed device gets no leaf, so its certificate stays. */
  lemma DoomedStays(w: World, e: Event)
    requires Inv(w) && Doomed(w) && Possible(w, e)
    ensures Doomed(Next(w, e)) && Next(w, e).agent.certificate == w.agent.certificate
  {
    var step := AgentStep(w, e);
    if e.Renewal? { NoLeafForInactive(w.service, e.event, w.agent.certificate.spiffe.uuid); }
    if step.Some? { CertificateKept(w.agent, step.value); }
    ServiceOnward(w, e);
    RevokedStays(w.service.tables, ServiceAfter(w, e).tables, w.agent.certificate.spiffe.uuid);
  }

  lemma RevokedStays(t: I.Tables, u: I.Tables, x: I.Uuid)
    requires IT.Onward(t, u) && x in t.ldis && t.ldis[x] == I.Revoked
    ensures x in u.ldis && u.ldis[x] == I.Revoked
  {
  }

  lemma {:induction false} DoomedFrom(
    past: seq<I.World>, requests: seq<I.Event>, worlds: seq<World>, events: seq<Event>, i: nat, j: nat)
    requires IsRun(past, requests, worlds, events) && i < j <= |events| && Revokes(worlds[i], events[i])
    ensures Doomed(worlds[j]) && worlds[j].agent.certificate == worlds[i].agent.certificate
    decreases j
  {
    RunInv(past, requests, worlds, events, j - 1);
    assert StepsAt(worlds, events, j - 1);
    if i == j - 1 {
      RevokedIsDoomed(worlds[i], events[i]);
    } else {
      DoomedFrom(past, requests, worlds, events, i, j - 1);
      DoomedStays(worlds[j - 1], events[j - 1]);
    }
  }

  /** The list served to a doomed device names its certificate until it expires. */
  lemma DoomedIsServed(w: World, now: I.Time)
    requires Inv(w) && Doomed(w) && w.service.clock <= now < w.agent.certificate.notAfter
    ensures w.agent.certificate in ServedList(w.service.tables, now).entries
  {
    var t, f := w.service.tables, w.agent.certificate;
    IT.InactiveFrom(t, w.service.clock, f.spiffe.uuid, now);
    IP.LaterInv(t, w.service.clock, now);
    assert f.serial !in I.LiveSerials(t, f.spiffe, now);
    assert IP.EntryMatches(t, f.serial, t.revoked[f.serial]);
  }

  lemma CheckLatches(a: L.Agent, check: L.Step)
    requires check.Check? && a.memory.Some? && L.LatchOk(a) && L.NothingHidden(a) && L.Expected(a, check)
    requires a.certificate in check.served.entries
    ensures L.Next(a, check).memory.Some? && L.Next(a, check).memory.value.revoked
    ensures check.saves ==> L.Next(a, check).disk.revokedAt.Some?
  {
  }

  // ---- The main results ------------------------------------------------------------

  /** Once a revocation of the identity completes, every later check before the SVID expires latches the
      device that holds it. */
  lemma RevocationReaches(
    past: seq<I.World>, requests: seq<I.Event>, worlds: seq<World>, events: seq<Event>, i: nat, j: nat)
    requires IsRun(past, requests, worlds, events) && i < j < |events| && Revokes(worlds[i], events[i])
    requires events[j].Fetch? && worlds[j].agent.memory.Some? && events[j].now < worlds[i].agent.certificate.notAfter
    ensures worlds[j + 1].agent.memory.Some? && worlds[j + 1].agent.memory.value.revoked
    ensures events[j].saves ==> worlds[j + 1].agent.disk.revokedAt.Some?
  {
    RunInv(past, requests, worlds, events, j);
    assert StepsAt(worlds, events, j);
    DoomedFrom(past, requests, worlds, events, i, j);
    DoomedIsServed(worlds[j], events[j].now);
    CheckLatches(worlds[j].agent, AgentStep(worlds[j], events[j]).value);
  }

  /** From the revocation on the device keeps the certificate it had, latched or not: the service renews it
      no more. */
  lemma NeverRenewsAgain(
    past: seq<I.World>, requests: seq<I.Event>, worlds: seq<World>, events: seq<Event>, i: nat, j: nat)
    requires IsRun(past, requests, worlds, events) && i < j <= |events| && Revokes(worlds[i], events[i])
    ensures worlds[j].agent.certificate == worlds[i].agent.certificate
    ensures I.LiveSerials(worlds[j].service.tables, worlds[i].agent.certificate.spiffe, worlds[j].service.clock) == {}
  {
    RunInv(past, requests, worlds, events, j);
    DoomedFrom(past, requests, worlds, events, i, j);
    IT.InactiveFrom(worlds[j].service.tables, worlds[j].service.clock, worlds[i].agent.certificate.spiffe.uuid,
      worlds[j].service.clock);
  }

  /** And from a saved check on it does not even ask: no renewal and no exchange proceeds, through any
      restarts. */
  lemma {:induction false} NeverAsksAgain(
    past: seq<I.World>, requests: seq<I.Event>, worlds: seq<World>, events: seq<Event>, i: nat, j: nat, step: L.Step)
    requires IsRun(past, requests, worlds, events) && i <= j <= |events| && worlds[i].agent.disk.revokedAt.Some?
    requires step.Renew? || step.Exchange?
    ensures worlds[j].agent.disk.revokedAt == worlds[i].agent.disk.revokedAt && !L.Proceeds(worlds[j].agent, step)
    decreases j
  {
    RunInv(past, requests, worlds, events, j);
    if i < j {
      NeverAsksAgain(past, requests, worlds, events, i, j - 1, step);
      RunInv(past, requests, worlds, events, j - 1);
      assert StepsAt(worlds, events, j - 1);
      AgentStepsOn(worlds[j - 1], events[j - 1]);
    }
  }

  // ---- And nothing else stops a device ---------------------------------------------

  /** A renewal that the service answers in full gives the device the new leaf exactly if the service may renew
      it, the issuer signs, and the file is written; otherwise the device keeps what it has. */
  lemma RenewsIff(w: World, e: Event)
    requires Inv(w) && Possible(w, e) && e.Renewal? && I.Complete(w.service.tables, e.event)
    ensures var c := e.event.call;
      Next(w, e).agent.certificate ==
      if E.CanRenew(w.service.tables, c) && c.request.minted.Some? && e.wrote
      then I.Sha256OfLeaf(c.request.minted.value.serial, c.request.spiffe, c.request.key,
        c.request.minted.value.notAfter)
      else w.agent.certificate
  {
    var t, c := w.service.tables, e.event.call;
    var p := I.ProgramOf(t, c);
    IP.LaterInv(t, w.service.clock, c.now);
    E.RenewIssuesIff(t, c);
    if p.outcome.Issued? {
      var before := RenewIssues(t, c);
      IssueRecords(t, p, before, c.request.spiffe, c.request.key, c.request.minted, c.now);
      assert I.Next(w.service, e.event).tables == I.ApplyAll(t, p.writes);
      L.RenewedIff(w.agent, LeafFrom(w.service, e.event).value, e.wrote, e.saves);
    }
  }

  // ---- Only what is revoked latches ------------------------------------------------

  ghost predicate Latched(a: L.Agent) { a.disk.revokedAt.Some? || (a.memory.Some? && a.memory.value.revoked) }

  ghost predicate LatchedForCause(w: World) {
    Latched(w.agent) ==>
      w.agent.certificate.serial in w.service.tables.issued &&
        w.service.tables.issued[w.agent.certificate.serial].revoked
  }

  /** No request of the service is cut short. */
  ghost predicate RunsToEnd(w: World, e: Event) {
    (e.Serve? || e.Renewal?) && I.Possible(w.service, e.event) ==> I.Complete(w.service.tables, e.event)
  }

  lemma MarkedAfter(w: World, e: Event)
    requires Inv(w) && Possible(w, e) && IT.MarkedIfListed(w.service.tables) && RunsToEnd(w, e)
    ensures IT.MarkedIfListed(ServiceAfter(w, e).tables)
  {
    if e.Serve? || e.Renewal? {
      IP.LaterInv(w.service.tables, w.service.clock, e.event.call.now);
      IT.CompleteMarks(w.service.tables, e.event.call);
    }
  }

  /** A step leaves the agent latched only if it was, or by a check against a list that names it. */
  lemma WhyLatched(a: L.Agent, step: L.Step)
    requires L.LatchOk(a) && Latched(L.Next(a, step))
    ensures L.Next(a, step).certificate == a.certificate
    ensures Latched(a) || (step.Check? && a.certificate in step.served.entries)
  {
  }

  lemma ServedIsMarked(t: I.Tables, clock: I.Time, now: I.Time, f: I.Fingerprint)
    requires IP.Inv(t, clock) && IT.MarkedIfListed(t) && f in ServedList(t, now).entries
    ensures f.serial in t.issued && t.issued[f.serial].revoked
  {
    var s :| s in t.revoked && t.revoked[s].notAfter > now && t.revoked[s].fingerprint == f;
    assert IP.EntryMatches(t, s, t.revoked[s]);
  }

  lemma MarkStays(t: I.Tables, u: I.Tables, s: I.Serial)
    requires IT.Onward(t, u) && s in t.issued && t.issued[s].revoked
    ensures s in u.issued && u.issued[s].revoked
  {
  }

  lemma NextForCause(w: World, e: Event)
    requires Inv(w) && Possible(w, e) && LatchedForCause(w) && IT.MarkedIfListed(w.service.tables)
    ensures LatchedForCause(Next(w, e))
  {
    var step, f := AgentStep(w, e), w.agent.certificate;
    if Latched(Next(w, e).agent) {
      if step.Some? { WhyLatched(w.agent, step.value); }
      if !Latched(w.agent) { ServedIsMarked(w.service.tables, w.service.clock, e.now, f); }
      ServiceOnward(w, e);
      MarkStays(w.service.tables, ServiceAfter(w, e).tables, f.serial);
    }
  }

  /** With requests run to their end, a device is latched only if its own SVID is revoked. */
  lemma {:induction false} OnlyRevokedLatches(
    past: seq<I.World>, requests: seq<I.Event>, worlds: seq<World>, events: seq<Event>, i: nat)
    requires IsRun(past, requests, worlds, events) && i <= |events|
    requires IT.AllComplete(past, requests) && forall k: nat :: k < |events| ==> RunsToEnd(worlds[k], events[k])
    ensures LatchedForCause(worlds[i]) && IT.MarkedIfListed(worlds[i].service.tables)
  {
    if i == 0 {
      IT.CompleteRunMarks(past, requests, |requests|);
    } else {
      OnlyRevokedLatches(past, requests, worlds, events, i - 1);
      RunInv(past, requests, worlds, events, i - 1);
      assert StepsAt(worlds, events, i - 1) && RunsToEnd(worlds[i - 1], events[i - 1]);
      MarkedAfter(worlds[i - 1], events[i - 1]);
      NextForCause(worlds[i - 1], events[i - 1]);
    }
  }
}
