/** The Margo identity service on values. A request reads the tables, decides, and then performs a
    list of writes; a request may stop after any of them. */
module IdentityModel {
  import opened Prelude

  type Uuid = string
  type Esi = string
  type Key = string
  type Serial = nat
  type TicketHash = string
  /** Whole seconds. */
  type Time = int

  /** The SPIFFE ID of a device carries the UUID of its logical device identity. */
  datatype SpiffeId = Device(uuid: Uuid) | Foreign(text: string)

  datatype LdiStatus = Active | Revoked | Retired

  datatype Binding = Binding(ldi: Uuid, active: bool)

  datatype Svid = Svid(spiffe: SpiffeId, key: Key, issuedAt: Time, notAfter: Time, revoked: bool)

  /** SHA-256 of the leaf, which holds serial, SPIFFE ID, key and expiry. */
  datatype Fingerprint = Sha256OfLeaf(serial: Serial, spiffe: SpiffeId, key: Key, notAfter: Time)

  datatype RevocationEntry = RevocationEntry(fingerprint: Fingerprint, revokedAt: Time, reason: string, notAfter: Time)

  datatype Ticket = Ticket(ldi: Uuid, consumed: bool, expiresAt: Time)

  datatype Tables = Tables(
    ldis: map<Uuid, LdiStatus>,
    bindings: map<Esi, Binding>,
    issued: map<Serial, Svid>,
    revoked: map<Serial, RevocationEntry>,
    tickets: map<TicketHash, Ticket>)

  const EMPTY := Tables(map[], map[], map[], map[], map[])

  function FingerprintOf(serial: Serial, v: Svid): Fingerprint {
    Sha256OfLeaf(serial, v.spiffe, v.key, v.notAfter)
  }

  predicate LiveAt(v: Svid, now: Time) { !v.revoked && v.notAfter > now }

  function LiveSerials(t: Tables, id: SpiffeId, now: Time): set<Serial> {
    set s | s in t.issued && t.issued[s].spiffe == id && LiveAt(t.issued[s], now)
  }

  // ---- Writes ----------------------------------------------------------------------

  datatype Write =
    | InsertLdiAndBind(uuid: Uuid, esi: Esi)
    | Rebind(uuid: Uuid, esi: Esi)
    | SetRevokedStatus(uuid: Uuid)
    | InsertTicket(hash: TicketHash, ldi: Uuid, expiresAt: Time)
    | ConsumeTicket(hash: TicketHash)
    | ListRevoked(serial: Serial, entry: RevocationEntry)
    | MarkRevoked(serial: Serial)
    | RecordIssued(serial: Serial, svid: Svid)
    | PruneExpired(now: Time)

  function Apply(t: Tables, w: Write): Tables {
    match w
    case InsertLdiAndBind(uuid, esi) =>
      t.(ldis := t.ldis[uuid := Active], bindings := t.bindings[esi := Binding(uuid, true)])
    case Rebind(uuid, esi) =>
      t.(bindings := Retire(t.bindings, uuid)[esi := Binding(uuid, true)])
    case SetRevokedStatus(uuid) =>
      if uuid in t.ldis then t.(ldis := t.ldis[uuid := Revoked]) else t
    case InsertTicket(hash, ldi, expiresAt) => t.(tickets := t.tickets[hash := Ticket(ldi, false, expiresAt)])
    case ConsumeTicket(hash) =>
      if hash in t.tickets then t.(tickets := t.tickets[hash := t.tickets[hash].(consumed := true)]) else t
    case ListRevoked(serial, entry) =>
      if serial in t.revoked then t else t.(revoked := t.revoked[serial := entry])
    case MarkRevoked(serial) =>
      if serial in t.issued then t.(issued := t.issued[serial := t.issued[serial].(revoked := true)]) else t
    case RecordIssued(serial, svid) => t.(issued := t.issued[serial := svid])
    case PruneExpired(now) => t.(revoked := map s | s in t.revoked && t.revoked[s].notAfter > now :: t.revoked[s])
  }

  function Retire(bindings: map<Esi, Binding>, uuid: Uuid): map<Esi, Binding> {
    map e | e in bindings :: if bindings[e].ldi == uuid then bindings[e].(active := false) else bindings[e]
  }

  function ApplyAll(t: Tables, ws: seq<Write>): Tables
    decreases |ws|
  {
    if ws == [] then t else ApplyAll(Apply(t, ws[0]), ws[1..])
  }

  // ---- Requests --------------------------------------------------------------------

  datatype Policy = Policy(allowNewLdi: bool, allowKeyRotation: bool)

  /** The replacement authorization a client presents. */
  datatype Replacement = Replacement(isOperatorTicket: bool, hash: TicketHash)

  /** What the issuer signs; without it issuing failed. */
  datatype Minted = Minted(serial: Serial, notAfter: Time)

  datatype Request =
    | Enroll(esi: Esi, key: Key, replacement: Option<Replacement>, uuid: Uuid, minted: Option<Minted>)
    | Renew(spiffe: SpiffeId, key: Key, minted: Option<Minted>)
    | RevokeSpiffe(spiffe: SpiffeId, reason: string)
    | CreateTicket(hash: TicketHash, ldi: Uuid, ttl: Time)
    | Prune
    | ExchangeJwt(spiffe: SpiffeId)

  /** A request at an instant, with what the two queries over live SVIDs answered it: all of them
      oldest first, and one that is latest. */
  datatype Call = Call(request: Request, now: Time, policy: Policy, priors: seq<Serial>, latest: Option<Serial>)

  datatype Refusal =
    | NotFound | NewLdiForbidden | KeyRotationNotPermitted | UnsupportedReplacementMethod
    | SpuriousReplacement | ReplacementNotAuthorized | IssuerFailed | StoreConflict | BadRequest

  datatype Outcome =
    | Issued(status: nat, spiffe: SpiffeId, serial: Serial)
    | TokenIssued(to: SpiffeId)
    | Done
    | Refused(why: Refusal)

  datatype Program = Program(outcome: Outcome, writes: seq<Write>)

  function Refuse(why: Refusal): Program { Program(Refused(why), []) }

  // ---- What each request does ------------------------------------------------------

  /** List a live SVID and mark its row, one after the other. */
  function RevokeOne(t: Tables, s: Serial, reason: string, now: Time): seq<Write>
    requires s in t.issued
  {
    [ListRevoked(s, RevocationEntry(FingerprintOf(s, t.issued[s]), now, reason, t.issued[s].notAfter)), MarkRevoked(s)]
  }

  function RevokeEach(t: Tables, priors: seq<Serial>, reason: string, now: Time): seq<Write>
    requires forall s :: s in priors ==> s in t.issued
  {
    if priors == [] then [] else RevokeOne(t, priors[0], reason, now) + RevokeEach(t, priors[1..], reason, now)
  }

  /** Issuing records a new row; a failed issuer leaves the writes made so far. */
  function IssueAfter(
    before: seq<Write>, status: nat, id: SpiffeId, key: Key, minted: Option<Minted>, now: Time): Program {
    if minted.None? then Program(Refused(IssuerFailed), before)
    else Program(Issued(status, id, minted.value.serial),
                 before + [RecordIssued(minted.value.serial, Svid(id, key, now, minted.value.notAfter, false))])
  }

  predicate Known(t: Tables, id: SpiffeId) { id.Device? && id.uuid in t.ldis }

  function EnrollProgram(t: Tables, c: Call): Program
    requires c.request.Enroll? && Answered(t, c)
  {
    var r := c.request;
    if r.esi !in t.bindings then
      if r.replacement.Some? then ReplaceProgram(t, c) else InitialProgram(t, c)
    else if !t.bindings[r.esi].active then Refuse(ReplacementNotAuthorized)
    else if r.replacement.Some? then Refuse(SpuriousReplacement)
    else ReEnrollProgram(t, c, t.bindings[r.esi].ldi)
  }

  function InitialProgram(t: Tables, c: Call): Program
    requires c.request.Enroll?
  {
    var r := c.request;
    if !c.policy.allowNewLdi then Refuse(NewLdiForbidden)
    else if r.uuid in t.ldis then Refuse(StoreConflict)
    else IssueAfter([InsertLdiAndBind(r.uuid, r.esi)], 201, Device(r.uuid), r.key, r.minted, c.now)
  }

  function ReplaceProgram(t: Tables, c: Call): Program
    requires c.request.Enroll? && c.request.replacement.Some? && Answered(t, c)
  {
    var r := c.request;
    var h := r.replacement.value.hash;
    if !r.replacement.value.isOperatorTicket then Refuse(UnsupportedReplacementMethod)
    else if h !in t.tickets || c.now >= t.tickets[h].expiresAt || t.tickets[h].consumed
    then Refuse(ReplacementNotAuthorized)
    else
      var ldi := t.tickets[h].ldi;
      if ldi !in t.ldis || t.ldis[ldi] != Active then Program(Refused(ReplacementNotAuthorized), [ConsumeTicket(h)])
      else IssueAfter([ConsumeTicket(h), Rebind(ldi, r.esi)] + RevokeEach(t, c.priors, "replacement", c.now),
                      200, Device(ldi), r.key, r.minted, c.now)
  }

  predicate KeyChanged(t: Tables, c: Call, key: Key)
    requires Answered(t, c)
  {
    c.latest.Some? && t.issued[c.latest.value].key != key
  }

  function ReEnrollProgram(t: Tables, c: Call, ldi: Uuid): Program
    requires c.request.Enroll? && Answered(t, c)
  {
    var r := c.request;
    if ldi !in t.ldis || t.ldis[ldi] != Active then Refuse(ReplacementNotAuthorized)
    else if KeyChanged(t, c, r.key) && !c.policy.allowKeyRotation then Refuse(KeyRotationNotPermitted)
    else IssueAfter(RevokeEach(t, c.priors, "re-enrollment", c.now), 200, Device(ldi), r.key, r.minted, c.now)
  }

  function RenewProgram(t: Tables, c: Call): Program
    requires c.request.Renew? && Answered(t, c)
  {
    var r := c.request;
    if !Known(t, r.spiffe) || t.ldis[r.spiffe.uuid] != Active || c.latest.None? then Refuse(NotFound)
    else if !KeyChanged(t, c, r.key) then IssueAfter([], 200, r.spiffe, r.key, r.minted, c.now)
    else if !c.policy.allowKeyRotation then Refuse(KeyRotationNotPermitted)
    else IssueAfter(RevokeEach(t, c.priors, "key-rotation", c.now), 200, r.spiffe, r.key, r.minted, c.now)
  }

  function RevokeProgram(t: Tables, c: Call): Program
    requires c.request.RevokeSpiffe? && Answered(t, c)
  {
    var r := c.request;
    if !Known(t, r.spiffe) then Refuse(NotFound)
    else Program(Done, RevokeEach(t, c.priors, r.reason, c.now) + [SetRevokedStatus(r.spiffe.uuid)])
  }

  function ProgramOf(t: Tables, c: Call): Program
    requires Answered(t, c)
  {
    match c.request
    case Enroll(_, _, _, _, _) => EnrollProgram(t, c)
    case Renew(_, _, _) => RenewProgram(t, c)
    case RevokeSpiffe(_, _) => RevokeProgram(t, c)
    case CreateTicket(hash, ldi, ttl) =>
      if ttl <= 0 || ldi !in t.ldis then Refuse(BadRequest)
      else if hash in t.tickets then Refuse(StoreConflict)
      else Program(Done, [InsertTicket(hash, ldi, c.now + ttl)])
    case Prune => Program(Done, [PruneExpired(c.now)])
    case ExchangeJwt(id) =>
      if Known(t, id) && t.ldis[id.uuid] == Active then Program(TokenIssued(id), []) else Refuse(NotFound)
  }

  // ---- What the queries answer -----------------------------------------------------

  /** The SPIFFE ID whose live SVIDs a request asks about. */
  function Subject(t: Tables, r: Request): SpiffeId {
    match r
    case Enroll(esi, _, repl, _, _) =>
      if esi in t.bindings then Device(t.bindings[esi].ldi)
      else if repl.Some? && repl.value.hash in t.tickets then Device(t.tickets[repl.value.hash].ldi)
      else Foreign("")
    case Renew(id, _, _) => id
    case RevokeSpiffe(id, _) => id
    case _ => Foreign("")
  }

  predicate OldestFirst(t: Tables, priors: seq<Serial>)
    requires forall s :: s in priors ==> s in t.issued
  {
    forall i, j :: 0 <= i < j < |priors| ==> t.issued[priors[i]].issuedAt <= t.issued[priors[j]].issuedAt
  }

  /** `priors` are the live SVIDs of the subject, oldest first; `latest` is one issued last. */
  ghost predicate Answered(t: Tables, c: Call) {
    var live := LiveSerials(t, Subject(t, c.request), c.now);
    && (forall s :: s in c.priors <==> s in live)
    && (forall i, j :: 0 <= i < j < |c.priors| ==> c.priors[i] != c.priors[j])
    && OldestFirst(t, c.priors)
    && (c.latest.None? <==> live == {})
    && (c.latest.Some? ==>
          && c.latest.value in live
          && forall s :: s in live ==> t.issued[s].issuedAt <= t.issued[c.latest.value].issuedAt)
  }

  // ---- Runs ------------------------------------------------------------------------

  /** A call that performs only the first `writes` of its writes. */
  datatype Event = Event(call: Call, writes: nat)

  datatype World = World(tables: Tables, clock: Time)

  function Performed(t: Tables, e: Event): (ws: seq<Write>)
    requires Answered(t, e.call)
  {
    var ws := ProgramOf(t, e.call).writes;
    if e.writes < |ws| then ws[..e.writes] else ws
  }

  predicate Complete(t: Tables, e: Event)
    requires Answered(t, e.call)
  {
    e.writes >= |ProgramOf(t, e.call).writes|
  }

  ghost predicate FreshSerial(t: Tables, c: Call)
    requires Answered(t, c)
  {
    forall s, v :: RecordIssued(s, v) in ProgramOf(t, c).writes ==> s !in t.issued
  }

  /** The clock never goes back, and the issuer never repeats a serial. */
  ghost predicate Possible(w: World, e: Event) {
    && e.call.now >= w.clock
    && Answered(w.tables, e.call)
    && FreshSerial(w.tables, e.call)
  }

  function Next(w: World, e: Event): World
    requires Possible(w, e)
  {
    World(ApplyAll(w.tables, Performed(w.tables, e)), e.call.now)
  }

  ghost predicate StepsAt(worlds: seq<World>, events: seq<Event>, i: nat)
    requires |worlds| == |events| + 1 && i < |events|
  {
    Possible(worlds[i], events[i]) && worlds[i + 1] == Next(worlds[i], events[i])
  }

  /** `worlds` are the states of a run of `events`. */
  ghost predicate IsRun(worlds: seq<World>, events: seq<Event>) {
    && |worlds| == |events| + 1
    && worlds[0].tables == EMPTY
    && forall i: nat :: i < |events| ==> StepsAt(worlds, events, i)
  }
}
