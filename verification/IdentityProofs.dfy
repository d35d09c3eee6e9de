/** What holds in every state the identity service can reach, wherever its requests stop. */
module IdentityProofs {
  import opened Prelude
  import opened IdentityModel

  // ---- The invariant ---------------------------------------------------------------

  ghost function RetiredOf(t: Tables, u: Uuid): set<Esi> {
    set e | e in t.bindings && t.bindings[e].ldi == u && !t.bindings[e].active
  }

  ghost function ConsumedFor(t: Tables, u: Uuid): set<TicketHash> {
    set h | h in t.tickets && t.tickets[h].ldi == u && t.tickets[h].consumed
  }

  ghost predicate ActiveBinding(t: Tables, u: Uuid, e: Esi) {
    e in t.bindings && t.bindings[e] == Binding(u, true)
  }

  /** Every identity has exactly one active binding, and no more retired ones than used tickets. */
  ghost predicate BindingsOk(t: Tables) {
    && (forall e :: e in t.bindings ==> t.bindings[e].ldi in t.ldis)
    && (forall u :: u in t.ldis ==> exists e :: ActiveBinding(t, u, e))
    && (forall u, e, f :: ActiveBinding(t, u, e) && ActiveBinding(t, u, f) ==> e == f)
    && (forall u :: |RetiredOf(t, u)| <= |ConsumedFor(t, u)|)
  }

  /** All live SVIDs of one SPIFFE ID carry one key. */
  ghost predicate KeysOk(t: Tables, now: Time) {
    forall a, b | a in t.issued && b in t.issued && LiveAt(t.issued[a], now) && LiveAt(t.issued[b], now) ::
      t.issued[a].spiffe == t.issued[b].spiffe ==> t.issued[a].key == t.issued[b].key
  }

  /** A live SVID belongs to an active identity. */
  ghost predicate OwnersOk(t: Tables, now: Time) {
    forall s :: s in t.issued ==>
      Known(t, t.issued[s].spiffe) && (LiveAt(t.issued[s], now) ==> t.ldis[t.issued[s].spiffe.uuid] == Active)
  }

  ghost predicate EntryMatches(t: Tables, s: Serial, entry: RevocationEntry) {
    s in t.issued && entry.fingerprint == FingerprintOf(s, t.issued[s]) && entry.notAfter == t.issued[s].notAfter
  }

  /** What is marked revoked and has not expired is listed; what is listed was issued. */
  ghost predicate ListOk(t: Tables, now: Time) {
    && (forall s :: s in t.issued && t.issued[s].revoked && t.issued[s].notAfter > now ==> s in t.revoked)
    && (forall s :: s in t.revoked ==> EntryMatches(t, s, t.revoked[s]))
  }

  ghost predicate SvidsOk(t: Tables, now: Time) {
    KeysOk(t, now) && OwnersOk(t, now) && ListOk(t, now)
  }

  ghost predicate Inv(t: Tables, now: Time) { BindingsOk(t) && SvidsOk(t, now) }

  lemma LaterInv(t: Tables, now: Time, later: Time)
    requires Inv(t, now) && now <= later
    ensures Inv(t, later)
  {
  }

  // ---- Which writes keep it --------------------------------------------------------

  ghost predicate Allowed(t: Tables, now: Time, w: Write) {
    match w
    case InsertLdiAndBind(uuid, esi) => uuid !in t.ldis && esi !in t.bindings
    case Rebind(uuid, esi) =>
      uuid in t.ldis && esi !in t.bindings && |RetiredOf(t, uuid)| < |ConsumedFor(t, uuid)|
    case SetRevokedStatus(uuid) => uuid in t.ldis && LiveSerials(t, Device(uuid), now) == {}
    case InsertTicket(hash, ldi, _) => hash !in t.tickets && ldi in t.ldis
    case ConsumeTicket(hash) => hash in t.tickets && !t.tickets[hash].consumed
    case ListRevoked(serial, entry) => EntryMatches(t, serial, entry)
    case MarkRevoked(serial) => serial in t.issued && serial in t.revoked
    case RecordIssued(serial, v) =>
      && serial !in t.issued && !v.revoked && Known(t, v.spiffe) && t.ldis[v.spiffe.uuid] == Active
      && (forall s :: s in LiveSerials(t, v.spiffe, now) ==> t.issued[s].key == v.key)
    case PruneExpired(at) => at <= now
  }

  lemma WriteKeepsInv(t: Tables, now: Time, w: Write)
    requires Inv(t, now) && Allowed(t, now, w)
    ensures Inv(Apply(t, w), now)
  {
    WriteKeepsBindings(t, now, w);
    WriteKeepsSvids(t, now, w);
  }

  lemma WriteKeepsBindings(t: Tables, now: Time, w: Write)
    requires BindingsOk(t) && Allowed(t, now, w)
    ensures BindingsOk(Apply(t, w))
  {
    match w {
      case InsertLdiAndBind(uuid, esi) => InsertKeepsBindings(t, uuid, esi);
      case Rebind(uuid, esi) => RebindKeepsBindings(t, uuid, esi);
      case ConsumeTicket(hash) => ConsumeKeepsBindings(t, hash);
      case InsertTicket(hash, ldi, expiresAt) => TicketKeepsBindings(t, hash, ldi, expiresAt);
      case _ => BindingsFrame(t, Apply(t, w));
    }
  }

  lemma WriteKeepsSvids(t: Tables, now: Time, w: Write)
    requires Inv(t, now) && Allowed(t, now, w)
    ensures SvidsOk(Apply(t, w), now)
  {
    match w {
      case SetRevokedStatus(uuid) => StatusKeepsSvids(t, now, uuid);
      case RecordIssued(serial, v) => RecordKeepsSvids(t, now, serial, v);
      case ListRevoked(serial, entry) => ListKeepsSvids(t, now, serial, entry);
      case MarkRevoked(serial) => MarkKeepsSvids(t, now, serial);
      case PruneExpired(at) => PruneKeepsSvids(t, now, at);
      case _ => SvidFrame(t, Apply(t, w), now);
    }
  }

  lemma BindingsFrame(t: Tables, u: Tables)
    requires BindingsOk(t) && u.bindings == t.bindings && u.tickets == t.tickets && u.ldis.Keys == t.ldis.Keys
    ensures BindingsOk(u)
  {
    forall x ensures RetiredOf(u, x) == RetiredOf(t, x) && ConsumedFor(u, x) == ConsumedFor(t, x) {}
    assert forall x, e :: ActiveBinding(u, x, e) <==> ActiveBinding(t, x, e);
  }

  lemma SvidFrame(t: Tables, u: Tables, now: Time)
    requires Inv(t, now) && u.issued == t.issued && u.revoked == t.revoked
    requires forall x :: x in t.ldis ==> x in u.ldis && u.ldis[x] == t.ldis[x]
    ensures SvidsOk(u, now)
  {
    assert forall s :: s in t.issued ==> Known(t, t.issued[s].spiffe);
    assert forall s :: s in t.revoked ==> EntryMatches(t, s, t.revoked[s]);
  }

  lemma StatusKeepsSvids(t: Tables, now: Time, uuid: Uuid)
    requires Inv(t, now) && Allowed(t, now, SetRevokedStatus(uuid))
    ensures SvidsOk(Apply(t, SetRevokedStatus(uuid)), now)
  {
    assert forall s :: s in t.issued && LiveAt(t.issued[s], now) && t.issued[s].spiffe == Device(uuid) ==>
                         s in LiveSerials(t, Device(uuid), now);
  }

  lemma RecordKeepsSvids(t: Tables, now: Time, serial: Serial, v: Svid)
    requires Inv(t, now) && Allowed(t, now, RecordIssued(serial, v))
    ensures SvidsOk(Apply(t, RecordIssued(serial, v)), now)
  {
    assert forall s :: s in t.issued && LiveAt(t.issued[s], now) && t.issued[s].spiffe == v.spiffe ==>
                         s in LiveSerials(t, v.spiffe, now);
  }

  lemma ListKeepsSvids(t: Tables, now: Time, serial: Serial, entry: RevocationEntry)
    requires Inv(t, now) && Allowed(t, now, ListRevoked(serial, entry))
    ensures SvidsOk(Apply(t, ListRevoked(serial, entry)), now)
  {
  }

  lemma MarkKeepsSvids(t: Tables, now: Time, serial: Serial)
    requires Inv(t, now) && Allowed(t, now, MarkRevoked(serial))
    ensures SvidsOk(Apply(t, MarkRevoked(serial)), now)
  {
    var u := Apply(t, MarkRevoked(serial));
    assert forall s :: s in t.issued ==>
      u.issued[s] == t.issued[s] || (s == serial && u.issued[s] == t.issued[s].(revoked := true));
    assert KeysOk(u, now);
    assert OwnersOk(u, now);
    forall s | s in u.revoked ensures EntryMatches(u, s, u.revoked[s]) { assert EntryMatches(t, s, t.revoked[s]); }
  }

  lemma PruneKeepsSvids(t: Tables, now: Time, at: Time)
    requires Inv(t, now) && at <= now
    ensures SvidsOk(Apply(t, PruneExpired(at)), now)
  {
  }

  lemma InsertKeepsBindings(t: Tables, uuid: Uuid, esi: Esi)
    requires BindingsOk(t) && uuid !in t.ldis && esi !in t.bindings
    ensures BindingsOk(Apply(t, InsertLdiAndBind(uuid, esi)))
  {
    var u := Apply(t, InsertLdiAndBind(uuid, esi));
    forall x ensures RetiredOf(u, x) == RetiredOf(t, x) && ConsumedFor(u, x) == ConsumedFor(t, x) {}
    assert ActiveBinding(u, uuid, esi);
    forall x | x in u.ldis && x != uuid ensures exists e :: ActiveBinding(u, x, e) {
      var e :| ActiveBinding(t, x, e);
      assert ActiveBinding(u, x, e);
    }
    forall x, e | ActiveBinding(u, x, e) ensures (x == uuid && e == esi) || (x != uuid && ActiveBinding(t, x, e)) {}
  }

  lemma ConsumeKeepsBindings(t: Tables, hash: TicketHash)
    requires BindingsOk(t) && hash in t.tickets && !t.tickets[hash].consumed
    ensures BindingsOk(Apply(t, ConsumeTicket(hash)))
    ensures |ConsumedFor(Apply(t, ConsumeTicket(hash)), t.tickets[hash].ldi)| ==
      |ConsumedFor(t, t.tickets[hash].ldi)| + 1
  {
    var u := Apply(t, ConsumeTicket(hash));
    assert forall x, e :: ActiveBinding(u, x, e) <==> ActiveBinding(t, x, e);
    forall x ensures |RetiredOf(u, x)| <= |ConsumedFor(u, x)| {
      assert RetiredOf(u, x) == RetiredOf(t, x);
      ConsumeCounts(t, hash, x);
    }
    ConsumeCounts(t, hash, t.tickets[hash].ldi);
  }

  lemma ConsumeCounts(t: Tables, hash: TicketHash, x: Uuid)
    requires hash in t.tickets && !t.tickets[hash].consumed
    ensures |ConsumedFor(Apply(t, ConsumeTicket(hash)), x)| ==
            |ConsumedFor(t, x)| + if x == t.tickets[hash].ldi then 1 else 0
  {
    assert ConsumedFor(Apply(t, ConsumeTicket(hash)), x) ==
           ConsumedFor(t, x) + if x == t.tickets[hash].ldi then {hash} else {};
  }

  lemma TicketKeepsBindings(t: Tables, hash: TicketHash, ldi: Uuid, expiresAt: Time)
    requires BindingsOk(t) && hash !in t.tickets
    ensures BindingsOk(Apply(t, InsertTicket(hash, ldi, expiresAt)))
  {
    var u := Apply(t, InsertTicket(hash, ldi, expiresAt));
    forall x ensures RetiredOf(u, x) == RetiredOf(t, x) && ConsumedFor(u, x) == ConsumedFor(t, x) {}
    assert forall x, e :: ActiveBinding(u, x, e) <==> ActiveBinding(t, x, e);
  }

  lemma RebindActive(t: Tables, uuid: Uuid, esi: Esi)
    requires esi !in t.bindings
    ensures forall x, e :: ActiveBinding(Apply(t, Rebind(uuid, esi)), x, e) <==>
                             (x == uuid && e == esi) || (x != uuid && ActiveBinding(t, x, e))
  {
  }

  /** Rebinding retires exactly the one active binding. */
  lemma RebindRetires(t: Tables, uuid: Uuid, esi: Esi, prior: Esi)
    requires BindingsOk(t) && esi !in t.bindings && ActiveBinding(t, uuid, prior)
    ensures RetiredOf(Apply(t, Rebind(uuid, esi)), uuid) == RetiredOf(t, uuid) + {prior}
  {
    var u := Apply(t, Rebind(uuid, esi));
    forall e ensures e in RetiredOf(u, uuid) <==> e in RetiredOf(t, uuid) || e == prior {
      if e in t.bindings && t.bindings[e].ldi == uuid && t.bindings[e].active { assert ActiveBinding(t, uuid, e); }
    }
  }

  lemma RebindElsewhere(t: Tables, uuid: Uuid, esi: Esi, x: Uuid)
    requires esi !in t.bindings && x != uuid
    ensures RetiredOf(Apply(t, Rebind(uuid, esi)), x) == RetiredOf(t, x)
  {
  }

  lemma RebindKeepsBindings(t: Tables, uuid: Uuid, esi: Esi)
    requires BindingsOk(t) && uuid in t.ldis && esi !in t.bindings && |RetiredOf(t, uuid)| < |ConsumedFor(t, uuid)|
    ensures BindingsOk(Apply(t, Rebind(uuid, esi)))
  {
    var u := Apply(t, Rebind(uuid, esi));
    var prior :| ActiveBinding(t, uuid, prior);
    RebindActive(t, uuid, esi);
    RebindRetires(t, uuid, esi, prior);
    assert ActiveBinding(u, uuid, esi);
    forall x | x in u.ldis && x != uuid ensures exists e :: ActiveBinding(u, x, e) {
      var e :| ActiveBinding(t, x, e);
      assert ActiveBinding(u, x, e);
    }
    forall x ensures |RetiredOf(u, x)| <= |ConsumedFor(u, x)| {
      assert ConsumedFor(u, x) == ConsumedFor(t, x);
      if x != uuid { RebindElsewhere(t, uuid, esi, x); }
    }
  }

  // ---- Programs only perform allowed writes ----------------------------------------

  ghost predicate AllAllowed(t: Tables, now: Time, ws: seq<Write>)
    decreases |ws|
  {
    ws == [] || (Allowed(t, now, ws[0]) && AllAllowed(Apply(t, ws[0]), now, ws[1..]))
  }

  /** The invariant holds wherever a program of allowed writes stops. */
  lemma {:induction false} StopsInInv(t: Tables, now: Time, ws: seq<Write>, k: nat)
    requires Inv(t, now) && AllAllowed(t, now, ws) && k <= |ws|
    ensures Inv(ApplyAll(t, ws[..k]), now)
    decreases k
  {
    if k > 0 {
      WriteKeepsInv(t, now, ws[0]);
      StopsInInv(Apply(t, ws[0]), now, ws[1..], k - 1);
      assert ws[..k][1..] == ws[1..][..k - 1];
    }
  }

  lemma {:induction false} ApplyConcat(t: Tables, a: seq<Write>, b: seq<Write>)
    ensures ApplyAll(t, a + b) == ApplyAll(ApplyAll(t, a), b)
    decreases |a|
  {
    if a == [] {
      assert a + b == b;
    } else {
      ApplyConcat(Apply(t, a[0]), a[1..], b);
      assert (a + b)[1..] == a[1..] + b;
    }
  }

  lemma {:induction false} AllowedConcat(t: Tables, now: Time, a: seq<Write>, b: seq<Write>)
    requires AllAllowed(t, now, a) && AllAllowed(ApplyAll(t, a), now, b)
    ensures AllAllowed(t, now, a + b)
    decreases |a|
  {
    if a == [] {
      assert a + b == b;
    } else {
      AllowedConcat(Apply(t, a[0]), now, a[1..], b);
      assert (a + b)[1..] == a[1..] + b;
    }
  }

  lemma OneAllowed(t: Tables, now: Time, w: Write)
    requires Allowed(t, now, w)
    ensures AllAllowed(t, now, [w]) && ApplyAll(t, [w]) == Apply(t, w)
  {
    assert [w][1..] == [] && AllAllowed(Apply(t, w), now, []);
    assert ApplyAll(Apply(t, w), [w][1..]) == Apply(t, w);
  }

  // ---- Revoking the live SVIDs of an identity --------------------------------------

  ghost function Marked(issued: map<Serial, Svid>, ss: set<Serial>): map<Serial, Svid> {
    map s | s in issued :: if s in ss then issued[s].(revoked := true) else issued[s]
  }

  ghost function ToSet<T(!new)>(s: seq<T>): set<T> { set x | x in s }

  /** `t` still has the rows that `t0` had, perhaps marked since. */
  ghost predicate SameLeaves(t0: Tables, t: Tables, priors: seq<Serial>) {
    forall s :: s in priors ==>
      s in t0.issued && s in t.issued && FingerprintOf(s, t.issued[s]) == FingerprintOf(s, t0.issued[s])
  }

  /** What listing a row at an instant for a reason enters. */
  function EntryFor(t: Tables, s: Serial, reason: string, now: Time): RevocationEntry
    requires s in t.issued
  {
    RevocationEntry(FingerprintOf(s, t.issued[s]), now, reason, t.issued[s].notAfter)
  }

  /** From `t` to `u` exactly these rows were marked and listed; what was listed before stays as it was. */
  ghost predicate RevokedAll(t: Tables, u: Tables, priors: seq<Serial>, reason: string, now: Time) {
    && u.ldis == t.ldis && u.bindings == t.bindings && u.tickets == t.tickets
    && u.issued == Marked(t.issued, ToSet(priors))
    && u.revoked.Keys == t.revoked.Keys + ToSet(priors)
    && (forall s :: s in t.revoked ==> u.revoked[s] == t.revoked[s])
    && (forall s :: s in priors && s !in t.revoked ==> s in t.issued && u.revoked[s] == EntryFor(t, s, reason, now))
  }

  lemma {:induction false} RevokeEachEffect(t0: Tables, t: Tables, priors: seq<Serial>, reason: string, now: Time)
    requires SameLeaves(t0, t, priors)
    ensures AllAllowed(t, now, RevokeEach(t0, priors, reason, now))
    ensures RevokedAll(t, ApplyAll(t, RevokeEach(t0, priors, reason, now)), priors, reason, now)
    decreases |priors|
  {
    if priors == [] {
      assert Marked(t.issued, {}) == t.issued;
    } else {
      var first, rest := RevokeOne(t0, priors[0], reason, now), RevokeEach(t0, priors[1..], reason, now);
      var u := RevokeOneEffect(t0, t, priors[0], reason, now);
      RevokeEachEffect(t0, u, priors[1..], reason, now);
      AllowedConcat(t, now, first, rest);
      ApplyConcat(t, first, rest);
      RevokedAllTrans(t, u, ApplyAll(u, rest), priors, reason, now);
    }
  }

  lemma RevokeOneEffect(t0: Tables, t: Tables, s: Serial, reason: string, now: Time) returns (u: Tables)
    requires SameLeaves(t0, t, [s])
    ensures s in t0.issued && u == ApplyAll(t, RevokeOne(t0, s, reason, now))
    ensures AllAllowed(t, now, RevokeOne(t0, s, reason, now))
    ensures RevokedAll(t, u, [s], reason, now)
  {
    assert s in [s];
    var ws := RevokeOne(t0, s, reason, now);
    u := Apply(Apply(t, ws[0]), ws[1]);
    assert ws[1..] == [ws[1]];
    OneAllowed(Apply(t, ws[0]), now, ws[1]);
    ListThenMark(t, s, ws[0].entry);
  }

  lemma ListThenMark(t: Tables, s: Serial, entry: RevocationEntry)
    requires s in t.issued && entry == EntryFor(t, s, entry.reason, entry.revokedAt)
    ensures RevokedAll(t, Apply(Apply(t, ListRevoked(s, entry)), MarkRevoked(s)), [s], entry.reason, entry.revokedAt)
  {
    assert ToSet([s]) == {s};
  }

  lemma RevokedAllTrans(t: Tables, u: Tables, v: Tables, priors: seq<Serial>, reason: string, now: Time)
    requires priors != [] && RevokedAll(t, u, [priors[0]], reason, now) && RevokedAll(u, v, priors[1..], reason, now)
    ensures RevokedAll(t, v, priors, reason, now)
  {
    assert ToSet(priors) == ToSet([priors[0]]) + ToSet(priors[1..]);
    forall s | s in priors && s !in t.revoked
      ensures s in t.issued && v.revoked[s] == EntryFor(t, s, reason, now)
    {
      assert s == priors[0] ==> s in [priors[0]];
      assert s != priors[0] ==> s in priors[1..] && s !in u.revoked;
    }
  }

  lemma NoneLiveAfter(t: Tables, u: Tables, priors: seq<Serial>, reason: string, id: SpiffeId, now: Time)
    requires RevokedAll(t, u, priors, reason, now) && forall s :: s in priors <==> s in LiveSerials(t, id, now)
    ensures LiveSerials(u, id, now) == {}
  {
    forall s | s in u.issued && u.issued[s].spiffe == id ensures !LiveAt(u.issued[s], now) {
      if LiveAt(t.issued[s], now) { assert s in LiveSerials(t, id, now); }
    }
  }

  // ---- Each request ----------------------------------------------------------------

  /** A program that ends by recording is allowed if its record is allowed where it is made. */
  lemma IssueAllowed(
    t: Tables, u: Tables, now: Time, before: seq<Write>, status: nat, id: SpiffeId, key: Key, minted: Option<Minted>)
    requires AllAllowed(t, now, before) && u == ApplyAll(t, before)
    requires minted.Some? ==>
      Allowed(u, now, RecordIssued(minted.value.serial, Svid(id, key, now, minted.value.notAfter, false)))
    ensures AllAllowed(t, now, IssueAfter(before, status, id, key, minted, now).writes)
  {
    if minted.Some? {
      var record := RecordIssued(minted.value.serial, Svid(id, key, now, minted.value.notAfter, false));
      OneAllowed(u, now, record);
      AllowedConcat(t, now, before, [record]);
    }
  }

  lemma MintedIsFresh(
    t: Tables, c: Call, before: seq<Write>, status: nat, id: SpiffeId, key: Key, minted: Option<Minted>)
    requires Answered(t, c) && FreshSerial(t, c) &&
      ProgramOf(t, c) == IssueAfter(before, status, id, key, minted, c.now)
    ensures minted.Some? ==> minted.value.serial !in t.issued
  {
    if minted.Some? {
      var ws := ProgramOf(t, c).writes;
      assert ws[|ws| - 1] in ws;
      assert RecordIssued(minted.value.serial, Svid(id, key, c.now, minted.value.notAfter, false)) in ws;
    }
  }

  lemma InitialAllowed(t: Tables, c: Call)
    requires Inv(t, c.now) && Answered(t, c) && FreshSerial(t, c)
    requires c.request.Enroll? && c.request.esi !in t.bindings && c.request.replacement.None?
    ensures AllAllowed(t, c.now, ProgramOf(t, c).writes)
  {
    var r := c.request;
    if c.policy.allowNewLdi && r.uuid !in t.ldis {
      var w := InsertLdiAndBind(r.uuid, r.esi);
      var u := Apply(t, w);
      OneAllowed(t, c.now, w);
      MintedIsFresh(t, c, [w], 201, Device(r.uuid), r.key, r.minted);
      assert forall s :: s in t.issued ==> Known(t, t.issued[s].spiffe);
      assert LiveSerials(u, Device(r.uuid), c.now) == {};
      IssueAllowed(t, u, c.now, [w], 201, Device(r.uuid), r.key, r.minted);
    }
  }

  lemma ReEnrollAllowed(t: Tables, c: Call)
    requires Inv(t, c.now) && Answered(t, c) && FreshSerial(t, c)
    requires c.request.Enroll? && c.request.esi in t.bindings && t.bindings[c.request.esi].active &&
      c.request.replacement.None?
    ensures AllAllowed(t, c.now, ProgramOf(t, c).writes)
  {
    var r, ldi := c.request, t.bindings[c.request.esi].ldi;
    if t.ldis[ldi] == Active && !(KeyChanged(t, c, r.key) && !c.policy.allowKeyRotation) {
      RevokeThenIssue(t, c, "re-enrollment", Device(ldi), r.key, r.minted);
    }
  }

  lemma RevokeThenIssue(t: Tables, c: Call, reason: string, id: SpiffeId, key: Key, minted: Option<Minted>)
    requires Inv(t, c.now) && Answered(t, c) && FreshSerial(t, c) && Subject(t, c.request) == id
    requires Known(t, id) && t.ldis[id.uuid] == Active
    requires ProgramOf(t, c) == IssueAfter(RevokeEach(t, c.priors, reason, c.now), 200, id, key, minted, c.now)
    ensures AllAllowed(t, c.now, ProgramOf(t, c).writes)
  {
    var before := RevokeEach(t, c.priors, reason, c.now);
    var u := ApplyAll(t, before);
    RevokeEachEffect(t, t, c.priors, reason, c.now);
    NoneLiveAfter(t, u, c.priors, reason, id, c.now);
    MintedIsFresh(t, c, before, 200, id, key, minted);
    IssueAllowed(t, u, c.now, before, 200, id, key, minted);
  }

  lemma RenewAllowed(t: Tables, c: Call)
    requires Inv(t, c.now) && Answered(t, c) && FreshSerial(t, c) && c.request.Renew?
    ensures AllAllowed(t, c.now, ProgramOf(t, c).writes)
  {
    var r := c.request;
    if Known(t, r.spiffe) && t.ldis[r.spiffe.uuid] == Active && c.latest.Some? {
      if !KeyChanged(t, c, r.key) {
        MintedIsFresh(t, c, [], 200, r.spiffe, r.key, r.minted);
        IssueAllowed(t, t, c.now, [], 200, r.spiffe, r.key, r.minted);
      } else if c.policy.allowKeyRotation {
        RevokeThenIssue(t, c, "key-rotation", r.spiffe, r.key, r.minted);
      }
    }
  }

  lemma RevokeAllowed(t: Tables, c: Call)
    requires Inv(t, c.now) && Answered(t, c) && c.request.RevokeSpiffe?
    ensures AllAllowed(t, c.now, ProgramOf(t, c).writes)
  {
    var r := c.request;
    if Known(t, r.spiffe) {
      var before, last := RevokeEach(t, c.priors, r.reason, c.now), SetRevokedStatus(r.spiffe.uuid);
      var u := ApplyAll(t, before);
      RevokeEachEffect(t, t, c.priors, r.reason, c.now);
      NoneLiveAfter(t, u, c.priors, r.reason, r.spiffe, c.now);
      OneAllowed(u, c.now, last);
      AllowedConcat(t, c.now, before, [last]);
    }
  }

  /** Using the ticket makes room for the binding that the replacement retires. */
  lemma ReplaceAllowed(t: Tables, c: Call)
    requires Inv(t, c.now) && Answered(t, c) && FreshSerial(t, c)
    requires c.request.Enroll? && c.request.esi !in t.bindings && c.request.replacement.Some?
    ensures AllAllowed(t, c.now, ProgramOf(t, c).writes)
  {
    var r := c.request;
    var h := r.replacement.value.hash;
    if r.replacement.value.isOperatorTicket && h in t.tickets && c.now < t.tickets[h].expiresAt &&
      !t.tickets[h].consumed
    {
      var ldi := t.tickets[h].ldi;
      OneAllowed(t, c.now, ConsumeTicket(h));
      if ldi in t.ldis && t.ldis[ldi] == Active {
        var before, u := RebindThenRevoke(t, c.now, h, r.esi, c.priors);
        MintedIsFresh(t, c, before, 200, Device(ldi), r.key, r.minted);
        IssueAllowed(t, u, c.now, before, 200, Device(ldi), r.key, r.minted);
      }
    }
  }

  lemma RebindThenRevoke(t: Tables, now: Time, h: TicketHash, esi: Esi, priors: seq<Serial>)
    returns (before: seq<Write>, u: Tables)
    requires Inv(t, now) && h in t.tickets && !t.tickets[h].consumed && t.tickets[h].ldi in t.ldis && esi !in t.bindings
    requires forall s :: s in priors <==> s in LiveSerials(t, Device(t.tickets[h].ldi), now)
    ensures before == [ConsumeTicket(h), Rebind(t.tickets[h].ldi, esi)] + RevokeEach(t, priors, "replacement", now)
    ensures AllAllowed(t, now, before) && u == ApplyAll(t, before)
    ensures u.ldis == t.ldis && u.issued.Keys == t.issued.Keys && LiveSerials(u, Device(t.tickets[h].ldi), now) == {}
  {
    var id := Device(t.tickets[h].ldi);
    var rebinds, t2 := TicketThenRebind(t, now, h, esi);
    var revokes := RevokeEach(t, priors, "replacement", now);
    before, u := rebinds + revokes, ApplyAll(t2, revokes);
    RevokeEachEffect(t, t2, priors, "replacement", now);
    assert LiveSerials(t2, id, now) == LiveSerials(t, id, now);
    NoneLiveAfter(t2, u, priors, "replacement", id, now);
    AllowedConcat(t, now, rebinds, revokes);
    ApplyConcat(t, rebinds, revokes);
  }

  lemma TicketThenRebind(t: Tables, now: Time, h: TicketHash, esi: Esi) returns (before: seq<Write>, t2: Tables)
    requires Inv(t, now) && h in t.tickets && !t.tickets[h].consumed && t.tickets[h].ldi in t.ldis && esi !in t.bindings
    ensures before == [ConsumeTicket(h), Rebind(t.tickets[h].ldi, esi)] && t2 == ApplyAll(t, before)
    ensures AllAllowed(t, now, before)
    ensures t2.issued == t.issued && t2.revoked == t.revoked && t2.ldis == t.ldis
  {
    var ldi := t.tickets[h].ldi;
    before := [ConsumeTicket(h), Rebind(ldi, esi)];
    var t1 := Apply(t, before[0]);
    t2 := Apply(t1, before[1]);
    ConsumeKeepsBindings(t, h);
    assert RetiredOf(t1, ldi) == RetiredOf(t, ldi);
    assert before[1..] == [before[1]];
    OneAllowed(t1, now, before[1]);
  }

  lemma ProgramAllowed(t: Tables, c: Call)
    requires Inv(t, c.now) && Answered(t, c) && FreshSerial(t, c)
    ensures AllAllowed(t, c.now, ProgramOf(t, c).writes)
  {
    var r := c.request;
    match r {
      case Enroll(esi, _, repl, _, _) =>
        if esi !in t.bindings {
          if repl.Some? { ReplaceAllowed(t, c); } else { InitialAllowed(t, c); }
        } else if t.bindings[esi].active && repl.None? {
          ReEnrollAllowed(t, c);
        }
      case Renew(_, _, _) => RenewAllowed(t, c);
      case RevokeSpiffe(_, _) => RevokeAllowed(t, c);
      case CreateTicket(hash, ldi, ttl) =>
        if ttl > 0 && ldi in t.ldis && hash !in t.tickets {
          OneAllowed(t, c.now, InsertTicket(hash, ldi, c.now + ttl));
        }
      case Prune => OneAllowed(t, c.now, PruneExpired(c.now));
      case ExchangeJwt(_) =>
    }
  }

  // ---- Every reachable state -------------------------------------------------------

  lemma NextInv(w: World, e: Event)
    requires Inv(w.tables, w.clock) && Possible(w, e)
    ensures Inv(Next(w, e).tables, Next(w, e).clock)
  {
    var ws := ProgramOf(w.tables, e.call).writes;
    LaterInv(w.tables, w.clock, e.call.now);
    ProgramAllowed(w.tables, e.call);
    StopsInInv(w.tables, e.call.now, ws, if e.writes < |ws| then e.writes else |ws|);
    assert ws[..|ws|] == ws;
  }

  lemma EmptyInv(now: Time)
    ensures Inv(EMPTY, now)
  {
    forall u ensures |RetiredOf(EMPTY, u)| <= |ConsumedFor(EMPTY, u)| {
      assert RetiredOf(EMPTY, u) == {};
    }
  }

  /** In every state of every run, wherever requests stop: one active binding for each identity, one
      key for all live SVIDs of a SPIFFE ID, none for an identity that is not active, and every
      revoked, unexpired SVID on the list. */
  lemma {:induction false} ReachableInv(worlds: seq<World>, events: seq<Event>, i: nat)
    requires IsRun(worlds, events) && i <= |events|
    ensures Inv(worlds[i].tables, worlds[i].clock)
  {
    if i == 0 {
      EmptyInv(worlds[0].clock);
    } else {
      ReachableInv(worlds, events, i - 1);
      assert StepsAt(worlds, events, i - 1);
      NextInv(worlds[i - 1], events[i - 1]);
    }
  }
}
