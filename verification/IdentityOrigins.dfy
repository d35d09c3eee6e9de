/** Where the rows of the identity service come from: every ticket, revocation entry and SVID of a run goes
    back to one request of that run, which fixes its times, its reason and its key. */
module IdentityOrigins {
  import opened Prelude
  import opened IdentityModel
  import opened IdentityProofs
  import T = IdentityTheorems

  // ---- From rows to writes ---------------------------------------------------------

  ghost predicate TicketKept(t: Tables, h: TicketHash, k: Ticket) {
    h in t.tickets && t.tickets[h].ldi == k.ldi && t.tickets[h].expiresAt == k.expiresAt
  }

  lemma TicketFromOne(t: Tables, w: Write, h: TicketHash, k: Ticket)
    requires TicketKept(Apply(t, w), h, k)
    ensures TicketKept(t, h, k) || w == InsertTicket(h, k.ldi, k.expiresAt)
  {
  }

  lemma {:induction false} TicketFromWrite(t: Tables, ws: seq<Write>, h: TicketHash)
    requires h in ApplyAll(t, ws).tickets
    ensures var k := ApplyAll(t, ws).tickets[h];
      TicketKept(t, h, k) || InsertTicket(h, k.ldi, k.expiresAt) in ws
    decreases |ws|
  {
    if ws != [] {
      var u, k := Apply(t, ws[0]), ApplyAll(t, ws).tickets[h];
      TicketFromWrite(u, ws[1..], h);
      if TicketKept(u, h, k) { TicketFromOne(t, ws[0], h, k); }
    }
  }

  ghost predicate EntryKept(t: Tables, s: Serial, e: RevocationEntry) { s in t.revoked && t.revoked[s] == e }

  lemma EntryFromOne(t: Tables, w: Write, s: Serial, e: RevocationEntry)
    requires EntryKept(Apply(t, w), s, e)
    ensures EntryKept(t, s, e) || w == ListRevoked(s, e)
  {
  }

  lemma {:induction false} EntryFromWrite(t: Tables, ws: seq<Write>, s: Serial)
    requires s in ApplyAll(t, ws).revoked
    ensures var e := ApplyAll(t, ws).revoked[s];
      EntryKept(t, s, e) || ListRevoked(s, e) in ws
    decreases |ws|
  {
    if ws != [] {
      var u, e := Apply(t, ws[0]), ApplyAll(t, ws).revoked[s];
      EntryFromWrite(u, ws[1..], s);
      if EntryKept(u, s, e) { EntryFromOne(t, ws[0], s, e); }
    }
  }

  ghost predicate SameBut(a: Svid, b: Svid) { a == b.(revoked := a.revoked) }

  lemma {:induction false} SvidFromWrite(t: Tables, ws: seq<Write>, s: Serial)
    requires s in ApplyAll(t, ws).issued
    ensures var v := ApplyAll(t, ws).issued[s];
      (s in t.issued && SameBut(t.issued[s], v)) || exists x :: RecordIssued(s, x) in ws && SameBut(x, v)
    decreases |ws|
  {
    if ws != [] {
      var u := Apply(t, ws[0]);
      SvidFromWrite(u, ws[1..], s);
      assert ws == [ws[0]] + ws[1..];
      if s in u.issued && SameBut(u.issued[s], ApplyAll(t, ws).issued[s]) && ws[0].RecordIssued? && ws[0].serial == s {
        assert RecordIssued(s, ws[0].svid) in ws;
      }
    }
  }

  // ---- From writes to requests -----------------------------------------------------

  /** The reason that a request revokes for. */
  function ReasonOf(r: Request): string {
    match r
    case Enroll(_, _, replacement, _, _) => if replacement.Some? then "replacement" else "re-enrollment"
    case Renew(_, _, _) => "key-rotation"
    case RevokeSpiffe(_, reason) => reason
    case _ => ""
  }

  lemma {:induction false} RevokeEachLists(t: Tables, priors: seq<Serial>, reason: string, now: Time, w: Write)
    requires (forall s :: s in priors ==> s in t.issued) && w in RevokeEach(t, priors, reason, now)
    ensures w.ListRevoked? ==> w.serial in priors && w.entry == EntryFor(t, w.serial, reason, now)
    ensures w.ListRevoked? || w.MarkRevoked?
  {
    if priors != [] && w !in RevokeOne(t, priors[0], reason, now) {
      RevokeEachLists(t, priors[1..], reason, now, w);
    }
  }

  /** What a request lists was live when it was made, and is listed then and for its reason. */
  lemma ListedByRequest(t: Tables, c: Call, s: Serial, e: RevocationEntry)
    requires Answered(t, c) && ListRevoked(s, e) in ProgramOf(t, c).writes
    ensures s in LiveSerials(t, Subject(t, c.request), c.now) && e == EntryFor(t, s, ReasonOf(c.request), c.now)
  {
    RevokeEachLists(t, c.priors, ReasonOf(c.request), c.now, ListRevoked(s, e));
  }

  lemma TicketByRequest(t: Tables, c: Call, h: TicketHash, ldi: Uuid, expiresAt: Time)
    requires Answered(t, c) && InsertTicket(h, ldi, expiresAt) in ProgramOf(t, c).writes
    ensures c.request.CreateTicket? && c.request.hash == h && c.request.ldi == ldi
    ensures c.request.ttl > 0 && expiresAt == c.now + c.request.ttl
  {
    T.OnlyRevokes(t, c);
  }

  /** A recorded SVID has the serial and expiry that were signed, the key that was asked with, and the time. */
  lemma SvidByRequest(t: Tables, c: Call, s: Serial, v: Svid)
    requires Answered(t, c) && RecordIssued(s, v) in ProgramOf(t, c).writes
    ensures (c.request.Enroll? || c.request.Renew?) && c.request.minted == Some(Minted(s, v.notAfter))
    ensures v.key == c.request.key && v.issuedAt == c.now && !v.revoked
    ensures ProgramOf(t, c).outcome.Issued? && ProgramOf(t, c).outcome.spiffe == v.spiffe
  {
    T.OnlyRevokes(t, c);
  }

  // ---- From rows to events ---------------------------------------------------------

  lemma PerformedIsPlanned(t: Tables, e: Event, w: Write)
    requires Answered(t, e.call) && w in Performed(t, e)
    ensures w in ProgramOf(t, e.call).writes
  {
  }

  ghost predicate TicketMadeAt(events: seq<Event>, k: nat, h: TicketHash, ticket: Ticket) {
    && k < |events| && events[k].call.request.CreateTicket?
    && events[k].call.request.hash == h && events[k].call.request.ldi == ticket.ldi
    && events[k].call.request.ttl > 0 && ticket.expiresAt == events[k].call.now + events[k].call.request.ttl
  }

  /** Every ticket was created by a request before, for its identity, and expires when the lifetime that
      was asked for is over. */
  lemma {:induction false} TicketOrigin(worlds: seq<World>, events: seq<Event>, i: nat, h: TicketHash)
    requires IsRun(worlds, events) && i <= |events| && h in worlds[i].tables.tickets
    ensures exists k: nat :: k < i && TicketMadeAt(events, k, h, worlds[i].tables.tickets[h])
  {
    if i > 0 {
      var w, e := worlds[i - 1], events[i - 1];
      assert StepsAt(worlds, events, i - 1);
      var ticket := worlds[i].tables.tickets[h];
      TicketFromWrite(w.tables, Performed(w.tables, e), h);
      if InsertTicket(h, ticket.ldi, ticket.expiresAt) in Performed(w.tables, e) {
        TicketByRequest(w.tables, e.call, h, ticket.ldi, ticket.expiresAt);
        assert TicketMadeAt(events, i - 1, h, ticket);
      } else {
        TicketOrigin(worlds, events, i - 1, h);
        var k: nat :| k < i - 1 && TicketMadeAt(events, k, h, w.tables.tickets[h]);
        assert TicketMadeAt(events, k, h, ticket);
      }
    }
  }

  ghost predicate RevokedAt(worlds: seq<World>, events: seq<Event>, k: nat, s: Serial, entry: RevocationEntry)
    requires |worlds| == |events| + 1
  {
    && k < |events| && entry.revokedAt == events[k].call.now && entry.reason == ReasonOf(events[k].call.request)
    && s in LiveSerials(worlds[k].tables, Subject(worlds[k].tables, events[k].call.request), events[k].call.now)
  }

  /** Every entry of the revocation list was made by a request before, at the time and for the reason the
      entry gives, when its SVID was a live one of the identity that the request was about. */
  lemma {:induction false} EntryOrigin(worlds: seq<World>, events: seq<Event>, i: nat, s: Serial)
    requires IsRun(worlds, events) && i <= |events| && s in worlds[i].tables.revoked
    ensures exists k: nat :: k < i && RevokedAt(worlds, events, k, s, worlds[i].tables.revoked[s])
  {
    if i > 0 {
      var w, e := worlds[i - 1], events[i - 1];
      assert StepsAt(worlds, events, i - 1);
      var entry := worlds[i].tables.revoked[s];
      EntryFromWrite(w.tables, Performed(w.tables, e), s);
      if ListRevoked(s, entry) in Performed(w.tables, e) {
        ListedByRequest(w.tables, e.call, s, entry);
        assert RevokedAt(worlds, events, i - 1, s, entry);
      } else {
        EntryOrigin(worlds, events, i - 1, s);
      }
    }
  }

  ghost predicate SignedAt(events: seq<Event>, k: nat, s: Serial, v: Svid) {
    && k < |events| && (events[k].call.request.Enroll? || events[k].call.request.Renew?)
    && events[k].call.request.minted == Some(Minted(s, v.notAfter))
    && events[k].call.request.key == v.key && events[k].call.now == v.issuedAt
  }

  /** Every SVID was recorded by an enrollment or a renewal before, with the serial and expiry signed for it,
      the key of that request and its time. */
  lemma {:induction false} SvidOrigin(worlds: seq<World>, events: seq<Event>, i: nat, s: Serial)
    requires IsRun(worlds, events) && i <= |events| && s in worlds[i].tables.issued
    ensures exists k: nat :: k < i && SignedAt(events, k, s, worlds[i].tables.issued[s])
  {
    if i > 0 {
      var w, e := worlds[i - 1], events[i - 1];
      assert StepsAt(worlds, events, i - 1);
      var v := worlds[i].tables.issued[s];
      SvidFromWrite(w.tables, Performed(w.tables, e), s);
      if s in w.tables.issued && SameBut(w.tables.issued[s], v) {
        SvidOrigin(worlds, events, i - 1, s);
        var k: nat :| k < i - 1 && SignedAt(events, k, s, w.tables.issued[s]);
        assert SignedAt(events, k, s, v);
      } else {
        var x :| RecordIssued(s, x) in Performed(w.tables, e) && SameBut(x, v);
        SvidByRequest(w.tables, e.call, s, x);
        assert SignedAt(events, i - 1, s, v);
      }
    }
  }

  /** So a binding moves only within the lifetime of a ticket that was created for that identity. */
  lemma RebindWasAuthorized(worlds: seq<World>, events: seq<Event>, i: nat, c: Call, u: Uuid, e: Esi)
    requires IsRun(worlds, events) && i <= |events| && Answered(worlds[i].tables, c)
    requires Rebind(u, e) in ProgramOf(worlds[i].tables, c).writes
    ensures exists k: nat :: k < i && events[k].call.request.CreateTicket? && events[k].call.request.ldi == u &&
              c.now < events[k].call.now + events[k].call.request.ttl
  {
    T.RebindNeedsTicket(worlds[i].tables, c, u, e);
    var h := c.request.replacement.value.hash;
    TicketOrigin(worlds, events, i, h);
    var k: nat :| k < i && TicketMadeAt(events, k, h, worlds[i].tables.tickets[h]);
  }
}
