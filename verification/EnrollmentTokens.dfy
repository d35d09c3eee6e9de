/** One-time enrollment tokens: the store's statements, and enrollment requests whose statements
    interleave in any way. */
module EnrollmentTokens {
  import opened Prelude

  type SecretHash = string
  type TokenId = string
  type Time = int

  const DEFAULT_RETRY_WINDOW := 5 * 60
  const MAX_RETRY_WINDOW := 15 * 60

  datatype Token = Token(id: TokenId, consumed: bool, expiresAt: Time)

  datatype Response = Response(status: nat, profile: string, chain: seq<string>)

  datatype Outcome = Outcome(response: Response, key: string, ldi: string, completedAt: Time, retryEnds: Time)

  datatype Store = Store(tokens: map<SecretHash, Token>, outcomes: map<TokenId, Outcome>)

  datatype Error =
    | MissingToken | MalformedToken | NotFound | Expired | AlreadyUsed | RetryWindowClosed
    | ProfileChanged | KeyChanged | NoFingerprint | IncompleteOutcome | OutcomeExists | BadTtl | Conflict

  // ---- The store's statements ------------------------------------------------------

  function EffectiveWindow(configured: Time): (w: Time)
    ensures 0 < w <= MAX_RETRY_WINDOW
    ensures 0 < configured <= MAX_RETRY_WINDOW ==> w == configured
    ensures configured <= 0 ==> w == 300
    ensures configured > MAX_RETRY_WINDOW ==> w == 900
  {
    if configured <= 0 then DEFAULT_RETRY_WINDOW
    else if configured > MAX_RETRY_WINDOW then MAX_RETRY_WINDOW
    else configured
  }

  predicate IdTaken(s: Store, id: TokenId) { exists h :: h in s.tokens && s.tokens[h].id == id }

  function Created(s: Store, hash: SecretHash, id: TokenId, ttl: Time, now: Time): Result<Store, Error> {
    if ttl <= 0 then Failure(BadTtl)
    else if hash in s.tokens || IdTaken(s, id) then Failure(Conflict)
    else Success(s.(tokens := s.tokens[hash := Token(id, false, now + ttl)]))
  }

  /** The SELECT of Consume and the checks that follow it. */
  function ReadToken(s: Store, hash: SecretHash, now: Time): Result<TokenId, Error> {
    if hash !in s.tokens then Failure(NotFound)
    else if now >= s.tokens[hash].expiresAt then Failure(Expired)
    else if s.tokens[hash].consumed then Failure(AlreadyUsed)
    else Success(s.tokens[hash].id)
  }

  predicate StillActive(s: Store, id: TokenId) {
    exists h :: h in s.tokens && s.tokens[h].id == id && !s.tokens[h].consumed
  }

  /** The conditional UPDATE of Consume. */
  function Claimed(s: Store, id: TokenId): Store {
    s.(tokens := map h | h in s.tokens :: if s.tokens[h].id == id then s.tokens[h].(consumed := true) else s.tokens[h])
  }

  function FindConsumed(s: Store, hash: SecretHash, now: Time): Result<Outcome, Error> {
    if hash !in s.tokens || s.tokens[hash].id !in s.outcomes then Failure(NotFound)
    else if now > s.outcomes[s.tokens[hash].id].retryEnds then Failure(RetryWindowClosed)
    else Success(s.outcomes[s.tokens[hash].id])
  }

  function Recorded(s: Store, id: TokenId, o: Outcome): Result<Store, Error> {
    if id == "" || o.response.profile == "" || o.key == "" then Failure(IncompleteOutcome)
    else if id in s.outcomes then Failure(OutcomeExists)
    else Success(s.(outcomes := s.outcomes[id := o]))
  }

  // ---- The validator ---------------------------------------------------------------

  datatype Credential = Missing | Malformed | Secret(hash: SecretHash)

  /** `key` is the fingerprint of the CSR's public key; empty if it cannot be taken. */
  datatype Request = Request(credential: Credential, key: string, profile: string)

  datatype Replay = NoReplay | Answer(response: Response) | Reject(error: Error)

  function CheckReplay(s: Store, r: Request, now: Time): Replay {
    if !r.credential.Secret? then NoReplay
    else
      var found := FindConsumed(s, r.credential.hash, now);
      if found == Failure(NotFound) then NoReplay
      else if found.Failure? then Reject(found.error)
      else if found.value.response.profile != r.profile then Reject(ProfileChanged)
      else if r.key == "" then Reject(NoFingerprint)
      else if found.value.key != r.key then Reject(KeyChanged)
      else Answer(found.value.response)
  }

  // ---- Interleaved requests --------------------------------------------------------

  /** Where a request stands. `Pending` is the one state from which an identity is issued. */
  datatype Phase =
    | Arrived
    | NotReplay
    | Reading(token: TokenId)
    | Pending(token: TokenId)
    | Committed(token: TokenId, outcome: Outcome)
    | Uncommitted(token: TokenId)
    | Replayed(token: TokenId, response: Response, at: Time)
    | Rejected(error: Error)

  /** `readAt` is the clock at the SELECT of Consume. */
  datatype Thread = Thread(request: Request, phase: Phase, readAt: Time)

  type Tid = nat

  datatype World = World(store: Store, threads: map<Tid, Thread>)

  datatype Step =
    | Create(hash: SecretHash, id: TokenId, ttl: Time, now: Time)
    | Arrive(tid: Tid, request: Request)
    | Check(tid: Tid, now: Time)
    | Read(tid: Tid, now: Time)
    | Update(tid: Tid)
    | Commit(tid: Tid, response: Response, ldi: string, now: Time)
    | Fail(tid: Tid)

  function Move(w: World, tid: Tid, p: Phase): World
    requires tid in w.threads
  {
    w.(threads := w.threads[tid := w.threads[tid].(phase := p)])
  }

  function Next(w: World, window: Time, step: Step): World {
    match step
    case Create(hash, id, ttl, now) =>
      var r := Created(w.store, hash, id, ttl, now);
      if r.Success? then w.(store := r.value) else w
    case Arrive(tid, request) =>
      if tid in w.threads then w else w.(threads := w.threads[tid := Thread(request, Arrived, 0)])
    case Check(tid, now) =>
      if tid !in w.threads || w.threads[tid].phase != Arrived then w else
        var r := w.threads[tid].request;
        (match CheckReplay(w.store, r, now)
         case NoReplay => Move(w, tid, NotReplay)
         case Answer(response) => Move(w, tid, Replayed(w.store.tokens[r.credential.hash].id, response, now))
         case Reject(error) => Move(w, tid, Rejected(error)))
    case Read(tid, now) =>
      if tid !in w.threads || w.threads[tid].phase != NotReplay then w else
        (match w.threads[tid].request.credential
         case Missing => Move(w, tid, Rejected(MissingToken))
         case Malformed => Move(w, tid, Rejected(MalformedToken))
         case Secret(hash) =>
           var r := ReadToken(w.store, hash, now);
           if r.Success? then w.(threads := w.threads[tid := Thread(w.threads[tid].request, Reading(r.value), now)])
           else Move(w, tid, Rejected(r.error)))
    case Update(tid) =>
      if tid !in w.threads || !w.threads[tid].phase.Reading? then w else
        var id := w.threads[tid].phase.token;
        if StillActive(w.store, id) then Move(w, tid, Pending(id)).(store := Claimed(w.store, id))
        else Move(w, tid, Rejected(AlreadyUsed))
    case Commit(tid, response, ldi, now) =>
      if tid !in w.threads || !w.threads[tid].phase.Pending? then w else
        var id := w.threads[tid].phase.token;
        var o := Outcome(response, w.threads[tid].request.key, ldi, now, now + EffectiveWindow(window));
        var r := Recorded(w.store, id, o);
        if r.Success? then Move(w, tid, Committed(id, o)).(store := r.value) else Move(w, tid, Uncommitted(id))
    case Fail(tid) =>
      if tid !in w.threads || !w.threads[tid].phase.Pending? then w
      else Move(w, tid, Uncommitted(w.threads[tid].phase.token))
  }

  const START := World(Store(map[], map[]), map[])

  function Run(window: Time, steps: seq<Step>): World {
    if steps == [] then START else Next(Run(window, steps[..|steps| - 1]), window, steps[|steps| - 1])
  }

  // ---- The invariant ---------------------------------------------------------------

  /** The thread was granted an enrollment for this token. */
  predicate Granted(t: Thread, id: TokenId) {
    (t.phase.Pending? || t.phase.Committed? || t.phase.Uncommitted?) && t.phase.token == id
  }

  /** The thread presented the secret of this token before the token expired. */
  ghost predicate PresentedInTime(s: Store, t: Thread, id: TokenId) {
    && t.request.credential.Secret? && t.request.credential.hash in s.tokens
    && s.tokens[t.request.credential.hash].id == id
    && t.readAt < s.tokens[t.request.credential.hash].expiresAt
  }

  predicate HoldsToken(t: Thread, id: TokenId) { Granted(t, id) || t.phase == Reading(id) }

  ghost predicate InTimeOk(w: World) {
    forall a, id :: a in w.threads && HoldsToken(w.threads[a], id) ==> PresentedInTime(w.store, w.threads[a], id)
  }

  ghost predicate TokensOk(s: Store) {
    forall g, h :: g in s.tokens && h in s.tokens && s.tokens[g].id == s.tokens[h].id ==> g == h
  }

  ghost predicate Spent(s: Store, id: TokenId) {
    exists h :: h in s.tokens && s.tokens[h].id == id && s.tokens[h].consumed
  }

  ghost predicate GrantsOk(w: World) {
    && (forall a, b, id ::
          a in w.threads && b in w.threads && Granted(w.threads[a], id) && Granted(w.threads[b], id) ==> a == b)
    && (forall a, id :: a in w.threads && Granted(w.threads[a], id) ==> Spent(w.store, id))
  }

  ghost predicate CommittedFor(w: World, tid: Tid, id: TokenId, o: Outcome, window: Time) {
    && tid in w.threads && w.threads[tid].phase == Committed(id, o)
    && o.key == w.threads[tid].request.key
    && o.retryEnds == o.completedAt + EffectiveWindow(window)
  }

  ghost predicate OutcomesOk(w: World, window: Time) {
    forall id :: id in w.store.outcomes ==> exists tid :: CommittedFor(w, tid, id, w.store.outcomes[id], window)
  }

  /** The answer repeats what the one enrollment of this token committed, to a request with the same
      key and profile, within the window. */
  ghost predicate Repeats(w: World, t: Thread, tid: Tid, o: Outcome, window: Time) {
    && t.phase.Replayed? && CommittedFor(w, tid, t.phase.token, o, window)
    && t.phase.response == o.response
    && t.request.key == w.threads[tid].request.key
    && t.request.profile == o.response.profile
    && t.phase.at <= o.completedAt + EffectiveWindow(window)
  }

  ghost predicate ReplaysOk(w: World, window: Time) {
    forall t :: t in w.threads && w.threads[t].phase.Replayed? ==>
      exists tid, o :: Repeats(w, w.threads[t], tid, o, window)
  }

  ghost predicate Inv(w: World, window: Time) {
    TokensOk(w.store) && InTimeOk(w) && GrantsOk(w) && OutcomesOk(w, window) && ReplaysOk(w, window)
  }

  // ---- Every step keeps it ---------------------------------------------------------

  /** A change that keeps the store and every committed thread keeps outcomes and replays. */
  lemma ThreadFrame(w: World, v: World, tid: Tid, window: Time)
    requires Inv(w, window) && v.store.outcomes == w.store.outcomes
    requires forall t :: t in w.threads && t != tid ==> t in v.threads && v.threads[t] == w.threads[t]
    requires forall t :: t in v.threads ==> t in w.threads || t == tid
    requires tid in w.threads ==> !w.threads[tid].phase.Committed?
    requires tid in v.threads && !v.threads[tid].phase.Replayed?
    ensures OutcomesOk(v, window) && ReplaysOk(v, window)
  {
    forall id | id in v.store.outcomes ensures exists c :: CommittedFor(v, c, id, v.store.outcomes[id], window) {
      var c :| CommittedFor(w, c, id, w.store.outcomes[id], window);
      assert CommittedFor(v, c, id, v.store.outcomes[id], window);
    }
    forall t | t in v.threads && v.threads[t].phase.Replayed?
      ensures exists c, o :: Repeats(v, v.threads[t], c, o, window)
    {
      var c, o :| Repeats(w, w.threads[t], c, o, window);
      assert Repeats(v, v.threads[t], c, o, window);
    }
  }

  lemma SpentIsNotActive(s: Store, id: TokenId)
    requires TokensOk(s) && Spent(s, id)
    ensures !StillActive(s, id)
  {
  }

  /** Tokens are only added with new ids or consumed, so a spent token stays spent. */
  lemma SpentStays(w: World, window: Time, step: Step, id: TokenId)
    requires TokensOk(w.store) && Spent(w.store, id)
    ensures Spent(Next(w, window, step).store, id)
  {
    var v := Next(w, window, step);
    var h :| h in w.store.tokens && w.store.tokens[h].id == id && w.store.tokens[h].consumed;
    assert h in v.store.tokens && v.store.tokens[h].id == id && v.store.tokens[h].consumed;
  }

  lemma TokensStayOk(w: World, window: Time, step: Step)
    requires TokensOk(w.store)
    ensures TokensOk(Next(w, window, step).store)
  {
  }

  lemma InTimeStaysOk(w: World, window: Time, step: Step)
    requires InTimeOk(w)
    ensures InTimeOk(Next(w, window, step))
  {
    var v := Next(w, window, step);
    forall a, id | a in v.threads && HoldsToken(v.threads[a], id)
      ensures PresentedInTime(v.store, v.threads[a], id)
    {
      if a in w.threads && HoldsToken(w.threads[a], id) {
        assert PresentedInTime(w.store, w.threads[a], id);
      } else {
        assert step.Read? && step.tid == a;
      }
    }
  }

  /** A thread that is granted after a step was granted before it, or has just updated a token that was
      still active. */
  lemma NewGrant(w: World, window: Time, step: Step, a: Tid, id: TokenId)
    requires var v := Next(w, window, step); a in v.threads && Granted(v.threads[a], id)
    ensures (a in w.threads && Granted(w.threads[a], id)) ||
            (step == Update(a) && StillActive(w.store, id) && Next(w, window, step).store == Claimed(w.store, id))
  {
  }

  lemma GrantIsSpent(w: World, window: Time, step: Step, a: Tid, id: TokenId)
    requires TokensOk(w.store) && GrantsOk(w)
    requires var v := Next(w, window, step); a in v.threads && Granted(v.threads[a], id)
    ensures Spent(Next(w, window, step).store, id)
  {
    NewGrant(w, window, step, a, id);
    if a in w.threads && Granted(w.threads[a], id) {
      SpentStays(w, window, step, id);
    } else {
      var h :| h in w.store.tokens && w.store.tokens[h].id == id && !w.store.tokens[h].consumed;
      assert h in Claimed(w.store, id).tokens && Claimed(w.store, id).tokens[h].consumed;
    }
  }

  lemma GrantsStayOk(w: World, window: Time, step: Step)
    requires TokensOk(w.store) && GrantsOk(w)
    ensures GrantsOk(Next(w, window, step))
  {
    var v := Next(w, window, step);
    forall a, id | a in v.threads && Granted(v.threads[a], id) ensures Spent(v.store, id) {
      GrantIsSpent(w, window, step, a, id);
    }
    forall a, b, id | a in v.threads && b in v.threads && Granted(v.threads[a], id) && Granted(v.threads[b], id)
      ensures a == b
    {
      NewGrant(w, window, step, a, id);
      NewGrant(w, window, step, b, id);
      if Spent(w.store, id) { SpentIsNotActive(w.store, id); }
    }
  }

  lemma RepliesStayOk(w: World, window: Time, step: Step)
    requires Inv(w, window)
    ensures OutcomesOk(Next(w, window, step), window) && ReplaysOk(Next(w, window, step), window)
  {
    var v := Next(w, window, step);
    match step {
      case Create(_, _, _, _) =>
        assert forall c, id, o :: CommittedFor(w, c, id, o, window) ==> CommittedFor(v, c, id, o, window);
        assert forall t: Thread, c, o :: Repeats(w, t, c, o, window) ==> Repeats(v, t, c, o, window);
      case Arrive(tid, _) => if v != w { ThreadFrame(w, v, tid, window); }
      case Check(tid, now) => if v != w { CheckKeepsReplies(w, window, tid, now); }
      case Read(tid, _) => if v != w { ThreadFrame(w, v, tid, window); }
      case Update(tid) => if v != w { ThreadFrame(w, v, tid, window); }
      case Commit(tid, response, ldi, now) => if v != w { CommitKeepsReplies(w, window, step); }
      case Fail(tid) => if v != w { ThreadFrame(w, v, tid, window); }
    }
  }

  lemma CheckKeepsReplies(w: World, window: Time, tid: Tid, now: Time)
    requires Inv(w, window) && tid in w.threads && w.threads[tid].phase == Arrived
    ensures OutcomesOk(Next(w, window, Check(tid, now)), window) && ReplaysOk(Next(w, window, Check(tid, now)), window)
  {
    var v := Next(w, window, Check(tid, now));
    if v.threads[tid].phase.Replayed? {
      var id := v.threads[tid].phase.token;
      var o := w.store.outcomes[id];
      var c :| CommittedFor(w, c, id, o, window);
      assert Repeats(v, v.threads[tid], c, o, window);
      MovedToReplay(w, v, tid, window);
    } else {
      ThreadFrame(w, v, tid, window);
    }
  }

  lemma MovedToReplay(w: World, v: World, tid: Tid, window: Time)
    requires Inv(w, window) && tid in w.threads && w.threads[tid].phase == Arrived && v.store == w.store
    requires tid in v.threads && v == Move(w, tid, v.threads[tid].phase) && v.threads[tid].phase.Replayed?
    requires exists c, o :: Repeats(v, v.threads[tid], c, o, window)
    ensures OutcomesOk(v, window) && ReplaysOk(v, window)
  {
    forall id | id in v.store.outcomes ensures exists c :: CommittedFor(v, c, id, v.store.outcomes[id], window) {
      var c :| CommittedFor(w, c, id, w.store.outcomes[id], window);
      assert CommittedFor(v, c, id, v.store.outcomes[id], window);
    }
    forall t | t in v.threads && t != tid && v.threads[t].phase.Replayed?
      ensures exists c, o :: Repeats(v, v.threads[t], c, o, window)
    {
      var c, o :| Repeats(w, w.threads[t], c, o, window);
      assert Repeats(v, v.threads[t], c, o, window);
    }
  }

  lemma CommitKeepsReplies(w: World, window: Time, step: Step)
    requires Inv(w, window) && step.Commit? && step.tid in w.threads && w.threads[step.tid].phase.Pending?
    ensures OutcomesOk(Next(w, window, step), window) && ReplaysOk(Next(w, window, step), window)
  {
    var v, tid := Next(w, window, step), step.tid;
    var id := w.threads[tid].phase.token;
    if v.threads[tid].phase.Committed? {
      var bare := v.(store := w.store);
      ThreadFrame(w, bare, tid, window);
      assert CommittedFor(v, tid, id, v.threads[tid].phase.outcome, window);
      forall other | other in v.store.outcomes
        ensures exists c :: CommittedFor(v, c, other, v.store.outcomes[other], window)
      {
        if other != id {
          var c :| CommittedFor(bare, c, other, bare.store.outcomes[other], window);
          assert CommittedFor(v, c, other, v.store.outcomes[other], window);
        }
      }
      assert forall t: Thread, c, o :: Repeats(bare, t, c, o, window) ==> Repeats(v, t, c, o, window);
    } else {
      ThreadFrame(w, v, tid, window);
    }
  }

  lemma {:induction false} RunInv(window: Time, steps: seq<Step>)
    ensures Inv(Run(window, steps), window)
  {
    if steps != [] {
      var w, step := Run(window, steps[..|steps| - 1]), steps[|steps| - 1];
      RunInv(window, steps[..|steps| - 1]);
      TokensStayOk(w, window, step);
      InTimeStaysOk(w, window, step);
      GrantsStayOk(w, window, step);
      RepliesStayOk(w, window, step);
    }
  }

  // ---- The main results ------------------------------------------------------------

  /** However the statements of concurrent requests interleave, one token grants one enrollment. */
  lemma OneGrant(window: Time, steps: seq<Step>, a: Tid, b: Tid, id: TokenId)
    requires var w := Run(window, steps);
      a in w.threads && b in w.threads && Granted(w.threads[a], id) && Granted(w.threads[b], id)
    ensures a == b
  {
    RunInv(window, steps);
  }

  /** This step created the token: its secret, its id, and the end of the lifetime asked for. */
  ghost predicate MadeBy(steps: seq<Step>, k: nat, hash: SecretHash, token: Token) {
    && k < |steps| && steps[k].Create? && steps[k].hash == hash && steps[k].id == token.id
    && steps[k].ttl > 0 && token.expiresAt == steps[k].now + steps[k].ttl
  }

  lemma TokenFromStep(w: World, window: Time, step: Step, h: SecretHash)
    requires h in Next(w, window, step).store.tokens
    ensures var token := Next(w, window, step).store.tokens[h];
      || (h in w.store.tokens && w.store.tokens[h].id == token.id && w.store.tokens[h].expiresAt == token.expiresAt)
      || MadeBy([step], 0, h, token)
  {
  }

  /** Every token goes back to the step that created it. */
  lemma {:induction false} TokenOrigin(window: Time, steps: seq<Step>, h: SecretHash)
    requires h in Run(window, steps).store.tokens
    ensures exists k: nat :: MadeBy(steps, k, h, Run(window, steps).store.tokens[h])
  {
    if steps != [] {
      var front, step := steps[..|steps| - 1], steps[|steps| - 1];
      var w, token := Run(window, front), Run(window, steps).store.tokens[h];
      TokenFromStep(w, window, step, h);
      if MadeBy([step], 0, h, token) {
        assert MadeBy(steps, |front|, h, token);
      } else {
        TokenOrigin(window, front, h);
        var k: nat :| MadeBy(front, k, h, w.store.tokens[h]);
        assert MadeBy(steps, k, h, token);
      }
    }
  }

  /** And only a request that presented the secret of a token within the lifetime it was created with is
      granted. */
  lemma GrantIsInTime(window: Time, steps: seq<Step>, a: Tid, id: TokenId)
    requires var w := Run(window, steps); a in w.threads && Granted(w.threads[a], id)
    ensures var thread := Run(window, steps).threads[a];
      && PresentedInTime(Run(window, steps).store, thread, id)
      && exists k: nat ::
           && k < |steps| && steps[k].Create? && steps[k].id == id
           && thread.request.credential == Secret(steps[k].hash)
           && thread.readAt < steps[k].now + steps[k].ttl
  {
    RunInv(window, steps);
    var w := Run(window, steps);
    assert HoldsToken(w.threads[a], id);
    var h := w.threads[a].request.credential.hash;
    TokenOrigin(window, steps, h);
    var k: nat :| MadeBy(steps, k, h, w.store.tokens[h]);
  }

  /** A token is created exactly for a positive lifetime under a new secret and id. Right after that it can be
      consumed exactly before its lifetime is over, and is refused as expired from then on. */
  lemma CreatedThenConsumed(s: Store, hash: SecretHash, id: TokenId, ttl: Time, now: Time, at: Time)
    ensures var made := Created(s, hash, id, ttl, now);
      && (made.Success? <==> ttl > 0 && hash !in s.tokens && forall h :: h in s.tokens ==> s.tokens[h].id != id)
      && (made.Success? ==>
            && (ReadToken(made.value, hash, at) == Success(id) <==> at < now + ttl)
            && (ReadToken(made.value, hash, at) == Failure(Expired) <==> at >= now + ttl)
            && made.value.outcomes == s.outcomes && made.value.tokens.Keys == s.tokens.Keys + {hash}
            && forall h :: h in s.tokens ==> made.value.tokens[h] == s.tokens[h])
  {
  }

  /** Every replay answer repeats the committed response of the token's one enrollment, to a request
      with the same key and profile, at most 15 minutes after it was committed. */
  lemma ReplayRepeats(window: Time, steps: seq<Step>, t: Tid)
    requires var w := Run(window, steps); t in w.threads && w.threads[t].phase.Replayed?
    ensures var w := Run(window, steps);
      exists tid, o :: Repeats(w, w.threads[t], tid, o, window) &&
        w.threads[t].phase.at <= o.completedAt + MAX_RETRY_WINDOW
  {
    RunInv(window, steps);
    var w := Run(window, steps);
    var tid, o :| Repeats(w, w.threads[t], tid, o, window);
    assert EffectiveWindow(window) <= MAX_RETRY_WINDOW;
  }

  /** Committing never meets an outcome that is already there. */
  lemma CommitFindsNoOutcome(window: Time, steps: seq<Step>, tid: Tid)
    requires var w := Run(window, steps); tid in w.threads && w.threads[tid].phase.Pending?
    ensures var w := Run(window, steps); w.threads[tid].phase.token !in w.store.outcomes
  {
    RunInv(window, steps);
    var w := Run(window, steps);
    var id := w.threads[tid].phase.token;
    if id in w.store.outcomes {
      var c :| CommittedFor(w, c, id, w.store.outcomes[id], window);
      assert Granted(w.threads[c], id) && Granted(w.threads[tid], id);
    }
  }

  // ---- Retries ---------------------------------------------------------------------

  ghost predicate StoredFor(w: World, tid: Tid) {
    tid in w.threads && w.threads[tid].phase.Committed? ==>
      var p := w.threads[tid].phase;
      p.token in w.store.outcomes && w.store.outcomes[p.token] == p.outcome && p.outcome.key != ""
  }

  lemma NextStoredFor(w: World, window: Time, step: Step, tid: Tid)
    requires StoredFor(w, tid)
    ensures StoredFor(Next(w, window, step), tid)
  {
  }

  lemma {:induction false} RunStoredFor(window: Time, steps: seq<Step>, tid: Tid)
    ensures StoredFor(Run(window, steps), tid)
  {
    if steps != [] {
      RunStoredFor(window, steps[..|steps| - 1], tid);
      NextStoredFor(Run(window, steps[..|steps| - 1]), window, steps[|steps| - 1], tid);
    }
  }

  /** The outcome of a committed request is found under its secret, with its window. */
  lemma CommittedIsFound(window: Time, steps: seq<Step>, tid: Tid)
    requires var w := Run(window, steps); tid in w.threads && w.threads[tid].phase.Committed?
    ensures var w := Run(window, steps);
      var p, c := w.threads[tid].phase, w.threads[tid].request.credential;
      && c.Secret? && c.hash in w.store.tokens && w.store.tokens[c.hash].id == p.token
      && p.token in w.store.outcomes && w.store.outcomes[p.token] == p.outcome
      && p.outcome.key == w.threads[tid].request.key != ""
      && p.outcome.retryEnds == p.outcome.completedAt + EffectiveWindow(window)
  {
    RunInv(window, steps);
    RunStoredFor(window, steps, tid);
    var w := Run(window, steps);
    var id := w.threads[tid].phase.token;
    assert HoldsToken(w.threads[tid], id) && Granted(w.threads[tid], id);
    var c :| CommittedFor(w, c, id, w.store.outcomes[id], window);
    assert Granted(w.threads[c], id);
  }

  /** Whatever else happens, from the commit on a request with the same secret is answered again exactly within
      the window and with the same profile and key; and it is told which of these fails. */
  lemma RetryIff(window: Time, steps: seq<Step>, tid: Tid, r: Request, now: Time)
    requires var w := Run(window, steps);
      tid in w.threads && w.threads[tid].phase.Committed? && r.credential == w.threads[tid].request.credential
    ensures var w := Run(window, steps);
      var o, reply := w.threads[tid].phase.outcome, CheckReplay(w.store, r, now);
      var open := now <= o.completedAt + EffectiveWindow(window);
      && (reply == Answer(o.response) <==>
            open && r.profile == o.response.profile && r.key == w.threads[tid].request.key)
      && (reply == Reject(RetryWindowClosed) <==> !open)
      && (reply == Reject(ProfileChanged) <==> open && r.profile != o.response.profile)
      && (reply == Reject(NoFingerprint) <==> open && r.profile == o.response.profile && r.key == "")
      && (reply == Reject(KeyChanged) <==>
            open && r.profile == o.response.profile && r.key != "" && r.key != w.threads[tid].request.key)
  {
    CommittedIsFound(window, steps, tid);
  }
}
