/** The enrollment-token store and validator as they run, one request at a time. */
module TokenStore {
  import opened Prelude
  import opened EnrollmentTokens

  datatype Validation = Replay(response: Response) | Enroll(token: TokenId) | Refuse(error: Error)

  class Tokens {
    var tokens: map<SecretHash, Token>
    var outcomes: map<TokenId, Outcome>

    function Snapshot(): Store
      reads this
    {
      Store(tokens, outcomes)
    }

    method Create(hash: SecretHash, id: TokenId, ttl: Time, now: Time) returns (result: Result<Time, Error>)
      modifies this`tokens
      ensures match Created(old(Snapshot()), hash, id, ttl, now)
              case Success(s) => result == Success(now + ttl) && Snapshot() == s
              case Failure(e) => result == Failure(e) && Snapshot() == old(Snapshot())
      ensures result.Success? ==>
        forall at :: ReadToken(Snapshot(), hash, at) == if at < now + ttl then Success(id) else Failure(Expired)
    {
      if ttl <= 0 { return Failure(BadTtl); }
      if hash in tokens || IdTaken(Snapshot(), id) { return Failure(Conflict); }
      tokens := tokens[hash := Token(id, false, now + ttl)];
      return Success(now + ttl);
    }

    /** Read, check, then flip the row that is still active. */
    method Consume(hash: SecretHash, now: Time) returns (result: Result<TokenId, Error>)
      modifies this`tokens
      ensures result == ReadToken(old(Snapshot()), hash, now)
      ensures result == Failure(NotFound) <==> hash !in old(tokens)
      ensures result == Failure(Expired) <==> hash in old(tokens) && now >= old(tokens)[hash].expiresAt
      ensures result == Failure(AlreadyUsed) <==>
        hash in old(tokens) && now < old(tokens)[hash].expiresAt && old(tokens)[hash].consumed
      ensures result.Success? ==> result.value == old(tokens)[hash].id
      ensures Snapshot() == if result.Success? then Claimed(old(Snapshot()), result.value) else old(Snapshot())
      ensures result.Success? ==> ReadToken(Snapshot(), hash, now) == Failure(AlreadyUsed)
    {
      if hash !in tokens { return Failure(NotFound); }
      if now >= tokens[hash].expiresAt { return Failure(Expired); }
      if tokens[hash].consumed { return Failure(AlreadyUsed); }
      var id := tokens[hash].id;
      assert StillActive(Snapshot(), id);
      tokens := map h | h in tokens :: if tokens[h].id == id then tokens[h].(consumed := true) else tokens[h];
      return Success(id);
    }

    method RecordOutcome(id: TokenId, o: Outcome) returns (result: Result<(), Error>)
      modifies this`outcomes
      ensures result == Failure(IncompleteOutcome) <==> "" in {id, o.response.profile, o.key}
      ensures result == Failure(OutcomeExists) <==> "" !in {id, o.response.profile, o.key} && id in old(outcomes)
      ensures result.Success? ==> outcomes == old(outcomes)[id := o]
      ensures match Recorded(old(Snapshot()), id, o)
              case Success(s) => result.Success? && Snapshot() == s
              case Failure(e) => result == Failure(e) && Snapshot() == old(Snapshot())
    {
      if id == "" || o.response.profile == "" || o.key == "" { return Failure(IncompleteOutcome); }
      if id in outcomes { return Failure(OutcomeExists); }
      outcomes := outcomes[id := o];
      return Success(());
    }

    /** A replay answer leaves the store alone; an enrollment has just consumed its token. */
    method Validate(r: Request, checkedAt: Time, consumedAt: Time) returns (v: Validation)
      modifies this`tokens
      ensures v.Replay? <==> CheckReplay(old(Snapshot()), r, checkedAt).Answer?
      ensures v.Replay? ==> v.response == CheckReplay(old(Snapshot()), r, checkedAt).response
      ensures !v.Enroll? ==> Snapshot() == old(Snapshot())
      ensures r.credential.Missing? ==> v == Refuse(MissingToken)
      ensures r.credential.Malformed? ==> v == Refuse(MalformedToken)
      ensures CheckReplay(old(Snapshot()), r, checkedAt).Reject? ==>
        v == Refuse(CheckReplay(old(Snapshot()), r, checkedAt).error)
      ensures r.credential.Secret? && CheckReplay(old(Snapshot()), r, checkedAt).NoReplay? ==>
        (var got := ReadToken(old(Snapshot()), r.credential.hash, consumedAt);
         v == if got.Success? then Enroll(got.value) else Refuse(got.error))
      ensures v.Enroll? ==>
        && r.credential.Secret? && CheckReplay(old(Snapshot()), r, checkedAt) == NoReplay
        && ReadToken(old(Snapshot()), r.credential.hash, consumedAt) == Success(v.token)
        && Snapshot() == Claimed(old(Snapshot()), v.token)
    {
      var replay := CheckReplay(Snapshot(), r, checkedAt);
      if replay.Reject? { return Refuse(replay.error); }
      if replay.Answer? { return Replay(replay.response); }
      if r.credential.Missing? { return Refuse(MissingToken); }
      if r.credential.Malformed? { return Refuse(MalformedToken); }
      var got := Consume(r.credential.hash, consumedAt);
      if got.Failure? { return Refuse(got.error); }
      return Enroll(got.value);
    }

    /** Committing opens the window in which the same request is answered again. */
    method Commit(hash: SecretHash, r: Request, id: TokenId, response: Response, ldi: string, window: Time, now: Time)
      returns (result: Result<(), Error>)
      requires r.credential == Secret(hash) && hash in tokens && tokens[hash].id == id
      modifies this`outcomes
      ensures result.Success? && response.profile == r.profile ==>
        forall at :: now <= at <= now + EffectiveWindow(window) ==> CheckReplay(Snapshot(), r, at) == Answer(response)
      ensures result.Success? ==>
        forall at :: at > now + EffectiveWindow(window) ==> CheckReplay(Snapshot(), r, at) == Reject(RetryWindowClosed)
      ensures result.Failure? ==> Snapshot() == old(Snapshot())
    {
      result := RecordOutcome(id, Outcome(response, r.key, ldi, now, now + EffectiveWindow(window)));
    }
  }
}
