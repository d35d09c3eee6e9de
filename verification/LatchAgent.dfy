/** The device agent's manager as it runs: handlers that change its state field by field and save it. */
module LatchAgent {
  import opened Prelude
  import opened LatchModel

  class Manager {
    var running: bool
    var state: Saved
    var revoked: bool
    var stateFile: Saved
    var tempFile: Option<Saved>
    var certificate: Fingerprint
    var key: string

    function Snapshot(): Agent
      reads this
    {
      Agent(if running then Some(Memory(state, revoked)) else None, stateFile, certificate)
    }

    /** Write beside the file, then rename over it: the file is the old state or the new, never between. */
    method Save(tempOk: bool, renameOk: bool) returns (ok: bool)
      modifies this`stateFile, this`tempFile
      ensures ok == (tempOk && renameOk)
      ensures stateFile == if ok then state else old(stateFile)
    {
      if !tempOk { return false; }
      tempFile := Some(state);
      if renameOk { stateFile := tempFile.value; }
      tempFile := None;
      return renameOk;
    }

    method Load()
      requires !running
      modifies this
      ensures Snapshot() == Next(old(Snapshot()), Start)
    {
      state := stateFile;
      revoked := state.revokedAt.Some?;
      running := true;
    }

    method HandleCheckRevocations(served: List, file: CertificateFile, now: Time, tempOk: bool, renameOk: bool)
      returns (ok: bool, listed: bool)
      requires running
      modifies this
      ensures Snapshot() == Next(old(Snapshot()), Check(served, file, now, tempOk && renameOk))
      ensures ok <==> (old(state.etag) == Some(served) || !file.Unreadable?) && tempOk && renameOk
      ensures ok ==> (listed <==> old(state.etag) != Some(served) && file.Leaf? && certificate in served.entries)
    {
      listed := false;
      var notModified := state.etag == Some(served);
      if !notModified {
        state := state.(etag := Some(served));
        if file.Unreadable? { return false, false; }
        if file.Leaf? { listed := certificate in served.entries; }
      }
      if listed && state.revokedAt.None? {
        state := state.(revokedAt := Some(now));
        revoked := true;
      }
      ok := Save(tempOk, renameOk);
    }

    /** Guard, request, certificate file, key file, state file; a failure of any ends the handler there, and
        a key that is not written leaves the new certificate beside the old key. */
    method HandleRenew(
      leaf: Fingerprint, newKey: string, answered: bool, certOk: bool, keyOk: bool, tempOk: bool, renameOk: bool)
      returns (ok: bool)
      requires running
      modifies this
      ensures Snapshot() == Next(old(Snapshot()), Renew(leaf, answered && certOk, keyOk && tempOk && renameOk))
      ensures ok <==> !old(revoked) && answered && certOk && keyOk && tempOk && renameOk
      ensures certificate == if !old(revoked) && answered && certOk then leaf else old(certificate)
      ensures key == if !old(revoked) && answered && certOk && keyOk then newKey else old(key)
      ensures ok ==> stateFile == state
    {
      if revoked { return false; }
      if !answered { return false; }
      if !certOk { return false; }
      certificate := leaf;
      if !keyOk { return false; }
      key := newKey;
      ok := Save(tempOk, renameOk);
    }

    method HandleRefreshBundle(tempOk: bool, renameOk: bool) returns (ok: bool)
      requires running
      modifies this
      ensures Snapshot() == Next(old(Snapshot()), Refresh(tempOk && renameOk)) && ok == (tempOk && renameOk)
    {
      ok := Save(tempOk, renameOk);
    }

    method HandleExchangeJwt() returns (refused: bool)
      requires running
      ensures refused <==> revoked
    {
      return revoked;
    }
  }
}
