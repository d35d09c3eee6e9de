/** The device agent's revocation latch: conditional GETs of the revocation list, a saved state that
    survives crashes, and renewals that change the certificate under it. */
module LatchModel {
  import opened Prelude
  import I = IdentityModel

  type Fingerprint = I.Fingerprint
  type Time = I.Time

  /** A revocation list body: each fingerprint, which holds its serial, with the time it was revoked. Its
      ETag is a digest of the body, so the list stands for its ETag. */
  datatype List = List(entries: map<Fingerprint, Time>)

  /** The part of the agent's state file that the latch depends on. */
  datatype Saved = Saved(etag: Option<List>, revokedAt: Option<Time>)

  /** What the manager holds while it runs. */
  datatype Memory = Memory(state: Saved, revoked: bool)

  /** `certificate` is the fingerprint of the leaf last written; `memory` is absent while the agent
      is down. */
  datatype Agent = Agent(memory: Option<Memory>, disk: Saved, certificate: Fingerprint)

  /** What reading the certificate file yields at some moment. */
  datatype CertificateFile = Leaf | Unparsable | Unreadable

  datatype Step =
    | Start
    | Crash
    | Check(served: List, file: CertificateFile, now: Time, saves: bool)
    | CheckRefused(saves: bool)
    | Renew(leaf: Fingerprint, wroteCertificate: bool, saves: bool)
    | Refresh(saves: bool)
    | Exchange

  function Persist(a: Agent, saves: bool): Agent
    requires a.memory.Some?
  {
    if saves then a.(disk := a.memory.value.state) else a
  }

  /** The server answers 304 exactly when the sent ETag is that of its list. */
  predicate NotModified(a: Agent, served: List)
    requires a.memory.Some?
  {
    a.memory.value.state.etag == Some(served)
  }

  /** A 200 stores the ETag first; only a certificate that reads and parses is looked up. */
  function Checked(m: Memory, certificate: Fingerprint, served: List, file: CertificateFile, now: Time): Memory {
    var state := m.state.(etag := Some(served));
    if file.Leaf? && certificate in served.entries && state.revokedAt.None?
    then Memory(state.(revokedAt := Some(now)), true)
    else Memory(state, m.revoked)
  }

  /** Renewals and exchanges go on past their first line only if the agent is not latched. */
  predicate Proceeds(a: Agent, step: Step) {
    a.memory.Some? && (step.Renew? || step.Exchange? ==> !a.memory.value.revoked)
  }

  function Next(a: Agent, step: Step): Agent {
    if a.memory.None? then
      (if step.Start? then a.(memory := Some(Memory(a.disk, a.disk.revokedAt.Some?))) else a)
    else
      match step
      case Start => a
      case Crash => a.(memory := None)
      case Check(served, file, now, saves) =>
        if NotModified(a, served) then Persist(a, saves)
        else
          var b := a.(memory := Some(Checked(a.memory.value, a.certificate, served, file, now)));
          if file.Unreadable? then b else Persist(b, saves)
      case CheckRefused(saves) => Persist(a, saves)
      case Renew(leaf, wrote, saves) =>
        if !Proceeds(a, step) || !wrote then a else Persist(a.(certificate := leaf), saves)
      case Refresh(saves) => Persist(a, saves)
      case Exchange => a
  }

  /** A check takes over the list it is served, and the time as that of its revocation exactly if it was not
      latched and finds itself named by a list it had not seen. */
  lemma CheckLeaves(a: Agent, served: List, file: CertificateFile, now: Time, saves: bool)
    requires a.memory.Some?
    ensures var before, b := a.memory.value.state, Next(a, Check(served, file, now, saves));
      var named := before.etag != Some(served) && file.Leaf? && a.certificate in served.entries;
      && b.certificate == a.certificate && b.memory.Some? && b.memory.value.state.etag == Some(served)
      && b.memory.value.state.revokedAt == (if named && before.revokedAt.None? then Some(now) else before.revokedAt)
      && b.disk == (if saves && (before.etag == Some(served) || file != Unreadable)
        then b.memory.value.state else a.disk)
  {
  }

  /** A renewal that is answered is carried through exactly unless the agent is latched: then, and only then,
      the certificate is replaced, and the state is saved if saving works. Nothing else holds it back. */
  lemma RenewedIff(a: Agent, leaf: Fingerprint, wrote: bool, saves: bool)
    requires a.memory.Some?
    ensures var b := Next(a, Renew(leaf, wrote, saves));
      && b.memory == a.memory
      && b.certificate == (if wrote && !a.memory.value.revoked then leaf else a.certificate)
      && b.disk == (if wrote && !a.memory.value.revoked && saves then a.memory.value.state else a.disk)
    ensures Proceeds(a, Exchange) <==> !a.memory.value.revoked
  {
  }

  /** A refresh and a refused check save the state as it is held; a crash loses what is held, and a start takes
      back exactly what was saved, latched if a revocation was. */
  lemma RestLeaves(a: Agent, saves: bool)
    ensures a.memory.Some? ==> forall step :: step in {Refresh(saves), CheckRefused(saves)} ==>
      Next(a, step) == a.(disk := if saves then a.memory.value.state else a.disk)
    ensures Next(a, Crash) == a.(memory := None)
    ensures var b := Next(Next(a, Crash), Start);
      && b.disk == a.disk && b.certificate == a.certificate && b.memory.Some?
      && b.memory.value.state == a.disk && (b.memory.value.revoked <==> a.disk.revokedAt.Some?)
  {
  }

  // ---- What is assumed of the surroundings -----------------------------------------

  /** A renewed certificate is new: no list the agent knows can hold it. */
  predicate FreshLeaf(a: Agent, leaf: Fingerprint) {
    && (a.disk.etag.Some? ==> leaf !in a.disk.etag.value.entries)
    && (a.memory.Some? && a.memory.value.state.etag.Some? ==> leaf !in a.memory.value.state.etag.value.entries)
  }

  /** Each time a new list arrives, the certificate file reads and parses. */
  predicate Expected(a: Agent, step: Step) {
    && (step.Renew? ==> FreshLeaf(a, step.leaf))
    && (step.Check? && a.memory.Some? && !NotModified(a, step.served) ==> step.file.Leaf?)
  }

  /** A run of the agent from a new enrollment. */
  ghost predicate IsRun(agents: seq<Agent>, steps: seq<Step>) {
    && |agents| == |steps| + 1
    && agents[0].memory.None? && agents[0].disk == Saved(None, None)
    && forall i :: 0 <= i < |steps| ==> agents[i + 1] == Next(agents[i], steps[i])
  }

  ghost predicate AllExpected(agents: seq<Agent>, steps: seq<Step>)
    requires IsRun(agents, steps)
  {
    forall i :: 0 <= i < |steps| ==> Expected(agents[i], steps[i])
  }

  // ---- The invariants --------------------------------------------------------------

  /** The saved ETag stands for no list with this certificate, unless the latch is set. */
  predicate Discloses(s: Saved, certificate: Fingerprint) {
    s.etag.Some? && certificate in s.etag.value.entries ==> s.revokedAt.Some?
  }

  /** The flag is the saved instant, and what is saved is held. */
  predicate LatchOk(a: Agent) {
    a.memory.Some? ==>
      && a.memory.value.revoked == a.memory.value.state.revokedAt.Some?
      && (a.disk.revokedAt.Some? ==> a.memory.value.state.revokedAt == a.disk.revokedAt)
  }

  predicate NothingHidden(a: Agent) {
    Discloses(a.disk, a.certificate) && (a.memory.Some? ==> Discloses(a.memory.value.state, a.certificate))
  }

  lemma NextLatchOk(a: Agent, step: Step)
    requires LatchOk(a)
    ensures LatchOk(Next(a, step))
    ensures a.disk.revokedAt.Some? ==> Next(a, step).disk.revokedAt == a.disk.revokedAt
  {
  }

  lemma NextNothingHidden(a: Agent, step: Step)
    requires LatchOk(a) && NothingHidden(a) && Expected(a, step)
    ensures NothingHidden(Next(a, step))
  {
  }

  // ---- Whole runs ------------------------------------------------------------------

  /** Whatever crashes, failed saves or damaged files occur, the flag is always the saved instant, and an
      instant that reached the disk stays there for good. */
  lemma {:induction false} LatchNeverUndone(agents: seq<Agent>, steps: seq<Step>, i: nat, j: nat)
    requires IsRun(agents, steps) && i <= j <= |steps|
    ensures LatchOk(agents[j])
    ensures agents[i].disk.revokedAt.Some? ==>
      && agents[j].disk.revokedAt == agents[i].disk.revokedAt
      && (agents[j].memory.Some? ==> agents[j].memory.value.revoked)
    decreases j
  {
    if i < j {
      LatchNeverUndone(agents, steps, i, j - 1);
      NextLatchOk(agents[j - 1], steps[j - 1]);
      assert agents[j - 1 + 1] == Next(agents[j - 1], steps[j - 1]);
    } else if 0 < j {
      LatchNeverUndone(agents, steps, j - 1, j - 1);
      NextLatchOk(agents[j - 1], steps[j - 1]);
      assert agents[j - 1 + 1] == Next(agents[j - 1], steps[j - 1]);
    }
  }

  /** From the moment a revocation reached the disk, no restart, check or renewal ever changes the
      certificate again. */
  lemma {:induction false} LatchedKeepsCertificate(agents: seq<Agent>, steps: seq<Step>, i: nat, j: nat)
    requires IsRun(agents, steps) && i <= j <= |steps| && agents[i].disk.revokedAt.Some?
    ensures agents[j].certificate == agents[i].certificate
    decreases j
  {
    if i < j {
      LatchedKeepsCertificate(agents, steps, i, j - 1);
      LatchNeverUndone(agents, steps, i, j - 1);
      assert agents[j - 1 + 1] == Next(agents[j - 1], steps[j - 1]);
    }
  }

  /** While the agent stays up, a set flag stays set, saved or not. */
  lemma {:induction false} FlagStaysUp(agents: seq<Agent>, steps: seq<Step>, i: nat, j: nat)
    requires IsRun(agents, steps) && i <= j <= |steps| && agents[i].memory.Some? && agents[i].memory.value.revoked
    requires forall k :: i <= k < j ==> !steps[k].Crash?
    ensures agents[j].memory.Some? && agents[j].memory.value.revoked
    decreases j
  {
    if i < j {
      FlagStaysUp(agents, steps, i, j - 1);
      assert agents[j - 1 + 1] == Next(agents[j - 1], steps[j - 1]);
    }
  }

  /** Once a revocation reached the disk, no renewal and no exchange ever proceeds again. */
  lemma LatchBlocks(agents: seq<Agent>, steps: seq<Step>, i: nat, j: nat, step: Step)
    requires IsRun(agents, steps) && i <= j <= |steps| && agents[i].disk.revokedAt.Some?
    requires step.Renew? || step.Exchange?
    ensures !Proceeds(agents[j], step) && Next(agents[j], step) == agents[j]
  {
    LatchNeverUndone(agents, steps, i, j);
  }

  lemma {:induction false} NeverHidden(agents: seq<Agent>, steps: seq<Step>, i: nat)
    requires IsRun(agents, steps) && AllExpected(agents, steps) && i <= |steps|
    ensures LatchOk(agents[i]) && NothingHidden(agents[i])
  {
    if i > 0 {
      NeverHidden(agents, steps, i - 1);
      NextLatchOk(agents[i - 1], steps[i - 1]);
      NextNothingHidden(agents[i - 1], steps[i - 1]);
      assert agents[i - 1 + 1] == Next(agents[i - 1], steps[i - 1]);
    }
  }

  /** At any moment of such a run, after a check the agent is latched if the list it was checked against
      holds its certificate; in particular a 304 hides no revocation. */
  lemma CheckTells(agents: seq<Agent>, steps: seq<Step>, i: nat, check: Step)
    requires IsRun(agents, steps) && AllExpected(agents, steps) && i <= |steps|
    requires check.Check? && agents[i].memory.Some? && Expected(agents[i], check)
    ensures var b := Next(agents[i], check);
      && b.memory.Some?
      && (agents[i].certificate in check.served.entries ==> b.memory.value.revoked)
      && (NotModified(agents[i], check.served) && agents[i].certificate in check.served.entries ==>
        agents[i].memory.value.revoked)
      && (!agents[i].memory.value.revoked && b.memory.value.revoked ==> agents[i].certificate in check.served.entries)
  {
    NeverHidden(agents, steps, i);
  }

  // ---- Where it breaks -------------------------------------------------------------

  /** From a sound state, a check hides a revocation exactly when a new list that holds the certificate
      arrives while the certificate file cannot be read or parsed and the latch is not yet set. */
  lemma HidesIff(a: Agent, check: Step)
    requires LatchOk(a) && NothingHidden(a) && check.Check? && a.memory.Some?
    ensures !NothingHidden(Next(a, check)) <==>
      !NotModified(a, check.served) && check.file != Leaf && a.certificate in check.served.entries &&
        !a.memory.value.revoked
  {
  }

  function After(a: Agent, steps: seq<Step>): Agent {
    if steps == [] then a else Next(After(a, steps[..|steps| - 1]), steps[|steps| - 1])
  }

  /** The list that names the certificate is saved as seen, and the agent is not latched. */
  predicate Hidden(a: Agent, served: List) {
    && a.certificate in served.entries && a.disk == Saved(Some(served), None)
    && (a.memory.Some? ==> a.memory.value == Memory(a.disk, false))
  }

  /** Once a list arrives while the certificate file does not parse, the revocation stays hidden through any
      restarts and checks, even with the file restored, until the list changes or the agent renews. */
  lemma {:induction false} HiddenStaysHidden(a: Agent, served: List, now: Time, steps: seq<Step>)
    requires LatchOk(a) && a.memory.Some? && !a.memory.value.revoked
    requires !NotModified(a, served) && a.certificate in served.entries
    requires forall s :: s in steps ==> !s.Renew? && (s.Check? ==> s.served == served)
    ensures Hidden(After(Next(a, Check(served, Unparsable, now, true)), steps), served)
  {
    if steps != [] {
      assert steps[|steps| - 1] in steps;
      HiddenStaysHidden(a, served, now, steps[..|steps| - 1]);
    }
  }
}
