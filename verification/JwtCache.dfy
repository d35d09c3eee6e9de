/** The device's cache of JWT SVIDs, keyed on the audience set. */
module JwtCache {
  import opened Prelude
  import opened Text

  type Time = int

  const NUL := '\U{0}'

  // ---- The key ---------------------------------------------------------------------

  function Join(ss: seq<string>): string {
    if ss == [] then "" else if |ss| == 1 then ss[0] else ss[0] + [NUL] + Join(ss[1..])
  }

  function Key(audiences: seq<string>): string { Join(Sort(audiences)) }

  predicate NulFree(ss: seq<string>) { forall s :: s in ss ==> NUL !in s }

  /** A joined list begins with its first string, and goes on with a NUL if there is a second. */
  lemma JoinShape(ss: seq<string>)
    requires ss != []
    ensures ss[0] <= Join(ss)
    ensures |ss| == 1 ==> Join(ss) == ss[0]
    ensures |ss| > 1 ==> |Join(ss)| > |ss[0]| && Join(ss)[|ss[0]|] == NUL && Join(ss)[|ss[0]| + 1..] == Join(ss[1..])
  {
  }

  lemma {:induction false} JoinInjective(a: seq<string>, b: seq<string>)
    requires a != [] && b != [] && NulFree(a) && NulFree(b) && Join(a) == Join(b)
    ensures a == b
    decreases |a|
  {
    assert a[0] in a && b[0] in b;
    JoinShape(a);
    JoinShape(b);
    var j := Join(a);
    assert |a[0]| == |b[0]|;
    assert a[0] == j[..|a[0]|] == b[0];
    if |a| > 1 && |b| > 1 {
      JoinInjective(a[1..], b[1..]);
    }
    assert |a| == |b|;
    assert a == [a[0]] + a[1..] && b == [b[0]] + b[1..];
  }

  lemma {:induction false} EmptyJoin(ss: seq<string>)
    ensures Join(ss) == "" <==> ss == [] || ss == [""]
  {
    if ss != [] { JoinShape(ss); }
  }

  /** Keys of NUL-free lists agree exactly when the lists are equal as multisets, except that the empty
      list shares its key with the list of one empty string. */
  lemma KeysAgreeIff(a: seq<string>, b: seq<string>)
    requires NulFree(a) && NulFree(b)
    ensures Key(a) == Key(b) <==>
      multiset(a) == multiset(b) || (a == [] && b == [""]) || (a == [""] && b == [])
  {
    SortSorts(a);
    SortSorts(b);
    SortKeepsNulFree(a);
    SortKeepsNulFree(b);
    assert |Sort(a)| == |multiset(Sort(a))| == |a| && |Sort(b)| == |multiset(Sort(b))| == |b|;
    if multiset(a) == multiset(b) {
      SortedIsUnique(Sort(a), Sort(b));
    } else if a != [] && b != [] {
      if Key(a) == Key(b) { JoinInjective(Sort(a), Sort(b)); }
    } else {
      EmptyJoin(Sort(a));
      EmptyJoin(Sort(b));
      SortOfOneEmpty(a);
      SortOfOneEmpty(b);
    }
  }

  lemma SortOfOneEmpty(s: seq<string>)
    ensures Sort(s) == [""] <==> s == [""]
  {
    SortSorts(s);
    if |s| == 1 { assert s == [s[0]] && s[1..] == []; }
    if Sort(s) == [""] {
      assert |s| == |multiset(s)| == |multiset(Sort(s))| == 1;
    }
  }

  lemma SortKeepsNulFree(s: seq<string>)
    requires NulFree(s)
    ensures NulFree(Sort(s))
  {
    SortSorts(s);
    forall x | x in Sort(s) ensures NUL !in x {
      assert x in multiset(Sort(s));
      assert x in multiset(s);
    }
  }

  // ---- The cache -------------------------------------------------------------------

  datatype Entry = Entry(token: string, expiresAt: Time)

  predicate Fresh(e: Entry, threshold: Time, now: Time) { e.expiresAt - now >= threshold }

  function Get(entries: map<string, Entry>, threshold: Time, audiences: seq<string>, now: Time): Option<Entry> {
    if Key(audiences) in entries && Fresh(entries[Key(audiences)], threshold, now)
    then Some(entries[Key(audiences)]) else None
  }

  function Evicted(entries: map<string, Entry>, threshold: Time, now: Time): map<string, Entry> {
    map k | k in entries && Fresh(entries[k], threshold, now) :: entries[k]
  }

  datatype Op = Put(audiences: seq<string>, entry: Entry) | Evict(now: Time)

  function Run(threshold: Time, ops: seq<Op>): map<string, Entry> {
    if ops == [] then map[]
    else
      var before := Run(threshold, ops[..|ops| - 1]);
      match ops[|ops| - 1]
      case Put(audiences, e) => before[Key(audiences) := e]
      case Evict(now) => Evicted(before, threshold, now)
  }

  /** What was last put for this multiset of audiences; nothing is ever evicted here. */
  function LastPut(ops: seq<Op>, audiences: seq<string>): Option<Entry> {
    if ops == [] then None
    else
      var op := ops[|ops| - 1];
      if op.Put? && multiset(op.audiences) == multiset(audiences)
        then Some(op.entry) else LastPut(ops[..|ops| - 1], audiences)
  }

  predicate WellFormed(ops: seq<Op>, now: Time) {
    forall op :: op in ops ==>
      if op.Put? then op.audiences != [] && NulFree(op.audiences) else op.now <= now
  }

  lemma {:induction false} RunAgainstLastPut(threshold: Time, ops: seq<Op>, audiences: seq<string>, now: Time)
    requires WellFormed(ops, now) && audiences != [] && NulFree(audiences)
    ensures Key(audiences) in Run(threshold, ops) ==>
      LastPut(ops, audiences) == Some(Run(threshold, ops)[Key(audiences)])
    ensures LastPut(ops, audiences).Some? && Fresh(LastPut(ops, audiences).value, threshold, now) ==>
      Key(audiences) in Run(threshold, ops)
  {
    if ops != [] {
      var op := ops[|ops| - 1];
      assert op in ops;
      RunAgainstLastPut(threshold, ops[..|ops| - 1], audiences, now);
      if op.Put? { KeysAgreeIff(op.audiences, audiences); }
    }
  }

  /** Over any history of puts and evictions up to now, a lookup answers as if nothing were ever evicted:
      the entry last put for these audiences in any order, if it has at least the threshold left. */
  lemma GetIsLastPut(threshold: Time, ops: seq<Op>, audiences: seq<string>, now: Time)
    requires WellFormed(ops, now) && audiences != [] && NulFree(audiences)
    ensures var last := LastPut(ops, audiences);
      Get(Run(threshold, ops), threshold, audiences, now) ==
      if last.Some? && last.value.expiresAt - now >= threshold then last else None
  {
    RunAgainstLastPut(threshold, ops, audiences, now);
  }

  // ---- The cache as it runs --------------------------------------------------------

  class Cache {
    const threshold: Time
    var entries: map<string, Entry>

    constructor (threshold: Time)
      ensures this.threshold == threshold && entries == map[]
    {
      this.threshold, entries := threshold, map[];
    }

    method PutEntry(audiences: seq<string>, e: Entry)
      modifies this`entries
      ensures entries == old(entries)[Key(audiences) := e]
    {
      entries := entries[Key(audiences) := e];
    }

    method Lookup(audiences: seq<string>, now: Time) returns (found: Option<Entry>)
      ensures found == Get(entries, threshold, audiences, now)
    {
      var k := Key(audiences);
      if k !in entries { return None; }
      if entries[k].expiresAt - now < threshold { return None; }
      return Some(entries[k]);
    }

    /** Visit the entries in any order and drop those near expiry. */
    method EvictExpired(now: Time)
      modifies this`entries
      ensures entries == Evicted(old(entries), threshold, now)
    {
      var todo := entries.Keys;
      while todo != {}
        invariant todo <= old(entries).Keys
        invariant entries == map k | k in old(entries) &&
          (k in todo || Fresh(old(entries)[k], threshold, now)) :: old(entries)[k]
      {
        var k :| k in todo;
        if entries[k].expiresAt - now < threshold { entries := entries - {k}; }
        todo := todo - {k};
      }
    }
  }
}
