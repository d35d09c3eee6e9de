/** Text order: the order of SQLite's BINARY collation (`ORDER BY d.id`) and of Go's
    `sort.Strings`, with the two ways the repository uses it: listing the keys of a
    table in order, and sorting a list. */
module Text {

  predicate LexLeq(a: string, b: string) {
    a == [] || (b != [] && (a[0] < b[0] || (a[0] == b[0] && LexLeq(a[1..], b[1..]))))
  }

  lemma {:induction false} LexTotal(a: string, b: string)
    ensures LexLeq(a, b) || LexLeq(b, a)
  {
    if a != [] && b != [] && a[0] == b[0] {
      LexTotal(a[1..], b[1..]);
    }
  }

  lemma {:induction false} LexAntisymmetric(a: string, b: string)
    requires LexLeq(a, b) && LexLeq(b, a)
    ensures a == b
  {
    if a != [] && b != [] {
      LexAntisymmetric(a[1..], b[1..]);
      assert a == [a[0]] + a[1..] && b == [b[0]] + b[1..];
    }
  }

  lemma {:induction false} LexTransitive(a: string, b: string, c: string)
    requires LexLeq(a, b) && LexLeq(b, c)
    ensures LexLeq(a, c)
  {
    if a != [] && a[0] == b[0] == c[0] {
      LexTransitive(a[1..], b[1..], c[1..]);
    }
  }

  predicate Sorted(s: seq<string>) {
    forall i, j :: 0 <= i < j < |s| ==> LexLeq(s[i], s[j])
  }

  predicate NoDuplicates<T(==)>(s: seq<T>) {
    forall i, j :: 0 <= i < j < |s| ==> s[i] != s[j]
  }

  lemma {:induction false} LeastExists(s: set<string>)
    requires s != {}
    ensures exists m :: m in s && forall x :: x in s ==> LexLeq(m, x)
  {
    var a :| a in s;
    if s == {a} {
      LexTotal(a, a);
    } else {
      LeastExists(s - {a});
      var m :| m in s - {a} && forall x :: x in s - {a} ==> LexLeq(m, x);
      LexTotal(a, m);
      var least := if LexLeq(a, m) then a else m;
      forall x | x in s ensures LexLeq(least, x) {
        LexTotal(a, a);
        if x != a && LexLeq(a, m) { LexTransitive(a, m, x); }
      }
    }
  }

  lemma LeastIsUnique(s: set<string>)
    ensures forall m, n :: m in s && n in s && LexLeq(m, n) && LexLeq(n, m) ==> m == n
  {
    forall m, n | m in s && n in s && LexLeq(m, n) && LexLeq(n, m) ensures m == n {
      LexAntisymmetric(m, n);
    }
  }

  /** The keys of a table in ascending order. */
  function InOrder(s: set<string>): (r: seq<string>)
    ensures forall x :: x in r <==> x in s
    decreases |s|
  {
    if s == {} then [] else
      LeastExists(s); LeastIsUnique(s);
      var m :| m in s && forall x :: x in s ==> LexLeq(m, x);
      [m] + InOrder(s - {m})
  }

  lemma {:induction false} InOrderSorted(s: set<string>)
    ensures NoDuplicates(InOrder(s)) && Sorted(InOrder(s))
    decreases |s|
  {
    if s != {} {
      var r := InOrder(s);
      InOrderSorted(s - {r[0]});
      assert forall j :: 0 < j < |r| ==> r[j] == InOrder(s - {r[0]})[j - 1] && r[j] in InOrder(s - {r[0]});
    }
  }

  // ---- Sorting a list --------------------------------------------------------------

  function Insert(x: string, s: seq<string>): (r: seq<string>) {
    if s == [] || LexLeq(x, s[0]) then [x] + s else [s[0]] + Insert(x, s[1..])
  }

  function Sort(s: seq<string>): (r: seq<string>) {
    if s == [] then [] else Insert(s[0], Sort(s[1..]))
  }

  lemma {:induction false} InsertKeeps(x: string, s: seq<string>)
    ensures multiset(Insert(x, s)) == multiset{x} + multiset(s)
  {
    if s != [] {
      assert s == [s[0]] + s[1..];
      if !LexLeq(x, s[0]) { InsertKeeps(x, s[1..]); }
    }
  }

  lemma {:induction false} InsertSorted(x: string, s: seq<string>)
    requires Sorted(s)
    ensures Sorted(Insert(x, s))
  {
    if s != [] {
      if LexLeq(x, s[0]) {
        forall j | 0 < j < |s| ensures LexLeq(x, s[j]) { LexTransitive(x, s[0], s[j]); }
      } else {
        LexTotal(x, s[0]);
        InsertSorted(x, s[1..]);
        InsertKeeps(x, s[1..]);
        HeadBelow(s[0], x, s[1..], Insert(x, s[1..]));
      }
    }
  }

  lemma HeadBelow(h: string, x: string, s: seq<string>, t: seq<string>)
    requires multiset(t) == multiset{x} + multiset(s) && LexLeq(h, x) && (forall y :: y in s ==> LexLeq(h, y)) &&
      Sorted(t)
    ensures Sorted([h] + t)
  {
    forall j | 0 <= j < |t| ensures LexLeq(h, t[j]) { assert t[j] in multiset(t); }
  }

  lemma {:induction false} SortSorts(s: seq<string>)
    ensures multiset(Sort(s)) == multiset(s) && Sorted(Sort(s))
  {
    if s != [] {
      SortSorts(s[1..]);
      InsertKeeps(s[0], Sort(s[1..]));
      InsertSorted(s[0], Sort(s[1..]));
      assert s == [s[0]] + s[1..];
    }
  }

  /** A multiset of strings has one sorted arrangement. */
  lemma {:induction false} SortedIsUnique(a: seq<string>, b: seq<string>)
    requires multiset(a) == multiset(b) && Sorted(a) && Sorted(b)
    ensures a == b
    decreases |a|
  {
    assert |a| == |multiset(a)| == |multiset(b)| == |b|;
    if a != [] {
      SameHead(a, b);
      Uncons(a);
      Uncons(b);
      SortedIsUnique(a[1..], b[1..]);
    }
  }

  lemma SameHead(a: seq<string>, b: seq<string>)
    requires multiset(a) == multiset(b) && Sorted(a) && Sorted(b) && a != [] && b != []
    ensures a[0] == b[0]
  {
    assert b[0] in multiset(b) && a[0] in multiset(a);
    LexTotal(a[0], a[0]);
    LexTotal(b[0], b[0]);
    LexAntisymmetric(a[0], b[0]);
  }

  lemma Uncons<T>(s: seq<T>)
    requires s != []
    ensures s == [s[0]] + s[1..]
    ensures multiset(s[1..]) == multiset(s) - multiset{s[0]}
  {
    assert s == [s[0]] + s[1..];
  }
}
