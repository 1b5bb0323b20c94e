/**
 Array.prototype.sort as its callers may rely on it: a stable, sorted
 permutation under a comparator that is a total preorder.  A comparator such as
 localeCompare may tie two different values, so the results say what becomes of
 ties instead of assuming that there are none.
 */
module StableSort {

  ghost predicate TotalPreorder<T(!new)>(le: (T, T) -> bool) {
    && (forall x, y :: le(x, y) || le(y, x))
    && (forall x, y, z :: le(x, y) && le(y, z) ==> le(x, z))
  }

  /** No two different values tie. */
  ghost predicate Separates<T(!new)>(le: (T, T) -> bool) {
    forall x, y :: le(x, y) && le(y, x) ==> x == y
  }

  predicate Tied<T>(x: T, y: T, le: (T, T) -> bool) {
    le(x, y) && le(y, x)
  }

  /** The subsequence of s that ties with x, in the order of s. */
  function Ties<T>(s: seq<T>, x: T, le: (T, T) -> bool): seq<T> {
    if s == [] then []
    else if Tied(s[0], x, le) then [s[0]] + Ties(s[1..], x, le)
    else Ties(s[1..], x, le)
  }

  /** Every tie class lists the same values in the same order. */
  ghost predicate SameTies<T(!new)>(s: seq<T>, t: seq<T>, le: (T, T) -> bool) {
    forall x :: Ties(s, x, le) == Ties(t, x, le)
  }

  ghost predicate Sorted<T>(s: seq<T>, le: (T, T) -> bool) {
    forall i, j | 0 <= i < j < |s| :: le(s[i], s[j])
  }

  function Insert<T>(x: T, s: seq<T>, le: (T, T) -> bool): (r: seq<T>)
    ensures multiset(r) == multiset(s) + multiset{x}
    ensures |r| == |s| + 1
  {
    if s == [] || le(x, s[0]) then [x] + s
    else
      assert s == [s[0]] + s[1..];
      [s[0]] + Insert(x, s[1..], le)
  }

  function Sort<T>(s: seq<T>, le: (T, T) -> bool): (r: seq<T>)
    ensures multiset(r) == multiset(s)
    ensures |r| == |s|
  {
    if s == [] then []
    else
      assert s == [s[0]] + s[1..];
      Insert(s[0], Sort(s[1..], le), le)
  }

  lemma {:induction false} InsertKeepsSorted<T(!new)>(x: T, s: seq<T>, le: (T, T) -> bool)
    requires TotalPreorder(le) && Sorted(s, le)
    ensures Sorted(Insert(x, s, le), le)
  {
    if s != [] && !le(x, s[0]) {
      InsertKeepsSorted(x, s[1..], le);
      var r := Insert(x, s[1..], le);
      forall y | y in r ensures le(s[0], y) {
        assert y in multiset(r);
        assert y == x || y in multiset(s[1..]);
      }
    }
  }

  lemma {:induction false} SortIsSorted<T(!new)>(s: seq<T>, le: (T, T) -> bool)
    requires TotalPreorder(le)
    ensures Sorted(Sort(s, le), le)
  {
    if s != [] {
      SortIsSorted(s[1..], le);
      InsertKeepsSorted(s[0], Sort(s[1..], le), le);
    }
  }

  lemma {:induction false} InsertIsStable<T(!new)>(x: T, s: seq<T>, y: T, le: (T, T) -> bool)
    requires TotalPreorder(le)
    ensures Ties(Insert(x, s, le), y, le) == (if Tied(x, y, le) then [x] else []) + Ties(s, y, le)
  {
    if s == [] || le(x, s[0]) {
      assert ([x] + s)[1..] == s;
    } else {
      InsertIsStable(x, s[1..], y, le);
      assert ([s[0]] + Insert(x, s[1..], le))[1..] == Insert(x, s[1..], le);
    }
  }

  /** Values that tie keep their relative order. */
  lemma {:induction false} SortIsStable<T(!new)>(s: seq<T>, y: T, le: (T, T) -> bool)
    requires TotalPreorder(le)
    ensures Ties(Sort(s, le), y, le) == Ties(s, y, le)
  {
    if s != [] {
      SortIsStable(s[1..], y, le);
      InsertIsStable(s[0], Sort(s[1..], le), y, le);
    }
  }

  lemma {:induction false} TiesMembers<T>(s: seq<T>, x: T, y: T, le: (T, T) -> bool)
    ensures y in Ties(s, x, le) <==> y in s && Tied(y, x, le)
  {
    if s != [] {
      TiesMembers(s[1..], x, y, le);
      assert s == [s[0]] + s[1..];
    }
  }

  /** A sorted sequence is determined by its tie classes. */
  lemma {:induction false} SortedDeterminedByTies<T(!new)>(s: seq<T>, t: seq<T>, le: (T, T) -> bool)
    requires TotalPreorder(le) && Sorted(s, le) && Sorted(t, le)
    requires SameTies(s, t, le)
    ensures s == t
  {
    if s == [] {
      if t != [] { assert false; }
    } else {
      TiesMembers(s, s[0], s[0], le);
      TiesMembers(t, s[0], s[0], le);
      assert s[0] in t;
      TiesMembers(t, t[0], t[0], le);
      TiesMembers(s, t[0], t[0], le);
      assert t[0] in s;
      assert le(s[0], t[0]) && le(t[0], s[0]);
      assert Ties(s, s[0], le)[0] == s[0] && Ties(t, s[0], le)[0] == t[0];
      forall x ensures Ties(s[1..], x, le) == Ties(t[1..], x, le) {
        assert Ties(s, x, le) == Ties(t, x, le);
        if Tied(s[0], x, le) {
          assert Ties(s[1..], x, le) == Ties(s, x, le)[1..];
          assert Ties(t[1..], x, le) == Ties(t, x, le)[1..];
        }
      }
      SortedDeterminedByTies(s[1..], t[1..], le);
      assert s == [s[0]] + s[1..] && t == [t[0]] + t[1..];
    }
  }

  /** Two inputs sort to the same array exactly when their tie classes agree. */
  lemma SortEqualIff<T(!new)>(s: seq<T>, t: seq<T>, le: (T, T) -> bool)
    requires TotalPreorder(le)
    ensures Sort(s, le) == Sort(t, le) <==> SameTies(s, t, le)
  {
    SortIsSorted(s, le);
    SortIsSorted(t, le);
    forall x ensures Ties(Sort(s, le), x, le) == Ties(s, x, le) && Ties(Sort(t, le), x, le) == Ties(t, x, le) {
      SortIsStable(s, x, le);
      SortIsStable(t, x, le);
    }
    if SameTies(s, t, le) {
      forall x ensures Ties(Sort(s, le), x, le) == Ties(Sort(t, le), x, le) {
        assert Ties(s, x, le) == Ties(t, x, le);
      }
      SortedDeterminedByTies(Sort(s, le), Sort(t, le), le);
    }
  }

  lemma SortIdempotent<T(!new)>(s: seq<T>, le: (T, T) -> bool)
    requires TotalPreorder(le)
    ensures Sort(Sort(s, le), le) == Sort(s, le)
  {
    forall x ensures Ties(Sort(s, le), x, le) == Ties(s, x, le) { SortIsStable(s, x, le); }
    SortEqualIff(Sort(s, le), s, le);
  }

  lemma {:induction false} TiesCount<T(!new)>(s: seq<T>, x: T, le: (T, T) -> bool)
    requires TotalPreorder(le) && Separates(le)
    ensures Ties(s, x, le) == seq(multiset(s)[x], i => x)
  {
    if s != [] {
      TiesCount(s[1..], x, le);
      assert s == [s[0]] + s[1..];
      assert multiset(s) == multiset{s[0]} + multiset(s[1..]);
    }
  }

  /** When nothing ties, sorting forgets exactly the order of its input. */
  lemma SortForgetsOrder<T(!new)>(s: seq<T>, t: seq<T>, le: (T, T) -> bool)
    requires TotalPreorder(le) && Separates(le)
    ensures Sort(s, le) == Sort(t, le) <==> multiset(s) == multiset(t)
  {
    if multiset(s) == multiset(t) {
      forall x ensures Ties(s, x, le) == Ties(t, x, le) {
        TiesCount(s, x, le);
        TiesCount(t, x, le);
      }
      SortEqualIff(s, t, le);
    }
  }

  ghost predicate StrictlySorted<T>(s: seq<T>, le: (T, T) -> bool) {
    forall i, j | 0 <= i < j < |s| :: le(s[i], s[j]) && !le(s[j], s[i])
  }

  lemma SameHead<T>(s: seq<T>, t: seq<T>, le: (T, T) -> bool)
    requires StrictlySorted(s, le) && Sorted(t, le) && multiset(s) == multiset(t) && s != []
    ensures t != [] && t[0] == s[0]
  {
    assert s[0] in multiset(t);
    var k :| 0 <= k < |t| && t[k] == s[0];
    assert t[0] in multiset(s);
    var i :| 0 <= i < |s| && s[i] == t[0];
  }

  lemma TailMultiset<T>(s: seq<T>, x: T)
    requires s != [] && s[0] == x
    ensures multiset(s[1..]) == multiset(s) - multiset{x}
  {
    assert s == [x] + s[1..];
  }

  /** A strictly sorted sequence is determined by its elements. */
  lemma {:induction false} StrictlySortedIsUnique<T>(s: seq<T>, t: seq<T>, le: (T, T) -> bool)
    requires StrictlySorted(s, le) && Sorted(t, le) && multiset(s) == multiset(t)
    ensures s == t
  {
    if s == [] {
      assert |multiset(t)| == 0;
    } else {
      SameHead(s, t, le);
      TailMultiset(s, s[0]);
      TailMultiset(t, s[0]);
      StrictlySortedIsUnique(s[1..], t[1..], le);
      assert s == [s[0]] + s[1..] && t == [t[0]] + t[1..];
    }
  }

  /** The default order of Array.prototype.sort on strings: by character code, a prefix first. */
  predicate LexLe(a: string, b: string) {
    a == [] || (b != [] && (a[0] < b[0] || (a[0] == b[0] && LexLe(a[1..], b[1..]))))
  }

  lemma {:induction false} LexTotal(a: string, b: string)
    ensures LexLe(a, b) || LexLe(b, a)
    ensures LexLe(a, b) && LexLe(b, a) ==> a == b
  {
    if a != [] && b != [] && a[0] == b[0] {
      LexTotal(a[1..], b[1..]);
      assert a == [a[0]] + a[1..] && b == [b[0]] + b[1..];
    }
  }

  lemma {:induction false} LexTransitive(a: string, b: string, c: string)
    requires LexLe(a, b) && LexLe(b, c)
    ensures LexLe(a, c)
  {
    if a != [] && a[0] == b[0] == c[0] {
      LexTransitive(a[1..], b[1..], c[1..]);
    }
  }

  lemma LexIsTotalOrder()
    ensures TotalPreorder(LexLe) && Separates(LexLe)
  {
    forall x, y ensures (LexLe(x, y) || LexLe(y, x)) && (LexLe(x, y) && LexLe(y, x) ==> x == y) {
      LexTotal(x, y);
    }
    forall x, y, z | LexLe(x, y) && LexLe(y, z) ensures LexLe(x, z) {
      LexTransitive(x, y, z);
    }
  }
}
