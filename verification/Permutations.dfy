/** Lists that hold the same elements equally often. */
module Permutations {

  predicate AllDifferent<T(==)>(s: seq<T>) {
    forall i, j | 0 <= i < j < |s| :: s[i] != s[j]
  }

  lemma TwiceInMultiset<T>(s: seq<T>, i: nat, j: nat)
    requires i < j < |s| && s[i] == s[j]
    ensures multiset(s)[s[i]] >= 2
  {
    assert s == s[..j] + [s[j]] + s[j + 1..];
    assert s[..j][i] == s[i];
    assert s[i] in multiset(s[..j]);
  }

  lemma OnceInMultiset<T>(s: seq<T>, a: nat)
    requires a < |s| && AllDifferent(s)
    ensures multiset(s)[s[a]] == 1
  {
    assert s == s[..a] + [s[a]] + s[a + 1..];
    assert forall i | 0 <= i < a :: s[..a][i] == s[i] != s[a];
    assert forall i | a < i < |s| :: s[a + 1..][i - a - 1] == s[i] != s[a];
    assert s[a] !in s[..a] && s[a] !in s[a + 1..];
    assert multiset(s[..a])[s[a]] == 0 && multiset(s[a + 1..])[s[a]] == 0;
  }

  /** A permutation of a list without repetitions has none either. */
  lemma PermutedAllDifferent<T>(s: seq<T>, t: seq<T>)
    requires multiset(s) == multiset(t) && AllDifferent(s)
    ensures AllDifferent(t)
  {
    forall i, j | 0 <= i < j < |t| ensures t[i] != t[j] {
      if t[i] == t[j] {
        TwiceInMultiset(t, i, j);
        assert t[i] in multiset(s);
        var a :| 0 <= a < |s| && s[a] == t[i];
        OnceInMultiset(s, a);
        assert false;
      }
    }
  }

  /** Every element of a permutation is an element of the list. */
  lemma PermutedMember<T>(s: seq<T>, t: seq<T>, i: nat) returns (a: nat)
    requires multiset(s) == multiset(t) && i < |t|
    ensures a < |s| && s[a] == t[i]
  {
    assert t[i] in multiset(s);
    a :| a < |s| && s[a] == t[i];
  }

  function Without<T>(s: seq<T>, j: nat): (r: seq<T>)
    requires j < |s|
    ensures |r| == |s| - 1
  {
    s[..j] + s[j + 1..]
  }

  /** Two lists are permutations exactly if they are without an element that both hold. */
  lemma PermutedWithout<T>(s: seq<T>, i: nat, t: seq<T>, j: nat)
    requires i < |s| && j < |t| && s[i] == t[j]
    ensures multiset(s) == multiset(t) <==> multiset(Without(s, i)) == multiset(Without(t, j))
  {
    WithoutIs(s, i);
    WithoutIs(t, j);
    hide Without;
    assert multiset(s) - multiset{s[i]} == multiset(Without(s, i));
    assert multiset(t) - multiset{s[i]} == multiset(Without(t, j));
  }

  lemma WithoutIs<T>(s: seq<T>, j: nat)
    requires j < |s|
    ensures multiset(s) == multiset(Without(s, j)) + multiset{s[j]}
  {
    assert s == s[..j] + [s[j]] + s[j + 1..];
  }
}
