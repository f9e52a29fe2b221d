/** Voter lists.

    The ledger keeps the voters of a token as plain lists: membership is a
    linear `in` test, a new voter is appended, and a voter is dropped with the
    list's remove operation, which deletes the FIRST occurrence only.
 */
module Voters {

  /** No element occurs twice. */
  predicate NoDup<T(==)>(s: seq<T>) {
    forall i, j | 0 <= i < j < |s| :: s[i] != s[j]
  }

  /** Position of the first occurrence of `x`. */
  function IndexOf<T(==)>(s: seq<T>, x: T): (k: nat)
    requires x in s
    ensures k < |s| && s[k] == x
    ensures x !in s[..k]
  {
    if s[0] == x then 0
    else
      var k' := IndexOf(s[1..], x);
      assert s[..k' + 1] == [s[0]] + s[1..][..k'];
      k' + 1
  }

  /** `r` is `s` with its first `x` cut out and the other elements kept in order. */
  predicate FirstRemoved<T(==)>(s: seq<T>, x: T, r: seq<T>) {
    exists k | 0 <= k < |s| :: s[k] == x && x !in s[..k] && r == s[..k] + s[k + 1..]
  }

  /** The list remove operation: deletes the first occurrence of `x`. Every
      call site checks membership first, so the absent case (which raises in
      the source) is never reached there; it is modelled as the identity. */
  function RemoveFirst<T(==)>(s: seq<T>, x: T): (r: seq<T>)
    ensures x !in s ==> r == s
    ensures x in s ==> FirstRemoved(s, x, r)
    ensures x in s ==> |r| == |s| - 1
    ensures multiset(r) == multiset(s) - multiset{x}
  {
    if x !in s then s
    else
      var k := IndexOf(s, x);
      assert s == s[..k] + [x] + s[k + 1..];
      s[..k] + s[k + 1..]
  }

  /** Cutting position `k` out of a duplicate-free list leaves it
      duplicate-free and without the element that stood there. */
  lemma DropAtNoDup<T>(s: seq<T>, k: nat)
    requires NoDup(s) && k < |s|
    ensures NoDup(s[..k] + s[k + 1..]) && s[k] !in s[..k] + s[k + 1..]
  {
    var r := s[..k] + s[k + 1..];
    forall i | 0 <= i < |r| ensures r[i] == s[Skip(i, k)] {
      if i < k {
        assert r[i] == s[..k][i];
      } else {
        assert r[i] == s[k + 1..][i - k];
      }
    }
    forall i, j | 0 <= i < j < |r| ensures r[i] != r[j] {
      assert Skip(i, k) < Skip(j, k);
    }
    forall i | 0 <= i < |r| ensures r[i] != s[k] {
      assert Skip(i, k) != k;
    }
  }

  /** Removing from a duplicate-free list leaves it duplicate-free and without `x`. */
  lemma RemoveFirstNoDup<T>(s: seq<T>, x: T)
    requires NoDup(s)
    ensures NoDup(RemoveFirst(s, x)) && x !in RemoveFirst(s, x)
  {
    if x in s {
      var k := IndexOf(s, x);
      DropAtNoDup(s, k);
      assert RemoveFirst(s, x) == s[..k] + s[k + 1..];
    }
  }

  /** Index into the list before removing the element at `k`. */
  function Skip(i: nat, k: nat): nat {
    if i < k then i else i + 1
  }

  /** Removing `x` leaves every other element's membership as it was. */
  lemma RemoveFirstKeepsOthers<T>(s: seq<T>, x: T, y: T)
    requires y != x
    ensures y in RemoveFirst(s, x) <==> y in s
  {
    var r := RemoveFirst(s, x);
    assert y in r <==> y in multiset(r);
    assert y in s <==> y in multiset(s);
  }

  /** Prepending a new element keeps a list duplicate-free. */
  lemma NoDupCons<T>(x: T, xs: seq<T>)
    requires NoDup(xs) && x !in xs
    ensures NoDup([x] + xs)
  {
    var ys := [x] + xs;
    forall i, j | 0 <= i < j < |ys| ensures ys[i] != ys[j] {
      assert ys[j] == xs[j - 1];
      if i > 0 {
        assert ys[i] == xs[i - 1];
      }
    }
  }
}
