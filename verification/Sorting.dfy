/** Python's `sorted` on strings, which it compares element by element. */
module Sorting {
  predicate LessEq<T>(a: seq<T>, b: seq<T>, rank: T -> int) {
    a == [] || (b != [] && (rank(a[0]) < rank(b[0]) || (rank(a[0]) == rank(b[0]) && LessEq(a[1..], b[1..], rank))))
  }

  /** Up to `k` the texts agree, and there `a` ends or has the smaller element. */
  predicate PartsAt<T>(a: seq<T>, b: seq<T>, rank: T -> int, k: nat) {
    && k <= |a| && k <= |b|
    && (forall i | 0 <= i < k :: rank(a[i]) == rank(b[i]))
    && (k == |a| || (k < |b| && rank(a[k]) < rank(b[k])))
  }

  /** The order is the lexicographic one. */
  lemma {:induction false} LessEqIff<T>(a: seq<T>, b: seq<T>, rank: T -> int)
    ensures LessEq(a, b, rank) <==> exists k :: PartsAt(a, b, rank, k)
  {
    if a == [] {
      assert PartsAt(a, b, rank, 0);
    } else if b != [] && rank(a[0]) == rank(b[0]) {
      LessEqIff(a[1..], b[1..], rank);
      if k: nat :| PartsAt(a[1..], b[1..], rank, k) {
        assert forall i | 0 < i < k + 1 :: a[i] == a[1..][i - 1] && b[i] == b[1..][i - 1];
        assert PartsAt(a, b, rank, k + 1);
      }
      if k: nat :| PartsAt(a, b, rank, k) {
        assert k > 0 && forall i | 0 <= i < k - 1 :: a[1..][i] == a[i + 1] && b[1..][i] == b[i + 1];
        assert PartsAt(a[1..], b[1..], rank, k - 1);
      }
    } else if b != [] && rank(a[0]) < rank(b[0]) {
      assert PartsAt(a, b, rank, 0);
    }
  }

  predicate Ordered<T>(names: seq<seq<T>>, rank: T -> int) {
    forall i | 0 < i < |names| :: LessEq(names[i - 1], names[i], rank)
  }

  lemma {:induction false} Total<T>(a: seq<T>, b: seq<T>, rank: T -> int)
    ensures LessEq(a, b, rank) || LessEq(b, a, rank)
  {
    if a != [] && b != [] {
      Total(a[1..], b[1..], rank);
    }
  }

  function Insert<T>(name: seq<T>, names: seq<seq<T>>, rank: T -> int): seq<seq<T>> {
    if names == [] || LessEq(name, names[0], rank) then [name] + names
    else [names[0]] + Insert(name, names[1..], rank)
  }

  function Sorted<T>(names: seq<seq<T>>, rank: T -> int): seq<seq<T>> {
    if names == [] then [] else Insert(names[0], Sorted(names[1..], rank), rank)
  }

  lemma {:induction false} InsertKeepsOrder<T>(name: seq<T>, names: seq<seq<T>>, rank: T -> int)
    requires Ordered(names, rank)
    ensures Ordered(Insert(name, names, rank), rank)
    ensures Insert(name, names, rank)[0] == name || (names != [] && Insert(name, names, rank)[0] == names[0])
  {
    hide LessEq;
    if names != [] && !LessEq(name, names[0], rank) {
      InsertKeepsOrder(name, names[1..], rank);
      Total(name, names[0], rank);
    }
  }

  lemma {:induction false} InsertAddsOne<T>(name: seq<T>, names: seq<seq<T>>, rank: T -> int)
    ensures multiset(Insert(name, names, rank)) == multiset(names) + multiset{name}
  {
    hide LessEq;
    if names != [] && !LessEq(name, names[0], rank) {
      assert names == [names[0]] + names[1..];
      InsertAddsOne(name, names[1..], rank);
    }
  }

  /** Sorting orders the names and keeps each as often as it occurs. */
  lemma {:induction false} SortedIsOrdered<T>(names: seq<seq<T>>, rank: T -> int)
    ensures Ordered(Sorted(names, rank), rank) && multiset(Sorted(names, rank)) == multiset(names)
  {
    if names != [] {
      assert names == [names[0]] + names[1..];
      SortedIsOrdered(names[1..], rank);
      InsertKeepsOrder(names[0], Sorted(names[1..], rank), rank);
      InsertAddsOne(names[0], Sorted(names[1..], rank), rank);
    }
  }
}
