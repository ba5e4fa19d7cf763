/** The library's stable sort, as a function of a comparison, and what any such sort gives. */
module StableSort {
  import opened Common

  /** Insert after every element that is not greater, so that equal elements keep their order. */
  function Insert<T>(sorted: seq<T>, x: T, le: (T, T) -> bool): seq<T> {
    if sorted != [] && !le(Last(sorted), x) then Insert(Init(sorted), x, le) + [Last(sorted)] else sorted + [x]
  }

  function Sort<T>(xs: seq<T>, le: (T, T) -> bool): seq<T> {
    if xs == [] then [] else Insert(Sort(Init(xs), le), Last(xs), le)
  }

  ghost predicate Ordered<T>(xs: seq<T>, le: (T, T) -> bool) {
    forall i, j | 0 <= i < j < |xs| :: le(xs[i], xs[j])
  }

  /** Any two elements are comparable, and the comparison is transitive. */
  ghost predicate TotalPreorder<T(!new)>(le: (T, T) -> bool) {
    && (forall a, b :: le(a, b) || le(b, a))
    && (forall a, b, c :: le(a, b) && le(b, c) ==> le(a, c))
  }

  lemma {:induction false} InsertOrders<T(!new)>(sorted: seq<T>, x: T, le: (T, T) -> bool)
    requires TotalPreorder(le) && Ordered(sorted, le)
    ensures Ordered(Insert(sorted, x, le), le) && multiset(Insert(sorted, x, le)) == multiset(sorted) + multiset{x}
  {
    if sorted == [] {
    } else if le(Last(sorted), x) {
      forall i | 0 <= i < |sorted| ensures le(sorted[i], x) {
        assert le(sorted[i], Last(sorted));
      }
    } else {
      InsertOrders(Init(sorted), x, le);
      assert sorted == Init(sorted) + [Last(sorted)];
      AppendGreatest(Insert(Init(sorted), x, le), multiset(Init(sorted)) + multiset{x}, Last(sorted), le);
    }
  }

  lemma AppendGreatest<T(!new)>(xs: seq<T>, members: multiset<T>, last: T, le: (T, T) -> bool)
    requires Ordered(xs, le) && multiset(xs) == members && forall m | m in members :: le(m, last)
    ensures Ordered(xs + [last], le)
  {
    forall i | 0 <= i < |xs| ensures le(xs[i], last) {
      assert xs[i] in multiset(xs);
    }
  }

  /** A sort by a total preorder is an ordered rearrangement. */
  lemma {:induction false} SortOrders<T(!new)>(xs: seq<T>, le: (T, T) -> bool)
    requires TotalPreorder(le)
    ensures Ordered(Sort(xs, le), le) && multiset(Sort(xs, le)) == multiset(xs)
  {
    if xs != [] {
      SortOrders(Init(xs), le);
      InsertOrders(Sort(Init(xs), le), Last(xs), le);
      assert xs == Init(xs) + [Last(xs)];
    }
  }

  /** A list already in order stays as it is. */
  lemma {:induction false} SortKeepsOrdered<T(!new)>(xs: seq<T>, le: (T, T) -> bool)
    requires Ordered(xs, le)
    ensures Sort(xs, le) == xs
  {
    if xs != [] {
      var before := Init(xs);
      SortKeepsOrdered(before, le);
      assert before != [] ==> le(Last(before), Last(xs));
      assert xs == before + [Last(xs)];
    }
  }

  /** The elements that compare equal to `x`, in order. */
  function Ties<T>(xs: seq<T>, x: T, le: (T, T) -> bool): seq<T> {
    if xs == [] then []
    else Ties(Init(xs), x, le) + if le(Last(xs), x) && le(x, Last(xs)) then [Last(xs)] else []
  }

  lemma {:induction false} InsertKeepsTies<T(!new)>(sorted: seq<T>, e: T, x: T, le: (T, T) -> bool)
    requires TotalPreorder(le)
    ensures Ties(Insert(sorted, e, le), x, le) == Ties(sorted + [e], x, le)
  {
    assert Init(sorted + [e]) == sorted;
    if sorted != [] && !le(Last(sorted), e) {
      var before := Init(sorted);
      InsertKeepsTies(before, e, x, le);
      assert Init(before + [e]) == before;
      assert Init(Insert(before, e, le) + [Last(sorted)]) == Insert(before, e, le);
    }
  }

  /** Sorting leaves elements that compare equal in the order they were in. */
  lemma {:induction false} SortIsStable<T(!new)>(xs: seq<T>, x: T, le: (T, T) -> bool)
    requires TotalPreorder(le)
    ensures Ties(Sort(xs, le), x, le) == Ties(xs, x, le)
  {
    if xs != [] {
      SortIsStable(Init(xs), x, le);
      var sorted := Sort(Init(xs), le);
      InsertKeepsTies(sorted, Last(xs), x, le);
      assert Init(sorted + [Last(xs)]) == sorted;
    }
  }
}
