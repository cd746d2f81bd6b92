/** A stable sort over a total preorder. It stands for JavaScript's
    `Array.prototype.sort` with a comparator (stable since ECMAScript 2019)
    and for SQL `ORDER BY`, whose order between ties the model fixes as the
    order of the input. */
module Sorting {
  import opened Seqs

  /** `le(a, b)`: `a` may come before `b`. Every pair is comparable and the
      relation is transitive. */
  ghost predicate TotalPreorder<T(!new)>(le: (T, T) -> bool) {
    && (forall a, b :: le(a, b) || le(b, a))
    && (forall a, b, c :: le(a, b) && le(b, c) ==> le(a, c))
  }

  ghost predicate SortedBy<T>(s: seq<T>, le: (T, T) -> bool) {
    forall i, j :: 0 <= i < j < |s| ==> le(s[i], s[j])
  }

  /** The elements of `s` that rank exactly as `c` does, in their order in `s`. */
  function TiedWith<T>(s: seq<T>, le: (T, T) -> bool, c: T): seq<T> {
    Filter(s, TiedTest(le, c))
  }

  /** Holds of the elements that rank exactly as `c` does. */
  function TiedTest<T>(le: (T, T) -> bool, c: T): T -> bool {
    (x: T) => le(x, c) && le(c, x)
  }

  /** Inserts `x` after every element of `s` that may come before it. */
  function Insert<T>(x: T, s: seq<T>, le: (T, T) -> bool): (r: seq<T>)
    ensures multiset(r) == multiset(s) + multiset{x}
    ensures |r| == |s| + 1
  {
    if s == [] then [x]
    else if le(s[0], x) then
      assert s == [s[0]] + s[1..];
      [s[0]] + Insert(x, s[1..], le)
    else [x] + s
  }

  /** Stable insertion sort: the input's elements are inserted left to right. */
  function SortBy<T>(s: seq<T>, le: (T, T) -> bool): (r: seq<T>)
    ensures multiset(r) == multiset(s)
    ensures |r| == |s|
  {
    if s == [] then []
    else
      var init := s[..|s| - 1];
      assert s == init + [s[|s| - 1]];
      Insert(s[|s| - 1], SortBy(init, le), le)
  }

  lemma {:induction false} InsertSorted<T(!new)>(x: T, s: seq<T>, le: (T, T) -> bool)
    requires TotalPreorder(le) && SortedBy(s, le)
    ensures SortedBy(Insert(x, s, le), le)
  {
    if s != [] {
      var r := Insert(x, s, le);
      if le(s[0], x) {
        var tail := Insert(x, s[1..], le);
        InsertSorted(x, s[1..], le);
        forall j | 0 <= j < |tail| ensures le(s[0], tail[j]) {
          assert tail[j] in multiset(tail);
          if tail[j] != x {
            assert tail[j] in multiset(s[1..]);
            var k :| 0 <= k < |s[1..]| && s[1..][k] == tail[j];
            assert s[k + 1] == tail[j];
          }
        }
        assert r == [s[0]] + tail;
      } else {
        assert r == [x] + s;
        forall j | 0 <= j < |s| ensures le(x, s[j]) {
          assert le(x, s[0]);
          if j > 0 { assert le(s[0], s[j]); }
        }
      }
    }
  }

  lemma {:induction false} SortBySorted<T(!new)>(s: seq<T>, le: (T, T) -> bool)
    requires TotalPreorder(le)
    ensures SortedBy(SortBy(s, le), le)
  {
    if s != [] {
      var init := s[..|s| - 1];
      SortBySorted(init, le);
      InsertSorted(s[|s| - 1], SortBy(init, le), le);
    }
  }

  lemma {:induction false} NoneTied<T>(s: seq<T>, le: (T, T) -> bool, c: T)
    requires forall i :: 0 <= i < |s| ==> !(le(s[i], c) && le(c, s[i]))
    ensures TiedWith(s, le, c) == []
  {
    FilterNone(s, TiedTest(le, c));
  }

  /** Inserting `x` appends it to its own tie class and leaves the others alone. */
  lemma {:induction false} InsertTied<T(!new)>(x: T, s: seq<T>, le: (T, T) -> bool, c: T)
    requires TotalPreorder(le) && SortedBy(s, le)
    ensures TiedWith(Insert(x, s, le), le, c)
         == TiedWith(s, le, c) + (if le(x, c) && le(c, x) then [x] else [])
  {
    if s == [] {
      FilterCons(x, [], TiedTest(le, c));
      assert [x] + [] == [x];
    } else if le(s[0], x) {
      InsertTied(x, s[1..], le, c);
      InsertTiedBehind(x, s, le, c);
    } else {
      if le(x, c) && le(c, x) {
        BelowIsUntied(x, s, le, c);
        NoneTied(s, le, c);
      }
      InsertTiedAhead(x, s, le, c);
    }
  }

  /** `x` goes behind the head of `s`: the head's tie entry stays in front. */
  lemma {:induction false} InsertTiedBehind<T>(x: T, s: seq<T>, le: (T, T) -> bool, c: T)
    requires s != [] && le(s[0], x)
    requires TiedWith(Insert(x, s[1..], le), le, c)
          == TiedWith(s[1..], le, c) + (if le(x, c) && le(c, x) then [x] else [])
    ensures TiedWith(Insert(x, s, le), le, c)
         == TiedWith(s, le, c) + (if le(x, c) && le(c, x) then [x] else [])
  {
    var p := TiedTest(le, c);
    FilterInsertBehind(x, s, le, p);
    FilterHead(s, p);
    Regroup(Filter(Insert(x, s, le), p), Filter(s, p), if p(s[0]) then [s[0]] else [],
            Filter(Insert(x, s[1..], le), p), Filter(s[1..], p),
            if le(x, c) && le(c, x) then [x] else []);
  }

  /** Filtering an insertion behind the head starts with the head's own entry. */
  lemma {:induction false} FilterInsertBehind<T>(x: T, s: seq<T>, le: (T, T) -> bool, p: T -> bool)
    requires s != [] && le(s[0], x)
    ensures Filter(Insert(x, s, le), p)
         == (if p(s[0]) then [s[0]] else []) + Filter(Insert(x, s[1..], le), p)
  {
    assert Insert(x, s, le) == [s[0]] + Insert(x, s[1..], le);
    FilterCons(s[0], Insert(x, s[1..], le), p);
  }

  /** `x` goes in front of `s`, which then holds nothing tied with it. */
  lemma {:induction false} InsertTiedAhead<T>(x: T, s: seq<T>, le: (T, T) -> bool, c: T)
    requires s != [] && !le(s[0], x)
    requires le(x, c) && le(c, x) ==> TiedWith(s, le, c) == []
    ensures TiedWith(Insert(x, s, le), le, c)
         == TiedWith(s, le, c) + (if le(x, c) && le(c, x) then [x] else [])
  {
    assert Insert(x, s, le) == [x] + s;
    FilterCons(x, s, TiedTest(le, c));
  }

  /** In a sorted `s` whose head ranks strictly after `x`, nothing is tied with `x`. */
  lemma BelowIsUntied<T(!new)>(x: T, s: seq<T>, le: (T, T) -> bool, c: T)
    requires TotalPreorder(le) && SortedBy(s, le)
    requires s != [] && !le(s[0], x) && le(x, c) && le(c, x)
    ensures forall i :: 0 <= i < |s| ==> !(le(s[i], c) && le(c, s[i]))
  {
    forall i | 0 <= i < |s| ensures !le(s[i], x) {
      if i > 0 { assert le(s[0], s[i]); }
    }
  }

  /** Elements that rank the same keep their input order. */
  lemma {:induction false} SortByStable<T(!new)>(s: seq<T>, le: (T, T) -> bool, c: T)
    requires TotalPreorder(le)
    ensures TiedWith(SortBy(s, le), le, c) == TiedWith(s, le, c)
  {
    if s != [] {
      var init, last := s[..|s| - 1], s[|s| - 1];
      assert s == init + [last];
      var sorted := SortBy(init, le);
      SortByStable(init, le, c);
      SortBySorted(init, le);
      InsertTied(last, sorted, le, c);
      StableStep(init, last, sorted, le, c);
    }
  }

  /** The last step of `SortByStable`: inserting the last element extends
      its tie class exactly as appending it to the input does. */
  lemma {:induction false} StableStep<T>(init: seq<T>, last: T, sorted: seq<T>, le: (T, T) -> bool, c: T)
    requires TiedWith(sorted, le, c) == TiedWith(init, le, c)
    requires TiedWith(Insert(last, sorted, le), le, c)
          == TiedWith(sorted, le, c) + (if le(last, c) && le(c, last) then [last] else [])
    ensures TiedWith(Insert(last, sorted, le), le, c) == TiedWith(init + [last], le, c)
  {
    FilterConcat(init, [last], TiedTest(le, c));
    FilterCons(last, [], TiedTest(le, c));
    assert [last] + [] == [last];
  }

  /** A prefix of a sorted sequence holds its top elements: anything of `s`
      left out ranks no higher than anything kept. */
  lemma TakeIsTop<T>(s: seq<T>, le: (T, T) -> bool, k: nat)
    requires SortedBy(s, le)
    ensures SortedBy(Take(s, k), le)
    ensures multiset(Take(s, k)) <= multiset(s)
    ensures forall x, y :: x in Take(s, k) && multiset(Take(s, k))[y] < multiset(s)[y] ==> le(x, y)
  {
    var t := Take(s, k);
    var rest := s[|t|..];
    assert s == t + rest;
    assert multiset(s) == multiset(t) + multiset(rest);
    forall x, y | x in t && multiset(t)[y] < multiset(s)[y] ensures le(x, y) {
      assert y in multiset(rest);
      var j :| 0 <= j < |rest| && rest[j] == y;
      var i :| 0 <= i < |t| && t[i] == x;
      assert s[i] == x && s[|t| + j] == y;
    }
  }

  /** `ORDER BY ... LIMIT k`: the first `k` elements of `s` in the order `le`. */
  function TopBy<T(!new)>(s: seq<T>, le: (T, T) -> bool, k: nat): (r: seq<T>)
    requires TotalPreorder(le)
    ensures |r| == if |s| <= k then |s| else k
    ensures SortedBy(r, le)
    ensures multiset(r) <= multiset(s)
    ensures forall x, y :: x in r && multiset(r)[y] < multiset(s)[y] ==> le(x, y)
  {
    var sorted := SortBy(s, le);
    SortBySorted(s, le);
    TakeIsTop(sorted, le, k);
    Take(sorted, k)
  }

  /** Keeping some elements of a sorted sequence keeps it sorted. */
  lemma {:induction false} FilterSorted<T>(s: seq<T>, le: (T, T) -> bool, p: T -> bool)
    requires SortedBy(s, le)
    ensures SortedBy(Filter(s, p), le)
  {
    if s != [] {
      FilterSorted(s[1..], le, p);
      var rest := Filter(s[1..], p);
      forall j | 0 <= j < |rest| ensures le(s[0], rest[j]) {
        assert rest[j] in s[1..];
        var k :| 0 <= k < |s[1..]| && s[1..][k] == rest[j];
        assert s[k + 1] == rest[j];
      }
    }
  }

  /** Sorting by `le` an input already ordered by `order` leaves every group
      of ties ordered by `order`. */
  lemma TiesKeepOrder<T(!new)>(s: seq<T>, le: (T, T) -> bool, order: (T, T) -> bool)
    requires TotalPreorder(le) && SortedBy(s, order)
    ensures forall c :: SortedBy(TiedWith(SortBy(s, le), le, c), order)
  {
    forall c ensures SortedBy(TiedWith(SortBy(s, le), le, c), order) {
      SortByStable(s, le, c);
      FilterSorted(s, order, TiedTest(le, c));
    }
  }
}
