/** Sequence pipelines in the style of JavaScript's `filter`, `map` and
    `filter(...).length`, with the facts about them that the rest of the
    model relies on. */
module Seqs {
  import opened Wrappers

  /** `s.filter(p)`: the elements of `s` satisfying `p`, in their order. */
  function Filter<T>(s: seq<T>, p: T -> bool): (r: seq<T>)
    ensures |r| <= |s|
    ensures forall x :: x in r ==> x in s && p(x)
  {
    if s == [] then []
    else (if p(s[0]) then [s[0]] else []) + Filter(s[1..], p)
  }

  /** `s.filter(p).length`. */
  function Count<T>(s: seq<T>, p: T -> bool): nat {
    |Filter(s, p)|
  }

  /** `s.map(f)`. */
  function Map<T, U>(s: seq<T>, f: T -> U): (r: seq<U>)
    ensures |r| == |s|
    ensures forall i :: 0 <= i < |s| ==> r[i] == f(s[i])
  {
    seq(|s|, i requires 0 <= i < |s| => f(s[i]))
  }

  /** The values of `s.filter(p).map(f)` are the images of the elements satisfying `p`. */
  lemma MapFilterMembership<T, U>(s: seq<T>, p: T -> bool, f: T -> U, x: U)
    ensures x in Map(Filter(s, p), f) <==> exists e :: e in s && p(e) && x == f(e)
  {
    var kept := Filter(s, p);
    if x in Map(kept, f) {
      var i :| 0 <= i < |kept| && Map(kept, f)[i] == x;
      assert kept[i] in kept;
    } else {
      forall e | e in s && p(e) ensures x != f(e) {
        FilterMembership(s, p, e);
        var i :| 0 <= i < |kept| && kept[i] == e;
        assert Map(kept, f)[i] == f(e);
      }
    }
  }

  /** `Map` over a two-element sequence. */
  lemma MapPair<T, U>(a: T, b: T, f: T -> U)
    ensures Map([a, b], f) == [f(a), f(b)]
  {
    var r := Map([a, b], f);
    assert r[0] == f(a) && r[1] == f(b);
  }

  /** `idx` lists, in increasing order, the positions of `b` that spell `a`. */
  ghost predicate SubsequenceVia<T>(a: seq<T>, b: seq<T>, idx: seq<nat>) {
    && |idx| == |a|
    && (forall k :: 0 <= k < |idx| ==> idx[k] < |b| && a[k] == b[idx[k]])
    && (forall k, l :: 0 <= k < l < |idx| ==> idx[k] < idx[l])
  }

  /** `a` is obtained from `b` by deleting elements, keeping the order of the rest. */
  ghost predicate IsSubsequence<T>(a: seq<T>, b: seq<T>) {
    exists idx :: SubsequenceVia(a, b, idx)
  }

  lemma {:induction false} FilterMembership<T>(s: seq<T>, p: T -> bool, x: T)
    ensures x in Filter(s, p) <==> x in s && p(x)
  {
    if s != [] {
      FilterMembership(s[1..], p, x);
      assert s == [s[0]] + s[1..];
    }
  }

  lemma {:induction false} FilterConcat<T>(a: seq<T>, b: seq<T>, p: T -> bool)
    ensures Filter(a + b, p) == Filter(a, p) + Filter(b, p)
  {
    if a == [] {
      assert a + b == b;
    } else {
      assert (a + b)[0] == a[0];
      assert (a + b)[1..] == a[1..] + b;
      FilterConcat(a[1..], b, p);
    }
  }

  /** Filtering by two tests that agree on every element gives the same result. */
  lemma {:induction false} FilterExt<T>(s: seq<T>, p: T -> bool, q: T -> bool)
    requires forall x :: p(x) == q(x)
    ensures Filter(s, p) == Filter(s, q)
  {
    if s != [] {
      FilterExt(s[1..], p, q);
    }
  }

  /** Filtering by `p` and then by `q` keeps what filtering once by their
      conjunction `pq` keeps. */
  lemma {:induction false} FilterFilter<T>(s: seq<T>, p: T -> bool, q: T -> bool, pq: T -> bool)
    requires forall x :: pq(x) == (p(x) && q(x))
    ensures Filter(Filter(s, p), q) == Filter(s, pq)
  {
    if s != [] {
      var head := if p(s[0]) then [s[0]] else [];
      FilterFilter(s[1..], p, q, pq);
      FilterHead(s, p);
      FilterHead(s, pq);
      FilterConcat(head, Filter(s[1..], p), q);
      assert Filter(head, q) == if pq(s[0]) then [s[0]] else [] by {
        if p(s[0]) {
          FilterCons(s[0], [], q);
          assert [s[0]] + [] == [s[0]];
        }
      }
    }
  }

  /** SQL `LIMIT n`: the first `n` elements, or all of them when there are fewer. */
  function Take<T>(s: seq<T>, n: nat): (r: seq<T>)
    ensures |r| == if |s| <= n then |s| else n
    ensures r <= s
  {
    if |s| <= n then s else s[..n]
  }

  /** The first element satisfying `p`: `rows[0]` of a `SELECT ... WHERE p`. */
  function First<T>(s: seq<T>, p: T -> bool): (r: Option<T>)
    ensures r.Some? <==> exists x :: x in s && p(x)
    ensures r.Some? ==> r.value in s && p(r.value)
  {
    if s == [] then None
    else if p(s[0]) then Some(s[0])
    else First(s[1..], p)
  }

  /** No two elements of `s` share a key: a primary-key constraint. */
  ghost predicate DistinctBy<T, K>(s: seq<T>, key: T -> K) {
    forall i, j :: 0 <= i < j < |s| ==> key(s[i]) != key(s[j])
  }

  /** Deleting rows keeps the keys of the rest distinct. */
  lemma {:induction false} FilterDistinct<T, K>(s: seq<T>, p: T -> bool, key: T -> K)
    requires DistinctBy(s, key)
    ensures DistinctBy(Filter(s, p), key)
  {
    if s != [] {
      FilterDistinct(s[1..], p, key);
      var rest := Filter(s[1..], p);
      if p(s[0]) {
        forall j | 0 <= j < |rest| ensures key(s[0]) != key(rest[j]) {
          assert rest[j] in s[1..];
          var k :| 0 <= k < |s[1..]| && s[1..][k] == rest[j];
          assert s[k + 1] == rest[j];
        }
        assert Filter(s, p) == [s[0]] + rest;
      }
    }
  }

  /** Under distinct keys, a test that pins the key selects at most one element. */
  lemma {:induction false} AtMostOneWithKey<T, K>(s: seq<T>, key: T -> K, k: K, p: T -> bool)
    requires DistinctBy(s, key)
    requires forall x :: p(x) ==> key(x) == k
    ensures |Filter(s, p)| <= 1
  {
    if s != [] {
      AtMostOneWithKey(s[1..], key, k, p);
      if p(s[0]) {
        forall i | 0 <= i < |s[1..]| ensures !p(s[1..][i]) {
          assert key(s[i + 1]) != key(s[0]);
        }
        FilterNone(s[1..], p);
      }
    }
  }

  /** Under distinct keys, when `p` pins the key of `x`, the first element
      satisfying `p` is `x`. */
  lemma FirstWithKey<T, K>(s: seq<T>, p: T -> bool, key: T -> K, x: T)
    requires DistinctBy(s, key) && x in s && p(x)
    requires forall y :: p(y) ==> key(y) == key(x)
    ensures First(s, p) == Some(x)
  {
    var y := First(s, p).value;
    var i :| 0 <= i < |s| && s[i] == y;
    var j :| 0 <= j < |s| && s[j] == x;
    assert key(s[i]) == key(s[j]);
  }

  /** No element occurs twice. */
  ghost predicate NoDuplicates<T>(s: seq<T>) {
    forall i, j :: 0 <= i < j < |s| ==> s[i] != s[j]
  }

  /** The elements of `s`, each once: what `GROUP BY` makes of a column. */
  function Distinct<T(==,!new)>(s: seq<T>): (r: seq<T>)
    ensures forall x :: x in r <==> x in s
    ensures NoDuplicates(r)
  {
    if s == [] then []
    else
      var rest := Distinct(s[1..]);
      if s[0] in rest then rest else [s[0]] + rest
  }

  lemma {:induction false} NoDuplicatesCount<T>(s: seq<T>, x: T)
    requires NoDuplicates(s)
    ensures multiset(s)[x] <= 1
  {
    if s != [] {
      NoDuplicatesCount(s[1..], x);
      assert s == [s[0]] + s[1..];
      if s[0] == x {
        assert x !in s[1..];
      }
    }
  }

  lemma DuplicateCount<T>(s: seq<T>, i: nat, j: nat)
    requires i < j < |s| && s[i] == s[j]
    ensures multiset(s)[s[i]] >= 2
  {
    assert s == s[..j] + [s[j]] + s[j + 1..];
    assert s[i] in s[..j];
  }

  /** A reordering of a sequence without duplicates has none either. */
  lemma PermutationNoDuplicates<T>(a: seq<T>, b: seq<T>)
    requires multiset(a) == multiset(b) && NoDuplicates(b)
    ensures NoDuplicates(a)
  {
    forall i, j | 0 <= i < j < |a| ensures a[i] != a[j] {
      if a[i] == a[j] {
        DuplicateCount(a, i, j);
        NoDuplicatesCount(b, a[i]);
      }
    }
  }

  /** Two sequences with the same multiset have the same members. */
  lemma SameElements<T>(a: seq<T>, b: seq<T>)
    requires multiset(a) == multiset(b)
    ensures forall x :: x in a <==> x in b
  {
    forall x ensures x in a <==> x in b {
      assert x in a <==> x in multiset(a);
      assert x in b <==> x in multiset(b);
    }
  }

  /** One step of `Filter`: the head is kept exactly when it satisfies `p`. */
  lemma FilterCons<T>(x: T, s: seq<T>, p: T -> bool)
    ensures Filter([x] + s, p) == (if p(x) then [x] else []) + Filter(s, p)
  {
    assert ([x] + s)[1..] == s;
  }

  /** `Filter` of a non-empty sequence, unfolded once. */
  lemma {:induction false} FilterHead<T>(s: seq<T>, p: T -> bool)
    requires s != []
    ensures Filter(s, p) == (if p(s[0]) then [s[0]] else []) + Filter(s[1..], p)
  {
  }

  /** Re-associates `head + (part' + ex)` as `(head + part') + ex`, naming the pieces. */
  lemma Regroup<T>(whole: seq<T>, part: seq<T>, head: seq<T>, rest: seq<T>, restPart: seq<T>, ex: seq<T>)
    requires whole == head + rest && rest == restPart + ex && part == head + restPart
    ensures whole == part + ex
  {
  }

  lemma {:induction false} FilterAll<T>(s: seq<T>, p: T -> bool)
    requires forall i :: 0 <= i < |s| ==> p(s[i])
    ensures Filter(s, p) == s
  {
    if s != [] {
      FilterAll(s[1..], p);
    }
  }

  lemma {:induction false} FilterNone<T>(s: seq<T>, p: T -> bool)
    requires forall i :: 0 <= i < |s| ==> !p(s[i])
    ensures Filter(s, p) == []
  {
    if s != [] {
      FilterNone(s[1..], p);
    }
  }

  function Shift(idx: seq<nat>): (r: seq<nat>)
    ensures |r| == |idx|
    ensures forall k :: 0 <= k < |idx| ==> r[k] == idx[k] + 1
  {
    seq(|idx|, k requires 0 <= k < |idx| => idx[k] + 1)
  }

  lemma SubsequenceSkip<T>(a: seq<T>, b: seq<T>, y: T, idx: seq<nat>)
    requires SubsequenceVia(a, b, idx)
    ensures SubsequenceVia(a, [y] + b, Shift(idx))
  {
  }

  lemma SubsequenceKeep<T>(a: seq<T>, b: seq<T>, y: T, idx: seq<nat>)
    requires SubsequenceVia(a, b, idx)
    ensures SubsequenceVia([y] + a, [y] + b, [0] + Shift(idx))
  {
    var r := [0] + Shift(idx);
    forall k | 0 <= k < |r|
      ensures r[k] < |[y] + b| && ([y] + a)[k] == ([y] + b)[r[k]]
    {
      if k > 0 {
        assert r[k] == idx[k - 1] + 1;
      }
    }
  }

  /** The filtered sequence keeps the input's order. */
  lemma {:induction false} FilterIsSubsequence<T>(s: seq<T>, p: T -> bool)
    ensures IsSubsequence(Filter(s, p), s)
  {
    if s == [] {
      assert SubsequenceVia<T>([], s, []);
    } else {
      FilterIsSubsequence(s[1..], p);
      var rest := Filter(s[1..], p);
      var idx :| SubsequenceVia(rest, s[1..], idx);
      assert s == [s[0]] + s[1..];
      if p(s[0]) {
        SubsequenceKeep(rest, s[1..], s[0], idx);
        assert Filter(s, p) == [s[0]] + rest;
      } else {
        SubsequenceSkip(rest, s[1..], s[0], idx);
        assert Filter(s, p) == rest;
      }
    }
  }

  /** Removing position `i` from `b` removes one copy of `b[i]` from its multiset. */
  lemma RemoveAt<T>(b: seq<T>, i: nat)
    requires i < |b|
    ensures multiset(b[..i] + b[i+1..]) + multiset{b[i]} == multiset(b)
  {
    assert b == b[..i] + [b[i]] + b[i+1..];
  }

  /** Some position of `b` holds `x`, and without it `b` is a permutation of `a[1..]`. */
  lemma PickMatch<T>(a: seq<T>, b: seq<T>) returns (i: nat)
    requires a != [] && multiset(a) == multiset(b)
    ensures i < |b| && b[i] == a[0]
    ensures multiset(a[1..]) == multiset(b[..i] + b[i+1..])
  {
    i := IndexOf(b, a[0]);
    RemoveAt(b, i);
    Uncons(a);
    MultisetCancel(multiset(a[1..]), multiset(b[..i] + b[i+1..]), a[0], multiset(a), multiset(b));
  }

  lemma Uncons<T>(a: seq<T>)
    requires a != []
    ensures multiset(a[1..]) + multiset{a[0]} == multiset(a)
  {
    assert a == [a[0]] + a[1..];
  }

  lemma IndexOf<T>(b: seq<T>, x: T) returns (i: nat)
    requires x in multiset(b)
    ensures i < |b| && b[i] == x
  {
    var j :| 0 <= j < |b| && b[j] == x;
    i := j;
  }

  /** Two multisets that grow into equal ones by the same element are equal. */
  lemma MultisetCancel<T>(x: multiset<T>, y: multiset<T>, e: T, mx: multiset<T>, my: multiset<T>)
    requires x + multiset{e} == mx && y + multiset{e} == my && mx == my
    ensures x == y
  {
    assert x == (x + multiset{e}) - multiset{e};
    assert y == (y + multiset{e}) - multiset{e};
  }

  lemma {:induction false} FilterSplit<T>(b: seq<T>, i: nat, p: T -> bool)
    requires i < |b|
    ensures multiset(Filter(b, p)) == multiset(Filter(b[..i] + b[i+1..], p)) + multiset(Filter([b[i]], p))
  {
    var left, mid, right := b[..i], [b[i]], b[i+1..];
    SplitAround(b, i);
    FilterConcat(left + mid, right, p);
    FilterConcat(left, mid, p);
    FilterConcat(left, right, p);
    MultisetOfThree(Filter(left, p), Filter(mid, p), Filter(right, p));
  }

  lemma SplitAround<T>(b: seq<T>, i: nat)
    requires i < |b|
    ensures b == (b[..i] + [b[i]]) + b[i+1..]
  {
    assert b[..i + 1] == b[..i] + [b[i]];
    assert b == b[..i + 1] + b[i+1..];
  }

  lemma MultisetOfThree<T>(x: seq<T>, y: seq<T>, z: seq<T>)
    ensures multiset((x + y) + z) == multiset(x + z) + multiset(y)
  {
  }

  /** Filtering two permutations of each other gives permutations of each other. */
  lemma {:induction false} FilterPermutation<T>(a: seq<T>, b: seq<T>, p: T -> bool)
    requires multiset(a) == multiset(b)
    ensures multiset(Filter(a, p)) == multiset(Filter(b, p))
    decreases |a|
  {
    if a == [] {
      assert |b| == |multiset(b)| == 0;
    } else {
      var i := PickMatch(a, b);
      FilterPermutation(a[1..], b[..i] + b[i+1..], p);
      FilterSplit(b, i, p);
      assert a == [a[0]] + a[1..];
      FilterConcat([a[0]], a[1..], p);
    }
  }

  lemma CountPermutation<T>(a: seq<T>, b: seq<T>, p: T -> bool)
    requires multiset(a) == multiset(b)
    ensures Count(a, p) == Count(b, p)
  {
    FilterPermutation(a, b, p);
    assert |multiset(Filter(a, p))| == |multiset(Filter(b, p))|;
  }

  lemma MapConcat<T, U>(a: seq<T>, b: seq<T>, f: T -> U)
    ensures Map(a + b, f) == Map(a, f) + Map(b, f)
  {
  }

  lemma MapSplit<T, U>(b: seq<T>, i: nat, f: T -> U)
    requires i < |b|
    ensures multiset(Map(b, f)) == multiset(Map(b[..i] + b[i+1..], f)) + multiset{f(b[i])}
  {
    var left, mid, right := b[..i], [b[i]], b[i+1..];
    assert b[..i + 1] == left + mid;
    assert b == b[..i + 1] + right;
    MapConcat(left + mid, right, f);
    MapConcat(left, mid, f);
    MapConcat(left, right, f);
    var ml, mm, mr := Map(left, f), Map(mid, f), Map(right, f);
    assert mm == [f(b[i])];
    assert Map(b, f) == (ml + mm) + mr;
    assert Map(left + right, f) == ml + mr;
    calc {
      multiset(Map(b, f));
      multiset(ml) + multiset(mm) + multiset(mr);
      multiset(ml + mr) + multiset(mm);
    }
  }

  /** Mapping two permutations of each other gives permutations of each other. */
  lemma {:induction false} MapPermutation<T, U>(a: seq<T>, b: seq<T>, f: T -> U)
    requires multiset(a) == multiset(b)
    ensures multiset(Map(a, f)) == multiset(Map(b, f))
    decreases |a|
  {
    if a == [] {
      assert |b| == |multiset(b)| == 0;
    } else {
      var i := PickMatch(a, b);
      MapPermutation(a[1..], b[..i] + b[i+1..], f);
      MapSplit(b, i, f);
      assert a == [a[0]] + a[1..];
      MapConcat([a[0]], a[1..], f);
      assert Map([a[0]], f) == [f(a[0])];
      calc {
        multiset(Map(a, f));
        multiset(Map([a[0]], f) + Map(a[1..], f));
        multiset{f(a[0])} + multiset(Map(a[1..], f));
      }
    }
  }

  /** A predicate implied by another is satisfied at least as often. */
  lemma {:induction false} CountMonotone<T>(s: seq<T>, p: T -> bool, q: T -> bool)
    requires forall x :: p(x) ==> q(x)
    ensures Count(s, p) <= Count(s, q)
  {
    if s != [] {
      CountMonotone(s[1..], p, q);
    }
  }

  /** Two predicates never true together are satisfied at most |s| times in all. */
  lemma {:induction false} CountDisjoint<T>(s: seq<T>, p: T -> bool, q: T -> bool)
    requires forall x :: !(p(x) && q(x))
    ensures Count(s, p) + Count(s, q) <= |s|
  {
    if s != [] {
      CountDisjoint(s[1..], p, q);
    }
  }

  /** A predicate and its negation split `s` exactly. */
  lemma {:induction false} CountComplement<T>(s: seq<T>, p: T -> bool, q: T -> bool)
    requires forall x :: q(x) == !p(x)
    ensures Count(s, p) + Count(s, q) == |s|
  {
    if s != [] {
      CountComplement(s[1..], p, q);
    }
  }
}
