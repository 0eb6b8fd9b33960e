/** Sequence notions shared by every component: concatenation of a list of lists,
    and the two library calls whose result the repository leaves open. */
module Sequences {

  datatype Option<+T> = None | Some(value: T)

  function Min(a: int, b: int): int { if a <= b then a else b }

  function Max(a: int, b: int): int { if a >= b then a else b }

  function Ind(b: bool): nat { if b then 1 else 0 }

  /** The items that carry the label, in order. */
  function Subset<T>(items: seq<T>, labels: seq<nat>, part: nat): seq<T>
    requires |items| == |labels|
  {
    if items == [] then []
    else
      var n := |items| - 1;
      Subset(items[..n], labels[..n], part) + (if labels[n] == part then [items[n]] else [])
  }

  /** The concatenation of a list of lists. */
  function Flatten<T>(parts: seq<seq<T>>): (all: seq<T>)
  {
    if parts == [] then [] else parts[0] + Flatten(parts[1..])
  }

  lemma {:induction false} FlattenAppend<T>(xs: seq<seq<T>>, ys: seq<seq<T>>)
    ensures Flatten(xs + ys) == Flatten(xs) + Flatten(ys)
  {
    if xs == [] {
      assert xs + ys == ys;
    } else {
      FlattenAppend(xs[1..], ys);
      assert (xs + ys)[0] == xs[0] && (xs + ys)[1..] == xs[1..] + ys;
    }
  }

  lemma FlattenSnoc<T>(xs: seq<seq<T>>, y: seq<T>)
    ensures Flatten(xs + [y]) == Flatten(xs) + y
  {
    FlattenAppend(xs, [y]);
    assert Flatten([y]) == y + Flatten<T>([]);
  }

  /** `keys` never increase along `s`. */
  ghost predicate Descending<T>(s: seq<T>, key: T -> real) {
    forall i, j :: 0 <= i < j < |s| ==> key(s[i]) >= key(s[j])
  }

  /** `slices.SortFunc` with a descending comparison: it is not stable, so a caller may
      rely on nothing but a sorted permutation. */
  method SortFunc<T>(items: seq<T>, key: T -> real) returns (sorted: seq<T>)
    ensures multiset(sorted) == multiset(items)
    ensures Descending(sorted, key)
  {
    sorted := [];
    for i := 0 to |items|
      invariant multiset(sorted) == multiset(items[..i])
      invariant Descending(sorted, key)
    {
      assert items[..i + 1] == items[..i] + [items[i]];
      sorted := InsertSorted(sorted, items[i], key);
    }
    assert items[..|items|] == items;
  }

  method InsertSorted<T>(s: seq<T>, item: T, key: T -> real) returns (r: seq<T>)
    requires Descending(s, key)
    ensures multiset(r) == multiset(s) + multiset{item}
    ensures Descending(r, key)
  {
    var p := 0;
    while p < |s| && key(s[p]) >= key(item)
      invariant 0 <= p <= |s|
      invariant forall q :: 0 <= q < p ==> key(s[q]) >= key(item)
    {
      p := p + 1;
    }
    assert s == s[..p] + s[p..];
    r := s[..p] + [item] + s[p..];
    InsertKeepsOrder(s, p, item, key);
  }

  lemma InsertKeepsOrder<T>(s: seq<T>, p: nat, item: T, key: T -> real)
    requires Descending(s, key) && p <= |s|
    requires forall q :: 0 <= q < p ==> key(s[q]) >= key(item)
    requires p < |s| ==> key(item) >= key(s[p])
    ensures Descending(s[..p] + [item] + s[p..], key)
  {
    var r := s[..p] + [item] + s[p..];
    forall i, j | 0 <= i < j < |r|
      ensures key(r[i]) >= key(r[j])
    {
      assert i < p ==> r[i] == s[i];
      assert j < p ==> r[j] == s[j];
      assert i > p ==> r[i] == s[i - 1];
      assert j > p ==> r[j] == s[j - 1];
    }
  }

  /** Consecutive pieces of a list: `FindInBatches` hands out the rows of a query like this, and the
      clustering chunks its data. Nothing is promised about where one ends, but none is empty. */
  method InBatches<T>(rows: seq<T>, size: nat) returns (batches: seq<seq<T>>)
    requires size > 0
    ensures Flatten(batches) == rows && forall i :: 0 <= i < |batches| ==> batches[i] != []
  {
    batches := [];
    var at := 0;
    while at < |rows|
      invariant 0 <= at <= |rows| && forall i :: 0 <= i < |batches| ==> batches[i] != []
      invariant Flatten(batches) == rows[..at]
    {
      var end := Min(at + size, |rows|);
      FlattenSnoc(batches, rows[at..end]);
      assert rows[..end] == rows[..at] + rows[at..end];
      batches := batches + [rows[at..end]];
      at := end;
    }
    assert rows[..at] == rows;
  }

  // ----- counting

  /** How many entries satisfy `p`. */
  function CountIf<T>(s: seq<T>, p: T -> bool): nat {
    if s == [] then 0
    else CountIf(s[..|s| - 1], p) + (if p(s[|s| - 1]) then 1 else 0)
  }

  lemma {:induction false} CountUpdate<T>(s: seq<T>, i: nat, x: T, p: T -> bool)
    requires i < |s|
    ensures CountIf(s[i := x], p)
            == CountIf(s, p) - (if p(s[i]) then 1 else 0) + (if p(x) then 1 else 0)
  {
    var n := |s| - 1;
    if i == n {
      assert s[i := x][..n] == s[..n];
    } else {
      CountUpdate(s[..n], i, x, p);
      assert s[i := x][..n] == s[..n][i := x];
    }
  }

  lemma {:induction false} CountMember<T>(s: seq<T>, i: nat, p: T -> bool)
    requires i < |s| && p(s[i])
    ensures CountIf(s, p) >= 1
  {
    var n := |s| - 1;
    if i == n {
    } else {
      CountMember(s[..n], i, p);
    }
  }

  lemma CountAppend<T>(s: seq<T>, x: T, p: T -> bool)
    ensures CountIf(s + [x], p) == CountIf(s, p) + Ind(p(x))
  {
    assert (s + [x])[..|s|] == s;
  }

  lemma {:induction false} CountTwo<T>(s: seq<T>, i: nat, j: nat, p: T -> bool)
    requires i < j < |s| && p(s[i]) && p(s[j])
    ensures CountIf(s, p) >= 2
  {
    var n := |s| - 1;
    if j == n {
      CountMember(s[..n], i, p);
    } else {
      CountTwo(s[..n], i, j, p);
    }
  }

  lemma {:induction false} SomeCounted<T>(s: seq<T>, p: T -> bool) returns (i: nat)
    requires CountIf(s, p) > 0
    ensures i < |s| && p(s[i])
  {
    i := |s| - 1;
    if p(s[i]) {
    } else {
      i := SomeCounted(s[..i], p);
    }
  }

  lemma {:induction false} CountNone<T>(s: seq<T>, p: T -> bool)
    requires forall i :: 0 <= i < |s| ==> !p(s[i])
    ensures CountIf(s, p) == 0
  {
    if s == [] {
    } else {
      CountNone(s[..|s| - 1], p);
    }
  }

  lemma {:induction false} CountLe<T>(s: seq<T>, p: T -> bool, q: T -> bool)
    requires forall i :: 0 <= i < |s| && p(s[i]) ==> q(s[i])
    ensures CountIf(s, p) <= CountIf(s, q)
  {
    if s == [] {
    } else {
      CountLe(s[..|s| - 1], p, q);
    }
  }

  // ----- permutations

  ghost predicate Distinct<T>(s: seq<T>) {
    forall i, j :: 0 <= i < j < |s| ==> s[i] != s[j]
  }

  lemma {:induction false} DistinctMeansOnce<T>(s: seq<T>)
    requires Distinct(s)
    ensures forall x :: multiset(s)[x] <= 1
  {
    if s == [] {
    } else {
      var n := |s| - 1;
      DistinctMeansOnce(s[..n]);
      assert s == s[..n] + [s[n]];
      assert s[n] !in s[..n];
    }
  }

  lemma TwiceMeansTwo<T>(s: seq<T>, i: nat, j: nat)
    requires i < j < |s| && s[i] == s[j]
    ensures multiset(s)[s[i]] >= 2
  {
    assert s == s[..i] + [s[i]] + s[i + 1..j] + [s[j]] + s[j + 1..];
  }

  /** A permutation has the same members, and distinct ones if the original had. */
  lemma PermutationMembers<T>(before: seq<T>, after: seq<T>)
    requires multiset(before) == multiset(after)
    ensures |after| == |before| && forall x :: x in after <==> x in before
    ensures Distinct(before) ==> Distinct(after)
  {
    assert |multiset(before)| == |before| && |multiset(after)| == |after|;
    forall x ensures x in after <==> x in before {
      assert x in after <==> x in multiset(after);
      assert x in before <==> x in multiset(before);
    }
    if Distinct(before) {
      DistinctMeansOnce(before);
      forall i, j | 0 <= i < j < |after| ensures after[i] != after[j] {
        if after[i] == after[j] {
          TwiceMeansTwo(after, i, j);
        }
      }
    }
  }

  lemma RemoveAt<T>(s: seq<T>, i: nat)
    requires i < |s|
    ensures multiset(s) == multiset(s[..i] + s[i + 1..]) + multiset{s[i]}
    ensures multiset(s[..i] + s[i + 1..]) == multiset(s) - multiset{s[i]}
  {
    assert s == s[..i] + [s[i]] + s[i + 1..];
  }

  lemma PrefixIsPart<T>(s: seq<T>, k: nat)
    requires k <= |s|
    ensures multiset(s[..k]) <= multiset(s)
  {
    assert s == s[..k] + s[k..];
  }

  /** What remains of a list when a part of it is taken away. */
  lemma {:induction false} RestOf<T>(all: seq<T>, part: seq<T>) returns (rest: seq<T>)
    requires multiset(part) <= multiset(all)
    ensures multiset(all) == multiset(part) + multiset(rest)
  {
    if part == [] {
      rest := all;
    } else {
      var n := |part| - 1;
      assert part == part[..n] + [part[n]];
      assert multiset(part) == multiset(part[..n]) + multiset{part[n]};
      var more := RestOf(all, part[..n]);
      TakeOne(multiset(all), multiset(part[..n]), multiset(more), part[n]);
      var i :| 0 <= i < |more| && more[i] == part[n];
      RemoveAt(more, i);
      rest := more[..i] + more[i + 1..];
    }
  }

  lemma TakeOne<T>(all: multiset<T>, part: multiset<T>, more: multiset<T>, x: T)
    requires all == part + more && part + multiset{x} <= all
    ensures x in more && all == (part + multiset{x}) + (more - multiset{x})
  {
    assert (part + multiset{x})[x] <= all[x];
  }

  lemma DistinctIsPart<T>(part: seq<T>, all: seq<T>)
    requires Distinct(part) && forall x :: x in part ==> x in all
    ensures multiset(part) <= multiset(all)
  {
    DistinctMeansOnce(part);
    forall x ensures multiset(part)[x] <= multiset(all)[x] {
      assert x in multiset(part) ==> x in part;
      assert x in all ==> x in multiset(all);
    }
  }

  function Map<A, B>(s: seq<A>, f: A -> B): (r: seq<B>)
    ensures |r| == |s|
  {
    seq(|s|, i requires 0 <= i < |s| => f(s[i]))
  }

  lemma MapWithout<A, B>(s: seq<A>, f: A -> B, i: nat)
    requires i < |s|
    ensures multiset(Map(s, f)) == multiset(Map(s[..i] + s[i + 1..], f)) + multiset{f(s[i])}
  {
    RemoveAt(Map(s, f), i);
    assert Map(s[..i] + s[i + 1..], f) == Map(s, f)[..i] + Map(s, f)[i + 1..];
  }

  /** The last element of a list has its place in every permutation of it. */
  lemma PlaceOfLast<T>(a: seq<T>, b: seq<T>) returns (i: nat)
    requires multiset(a) == multiset(b) && a != []
    ensures i < |b| && b[i] == a[|a| - 1]
    ensures multiset(a[..|a| - 1]) == multiset(b[..i] + b[i + 1..])
  {
    var n := |a| - 1;
    assert a[n] in multiset(a);
    i :| 0 <= i < |b| && b[i] == a[n];
    RemoveAt(a, n);
    RemoveAt(b, i);
    assert a[..n] + a[n + 1..] == a[..n];
  }

  /** The images of a permutation are a permutation of the images. */
  lemma {:induction false} MapPermutation<A, B>(a: seq<A>, b: seq<A>, f: A -> B)
    requires multiset(a) == multiset(b)
    ensures multiset(Map(a, f)) == multiset(Map(b, f))
    decreases |a|
  {
    if a == [] {
      assert |multiset(b)| == 0;
    } else {
      var n := |a| - 1;
      var i := PlaceOfLast(a, b);
      MapPermutation(a[..n], b[..i] + b[i + 1..], f);
      MapWithout(a, f, n);
      MapWithout(b, f, i);
      assert a[..n] + a[n + 1..] == a[..n];
    }
  }

  // ----- sums

  function RealSum(xs: seq<real>): real {
    if xs == [] then 0.0 else RealSum(xs[..|xs| - 1]) + xs[|xs| - 1]
  }

  /** One number is its own sum, and the sums of two lists add up: no other function does both. */
  lemma {:induction false} RealSumIsSum(xs: seq<real>, ys: seq<real>, x: real)
    ensures RealSum([x]) == x && RealSum([]) == 0.0
    ensures RealSum(xs + ys) == RealSum(xs) + RealSum(ys)
    decreases |ys|
  {
    assert [x][..0] == [];
    if ys == [] {
      assert xs + ys == xs;
    } else {
      var n := |ys| - 1;
      RealSumIsSum(xs, ys[..n], x);
      assert (xs + ys)[..|xs| + n] == xs + ys[..n];
    }
  }

  lemma {:induction false} RealSumIgnoresOrder(a: seq<real>, b: seq<real>)
    requires multiset(a) == multiset(b)
    ensures RealSum(a) == RealSum(b)
    decreases |a|
  {
    if a == [] {
      assert |multiset(b)| == 0;
    } else {
      var i := PlaceOfLast(a, b);
      var before, after := b[..i], b[i + 1..];
      RealSumIgnoresOrder(a[..|a| - 1], before + after);
      RealSumIsSum(before, after, b[i]);
      RealSumIsSum(before + [b[i]], after, b[i]);
      RealSumIsSum(before, [b[i]], b[i]);
      assert b == before + [b[i]] + after;
    }
  }

  /** The sum lies between as many times the least and the greatest number. */
  lemma {:induction false} RealSumBounds(xs: seq<real>, low: real, high: real, n: real)
    requires n == |xs| as real
    requires forall i :: 0 <= i < |xs| ==> low <= xs[i] <= high
    ensures low * n <= RealSum(xs) <= high * n
  {
    if xs == [] {
    } else {
      RealSumBounds(xs[..|xs| - 1], low, high, n - 1.0);
      assert low * n == low * (n - 1.0) + low && high * n == high * (n - 1.0) + high;
    }
  }

  // ----- permuted lists

  /** `order` names every position below `n` once. */
  ghost predicate IsOrder(order: seq<nat>, n: nat) {
    |order| == n && Distinct(order) && forall i :: 0 <= i < n ==> order[i] < n
  }

  function Permuted<T>(s: seq<T>, order: seq<nat>): (r: seq<T>)
    requires forall i :: 0 <= i < |order| ==> order[i] < |s|
    ensures |r| == |order|
  {
    seq(|order|, i requires 0 <= i < |order| => s[order[i]])
  }

  /** A list of all different positions is a permutation of 0..n-1. */
  lemma OrderIsPermutation(order: seq<nat>, n: nat)
    requires IsOrder(order, n)
    ensures multiset(order) == multiset(Iota(n))
  {
    forall x | x in order ensures x in Iota(n) {
      assert Iota(n)[x] == x;
    }
    DistinctIsPart(order, Iota(n));
    var rest := RestOf(Iota(n), order);
    assert |multiset(Iota(n))| == |multiset(order)| + |multiset(rest)|;
    assert |multiset(order)| == n && |multiset(Iota(n))| == n && |multiset(rest)| == |rest|;
  }

  function Iota(n: nat): seq<nat> { seq(n, i requires 0 <= i => i) }

  lemma PermutedIsPermutation<T>(s: seq<T>, order: seq<nat>)
    requires IsOrder(order, |s|)
    ensures multiset(Permuted(s, order)) == multiset(s)
  {
    if s == [] {
      assert Permuted(s, order) == [];
    } else {
      var at := (i: nat) => if i < |s| then s[i] else s[0];
      OrderIsPermutation(order, |s|);
      MapPermutation(order, Iota(|s|), at);
      assert Map(order, at) == Permuted(s, order) && Map(Iota(|s|), at) == s;
    }
  }

  // ----- the items of a label

  function Equals(part: nat): nat -> bool { l => l == part }

  /** As many different positions of the label as there are, one after the other. */
  ghost predicate ArePositions(at: seq<nat>, labels: seq<nat>, part: nat) {
    && (forall k, l :: 0 <= k < l < |at| ==> at[k] < at[l])
    && (forall k :: 0 <= k < |at| ==> at[k] < |labels| && labels[at[k]] == part)
    && |at| == CountIf(labels, Equals(part))
  }

  lemma OnePositionMore(at: seq<nat>, labels: seq<nat>, part: nat)
    requires labels != [] && ArePositions(at, labels[..|labels| - 1], part)
    ensures ArePositions(if labels[|labels| - 1] == part then at + [|labels| - 1] else at, labels, part)
  {
    var before := labels[..|labels| - 1];
    forall k | 0 <= k < |at| ensures at[k] < |labels| && labels[at[k]] == part {
      assert before[at[k]] == labels[at[k]];
    }
  }

  function Positions(labels: seq<nat>, part: nat): (at: seq<nat>)
    ensures forall k :: 0 <= k < |at| ==> at[k] < |labels|
  {
    if labels == [] then []
    else
      var n := |labels| - 1;
      Positions(labels[..n], part) + (if labels[n] == part then [n] else [])
  }

  lemma {:induction false} PositionsAre(labels: seq<nat>, part: nat)
    ensures ArePositions(Positions(labels, part), labels, part)
  {
    if labels == [] {
    } else {
      var n := |labels| - 1;
      PositionsAre(labels[..n], part);
      OnePositionMore(Positions(labels[..n], part), labels, part);
    }
  }

  /** The subset lists the items at the positions of the label, in order. */
  lemma {:induction false} SubsetInOrder<T>(items: seq<T>, labels: seq<nat>, part: nat)
    requires |items| == |labels|
    ensures Subset(items, labels, part) == Permuted(items, Positions(labels, part))
  {
    if items == [] {
    } else {
      var n := |items| - 1;
      SubsetInOrder(items[..n], labels[..n], part);
      assert Permuted(items[..n], Positions(labels[..n], part)) == Permuted(items, Positions(labels[..n], part));
    }
  }

  lemma {:induction false} SubsetOfMap<A, B>(items: seq<A>, labels: seq<nat>, part: nat, f: A -> B)
    requires |items| == |labels|
    ensures Subset(Map(items, f), labels, part) == Map(Subset(items, labels, part), f)
  {
    if items == [] {
    } else {
      var n := |items| - 1;
      SubsetOfMap(items[..n], labels[..n], part, f);
      assert Map(items, f)[..n] == Map(items[..n], f);
    }
  }
}
