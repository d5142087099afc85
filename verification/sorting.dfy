/** The stable sort behind `Array.prototype.toSorted` with a comparator on a
    string key. `le(a, b)` stands for "the comparator returns a value <= 0 for
    a and b"; the comparators themselves (`comparePaths`, `localeCompare`) are
    parameters. */
module Sorting {
  import opened Seqs

  ghost predicate TotalPreorder(le: (string, string) -> bool) {
    && (forall a, b :: le(a, b) || le(b, a))
    && (forall a, b, c :: le(a, b) && le(b, c) ==> le(a, c))
  }

  ghost predicate SortedBy<T>(xs: seq<T>, key: T -> string, le: (string, string) -> bool) {
    forall i, j :: 0 <= i < j < |xs| ==> le(key(xs[i]), key(xs[j]))
  }

  /** Places `x` before the first element it does not come after, so that it
      stays ahead of later elements with an equal key. */
  function Insert<T>(x: T, sorted: seq<T>, key: T -> string, le: (string, string) -> bool): (r: seq<T>)
    ensures multiset(r) == multiset(sorted) + multiset{x}
  {
    if sorted == [] || le(key(x), key(sorted[0])) then [x] + sorted
    else
      assert sorted == [sorted[0]] + sorted[1..];
      [sorted[0]] + Insert(x, sorted[1..], key, le)
  }

  /** `xs.toSorted(...)`: a permutation of `xs` (sortedness is `SortBySorted`). */
  function SortBy<T>(xs: seq<T>, key: T -> string, le: (string, string) -> bool): (r: seq<T>)
    ensures multiset(r) == multiset(xs)
    ensures |r| == |xs|
  {
    if xs == [] then []
    else
      assert xs == [xs[0]] + xs[1..];
      Insert(xs[0], SortBy(xs[1..], key, le), key, le)
  }

  lemma {:induction false} InsertSorted<T>(x: T, sorted: seq<T>, key: T -> string, le: (string, string) -> bool)
    requires TotalPreorder(le)
    requires SortedBy(sorted, key, le)
    ensures SortedBy(Insert(x, sorted, key, le), key, le)
  {
    if sorted == [] || le(key(x), key(sorted[0])) {
      var r := [x] + sorted;
      forall i, j | 0 <= i < j < |r| ensures le(key(r[i]), key(r[j])) {
        if i == 0 && j > 1 {
          assert le(key(sorted[0]), key(sorted[j - 1]));
        }
      }
    } else {
      var tail := sorted[1..];
      InsertSorted(x, tail, key, le);
      var ins := Insert(x, tail, key, le);
      var r := [sorted[0]] + ins;
      assert le(key(sorted[0]), key(x));
      assert multiset(ins) == multiset(tail) + multiset{x};
      forall k | 0 <= k < |ins| ensures le(key(sorted[0]), key(ins[k])) {
        assert ins[k] in multiset(ins);
        if ins[k] != x {
          assert ins[k] in multiset(tail);
          var m :| 0 <= m < |tail| && tail[m] == ins[k];
          assert tail[m] == sorted[m + 1];
        }
      }
      forall i, j | 0 <= i < j < |r| ensures le(key(r[i]), key(r[j])) {
        if i > 0 {
          assert r[i] == ins[i - 1] && r[j] == ins[j - 1];
        } else {
          assert r[j] == ins[j - 1];
        }
      }
    }
  }

  /** With a comparator that is a total preorder, the result is in ascending order. */
  lemma {:induction false} SortBySorted<T>(xs: seq<T>, key: T -> string, le: (string, string) -> bool)
    requires TotalPreorder(le)
    ensures SortedBy(SortBy(xs, key, le), key, le)
  {
    if xs != [] {
      SortBySorted(xs[1..], key, le);
      InsertSorted(xs[0], SortBy(xs[1..], key, le), key, le);
    }
  }

  /** The elements whose key ties with `k`: neither comes strictly before the other. */
  function TiesWith<T>(key: T -> string, le: (string, string) -> bool, k: string): T -> bool
  {
    (x: T) => le(key(x), k) && le(k, key(x))
  }

  /** Inserting `x` puts it ahead of every element that ties with it, and
      leaves the other tie classes as they were. Of the comparator it needs
      only transitivity through `k`. */
  lemma {:induction false} InsertTies<T>(x: T, sorted: seq<T>, key: T -> string, le: (string, string) -> bool, k: string)
    requires le(key(x), k) ==> forall b :: le(k, b) ==> le(key(x), b)
    ensures var p := TiesWith(key, le, k);
      Filter(p, Insert(x, sorted, key, le)) == (if p(x) then [x] else []) + Filter(p, sorted)
  {
    var p := TiesWith(key, le, k);
    if sorted == [] || le(key(x), key(sorted[0])) {
      assert Insert(x, sorted, key, le) == [x] + sorted;
      FilterCons(p, x, sorted);
    } else {
      var first, tail := sorted[0], sorted[1..];
      assert Insert(x, sorted, key, le) == [first] + Insert(x, tail, key, le);
      assert sorted == [first] + tail;
      InsertTies(x, tail, key, le, k);
      FilterSwap(p, x, first, tail, Insert(x, tail, key, le));
    }
  }

  /** When `x` and `y` do not both pass, putting `y` in front of a sequence
      whose filter is that of `tail` with `x` in front gives the filter of
      `tail` with both in front, in either order. */
  lemma FilterSwap<T>(p: T -> bool, x: T, y: T, tail: seq<T>, rest: seq<T>)
    requires !(p(x) && p(y))
    requires Filter(p, rest) == (if p(x) then [x] else []) + Filter(p, tail)
    ensures Filter(p, [y] + rest) == (if p(x) then [x] else []) + Filter(p, [y] + tail)
  {
    FilterCons(p, y, rest);
    FilterCons(p, y, tail);
    SwapFront(if p(x) then [x] else [], if p(y) then [y] else [], Filter(p, tail));
  }

  lemma SwapFront<T>(a: seq<T>, b: seq<T>, c: seq<T>)
    requires a == [] || b == []
    ensures b + (a + c) == a + (b + c)
  {
    if a == [] {
      assert a + c == c && a + (b + c) == b + c;
    } else {
      assert b + (a + c) == a + c && b + c == c;
    }
  }

  /** `toSorted` is stable: the elements of each tie class come out in their
      input order, duplicates included. */
  lemma {:induction false} SortByStable<T>(xs: seq<T>, key: T -> string, le: (string, string) -> bool, k: string)
    requires TotalPreorder(le)
    ensures Filter(TiesWith(key, le, k), SortBy(xs, key, le)) == Filter(TiesWith(key, le, k), xs)
  {
    if xs != [] {
      var p := TiesWith(key, le, k);
      SortByStable(xs[1..], key, le, k);
      InsertTies(xs[0], SortBy(xs[1..], key, le), key, le, k);
      FilterCons(p, xs[0], xs[1..]);
      assert [xs[0]] + xs[1..] == xs;
    }
  }
}
