/** `Array.prototype.map` and `filter` on sequences, with the facts the
    builders use about them. The mapped function is partial (`-->`) because the
    generator reads `fills[0]` without a check. */
module Seqs {

  /** `xs.map(f)` */
  function Map<A, B>(f: A --> B, xs: seq<A>): (r: seq<B>)
    requires forall i :: 0 <= i < |xs| ==> f.requires(xs[i])
    ensures |r| == |xs|
  {
    if xs == [] then [] else Map(f, xs[..|xs| - 1]) + [f(xs[|xs| - 1])]
  }

  /** Element `i` of the mapped sequence is `f` of element `i`. */
  lemma {:induction false} MapAt<A, B>(f: A --> B, xs: seq<A>, i: nat)
    requires forall j :: 0 <= j < |xs| ==> f.requires(xs[j])
    requires i < |xs|
    ensures Map(f, xs)[i] == f(xs[i])
  {
    var init := xs[..|xs| - 1];
    if i < |init| {
      MapAt(f, init, i);
    }
  }

  /** Mapping one more element appends its image: what a loop pushing `f(x)` builds. */
  lemma MapSnoc<A, B>(f: A --> B, xs: seq<A>, i: nat)
    requires forall j :: 0 <= j < |xs| ==> f.requires(xs[j])
    requires i < |xs|
    ensures Map(f, xs[..i + 1]) == Map(f, xs[..i]) + [f(xs[i])]
  {
    assert xs[..i + 1][..i] == xs[..i];
  }

  /** A loop that has mapped `xs[..i]` into `acc` and pushes `f(xs[i])` has mapped `xs[..i + 1]`. */
  lemma MapPush<A, B>(f: A --> B, xs: seq<A>, i: nat, acc: seq<B>, y: B)
    requires forall j :: 0 <= j < |xs| ==> f.requires(xs[j])
    requires i < |xs| && acc == Map(f, xs[..i]) && y == f(xs[i])
    ensures acc + [y] == Map(f, xs[..i + 1])
  {
    MapSnoc(f, xs, i);
  }

  /** Mapping a sequence with one more element at the end appends that element's image. */
  lemma MapAppend<A, B>(f: A --> B, xs: seq<A>, x: A)
    requires forall j :: 0 <= j < |xs| ==> f.requires(xs[j])
    requires f.requires(x)
    ensures Map(f, xs + [x]) == Map(f, xs) + [f(x)]
  {
    assert (xs + [x])[..|xs|] == xs;
  }

  /** `xs.filter(p)` */
  function Filter<A>(p: A -> bool, xs: seq<A>): (r: seq<A>)
    ensures |r| <= |xs|
  {
    if xs == [] then [] else Filter(p, xs[..|xs| - 1]) + (if p(xs[|xs| - 1]) then [xs[|xs| - 1]] else [])
  }

  /** The filter keeps exactly the elements satisfying `p`, each as often as in the input. */
  lemma {:induction false} FilterSelects<A>(p: A -> bool, xs: seq<A>)
    ensures forall x :: multiset(Filter(p, xs))[x] == (if p(x) then multiset(xs)[x] else 0)
  {
    if xs != [] {
      var init := xs[..|xs| - 1];
      FilterSelects(p, init);
      assert xs == init + [xs[|xs| - 1]];
    }
  }

  lemma FilterKeeps<A>(p: A -> bool, xs: seq<A>)
    ensures forall x :: x in Filter(p, xs) <==> x in xs && p(x)
  {
    FilterSelects(p, xs);
    forall x ensures x in Filter(p, xs) <==> x in xs && p(x) {
      assert x in Filter(p, xs) <==> x in multiset(Filter(p, xs));
      assert x in xs <==> x in multiset(xs);
    }
  }

  /** Filtering one more element appends it exactly when it passes. */
  lemma FilterSnoc<A>(p: A -> bool, xs: seq<A>, i: nat)
    requires i < |xs|
    ensures Filter(p, xs[..i + 1]) == Filter(p, xs[..i]) + (if p(xs[i]) then [xs[i]] else [])
  {
    assert xs[..i + 1][..i] == xs[..i];
  }

  /** Filtering a sequence with one more element in front puts it in front
      exactly when it passes. */
  lemma {:induction false} FilterCons<A>(p: A -> bool, x: A, xs: seq<A>)
    ensures Filter(p, [x] + xs) == (if p(x) then [x] else []) + Filter(p, xs)
  {
    if xs != [] {
      var init := xs[..|xs| - 1];
      FilterCons(p, x, init);
      assert ([x] + xs)[..|xs|] == [x] + init;
    }
  }

  /** Filtering the images by `p` is mapping the elements whose image passes `p`. */
  lemma {:induction false} FilterMap<A, B>(p: B -> bool, q: A -> bool, f: A -> B, xs: seq<A>)
    requires forall x :: q(x) == p(f(x))
    ensures Filter(p, Map(f, xs)) == Map(f, Filter(q, xs))
  {
    if xs != [] {
      var init := xs[..|xs| - 1];
      var last := xs[|xs| - 1];
      FilterMap(p, q, f, init);
      var ys := Map(f, xs);
      assert ys == Map(f, init) + [f(last)];
      assert ys[..|ys| - 1] == Map(f, init) && ys[|ys| - 1] == f(last);
      assert q(last) == p(f(last));
      if q(last) {
        assert Filter(q, xs) == Filter(q, init) + [last];
        assert Filter(p, ys) == Filter(p, Map(f, init)) + [f(last)];
        MapAppend(f, Filter(q, init), last);
      } else {
        assert Filter(q, xs) == Filter(q, init) + [] == Filter(q, init);
        assert Filter(p, ys) == Filter(p, Map(f, init)) + [] == Filter(p, Map(f, init));
      }
    }
  }
}
