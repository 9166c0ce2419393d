/** How often a value occurs in a sequence, with the few laws the protocol proofs need. */
module Counting {

  function Count<T(==)>(xs: seq<T>, x: T): nat {
    if xs == [] then 0
    else Count(xs[..|xs| - 1], x) + if xs[|xs| - 1] == x then 1 else 0
  }

  lemma CountEmpty<T>(x: T)
    ensures Count([], x) == 0
  {
  }

  lemma CountSnoc<T>(xs: seq<T>, y: T, x: T)
    ensures Count(xs + [y], x) == Count(xs, x) + if x == y then 1 else 0
  {
    assert (xs + [y])[..|xs|] == xs;
  }

  lemma {:induction false} CountUpdate<T>(xs: seq<T>, i: nat, y: T, x: T)
    requires i < |xs|
    ensures Count(xs[i := y], x) + (if x == xs[i] then 1 else 0)
         == Count(xs, x) + if x == y then 1 else 0
  {
    var n := |xs| - 1;
    if i < n {
      CountUpdate(xs[..n], i, y, x);
      assert xs[i := y][..n] == xs[..n][i := y];
    } else {
      assert xs[i := y][..n] == xs[..n];
    }
  }

  lemma {:induction false} CountTail<T>(xs: seq<T>, x: T)
    requires xs != []
    ensures Count(xs, x) == Count(xs[1..], x) + if x == xs[0] then 1 else 0
  {
    var n := |xs| - 1;
    if n > 0 {
      CountTail(xs[..n], x);
      assert xs[1..][..n - 1] == xs[..n][1..];
    } else {
      assert xs[..0] == [];
    }
  }

  lemma {:induction false} CountConcat<T>(xs: seq<T>, ys: seq<T>, x: T)
    ensures Count(xs + ys, x) == Count(xs, x) + Count(ys, x)
  {
    if ys == [] {
      assert xs + ys == xs;
    } else {
      var n := |ys| - 1;
      CountConcat(xs, ys[..n], x);
      assert (xs + ys)[..|xs + ys| - 1] == xs + ys[..n];
    }
  }

  lemma {:induction false} CountMember<T>(xs: seq<T>, x: T)
    ensures Count(xs, x) > 0 <==> x in xs
  {
    if xs != [] {
      CountMember(xs[..|xs| - 1], x);
      assert xs == xs[..|xs| - 1] + [xs[|xs| - 1]];
    }
  }

  lemma {:induction false} CountAtMostOnce<T>(xs: seq<T>, i: nat, j: nat)
    requires i < j < |xs| && xs[i] == xs[j]
    ensures Count(xs, xs[i]) >= 2
  {
    var n := |xs| - 1;
    if j < n {
      CountAtMostOnce(xs[..n], i, j);
    } else {
      CountMember(xs[..n], xs[i]);
      assert xs[..n][i] in xs[..n];
    }
  }

  lemma {:induction false} CountDistinct<T>(xs: seq<T>, x: T)
    requires forall i, j | 0 <= i < j < |xs| :: xs[i] != xs[j]
    ensures Count(xs, x) <= 1
  {
    if xs != [] {
      var n := |xs| - 1;
      CountDistinct(xs[..n], x);
      CountMember(xs[..n], x);
    }
  }

  // xs with every occurrence of `from` turned into `to`.
  function Replace<T(==)>(xs: seq<T>, from: T, to: T): (r: seq<T>)
    ensures |r| == |xs|
    ensures forall i | 0 <= i < |xs| :: r[i] == if xs[i] == from then to else xs[i]
  {
    seq(|xs|, i requires 0 <= i < |xs| => if xs[i] == from then to else xs[i])
  }

  lemma {:induction false} CountReplace<T>(xs: seq<T>, from: T, to: T, x: T)
    requires from != to
    ensures Count(Replace(xs, from, to), x)
         == if x == from then 0 else if x == to then Count(xs, from) + Count(xs, to) else Count(xs, x)
  {
    if xs == [] {
      assert Replace(xs, from, to) == [];
    } else {
      var n := |xs| - 1;
      CountReplace(xs[..n], from, to, x);
      assert Replace(xs, from, to)[..n] == Replace(xs[..n], from, to);
    }
  }
}
