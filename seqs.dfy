/** Generic facts about sequences used as Python lists. */
module Seqs {
  /** No element occurs twice. */
  predicate Distinct<T(==)>(xs: seq<T>)
  {
    forall i, j :: 0 <= i < j < |xs| ==> xs[i] != xs[j]
  }

  /** `[y for y in xs if y != x]`: every occurrence of `x` removed, the rest kept in order. */
  function Without<T(==)>(xs: seq<T>, x: T): (r: seq<T>)
    ensures |r| <= |xs|
    ensures forall y <- r :: y in xs && y != x
    ensures forall y <- xs :: y != x ==> y in r
  {
    if xs == [] then []
    else if xs[0] == x then Without(xs[1..], x)
    else [xs[0]] + Without(xs[1..], x)
  }

  lemma {:induction false} WithoutAbsent<T>(xs: seq<T>, x: T)
    requires x !in xs
    ensures Without(xs, x) == xs
  {
    if xs != [] {
      assert xs[0] != x;
      assert x !in xs[1..];
      WithoutAbsent(xs[1..], x);
      assert xs == [xs[0]] + xs[1..];
    }
  }

  lemma {:induction false} WithoutConcat<T>(xs: seq<T>, ys: seq<T>, x: T)
    ensures Without(xs + ys, x) == Without(xs, x) + Without(ys, x)
  {
    if xs == [] {
      assert xs + ys == ys;
    } else {
      assert (xs + ys)[0] == xs[0];
      assert (xs + ys)[1..] == xs[1..] + ys;
      WithoutConcat(xs[1..], ys, x);
    }
  }

  /** Appending `x` and then removing every occurrence of it gives back a list that never held `x`. */
  lemma AppendThenWithout<T>(xs: seq<T>, x: T)
    requires x !in xs
    ensures Without(xs + [x], x) == xs
  {
    WithoutConcat(xs, [x], x);
    WithoutAbsent(xs, x);
    assert Without([x], x) == [];
  }

  /** `list(set(xs))`: a duplicate-free list with exactly the elements of `xs`. */
  function Dedup<T(==)>(xs: seq<T>): (r: seq<T>)
    ensures Distinct(r)
    ensures forall y <- r :: y in xs
    ensures forall y <- xs :: y in r
    ensures |r| <= |xs|
  {
    if xs == [] then []
    else
      var rest := Dedup(xs[1..]);
      if xs[0] in rest then rest else [xs[0]] + rest
  }

  /** Removing every occurrence keeps a list duplicate-free. */
  lemma {:induction false} WithoutDistinct<T>(xs: seq<T>, x: T)
    requires Distinct(xs)
    ensures Distinct(Without(xs, x))
  {
    if xs != [] {
      assert Distinct(xs[1..]) by {
        forall i, j | 0 <= i < j < |xs[1..]| ensures xs[1..][i] != xs[1..][j] {
          assert xs[1..][i] == xs[i + 1] && xs[1..][j] == xs[j + 1];
        }
      }
      WithoutDistinct(xs[1..], x);
      if xs[0] != x {
        assert xs[0] !in xs[1..];
        var rest := Without(xs[1..], x);
        assert xs[0] !in rest;
        forall i, j | 0 <= i < j < |[xs[0]] + rest| ensures ([xs[0]] + rest)[i] != ([xs[0]] + rest)[j] {
          if i == 0 {
            assert ([xs[0]] + rest)[j] == rest[j - 1];
          } else {
            assert ([xs[0]] + rest)[i] == rest[i - 1] && ([xs[0]] + rest)[j] == rest[j - 1];
          }
        }
      }
    }
  }

  /** `xs.index(x)`: the first position of `x`. */
  function IndexOfElem<T(==)>(xs: seq<T>, x: T): (i: nat)
    requires x in xs
    ensures i < |xs| && xs[i] == x
    ensures forall j :: 0 <= j < i ==> xs[j] != x
  {
    if xs[0] == x then 0 else IndexOfElem(xs[1..], x) + 1
  }

  lemma {:induction false} IndexOfElemAppend<T>(xs: seq<T>, ys: seq<T>, x: T)
    requires x in xs
    ensures IndexOfElem(xs + ys, x) == IndexOfElem(xs, x)
  {
    if xs[0] != x {
      assert (xs + ys)[1..] == xs[1..] + ys;
      IndexOfElemAppend(xs[1..], ys, x);
    }
  }

  lemma AppendAssoc<T>(a: seq<T>, b: seq<T>, c: seq<T>)
    ensures (a + b) + c == a + (b + c)
  {
  }

  /** Appending the next element of `xs` extends the copied prefix by one. */
  lemma PrefixSnoc<T>(base: seq<T>, xs: seq<T>, j: nat)
    requires j < |xs|
    ensures (base + xs[..j]) + [xs[j]] == base + xs[..j + 1]
  {
    assert xs[..j + 1] == xs[..j] + [xs[j]];
    AppendAssoc(base, xs[..j], [xs[j]]);
  }

  /** Appending `v` once more extends a run of `v` by one. */
  lemma RepeatSnoc<T>(base: seq<T>, j: nat, v: T)
    ensures (base + seq(j, _ => v)) + [v] == base + seq(j + 1, _ => v)
  {
    assert seq(j, _ => v) + [v] == seq(j + 1, _ => v);
    AppendAssoc(base, seq(j, _ => v), [v]);
  }

  lemma IndexOfElemNew<T>(xs: seq<T>, x: T)
    requires x !in xs
    ensures x in xs + [x] && IndexOfElem(xs + [x], x) == |xs|
  {
    assert (xs + [x])[|xs|] == x;
    assert forall j :: 0 <= j < |xs| ==> (xs + [x])[j] == xs[j];
  }

  /** Two distinct elements cannot both be removed by removing one value. */
  lemma WithoutOfTwoDistinct<T>(xs: seq<T>, x: T)
    requires Distinct(xs) && |xs| >= 2
    ensures Without(xs, x) != []
  {
    assert xs[0] != xs[1];
    if xs[0] != x {
      assert xs[0] in Without(xs, x);
    } else {
      assert xs[1] in Without(xs, x);
    }
  }

  /** The concatenation of a list of lists (`[x for l in xss for x in l]`). */
  function Concat<T>(xss: seq<seq<T>>): seq<T>
  {
    if xss == [] then [] else xss[0] + Concat(xss[1..])
  }

  /** `sum(len(l) for l in xss)`. */
  function SumLengths<T>(xss: seq<seq<T>>): nat
  {
    if xss == [] then 0 else |xss[0]| + SumLengths(xss[1..])
  }

  lemma {:induction false} ConcatLength<T>(xss: seq<seq<T>>)
    ensures |Concat(xss)| == SumLengths(xss)
  {
    if xss != [] {
      ConcatLength(xss[1..]);
    }
  }

  lemma {:induction false} InConcat<T>(xss: seq<seq<T>>, x: T)
    ensures x in Concat(xss) <==> exists i :: 0 <= i < |xss| && x in xss[i]
  {
    if xss != [] {
      InConcat(xss[1..], x);
      if x in Concat(xss[1..]) {
        var i :| 0 <= i < |xss[1..]| && x in xss[1..][i];
        assert x in xss[i + 1];
      }
      forall i | 0 < i < |xss| && x in xss[i] ensures x in Concat(xss[1..]) {
        assert xss[1..][i - 1] == xss[i];
      }
    }
  }

  /** Replacing one list changes the total length by the difference of the two lengths. */
  lemma {:induction false} SumLengthsUpdate<T>(xss: seq<seq<T>>, i: nat, ys: seq<T>)
    requires i < |xss|
    ensures SumLengths(xss[i := ys]) + |xss[i]| == SumLengths(xss) + |ys|
  {
    if i > 0 {
      assert xss[i := ys][1..] == xss[1..][i - 1 := ys];
      SumLengthsUpdate(xss[1..], i - 1, ys);
    }
  }

  /** Appending one list adds its length to the total. */
  lemma {:induction false} SumLengthsSnoc<T>(xss: seq<seq<T>>, ys: seq<T>)
    ensures SumLengths(xss + [ys]) == SumLengths(xss) + |ys|
  {
    if xss != [] {
      assert (xss + [ys])[1..] == xss[1..] + [ys];
      SumLengthsSnoc(xss[1..], ys);
    }
  }

  lemma {:induction false} ConcatSnoc<T>(xss: seq<seq<T>>, x: seq<T>)
    ensures Concat(xss + [x]) == Concat(xss) + x
  {
    if xss == [] {
      assert [] + [x] == [x];
    } else {
      assert (xss + [x])[1..] == xss[1..] + [x];
      ConcatSnoc(xss[1..], x);
    }
  }
}
