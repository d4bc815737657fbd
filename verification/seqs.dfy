/** Generic sequence operations: the JavaScript `Set`-based de-duplication,
    order-preserving filters, reversal, flattening and sums. */
module Seqs {

  /** No element occurs twice. */
  predicate NoDups<T(==)>(s: seq<T>) {
    forall i, j :: 0 <= i < j < |s| ==> s[i] != s[j]
  }

  /** `Array.from(new Set(xs))`: keeps the first occurrence of every element,
      in order of first occurrence; a sequence without repetitions is kept as is. */
  function Dedup<T(==,!new)>(xs: seq<T>): (r: seq<T>)
    ensures NoDups(r)
    ensures forall x :: x in r <==> x in xs
    ensures |r| <= |xs|
    ensures NoDups(xs) ==> r == xs
  {
    if |xs| == 0 then []
    else
      var init := xs[..|xs| - 1];
      var d := Dedup(init);
      var x := xs[|xs| - 1];
      assert forall y :: y in xs <==> y in init || y == x;
      assert NoDups(xs) ==> NoDups(init) && x !in init;
      assert init + [x] == xs;
      if x in d then d else d + [x]
  }

  /** Index of the first occurrence of `x` (`Array.prototype.indexOf`). */
  function FirstIndex<T(==)>(xs: seq<T>, x: T): (i: nat)
    requires x in xs
    ensures i < |xs| && xs[i] == x
    ensures forall j :: 0 <= j < i ==> xs[j] != x
  {
    if xs[0] == x then 0 else 1 + FirstIndex(xs[1..], x)
  }

  /** Extending a sequence does not move the first occurrence of an element
      already present. */
  lemma FirstIndexPrefix<T>(a: seq<T>, b: seq<T>, x: T)
    requires x in a
    ensures FirstIndex(a + b, x) == FirstIndex(a, x)
  {
    var k := FirstIndex(a, x);
    assert (a + b)[k] == x;
  }

  /** The elements kept by `Dedup` appear in the order of their first
      occurrence in the input. */
  lemma {:induction false} DedupKeepsFirstOrder<T(!new)>(xs: seq<T>)
    ensures forall i, j :: 0 <= i < j < |Dedup(xs)| ==>
              FirstIndex(xs, Dedup(xs)[i]) < FirstIndex(xs, Dedup(xs)[j])
  {
    if |xs| > 0 {
      var init := xs[..|xs| - 1];
      var x := xs[|xs| - 1];
      var d := Dedup(init);
      DedupKeepsFirstOrder(init);
      assert init + [x] == xs;
      forall y | y in d
        ensures FirstIndex(xs, y) == FirstIndex(init, y) < |init|
      {
        FirstIndexPrefix(init, [x], y);
      }
      if x !in d {
        assert x !in init;
        assert FirstIndex(xs, x) == |init| by {
          assert xs[|init|] == x;
          assert forall j :: 0 <= j < |init| ==> xs[j] == init[j];
        }
        assert Dedup(xs) == d + [x];
      }
    }
  }

  /** De-duplicating a concatenation starts with the de-duplication of its
      first part: elements of `a` keep their first-occurrence order. */
  lemma {:induction false} DedupPrefix<T(!new)>(a: seq<T>, b: seq<T>)
    ensures |Dedup(a)| <= |Dedup(a + b)|
    ensures Dedup(a + b)[..|Dedup(a)|] == Dedup(a)
  {
    if |b| == 0 {
      assert a + b == a;
    } else {
      var b' := b[..|b| - 1];
      assert (a + b)[..|a + b| - 1] == a + b';
      DedupPrefix(a, b');
    }
  }

  /** Occurrences of elements satisfying `p`. */
  function CountWhere<T>(xs: seq<T>, p: T -> bool): (n: nat)
    ensures n <= |xs|
  {
    if |xs| == 0 then 0 else (if p(xs[0]) then 1 else 0) + CountWhere(xs[1..], p)
  }

  /** The order-preserving `Array.prototype.filter`. */
  function Filter<T(==,!new)>(xs: seq<T>, p: T -> bool): (r: seq<T>)
    ensures |r| == CountWhere(xs, p)
    ensures forall x :: x in r <==> x in xs && p(x)
  {
    if |xs| == 0 then []
    else
      var rest := Filter(xs[1..], p);
      assert forall x :: x in xs <==> x == xs[0] || x in xs[1..];
      if p(xs[0]) then [xs[0]] + rest else rest
  }

  /** `Array.prototype.map`. */
  function Map<A, B>(xs: seq<A>, f: A -> B): (r: seq<B>)
    ensures |r| == |xs|
    ensures forall i :: 0 <= i < |xs| ==> r[i] == f(xs[i])
  {
    seq(|xs|, i requires 0 <= i < |xs| => f(xs[i]))
  }

  lemma MapCons<A, B>(x: A, xs: seq<A>, f: A -> B)
    ensures Map([x] + xs, f) == [f(x)] + Map(xs, f)
  {
  }

  /** `Array.prototype.reverse`. */
  function Reverse<T>(s: seq<T>): (r: seq<T>)
    ensures |r| == |s|
    ensures forall i :: 0 <= i < |s| ==> r[i] == s[|s| - 1 - i]
  {
    if |s| == 0 then [] else Reverse(s[1..]) + [s[0]]
  }

  /** Concatenation of a sequence of sequences. */
  function Flatten<T>(xss: seq<seq<T>>): (r: seq<T>)
    ensures |xss| > 0 ==> r == xss[0] + Flatten(xss[1..])
  {
    if |xss| == 0 then [] else xss[0] + Flatten(xss[1..])
  }

  /** Summing per-element subtotals equals summing over the flattened parts,
      when each subtotal is the sum over its element's part. */
  lemma {:induction false} SumFlatten<A, B>(xs: seq<A>, part: A -> seq<B>, sub: A -> real, f: B -> real)
    requires forall x :: sub(x) == Sum(part(x), f)
    ensures Sum(xs, sub) == Sum(Flatten(Map(xs, part)), f)
  {
    if |xs| > 0 {
      var parts := Map(xs, part);
      assert parts[1..] == Map(xs[1..], part);
      SumFlatten(xs[1..], part, sub, f);
      SumAppend(part(xs[0]), Flatten(parts[1..]), f);
    }
  }

  /** Filtering a concatenation filters each part. */
  lemma {:induction false} FilterAppend<T(!new)>(a: seq<T>, b: seq<T>, p: T -> bool)
    ensures Filter(a + b, p) == Filter(a, p) + Filter(b, p)
  {
    if |a| == 0 {
      assert a + b == b;
    } else {
      assert (a + b)[1..] == a[1..] + b;
      FilterAppend(a[1..], b, p);
    }
  }

  lemma FilterSingleton<T(!new)>(x: T, p: T -> bool)
    ensures Filter([x], p) == if p(x) then [x] else []
  {
    assert [x][1..] == [];
  }

  /** A filter that every element passes keeps the whole sequence. */
  lemma {:induction false} FilterKeepsAll<T(!new)>(xs: seq<T>, p: T -> bool)
    requires forall i :: 0 <= i < |xs| ==> p(xs[i])
    ensures Filter(xs, p) == xs
  {
    if |xs| > 0 {
      FilterKeepsAll(xs[1..], p);
      assert [xs[0]] + xs[1..] == xs;
    }
  }

  /** Σ f(x) over `xs`, in exact arithmetic. */
  function Sum<T>(xs: seq<T>, f: T -> real): real {
    if |xs| == 0 then 0.0 else f(xs[0]) + Sum(xs[1..], f)
  }

  /** Σ f(x) over `xs` for counts. */
  function SumNat<T>(xs: seq<T>, f: T -> nat): nat {
    if |xs| == 0 then 0 else f(xs[0]) + SumNat(xs[1..], f)
  }

  lemma {:induction false} SumAppend<T>(a: seq<T>, b: seq<T>, f: T -> real)
    ensures Sum(a + b, f) == Sum(a, f) + Sum(b, f)
  {
    if |a| == 0 {
      assert a + b == b;
    } else {
      assert (a + b)[1..] == a[1..] + b;
      SumAppend(a[1..], b, f);
    }
  }

  lemma {:induction false} SumNatAppend<T>(a: seq<T>, b: seq<T>, f: T -> nat)
    ensures SumNat(a + b, f) == SumNat(a, f) + SumNat(b, f)
  {
    if |a| == 0 {
      assert a + b == b;
    } else {
      assert (a + b)[1..] == a[1..] + b;
      SumNatAppend(a[1..], b, f);
    }
  }

  lemma {:induction false} CountWhereAppend<T>(a: seq<T>, b: seq<T>, p: T -> bool)
    ensures CountWhere(a + b, p) == CountWhere(a, p) + CountWhere(b, p)
  {
    if |a| == 0 {
      assert a + b == b;
    } else {
      assert (a + b)[1..] == a[1..] + b;
      CountWhereAppend(a[1..], b, p);
    }
  }

  /** Removing position `i` leaves the rest of the multiset. */
  lemma RemoveAt<T>(b: seq<T>, i: nat)
    requires i < |b|
    ensures b == b[..i] + [b[i]] + b[i + 1..]
    ensures multiset(b[..i] + b[i + 1..]) == multiset(b) - multiset{b[i]}
  {
    assert b == b[..i] + [b[i]] + b[i + 1..];
  }

  /** The head of `a` sits somewhere in a permutation `b` of it, and the rest
      of `a` is a permutation of `b` without that position. */
  lemma PermutationHead<T>(a: seq<T>, b: seq<T>) returns (i: nat)
    requires multiset(a) == multiset(b) && |a| > 0
    ensures i < |b| && b[i] == a[0]
    ensures multiset(a[1..]) == multiset(b[..i] + b[i + 1..])
  {
    var x := a[0];
    assert x in multiset(b);
    assert x in b;
    i :| 0 <= i < |b| && b[i] == x;
    var left, right := b[..i], b[i + 1..];
    assert b == left + [x] + right;
    assert a == [x] + a[1..];
    calc {
      multiset(a[1..]) + multiset{x};
      multiset(a);
      multiset(b);
      multiset(left) + multiset{x} + multiset(right);
      multiset(left + right) + multiset{x};
    }
    MultisetCancel(multiset(a[1..]), multiset(left + right), x);
  }

  lemma MultisetCancel<T>(p: multiset<T>, q: multiset<T>, x: T)
    requires p + multiset{x} == q + multiset{x}
    ensures p == q
  {
    forall y ensures p[y] == q[y] {
      assert (p + multiset{x})[y] == (q + multiset{x})[y];
    }
  }

  lemma SumRemoveAt<T>(b: seq<T>, i: nat, f: T -> real)
    requires i < |b|
    ensures Sum(b, f) == f(b[i]) + Sum(b[..i] + b[i + 1..], f)
  {
    SumAppend(b[..i], b[i..], f);
    assert b[..i] + b[i..] == b;
    assert b[i..][1..] == b[i + 1..];
    SumAppend(b[..i], b[i + 1..], f);
  }

  lemma SumNatRemoveAt<T>(b: seq<T>, i: nat, f: T -> nat)
    requires i < |b|
    ensures SumNat(b, f) == f(b[i]) + SumNat(b[..i] + b[i + 1..], f)
  {
    SumNatAppend(b[..i], b[i..], f);
    assert b[..i] + b[i..] == b;
    assert b[i..][1..] == b[i + 1..];
    SumNatAppend(b[..i], b[i + 1..], f);
  }

  lemma CountWhereRemoveAt<T>(b: seq<T>, i: nat, p: T -> bool)
    requires i < |b|
    ensures CountWhere(b, p) == (if p(b[i]) then 1 else 0) + CountWhere(b[..i] + b[i + 1..], p)
  {
    CountWhereAppend(b[..i], b[i..], p);
    assert b[..i] + b[i..] == b;
    assert b[i..][1..] == b[i + 1..];
    CountWhereAppend(b[..i], b[i + 1..], p);
  }

  /** Sums do not depend on the order of the summands. */
  lemma {:induction false} SumPermutation<T>(a: seq<T>, b: seq<T>, f: T -> real)
    requires multiset(a) == multiset(b)
    ensures Sum(a, f) == Sum(b, f)
    decreases |a|
  {
    if |a| == 0 {
      assert |b| == |multiset(b)| == 0;
    } else {
      var i := PermutationHead(a, b);
      SumPermutation(a[1..], b[..i] + b[i + 1..], f);
      SumRemoveAt(b, i, f);
    }
  }

  lemma {:induction false} SumNatPermutation<T>(a: seq<T>, b: seq<T>, f: T -> nat)
    requires multiset(a) == multiset(b)
    ensures SumNat(a, f) == SumNat(b, f)
    decreases |a|
  {
    if |a| == 0 {
      assert |b| == |multiset(b)| == 0;
    } else {
      var i := PermutationHead(a, b);
      SumNatPermutation(a[1..], b[..i] + b[i + 1..], f);
      SumNatRemoveAt(b, i, f);
    }
  }

  lemma {:induction false} CountWherePermutation<T>(a: seq<T>, b: seq<T>, p: T -> bool)
    requires multiset(a) == multiset(b)
    ensures CountWhere(a, p) == CountWhere(b, p)
    decreases |a|
  {
    if |a| == 0 {
      assert |b| == |multiset(b)| == 0;
    } else {
      var i := PermutationHead(a, b);
      CountWherePermutation(a[1..], b[..i] + b[i + 1..], p);
      CountWhereRemoveAt(b, i, p);
    }
  }

  /** A permutation of a repetition-free sequence is repetition-free. */
  lemma PermutationKeepsNoDups<T>(a: seq<T>, b: seq<T>)
    requires multiset(a) == multiset(b)
    requires NoDups(a)
    ensures NoDups(b)
  {
    forall i, j | 0 <= i < j < |b|
      ensures b[i] != b[j]
    {
      assert b[i] in multiset(a);
      CountIsOne(a, b[i]);
      TwoOccurrences(b, i, j);
    }
  }

  /** Two equal positions make an element occur at least twice. */
  lemma TwoOccurrences<T>(b: seq<T>, i: nat, j: nat)
    requires i < j < |b|
    ensures b[i] == b[j] ==> multiset(b)[b[i]] >= 2
  {
    RemoveAt(b, i);
    assert (b[..i] + b[i + 1..])[j - 1] == b[j];
    assert b[j] in multiset(b[..i] + b[i + 1..]);
  }

  lemma CountIsOne<T>(a: seq<T>, x: T)
    requires NoDups(a)
    requires x in multiset(a)
    ensures multiset(a)[x] == 1
  {
    var i :| 0 <= i < |a| && a[i] == x;
    RemoveAt(a, i);
    var rest := a[..i] + a[i + 1..];
    forall k | 0 <= k < |rest|
      ensures rest[k] != x
    {
      if k < i {
        assert rest[k] == a[k];
      } else {
        assert rest[k] == a[k + 1];
      }
    }
    assert x !in multiset(rest);
  }
}
