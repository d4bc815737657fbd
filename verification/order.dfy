/** Ordering of names. The application sorts names with
    `(a, b) => a.localeCompare(b)`; the model uses the code-point
    lexicographic order, a total order on strings. */
module Order {
  import opened Seqs

  /** `a` comes no later than `b`: a prefix of `b`, or smaller at the first
      position where they differ. */
  predicate LexLeq(a: string, b: string) {
    |a| == 0 || (|b| > 0 && (a[0] < b[0] || (a[0] == b[0] && LexLeq(a[1..], b[1..]))))
  }

  lemma LexLeqTotal(a: string, b: string)
    ensures LexLeq(a, b) || LexLeq(b, a)
  {
  }

  lemma LexLeqAntisymmetric(a: string, b: string)
    requires LexLeq(a, b) && LexLeq(b, a)
    ensures a == b
  {
    if |a| > 0 {
      LexLeqAntisymmetric(a[1..], b[1..]);
      assert a == [a[0]] + a[1..] && b == [b[0]] + b[1..];
    }
  }

  lemma LexLeqTransitive(a: string, b: string, c: string)
    requires LexLeq(a, b) && LexLeq(b, c)
    ensures LexLeq(a, c)
  {
    if |a| > 0 && a[0] == b[0] && b[0] == c[0] {
      LexLeqTransitive(a[1..], b[1..], c[1..]);
    }
  }

  /** Ascending, repetitions allowed. */
  predicate Sorted(s: seq<string>) {
    forall i, j :: 0 <= i < j < |s| ==> LexLeq(s[i], s[j])
  }

  /** Ascending without repetitions. */
  predicate StrictlySorted(s: seq<string>) {
    forall i, j :: 0 <= i < j < |s| ==> LexLeq(s[i], s[j]) && s[i] != s[j]
  }

  /** Places `x` before the first element it does not exceed. */
  function Insert(x: string, s: seq<string>): (r: seq<string>)
    requires Sorted(s)
    ensures Sorted(r)
    ensures multiset(r) == multiset(s) + multiset{x}
  {
    if |s| == 0 then [x]
    else if LexLeq(x, s[0]) then
      forall j | 0 < j < |s| ensures LexLeq(x, s[j]) {
        LexLeqTransitive(x, s[0], s[j]);
      }
      [x] + s
    else
      var rest := Insert(x, s[1..]);
      LexLeqTotal(x, s[0]);
      forall j | 0 <= j < |rest| ensures LexLeq(s[0], rest[j]) {
        assert rest[j] in multiset(rest);
        if rest[j] != x {
          assert rest[j] in multiset(s[1..]);
          var k :| 0 <= k < |s[1..]| && s[1..][k] == rest[j];
          assert s[k + 1] == rest[j];
        }
      }
      assert s == [s[0]] + s[1..];
      [s[0]] + rest
  }

  /** `names.sort(compare)`: an ascending permutation of the input. */
  function SortNames(xs: seq<string>): (r: seq<string>)
    ensures Sorted(r)
    ensures multiset(r) == multiset(xs)
  {
    if |xs| == 0 then []
    else
      assert xs == xs[..|xs| - 1] + [xs[|xs| - 1]];
      Insert(xs[|xs| - 1], SortNames(xs[..|xs| - 1]))
  }

  /** Sorting names without repetitions gives a strictly ascending list of
      exactly those names. */
  lemma SortDistinct(xs: seq<string>)
    requires NoDups(xs)
    ensures StrictlySorted(SortNames(xs))
    ensures forall x :: x in SortNames(xs) <==> x in xs
  {
    var r := SortNames(xs);
    PermutationKeepsNoDups(xs, r);
    forall x ensures x in r <==> x in xs {
      assert x in r <==> x in multiset(r);
      assert x in xs <==> x in multiset(xs);
    }
  }

  lemma FirstIsMember(b: seq<string>)
    ensures |b| > 0 ==> b[0] in b
  {
  }

  /** A strictly ascending list is determined by the names it holds. */
  lemma {:induction false} StrictlySortedUnique(a: seq<string>, b: seq<string>)
    requires StrictlySorted(a) && StrictlySorted(b)
    requires forall x :: x in a <==> x in b
    ensures a == b
  {
    if |a| == 0 {
      FirstIsMember(b);
    } else {
      assert a[0] in b;
      assert |b| > 0;
      assert b[0] in a;
      var i :| 0 <= i < |a| && a[i] == b[0];
      var j :| 0 <= j < |b| && b[j] == a[0];
      if i > 0 && j > 0 {
        assert LexLeq(a[0], a[i]) && LexLeq(b[0], b[j]);
        LexLeqAntisymmetric(a[0], b[0]);
      }
      assert a[0] == b[0];
      forall x ensures x in a[1..] <==> x in b[1..] {
        if x in a[1..] {
          var k :| 0 <= k < |a[1..]| && a[1..][k] == x;
          assert a[k + 1] == x && x != a[0];
          assert x in b;
          assert x != b[0];
        }
        if x in b[1..] {
          var k :| 0 <= k < |b[1..]| && b[1..][k] == x;
          assert b[k + 1] == x && x != b[0];
          assert x in a;
          assert x != a[0];
        }
      }
      StrictlySortedUnique(a[1..], b[1..]);
      assert a == [a[0]] + a[1..] && b == [b[0]] + b[1..];
    }
  }
}
