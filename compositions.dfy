/** The allocation enumerator `CombinationCsv.generate_combination`: every
    way to split a quota `n` over `k` ordered slots (every composition of `n`
    into `k` non-negative parts), produced with the first part counting down
    from `n` to 0 at every level. */
module Compositions {
  import opened Text

  /** One group's allocation: slot 1 is position 0. */
  type Allocation = seq<nat>

  function Sum(a: seq<nat>): nat
  {
    if a == [] then 0 else a[0] + Sum(a[1..])
  }

  /** `a` splits `n` over `k` slots. */
  predicate IsComposition(a: Allocation, n: nat, k: nat)
  {
    |a| == k && Sum(a) == n
  }

  /** `[x, *t]` for every `t` in `tails`, in order. */
  function PrependEach<T>(x: T, tails: seq<seq<T>>): seq<seq<T>>
  {
    seq(|tails|, i requires 0 <= i < |tails| => [x] + tails[i])
  }

  /** `generate_combination(n, k)`. Slot count 0 never terminates in the
      source, so `k >= 1` is required. */
  function GenerateCombination(n: nat, k: nat): (r: seq<Allocation>)
    requires k >= 1
    ensures |r| >= 1
    decreases k, n + 1
  {
    if k == 1 then [[n]] else CountDown(n, n, k)
  }

  /** The `flat_map` of `generate_combination` restricted to first parts
      `m, m - 1, ..., 0`: each first part `j` is prepended to every
      allocation of `n - j` over the remaining `k - 1` slots. */
  function CountDown(n: nat, m: nat, k: nat): seq<Allocation>
    requires 2 <= k && m <= n
    decreases k, m
  {
    var block := PrependEach(m, GenerateCombination(n - m, k - 1));
    if m == 0 then block else block + CountDown(n, m - 1, k)
  }

  // ---------------------------------------------------------------------
  // Soundness: every result is a composition of n into k parts.

  lemma {:induction false} GenerateCombinationSound(n: nat, k: nat)
    requires k >= 1
    ensures forall a :: a in GenerateCombination(n, k) ==> IsComposition(a, n, k)
    decreases k, n + 1
  {
    if k == 1 {
      assert Sum([n]) == n + Sum([]);
    } else {
      CountDownSound(n, n, k);
    }
  }

  lemma {:induction false} CountDownSound(n: nat, m: nat, k: nat)
    requires 2 <= k && m <= n
    ensures forall a :: a in CountDown(n, m, k) ==> IsComposition(a, n, k) && a[0] <= m
    decreases k, m
  {
    var tails := GenerateCombination(n - m, k - 1);
    GenerateCombinationSound(n - m, k - 1);
    forall a | a in PrependEach(m, tails) ensures IsComposition(a, n, k) && a[0] <= m {
      var i :| 0 <= i < |tails| && PrependEach(m, tails)[i] == a;
      assert tails[i] in tails;
      assert a[1..] == tails[i];
    }
    if m > 0 {
      CountDownSound(n, m - 1, k);
    }
  }

  // ---------------------------------------------------------------------
  // Completeness: every composition of n into k parts is produced.

  lemma {:induction false} GenerateCombinationComplete(n: nat, k: nat, a: Allocation)
    requires k >= 1 && IsComposition(a, n, k)
    ensures a in GenerateCombination(n, k)
    decreases k, n + 1
  {
    if k == 1 {
      assert a[1..] == [] && a == [a[0]];
      assert Sum(a) == a[0] + Sum(a[1..]);
    } else {
      CountDownComplete(n, n, k, a);
    }
  }

  lemma {:induction false} CountDownComplete(n: nat, m: nat, k: nat, a: Allocation)
    requires 2 <= k && m <= n && IsComposition(a, n, k) && a[0] <= m
    ensures a in CountDown(n, m, k)
    decreases k, m
  {
    if a[0] == m {
      var tails := GenerateCombination(n - m, k - 1);
      GenerateCombinationComplete(n - m, k - 1, a[1..]);
      var i :| 0 <= i < |tails| && tails[i] == a[1..];
      assert PrependEach(m, tails)[i] == a;
    } else {
      CountDownComplete(n, m - 1, k, a);
    }
  }

  // ---------------------------------------------------------------------
  // Order: the results are in strictly descending lexicographic order.

  /** `a` comes strictly after `b` in lexicographic order. */
  predicate LexGreater(a: Allocation, b: Allocation)
  {
    |a| > 0 && |b| > 0 && (a[0] > b[0] || (a[0] == b[0] && LexGreater(a[1..], b[1..])))
  }

  predicate StrictlyDescending(s: seq<Allocation>)
  {
    forall i, j :: 0 <= i < j < |s| ==> LexGreater(s[i], s[j])
  }

  lemma {:induction false} LexGreaterIrreflexive(a: Allocation)
    ensures !LexGreater(a, a)
    decreases |a|
  {
    if |a| > 0 {
      LexGreaterIrreflexive(a[1..]);
    }
  }

  lemma {:induction false} GenerateCombinationDescending(n: nat, k: nat)
    requires k >= 1
    ensures StrictlyDescending(GenerateCombination(n, k))
    decreases k, n + 1
  {
    if k > 1 {
      CountDownDescending(n, n, k);
    }
  }

  lemma {:induction false} CountDownDescending(n: nat, m: nat, k: nat)
    requires 2 <= k && m <= n
    ensures StrictlyDescending(CountDown(n, m, k))
    decreases k, m
  {
    var tails := GenerateCombination(n - m, k - 1);
    var block := PrependEach(m, tails);
    GenerateCombinationDescending(n - m, k - 1);
    forall i, j | 0 <= i < j < |block| ensures LexGreater(block[i], block[j]) {
      assert block[i][1..] == tails[i] && block[j][1..] == tails[j];
    }
    if m > 0 {
      var rest := CountDown(n, m - 1, k);
      CountDownDescending(n, m - 1, k);
      CountDownSound(n, m - 1, k);
      forall i, j | 0 <= i < |block| && 0 <= j < |rest| ensures LexGreater(block[i], rest[j]) {
        assert rest[j] in rest;
      }
      var s := block + rest;
      forall i, j | 0 <= i < j < |s| ensures LexGreater(s[i], s[j]) {
        if j < |block| {
        } else if i >= |block| {
          assert s[i] == rest[i - |block|] && s[j] == rest[j - |block|];
        } else {
          assert s[j] == rest[j - |block|];
        }
      }
    }
  }

  /** No allocation is produced twice. */
  lemma GenerateCombinationDistinct(n: nat, k: nat)
    requires k >= 1
    ensures NoDuplicates(GenerateCombination(n, k))
  {
    var g := GenerateCombination(n, k);
    GenerateCombinationDescending(n, k);
    forall i, j | 0 <= i < j < |g| ensures g[i] != g[j] {
      LexGreaterIrreflexive(g[i]);
    }
  }

  // ---------------------------------------------------------------------
  // Count: C(n + k - 1, k - 1) results.

  /** The binomial coefficient, by Pascal's rule. */
  function Binomial(a: nat, b: nat): nat
  {
    if b == 0 then 1 else if a == 0 then 0 else Binomial(a - 1, b - 1) + Binomial(a - 1, b)
  }

  lemma {:induction false} BinomialAbove(a: nat, b: nat)
    requires b > a
    ensures Binomial(a, b) == 0
  {
    if a > 0 {
      BinomialAbove(a - 1, b - 1);
      BinomialAbove(a - 1, b);
    }
  }

  lemma {:induction false} GenerateCombinationCount(n: nat, k: nat)
    requires k >= 1
    ensures |GenerateCombination(n, k)| == Binomial(n + k - 1, k - 1)
    decreases k, n + 1
  {
    if k > 1 {
      CountDownCount(n, n, k);
      BinomialAbove(k - 2, k - 1);
    }
  }

  lemma {:induction false} CountDownCount(n: nat, m: nat, k: nat)
    requires 2 <= k && m <= n
    ensures |CountDown(n, m, k)| + Binomial(n - m + k - 2, k - 1) == Binomial(n + k - 1, k - 1)
    decreases k, m
  {
    GenerateCombinationCount(n - m, k - 1);
    assert Binomial(n - m + k - 1, k - 1)
        == Binomial(n - m + k - 2, k - 2) + Binomial(n - m + k - 2, k - 1);
    if m > 0 {
      CountDownCount(n, m - 1, k);
    }
  }

  // ---------------------------------------------------------------------
  // The examples of the source's own tests.

  /** One slot takes the whole quota; two slots for 2 give exactly
      `[[2, 0], [1, 1], [0, 2]]`, in that order. */
  lemma GenerateCombinationSmallExamples(n: nat)
    ensures GenerateCombination(n, 1) == [[n]]
    ensures GenerateCombination(2, 2) == [[2, 0], [1, 1], [0, 2]]
  {
    assert PrependEach(0, [[2]])[0] == [0, 2];
    assert PrependEach(1, [[1]])[0] == [1, 1];
    assert PrependEach(2, [[0]])[0] == [2, 0];
    assert CountDown(2, 0, 2) == [[0, 2]];
    assert CountDown(2, 1, 2) == [[1, 1], [0, 2]];
  }

  /** Two slots: exactly the pairs `[n, 0], [n - 1, 1], ..., [0, n]`, in
      that order (the `(10, 2)` test lists these eleven pairs). */
  lemma TwoSlots(n: nat)
    ensures GenerateCombination(n, 2) == seq(n + 1, i requires 0 <= i <= n => [n - i, i])
  {
    TwoSlotsCountDown(n, n);
  }

  lemma {:induction false} TwoSlotsCountDown(n: nat, m: nat)
    requires m <= n
    ensures CountDown(n, m, 2) == seq(m + 1, i requires 0 <= i <= m => [m - i, n - m + i])
  {
    var tail: Allocation := [n - m];
    assert GenerateCombination(n - m, 1) == [tail];
    var block := PrependEach(m, [tail]);
    assert |block| == 1;
    assert block[0] == [m] + tail;
    assert [m] + tail == [m, n - m];
    assert block == [[m, n - m]];
    if m > 0 {
      TwoSlotsCountDown(n, m - 1);
    }
  }

  lemma {:induction false} BinomialOne(a: nat)
    ensures Binomial(a, 1) == a
  {
    if a > 0 {
      BinomialOne(a - 1);
    }
  }

  lemma {:induction false} BinomialTwo(a: nat)
    ensures 2 * Binomial(a, 2) == a * (a - 1)
  {
    if a > 0 {
      BinomialTwo(a - 1);
      BinomialOne(a - 1);
    }
  }

  /** Two slots: `n + 1` allocations. */
  lemma CountTwoSlots(n: nat)
    ensures |GenerateCombination(n, 2)| == n + 1
  {
    GenerateCombinationCount(n, 2);
    BinomialOne(n + 1);
  }

  /** Three slots: `(n + 2) * (n + 1) / 2` allocations. */
  lemma CountThreeSlots(n: nat)
    ensures 2 * |GenerateCombination(n, 3)| == (n + 2) * (n + 1)
  {
    GenerateCombinationCount(n, 3);
    BinomialTwo(n + 2);
  }

  /** A quota of 2 over four slots: ten allocations. */
  lemma CountTwoOverFour()
    ensures |GenerateCombination(2, 4)| == 10
  {
    GenerateCombinationCount(2, 4);
    BinomialTwo(4);
    BinomialTwo(3);
    assert Binomial(3, 3) == 1 by { BinomialAbove(2, 3); }
  }

  /** The sizes asserted by the source's tests: 11 for (10, 2), 10 for
      (2, 4) and 28 for (6, 3). */
  lemma GenerateCombinationTestSizes()
    ensures |GenerateCombination(10, 2)| == 11
    ensures |GenerateCombination(2, 4)| == 10
    ensures |GenerateCombination(6, 3)| == 28
  {
    CountTwoSlots(10);
    CountTwoOverFour();
    CountThreeSlots(6);
  }
}
