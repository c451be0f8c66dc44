/** The combination composer: `CombinationCsv.combination_by_group` gives
    every group its list of allocations, and
    `CombinationCsv.generate_all_combinations` takes the cartesian product of
    those lists (`Array#product`, first group outermost) and pairs every
    choice back with the group names. */
module Combinations {
  import opened Text
  import opened Compositions
  import opened Template

  /** One complete choice: each group name with the allocation chosen for
      it, in group order (a Ruby hash in insertion order). */
  type Combination = seq<(string, Allocation)>

  /** No group owns zero slots (the enumerator does not terminate on 0). */
  predicate PositiveCounts(groups: seq<Group>)
  {
    forall j :: 0 <= j < |groups| ==> groups[j].slots >= 1
  }

  /** `combination_by_group`: each group, in table order, with every
      allocation of `n` over its slots. */
  function CombinationByGroup(groups: seq<Group>, n: nat): (r: seq<(string, seq<Allocation>)>)
    requires PositiveCounts(groups)
    ensures |r| == |groups|
    ensures forall j :: 0 <= j < |groups| ==> r[j].0 == groups[j].name && |r[j].1| >= 1
  {
    seq(|groups|, j requires 0 <= j < |groups| && PositiveCounts(groups) =>
      (groups[j].name, GenerateCombination(n, groups[j].slots)))
  }

  /** Each group keeps its name and position and receives exactly the
      allocations of `n` over its own slots, each once, C(n + k - 1, k - 1)
      of them for `k` slots. */
  lemma CombinationByGroupMeaning(groups: seq<Group>, n: nat)
    requires PositiveCounts(groups)
    ensures var byGroup := CombinationByGroup(groups, n);
            |byGroup| == |groups| &&
            forall j :: 0 <= j < |groups| ==>
              && byGroup[j].0 == groups[j].name
              && (forall a :: a in byGroup[j].1 <==> IsComposition(a, n, groups[j].slots))
              && NoDuplicates(byGroup[j].1)
              && |byGroup[j].1| == Binomial(n + groups[j].slots - 1, groups[j].slots - 1)
  {
    var byGroup := CombinationByGroup(groups, n);
    forall j | 0 <= j < |groups|
      ensures forall a :: a in byGroup[j].1 <==> IsComposition(a, n, groups[j].slots)
      ensures NoDuplicates(byGroup[j].1)
      ensures |byGroup[j].1| == Binomial(n + groups[j].slots - 1, groups[j].slots - 1)
    {
      var k := groups[j].slots;
      GenerateCombinationSound(n, k);
      forall a | IsComposition(a, n, k) ensures a in byGroup[j].1 {
        GenerateCombinationComplete(n, k, a);
      }
      GenerateCombinationDistinct(n, k);
      GenerateCombinationCount(n, k);
    }
  }

  // ---------------------------------------------------------------------
  // Array#product

  /** For each head in order, that head in front of every tail. */
  function Extend<T>(heads: seq<T>, tails: seq<seq<T>>): seq<seq<T>>
  {
    if heads == [] then [] else PrependEach(heads[0], tails) + Extend(heads[1..], tails)
  }

  /** Every tuple of `Extend(heads, tails)` is a head followed by a tail. */
  lemma {:induction false} ExtendShape<T>(heads: seq<T>, tails: seq<seq<T>>)
    ensures forall t :: t in Extend(heads, tails) ==> |t| >= 1 && t[0] in heads && t[1..] in tails
  {
    if heads != [] {
      var block := PrependEach(heads[0], tails);
      forall t | t in block ensures |t| >= 1 && t[0] in heads && t[1..] in tails {
        var i :| 0 <= i < |block| && block[i] == t;
        assert t[1..] == tails[i];
      }
      ExtendShape(heads[1..], tails);
    }
  }

  /** `lists[0].product(*lists[1..])`: every tuple taking one element from
      each list, the first list varying slowest. */
  function Product<T>(lists: seq<seq<T>>): (r: seq<seq<T>>)
    ensures forall t :: t in r ==> |t| == |lists|
  {
    if lists == [] then [[]]
    else
      ExtendShape(lists[0], Product(lists[1..]));
      Extend(lists[0], Product(lists[1..]))
  }

  function SizeProduct<T>(lists: seq<seq<T>>): nat
  {
    if lists == [] then 1 else |lists[0]| * SizeProduct(lists[1..])
  }

  lemma {:induction false} ExtendSize<T>(heads: seq<T>, tails: seq<seq<T>>)
    ensures |Extend(heads, tails)| == |heads| * |tails|
  {
    if heads != [] {
      ExtendSize(heads[1..], tails);
    }
  }

  /** The product has as many tuples as the sizes of the lists multiplied. */
  lemma {:induction false} ProductSize<T>(lists: seq<seq<T>>)
    ensures |Product(lists)| == SizeProduct(lists)
  {
    if lists != [] {
      ProductSize(lists[1..]);
      ExtendSize(lists[0], Product(lists[1..]));
    }
  }

  lemma {:induction false} ExtendMember<T>(heads: seq<T>, tails: seq<seq<T>>, a: nat, u: seq<T>)
    requires a < |heads| && u in tails
    ensures [heads[a]] + u in Extend(heads, tails)
  {
    if a == 0 {
      var i :| 0 <= i < |tails| && tails[i] == u;
      assert PrependEach(heads[0], tails)[i] == [heads[a]] + u;
    } else {
      ExtendMember(heads[1..], tails, a - 1, u);
    }
  }

  /** Every tuple of the product has one entry per list, taken from that
      list. */
  lemma {:induction false} ProductSound<T>(lists: seq<seq<T>>, t: seq<T>)
    requires t in Product(lists)
    ensures |t| == |lists| && forall j :: 0 <= j < |lists| ==> t[j] in lists[j]
  {
    if lists != [] {
      var rest := lists[1..];
      ExtendShape(lists[0], Product(rest));
      ProductSound(rest, t[1..]);
      forall j | 0 <= j < |lists| ensures t[j] in lists[j] {
        if j > 0 {
          assert t[j] == t[1..][j - 1] && lists[j] == rest[j - 1];
        }
      }
    }
  }

  /** Every tuple with one entry per list, taken from that list, is in the
      product. */
  lemma {:induction false} ProductComplete<T>(lists: seq<seq<T>>, t: seq<T>)
    requires |t| == |lists| && forall j :: 0 <= j < |lists| ==> t[j] in lists[j]
    ensures t in Product(lists)
  {
    if lists == [] {
      assert t == [];
    } else {
      var rest := lists[1..];
      ChoiceTail(lists, t);
      var tails := Product(rest);
      ProductComplete(rest, t[1..]);
      assert t[0] in lists[0];
      var a :| 0 <= a < |lists[0]| && lists[0][a] == t[0];
      ExtendMember(lists[0], tails, a, t[1..]);
      assert [t[0]] + t[1..] == t;
      assert Product(lists) == Extend(lists[0], tails);
    }
  }

  /** Dropping the first list and the first entry keeps a valid choice. */
  lemma ChoiceTail<T>(lists: seq<seq<T>>, t: seq<T>)
    requires |t| == |lists| >= 1 && forall j :: 0 <= j < |lists| ==> t[j] in lists[j]
    ensures |t[1..]| == |lists[1..]| && forall j :: 0 <= j < |lists[1..]| ==> t[1..][j] in lists[1..][j]
  {
    forall j | 0 <= j < |lists[1..]| ensures t[1..][j] in lists[1..][j] {
      assert t[1..][j] == t[j + 1];
    }
  }

  lemma {:induction false} ExtendIndex<T>(heads: seq<T>, tails: seq<seq<T>>, a: nat, b: nat)
    requires a < |heads| && b < |tails|
    ensures a * |tails| + b < |Extend(heads, tails)|
    ensures Extend(heads, tails)[a * |tails| + b] == [heads[a]] + tails[b]
  {
    var block := PrependEach(heads[0], tails);
    if a > 0 {
      ExtendIndex(heads[1..], tails, a - 1, b);
      assert a * |tails| + b == |block| + ((a - 1) * |tails| + b);
    }
  }

  /** The first list varies slowest: the tuple at position `a * M + b`,
      where `M` is the size of the product of the other lists, takes entry
      `a` of the first list followed by tuple `b` of the rest. */
  lemma ProductOrder<T>(lists: seq<seq<T>>, a: nat, b: nat, m: nat, i: nat)
    requires |lists| >= 1 && m == |Product(lists[1..])|
    requires a < |lists[0]| && b < m && i == a * m + b
    ensures i < |Product(lists)| && Product(lists)[i] == [lists[0][a]] + Product(lists[1..])[b]
  {
    ExtendIndex(lists[0], Product(lists[1..]), a, b);
  }

  lemma ConcatNoDuplicates<T>(s: seq<T>, t: seq<T>)
    requires NoDuplicates(s) && NoDuplicates(t)
    requires forall x :: x in s ==> x !in t
    ensures NoDuplicates(s + t)
  {
    var u := s + t;
    forall a, b | 0 <= a < b < |u| ensures u[a] != u[b] {
      if a < |s| && b >= |s| {
        assert u[a] in s && u[b] == t[b - |s|];
      } else if a >= |s| {
        assert u[a] == t[a - |s|] && u[b] == t[b - |s|];
      }
    }
  }

  lemma {:induction false} ExtendNoDuplicates<T>(heads: seq<T>, tails: seq<seq<T>>)
    requires NoDuplicates(heads) && NoDuplicates(tails)
    ensures NoDuplicates(Extend(heads, tails))
  {
    if heads != [] {
      var block := PrependEach(heads[0], tails);
      var rest := Extend(heads[1..], tails);
      forall a, b | 0 <= a < b < |block| ensures block[a] != block[b] {
        assert block[a][1..] == tails[a] && block[b][1..] == tails[b];
      }
      ExtendShape(heads[1..], tails);
      forall x | x in block ensures x !in rest {
        var i :| 0 <= i < |block| && block[i] == x;
        assert x[0] == heads[0];
      }
      ExtendNoDuplicates(heads[1..], tails);
      ConcatNoDuplicates(block, rest);
    }
  }

  /** Lists without repeats give a product without repeats. */
  lemma {:induction false} ProductNoDuplicates<T>(lists: seq<seq<T>>)
    requires forall j :: 0 <= j < |lists| ==> NoDuplicates(lists[j])
    ensures NoDuplicates(Product(lists))
  {
    if lists != [] {
      ProductNoDuplicates(lists[1..]);
      ExtendNoDuplicates(lists[0], Product(lists[1..]));
    }
  }

  // ---------------------------------------------------------------------
  // generate_all_combinations

  /** `names.zip(values).to_h` for equally long sequences. */
  function Zip(names: seq<string>, values: seq<Allocation>): Combination
    requires |names| == |values|
  {
    seq(|names|, j requires 0 <= j < |names| => (names[j], values[j]))
  }

  /** The group names of the table, in order. */
  function Names(groups: seq<Group>): seq<string>
  {
    seq(|groups|, j requires 0 <= j < |groups| => groups[j].name)
  }

  /** The per-group allocation lists of `combination_by_group`, in order. */
  function AllocationLists(groups: seq<Group>, n: nat): seq<seq<Allocation>>
    requires PositiveCounts(groups)
  {
    var byGroup := CombinationByGroup(groups, n);
    seq(|byGroup|, j requires 0 <= j < |byGroup| => byGroup[j].1)
  }

  /** Lines 20-25 of `generate_all_combinations`: the product of the
      per-group allocation lists, each tuple zipped with the group names.
      The source fails on an empty table (`nil.product`), hence the
      requirement of at least one group. */
  function AllCombinations(groups: seq<Group>, n: nat): seq<Combination>
    requires |groups| >= 1 && PositiveCounts(groups)
  {
    ZipEach(Names(groups), Product(AllocationLists(groups, n)))
  }

  /** Every tuple zipped with the names. */
  function ZipEach(names: seq<string>, tuples: seq<seq<Allocation>>): (r: seq<Combination>)
    requires forall t :: t in tuples ==> |t| == |names|
    ensures |r| == |tuples|
  {
    if tuples == [] then [] else [Zip(names, tuples[0])] + ZipEach(names, tuples[1..])
  }

  lemma {:induction false} ZipEachAt(names: seq<string>, tuples: seq<seq<Allocation>>, i: nat)
    requires forall t :: t in tuples ==> |t| == |names|
    requires i < |tuples|
    ensures |tuples[i]| == |names| && ZipEach(names, tuples)[i] == Zip(names, tuples[i])
  {
    assert tuples[i] in tuples;
    if i > 0 {
      ZipEachAt(names, tuples[1..], i - 1);
    }
  }

  /** The number of combinations: the product over the groups of
      C(n + k - 1, k - 1) for a group of `k` slots. */
  function CombinationCount(groups: seq<Group>, n: nat): nat
    requires PositiveCounts(groups)
  {
    if groups == [] then 1
    else Binomial(n + groups[0].slots - 1, groups[0].slots - 1) * CombinationCount(groups[1..], n)
  }

  lemma {:induction false} AllocationListsSize(groups: seq<Group>, n: nat)
    requires PositiveCounts(groups)
    ensures SizeProduct(AllocationLists(groups, n)) == CombinationCount(groups, n)
  {
    if groups != [] {
      AllocationListsSize(groups[1..], n);
      assert AllocationLists(groups, n)[1..] == AllocationLists(groups[1..], n);
      GenerateCombinationCount(n, groups[0].slots);
    }
  }

  /** `generate_all_combinations` yields one combination per element of the
      cartesian product: their number is the product of the per-group
      counts (3 * 3 * 1 = 9 for the source's test template and `n = 2`). */
  lemma AllCombinationsCount(groups: seq<Group>, n: nat)
    requires |groups| >= 1 && PositiveCounts(groups)
    ensures |AllCombinations(groups, n)| == CombinationCount(groups, n)
  {
    ProductSize(AllocationLists(groups, n));
    AllocationListsSize(groups, n);
  }

  /** A well-shaped combination: every group, in table order, with an
      allocation of `n` over that group's slots. */
  predicate IsCombinationOf(c: Combination, groups: seq<Group>, n: nat)
  {
    |c| == |groups| &&
    forall j :: 0 <= j < |groups| ==> c[j].0 == groups[j].name && IsComposition(c[j].1, n, groups[j].slots)
  }

  /** The combination at position `i` zips the names with tuple `i` of the
      product. */
  lemma AllCombinationsAt(groups: seq<Group>, n: nat, i: nat)
    requires |groups| >= 1 && PositiveCounts(groups)
    requires i < |AllCombinations(groups, n)|
    ensures var t := Product(AllocationLists(groups, n))[i];
            |t| == |groups| && AllCombinations(groups, n)[i] == Zip(Names(groups), t)
  {
    ZipEachAt(Names(groups), Product(AllocationLists(groups, n)), i);
  }

  /** Every combination produced has all group names, in table order, each
      with an allocation of `n` over that group's slots. */
  lemma AllCombinationsSound(groups: seq<Group>, n: nat, c: Combination)
    requires |groups| >= 1 && PositiveCounts(groups)
    requires c in AllCombinations(groups, n)
    ensures IsCombinationOf(c, groups, n)
  {
    var lists := AllocationLists(groups, n);
    var combos := AllCombinations(groups, n);
    var i :| 0 <= i < |combos| && combos[i] == c;
    var t := Product(lists)[i];
    AllCombinationsAt(groups, n, i);
    assert t in Product(lists);
    ProductSound(lists, t);
    forall j | 0 <= j < |groups| ensures c[j].0 == groups[j].name && IsComposition(c[j].1, n, groups[j].slots) {
      assert c[j] == (groups[j].name, t[j]);
      assert t[j] in GenerateCombination(n, groups[j].slots);
      GenerateCombinationSound(n, groups[j].slots);
    }
  }

  /** Every combination with all group names, in table order, each with an
      allocation of `n` over that group's slots, is produced. */
  lemma AllCombinationsComplete(groups: seq<Group>, n: nat, c: Combination)
    requires |groups| >= 1 && PositiveCounts(groups)
    requires IsCombinationOf(c, groups, n)
    ensures c in AllCombinations(groups, n)
  {
    var lists := AllocationLists(groups, n);
    var values := seq(|c|, j requires 0 <= j < |c| => c[j].1);
    forall j | 0 <= j < |groups| ensures values[j] in lists[j] {
      GenerateCombinationComplete(n, groups[j].slots, c[j].1);
    }
    ProductComplete(lists, values);
    var i :| 0 <= i < |Product(lists)| && Product(lists)[i] == values;
    AllCombinationsAt(groups, n, i);
    assert AllCombinations(groups, n)[i] == c;
  }

  /** No combination is produced twice. */
  lemma AllCombinationsNoDuplicates(groups: seq<Group>, n: nat)
    requires |groups| >= 1 && PositiveCounts(groups)
    ensures NoDuplicates(AllCombinations(groups, n))
  {
    var lists := AllocationLists(groups, n);
    var tuples: seq<seq<Allocation>> := Product(lists);
    var combos: seq<Combination> := AllCombinations(groups, n);
    forall j | 0 <= j < |lists| ensures NoDuplicates(lists[j]) {
      GenerateCombinationDistinct(n, groups[j].slots);
    }
    ProductNoDuplicates(lists);
    forall a, b | 0 <= a < b < |combos| ensures combos[a] != combos[b] {
      AllCombinationsAt(groups, n, a);
      AllCombinationsAt(groups, n, b);
      assert tuples[a] != tuples[b];
      var j :| 0 <= j < |groups| && tuples[a][j] != tuples[b][j];
      assert combos[a][j].1 != combos[b][j].1;
    }
  }

  /** The first group varies slowest: with `M` the number of combinations
      of the other groups, the combination at position `i = a * M + b` takes
      allocation `a` of the first group followed by combination `b` of the
      other groups. */
  lemma AllCombinationsOrder(groups: seq<Group>, n: nat, a: nat, b: nat, m: nat, i: nat)
    requires |groups| >= 2 && PositiveCounts(groups)
    requires m == |AllCombinations(groups[1..], n)|
    requires a < |GenerateCombination(n, groups[0].slots)| && b < m && i == a * m + b
    ensures i < |AllCombinations(groups, n)|
    ensures AllCombinations(groups, n)[i]
              == [(groups[0].name, GenerateCombination(n, groups[0].slots)[a])] + AllCombinations(groups[1..], n)[b]
  {
    var lists, rest := AllocationLists(groups, n), groups[1..];
    AllocationListsTail(groups, n);
    var tail := Product(lists[1..]);
    assert |tail| == m;
    ProductOrder(lists, a, b, m, i);
    var t := Product(lists)[i];
    calc {
      AllCombinations(groups, n)[i];
    == { AllCombinationsAt(groups, n, i); }
      Zip(Names(groups), t);
    == { ZipCons(Names(groups), lists[0][a], tail[b]); }
      [(groups[0].name, lists[0][a])] + Zip(Names(rest), tail[b]);
    == { AllCombinationsAt(rest, n, b); }
      [(groups[0].name, GenerateCombination(n, groups[0].slots)[a])] + AllCombinations(rest, n)[b];
    }
  }

  /** The first group's names and allocations head the table's; the other
      groups' follow. */
  lemma AllocationListsTail(groups: seq<Group>, n: nat)
    requires |groups| >= 2 && PositiveCounts(groups)
    ensures AllocationLists(groups, n)[1..] == AllocationLists(groups[1..], n)
    ensures AllocationLists(groups, n)[0] == GenerateCombination(n, groups[0].slots)
    ensures Names(groups)[1..] == Names(groups[1..]) && Names(groups)[0] == groups[0].name
  {
    assert AllocationLists(groups, n)[1..] == AllocationLists(groups[1..], n);
    assert Names(groups)[1..] == Names(groups[1..]);
  }

  lemma ZipCons(names: seq<string>, x: Allocation, u: seq<Allocation>)
    requires |names| == |u| + 1
    ensures Zip(names, [x] + u) == [(names[0], x)] + Zip(names[1..], u)
  {
  }

  /** With a single group, the combinations are its allocations in order. */
  lemma AllCombinationsSingle(g: Group, n: nat)
    requires g.slots >= 1
    ensures |AllCombinations([g], n)| == |GenerateCombination(n, g.slots)|
    ensures forall a :: 0 <= a < |GenerateCombination(n, g.slots)| ==>
              AllCombinations([g], n)[a] == [(g.name, GenerateCombination(n, g.slots)[a])]
  {
    var lists, gs := AllocationLists([g], n), GenerateCombination(n, g.slots);
    assert lists[1..] == [] && lists[0] == gs;
    var tails := Product(lists[1..]);
    assert tails == [[]];
    ExtendSize(gs, tails);
    forall a | 0 <= a < |gs|
      ensures AllCombinations([g], n)[a] == [(g.name, gs[a])]
    {
      ExtendIndex(gs, tails, a, 0);
      AllCombinationsAt([g], n, a);
    }
  }

  /** `generate_all_combinations(input_arrays, n)`: reads the group table
      of the template, then builds every combination. */
  method GenerateAllCombinations(rows: seq<Row>, n: nat) returns (combos: seq<Combination>)
    requires |rows| >= 1 && WellFormedTemplate(rows)
    requires PositiveCounts(CountByGroup(Ids(rows)))
    ensures combos == AllCombinations(CountByGroup(Ids(rows)), n)
  {
    var groups := ReadCountByGroup(rows);
    GroupNamesMembers(Ids(rows));
    assert Ids(rows)[0].group in GroupNames(Ids(rows));
    combos := AllCombinations(groups, n);
  }
}
