/** The concrete scenarios of the source's own tests, stated against the
    model: the five-row template `A1, A2, B1, B2, C1` with a quota of 2. */
module Scenarios {
  import opened Text
  import opened Compositions
  import opened Template
  import opened Combinations
  import opened CsvOutput

  /** The group table `{A => 2, B => 2, C => 1}`. */
  predicate IsExampleTable(groups: seq<Group>)
  {
    groups == [Group("A", 2), Group("B", 2), Group("C", 1)]
  }

  /** `combination_by_group({A => 2, B => 2, C => 1}, 2)`. */
  lemma CombinationByGroupExample(groups: seq<Group>)
    requires IsExampleTable(groups)
    ensures PositiveCounts(groups)
    ensures CombinationByGroup(groups, 2)
              == [("A", [[2, 0], [1, 1], [0, 2]]), ("B", [[2, 0], [1, 1], [0, 2]]), ("C", [[2]])]
  {
    GenerateCombinationSmallExamples(2);
    var byGroup := CombinationByGroup(groups, 2);
    assert byGroup[0] == ("A", [[2, 0], [1, 1], [0, 2]]);
    assert byGroup[1] == ("B", [[2, 0], [1, 1], [0, 2]]);
    assert byGroup[2] == ("C", [[2]]);
  }

  /** A single group of one slot: its one combination takes the whole
      quota. */
  lemma SingleSlotCombinations(g: Group, n: nat)
    requires g.slots == 1
    ensures AllCombinations([g], n) == [[(g.name, [n])]]
  {
    GenerateCombinationSmallExamples(n);
    AllCombinationsSingle(g, n);
  }

  /** `{B => 2, C => 1}` with a quota of 2 has three combinations. */
  lemma TailCount(groups: seq<Group>)
    requires groups == [Group("B", 2), Group("C", 1)]
    ensures PositiveCounts(groups) && |AllCombinations(groups, 2)| == 3
  {
    var last := groups[1..];
    AllCombinationsCount(groups, 2);
    BinomialOne(3);
    assert CombinationCount(groups, 2) == Binomial(3, 1) * CombinationCount(last, 2);
    assert CombinationCount(last, 2) == Binomial(2, 0) * CombinationCount([], 2);
    assert Binomial(2, 0) == 1 && CombinationCount([], 2) == 1;
    assert CombinationCount(last, 2) == 1;
  }

  /** The combinations of the two trailing groups `{B => 2, C => 1}`. */
  lemma TailCombinations(groups: seq<Group>)
    requires groups == [Group("B", 2), Group("C", 1)]
    ensures PositiveCounts(groups)
    ensures AllCombinations(groups, 2)
              == [[("B", [2, 0]), ("C", [2])], [("B", [1, 1]), ("C", [2])], [("B", [0, 2]), ("C", [2])]]
  {
    var c: Allocation := [2];
    var last := groups[1..];
    assert last == [last[0]] && last[0] == Group("C", 1);
    SingleSlotCombinations(last[0], 2);
    GenerateCombinationSmallExamples(2);
    TailCount(groups);
    var combos := AllCombinations(groups, 2);
    BlockEntry(groups, 0, 0, 1, 0, [2, 0], [("C", c)]);
    BlockEntry(groups, 1, 0, 1, 1, [1, 1], [("C", c)]);
    BlockEntry(groups, 2, 0, 1, 2, [0, 2], [("C", c)]);
    ConsOne(combos[0], ("B", [2, 0]), ("C", c));
    ConsOne(combos[1], ("B", [1, 1]), ("C", c));
    ConsOne(combos[2], ("B", [0, 2]), ("C", c));
    ThreeEntries(combos, [("B", [2, 0]), ("C", c)], [("B", [1, 1]), ("C", c)], [("B", [0, 2]), ("C", c)]);
  }

  /** An entry in front of a one-entry sequence makes a two-entry one. */
  lemma ConsOne<T>(s: seq<T>, e0: T, e1: T)
    requires s == [e0] + [e1]
    ensures s == [e0, e1]
  {
  }

  /** A sequence of three entries is the display of those entries. */
  lemma ThreeEntries<T>(s: seq<T>, e0: T, e1: T, e2: T)
    requires |s| == 3 && s[0] == e0 && s[1] == e1 && s[2] == e2
    ensures s == [e0, e1, e2]
  {
  }

  /** `{A => 2, B => 2, C => 1}` with a quota of 2 has nine combinations. */
  lemma ExampleCount(groups: seq<Group>)
    requires IsExampleTable(groups)
    ensures PositiveCounts(groups) && |AllCombinations(groups, 2)| == 9
  {
    var rest := groups[1..];
    TailCount(rest);
    AllCombinationsCount(rest, 2);
    AllCombinationsCount(groups, 2);
    BinomialOne(3);
    assert CombinationCount(groups, 2) == Binomial(3, 1) * CombinationCount(rest, 2);
  }

  /** Entry `i == 3 * a + b` of the example, written out: allocation `x`
      (allocation `a` of the two slots of group `A`), then the entries of
      combination `b` of the other groups, here `B` with `y` and `C` with
      `[2]`. */
  lemma ExampleEntry(groups: seq<Group>, a: nat, b: nat, i: nat, x: Allocation, y: Allocation)
    requires |groups| >= 2 && PositiveCounts(groups) && groups[0] == Group("A", 2)
    requires |GenerateCombination(2, 2)| == 3 && a < 3 && GenerateCombination(2, 2)[a] == x
    requires |AllCombinations(groups[1..], 2)| == 3 && b < 3
    requires AllCombinations(groups[1..], 2)[b] == [("B", y), ("C", [2])]
    requires i == 3 * a + b
    ensures i < |AllCombinations(groups, 2)|
    ensures AllCombinations(groups, 2)[i] == [("A", x), ("B", y), ("C", [2])]
  {
    BlockEntry(groups, a, b, 3, i, x, AllCombinations(groups[1..], 2)[b]);
    ConsPair(AllCombinations(groups, 2)[i], ("A", x), AllCombinations(groups[1..], 2)[b], ("B", y), ("C", [2]));
  }

  /** Entry `i == a * m + b` of a table whose first group has two slots:
      allocation `x` (allocation `a` of the quota 2) for the first group,
      then combination `r` (combination `b` of the `m` of the other
      groups). */
  lemma BlockEntry(groups: seq<Group>, a: nat, b: nat, m: nat, i: nat, x: Allocation, r: Combination)
    requires |groups| >= 2 && PositiveCounts(groups) && groups[0].slots == 2
    requires |GenerateCombination(2, 2)| == 3 && a < 3 && GenerateCombination(2, 2)[a] == x
    requires m == |AllCombinations(groups[1..], 2)| && b < m && AllCombinations(groups[1..], 2)[b] == r
    requires i == a * m + b
    ensures i < |AllCombinations(groups, 2)| && AllCombinations(groups, 2)[i] == [(groups[0].name, x)] + r
  {
    AllCombinationsOrder(groups, 2, a, b, m, i);
  }

  /** An entry in front of a two-entry sequence makes a three-entry one. */
  lemma ConsPair<T>(s: seq<T>, e0: T, t: seq<T>, e1: T, e2: T)
    requires s == [e0] + t && t == [e1, e2]
    ensures s == [e0, e1, e2]
  {
  }

  /** `generate_all_combinations` on the example template with a quota of
      2: the nine hashes of the source's test, in its order. */
  lemma AllCombinationsExample(groups: seq<Group>)
    requires IsExampleTable(groups)
    ensures PositiveCounts(groups)
    ensures AllCombinations(groups, 2) == [
              [("A", [2, 0]), ("B", [2, 0]), ("C", [2])],
              [("A", [2, 0]), ("B", [1, 1]), ("C", [2])],
              [("A", [2, 0]), ("B", [0, 2]), ("C", [2])],
              [("A", [1, 1]), ("B", [2, 0]), ("C", [2])],
              [("A", [1, 1]), ("B", [1, 1]), ("C", [2])],
              [("A", [1, 1]), ("B", [0, 2]), ("C", [2])],
              [("A", [0, 2]), ("B", [2, 0]), ("C", [2])],
              [("A", [0, 2]), ("B", [1, 1]), ("C", [2])],
              [("A", [0, 2]), ("B", [0, 2]), ("C", [2])]]
    ensures AllCombinations(groups, 2)[0] == [("A", [2, 0]), ("B", [2, 0]), ("C", [2])]
    ensures AllCombinations(groups, 2)[8] == [("A", [0, 2]), ("B", [0, 2]), ("C", [2])]
  {
    ExampleCount(groups);
    TailCombinations(groups[1..]);
    GenerateCombinationSmallExamples(2);
    ExampleEntry(groups, 0, 0, 0, [2, 0], [2, 0]);
    ExampleEntry(groups, 0, 1, 1, [2, 0], [1, 1]);
    ExampleEntry(groups, 0, 2, 2, [2, 0], [0, 2]);
    ExampleEntry(groups, 1, 0, 3, [1, 1], [2, 0]);
    ExampleEntry(groups, 1, 1, 4, [1, 1], [1, 1]);
    ExampleEntry(groups, 1, 2, 5, [1, 1], [0, 2]);
    ExampleEntry(groups, 2, 0, 6, [0, 2], [2, 0]);
    ExampleEntry(groups, 2, 1, 7, [0, 2], [1, 1]);
    ExampleEntry(groups, 2, 2, 8, [0, 2], [0, 2]);
    NineEntries(AllCombinations(groups, 2),
      [("A", [2, 0]), ("B", [2, 0]), ("C", [2])], [("A", [2, 0]), ("B", [1, 1]), ("C", [2])],
      [("A", [2, 0]), ("B", [0, 2]), ("C", [2])], [("A", [1, 1]), ("B", [2, 0]), ("C", [2])],
      [("A", [1, 1]), ("B", [1, 1]), ("C", [2])], [("A", [1, 1]), ("B", [0, 2]), ("C", [2])],
      [("A", [0, 2]), ("B", [2, 0]), ("C", [2])], [("A", [0, 2]), ("B", [1, 1]), ("C", [2])],
      [("A", [0, 2]), ("B", [0, 2]), ("C", [2])]);
  }

  /** A sequence of nine entries is the display of those entries. */
  lemma NineEntries<T>(s: seq<T>, e0: T, e1: T, e2: T, e3: T, e4: T, e5: T, e6: T, e7: T, e8: T)
    requires |s| == 9
    requires s[0] == e0 && s[1] == e1 && s[2] == e2
    requires s[3] == e3 && s[4] == e4 && s[5] == e5
    requires s[6] == e6 && s[7] == e7 && s[8] == e8
    ensures s == [e0, e1, e2, e3, e4, e5, e6, e7, e8]
  {
    var t := [e0, e1, e2, e3, e4, e5, e6, e7, e8];
    forall i | 0 <= i < 9 ensures s[i] == t[i] {
      if i < 3 {
        assert i == 0 || i == 1 || i == 2;
      } else if i < 6 {
        assert i == 3 || i == 4 || i == 5;
      } else {
        assert i == 6 || i == 7 || i == 8;
      }
    }
  }

  // ---------------------------------------------------------------------
  // generate_csv on the test template

  /** A five-row template whose ID fields read `A1, A2, B1, B2, C1` and
      whose third field reads `test`, once stripped. */
  predicate IsExampleInput(rows: seq<Row>)
  {
    && |rows| == 5
    && (forall i :: 0 <= i < 5 ==> |rows[i]| == 3 && Strip(rows[i][2]) == "test")
    && Strip(rows[0][0]) == "A1" && Strip(rows[1][0]) == "A2" && Strip(rows[2][0]) == "B1"
    && Strip(rows[3][0]) == "B2" && Strip(rows[4][0]) == "C1"
  }

  /** A field reading `"<name><index>"` once stripped, for a one-letter
      name and a one-digit index, parses to that name and index: the
      whitespace around it holds no capital and no digit. */
  lemma ParseShortId(name: string, index: nat, field: string)
    requires |name| == 1 && IsUpper(name[0]) && 1 <= index <= 9
    requires Strip(field) == name + [DigitChar(index)]
    ensures ParseId(field) == Some(SlotId(name, index))
  {
    var r := Strip(field);
    var i := |field| - |TrimStart(field)|;
    StripKeepsMiddle(field);
    var pad, rest := field[..i], field[i + |r|..];
    assert field == pad + r + rest;
    assert forall k :: 0 <= k < |pad| ==> IsStripSpace(pad[k]);
    assert rest != [] ==> IsStripSpace(rest[0]);
    assert DecimalString(index) == [DigitChar(index)];
    assert forall k :: 0 <= k < |pad| ==> !IsUpper(pad[k]);
    ParseIdRoundTrip(pad, name, DecimalString(index), rest);
    DigitsValueOfDecimal(index);
    assert pad + name + DecimalString(index) + rest == field;
  }

  /** The example input parses to the slot IDs `A1, A2, B1, B2, C1`. */
  lemma ExampleInputIds(rows: seq<Row>)
    requires IsExampleInput(rows)
    ensures WellFormedTemplate(rows) && IsExampleTemplate(Ids(rows))
  {
    var expected := [SlotId("A", 1), SlotId("A", 2), SlotId("B", 1), SlotId("B", 2), SlotId("C", 1)];
    forall i | 0 <= i < 5 ensures |rows[i]| > 0 && ParseId(rows[i][0]) == Some(expected[i]) {
      var name, index := expected[i].group, expected[i].index;
      assert |name| == 1 && IsUpper(name[0]) && 1 <= index <= 9 && Strip(rows[i][0]) == name + [DigitChar(index)] by {
        if i == 0 {} else if i == 1 {} else if i == 2 {} else if i == 3 {} else {}
      }
      ParseShortId(name, index, rows[i][0]);
    }
    assert Ids(rows) == expected;
  }

  /** The name of a file of the example: `A<x>_B<y>_C2.csv`. */
  lemma ExampleFileName(x: Allocation, y: Allocation)
    ensures FileName([("A", x), ("B", y), ("C", [2])])
              == "A" + Concat(Digits(x)) + "_" + ("B" + Concat(Digits(y)) + "_" + "C2") + ".csv"
  {
    var c: Combination := [("A", x), ("B", y), ("C", [2])];
    var parts := FileParts(c);
    assert Concat(Digits([2])) == "2" by {
      assert DecimalString(2) == "2";
      assert Digits([2]) == ["2"];
      assert Concat(["2"]) == "2" + Concat([]);
    }
    assert parts[0] == "A" + Concat(Digits(x)) && parts[1] == "B" + Concat(Digits(y)) && parts[2] == "C" + "2";
    assert "C" + "2" == "C2";
    assert parts[1..][1..] == ["C2"];
    assert Join(parts[1..], "_") == "B" + Concat(Digits(y)) + "_" + "C2";
    assert Join(parts, "_") == "A" + Concat(Digits(x)) + "_" + ("B" + Concat(Digits(y)) + "_" + "C2");
  }

  lemma TwoDigitsRendering(d: nat, e: nat)
    requires d < 10 && e < 10
    ensures Concat(Digits([d, e])) == [DigitChar(d), DigitChar(e)]
  {
    SingleDigitConcat([d, e]);
  }

  /** A three-field row is written as its stripped ID, the value and its
      stripped third field. */
  lemma WrittenThreeFields(cols: Row, value: string)
    requires |cols| == 3
    ensures WrittenRow(cols, value) == [Strip(cols[0]), value, Strip(cols[2])]
  {
  }

  /** Row `i` of a file of the example: its ID, its number, and `test`. */
  lemma ExampleRow(rows: seq<Row>, numbers: seq<nat>, i: nat)
    requires IsExampleInput(rows) && i < 5 && i < |numbers| && numbers[i] < 10
    ensures WrittenRows(rows, numbers)[i] == [Strip(rows[i][0]), [DigitChar(numbers[i])], "test"]
  {
    assert NumberField(numbers, i) == [DigitChar(numbers[i])];
    WrittenThreeFields(rows[i], NumberField(numbers, i));
  }

  /** The rows of a file of the example: each ID, its number, and `test`. */
  lemma ExampleRows(rows: seq<Row>, numbers: seq<nat>)
    requires IsExampleInput(rows) && |numbers| == 5 && forall i :: 0 <= i < 5 ==> numbers[i] < 10
    ensures WrittenRows(rows, numbers) == [
              ["A1", [DigitChar(numbers[0])], "test"],
              ["A2", [DigitChar(numbers[1])], "test"],
              ["B1", [DigitChar(numbers[2])], "test"],
              ["B2", [DigitChar(numbers[3])], "test"],
              ["C1", [DigitChar(numbers[4])], "test"]]
  {
    ExampleRow(rows, numbers, 0);
    ExampleRow(rows, numbers, 1);
    ExampleRow(rows, numbers, 2);
    ExampleRow(rows, numbers, 3);
    ExampleRow(rows, numbers, 4);
    FiveEntries(WrittenRows(rows, numbers),
      ["A1", [DigitChar(numbers[0])], "test"],
      ["A2", [DigitChar(numbers[1])], "test"],
      ["B1", [DigitChar(numbers[2])], "test"],
      ["B2", [DigitChar(numbers[3])], "test"],
      ["C1", [DigitChar(numbers[4])], "test"]);
  }

  /** A sequence of five entries is the display of those entries. */
  lemma FiveEntries<T>(s: seq<T>, e0: T, e1: T, e2: T, e3: T, e4: T)
    requires |s| == 5
    requires s[0] == e0 && s[1] == e1 && s[2] == e2 && s[3] == e3 && s[4] == e4
    ensures s == [e0, e1, e2, e3, e4]
  {
    var t := [e0, e1, e2, e3, e4];
    forall i | 0 <= i < 5 ensures s[i] == t[i] {
      assert i == 0 || i == 1 || i == 2 || i == 3 || i == 4;
    }
  }

  /** The file written for the combination `{A => x, B => y, C => [2]}` of
      the example, for two-slot allocations of single digits. */
  lemma ExampleFile(rows: seq<Row>, x: Allocation, y: Allocation)
    requires IsExampleInput(rows)
    requires |x| == 2 && |y| == 2 && x[0] < 10 && x[1] < 10 && y[0] < 10 && y[1] < 10
    ensures FileFor(rows, [("A", x), ("B", y), ("C", [2])]) == OutputFile(
              "A" + [DigitChar(x[0]), DigitChar(x[1])] + "_" + ("B" + [DigitChar(y[0]), DigitChar(y[1])] + "_" + "C2") + ".csv",
              [["A1", [DigitChar(x[0])], "test"],
               ["A2", [DigitChar(x[1])], "test"],
               ["B1", [DigitChar(y[0])], "test"],
               ["B2", [DigitChar(y[1])], "test"],
               ["C1", ['2'], "test"]])
  {
    var c: Combination := [("A", x), ("B", y), ("C", [2])];
    assert x == [x[0], x[1]] && y == [y[0], y[1]];
    TwoDigitsRendering(x[0], x[1]);
    TwoDigitsRendering(y[0], y[1]);
    ExampleFileName(x, y);
    var numbers := Flatten(c);
    var c1, c2 := c[1..], c[1..][1..];
    assert c1 == [("B", y), ("C", [2])] && c2 == [("C", [2])] && c2[1..] == [];
    assert Flatten(c2) == [2] + Flatten(c2[1..]);
    assert Flatten(c1) == y + Flatten(c2);
    assert numbers == x + Flatten(c1);
    assert numbers == [x[0], x[1], y[0], y[1], 2];
    ExampleRows(rows, numbers);
  }

  /** The combinations behind the example's files: nine, all with
      distinct file names, the first `{A => [2, 0], B => [2, 0], C => [2]}`
      and the last `{A => [0, 2], B => [0, 2], C => [2]}`. */
  lemma ExampleCombinations(rows: seq<Row>)
    requires IsExampleInput(rows)
    ensures WellFormedTemplate(rows) && PositiveCounts(CountByGroup(Ids(rows)))
    ensures var combos := AllCombinations(CountByGroup(Ids(rows)), 2);
            && |combos| == 9
            && NoDuplicates(FileNames(combos))
            && combos[0] == [("A", [2, 0]), ("B", [2, 0]), ("C", [2])]
            && combos[8] == [("A", [0, 2]), ("B", [0, 2]), ("C", [2])]
  {
    ExampleInputIds(rows);
    var groups := CountByGroup(Ids(rows));
    CountByGroupExample(Ids(rows));
    AllCombinationsExample(groups);
    FileNamesDistinct(groups, 2);
  }

  /** `generate_csv` on the test template with a quota of 2: nine files
      with distinct names; the first is `A20_B20_C2.csv` and the last
      `A02_B02_C2.csv`, with the rows the source's test reads back. */
  lemma GenerateCsvExample(rows: seq<Row>)
    requires IsExampleInput(rows)
    ensures WellFormedTemplate(rows) && PositiveCounts(CountByGroup(Ids(rows)))
    ensures var combos := AllCombinations(CountByGroup(Ids(rows)), 2);
            && |combos| == 9
            && NoDuplicates(FileNames(combos))
            && FileFor(rows, combos[0]) == OutputFile("A20_B20_C2.csv", [
                 ["A1", "2", "test"], ["A2", "0", "test"], ["B1", "2", "test"], ["B2", "0", "test"], ["C1", "2", "test"]])
            && FileFor(rows, combos[8]) == OutputFile("A02_B02_C2.csv", [
                 ["A1", "0", "test"], ["A2", "2", "test"], ["B1", "0", "test"], ["B2", "2", "test"], ["C1", "2", "test"]])
  {
    ExampleCombinations(rows);
    var x, z: Allocation := [2, 0], [0, 2];
    ExampleFile(rows, x, x);
    ExampleFile(rows, z, z);
    assert DigitChar(2) == '2' && DigitChar(0) == '0';
    ExampleNames();
  }

  lemma ExampleNames()
    ensures "A" + "20" + "_" + ("B" + "20" + "_" + "C2") + ".csv" == "A20_B20_C2.csv"
    ensures "A" + "02" + "_" + ("B" + "02" + "_" + "C2") + ".csv" == "A02_B02_C2.csv"
  {
  }
}
