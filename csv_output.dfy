/** The writer: `CombinationCsv.write_csv_rows` and the per-combination
    loop of `CombinationCsv.generate_csv`. Every combination becomes one
    output file, named after the combination, that repeats the template
    rows with their fields stripped and field 1 replaced by the row's
    number. The files themselves are not written here: the model returns
    each file's name and the rows the CSV writer receives for it. */
module CsvOutput {
  import opened Text
  import opened Compositions
  import opened Template
  import opened Combinations

  // ---------------------------------------------------------------------
  // write_csv_rows

  /** Field `i` of the numbers as the CSV writer renders it: the decimal
      digits of `numbers[i]`, or an empty field when `numbers` has no entry
      `i` (Ruby's `nil`). */
  function NumberField(numbers: seq<nat>, i: nat): (f: string)
    ensures i < |numbers| ==> |f| >= 1 && AllDigits(f) && DigitsValue(f) == numbers[i]
    ensures i < |numbers| ==> (f[0] == '0' ==> |f| == 1)
    ensures i >= |numbers| ==> f == ""
  {
    if i < |numbers| then
      DigitsValueOfDecimal(numbers[i]);
      DecimalString(numbers[i])
    else ""
  }

  /** The row written for template row `cols`: every field stripped, and
      field 1 set to `value`. Assigning field 1 of a shorter row pads it
      with `nil`, which the CSV writer renders as an empty field. */
  function WrittenRow(cols: Row, value: string): (r: Row)
    ensures |r| == if |cols| < 2 then 2 else |cols|
    ensures r[1] == value
    ensures forall j :: 0 <= j < |r| && j != 1 ==> r[j] == if j < |cols| then Strip(cols[j]) else ""
  {
    var stripped := StripFields(cols);
    if |cols| == 0 then ["", value]
    else if |cols| == 1 then [stripped[0], value]
    else [stripped[0], value] + stripped[2..]
  }

  /** The rows `write_csv_rows` emits, one per template row, in order. */
  function WrittenRows(rows: seq<Row>, numbers: seq<nat>): (out: seq<Row>)
    ensures |out| == |rows|
  {
    seq(|rows|, i requires 0 <= i < |rows| => WrittenRow(rows[i], NumberField(numbers, i)))
  }

  /** `each(&:strip!)`: strips every field of the row in place. */
  method StripEach(fields: array<string>)
    modifies fields
    ensures fields[..] == StripFields(old(fields[..]))
  {
    ghost var cols := fields[..];
    for j := 0 to fields.Length
      invariant forall k :: 0 <= k < j ==> fields[k] == Strip(cols[k])
      invariant forall k :: j <= k < fields.Length ==> fields[k] == cols[k]
    {
      fields[j] := Strip(fields[j]);
    }
  }

  /** One row of the `each_with_index` loop: a shallow copy of the row,
      each field stripped in place, then field 1 assigned. */
  method WriteRow(cols: Row, value: string) returns (out: Row, stripped: Row)
    ensures out == WrittenRow(cols, value)
    ensures stripped == StripFields(cols)
  {
    var fields := new string[|cols|](j requires 0 <= j < |cols| => cols[j]);
    assert fields[..] == cols;
    StripEach(fields);
    stripped := fields[..];
    if fields.Length >= 2 {
      fields[1] := value;
      out := fields[..];
      assert out == [stripped[0], value] + stripped[2..] by {
        assert out[0] == stripped[0] && out[1] == value && out[2..] == stripped[2..];
      }
    } else if fields.Length == 1 {
      out := [fields[0], value];
    } else {
      out := ["", value];
    }
  }

  /** `write_csv_rows(csv, input_arrays, numbers)`: row `i` of the template
      is written with `numbers[i]` in field 1. The copies are shallow, so
      the template is left with every string stripped. */
  method WriteCsvRows(rows: seq<Row>, numbers: seq<nat>) returns (out: seq<Row>, template: seq<Row>)
    ensures out == WrittenRows(rows, numbers)
    ensures template == StripRows(rows)
  {
    out := [];
    template := [];
    ghost var written, stripped := WrittenRows(rows, numbers), StripRows(rows);
    for i := 0 to |rows|
      invariant out == written[..i] && template == stripped[..i]
    {
      var value := NumberField(numbers, i);
      var row, cols := WriteRow(rows[i], value);
      assert written[i] == row && stripped[i] == cols;
      assert written[..i + 1] == written[..i] + [row];
      assert stripped[..i + 1] == stripped[..i] + [cols];
      out := out + [row];
      template := template + [cols];
    }
    assert written[..|rows|] == written && stripped[..|rows|] == stripped;
  }

  /** Every field of a row stripped: `each(&:strip!)`. */
  function StripFields(cols: Row): (r: Row)
    ensures |r| == |cols| && forall j :: 0 <= j < |cols| ==> r[j] == Strip(cols[j])
  {
    seq(|cols|, j requires 0 <= j < |cols| => Strip(cols[j]))
  }

  /** `dup` copies the row but not its strings, so `strip!` also strips the
      template row itself; since stripping is idempotent, a row written
      again from the stripped template is the same row. */
  lemma WrittenRowAfterStripping(cols: Row, value: string)
    ensures WrittenRow(StripFields(cols), value) == WrittenRow(cols, value)
  {
    var a, b := WrittenRow(StripFields(cols), value), WrittenRow(cols, value);
    forall j | 0 <= j < |a| ensures a[j] == b[j] {
      if j != 1 && j < |cols| {
        StripIdempotent(cols[j]);
      }
    }
  }

  /** The template with every field of every row stripped, as the shared
      strings are left after the first file is written. */
  function StripRows(rows: seq<Row>): (r: seq<Row>)
    ensures |r| == |rows| && forall i :: 0 <= i < |rows| ==> r[i] == StripFields(rows[i])
  {
    seq(|rows|, i requires 0 <= i < |rows| => StripFields(rows[i]))
  }

  /** Stripping the stripped template again changes nothing. */
  lemma StripRowsIdempotent(rows: seq<Row>)
    ensures StripRows(StripRows(rows)) == StripRows(rows)
  {
    forall i | 0 <= i < |rows| ensures StripRows(StripRows(rows))[i] == StripRows(rows)[i] {
      forall j | 0 <= j < |rows[i]| ensures StripRows(StripRows(rows))[i][j] == StripRows(rows)[i][j] {
        StripIdempotent(rows[i][j]);
      }
    }
  }

  /** Every later file is written exactly as from the original template. */
  lemma WrittenRowsAfterStripping(rows: seq<Row>, numbers: seq<nat>)
    ensures WrittenRows(StripRows(rows), numbers) == WrittenRows(rows, numbers)
  {
    forall i | 0 <= i < |rows|
      ensures WrittenRows(StripRows(rows), numbers)[i] == WrittenRows(rows, numbers)[i]
    {
      WrittenRowAfterStripping(rows[i], NumberField(numbers, i));
    }
  }

  // ---------------------------------------------------------------------
  // File names

  /** The decimal renderings of the values of an allocation. */
  function Digits(a: Allocation): (parts: seq<string>)
    ensures |parts| == |a|
  {
    seq(|a|, k requires 0 <= k < |a| => DecimalString(a[k]))
  }

  /** `"#{k}#{v.join}"`: the group name followed by the digits of every
      value of its allocation, without separators. */
  function FilePart(name: string, a: Allocation): string
  {
    name + Concat(Digits(a))
  }

  /** The `"#{k}#{v.join}"` part of every group of a combination, in order. */
  function FileParts(c: Combination): (parts: seq<string>)
    ensures |parts| == |c|
  {
    seq(|c|, j requires 0 <= j < |c| => FilePart(c[j].0, c[j].1))
  }

  /** `combination.map { ... }.join('_') + '.csv'`: the group parts joined
      by underscores, with the `.csv` extension. */
  function FileName(c: Combination): string
  {
    Join(FileParts(c), "_") + ".csv"
  }

  /** With every value below ten, the joined digits are one character per
      value, and that character is the value's digit. */
  lemma {:induction false} SingleDigitConcat(a: Allocation)
    requires forall k :: 0 <= k < |a| ==> a[k] < 10
    ensures |Concat(Digits(a))| == |a|
    ensures forall k :: 0 <= k < |a| ==> Concat(Digits(a))[k] == DigitChar(a[k])
  {
    if a != [] {
      SingleDigitConcat(a[1..]);
      assert Digits(a)[1..] == Digits(a[1..]);
    }
  }

  /** The joined digits of a non-empty allocation: its first value's
      digits, then those of the rest. */
  lemma ConcatDigitsCons(a: Allocation)
    requires a != []
    ensures Concat(Digits(a)) == DecimalString(a[0]) + Concat(Digits(a[1..]))
  {
    assert Digits(a)[1..] == Digits(a[1..]);
  }

  /** The joined digits of an allocation are digits only. */
  lemma {:induction false} ConcatDigitsAllDigits(a: Allocation)
    ensures AllDigits(Concat(Digits(a)))
  {
    if a != [] {
      ConcatDigitsAllDigits(a[1..]);
      ConcatDigitsCons(a);
      var d, t := DecimalString(a[0]), Concat(Digits(a[1..]));
      forall k | 0 <= k < |d + t| ensures IsDigit((d + t)[k]) {
        if k >= |d| {
          assert (d + t)[k] == t[k - |d|];
        }
      }
    }
  }

  /** No value of an allocation exceeds the quota it splits. */
  lemma {:induction false} PartAtMostSum(a: seq<nat>, k: nat)
    requires k < |a|
    ensures a[k] <= Sum(a)
  {
    if k > 0 {
      PartAtMostSum(a[1..], k - 1);
    }
  }

  /** Ten renders as the two characters `1` and `0`. */
  lemma TenDigits()
    ensures DecimalString(10) == [DigitChar(1), DigitChar(0)]
  {
    assert DecimalString(10) == DecimalString(1) + [DigitChar(0)];
  }

  /** After a first value of at least one, the rest of an allocation of
      at most ten holds single digits only, one character each. */
  lemma RestSingleDigits(a: Allocation)
    requires a != [] && Sum(a) <= 10 && a[0] >= 1
    ensures |Concat(Digits(a[1..]))| == |a| - 1
  {
    forall k | 0 <= k < |a| - 1 ensures a[1..][k] < 10 {
      PartAtMostSum(a[1..], k);
    }
    SingleDigitConcat(a[1..]);
  }

  /** Of two allocations of the same quota, at most ten, over the same
      number of slots, one starting with 10 and the other with a smaller
      value render differently: the other would have to start with 1, and
      then it renders one character shorter than the first, whose 10 takes
      two characters. */
  lemma TenAgainstSingleDigits(a: Allocation, b: Allocation)
    requires |a| == |b| >= 1 && Sum(a) == Sum(b) <= 10
    requires a[0] == 10 && b[0] < 10
    ensures Concat(Digits(a)) != Concat(Digits(b))
  {
    ConcatDigitsCons(a);
    ConcatDigitsCons(b);
    TenDigits();
    RestSingleDigits(a);
    var da, db := DecimalString(a[0]), DecimalString(b[0]);
    var ta, tb := Concat(Digits(a[1..])), Concat(Digits(b[1..]));
    if da + ta == db + tb {
      assert db == [DigitChar(b[0])];
      assert DigitChar(b[0]) == (db + tb)[0] == (da + ta)[0] == DigitChar(1);
      RestSingleDigits(b);
    }
  }

  /** For a quota of at most ten, the joined digits determine the
      allocation: a value of ten is the only two-digit value and leaves
      nothing for the other slots. */
  lemma {:induction false} DigitsInjective(a: Allocation, b: Allocation)
    requires |a| == |b| && Sum(a) == Sum(b) <= 10
    requires Concat(Digits(a)) == Concat(Digits(b))
    ensures a == b
    decreases |a|
  {
    if a != [] {
      PartAtMostSum(a, 0);
      PartAtMostSum(b, 0);
      if a[0] == 10 && b[0] < 10 {
        TenAgainstSingleDigits(a, b);
      } else if b[0] == 10 && a[0] < 10 {
        TenAgainstSingleDigits(b, a);
      } else {
        ConcatDigitsCons(a);
        ConcatDigitsCons(b);
        var da, db := DecimalString(a[0]), DecimalString(b[0]);
        var ta, tb := Concat(Digits(a[1..])), Concat(Digits(b[1..]));
        if a[0] < 10 {
          assert da[0] == (da + ta)[0] == (db + tb)[0] == db[0];
          assert DigitValue(da[0]) == a[0] && DigitValue(db[0]) == b[0];
        }
        assert da == db;
        assert ta == (da + ta)[|da|..] && tb == (db + tb)[|db|..];
        DigitsInjective(a[1..], b[1..]);
        assert a == [a[0]] + a[1..] && b == [b[0]] + b[1..];
      }
    }
  }

  /** A run of digits followed by a non-digit is delimited by that
      non-digit, so two such strings split the same way. */
  lemma DigitRunSplit(x: string, y: string, r1: string, r2: string)
    requires AllDigits(x) && AllDigits(y)
    requires r1 != [] && r2 != [] && !IsDigit(r1[0]) && !IsDigit(r2[0])
    requires x + r1 == y + r2
    ensures x == y && r1 == r2
  {
    var z := x + r1;
    assert forall k :: 0 <= k < |x| ==> IsDigit(z[k]);
    assert forall k :: 0 <= k < |y| ==> IsDigit((y + r2)[k]);
    assert !IsDigit(z[|x|]) && !IsDigit((y + r2)[|y|]);
    if |x| == |y| {
      assert x == (x + r1)[..|x|] && y == (y + r2)[..|y|];
      assert r1 == (x + r1)[|x|..] && r2 == (y + r2)[|y|..];
    }
  }

  /** The first group's part runs up to the first `_`: two joined names
      with the same first group name have the same first digits and the
      same remainder. */
  lemma FirstPartDigits(c1: Combination, c2: Combination)
    requires |c1| == |c2| >= 2 && c1[0].0 == c2[0].0
    requires Join(FileParts(c1), "_") == Join(FileParts(c2), "_")
    ensures Concat(Digits(c1[0].1)) == Concat(Digits(c2[0].1))
    ensures Join(FileParts(c1[1..]), "_") == Join(FileParts(c2[1..]), "_")
  {
    var name := c1[0].0;
    var d1, d2 := Concat(Digits(c1[0].1)), Concat(Digits(c2[0].1));
    var p1, p2 := FileParts(c1), FileParts(c2);
    assert p1[0] == name + d1 && p2[0] == name + d2;
    assert p1[1..] == FileParts(c1[1..]) && p2[1..] == FileParts(c2[1..]);
    var r1, r2 := Join(p1[1..], "_"), Join(p2[1..], "_");
    assert Join(p1, "_") == p1[0] + "_" + r1 && Join(p2, "_") == p2[0] + "_" + r2;
    assert p1[0] + "_" + r1 == name + (d1 + ("_" + r1));
    assert p2[0] + "_" + r2 == name + (d2 + ("_" + r2));
    assert d1 + ("_" + r1) == (name + (d1 + ("_" + r1)))[|name|..];
    assert d2 + ("_" + r2) == (name + (d2 + ("_" + r2)))[|name|..];
    ConcatDigitsAllDigits(c1[0].1);
    ConcatDigitsAllDigits(c2[0].1);
    DigitRunSplit(d1, d2, "_" + r1, "_" + r2);
    assert r1 == ("_" + r1)[1..] && r2 == ("_" + r2)[1..];
  }

  /** Two combinations with the same group names in the same order and the
      same joined parts have the same joined digits in every group: each
      group's digits run up to the next `_`, which is not a digit. */
  lemma {:induction false} JoinedPartsDigits(c1: Combination, c2: Combination)
    requires |c1| == |c2| && forall j :: 0 <= j < |c1| ==> c1[j].0 == c2[j].0
    requires Join(FileParts(c1), "_") == Join(FileParts(c2), "_")
    ensures forall j :: 0 <= j < |c1| ==> Concat(Digits(c1[j].1)) == Concat(Digits(c2[j].1))
  {
    if |c1| == 1 {
      var name := c1[0].0;
      var d1, d2 := Concat(Digits(c1[0].1)), Concat(Digits(c2[0].1));
      assert FileParts(c1)[0] == name + d1 && FileParts(c2)[0] == name + d2;
      assert d1 == (name + d1)[|name|..] && d2 == (name + d2)[|name|..];
    } else if |c1| >= 2 {
      FirstPartDigits(c1, c2);
      JoinedPartsDigits(c1[1..], c2[1..]);
      forall j | 1 <= j < |c1| ensures Concat(Digits(c1[j].1)) == Concat(Digits(c2[j].1)) {
        assert c1[1..][j - 1] == c1[j] && c2[1..][j - 1] == c2[j];
      }
    }
  }

  /** For a quota of at most ten the file name determines the combination:
      different combinations of the same table are written to different
      files. (From eleven on this fails, see FileNameCollision.) */
  lemma FileNameInjective(groups: seq<Group>, n: nat, c1: Combination, c2: Combination)
    requires n <= 10
    requires IsCombinationOf(c1, groups, n) && IsCombinationOf(c2, groups, n)
    requires FileName(c1) == FileName(c2)
    ensures c1 == c2
  {
    var j1, j2 := Join(FileParts(c1), "_"), Join(FileParts(c2), "_");
    assert |j1| == |j2| && j1 == (j1 + ".csv")[..|j1|] && j2 == (j2 + ".csv")[..|j2|];
    JoinedPartsDigits(c1, c2);
    forall j | 0 <= j < |groups| ensures c1[j] == c2[j] {
      DigitsInjective(c1[j].1, c2[j].1);
    }
  }

  /** The names of the files written for `combos`, in order. */
  function FileNames(combos: seq<Combination>): (names: seq<string>)
    ensures |names| == |combos|
  {
    seq(|combos|, i requires 0 <= i < |combos| => FileName(combos[i]))
  }

  /** For a quota of at most ten every combination gets a file of its
      own, so no output file overwrites another. */
  lemma FileNamesDistinct(groups: seq<Group>, n: nat)
    requires |groups| >= 1 && PositiveCounts(groups) && n <= 10
    ensures NoDuplicates(FileNames(AllCombinations(groups, n)))
  {
    var combos := AllCombinations(groups, n);
    AllCombinationsNoDuplicates(groups, n);
    forall a, b | 0 <= a < b < |combos| ensures FileName(combos[a]) != FileName(combos[b]) {
      assert combos[a] in combos && combos[b] in combos;
      AllCombinationsSound(groups, n, combos[a]);
      AllCombinationsSound(groups, n, combos[b]);
      if FileName(combos[a]) == FileName(combos[b]) {
        FileNameInjective(groups, n, combos[a], combos[b]);
      }
    }
  }

  /** The allocations `[1, 10]` and `[11, 0]` both render as `110`. */
  lemma AmbiguousDigits()
    ensures Concat(Digits([1, 10])) == Concat(Digits([11, 0])) == "110"
  {
    assert DecimalString(1) == "1" && DecimalString(0) == "0";
    assert DecimalString(10) == DecimalString(1) + "0";
    assert DecimalString(11) == DecimalString(1) + "1";
    var d1, d2 := Digits([1, 10]), Digits([11, 0]);
    assert d1 == ["1", "10"] by {
      assert d1[0] == "1" && d1[1] == "10";
    }
    assert d2 == ["11", "0"] by {
      assert d2[0] == "11" && d2[1] == "0";
    }
    assert Concat(d1) == "1" + ("10" + Concat([])) by {
      assert d1[1..] == ["10"];
    }
    assert Concat(d2) == "11" + ("0" + Concat([])) by {
      assert d2[1..] == ["0"];
    }
  }

  /** The file name of a combination of a single group. */
  lemma SingleGroupFileName(name: string, a: Allocation)
    ensures FileName([(name, a)]) == name + Concat(Digits(a)) + ".csv"
  {
    var c: Combination := [(name, a)];
    var parts := FileParts(c);
    assert parts == [FilePart(name, a)];
  }

  /** From a quota of eleven on the names are ambiguous: splitting 11 over two
      slots as `[1, 10]` and as `[11, 0]` gives two different combinations
      that are both written to `A110.csv`, so the second overwrites the
      first. */
  lemma FileNameCollision(g: Group, c1: Combination, c2: Combination)
    requires g == Group("A", 2) && c1 == [("A", [1, 10])] && c2 == [("A", [11, 0])]
    ensures c1 in AllCombinations([g], 11) && c2 in AllCombinations([g], 11) && c1 != c2
    ensures FileName(c1) == FileName(c2) == "A110.csv"
  {
    assert IsComposition([1, 10], 11, 2) by {
      assert Sum([1, 10]) == 1 + Sum([10]) && Sum([10]) == 10 + Sum([]);
    }
    assert IsComposition([11, 0], 11, 2) by {
      assert Sum([11, 0]) == 11 + Sum([0]) && Sum([0]) == 0 + Sum([]);
    }
    SingleGroupMember(g, 11, [1, 10]);
    SingleGroupMember(g, 11, [11, 0]);
    assert c1[0].1[0] != c2[0].1[0];
    SameFileName(c1, c2);
  }

  /** With a single group, each allocation of the group is a combination. */
  lemma SingleGroupMember(g: Group, n: nat, x: Allocation)
    requires g.slots >= 1 && IsComposition(x, n, g.slots)
    ensures [(g.name, x)] in AllCombinations([g], n)
  {
    AllCombinationsComplete([g], n, [(g.name, x)]);
  }

  lemma SameFileName(c1: Combination, c2: Combination)
    requires c1 == [("A", [1, 10])] && c2 == [("A", [11, 0])]
    ensures FileName(c1) == FileName(c2) == "A110.csv"
  {
    AmbiguousDigits();
    SingleGroupFileName("A", [1, 10]);
    SingleGroupFileName("A", [11, 0]);
    assert "A" + "110" + ".csv" == "A110.csv";
  }

  // ---------------------------------------------------------------------
  // numbers = combination.values.flatten

  /** `combination.values.flatten`: the allocations in group order, one
      after the other. */
  function Flatten(c: Combination): seq<nat>
  {
    if c == [] then [] else c[0].1 + Flatten(c[1..])
  }

  /** The slot ids a template lists when its rows run through the groups in
      table order, each group's slots numbered 1, 2, ... in turn: the layout
      `write_csv_rows` relies on when it gives row `i` the value
      `numbers[i]`. */
  function Layout(groups: seq<Group>): seq<SlotId>
  {
    if groups == [] then []
    else seq(groups[0].slots, k requires 0 <= k < groups[0].slots => SlotId(groups[0].name, k + 1)) + Layout(groups[1..])
  }

  /** The allocation a combination gives the named group, if any. */
  function Lookup(c: Combination, name: string): Option<Allocation>
  {
    if c == [] then None else if c[0].0 == name then Some(c[0].1) else Lookup(c[1..], name)
  }

  /** The value a combination gives one slot: value `index` (from 1) of its
      group's allocation. */
  function SlotValue(c: Combination, id: SlotId): Option<nat>
  {
    match Lookup(c, id.group)
    case None => None
    case Some(a) => if 1 <= id.index <= |a| then Some(a[id.index - 1]) else None
  }

  lemma {:induction false} LayoutNames(groups: seq<Group>, i: nat)
    requires i < |Layout(groups)|
    ensures Layout(groups)[i].group in Names(groups)
  {
    var block := seq(groups[0].slots, k requires 0 <= k < groups[0].slots => SlotId(groups[0].name, k + 1));
    if i >= |block| {
      LayoutNames(groups[1..], i - |block|);
      assert Names(groups[1..]) == Names(groups)[1..];
    } else {
      assert Names(groups)[0] == groups[0].name;
    }
  }

  /** On a template laid out group by group, slot by slot, row `i` is
      written with exactly the value the combination gives that row's own
      slot. */
  lemma {:induction false} FlattenFollowsLayout(groups: seq<Group>, n: nat, c: Combination)
    requires IsCombinationOf(c, groups, n) && NoDuplicates(Names(groups))
    ensures |Flatten(c)| == |Layout(groups)|
    ensures forall i :: 0 <= i < |Layout(groups)| ==> SlotValue(c, Layout(groups)[i]) == Some(Flatten(c)[i])
  {
    if groups != [] {
      var rest, crest := groups[1..], c[1..];
      assert IsCombinationOf(crest, rest, n);
      assert Names(rest) == Names(groups)[1..];
      FlattenFollowsLayout(rest, n, crest);
      var block := seq(groups[0].slots, k requires 0 <= k < groups[0].slots => SlotId(groups[0].name, k + 1));
      var lay, flat := Layout(groups), Flatten(c);
      forall i | 0 <= i < |lay| ensures SlotValue(c, lay[i]) == Some(flat[i]) {
        if i < |block| {
          assert lay[i] == block[i];
        } else {
          assert lay[i] == Layout(rest)[i - |block|] && flat[i] == Flatten(crest)[i - |block|];
          LayoutNames(rest, i - |block|);
          assert lay[i].group != groups[0].name by {
            var j :| 0 <= j < |rest| && Names(rest)[j] == lay[i].group;
            assert Names(groups)[j + 1] == lay[i].group;
            assert Names(groups)[0] == groups[0].name;
          }
        }
      }
    }
  }

  // ---------------------------------------------------------------------
  // generate_csv

  /** One output file: its name and the rows the CSV writer receives. */
  datatype OutputFile = OutputFile(name: string, rows: seq<Row>)

  /** The file written for one combination. */
  function FileFor(rows: seq<Row>, c: Combination): OutputFile
  {
    OutputFile(FileName(c), WrittenRows(rows, Flatten(c)))
  }

  /** The `all_combinations.each` loop of `generate_csv`: one file per
      combination, in order. Each call of `write_csv_rows` receives the
      template as the previous call left it, with its strings stripped in
      place; the rows written are still those of the original template. */
  method WriteFiles(rows: seq<Row>, combos: seq<Combination>) returns (files: seq<OutputFile>)
    ensures |files| == |combos|
    ensures forall i :: 0 <= i < |combos| ==> files[i] == FileFor(rows, combos[i])
  {
    var template := rows;
    files := [];
    for i := 0 to |combos|
      invariant template == rows || template == StripRows(rows)
      invariant |files| == i
      invariant forall k :: 0 <= k < i ==> files[k] == FileFor(rows, combos[k])
    {
      var numbers := Flatten(combos[i]);
      WrittenRowsAfterStripping(rows, numbers);
      StripRowsIdempotent(rows);
      var written;
      written, template := WriteCsvRows(template, numbers);
      files := files + [OutputFile(FileName(combos[i]), written)];
    }
  }

  /** `generate_csv(input_path, output_dir, assigned_number)` on the rows
      already read from the input: the combinations of the template's
      groups, then one file for each. */
  method GenerateCsv(rows: seq<Row>, n: nat) returns (files: seq<OutputFile>)
    requires |rows| >= 1 && WellFormedTemplate(rows)
    requires PositiveCounts(CountByGroup(Ids(rows)))
    ensures var combos := AllCombinations(CountByGroup(Ids(rows)), n);
            |files| == |combos| && forall i :: 0 <= i < |combos| ==> files[i] == FileFor(rows, combos[i])
  {
    var combos := GenerateAllCombinations(rows, n);
    files := WriteFiles(rows, combos);
  }
}
