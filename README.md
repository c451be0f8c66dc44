# CombinationCsv in Dafny

`CombinationCsv` takes a CSV template and a quota N. Each row of the template names a slot in its
first field, such as `A1`, `A2` or `B1`: a group name in capital letters followed by the slot's
index in that group. The class distributes N over the slots of each group in every possible way,
takes one distribution per group, and writes one CSV file per choice. Row `i` of that file is the
stripped template row `i` with its second field replaced by entry `i` of the flattened choice: the
distributions of the groups one after the other, in table order. That entry is the number the row's
own slot receives when the template lists its rows group by group, slots 1 to k
(`FlattenFollowsLayout`). Otherwise a row gets the value of another slot, and rows past the end of
the flattened numbers get an empty field.

The model follows the class's own structure, one module per concern:

- `Text` (text.dfy): the Ruby string behaviour the class relies on.
  - `String#strip` with Ruby's whitespace set (NUL, tab, LF, VT, FF, CR, space).
  - Decimal rendering (`Integer#to_s`) and decimal parsing (`String#to_i` on a digit run).
  - `Array#join`.
- `Compositions` (compositions.dfy): `generate_combination`, the recursive enumeration of the
  allocations of N over k slots.
- `Template` (template.dfy): `read_count_by_group`.
  - The regular expression `[A-Z]+\d+` is modelled as the leftmost, greedy match.
  - The hash of slot indices that the source fills row by row is the loop method `CollectSlots`.
  - The final `map` to each group's largest index is the loop method `MaxPerGroup`.
  - Both are proved against the specification functions `GroupNames`, `SlotsOf` and `Max`.
- `Combinations` (combinations.dfy):
  - `combination_by_group`;
  - `Array#product`, as `Product`;
  - `generate_all_combinations`: one ordered list of `(group, allocation)` pairs per combination.
    This mirrors an insertion-ordered Ruby hash.
- `CsvOutput` (csv_output.dfy):
  - `write_csv_rows`: a loop over the rows; each row is copied into a mutable array whose fields
    are stripped in place (`StripEach`) before field 1 is assigned;
  - the file-name expression;
  - the flattening of a combination into the number column;
  - `generate_csv`, which returns the list of files it would write.
- `Scenarios` (scenarios.dfy): the examples in the source's test suite, proved on the model.
  The template used has the ids `A1, A2, B1, B2, C1` and `test` in its third field, each possibly
  surrounded by whitespace.

## Model

| member | source | states |
|---|---|---|
| Compositions.GenerateCombination | spec/combination_csv_spec.rb:54-60 | the enumerator itself: `[[N]]` for one slot, otherwise the `downto` / `flat_map` recursion; its contract says only that the result is never empty, and what it produces is stated by the GenerateCombination* lemmas below |
| Compositions.CountDown | spec/combination_csv_spec.rb:56-59 | the `N.downto(0).flat_map` loop from first part m down to 0; no contract of its own, its soundness, completeness, order and count are carried into GenerateCombinationSound, GenerateCombinationComplete, GenerateCombinationDescending and GenerateCombinationCount |
| Compositions.GenerateCombinationSound | spec/combination_csv_spec.rb:54-60 | every generated allocation has exactly k entries, none negative, summing to N |
| Compositions.GenerateCombinationComplete | spec/combination_csv_spec.rb:54-60 | every list of k naturals summing to N is generated |
| Compositions.GenerateCombinationDescending | spec/combination_csv_spec.rb:56-58 | the allocations come out in strictly descending lexicographic order (the first slot counts down from N) |
| Compositions.GenerateCombinationDistinct | spec/combination_csv_spec.rb:54-60 | no allocation is generated twice |
| Compositions.GenerateCombinationCount | spec/combination_csv_spec.rb:54-60 | the number of allocations is the binomial coefficient C(N+k-1, k-1) |
| Compositions.GenerateCombinationSmallExamples | spec/combination_csv_spec.rb:55 | one slot gives `[[N]]`; N = 2 over two slots gives `[[2,0],[1,1],[0,2]]` in that order |
| Compositions.TwoSlots | spec/combination_csv_spec.rb:190-209 | two slots give exactly `[N,0], [N-1,1], ..., [0,N]` in that order |
| Compositions.CountTwoSlots | spec/combination_csv_spec.rb:190-209 | two slots give N + 1 allocations |
| Compositions.CountThreeSlots | spec/combination_csv_spec.rb:152-188 | three slots give (N + 2)(N + 1) / 2 allocations |
| Compositions.GenerateCombinationTestSizes | spec/combination_csv_spec.rb:152-231 | the tested cases (6,3), (10,2) and (2,4) have 28, 11 and 10 allocations, the sizes of the tests' expected lists; the lists themselves are not compared (for (10,2) TwoSlots gives the exact sequence) |
| Text.Strip | spec/combination_csv_spec.rb:48 | `String#strip`: the result is empty or neither starts nor ends with whitespace; StripKeepsMiddle, StripFixedPoints and StripIdempotent state the rest |
| Text.DigitsValueOfDecimal | spec/combination_csv_spec.rb:36-37 | parsing the decimal rendering of a number gives the number back |
| Text.StripKeepsMiddle | spec/combination_csv_spec.rb:48 | `strip` removes only whitespace and only at the two ends, keeping the middle as a contiguous slice |
| Text.StripFixedPoints | spec/combination_csv_spec.rb:48 | a string is unchanged by `strip` exactly when it is empty or neither end is whitespace |
| Text.StripIdempotent | spec/combination_csv_spec.rb:48 | stripping twice is stripping once |
| Template.MatchFrom | spec/combination_csv_spec.rb:36 | the leftmost match of `[A-Z]+\d+` at or after a position; a match's group name is a non-empty run of capitals |
| Template.ParseId | spec/combination_csv_spec.rb:36-37 | the captures of `=~` on the first field, `number.to_i` for the index; a match's group name is a non-empty run of capitals, and ParseIdSucceeds and ParseIdRoundTrip say when it matches and what it captures |
| Template.ParseIdSucceeds | spec/combination_csv_spec.rb:36 | the slot-id match succeeds exactly when the field contains capitals immediately followed by a digit |
| Template.ParseIdRoundTrip | spec/combination_csv_spec.rb:36-37 | a field made of a padding in which no match can start (no capital directly before a digit, no capital at its end), a group name, a non-empty run of digits and a rest that does not start with a digit parses to that name and the digits' value, leading zeros ignored as `to_i` does |
| Template.CollectSlots | spec/combination_csv_spec.rb:35-41 | the hash of arrays built row by row has exactly the groups seen, in first-seen order, each holding its rows' indices in row order |
| Template.MaxPerGroup | spec/combination_csv_spec.rb:42 | one entry per key, in key order, each with the largest value of its array |
| Template.ReadCountByGroup | spec/combination_csv_spec.rb:34-43 | the hash filled row by row equals the group table: the groups in first-seen order, each with its largest index |
| Template.GroupNamesMembers | spec/combination_csv_spec.rb:39-42 | a name is in the table exactly when some row has that group; no name appears twice |
| Template.GroupNamesFirstSeenOrder | spec/combination_csv_spec.rb:39-42 | table entries are ordered by the row where their group first appears |
| Template.SlotsOfMembers | spec/combination_csv_spec.rb:39-41 | a number is among a group's collected indices exactly when some row of that group has it as index |
| Template.MaxIsLargest | spec/combination_csv_spec.rb:42 | `values.max` is an element of the list and no element is larger |
| Template.CountByGroupMaximal | spec/combination_csv_spec.rb:42 | each group's slot count is an index of one of its rows, and no row of that group has a larger one |
| Template.CountByGroupExample | spec/combination_csv_spec.rb:142-149 | the test template gives the table A => 2, B => 2, C => 1 |
| Combinations.CombinationByGroup | spec/combination_csv_spec.rb:28-32 | one entry per group, in table order, under the group's name, each with at least one allocation; CombinationByGroupMeaning states which allocations |
| Combinations.CombinationByGroupMeaning | spec/combination_csv_spec.rb:28-32 | same names in the same order; each name's list holds exactly the allocations of N over its slot count, without duplicates, C(N+k-1, k-1) of them |
| Combinations.Product | spec/combination_csv_spec.rb:23 | `first.product(*rest)`: every tuple has one entry per list; ProductSize, ProductSound, ProductComplete, ProductOrder and ProductNoDuplicates state the rest |
| Combinations.ProductSize | spec/combination_csv_spec.rb:23 | the product has as many tuples as the product of the list sizes |
| Combinations.ProductSound | spec/combination_csv_spec.rb:23 | every tuple takes its j-th element from the j-th list |
| Combinations.ProductComplete | spec/combination_csv_spec.rb:23 | every such choice of elements is a tuple of the product |
| Combinations.ProductOrder | spec/combination_csv_spec.rb:22-23 | the first list varies slowest: with R tuples in the product of the other lists, tuple a*R + b is element a of the first list followed by tuple b of that product |
| Combinations.ProductNoDuplicates | spec/combination_csv_spec.rb:23 | duplicate-free lists give a duplicate-free product |
| Combinations.AllCombinations | spec/combination_csv_spec.rb:20-25 | the combinations `generate_all_combinations` returns, each name zipped with one tuple of the product; no contract of its own, its properties are the AllCombinations* lemmas below |
| Combinations.AllCombinationsCount | spec/combination_csv_spec.rb:18-26 | the number of combinations is the product over the groups of C(N+k-1, k-1) |
| Combinations.AllCombinationsSound | spec/combination_csv_spec.rb:24-25 | every combination lists the group names in table order, each with a valid allocation of N over that group's slots |
| Combinations.AllCombinationsComplete | spec/combination_csv_spec.rb:18-26 | every choice of one valid allocation per group is a combination |
| Combinations.AllCombinationsNoDuplicates | spec/combination_csv_spec.rb:18-26 | no combination appears twice |
| Combinations.AllCombinationsOrder | spec/combination_csv_spec.rb:22-25 | with R combinations of the other groups, combination a*R + b is the first group's allocation a followed by their combination b |
| Combinations.AllCombinationsSingle | spec/combination_csv_spec.rb:22-25 | with one group (empty `product` argument list), the combinations are that group's allocations in order |
| Combinations.GenerateAllCombinations | spec/combination_csv_spec.rb:18-26 | reads the group table from the template and returns exactly the combinations of that table |
| CsvOutput.NumberField | spec/combination_csv_spec.rb:49 | within range the field is a non-empty digit string whose value is `numbers[i]`, and a leading `0` only in the one-character field `0` (the canonical `Integer#to_s`); past the end it is empty (Ruby's nil) |
| CsvOutput.WrittenRow | spec/combination_csv_spec.rb:47-50 | field 1 is the number, every other field is the stripped input field, and a row shorter than two fields is padded |
| CsvOutput.StripEach | spec/combination_csv_spec.rb:48 | every field of the array is replaced by its stripped value, in place |
| CsvOutput.WriteRow | spec/combination_csv_spec.rb:47-50 | the in-place loop over the copied row produces the written row and leaves the shared fields stripped |
| CsvOutput.WriteCsvRows | spec/combination_csv_spec.rb:45-52 | one output row per input row, row i written with `numbers[i]`; the template comes back stripped |
| CsvOutput.StripRowsIdempotent | spec/combination_csv_spec.rb:47-48 | stripping the template a second time changes nothing |
| CsvOutput.WrittenRowsAfterStripping | spec/combination_csv_spec.rb:47-48 | writing from an already stripped template gives the same rows, so the in-place `strip!` on shared strings does not alter later files |
| CsvOutput.FileName | spec/combination_csv_spec.rb:9 | the group parts `name` + joined digits, joined by `_`, plus `.csv`; no contract of its own, FileNameInjective and FileNameCollision say when it tells combinations apart |
| CsvOutput.DigitsInjective | spec/combination_csv_spec.rb:9 | for quotas up to 10, the joined digits `v.join` of an allocation over a fixed number of slots determine the allocation |
| CsvOutput.FileNameInjective | spec/combination_csv_spec.rb:9 | for quotas up to 10, two combinations of the same table with the same file name are equal |
| CsvOutput.FileNamesDistinct | spec/combination_csv_spec.rb:8-9 | for quotas up to 10, all combinations get distinct file names, so no file overwrites another |
| CsvOutput.FileNameCollision | spec/combination_csv_spec.rb:9 | for quota 11 and one group of two slots, the distinct allocations [1,10] and [11,0] both get the name `A110.csv` |
| CsvOutput.Flatten | spec/combination_csv_spec.rb:12 | `combination.values.flatten`: the allocations one after the other in group order; no contract of its own, FlattenFollowsLayout says which slot each entry belongs to |
| CsvOutput.FlattenFollowsLayout | spec/combination_csv_spec.rb:12 | the flattened numbers line up with the slots group by group, slot 1 to k: entry i is the value of the i-th slot |
| CsvOutput.WriteFiles | spec/combination_csv_spec.rb:8-15 | file i is named after combination i and holds the template written with its flattened numbers |
| CsvOutput.GenerateCsv | spec/combination_csv_spec.rb:5-16 | one file per combination of the template's group table, in generation order, each as described for WriteFiles |
| Scenarios.CombinationByGroupExample | spec/combination_csv_spec.rb:127-139 | the table A => 2, B => 2, C => 1 with quota 2 gives the expected allocations for each group |
| Scenarios.SingleSlotCombinations | spec/combination_csv_spec.rb:55 | a lone one-slot group has the single combination giving it the whole quota |
| Scenarios.AllCombinationsExample | spec/combination_csv_spec.rb:103-123 | that table with quota 2 gives exactly the nine expected combinations, in the expected order |
| Scenarios.ExampleInputIds | spec/combination_csv_spec.rb:142-149 | first fields that read A1, A2, B1, B2, C1 once stripped, whitespace around them allowed, parse to those slot ids |
| Scenarios.ExampleCombinations | spec/combination_csv_spec.rb:76-79 | the test template with quota 2 gives nine combinations with pairwise distinct file names, hence nine files |
| Scenarios.GenerateCsvExample | spec/combination_csv_spec.rb:76-99 | `A20_B20_C2.csv` holds rows A1 2, A2 0, B1 2, B2 0, C1 2 and `A02_B02_C2.csv` holds A1 0, A2 2, B1 0, B2 2, C1 2, each with `test` |

## Left out

- Reading and writing CSV files, `File.join` and the output directory are not modelled.
  - The template is a sequence of rows of strings.
  - `GenerateCsv` returns each file as a name plus rows, instead of writing it.
  - CSV quoting and parsing are not modelled.
- Fields that `CSV.read` yields as nil (empty unquoted cells) are not modelled. Every field is a
  string. In Ruby, `strip!` on such a field raises.
- Template.CollectSlots: carries the same requires as ReadCountByGroup, for the same reason:
  Ruby's `each_with_object` loop files a row without a slot id under `nil` with index 0.
- Template.ReadCountByGroup: requires every row to have a first field that matches the slot-id
  pattern. In Ruby a row without one gives a nil group with slot count 0, and the recursion in
  `generate_combination` then never ends.
- Combinations.GenerateAllCombinations: requires at least one row and a positive slot count for
  every group.
  - An empty template makes Ruby call `product` on nil, which raises.
  - A slot count of 0 makes `generate_combination` recurse without end.
- CsvOutput.GenerateCsv: carries the same requires as GenerateAllCombinations, for the same reasons.
- When two combinations share a file name, the later file overwrites the earlier one on disk.
  - This can happen only from quota 11 on, and only in a group of two or more slots, where
    `v.join` concatenates multi-digit numbers ambiguously. At quota 10 a value of ten leaves 0 in every other slot of its group, so the
    names still differ.
  - The model lists both files; it does not model the overwrite.
  - FileNamesDistinct therefore covers quotas up to 10 only.
  - FileNameCollision exhibits the collision.
- Negative quotas are not modelled: the quota is a `nat` throughout. Ruby accepts a negative
  `assigned_number`. `generate_combination` then returns `[[N]]` for one slot and `[]` for two
  or more, because `N.downto(0)` is empty. So `generate_csv` writes no file when some group has
  two or more slots, and a single file whose name contains the negative number otherwise.
- The value in field 1 is written as its decimal string, which is what `CSV` does with an Integer.
  Past the end of the numbers it is the empty field that nil produces.
- The RSpec scaffolding (`describe`, `let`, `before`, `FileUtils.rm`, `Dir.glob`) is not
  modelled. The test file `spec/input/test3-1.csv` is not part of this model. The template it
  contains is taken from what the tests assert about it: rows whose first fields read A1, A2, B1,
  B2, C1 and whose third fields read `test`, once stripped.
