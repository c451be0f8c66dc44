/** The row parser `CombinationCsv.read_count_by_group`: each template row's
    first field names a group and a slot (`A12` is slot 12 of group `A`), and
    each group owns as many slots as the largest slot index seen for it.
    Groups keep the order in which they first appear. */
module Template {
  import opened Text

  /** A template row: its fields, field 0 being the slot ID. */
  type Row = seq<string>

  /** The two captures of the ID pattern. */
  datatype SlotId = SlotId(group: string, index: nat)

  /** One entry of the ordered group table: a group and its slot count. */
  datatype Group = Group(name: string, slots: nat)

  datatype Option<T> = None | Some(value: T)

  // ---------------------------------------------------------------------
  // The pattern `(?<name>[A-Z]+)(?<number>\d+)`, unanchored, searched from
  // the left as a regular-expression engine does.

  /** End of the run of upper-case letters that starts at `i`. */
  function UpperRunEnd(s: string, i: nat): (e: nat)
    requires i <= |s|
    ensures i <= e <= |s|
    ensures forall k :: i <= k < e ==> IsUpper(s[k])
    ensures e == |s| || !IsUpper(s[e])
    decreases |s| - i
  {
    if i < |s| && IsUpper(s[i]) then UpperRunEnd(s, i + 1) else i
  }

  /** End of the run of digits that starts at `i`. */
  function DigitRunEnd(s: string, i: nat): (e: nat)
    requires i <= |s|
    ensures i <= e <= |s|
    ensures forall k :: i <= k < e ==> IsDigit(s[k])
    ensures e == |s| || !IsDigit(s[e])
    decreases |s| - i
  {
    if i < |s| && IsDigit(s[i]) then DigitRunEnd(s, i + 1) else i
  }

  /** The leftmost match at or after position `i`. A match starting at `i`
      exists exactly when `s[i]` is upper case and the letter run from `i`
      is followed by a digit (a shorter letter run would be followed by a
      letter); both repetitions are greedy. */
  function MatchFrom(s: string, i: nat): (r: Option<SlotId>)
    requires i <= |s|
    ensures r.Some? ==> |r.value.group| >= 1 && forall k :: 0 <= k < |r.value.group| ==> IsUpper(r.value.group[k])
    decreases |s| - i
  {
    if i == |s| then None
    else if IsUpper(s[i]) && UpperRunEnd(s, i) < |s| && IsDigit(s[UpperRunEnd(s, i)]) then
      var e := UpperRunEnd(s, i);
      Some(SlotId(s[i..e], DigitsValue(s[e..DigitRunEnd(s, e)])))
    else MatchFrom(s, i + 1)
  }

  /** The captures of the ID pattern in `field` (`number.to_i` for the
      index), or None when the pattern does not occur. */
  function ParseId(field: string): (r: Option<SlotId>)
    ensures r.Some? ==> |r.value.group| >= 1 && forall k :: 0 <= k < |r.value.group| ==> IsUpper(r.value.group[k])
  {
    MatchFrom(field, 0)
  }

  /** The pattern occurs in `s`: an upper-case letter directly followed by
      a digit. */
  predicate HasIdPattern(s: string)
  {
    exists k :: 0 <= k < |s| - 1 && IsUpper(s[k]) && IsDigit(s[k + 1])
  }

  lemma {:induction false} MatchFromFinds(s: string, i: nat)
    requires i <= |s|
    ensures MatchFrom(s, i).Some? <==> exists k :: i <= k < |s| - 1 && IsUpper(s[k]) && IsDigit(s[k + 1])
    decreases |s| - i
  {
    if i < |s| {
      MatchFromFinds(s, i + 1);
      if IsUpper(s[i]) && UpperRunEnd(s, i) < |s| && IsDigit(s[UpperRunEnd(s, i)]) {
        var e := UpperRunEnd(s, i);
        assert i <= e - 1 && IsUpper(s[e - 1]) && IsDigit(s[e - 1 + 1]);
      }
    }
  }

  /** Parsing succeeds exactly when the pattern occurs somewhere in the
      field. */
  lemma ParseIdSucceeds(s: string)
    ensures ParseId(s).Some? <==> HasIdPattern(s)
  {
    MatchFromFinds(s, 0);
  }

  /** No match starts at `k`: `s[k]` is not upper case, or the run of
      capitals from `k` is not followed by a digit. */
  predicate NoMatchAt(s: string, k: nat)
    requires k < |s|
  {
    !IsUpper(s[k]) || UpperRunEnd(s, k) == |s| || !IsDigit(s[UpperRunEnd(s, k)])
  }

  /** The search moves past positions at which no match starts. */
  lemma {:induction false} MatchFromSkip(s: string, i: nat, j: nat)
    requires i <= j <= |s|
    requires forall k :: i <= k < j ==> NoMatchAt(s, k)
    ensures MatchFrom(s, i) == MatchFrom(s, j)
    decreases j - i
  {
    if i < j {
      assert NoMatchAt(s, i);
      MatchFromSkip(s, i + 1, j);
    }
  }

  /** A padding in which no match can start, whatever follows it: no
      capital is directly followed by a digit, and it does not end with a
      capital (which would extend the group name to its left). */
  predicate InertPad(pad: string)
  {
    !HasIdPattern(pad) && (pad == [] || !IsUpper(pad[|pad| - 1]))
  }

  /** A field made of an inert padding, a group name, a run of digits and
      a rest that does not start with a digit parses to that name and the
      value of the digits (`to_i`, so leading zeros are ignored). */
  lemma ParseIdRoundTrip(pad: string, name: string, digits: string, rest: string)
    requires InertPad(pad)
    requires |name| > 0 && forall k :: 0 <= k < |name| ==> IsUpper(name[k])
    requires |digits| > 0 && AllDigits(digits)
    requires rest == [] || !IsDigit(rest[0])
    ensures ParseId(pad + name + digits + rest) == Some(SlotId(name, DigitsValue(digits)))
  {
    var s := pad + name + digits + rest;
    assert forall k :: 0 <= k < |pad| ==> s[k] == pad[k];
    forall k | 0 <= k < |pad| ensures NoMatchAt(s, k) {
      if IsUpper(s[k]) {
        var e := UpperRunEnd(s, k);
        assert s[|pad| - 1] == pad[|pad| - 1];
        assert e < |pad|;
        assert s[e - 1] == pad[e - 1] && s[e] == pad[e];
      }
    }
    MatchFromSkip(s, 0, |pad|);
    MatchAfter(pad, name, digits, rest);
  }

  /** The match right after `pad` when a group name, a run of digits and
      a rest not starting with a digit follow it. */
  lemma MatchAfter(pad: string, name: string, digits: string, rest: string)
    requires |name| > 0 && forall k :: 0 <= k < |name| ==> IsUpper(name[k])
    requires |digits| > 0 && AllDigits(digits)
    requires rest == [] || !IsDigit(rest[0])
    ensures MatchFrom(pad + name + digits + rest, |pad|) == Some(SlotId(name, DigitsValue(digits)))
  {
    var d := digits;
    var s := pad + name + d + rest;
    var p, e := |pad|, |pad| + |name|;
    assert s[p..e] == name;
    assert s[e] == d[0];
    assert UpperRunEnd(s, p) == e;
    assert s[e..e + |d|] == d;
    if rest != [] {
      assert s[e + |d|] == rest[0];
    }
    assert DigitRunEnd(s, e) == e + |d|;
  }

  // ---------------------------------------------------------------------
  // The group table.

  /** Every row has a first field in which the ID pattern occurs. */
  predicate WellFormedTemplate(rows: seq<Row>)
  {
    forall i :: 0 <= i < |rows| ==> |rows[i]| > 0 && ParseId(rows[i][0]).Some?
  }

  /** `name_and_numbers`: the parsed ID of every row, in row order. */
  function Ids(rows: seq<Row>): (ids: seq<SlotId>)
    requires WellFormedTemplate(rows)
    ensures |ids| == |rows|
    ensures forall i :: 0 <= i < |rows| ==> Some(ids[i]) == ParseId(rows[i][0])
  {
    seq(|rows|, i requires 0 <= i < |rows| && WellFormedTemplate(rows) => ParseId(rows[i][0]).value)
  }

  /** The keys of the hash of arrays, in insertion order: each group name
      at the point where it is first seen. */
  function GroupNames(ids: seq<SlotId>): seq<string>
  {
    if ids == [] then []
    else
      var names := GroupNames(ids[..|ids| - 1]);
      var g := ids[|ids| - 1].group;
      if g in names then names else names + [g]
  }

  /** The array the hash holds for group `g`: its slot indexes in row order. */
  function SlotsOf(ids: seq<SlotId>, g: string): seq<nat>
  {
    if ids == [] then []
    else SlotsOf(ids[..|ids| - 1], g) + (if ids[|ids| - 1].group == g then [ids[|ids| - 1].index] else [])
  }

  /** `values.max`; the empty case never arises for a group that was seen. */
  function Max(s: seq<nat>): nat
  {
    if s == [] then 0
    else if Max(s[..|s| - 1]) < s[|s| - 1] then s[|s| - 1] else Max(s[..|s| - 1])
  }

  /** The group table that `read_count_by_group` returns. */
  function CountByGroup(ids: seq<SlotId>): seq<Group>
  {
    var names := GroupNames(ids);
    seq(|names|, i requires 0 <= i < |names| => Group(names[i], Max(SlotsOf(ids, names[i]))))
  }

  /** `names` lists groups in the order of their first appearance in `ids`. */
  predicate InFirstSeenOrder(ids: seq<SlotId>, names: seq<string>)
  {
    forall a, b :: 0 <= a < b < |names| ==> FirstIndex(ids, names[a]) < FirstIndex(ids, names[b])
  }

  /** The position of the first ID of group `g`. */
  function FirstIndex(ids: seq<SlotId>, g: string): nat
  {
    if ids == [] then 0
    else if ids[0].group == g then 0
    else 1 + FirstIndex(ids[1..], g)
  }

  // ---------------------------------------------------------------------
  // What the table means.

  /** The largest element of a non-empty sequence: it occurs in it, and
      nothing in it is larger. */
  lemma {:induction false} MaxIsLargest(s: seq<nat>)
    ensures forall k :: 0 <= k < |s| ==> s[k] <= Max(s)
    ensures s != [] ==> Max(s) in s
  {
    if s != [] {
      var init := s[..|s| - 1];
      MaxIsLargest(init);
      forall k | 0 <= k < |s| ensures s[k] <= Max(s) {
        if k < |s| - 1 {
          assert s[k] == init[k];
        }
      }
      if init != [] && Max(init) >= s[|s| - 1] {
        var k :| 0 <= k < |init| && init[k] == Max(init);
        assert s[k] == Max(s);
      }
    }
  }

  /** The slots collected for `g` are exactly the indexes of the IDs of
      group `g`, in row order. */
  lemma {:induction false} SlotsOfMembers(ids: seq<SlotId>, g: string)
    ensures forall x :: x in SlotsOf(ids, g) <==> exists i :: 0 <= i < |ids| && ids[i].group == g && ids[i].index == x
  {
    if ids != [] {
      var init := ids[..|ids| - 1];
      SlotsOfMembers(init, g);
      forall x | (exists i :: 0 <= i < |ids| && ids[i].group == g && ids[i].index == x)
        ensures x in SlotsOf(ids, g)
      {
        var i :| 0 <= i < |ids| && ids[i].group == g && ids[i].index == x;
        if i < |ids| - 1 {
          assert init[i] == ids[i];
        }
      }
      forall x | x in SlotsOf(ids, g)
        ensures exists i :: 0 <= i < |ids| && ids[i].group == g && ids[i].index == x
      {
        if x in SlotsOf(init, g) {
          var i :| 0 <= i < |init| && init[i].group == g && init[i].index == x;
          assert ids[i] == init[i];
        }
      }
    }
  }

  /** The table names exactly the groups that occur, each once. */
  lemma {:induction false} GroupNamesMembers(ids: seq<SlotId>)
    ensures forall g :: g in GroupNames(ids) <==> exists i :: 0 <= i < |ids| && ids[i].group == g
    ensures NoDuplicates(GroupNames(ids))
  {
    if ids != [] {
      var init := ids[..|ids| - 1];
      GroupNamesMembers(init);
      forall g | (exists i :: 0 <= i < |ids| && ids[i].group == g) ensures g in GroupNames(ids) {
        var i :| 0 <= i < |ids| && ids[i].group == g;
        if i < |ids| - 1 {
          assert init[i] == ids[i];
        }
      }
      forall g | g in GroupNames(ids) ensures exists i :: 0 <= i < |ids| && ids[i].group == g {
        if g in GroupNames(init) {
          var i :| 0 <= i < |init| && init[i].group == g;
          assert ids[i] == init[i];
        } else {
          assert ids[|ids| - 1].group == g;
        }
      }
      var names, inames := GroupNames(ids), GroupNames(init);
      var g := ids[|ids| - 1].group;
      assert names == if g in inames then inames else inames + [g];
      forall a, b | 0 <= a < b < |names| ensures names[a] != names[b] {
        assert names[a] == inames[a] && names[a] in inames;
        if b < |inames| {
          assert names[b] == inames[b] && inames[a] != inames[b];
        }
      }
    }
  }

  /** One more ID: the name table grows by its group if that is new, and
      the slots of its group grow by its index. */
  lemma GroupTableSnoc(ids: seq<SlotId>, i: nat)
    requires i < |ids|
    ensures GroupNames(ids[..i + 1]) == if ids[i].group in GroupNames(ids[..i])
                                       then GroupNames(ids[..i]) else GroupNames(ids[..i]) + [ids[i].group]
    ensures forall g :: SlotsOf(ids[..i + 1], g)
                     == SlotsOf(ids[..i], g) + (if ids[i].group == g then [ids[i].index] else [])
  {
    assert ids[..i + 1][..i] == ids[..i];
  }

  /** A group that was never seen has no slots. */
  lemma {:induction false} SlotsOfUnseen(ids: seq<SlotId>, g: string)
    requires g !in GroupNames(ids)
    ensures SlotsOf(ids, g) == []
  {
    if ids != [] {
      SlotsOfUnseen(ids[..|ids| - 1], g);
    }
  }

  lemma {:induction false} FirstIndexFacts(ids: seq<SlotId>, g: string)
    ensures FirstIndex(ids, g) <= |ids|
    ensures forall i :: 0 <= i < FirstIndex(ids, g) ==> ids[i].group != g
    ensures FirstIndex(ids, g) < |ids| ==> ids[FirstIndex(ids, g)].group == g
  {
    if ids != [] && ids[0].group != g {
      FirstIndexFacts(ids[1..], g);
      forall i | 0 <= i < FirstIndex(ids, g) ensures ids[i].group != g {
        if i > 0 {
          assert ids[i] == ids[1..][i - 1];
        }
      }
    }
  }

  /** Groups are listed in the order of their first appearance. */
  lemma {:induction false} GroupNamesFirstSeenOrder(ids: seq<SlotId>)
    ensures InFirstSeenOrder(ids, GroupNames(ids))
  {
    var names := GroupNames(ids);
    if ids != [] {
      var init := ids[..|ids| - 1];
      var last := |ids| - 1;
      GroupNamesFirstSeenOrder(init);
      GroupNamesMembers(init);
      forall g | g in GroupNames(init) ensures FirstIndex(ids, g) == FirstIndex(init, g) && FirstIndex(init, g) < |init| {
        var i :| 0 <= i < |init| && init[i].group == g;
        FirstIndexFacts(init, g);
        FirstIndexPrefix(ids, last, g);
      }
      var inames := GroupNames(init);
      var g := ids[last].group;
      assert names == if g in inames then inames else inames + [g];
      if g !in inames {
        FirstIndexFacts(ids, g);
      }
      forall a, b | 0 <= a < b < |names| ensures FirstIndex(ids, names[a]) < FirstIndex(ids, names[b]) {
        assert names[a] == inames[a] && names[a] in inames;
        if b < |inames| {
          assert names[b] == inames[b] && names[b] in inames;
          assert FirstIndex(init, inames[a]) < FirstIndex(init, inames[b]);
        }
      }
    }
  }

  /** Extending the IDs after a group was already seen keeps its first index. */
  lemma {:induction false} FirstIndexPrefix(ids: seq<SlotId>, n: nat, g: string)
    requires n <= |ids| && FirstIndex(ids[..n], g) < n
    ensures FirstIndex(ids, g) == FirstIndex(ids[..n], g)
  {
    if ids[0].group != g {
      assert ids[..n][1..] == ids[1..][..n - 1];
      FirstIndexPrefix(ids[1..], n - 1, g);
    }
  }

  /** Each group's slot count is the largest slot index seen for it: some
      row of the group has it, and no row of the group has a larger one. */
  lemma CountByGroupMaximal(ids: seq<SlotId>)
    ensures var table := CountByGroup(ids);
            forall j, i :: 0 <= j < |table| && 0 <= i < |ids| && ids[i].group == table[j].name
              ==> ids[i].index <= table[j].slots
    ensures var table := CountByGroup(ids);
            forall j :: 0 <= j < |table| ==>
              exists i :: 0 <= i < |ids| && ids[i].group == table[j].name && ids[i].index == table[j].slots
  {
    var table := CountByGroup(ids);
    GroupNamesMembers(ids);
    forall j | 0 <= j < |table|
      ensures forall i :: 0 <= i < |ids| && ids[i].group == table[j].name ==> ids[i].index <= table[j].slots
      ensures exists i :: 0 <= i < |ids| && ids[i].group == table[j].name && ids[i].index == table[j].slots
    {
      var g := table[j].name;
      var slots := SlotsOf(ids, g);
      SlotsOfMembers(ids, g);
      MaxIsLargest(slots);
      assert g in GroupNames(ids);
      forall i | 0 <= i < |ids| && ids[i].group == g ensures ids[i].index <= table[j].slots {
        assert ids[i].index in slots;
        var k :| 0 <= k < |slots| && slots[k] == ids[i].index;
      }
      var i0 :| 0 <= i0 < |ids| && ids[i0].group == g;
      assert ids[i0].index in slots;
      assert Max(slots) in slots;
    }
  }

  // ---------------------------------------------------------------------
  // The operation.

  /** The `each_with_object` loop of `read_count_by_group`: a hash of
      arrays, keyed by group name in insertion order (`order`), to which
      each row appends its slot index. */
  method CollectSlots(rows: seq<Row>) returns (order: seq<string>, slots: map<string, seq<nat>>)
    requires WellFormedTemplate(rows)
    ensures order == GroupNames(Ids(rows))
    ensures forall g :: g in slots <==> g in order
    ensures forall g :: g in slots ==> slots[g] == SlotsOf(Ids(rows), g)
  {
    ghost var ids := Ids(rows);
    order := [];
    slots := map[];
    for i := 0 to |rows|
      invariant order == GroupNames(ids[..i])
      invariant forall g :: g in slots <==> g in order
      invariant forall g :: g in slots ==> slots[g] == SlotsOf(ids[..i], g)
    {
      var id := ParseId(rows[i][0]).value;
      assert id == ids[i];
      GroupTableSnoc(ids, i);
      if id.group !in slots {
        SlotsOfUnseen(ids[..i], id.group);
        order := order + [id.group];
        slots := slots[id.group := []];
      }
      slots := slots[id.group := slots[id.group] + [id.index]];
    }
    assert ids[..|rows|] == ids;
  }

  /** The final `map` of `read_count_by_group`: each key of the hash, in
      insertion order, with the largest index of its array. */
  method MaxPerGroup(order: seq<string>, slots: map<string, seq<nat>>) returns (groups: seq<Group>)
    requires forall g :: g in order ==> g in slots
    ensures |groups| == |order|
    ensures forall t :: 0 <= t < |order| ==> groups[t] == Group(order[t], Max(slots[order[t]]))
  {
    groups := [];
    for j := 0 to |order|
      invariant |groups| == j
      invariant forall t :: 0 <= t < j ==> groups[t] == Group(order[t], Max(slots[order[t]]))
    {
      assert order[j] in order;
      groups := groups + [Group(order[j], Max(slots[order[j]]))];
    }
  }

  /** `read_count_by_group`: collects each group's slot indexes, then
      keeps the largest index of each group, in insertion order. */
  method ReadCountByGroup(rows: seq<Row>) returns (groups: seq<Group>)
    requires WellFormedTemplate(rows)
    ensures groups == CountByGroup(Ids(rows))
  {
    var order, slots := CollectSlots(rows);
    groups := MaxPerGroup(order, slots);
    ghost var ids := Ids(rows);
    ghost var table := CountByGroup(ids);
    forall t | 0 <= t < |groups| ensures groups[t] == table[t] {
      assert order[t] in order;
    }
  }

  /** The IDs of the five-row template of the source's tests. */
  predicate IsExampleTemplate(ids: seq<SlotId>)
  {
    ids == [SlotId("A", 1), SlotId("A", 2), SlotId("B", 1), SlotId("B", 2), SlotId("C", 1)]
  }

  lemma ExampleGroupNames(ids: seq<SlotId>)
    requires IsExampleTemplate(ids)
    ensures GroupNames(ids) == ["A", "B", "C"]
  {
    var p1, p2, p3, p4 := ids[..1], ids[..2], ids[..3], ids[..4];
    assert p1[..0] == [] && p2[..1] == p1 && p3[..2] == p2 && p4[..3] == p3 && ids[..4] == p4;
    assert "A" != "B" && "A" != "C" && "B" != "C" by {
      assert "A"[0] != "B"[0] && "A"[0] != "C"[0] && "B"[0] != "C"[0];
    }
    assert GroupNames(p1) == ["A"];
    assert GroupNames(p2) == ["A"];
    assert GroupNames(p3) == ["A", "B"];
    assert GroupNames(p4) == ["A", "B"];
  }

  lemma ExampleSlots(ids: seq<SlotId>, g: string)
    requires IsExampleTemplate(ids) && g in ["A", "B", "C"]
    ensures SlotsOf(ids, g) == if g == "C" then [1] else [1, 2]
  {
    var p1, p2, p3, p4 := ids[..1], ids[..2], ids[..3], ids[..4];
    assert p1[..0] == [] && p2[..1] == p1 && p3[..2] == p2 && p4[..3] == p3 && ids[..4] == p4;
    assert "A" != "B" && "A" != "C" && "B" != "C" by {
      assert "A"[0] != "B"[0] && "A"[0] != "C"[0] && "B"[0] != "C"[0];
    }
    if g == "A" {
      assert SlotsOf(p1, g) == [1];
      assert SlotsOf(p2, g) == [1, 2];
      assert SlotsOf(p3, g) == [1, 2];
      assert SlotsOf(p4, g) == [1, 2];
    } else if g == "B" {
      assert SlotsOf(p1, g) == [];
      assert SlotsOf(p2, g) == [];
      assert SlotsOf(p3, g) == [1];
      assert SlotsOf(p4, g) == [1, 2];
    } else {
      assert SlotsOf(p4, g) == [] by {
        assert SlotsOf(p1, g) == [];
        assert SlotsOf(p2, g) == [];
        assert SlotsOf(p3, g) == [];
      }
    }
  }

  /** The five-row template of the source's tests (rows `A1`, `A2`, `B1`,
      `B2`, `C1`) gives the table `{A => 2, B => 2, C => 1}`. */
  lemma CountByGroupExample(ids: seq<SlotId>)
    requires IsExampleTemplate(ids)
    ensures CountByGroup(ids) == [Group("A", 2), Group("B", 2), Group("C", 1)]
  {
    ExampleGroupNames(ids);
    var table := CountByGroup(ids);
    assert |table| == 3;
    assert Max([1]) == 1 by { assert [1][..0] == []; }
    assert Max([1, 2]) == 2 by { assert [1, 2][..1] == [1]; }
    assert table[0] == Group("A", 2) by { ExampleSlots(ids, "A"); }
    assert table[1] == Group("B", 2) by { ExampleSlots(ids, "B"); }
    assert table[2] == Group("C", 1) by { ExampleSlots(ids, "C"); }
  }
}
