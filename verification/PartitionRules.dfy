/**
 Which partition metadata the service accepts (internal/queryservice/table_statistics.go), said by positions: every
 ordinal, name and metric, and that no two names of one kind fold alike, wherever they stand.
 */
module PartitionRules {
  import opened Wrappers
  import opened Digits
  import opened JsonText
  import opened KeysetCursor
  import opened Sequences
  import opened PartitionStatistics

  // ------------------------------------------------------------------ entries

  /** Nothing, or the decimal text of an unsigned 64-bit number. */
  ghost predicate Spelled(metric: Metric) {
    metric.Some? ==> exists n: nat :: n < 0x1_0000_0000_0000_0000 && metric.value == Ascii(Decimal(n))
  }

  lemma TwentyDigits()
    ensures Shift(1, 20) == 1_0000_00000_00000_00000 * 10
  {
    ShiftAdd(1, 5, 5);
    ShiftAdd(1, 10, 10);
    assert Shift(1, 5) == 1_00000;
    assert Shift(1_00000, 5) == 1_00000_00000;
    ShiftAdd(1_00000_00000, 5, 5);
    assert Shift(1_00000_00000, 5) == 1_00000_00000_00000;
    assert Shift(1_00000_00000_00000, 5) == 1_00000_00000_00000_00000;
  }

  lemma MetricIsSpelled(metric: Metric)
    ensures ValidMetric(metric) <==> Spelled(metric)
  {
    if metric.Some? {
      if ValidMetric(metric) {
        CanonicalIsDecimal(Chars(metric.value));
        AsciiOfChars(metric.value);
        assert metric.value == Ascii(Decimal(NatOf(Chars(metric.value))));
      }
      if Spelled(metric) {
        var n: nat :| n < 0x1_0000_0000_0000_0000 && metric.value == Ascii(Decimal(n));
        CharsOfAscii(Decimal(n));
        DecimalDenotes(n);
        TwentyDigits();
        DecimalLength(n, 20);
      }
    }
  }

  /** An entry that stands at this ordinal. */
  ghost predicate Stands(names: Names, e: Entry, ordinal: nat) {
    e.ordinal == ordinal && Named(names, e.name)
    && Spelled(e.statistics.rows) && Spelled(e.statistics.data) && Spelled(e.statistics.index)
  }

  /** UTF-8 without what the rune checks refuse, of 1 to 256 bytes and at most 64 runes. */
  predicate Named(names: Names, name: Bytes) {
    name != [] && |name| <= 256 && RuneCount(name) <= 64 && ValidUtf8(name) && names.plain(name)
  }

  lemma EntryStands(names: Names, e: Entry, ordinal: nat)
    ensures e.ordinal == ordinal && ValidName(names, e.name) && ValidStatistics(e.statistics) <==> Stands(names, e, ordinal)
  {
    hide ValidMetric, Spelled;
    MetricIsSpelled(e.statistics.rows);
    MetricIsSpelled(e.statistics.data);
    MetricIsSpelled(e.statistics.index);
  }

  lemma EntriesStand(names: Names, entries: seq<Entry>)
    ensures EntriesValid(names, entries) <==> forall i :: 0 <= i < |entries| ==> Stands(names, entries[i], i + 1)
  {
    hide ValidName, ValidStatistics, Stands;
    forall i | 0 <= i < |entries|
      ensures entries[i].ordinal == i + 1 && ValidName(names, entries[i].name) && ValidStatistics(entries[i].statistics)
         <==> Stands(names, entries[i], i + 1)
    {
      EntryStands(names, entries[i], i + 1);
    }
  }

  // -------------------------------------------------------------------- folds

  predicate Distinct<T(==)>(s: seq<T>) {
    forall i, j :: 0 <= i < j < |s| ==> s[i] != s[j]
  }

  lemma {:induction false} DistinctOnes<T>(s: seq<T>)
    ensures NoDuplicates(s) <==> Distinct(s)
  {
    if s != [] {
      var n := |s| - 1;
      var init := s[..n];
      DistinctOnes(init);
      assert forall i :: 0 <= i < n ==> init[i] == s[i];
      if Distinct(init) && s[n] !in init {
        forall i, j | 0 <= i < j < |s| ensures s[i] != s[j] {
          if j == n {
            assert init[i] == s[i];
          }
        }
      }
    }
  }

  lemma {:induction false} FoldAt(names: Names, entries: seq<Entry>, i: nat)
    requires i < |entries|
    ensures Folds(names, entries)[i] == names.fold(entries[i].name)
    decreases |entries|
  {
    if i < |entries| - 1 {
      FoldAt(names, entries[..|entries| - 1], i);
    }
  }

  lemma {:induction false} GroupFoldAt(names: Names, groups: seq<Group>, i: nat)
    requires i < |groups|
    ensures GroupFolds(names, groups)[i] == names.fold(groups[i].name)
    decreases |groups|
  {
    if i < |groups| - 1 {
      GroupFoldAt(names, groups[..|groups| - 1], i);
    }
  }

  lemma {:induction false} LeafFoldAt(names: Names, leaves: seq<Leaf>, i: nat)
    requires i < |leaves|
    ensures LeafFolds(names, leaves)[i] == names.fold(leaves[i].entry.name)
    decreases |leaves|
  {
    if i < |leaves| - 1 {
      LeafFoldAt(names, leaves[..|leaves| - 1], i);
    }
  }

  /** No two partitions have names that fold alike. */
  predicate PartitionsDiffer(names: Names, entries: seq<Entry>) {
    forall i, j :: 0 <= i < j < |entries| ==> names.fold(entries[i].name) != names.fold(entries[j].name)
  }

  predicate GroupsDiffer(names: Names, groups: seq<Group>) {
    forall i, j :: 0 <= i < j < |groups| ==> names.fold(groups[i].name) != names.fold(groups[j].name)
  }

  lemma FoldsDiffer(names: Names, entries: seq<Entry>)
    ensures NoDuplicates(Folds(names, entries)) <==> PartitionsDiffer(names, entries)
  {
    hide Folds, NoDuplicates;
    var folds := Folds(names, entries);
    DistinctOnes(folds);
    forall i | 0 <= i < |entries| ensures folds[i] == names.fold(entries[i].name) {
      FoldAt(names, entries, i);
    }
  }

  lemma GroupFoldsDiffer(names: Names, groups: seq<Group>)
    ensures NoDuplicates(GroupFolds(names, groups)) <==> GroupsDiffer(names, groups)
  {
    hide GroupFolds, NoDuplicates;
    var folds := GroupFolds(names, groups);
    DistinctOnes(folds);
    forall i | 0 <= i < |groups| ensures folds[i] == names.fold(groups[i].name) {
      GroupFoldAt(names, groups, i);
    }
  }

  // ------------------------------------------------------------------- leaves

  /** Where the subpartitions of the i-th partition start among all of them. */
  function Offset(groups: seq<Group>, i: nat): nat
    requires i <= |groups|
  {
    if i == 0 then 0 else Offset(groups, i - 1) + |groups[i - 1].subpartitions|
  }

  lemma {:induction false} OffsetsGrow(groups: seq<Group>, i: nat, j: nat)
    requires i <= j <= |groups|
    ensures Offset(groups, i) <= Offset(groups, j)
    decreases j
  {
    if i < j {
      OffsetsGrow(groups, i, j - 1);
    }
  }

  lemma {:induction false} OffsetOfPrefix(groups: seq<Group>, n: nat, i: nat)
    requires i <= n <= |groups|
    ensures Offset(groups[..n], i) == Offset(groups, i)
  {
    if i > 0 {
      OffsetOfPrefix(groups, n, i - 1);
    }
  }

  lemma {:induction false} LeavesLength(groups: seq<Group>)
    ensures |Leaves(groups)| == Offset(groups, |groups|)
    decreases |groups|
  {
    if groups != [] {
      var n := |groups| - 1;
      LeavesLength(groups[..n]);
      OffsetOfPrefix(groups, n, n);
    }
  }

  lemma LeavesEnd(groups: seq<Group>)
    requires groups != []
    ensures var n := |groups| - 1;
            Leaves(groups) == Leaves(groups[..n]) + LeavesOf(groups[n])
  {
  }

  lemma LeafOfGroup(g: Group, j: nat)
    requires j < |g.subpartitions|
    ensures LeavesOf(g)[j] == Leaf(g.name, g.ordinal, g.subpartitions[j])
  {
  }

  /** The leaf of each subpartition stands at its place, with the name and the ordinal of its partition. */
  lemma {:induction false} LeavesAt(groups: seq<Group>, i: nat, j: nat)
    requires i < |groups| && j < |groups[i].subpartitions|
    ensures var k := Offset(groups, i) + j;
            k < |Leaves(groups)| && Leaves(groups)[k] == Leaf(groups[i].name, groups[i].ordinal, groups[i].subpartitions[j])
    decreases |groups|
  {
    hide Leaves, LeavesOf, Offset;
    var n := |groups| - 1;
    var init := groups[..n];
    LeavesEnd(groups);
    LeavesLength(init);
    OffsetOfPrefix(groups, n, n);
    OffsetOfPrefix(groups, n, i);
    if i < n {
      LeavesAt(init, i, j);
    } else {
      LeafOfGroup(groups[n], j);
    }
  }

  lemma {:induction false} LeafFrom(groups: seq<Group>, n: nat, k: nat) returns (i: nat, j: nat)
    requires n <= |groups| && k < Offset(groups, n)
    ensures i < n && j < |groups[i].subpartitions| && k == Offset(groups, i) + j
    decreases n
  {
    if k >= Offset(groups, n - 1) {
      i, j := n - 1, k - Offset(groups, n - 1);
    } else {
      i, j := LeafFrom(groups, n - 1, k);
    }
  }

  /** No two subpartitions of the table, in one partition or in two, have names that fold alike. */
  predicate SubpartitionsDiffer(names: Names, groups: seq<Group>) {
    forall i, j, k, l ::
      0 <= i < |groups| && 0 <= j < |groups[i].subpartitions| && 0 <= k < |groups| && 0 <= l < |groups[k].subpartitions|
      && (i < k || (i == k && j < l)) ==>
        names.fold(groups[i].subpartitions[j].name) != names.fold(groups[k].subpartitions[l].name)
  }

  lemma LeafFoldsDiffer(names: Names, groups: seq<Group>)
    ensures NoDuplicates(LeafFolds(names, Leaves(groups))) <==> SubpartitionsDiffer(names, groups)
  {
    hide LeafFolds, NoDuplicates, Leaves, Offset;
    var leaves := Leaves(groups);
    var folds := LeafFolds(names, leaves);
    DistinctOnes(folds);
    LeavesLength(groups);
    if Distinct(folds) {
      forall i, j, k, l |
        0 <= i < |groups| && 0 <= j < |groups[i].subpartitions| && 0 <= k < |groups| && 0 <= l < |groups[k].subpartitions|
        && (i < k || (i == k && j < l))
        ensures names.fold(groups[i].subpartitions[j].name) != names.fold(groups[k].subpartitions[l].name)
      {
        PlacesDiffer(groups, i, j, k, l);
        LeafPlace(names, groups, i, j);
        LeafPlace(names, groups, k, l);
      }
    }
    if SubpartitionsDiffer(names, groups) {
      forall a, b | 0 <= a < b < |folds| ensures folds[a] != folds[b] {
        var i, j := LeafFrom(groups, |groups|, a);
        var k, l := LeafFrom(groups, |groups|, b);
        LeafPlace(names, groups, i, j);
        LeafPlace(names, groups, k, l);
        EarlierPlace(groups, i, j, k, l);
      }
    }
  }

  lemma LeafPlace(names: Names, groups: seq<Group>, i: nat, j: nat)
    requires i < |groups| && j < |groups[i].subpartitions|
    ensures Offset(groups, i) + j < |LeafFolds(names, Leaves(groups))|
    ensures LeafFolds(names, Leaves(groups))[Offset(groups, i) + j] == names.fold(groups[i].subpartitions[j].name)
  {
    hide LeafFolds, Leaves, Offset;
    LeavesAt(groups, i, j);
    LeafFoldAt(names, Leaves(groups), Offset(groups, i) + j);
  }

  lemma PlacesDiffer(groups: seq<Group>, i: nat, j: nat, k: nat, l: nat)
    requires i < |groups| && j < |groups[i].subpartitions| && k < |groups| && l < |groups[k].subpartitions|
    requires i < k || (i == k && j < l)
    ensures Offset(groups, i) + j < Offset(groups, k) + l
  {
    if i < k {
      OffsetsGrow(groups, i + 1, k);
    }
  }

  lemma EarlierPlace(groups: seq<Group>, i: nat, j: nat, k: nat, l: nat)
    requires i < |groups| && j < |groups[i].subpartitions| && k < |groups| && l < |groups[k].subpartitions|
    requires Offset(groups, i) + j < Offset(groups, k) + l
    ensures i < k || (i == k && j < l)
  {
    if k < i {
      OffsetsGrow(groups, k + 1, i);
    }
  }

  // ------------------------------------------------------------------ verdict

  /** A partition with subpartitions, at its ordinal and with theirs. */
  ghost predicate GroupStands(names: Names, g: Group, ordinal: nat) {
    && g.ordinal == ordinal && Named(names, g.name) && g.subpartitions != []
    && forall j :: 0 <= j < |g.subpartitions| ==> Stands(names, g.subpartitions[j], j + 1)
  }

  /** What the service accepts. */
  ghost predicate Acceptable(names: Names, p: Partitioning) {
    match p.kind
    case Unread => false
    case Unpartitioned => p.method_ == "" && p.subMethod == "" && p.partitions == [] && p.groups == []
    case Partitioned =>
      && p.method_ in {"hash", "linear_hash", "key", "linear_key", "range", "range_columns", "list", "list_columns"}
      && p.subMethod == "" && p.groups == [] && 1 <= |p.partitions| <= 8192
      && (forall i :: 0 <= i < |p.partitions| ==> Stands(names, p.partitions[i], i + 1))
      && PartitionsDiffer(names, p.partitions)
    case Subpartitioned =>
      && p.method_ in {"range", "range_columns", "list", "list_columns"}
      && p.subMethod in {"hash", "linear_hash", "key", "linear_key"}
      && p.partitions == [] && p.groups != [] && Offset(p.groups, |p.groups|) <= 8192
      && (forall i :: 0 <= i < |p.groups| ==> GroupStands(names, p.groups[i], i + 1))
      && GroupsDiffer(names, p.groups) && SubpartitionsDiffer(names, p.groups)
  }

  lemma GroupsStand(names: Names, groups: seq<Group>)
    ensures GroupsValid(names, groups) <==> forall i :: 0 <= i < |groups| ==> GroupStands(names, groups[i], i + 1)
  {
    hide EntriesValid, Stands, ValidName, Named;
    forall i | 0 <= i < |groups|
      ensures EntriesValid(names, groups[i].subpartitions) <==>
                forall j :: 0 <= j < |groups[i].subpartitions| ==> Stands(names, groups[i].subpartitions[j], j + 1)
      ensures ValidName(names, groups[i].name) == Named(names, groups[i].name)
    {
      EntriesStand(names, groups[i].subpartitions);
      NameIsNamed(names, groups[i].name);
    }
  }

  lemma NameIsNamed(names: Names, name: Bytes)
    ensures ValidName(names, name) == Named(names, name)
  {
    hide ValidUtf8, RuneCount;
  }

  /** The verdict on any result, and the counts that go with it. */
  lemma VerdictDecided(names: Names, p: Partitioning)
    ensures Verdict(names, p).Some? <==> Acceptable(names, p)
    ensures Verdict(names, p).Some? ==>
              Verdict(names, p).value == (if p.kind == Unpartitioned then (0, 0)
                                          else if p.kind == Partitioned then (|p.partitions|, 0)
                                          else (|p.groups|, Offset(p.groups, |p.groups|)))
  {
    hide EntriesValid, GroupsValid, Folds, GroupFolds, LeafFolds, Leaves, NoDuplicates, Offset, Stands, GroupStands,
         PartitionsDiffer, GroupsDiffer, SubpartitionsDiffer;
    EntriesStand(names, p.partitions);
    FoldsDiffer(names, p.partitions);
    GroupsStand(names, p.groups);
    GroupFoldsDiffer(names, p.groups);
    LeafFoldsDiffer(names, p.groups);
    LeavesLength(p.groups);
  }
}
